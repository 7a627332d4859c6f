/** The AQLS grammar over any source of tokens: which token sequences parse, and to what. */
module Grammar {
  import opened Lexing

  /** Where tokens come from: what a scan at a position yields, and which tokens are the keywords. */
  datatype Source = Source(scan: nat -> Scanned, limit: nat, isWrite: Token -> bool, isEnd: Token -> bool)

  /** Scans stay in the input and a WRITE consumes something. */
  ghost predicate Progress(src: Source) {
    forall p: nat :: p <= src.limit ==>
      p <= src.scan(p).pos <= src.limit && (src.isWrite(src.scan(p).token) ==> p < src.scan(p).pos)
  }

  datatype Stmt = Write(writeToken: Token, operand: Token)

  datatype Statements = Statements(stmts: seq<Stmt>, pos: nat) | Broken

  /** What parsing ends with: the tree, and the position reached; or the program exits. */
  datatype Outcome = Accepted(stmts: seq<Stmt>, endToken: Token, pos: nat) | Exited

  function StatementsFrom(src: Source, pos: nat): (r: Statements)
    requires Progress(src) && pos <= src.limit
    ensures r.Statements? ==> pos <= r.pos <= src.limit
    decreases src.limit - pos
  {
    var w := src.scan(pos);
    if !src.isWrite(w.token) then Statements([], pos)
    else
      var o := src.scan(w.pos);
      if o.token.kind != StringLiteral then Broken
      else Prepend([Write(w.token, o.token)], StatementsFrom(src, o.pos))
  }

  function Prepend(stmts: seq<Stmt>, r: Statements): (r': Statements) {
    match r
    case Broken => Broken
    case Statements(rest, p) => Statements(stmts + rest, p)
  }

  lemma PrependTwice(a: seq<Stmt>, b: seq<Stmt>, r: Statements)
    ensures Prepend(a, Prepend(b, r)) == Prepend(a + b, r)
  {
  }

  /** There are statements exactly when the first token is a WRITE. */
  lemma FirstTokenDecides(src: Source, pos: nat)
    requires Progress(src) && pos <= src.limit && StatementsFrom(src, pos).Statements?
    ensures StatementsFrom(src, pos).stmts == [] <==> !src.isWrite(src.scan(pos).token)
  {
  }

  function ParseFrom(src: Source, pos: nat): (r: Outcome)
    requires Progress(src) && pos <= src.limit
  {
    match StatementsFrom(src, pos)
    case Broken => Exited
    case Statements(stmts, p) =>
      var e := src.scan(p);
      if src.isEnd(e.token) then Accepted(stmts, e.token, e.pos) else Exited
  }

  // ---------------------------------------------------------------- the token sequence

  /** The position after `k` tokens from `pos`. */
  function PosAfter(src: Source, pos: nat, k: nat): (p: nat)
    requires Progress(src) && pos <= src.limit
    ensures pos <= p <= src.limit
    decreases k
  {
    if k == 0 then pos else PosAfter(src, src.scan(pos).pos, k - 1)
  }

  /** The `k`-th token from `pos`. */
  function TokenNo(src: Source, pos: nat, k: nat): Token
    requires Progress(src) && pos <= src.limit
  {
    src.scan(PosAfter(src, pos, k)).token
  }

  /** The tokens from `pos` start with the statements' pairs: a WRITE and a STRING_LITERAL each. */
  ghost predicate StatementTokens(src: Source, pos: nat, stmts: seq<Stmt>)
    requires Progress(src) && pos <= src.limit
  {
    forall i :: 0 <= i < |stmts| ==>
      && stmts[i] == Write(TokenNo(src, pos, 2 * i), TokenNo(src, pos, 2 * i + 1))
      && src.isWrite(stmts[i].writeToken) && stmts[i].operand.kind == StringLiteral
  }

  lemma TwoTokensOn(src: Source, pos: nat, k: nat)
    requires Progress(src) && pos <= src.limit
    ensures PosAfter(src, pos, 2) == src.scan(src.scan(pos).pos).pos
    ensures PosAfter(src, pos, k + 2) == PosAfter(src, PosAfter(src, pos, 2), k)
  {
  }

  lemma StatementTokensCons(src: Source, pos: nat, stmt: Stmt, rest: seq<Stmt>)
    requires Progress(src) && pos <= src.limit
    ensures StatementTokens(src, pos, [stmt] + rest) <==>
              && stmt == Write(TokenNo(src, pos, 0), TokenNo(src, pos, 1))
              && src.isWrite(stmt.writeToken) && stmt.operand.kind == StringLiteral
              && StatementTokens(src, PosAfter(src, pos, 2), rest)
  {
    var all, pos' := [stmt] + rest, PosAfter(src, pos, 2);
    forall k: nat ensures TokenNo(src, pos', k) == TokenNo(src, pos, k + 2) { TwoTokensOn(src, pos, k); }
    if StatementTokens(src, pos, all) {
      assert all[0] == stmt;
      forall i | 0 <= i < |rest|
        ensures rest[i] == Write(TokenNo(src, pos', 2 * i), TokenNo(src, pos', 2 * i + 1))
        ensures src.isWrite(rest[i].writeToken) && rest[i].operand.kind == StringLiteral
      {
        assert all[i + 1] == rest[i];
      }
    }
  }

  lemma {:induction false} ParsedStatementsAreTokens(src: Source, pos: nat)
    requires Progress(src) && pos <= src.limit && StatementsFrom(src, pos).Statements?
    ensures var r := StatementsFrom(src, pos);
            && StatementTokens(src, pos, r.stmts)
            && r.pos == PosAfter(src, pos, 2 * |r.stmts|)
            && !src.isWrite(TokenNo(src, pos, 2 * |r.stmts|))
    decreases src.limit - pos
  {
    var w := src.scan(pos);
    if src.isWrite(w.token) {
      var o := src.scan(w.pos);
      ParsedStatementsAreTokens(src, o.pos);
      TwoTokensOn(src, pos, 2 * |StatementsFrom(src, o.pos).stmts|);
      StatementTokensCons(src, pos, Write(w.token, o.token), StatementsFrom(src, o.pos).stmts);
    }
  }

  lemma {:induction false} TokensAreParsed(src: Source, pos: nat, stmts: seq<Stmt>)
    requires Progress(src) && pos <= src.limit
    requires StatementTokens(src, pos, stmts) && !src.isWrite(TokenNo(src, pos, 2 * |stmts|))
    ensures StatementsFrom(src, pos) == Statements(stmts, PosAfter(src, pos, 2 * |stmts|))
    decreases |stmts|
  {
    if stmts != [] {
      var w := src.scan(pos);
      var o := src.scan(w.pos);
      TwoTokensOn(src, pos, 2 * |stmts| - 2);
      assert stmts == [stmts[0]] + stmts[1..];
      StatementTokensCons(src, pos, stmts[0], stmts[1..]);
      TokensAreParsed(src, o.pos, stmts[1..]);
    }
  }

  lemma {:induction false} PosAfterNext(src: Source, pos: nat, k: nat)
    requires Progress(src) && pos <= src.limit
    ensures PosAfter(src, pos, k + 1) == src.scan(PosAfter(src, pos, k)).pos
    decreases k
  {
    if k > 0 { PosAfterNext(src, src.scan(pos).pos, k - 1); }
  }

  /** The grammar accepts exactly the token sequences that start with n pairs and then an END, and it
      has then consumed exactly 2n + 1 tokens. */
  lemma AcceptsExactly(src: Source, pos: nat, stmts: seq<Stmt>, end: Token, p: nat)
    requires Progress(src) && pos <= src.limit
    requires forall q: nat :: q <= src.limit && src.isEnd(src.scan(q).token) ==> !src.isWrite(src.scan(q).token)
    ensures ParseFrom(src, pos) == Accepted(stmts, end, p) <==>
              && StatementTokens(src, pos, stmts)
              && end == TokenNo(src, pos, 2 * |stmts|) && src.isEnd(end)
              && p == PosAfter(src, pos, 2 * |stmts| + 1)
  {
    PosAfterNext(src, pos, 2 * |stmts|);
    if ParseFrom(src, pos) == Accepted(stmts, end, p) {
      ParsedStatementsAreTokens(src, pos);
    }
    if StatementTokens(src, pos, stmts) && end == TokenNo(src, pos, 2 * |stmts|) && src.isEnd(end) {
      TokensAreParsed(src, pos, stmts);
    }
  }

  /** After the statements, a token that is neither keyword is refused. */
  lemma RefusesOther(src: Source, pos: nat, stmts: seq<Stmt>)
    requires Progress(src) && pos <= src.limit && StatementTokens(src, pos, stmts)
    requires !src.isWrite(TokenNo(src, pos, 2 * |stmts|)) && !src.isEnd(TokenNo(src, pos, 2 * |stmts|))
    ensures ParseFrom(src, pos) == Exited
  {
    TokensAreParsed(src, pos, stmts);
  }
}
