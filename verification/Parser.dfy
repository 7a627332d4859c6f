/** The recursive-descent parser over the lexer, and the statement list it builds. */
module Parser {
  import opened Lexing
  import opened Lexer
  import opened Grammar

  // ---------------------------------------------------------------- string views

  /** `memcmp` of the first `n` characters: the difference at the first place where they differ. */
  function MemCmp(a: string, b: string, n: nat): int
    requires n <= |a| && n <= |b|
  {
    if n == 0 then 0
    else if a[0] != b[0] then a[0] as int - b[0] as int
    else MemCmp(a[1..], b[1..], n - 1)
  }

  /** Views are compared only up to the shorter length. */
  function ViewCmp(a: string, b: string): int {
    MemCmp(a, b, if |a| < |b| then |a| else |b|)
  }

  lemma {:induction false} MemCmpIsZeroIff(a: string, b: string, n: nat)
    requires n <= |a| && n <= |b|
    ensures MemCmp(a, b, n) == 0 <==> a[..n] == b[..n]
  {
    if n > 0 {
      MemCmpIsZeroIff(a[1..], b[1..], n - 1);
      assert a[..n] == [a[0]] + a[1..][..n - 1];
      assert b[..n] == [b[0]] + b[1..][..n - 1];
    }
  }

  /** So views compare equal exactly when one is a prefix of the other. */
  lemma ViewCmpIsZeroIff(a: string, b: string)
    ensures ViewCmp(a, b) == 0 <==> a <= b || b <= a
  {
    var n := if |a| < |b| then |a| else |b|;
    MemCmpIsZeroIff(a, b, n);
    assert a[..|a|] == a && b[..|b|] == b;
  }

  function TextOf(s: string, t: Token): string {
    if t.start.At? && t.start.offset + t.len <= |s| then s[t.start.offset..t.start.offset + t.len] else ""
  }

  predicate IsWrite(s: string, t: Token) { t.kind == Id && ViewCmp(TextOf(s, t), "WRITE") == 0 }

  predicate IsEnd(s: string, t: Token) { t.kind == Id && ViewCmp(TextOf(s, t), "END") == 0 }

  /** The lexer as a source of tokens for the grammar. */
  function SourceOf(s: string): (src: Source)
    ensures Progress(src) && src.limit == |s|
  {
    Source((p: nat) => if p <= |s| then Scan(s, p) else Scanned(EOF_TOKEN, p), |s|, t => IsWrite(s, t), t => IsEnd(s, t))
  }

  lemma {:induction false} SourceFollowsStream(s: string, pos: nat, k: nat)
    requires pos <= |s|
    ensures PosAfter(SourceOf(s), pos, k) == PosAt(s, pos, k)
    ensures TokenNo(SourceOf(s), pos, k) == Stream(s, pos, k)
    decreases k
  {
    if k > 0 { SourceFollowsStream(s, Scan(s, pos).pos, k - 1); }
  }

  // ---------------------------------------------------------------- the statement list

  class StmtNode {
    var statement: Stmt
    var next: StmtNode?

    constructor (statement: Stmt)
      ensures this.statement == statement && next == null
    {
      this.statement, next := statement, null;
    }
  }

  method StatementsAppend(list: StmtNode?, statement: Stmt) returns (node: StmtNode)
    modifies if list != null then {list} else {}
    ensures fresh(node) && node.statement == statement && node.next == null
    ensures list != null ==> list.next == node && list.statement == old(list.statement)
  {
    node := new StmtNode(statement);
    if list != null {
      list.next := node;
    }
  }

  function Follower(chain: seq<StmtNode>, i: nat): StmtNode? { if i + 1 < |chain| then chain[i + 1] else null }

  /** The nodes of `chain` are distinct, hold the statements in order, and each links to the next. */
  ghost predicate IsChain(chain: seq<StmtNode>, stmts: seq<Stmt>)
    reads chain
  {
    && |chain| == |stmts|
    && (forall i, j :: 0 <= i < j < |chain| ==> chain[i] != chain[j])
    && (forall i :: 0 <= i < |chain| ==> chain[i].statement == stmts[i])
    && (forall i :: 0 <= i < |chain| ==> chain[i].next == Follower(chain, i))
  }

  ghost predicate IsChainTo(chain: seq<StmtNode>, stmts: seq<Stmt>, last: StmtNode?)
    reads chain
  {
    IsChain(chain, stmts) && last == if chain == [] then null else chain[|chain| - 1]
  }

  /** Following the links from `head` on reads exactly `stmts`. */
  ghost predicate ListsFrom(head: StmtNode?, stmts: seq<Stmt>)
    reads *
    decreases |stmts|
  {
    if stmts == [] then head == null
    else head != null && head.statement == stmts[0] && ListsFrom(head.next, stmts[1..])
  }

  /** A chain reads as its statements from its first node on. */
  lemma {:induction false} ChainListsFrom(chain: seq<StmtNode>, stmts: seq<Stmt>)
    requires IsChain(chain, stmts)
    ensures ListsFrom(if chain == [] then null else chain[0], stmts)
    decreases |chain|
  {
    if chain != [] {
      ChainTail(chain, stmts);
      ChainListsFrom(chain[1..], stmts[1..]);
    }
  }

  lemma ChainTail(chain: seq<StmtNode>, stmts: seq<Stmt>)
    requires IsChain(chain, stmts) && chain != []
    ensures IsChain(chain[1..], stmts[1..])
    ensures chain[0].next == if |chain| > 1 then chain[1] else null
  {
    forall i | 0 <= i < |chain| - 1 ensures chain[1..][i].next == Follower(chain[1..], i) {
      assert chain[1..][i] == chain[i + 1] && Follower(chain[1..], i) == Follower(chain, i + 1);
    }
    assert chain[0].next == Follower(chain, 0);
  }

  /** Without a head a list reads as the statements parsed exactly when the first token is not WRITE-like. */
  lemma NoHeadListsIff(s: string, pos: nat, head: StmtNode?)
    requires pos <= |s| && head == null && ParseFrom(SourceOf(s), pos).Accepted?
    ensures ListsFrom(head, ParseFrom(SourceOf(s), pos).stmts) <==> !IsWrite(s, Scan(s, pos).token)
  {
    FirstTokenDecides(SourceOf(s), pos);
  }

  /** A list reads in one way only. */
  lemma {:induction false} ListIsUnique(head: StmtNode?, a: seq<Stmt>, b: seq<Stmt>)
    requires ListsFrom(head, a) && ListsFrom(head, b)
    ensures a == b
    decreases |a|
  {
    if a != [] { ListIsUnique(head.next, a[1..], b[1..]); }
  }

  /** Appending at the last node extends the chain. */
  method ExtendChain(last: StmtNode?, statement: Stmt, ghost chain: seq<StmtNode>, ghost stmts: seq<Stmt>)
      returns (node: StmtNode)
    requires IsChainTo(chain, stmts, last)
    modifies chain
    ensures fresh(node) && IsChainTo(chain + [node], stmts + [statement], node)
  {
    node := StatementsAppend(last, statement);
  }

  datatype StatementResult = Parsed(stmt: Stmt) | NoStatement | Exit

  /** The compilation unit of a parse: its statement list and its END; none before a successful parse. */
  datatype Ast = NoTree | Tree(statements: StmtNode?, end: Token)

  class AqlsParser {
    const lexer: TokenLexer
    var ast: Ast

    ghost predicate Valid()
      reads this, lexer, lexer.lookahead, lexer.lookahead.items
    {
      lexer.Valid()
    }

    /** What the grammar says about the input from a position on. */
    ghost function Rest(pos: nat): Statements
      requires pos <= |lexer.input|
    {
      StatementsFrom(SourceOf(lexer.input), pos)
    }

    constructor (input: string)
      ensures Valid() && lexer.input == input && lexer.View() == State(0, []) && ast == NoTree
      ensures fresh(lexer) && fresh(lexer.lookahead) && fresh(lexer.lookahead.items)
    {
      lexer := new TokenLexer(input);
      ast := NoTree;
    }

    method ParseStatementWrite() returns (r: StatementResult)
      requires Valid() && IsWrite(lexer.input, Scan(lexer.input, lexer.pos).token)
      modifies lexer`pos, lexer`cursor, lexer.lookahead
      ensures Valid()
      ensures var w := Scan(lexer.input, old(lexer.pos));
              var o := Scan(lexer.input, w.pos);
              if o.token.kind != StringLiteral then r == Exit
              else r == Parsed(Write(w.token, o.token)) && lexer.pos == o.pos
    {
      var write := lexer.NextToken();
      var operand := lexer.NextToken();
      if operand.kind != StringLiteral {
        return Exit;
      }
      r := Parsed(Write(write, operand));
    }

    method ParseStatement() returns (r: StatementResult)
      requires Valid()
      modifies lexer`pos, lexer`cursor, lexer.lookahead, lexer.lookahead.items
      ensures Valid()
      ensures StatementsFrom(SourceOf(lexer.input), old(lexer.pos)) ==
                match r
                case NoStatement => Statements([], lexer.pos)
                case Exit => Broken
                case Parsed(stmt) => Prepend([stmt], StatementsFrom(SourceOf(lexer.input), lexer.pos))
      ensures r.NoStatement? ==> lexer.pos == old(lexer.pos)
      ensures r.Parsed? ==> lexer.pos > old(lexer.pos)
    {
      var token := lexer.PeekToken();
      if token.kind == Id && ViewCmp(TextOf(lexer.input, token), "WRITE") == 0 {
        r := ParseStatementWrite();
      } else {
        r := NoStatement;
      }
    }

    /** One turn of the statement loop: a statement is parsed and appended behind `last`. `chain` and
        `stmts` are what was appended so far, and what remains to parse is told by the grammar. */
    method ParseAndAppend(last: StmtNode?, ghost chain: seq<StmtNode>, ghost stmts: seq<Stmt>)
        returns (r: StatementResult, node: StmtNode?, ghost chain': seq<StmtNode>, ghost stmts': seq<Stmt>)
      requires Valid() && IsChainTo(chain, stmts, last)
      requires forall n :: n in chain ==> n as object !in {lexer, lexer.lookahead, lexer.lookahead.items}
      modifies lexer`pos, lexer`cursor, lexer.lookahead, lexer.lookahead.items, chain
      ensures Valid() && IsChainTo(chain', stmts', node)
      ensures r.Parsed? ==> node != null && fresh(node) && chain' == chain + [node]
      ensures !r.Parsed? ==> chain' == chain
      ensures Prepend(stmts, Rest(old(lexer.pos))) ==
                match r
                case NoStatement => Statements(stmts', lexer.pos)
                case Exit => Broken
                case Parsed(stmt) => Prepend(stmts', Rest(lexer.pos))
      ensures r.Parsed? ==> lexer.pos > old(lexer.pos)
    {
      r := ParseStatement();
      node, chain', stmts' := last, chain, stmts;
      if r.Parsed? {
        PrependTwice(stmts, [r.stmt], Rest(lexer.pos));
        node := ExtendChain(last, r.stmt, chain, stmts);
        chain', stmts' := chain + [node], stmts + [r.stmt];
      } else {
        assert stmts + [] == stmts;
      }
    }

    /** The head returned is never assigned; `chain` holds the nodes that were appended. */
    method ParseStatements() returns (exited: bool, head: StmtNode?, ghost chain: seq<StmtNode>, ghost stmts: seq<Stmt>)
      requires Valid()
      modifies lexer`pos, lexer`cursor, lexer.lookahead, lexer.lookahead.items
      ensures Valid() && head == null
      ensures Rest(old(lexer.pos)) == if exited then Broken else Statements(stmts, lexer.pos)
      ensures IsChain(chain, stmts) && fresh(chain)
    {
      head, chain, stmts := null, [], [];
      var last: StmtNode? := null;
      var r := NoStatement;
      ghost var all := Rest(lexer.pos);
      while true
        invariant Valid() && all == Prepend(stmts, Rest(lexer.pos))
        invariant IsChainTo(chain, stmts, last) && fresh(chain)
        decreases |lexer.input| - lexer.pos
      {
        r, last, chain, stmts := ParseAndAppend(last, chain, stmts);
        if !r.Parsed? {
          break;
        }
      }
      exited := r.Exit?;
    }

    method ParseEnd() returns (exited: bool, token: Token)
      requires Valid()
      modifies lexer`pos, lexer`cursor, lexer.lookahead
      ensures Valid() && lexer.View().ahead == []
      ensures var e := Scan(lexer.input, old(lexer.pos));
              token == e.token && exited == !IsEnd(lexer.input, token) && (!exited ==> lexer.pos == e.pos)
    {
      token := lexer.NextToken();
      exited := token.kind != Id || ViewCmp(TextOf(lexer.input, token), "END") != 0;
    }

    /** A compilation unit: its list head is the null one. */
    method ParseCompilationUnit() returns (exited: bool, unit: Ast, ghost chain: seq<StmtNode>)
      requires Valid()
      modifies lexer`pos, lexer`cursor, lexer.lookahead, lexer.lookahead.items
      ensures Valid()
      ensures var r := ParseFrom(SourceOf(lexer.input), old(lexer.pos));
              if exited then r == Exited
              else r.Accepted? && unit == Tree(null, r.endToken) && lexer.View() == State(r.pos, []) && IsChain(chain, r.stmts)
    {
      ghost var stmts;
      var head, end;
      unit := NoTree;
      exited, head, chain, stmts := ParseStatements();
      if exited {
        return;
      }
      exited, end := ParseEnd();
      unit := Tree(head, end);
    }

    /** Returns 0 on acceptance; every failure exits the program instead of returning. The tree then lists
        the statements parsed exactly when the input does not begin with one. */
    method Parse() returns (exited: bool, rc: int, ghost chain: seq<StmtNode>)
      requires Valid()
      modifies this`ast, lexer`pos, lexer`cursor, lexer.lookahead, lexer.lookahead.items
      ensures Valid()
      ensures var r := ParseFrom(SourceOf(lexer.input), old(lexer.pos));
              if exited then r == Exited && ast == old(ast)
              else rc == 0 && r.Accepted? && ast == Tree(null, r.endToken) && lexer.View() == State(r.pos, []) &&
                   IsChain(chain, r.stmts) &&
                   (ListsFrom(ast.statements, r.stmts) <==> !IsWrite(lexer.input, Scan(lexer.input, old(lexer.pos)).token))
    {
      var unit;
      rc := 0;
      exited, unit, chain := ParseCompilationUnit();
      if !exited {
        NoHeadListsIff(lexer.input, old(lexer.pos), unit.statements);
        ast := unit;
      }
    }
  }
}
