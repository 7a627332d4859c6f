/** What the parser accepts: in terms of the token stream, and for printed programs. */
module ParserRuns {
  import opened Lexing
  import opened Grammar
  import opened Parser

  /** No token counts as both keywords. */
  lemma KeywordsDiffer(s: string)
    ensures var src := SourceOf(s);
            forall q: nat :: q <= |s| && src.isEnd(src.scan(q).token) ==> !src.isWrite(src.scan(q).token)
  {
  }

  /** Statement `i` is made of the tokens 2i and 2i + 1 of the input: an identifier that is a prefix of WRITE or
      has it as a prefix, and a string literal. */
  ghost predicate StatementAt(s: string, i: nat, stmt: Stmt) {
    && stmt == Write(Stream(s, 0, 2 * i), Stream(s, 0, 2 * i + 1))
    && stmt.writeToken.kind == Id && (TextOf(s, stmt.writeToken) <= "WRITE" || "WRITE" <= TextOf(s, stmt.writeToken))
    && stmt.operand.kind == StringLiteral
  }

  /** The same in terms of the parser's test. */
  ghost predicate KeywordStatementAt(s: string, i: nat, stmt: Stmt) {
    && stmt == Write(Stream(s, 0, 2 * i), Stream(s, 0, 2 * i + 1))
    && IsWrite(s, stmt.writeToken) && stmt.operand.kind == StringLiteral
  }

  lemma KeywordsInLetters(s: string, t: Token)
    ensures IsWrite(s, t) <==> t.kind == Id && (TextOf(s, t) <= "WRITE" || "WRITE" <= TextOf(s, t))
    ensures IsEnd(s, t) <==> t.kind == Id && (TextOf(s, t) <= "END" || "END" <= TextOf(s, t))
  {
    ViewCmpIsZeroIff(TextOf(s, t), "WRITE");
    ViewCmpIsZeroIff(TextOf(s, t), "END");
  }

  lemma StatementInLetters(s: string, i: nat, stmt: Stmt)
    ensures StatementAt(s, i, stmt) <==> KeywordStatementAt(s, i, stmt)
  {
    KeywordsInLetters(s, stmt.writeToken);
  }

  lemma AcceptsKeywordsExactly(s: string, stmts: seq<Stmt>, end: Token, p: nat)
    ensures ParseFrom(SourceOf(s), 0) == Accepted(stmts, end, p) <==>
              && (forall i :: 0 <= i < |stmts| ==> KeywordStatementAt(s, i, stmts[i]))
              && end == Stream(s, 0, 2 * |stmts|) && IsEnd(s, end)
              && p == PosAt(s, 0, 2 * |stmts| + 1)
  {
    var src := SourceOf(s);
    KeywordsDiffer(s);
    AcceptsExactly(src, 0, stmts, end, p);
    SourceFollowsStream(s, 0, 2 * |stmts|);
    SourceFollowsStream(s, 0, 2 * |stmts| + 1);
    forall i | 0 <= i < |stmts|
      ensures TokenNo(src, 0, 2 * i) == Stream(s, 0, 2 * i) && TokenNo(src, 0, 2 * i + 1) == Stream(s, 0, 2 * i + 1)
    {
      SourceFollowsStream(s, 0, 2 * i);
      SourceFollowsStream(s, 0, 2 * i + 1);
    }
  }

  /** The parser accepts exactly when the token stream starts with n pairs of a WRITE-like identifier and
      a string literal and then an END-like identifier, and it consumes exactly 2n + 1 tokens. */
  lemma ParserAcceptsExactly(s: string, stmts: seq<Stmt>, end: Token, p: nat)
    ensures ParseFrom(SourceOf(s), 0) == Accepted(stmts, end, p) <==>
              && (forall i :: 0 <= i < |stmts| ==> StatementAt(s, i, stmts[i]))
              && end == Stream(s, 0, 2 * |stmts|)
              && end.kind == Id && (TextOf(s, end) <= "END" || "END" <= TextOf(s, end))
              && p == PosAt(s, 0, 2 * |stmts| + 1)
  {
    AcceptsKeywordsExactly(s, stmts, end, p);
    KeywordsInLetters(s, end);
    forall i | 0 <= i < |stmts| ensures StatementAt(s, i, stmts[i]) <==> KeywordStatementAt(s, i, stmts[i]) {
      StatementInLetters(s, i, stmts[i]);
    }
  }

  /** After `k` tokens of a printed text, the pieces from the `k`-th on remain. */
  lemma {:induction false} PrintedAfter(s: string, ps: seq<Piece>, rest: string, k: nat)
    requires PrintedAt(s, 0, ps, rest) && k <= |ps|
    ensures PrintedAt(s, PosAt(s, 0, k), ps[k..], rest)
  {
    if k == 0 {
      assert ps[0..] == ps;
    } else {
      PrintedAfter(s, ps, rest, k - 1);
      NextPiece(s, PosAt(s, 0, k - 1), ps[k - 1..], rest);
      PosAtNext(s, 0, k - 1);
      assert ps[k - 1..][1..] == ps[k..];
    }
  }

  lemma FirstPieceText(s: string, pos: nat, ps: seq<Piece>, rest: string)
    requires PrintedAt(s, pos, ps, rest) && ps != []
    ensures Scan(s, pos).token.kind == ps[0].kind && TextOf(s, Scan(s, pos).token) == ps[0].text
  {
    ScanFirstPiece(s, pos, ps, rest);
    CharactersOf(s, pos, ps[0].gap, ps[0].text, Print(ps[1..], rest));
    assert s[pos + |ps[0].gap|..pos + |ps[0].gap| + |ps[0].text|] == ps[0].text;
  }

  /** The `k`-th token of a printed text is its `k`-th piece, whatever follows the pieces. */
  lemma PrintedStream(ps: seq<Piece>, rest: string, k: nat)
    requires WellFormed(ps) && Delimits(ps, rest) && k < |ps|
    ensures var s := Print(ps, rest);
            Stream(s, 0, k).kind == ps[k].kind && TextOf(s, Stream(s, 0, k)) == ps[k].text
  {
    var s := Print(ps, rest);
    assert s[0..] == s;
    PrintedAfter(s, ps, rest, k);
    FirstPieceText(s, PosAt(s, 0, k), ps[k..], rest);
  }

  /** The pieces of a program: `n` WRITE statements and an END-like identifier, with any well-formed spacing. */
  predicate IsProgram(ps: seq<Piece>, n: nat) {
    && WellFormed(ps) && |ps| == 2 * n + 1
    && (forall i :: 0 <= i < n ==> ps[2 * i].kind == Id && ps[2 * i].text == "WRITE")
    && (forall i :: 0 <= i < n ==> ps[2 * i + 1].kind == StringLiteral)
    && ps[2 * n].kind == Id && "END" <= ps[2 * n].text
  }

  lemma KeywordsCompare(text: string)
    requires "END" <= text
    ensures ViewCmp(text, "END") == 0 && ViewCmp("WRITE", "WRITE") == 0
  {
    ViewCmpIsZeroIff(text, "END");
    ViewCmpIsZeroIff("WRITE", "WRITE");
  }

  /** A program is accepted if what follows does not lengthen its END. */
  lemma DelimitedRoundTrip(ps: seq<Piece>, rest: string, n: nat) returns (stmts: seq<Stmt>, end: Token, p: nat)
    requires IsProgram(ps, n) && Delimits(ps, rest)
    ensures IsParsed(Print(ps, rest), ps, n, stmts, end, p) && TextOf(Print(ps, rest), end) == ps[2 * n].text
  {
    var s := Print(ps, rest);
    stmts := seq(n, i requires 0 <= i < n => Write(Stream(s, 0, 2 * i), Stream(s, 0, 2 * i + 1)));
    end, p := Stream(s, 0, 2 * n), PosAt(s, 0, 2 * n + 1);
    KeywordsCompare(ps[2 * n].text);
    PrintedStream(ps, rest, 2 * n);
    forall i | 0 <= i < n ensures StatementAt(s, i, stmts[i]) && TextOf(s, stmts[i].operand) == ps[2 * i + 1].text {
      PrintedStream(ps, rest, 2 * i);
      PrintedStream(ps, rest, 2 * i + 1);
    }
    ParserAcceptsExactly(s, stmts, end, p);
  }

  /** The text is accepted, with one statement for each WRITE and the printed literals as operands. */
  ghost predicate IsParsed(s: string, ps: seq<Piece>, n: nat, stmts: seq<Stmt>, end: Token, p: nat)
    requires |ps| == 2 * n + 1
  {
    && ParseFrom(SourceOf(s), 0) == Accepted(stmts, end, p)
    && |stmts| == n
    && forall i :: 0 <= i < n ==> TextOf(s, stmts[i].operand) == ps[2 * i + 1].text
  }

  /** The program whose last identifier is longer by `more`. */
  function Lengthened(ps: seq<Piece>, more: string): (ps': seq<Piece>)
    requires ps != []
    ensures |ps'| == |ps|
  {
    ps[..|ps| - 1] + [ps[|ps| - 1].(text := ps[|ps| - 1].text + more)]
  }

  lemma LengthenedPrints(ps: seq<Piece>, more: string, rest: string)
    requires ps != []
    ensures Print(Lengthened(ps, more), rest) == Print(ps, more + rest)
  {
    var before, last := ps[..|ps| - 1], ps[|ps| - 1];
    PrintAppend(before, last.(text := last.text + more), rest);
    PrintAppend(before, last, more + rest);
    LastSplits(ps);
    TextsJoin(last.gap, last.text, more, rest);
  }

  lemma LastSplits<T>(xs: seq<T>)
    requires xs != []
    ensures xs[..|xs| - 1] + [xs[|xs| - 1]] == xs
  {
  }

  lemma TextsJoin(a: string, b: string, c: string, d: string)
    ensures a + ((b + c) + d) == a + (b + (c + d))
  {
    assert (b + c) + d == b + (c + d);
  }

  lemma LengthenedIsProgram(ps: seq<Piece>, n: nat, more: string)
    requires IsProgram(ps, n) && forall i :: 0 <= i < |more| ==> IsIdPart(more[i])
    ensures IsProgram(Lengthened(ps, more), n)
  {
    var ps' := Lengthened(ps, more);
    assert ps'[2 * n].text == ps[2 * n].text + more;
    forall i | 0 <= i < |ps'| ensures AllIgnored(ps'[i].gap) && WellFormedLexeme(ps'[i].kind, ps'[i].text) {}
    forall i | 0 <= i < 2 * n ensures ps'[i] == ps[i] {}
  }

  /** Parsing undoes printing: a printed program is accepted, whatever follows its END, with one statement
      for each WRITE and the printed literals as operands. Text that lengthens END changes nothing else. */
  lemma ProgramRoundTrip(ps: seq<Piece>, suffix: string, n: nat) returns (stmts: seq<Stmt>, end: Token, p: nat)
    requires IsProgram(ps, n)
    ensures IsParsed(Print(ps, suffix), ps, n, stmts, end, p)
    ensures TextOf(Print(ps, suffix), end) == ps[2 * n].text + suffix[..Span(suffix, 0, IdPart)]
  {
    var m := Span(suffix, 0, IdPart);
    SpanIsLongest(suffix, 0, IdPart);
    LengthenedPrints(ps, suffix[..m], suffix[m..]);
    assert suffix[..m] + suffix[m..] == suffix;
    LengthenedIsProgram(ps, n, suffix[..m]);
    stmts, end, p := DelimitedRoundTrip(Lengthened(ps, suffix[..m]), suffix[m..], n);
  }

  /** `n` WRITE statements, and in the place of the END an identifier. */
  predicate IsProgramUpTo(ps: seq<Piece>, n: nat) {
    && WellFormed(ps) && |ps| == 2 * n + 1
    && (forall i :: 0 <= i < n ==> ps[2 * i].kind == Id && ps[2 * i].text == "WRITE")
    && (forall i :: 0 <= i < n ==> ps[2 * i + 1].kind == StringLiteral)
    && ps[2 * n].kind == Id
  }

  /** An identifier that is prefix-comparable with neither keyword is refused, after any number of statements and
      whatever follows. */
  lemma OtherWordIsRefused(ps: seq<Piece>, rest: string, n: nat)
    requires IsProgramUpTo(ps, n) && Delimits(ps, rest)
    requires !(ps[2 * n].text <= "WRITE") && !("WRITE" <= ps[2 * n].text)
    requires !(ps[2 * n].text <= "END") && !("END" <= ps[2 * n].text)
    ensures ParseFrom(SourceOf(Print(ps, rest)), 0) == Exited
  {
    var s := Print(ps, rest);
    var stmts := seq(n, i requires 0 <= i < n => Write(Stream(s, 0, 2 * i), Stream(s, 0, 2 * i + 1)));
    forall i | 0 <= i < n
      ensures stmts[i] == Write(TokenNo(SourceOf(s), 0, 2 * i), TokenNo(SourceOf(s), 0, 2 * i + 1))
      ensures IsWrite(s, stmts[i].writeToken) && stmts[i].operand.kind == StringLiteral
    {
      PrintedStream(ps, rest, 2 * i);
      PrintedStream(ps, rest, 2 * i + 1);
      SourceFollowsStream(s, 0, 2 * i);
      SourceFollowsStream(s, 0, 2 * i + 1);
      KeywordsInLetters(s, stmts[i].writeToken);
    }
    PrintedStream(ps, rest, 2 * n);
    SourceFollowsStream(s, 0, 2 * n);
    KeywordsInLetters(s, Stream(s, 0, 2 * n));
    RefusesOther(SourceOf(s), 0, stmts);
  }

  // ---------------------------------------------------------------- the tree's statement list

  /** Without a head the tree lists what was parsed exactly when the first token is not WRITE-like, so that
      there was nothing to list. */
  lemma TreeListsStatementsIff(s: string, pos: nat, head: StmtNode?, stmts: seq<Stmt>, end: Token, p: nat)
    requires pos <= |s| && ParseFrom(SourceOf(s), pos) == Accepted(stmts, end, p) && head == null
    ensures ListsFrom(head, stmts) <==> !IsWrite(s, Scan(s, pos).token)
  {
    NoHeadListsIff(s, pos, head);
  }

  /** A program of one statement. */
  function OneWrite(): (ps: seq<Piece>) {
    [Piece("", Id, "WRITE"), Piece(" ", StringLiteral, "'a'"), Piece(" ", Id, "END")]
  }

  /** It is accepted with one statement, and a tree without a head does not list that statement. */
  lemma OneWriteIsLost() returns (stmts: seq<Stmt>, end: Token, p: nat)
    ensures var s := Print(OneWrite(), "");
            && s == "WRITE 'a' END" && ParseFrom(SourceOf(s), 0) == Accepted(stmts, end, p)
            && |stmts| == 1 && TextOf(s, stmts[0].operand) == "'a'"
            && !ListsFrom(null, stmts)
  {
    OneWriteIsProgram();
    OneWritePrints();
    stmts, end, p := ProgramRoundTrip(OneWrite(), "", 1);
    OneOperand("WRITE 'a' END", OneWrite(), stmts, end, p);
  }

  lemma OneOperand(s: string, ps: seq<Piece>, stmts: seq<Stmt>, end: Token, p: nat)
    requires |ps| == 3 && IsParsed(s, ps, 1, stmts, end, p)
    ensures |stmts| == 1 && TextOf(s, stmts[0].operand) == ps[1].text
  {
    var i := 0;
    assert TextOf(s, stmts[i].operand) == ps[2 * i + 1].text;
  }

  lemma OneWriteIsProgram()
    ensures IsProgram(OneWrite(), 1)
  {
  }

  lemma OneWritePrints()
    ensures Print(OneWrite(), "") == "WRITE 'a' END"
  {
    assert OneWrite()[1..] == [Piece(" ", StringLiteral, "'a'"), Piece(" ", Id, "END")];
    assert OneWrite()[1..][1..] == [Piece(" ", Id, "END")];
    assert Print([Piece(" ", Id, "END")], "") == " END";
  }

  /** Parsing it returns 0 and a tree that lists no statement. */
  method LoseAStatement() returns (parser: AqlsParser, rc: int, ghost stmts: seq<Stmt>)
    ensures parser.lexer.input == "WRITE 'a' END" && rc == 0
    ensures |stmts| == 1 && TextOf(parser.lexer.input, stmts[0].operand) == "'a'"
    ensures parser.ast.Tree?
    ensures ParseFrom(SourceOf(parser.lexer.input), 0) == Accepted(stmts, parser.ast.end, parser.lexer.pos)
    ensures parser.ast.statements == null && !ListsFrom(parser.ast.statements, stmts)
  {
    ghost var end, p;
    stmts, end, p := OneWriteIsLost();
    parser := new AqlsParser("WRITE 'a' END");
    var exited;
    ghost var chain;
    exited, rc, chain := parser.Parse();
  }
}
