/** What one scan of the AQLS lexer recognises. The three POSIX expressions are written as longest
    matches; the input is free of NUL, so it ends where the C string ends. */
module Lexing {

  /** A pointer into the input. */
  datatype Pointer = Null | At(offset: nat)

  datatype Kind = Error | Eof | StringLiteral | Id

  /** A token's lexeme is a view of the input: a pointer and a length. */
  datatype Token = Token(kind: Kind, start: Pointer, len: nat)

  const EOF_TOKEN := Token(Eof, Null, 0)

  predicate IsIgnored(c: char) { c == ' ' || c == '\t' || c == '\r' || c == '\n' }

  predicate IsIdStart(c: char) { 'a' <= c <= 'z' || 'A' <= c <= 'Z' || c == '#' }

  /** Inside a bracket expression the backslash stands for itself. */
  predicate IsIdPart(c: char) { IsIdStart(c) || c == '\\' || c == '.' }

  predicate IsNotQuote(c: char) { c != '\'' }

  /** The bracket expressions that are repeated. */
  datatype Class = Ignored | IdPart | NotQuote {
    predicate Accepts(c: char) {
      match this
      case Ignored => IsIgnored(c)
      case IdPart => IsIdPart(c)
      case NotQuote => IsNotQuote(c)
    }
  }

  /** The length of the longest run of accepted characters at `p`. */
  function Span(s: string, p: nat, cls: Class): (n: nat)
    requires p <= |s|
    ensures p + n <= |s|
    decreases |s| - p
  {
    if p == |s| || !cls.Accepts(s[p]) then 0 else 1 + Span(s, p + 1, cls)
  }

  /** Every character of the run is accepted, and the next one is not. */
  lemma {:induction false} SpanIsLongest(s: string, p: nat, cls: Class)
    requires p <= |s|
    ensures forall i :: p <= i < p + Span(s, p, cls) ==> cls.Accepts(s[i])
    ensures p + Span(s, p, cls) < |s| ==> !cls.Accepts(s[p + Span(s, p, cls)])
    decreases |s| - p
  {
    if p < |s| && cls.Accepts(s[p]) { SpanIsLongest(s, p + 1, cls); }
  }

  lemma SpanIs(s: string, p: nat, cls: Class, n: nat)
    requires p + n <= |s|
    requires forall i :: p <= i < p + n ==> cls.Accepts(s[i])
    requires p + n < |s| ==> !cls.Accepts(s[p + n])
    ensures Span(s, p, cls) == n
  {
    SpanIsLongest(s, p, cls);
  }

  /** Length matched at `p` by a quoted string; 0 if none. */
  function MatchString(s: string, p: nat): (n: nat)
    requires p <= |s|
    ensures p + n <= |s|
  {
    if p == |s| || s[p] != '\'' then 0
    else
      var n := Span(s, p + 1, NotQuote);
      if p + 1 + n == |s| then 0 else n + 2
  }

  /** Length matched at `p` by an identifier; 0 if none. */
  function MatchId(s: string, p: nat): (n: nat)
    requires p <= |s|
    ensures p + n <= |s|
  {
    if p == |s| || !IsIdStart(s[p]) then 0 else 1 + Span(s, p + 1, IdPart)
  }

  /** The token at `p`: patterns are tried in order, the quoted string first. */
  function TokenAt(s: string, p: nat): (t: Token)
    requires p <= |s|
    ensures t.start == At(p) && p + t.len <= |s|
  {
    if MatchString(s, p) > 0 then Token(StringLiteral, At(p), MatchString(s, p))
    else if MatchId(s, p) > 0 then Token(Id, At(p), MatchId(s, p))
    else Token(Error, At(p), 0)
  }

  function SkipIgnored(s: string, pos: nat): (p: nat)
    requires pos <= |s|
    ensures pos <= p <= |s|
  {
    pos + Span(s, pos, Ignored)
  }

  datatype Scanned = Scanned(token: Token, pos: nat)

  /** The next token from `pos` and the position after it, with no lookahead. */
  function Scan(s: string, pos: nat): (r: Scanned)
    requires pos <= |s|
    ensures pos <= r.pos <= |s|
    ensures r.token.start.At? ==> r.token.start.offset == SkipIgnored(s, pos) && r.token.start.offset + r.token.len == r.pos
    ensures r.token.start.Null? ==> r.token == EOF_TOKEN && r.pos == |s| && SkipIgnored(s, pos) == |s|
    ensures r.token.kind == Id || r.token.kind == StringLiteral ==> r.token.start.At? && r.token.len > 0
  {
    var p := SkipIgnored(s, pos);
    if p == |s| then Scanned(EOF_TOKEN, p)
    else
      var t := TokenAt(s, p);
      Scanned(t, p + t.len)
  }

  predicate Ends(t: Token) { t.kind == Eof || t.kind == Error }

  /** All tokens from `pos` through the first EOF or ERROR. */
  function LexAll(s: string, pos: nat): (ts: seq<Token>)
    requires pos <= |s|
    ensures 0 < |ts| <= |s| - pos + 1
    ensures Ends(ts[|ts| - 1])
    decreases |s| - pos
  {
    var r := Scan(s, pos);
    if Ends(r.token) then [r.token] else [r.token] + LexAll(s, r.pos)
  }

  /** Where an uninterrupted run from `pos` stands after `k` tokens. */
  function PosAt(s: string, pos: nat, k: nat): (p: nat)
    requires pos <= |s|
    ensures pos <= p <= |s|
    decreases k
  {
    if k == 0 then pos else PosAt(s, Scan(s, pos).pos, k - 1)
  }

  /** The `k`-th token of an uninterrupted run from `pos`; EOF and ERROR repeat for ever. */
  function Stream(s: string, pos: nat, k: nat): Token
    requires pos <= |s|
  {
    Scan(s, PosAt(s, pos, k)).token
  }

  lemma {:induction false} PosAtNext(s: string, pos: nat, k: nat)
    requires pos <= |s|
    ensures PosAt(s, pos, k + 1) == Scan(s, PosAt(s, pos, k)).pos
    decreases k
  {
    if k > 0 { PosAtNext(s, Scan(s, pos).pos, k - 1); }
  }

  lemma LexAllStep(s: string, pos: nat, t: Token, next: nat)
    requires pos <= |s| && Scan(s, pos) == Scanned(t, next)
    ensures LexAll(s, pos) == if Ends(t) then [t] else [t] + LexAll(s, next)
  {
  }

  /** The two views agree: `LexAll` is the start of the stream, through its first EOF or ERROR. */
  lemma {:induction false} LexAllIsStream(s: string, pos: nat, k: nat)
    requires pos <= |s| && k < |LexAll(s, pos)|
    ensures LexAll(s, pos)[k] == Stream(s, pos, k)
    ensures Ends(Stream(s, pos, k)) <==> k == |LexAll(s, pos)| - 1
    decreases k
  {
    var r := Scan(s, pos);
    LexAllStep(s, pos, r.token, r.pos);
    if k > 0 { LexAllIsStream(s, r.pos, k - 1); }
  }

  // ---------------------------------------------------------------- printing

  /** A lexeme preceded by a gap of ignored characters. */
  datatype Piece = Piece(gap: string, kind: Kind, text: string)

  /** A text of blanks, tabs, carriage returns and newlines. */
  predicate AllIgnored(s: string) { forall c :: c in s ==> c in {' ', '\t', '\r', '\n'} }

  /** An identifier starts with a letter or # and goes on with letters, #, backslashes and dots; a string literal
      has quotes at its ends only. */
  predicate WellFormedLexeme(kind: Kind, text: string) {
    match kind
    case Id =>
      && text != "" && ('a' <= text[0] <= 'z' || 'A' <= text[0] <= 'Z' || text[0] == '#')
      && forall i :: 1 <= i < |text| ==>
           'a' <= text[i] <= 'z' || 'A' <= text[i] <= 'Z' || text[i] in {'#', '\\', '.'}
    case StringLiteral =>
      |text| >= 2 && text[0] == '\'' && text[|text| - 1] == '\'' && forall i :: 1 <= i < |text| - 1 ==> text[i] != '\''
    case _ => false
  }

  /** Gaps may be empty except between two identifiers. */
  predicate WellFormed(ps: seq<Piece>) {
    && (forall i :: 0 <= i < |ps| ==> AllIgnored(ps[i].gap) && WellFormedLexeme(ps[i].kind, ps[i].text))
    && (forall i :: 1 <= i < |ps| && ps[i - 1].kind == Id && ps[i].kind == Id ==> ps[i].gap != "")
  }

  function Print(ps: seq<Piece>, trailing: string): string {
    if ps == [] then trailing else ps[0].gap + (ps[0].text + Print(ps[1..], trailing))
  }

  lemma {:induction false} PrintAppend(ps: seq<Piece>, p: Piece, trailing: string)
    ensures Print(ps + [p], trailing) == Print(ps, p.gap + (p.text + trailing))
  {
    if ps != [] {
      assert (ps + [p])[1..] == ps[1..] + [p];
      PrintAppend(ps[1..], p, trailing);
    }
  }

  /** The token of a printed piece. */
  function TokenOf(p: Piece, pos: nat): Token {
    Token(p.kind, At(pos + |p.gap|), |p.text|)
  }

  /** The tokens that stand for printed pieces, in a text printed from position `pos` on. */
  function TokensOf(ps: seq<Piece>, pos: nat): (ts: seq<Token>)
    ensures |ts| == |ps|
  {
    if ps == [] then []
    else [TokenOf(ps[0], pos)] + TokensOf(ps[1..], pos + |ps[0].gap| + |ps[0].text|)
  }

  lemma CharactersOf(s: string, pos: nat, a: string, b: string, rest: string)
    requires pos <= |s| && s[pos..] == a + (b + rest)
    ensures pos + |a| + |b| + |rest| == |s|
    ensures forall i :: pos <= i < pos + |a| ==> s[i] == a[i - pos]
    ensures forall i :: pos + |a| <= i < pos + |a| + |b| ==> s[i] == b[i - pos - |a|]
    ensures s[pos + |a| + |b|..] == rest
  {
  }

  lemma MatchesId(s: string, p: nat, n: nat)
    requires 0 < n && p + n <= |s| && IsIdStart(s[p])
    requires forall i :: p + 1 <= i < p + n ==> IsIdPart(s[i])
    requires p + n < |s| ==> !IsIdPart(s[p + n])
    ensures TokenAt(s, p) == Token(Id, At(p), n)
  {
    SpanIs(s, p + 1, IdPart, n - 1);
  }

  lemma MatchesString(s: string, p: nat, n: nat)
    requires 2 <= n && p + n <= |s| && s[p] == '\'' && s[p + n - 1] == '\''
    requires forall i :: p + 1 <= i < p + n - 1 ==> IsNotQuote(s[i])
    ensures TokenAt(s, p) == Token(StringLiteral, At(p), n)
  {
    SpanIs(s, p + 1, NotQuote, n - 2);
  }

  /** Scanning at a lexeme that is followed by something that cannot extend it. */
  lemma ScanLexeme(s: string, pos: nat, p: Piece, rest: string)
    requires pos <= |s| && s[pos..] == p.gap + (p.text + rest)
    requires AllIgnored(p.gap) && WellFormedLexeme(p.kind, p.text)
    requires p.kind == Id && rest != "" ==> !IsIdPart(rest[0])
    ensures Scan(s, pos) == Scanned(Token(p.kind, At(pos + |p.gap|), |p.text|), pos + |p.gap| + |p.text|)
    ensures s[pos + |p.gap| + |p.text|..] == rest
  {
    var b := pos + |p.gap|;
    var e := b + |p.text|;
    CharactersOf(s, pos, p.gap, p.text, rest);
    assert s[b] == p.text[0];
    GapCharacters(p.gap);
    SpanIs(s, pos, Ignored, |p.gap|);
    assert SkipIgnored(s, pos) == b;
    if p.kind == Id {
      assert e < |s| ==> s[e] == s[e..][0];
      MatchesId(s, b, |p.text|);
    } else {
      MatchesString(s, b, |p.text|);
    }
  }

  lemma GapCharacters(gap: string)
    requires AllIgnored(gap)
    ensures forall i :: 0 <= i < |gap| ==> IsIgnored(gap[i])
  {
    forall i | 0 <= i < |gap| ensures IsIgnored(gap[i]) { assert gap[i] in gap; }
  }

  /** The text `rest` does not lengthen the last of the pieces it follows. */
  predicate Delimits(ps: seq<Piece>, rest: string) {
    ps != [] && ps[|ps| - 1].kind == Id && rest != "" ==> !IsIdPart(rest[0])
  }

  lemma GapDelimits(ps: seq<Piece>, gap: string)
    requires AllIgnored(gap)
    ensures Delimits(ps, gap)
  {
    if gap != "" { assert gap[0] in gap; }
  }

  lemma DelimitsRest(ps: seq<Piece>, rest: string)
    requires Delimits(ps, rest) && ps != []
    ensures Delimits(ps[1..], rest)
  {
  }

  lemma PrintStartsWith(ps: seq<Piece>, trailing: string)
    requires WellFormed(ps)
    requires if ps == [] then trailing != "" ==> !IsIdPart(trailing[0]) else ps[0].gap != "" || ps[0].kind != Id
    ensures Print(ps, trailing) != "" ==> !IsIdPart(Print(ps, trailing)[0])
  {
    var text := Print(ps, trailing);
    if text == "" {
    } else if ps == [] {
    } else if ps[0].gap == "" {
      assert text[0] == ps[0].text[0];
    } else {
      assert text[0] == ps[0].gap[0];
      assert text[0] in ps[0].gap;
    }
  }

  lemma WellFormedTail(ps: seq<Piece>)
    requires WellFormed(ps) && ps != []
    ensures WellFormed(ps[1..]) && AllIgnored(ps[0].gap) && WellFormedLexeme(ps[0].kind, ps[0].text)
    ensures ps[0].kind == Id && |ps| > 1 && ps[1].kind == Id ==> ps[1].gap != ""
  {
  }

  lemma LexGap(s: string, pos: nat)
    requires pos <= |s| && AllIgnored(s[pos..])
    ensures LexAll(s, pos) == [EOF_TOKEN]
  {
    forall i | pos <= i < |s| ensures IsIgnored(s[i]) { assert s[i] in s[pos..]; }
    SpanIs(s, pos, Ignored, |s| - pos);
    LexAllStep(s, pos, EOF_TOKEN, |s|);
  }

  lemma LexAllCons(s: string, pos: nat, t: Token, next: nat, ts: seq<Token>, last: Token)
    requires pos <= |s| && Scan(s, pos) == Scanned(t, next) && !Ends(t)
    requires LexAll(s, next) == ts + [last]
    ensures LexAll(s, pos) == ([t] + ts) + [last]
  {
  }

  lemma ScanFirstPiece(s: string, pos: nat, ps: seq<Piece>, trailing: string)
    requires pos <= |s| && s[pos..] == Print(ps, trailing)
    requires WellFormed(ps) && Delimits(ps, trailing) && ps != []
    ensures var next := pos + |ps[0].gap| + |ps[0].text|;
            && Scan(s, pos) == Scanned(TokenOf(ps[0], pos), next) && !Ends(TokenOf(ps[0], pos))
            && next <= |s| && s[next..] == Print(ps[1..], trailing) && WellFormed(ps[1..])
  {
    WellFormedTail(ps);
    if ps[0].kind == Id { PrintStartsWith(ps[1..], trailing); }
    ScanLexeme(s, pos, ps[0], Print(ps[1..], trailing));
  }

  /** If at every place where `printed` pieces remain the tokens are that of the first piece and then those
      of the rest, then they are those of all pieces. */
  lemma {:induction false} TokensByPieces(printed: (nat, seq<Piece>) -> bool, tokens: nat -> seq<Token>,
                                         pos: nat, ps: seq<Piece>)
    requires printed(pos, ps)
    requires forall p: nat :: printed(p, []) ==> tokens(p) == [EOF_TOKEN]
    requires forall p: nat, qs: seq<Piece> :: printed(p, qs) && qs != [] ==>
               && printed(p + |qs[0].gap| + |qs[0].text|, qs[1..])
               && tokens(p) == [TokenOf(qs[0], p)] + tokens(p + |qs[0].gap| + |qs[0].text|)
    ensures tokens(pos) == TokensOf(ps, pos) + [EOF_TOKEN]
    decreases |ps|
  {
    if ps != [] {
      var next := pos + |ps[0].gap| + |ps[0].text|;
      TokensByPieces(printed, tokens, next, ps[1..]);
      assert tokens(pos) == [TokenOf(ps[0], pos)] + (TokensOf(ps[1..], next) + [EOF_TOKEN]);
    }
  }

  predicate PrintedAt(s: string, pos: nat, ps: seq<Piece>, trailing: string) {
    pos <= |s| && s[pos..] == Print(ps, trailing) && WellFormed(ps) && Delimits(ps, trailing)
  }

  lemma NextPiece(s: string, pos: nat, ps: seq<Piece>, trailing: string)
    requires PrintedAt(s, pos, ps, trailing) && ps != []
    ensures var next := pos + |ps[0].gap| + |ps[0].text|;
            && PrintedAt(s, next, ps[1..], trailing)
            && Scan(s, pos) == Scanned(TokenOf(ps[0], pos), next) && !Ends(TokenOf(ps[0], pos))
  {
    ScanFirstPiece(s, pos, ps, trailing);
    DelimitsRest(ps, trailing);
  }

  /** Where `printed` pieces remain, and what lexes from where, in one text. */
  function PrintedIn(s: string, trailing: string): (nat, seq<Piece>) -> bool {
    (p: nat, qs: seq<Piece>) => PrintedAt(s, p, qs, trailing)
  }

  function LexedIn(s: string): nat -> seq<Token> {
    (p: nat) => if p <= |s| then LexAll(s, p) else []
  }

  lemma NoPieceLeft(s: string, trailing: string, pos: nat)
    requires PrintedIn(s, trailing)(pos, []) && AllIgnored(trailing)
    ensures LexedIn(s)(pos) == [EOF_TOKEN]
  {
    LexGap(s, pos);
  }

  lemma TokenFollowedBy(s: string, pos: nat, t: Token, next: nat)
    requires pos <= |s| && Scan(s, pos) == Scanned(t, next) && !Ends(t)
    ensures next <= |s| && LexedIn(s)(pos) == [t] + LexedIn(s)(next)
  {
    LexAllStep(s, pos, t, next);
  }

  lemma PieceRemains(s: string, trailing: string, pos: nat, qs: seq<Piece>)
    requires PrintedIn(s, trailing)(pos, qs) && qs != []
    ensures PrintedIn(s, trailing)(pos + |qs[0].gap| + |qs[0].text|, qs[1..])
  {
    NextPiece(s, pos, qs, trailing);
  }

  lemma ScannedFirst(s: string, trailing: string, pos: nat, qs: seq<Piece>) returns (t: Token, next: nat)
    requires PrintedIn(s, trailing)(pos, qs) && qs != []
    ensures t == TokenOf(qs[0], pos) && next == pos + |qs[0].gap| + |qs[0].text|
    ensures pos <= |s| && !Ends(t) && Scan(s, pos) == Scanned(t, next)
  {
    NextPiece(s, pos, qs, trailing);
    t, next := TokenOf(qs[0], pos), pos + |qs[0].gap| + |qs[0].text|;
  }

  lemma TokenGoesFirst(s: string, trailing: string, pos: nat, qs: seq<Piece>)
    requires PrintedIn(s, trailing)(pos, qs) && qs != []
    ensures LexedIn(s)(pos) == [TokenOf(qs[0], pos)] + LexedIn(s)(pos + |qs[0].gap| + |qs[0].text|)
  {
    var t, next := ScannedFirst(s, trailing, pos, qs);
    TokenFollowedBy(s, pos, t, next);
  }

  lemma LexedByPieces(s: string, pos: nat, ps: seq<Piece>, trailing: string)
    requires PrintedIn(s, trailing)(pos, ps) && AllIgnored(trailing)
    ensures LexedIn(s)(pos) == TokensOf(ps, pos) + [EOF_TOKEN]
  {
    var printed, tokens := PrintedIn(s, trailing), LexedIn(s);
    forall p: nat | printed(p, []) ensures tokens(p) == [EOF_TOKEN] {
      NoPieceLeft(s, trailing, p);
    }
    forall p: nat, qs: seq<Piece> | printed(p, qs) && qs != []
      ensures printed(p + |qs[0].gap| + |qs[0].text|, qs[1..])
      ensures tokens(p) == [TokenOf(qs[0], p)] + tokens(p + |qs[0].gap| + |qs[0].text|)
    {
      PieceRemains(s, trailing, p, qs);
      TokenGoesFirst(s, trailing, p, qs);
    }
    TokensByPieces(printed, tokens, pos, ps);
  }

  /** Lexing undoes printing. */
  lemma LexPrinted(s: string, pos: nat, ps: seq<Piece>, trailing: string)
    requires pos <= |s| && s[pos..] == Print(ps, trailing)
    requires WellFormed(ps) && AllIgnored(trailing)
    ensures LexAll(s, pos) == TokensOf(ps, pos) + [EOF_TOKEN]
  {
    GapDelimits(ps, trailing);
    LexedByPieces(s, pos, ps, trailing);
  }

  /** Pieces at one place that give the same tokens and the same text are the same. */
  lemma {:induction false} TokensTellPieces(ps: seq<Piece>, t: string, ps': seq<Piece>, t': string, pos: nat)
    requires TokensOf(ps, pos) == TokensOf(ps', pos) && Print(ps, t) == Print(ps', t')
    ensures ps == ps' && t == t'
    decreases |ps|
  {
    if ps != [] {
      var p, q := ps[0], ps'[0];
      HeadsAgree(ps, ps', pos);
      TextsAgree(p.gap, p.text + Print(ps[1..], t), q.gap, q.text + Print(ps'[1..], t'));
      TextsAgree(p.text, Print(ps[1..], t), q.text, Print(ps'[1..], t'));
      TokensTellPieces(ps[1..], t, ps'[1..], t', pos + |p.gap| + |p.text|);
      assert ps == [p] + ps[1..] && ps' == [q] + ps'[1..];
    }
  }

  lemma HeadsAgree(ps: seq<Piece>, ps': seq<Piece>, pos: nat)
    requires ps != [] && ps' != [] && TokensOf(ps, pos) == TokensOf(ps', pos)
    ensures ps[0].kind == ps'[0].kind && |ps[0].gap| == |ps'[0].gap| && |ps[0].text| == |ps'[0].text|
    ensures var next := pos + |ps[0].gap| + |ps[0].text|; TokensOf(ps[1..], next) == TokensOf(ps'[1..], next)
  {
    assert TokenOf(ps[0], pos) == TokensOf(ps, pos)[0] == TokensOf(ps', pos)[0] == TokenOf(ps'[0], pos);
    var next := pos + |ps[0].gap| + |ps[0].text|;
    assert TokensOf(ps[1..], next) == TokensOf(ps, pos)[1..];
    assert TokensOf(ps'[1..], next) == TokensOf(ps', pos)[1..];
  }

  lemma TextsAgree(a: string, b: string, c: string, d: string)
    requires a + b == c + d && |a| == |c|
    ensures a == c && b == d
  {
    assert a == (a + b)[..|a|] && b == (a + b)[|a|..];
    assert c == (c + d)[..|c|] && d == (c + d)[|c|..];
  }

  /** A text is printed in one way only. */
  lemma PrintIsUnique(ps: seq<Piece>, t: string, ps': seq<Piece>, t': string)
    requires WellFormed(ps) && AllIgnored(t) && WellFormed(ps') && AllIgnored(t')
    requires Print(ps, t) == Print(ps', t')
    ensures ps == ps' && t == t'
  {
    var s := Print(ps, t);
    assert s[0..] == s;
    LexPrinted(s, 0, ps, t);
    LexPrinted(s, 0, ps', t');
    var ts := LexAll(s, 0);
    assert ts[..|ts| - 1] == TokensOf(ps, 0) && ts[..|ts| - 1] == TokensOf(ps', 0);
    TokensTellPieces(ps, t, ps', t', 0);
  }

  /** What a matched token looks like, and that an identifier is as long as it can be. */
  lemma ScanIsWellFormed(s: string, pos: nat) returns (p: Piece)
    requires pos <= |s| && !Ends(Scan(s, pos).token)
    ensures var r := Scan(s, pos);
            && r.token == TokenOf(p, pos)
            && r.pos == pos + |p.gap| + |p.text|
            && IsPieceAt(s, pos, p)
  {
    var b := SkipIgnored(s, pos);
    var t := TokenAt(s, b);
    p := Piece(s[pos..b], t.kind, s[b..b + t.len]);
    TokenIsPiece(s, pos, b, t);
  }

  lemma TokenIsPiece(s: string, pos: nat, b: nat, t: Token)
    requires pos <= |s| && b == SkipIgnored(s, pos) && t == TokenAt(s, b) && !Ends(t)
    ensures IsPieceAt(s, pos, Piece(s[pos..b], t.kind, s[b..b + t.len]))
  {
    GapIsIgnored(s, pos);
    TokenIsWellFormed(s, b);
    SlicesArePiece(s, pos, b, b + t.len, t.kind);
  }

  /** `p` is what stands at `pos`, and its lexeme is as long as it can be. */
  predicate IsPieceAt(s: string, pos: nat, p: Piece) {
    var end := pos + |p.gap| + |p.text|;
    && end <= |s| && s[pos..end] == p.gap + p.text
    && AllIgnored(p.gap) && WellFormedLexeme(p.kind, p.text)
    && (p.kind == Id && end < |s| ==> !IsIdPart(s[end]))
  }

  lemma SlicesArePiece(s: string, i: nat, j: nat, k: nat, kind: Kind)
    requires i <= j <= k <= |s| && AllIgnored(s[i..j]) && WellFormedLexeme(kind, s[j..k])
    requires kind == Id && k < |s| ==> !IsIdPart(s[k])
    ensures IsPieceAt(s, i, Piece(s[i..j], kind, s[j..k]))
  {
  }

  lemma TokenIsWellFormed(s: string, b: nat)
    requires b <= |s| && !Ends(TokenAt(s, b))
    ensures var t := TokenAt(s, b);
            && WellFormedLexeme(t.kind, s[b..b + t.len])
            && (t.kind == Id && b + t.len < |s| ==> !IsIdPart(s[b + t.len]))
  {
    var t := TokenAt(s, b);
    if t.kind == Id { IdIsWellFormed(s, b); } else { StringIsWellFormed(s, b); }
  }

  lemma IdIsWellFormed(s: string, b: nat)
    requires b <= |s| && MatchId(s, b) > 0
    ensures var e := b + MatchId(s, b);
            WellFormedLexeme(Id, s[b..e]) && (e < |s| ==> !IsIdPart(s[e]))
  {
    SpanIsLongest(s, b + 1, IdPart);
    var text := s[b..b + MatchId(s, b)];
    assert forall i :: 0 <= i < |text| ==> text[i] == s[b + i];
  }

  lemma StringIsWellFormed(s: string, b: nat)
    requires b <= |s| && MatchString(s, b) > 0
    ensures WellFormedLexeme(StringLiteral, s[b..b + MatchString(s, b)])
  {
    SpanIsLongest(s, b + 1, NotQuote);
    var text := s[b..b + MatchString(s, b)];
    assert forall i :: 0 <= i < |text| ==> text[i] == s[b + i];
  }

  lemma GapIsIgnored(s: string, pos: nat)
    requires pos <= |s|
    ensures AllIgnored(s[pos..SkipIgnored(s, pos)])
  {
    var gap := s[pos..SkipIgnored(s, pos)];
    SpanIsLongest(s, pos, Ignored);
    assert forall i :: 0 <= i < |gap| ==> gap[i] == s[pos + i];
  }

  /** The last token of `LexAll` and where the tokens before it stop. */
  function LastToken(s: string, pos: nat): (t: Token)
    requires pos <= |s|
    ensures Ends(t)
  {
    LexAll(s, pos)[|LexAll(s, pos)| - 1]
  }

  function Consumed(s: string, pos: nat): nat
    requires pos <= |s|
  {
    match LastToken(s, pos).start case At(p) => p case Null => |s|
  }

  lemma LastTokenStep(s: string, pos: nat)
    requires pos <= |s|
    ensures var r := Scan(s, pos);
            LastToken(s, pos) == if Ends(r.token) then r.token else LastToken(s, r.pos)
  {
  }

  /** The text from `pos` to where lexing ends is printed by `ps`, and lexes to their tokens. */
  predicate Tiled(s: string, pos: nat, ps: seq<Piece>, trailing: string)
    requires pos <= |s|
  {
    && WellFormed(ps) && AllIgnored(trailing)
    && LexAll(s, pos) == TokensOf(ps, pos) + [LastToken(s, pos)]
    && pos <= Consumed(s, pos) <= |s| && s[pos..Consumed(s, pos)] == Print(ps, trailing)
    && (LastToken(s, pos).kind == Eof <==> Consumed(s, pos) == |s|)
  }

  lemma TiledEnd(s: string, pos: nat)
    requires pos <= |s| && Ends(Scan(s, pos).token)
    ensures Tiled(s, pos, [], s[pos..SkipIgnored(s, pos)])
  {
    LexAllStep(s, pos, Scan(s, pos).token, Scan(s, pos).pos);
    GapIsIgnored(s, pos);
    ScanEnds(s, pos);
  }

  lemma TiledCons(s: string, pos: nat, p: Piece, rest: seq<Piece>, trailing: string)
    requires pos <= |s| && IsPieceAt(s, pos, p)
    requires var r := Scan(s, pos);
             && r.token == TokenOf(p, pos) && r.pos == pos + |p.gap| + |p.text| && !Ends(r.token)
             && Tiled(s, r.pos, rest, trailing)
    ensures Tiled(s, pos, [p] + rest, trailing)
  {
    var next := Scan(s, pos).pos;
    LastTokenStep(s, pos);
    assert Consumed(s, pos) == Consumed(s, next);
    PrintCons(s, pos, p, rest, trailing, Consumed(s, pos));
    TokensOfPrepend(p, rest, pos);
    LexAllCons(s, pos, TokenOf(p, pos), next, TokensOf(rest, next), LastToken(s, next));
  }

  lemma TokensOfPrepend(p: Piece, rest: seq<Piece>, pos: nat)
    ensures TokensOf([p] + rest, pos) == [TokenOf(p, pos)] + TokensOf(rest, pos + |p.gap| + |p.text|)
  {
  }

  /** The converse: on every input the skipped gaps and the lexemes tile what was consumed. The lexed
      pieces print back to it, up to the end of the input or to the place of the error. */
  lemma {:induction false} LexedTiles(s: string, pos: nat) returns (ps: seq<Piece>, trailing: string)
    requires pos <= |s|
    ensures Tiled(s, pos, ps, trailing)
    decreases |s| - pos
  {
    if Ends(Scan(s, pos).token) {
      ps, trailing := [], s[pos..SkipIgnored(s, pos)];
      TiledEnd(s, pos);
    } else {
      var p := ScanIsWellFormed(s, pos);
      var rest;
      rest, trailing := LexedTiles(s, Scan(s, pos).pos);
      ps := [p] + rest;
      TiledCons(s, pos, p, rest, trailing);
    }
  }

  lemma PrintCons(s: string, pos: nat, p: Piece, rest: seq<Piece>, trailing: string, end: nat)
    requires IsPieceAt(s, pos, p) && pos + |p.gap| + |p.text| <= end <= |s|
    requires s[pos + |p.gap| + |p.text|..end] == Print(rest, trailing) && WellFormed(rest)
    ensures s[pos..end] == Print([p] + rest, trailing) && WellFormed([p] + rest)
  {
    var at := pos + |p.gap| + |p.text|;
    assert s[pos..end] == s[pos..at] + s[at..end];
    assert ([p] + rest)[1..] == rest;
    WellFormedCons(p, rest, trailing, s, at, end);
  }

  lemma ScanEnds(s: string, pos: nat)
    requires pos <= |s| && Ends(Scan(s, pos).token)
    ensures var t := Scan(s, pos).token;
            && (t.kind == Eof <==> t.start.Null?) && (t.kind == Eof <==> SkipIgnored(s, pos) == |s|)
  {
  }

  lemma WellFormedCons(p: Piece, rest: seq<Piece>, trailing: string, s: string, at: nat, end: nat)
    requires AllIgnored(p.gap) && WellFormedLexeme(p.kind, p.text) && WellFormed(rest)
    requires at <= end <= |s| && s[at..end] == Print(rest, trailing)
    requires p.kind == Id && at < |s| ==> !IsIdPart(s[at])
    ensures WellFormed([p] + rest)
  {
  }

  /** Which inputs lex without error: exactly the printed ones. */
  lemma LexesIff(s: string)
    ensures (exists ps, trailing :: WellFormed(ps) && AllIgnored(trailing) && s == Print(ps, trailing)) <==>
            LastToken(s, 0).kind == Eof
  {
    if ps, trailing :| WellFormed(ps) && AllIgnored(trailing) && s == Print(ps, trailing) {
      assert s[0..] == s;
      LexPrinted(s, 0, ps, trailing);
    }
    if LastToken(s, 0).kind == Eof {
      var ps, trailing := LexedTiles(s, 0);
      assert s[0..|s|] == s;
    }
  }
}
