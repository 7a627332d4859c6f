/** Whole runs of the lexer: peeking changes nothing, runs end in time, and positions as line and column. */
module LexerRuns {
  import opened Lexing
  import opened Lexer

  datatype Call = PeekCall | NextCall

  datatype Transcript = Transcript(tokens: seq<Token>, state: State)

  function Answer(s: string, st: State, call: Call): Outcome
    requires InRange(s, st)
  {
    if call == PeekCall then Peek(s, st) else Next(s, st)
  }

  /** The answers to a list of calls on a fresh lexer. */
  function Run(s: string, calls: seq<Call>): (t: Transcript)
    ensures |t.tokens| == |calls| && Coherent(s, t.state)
  {
    if calls == [] then Transcript([], State(0, []))
    else
      var before := Run(s, calls[..|calls| - 1]);
      CallsKeepCoherence(s, before.state);
      var r := Answer(s, before.state, calls[|calls| - 1]);
      Transcript(before.tokens + [r.token], r.state)
  }

  function Nexts(calls: seq<Call>): nat {
    if calls == [] then 0
    else Nexts(calls[..|calls| - 1]) + if calls[|calls| - 1] == NextCall then 1 else 0
  }

  /** `pos` is `plain`, or only ignored characters lie between it and `plain`, the end of the input. */
  predicate UpToTrailingGap(s: string, pos: nat, plain: nat) {
    pos <= plain <= |s| && (pos < plain ==> plain == |s| && AllIgnored(s[pos..]))
  }

  lemma GapScansToEnd(s: string, pos: nat)
    requires pos <= |s| && Scan(s, pos).token == EOF_TOKEN
    ensures Scan(s, pos) == Scan(s, |s|) == Scanned(EOF_TOKEN, |s|)
    ensures AllIgnored(s[pos..])
  {
    assert Span(s, |s|, Ignored) == 0;
    GapIsIgnored(s, pos);
    assert s[pos..|s|] == s[pos..];
  }

  /** A state that stands where the uninterrupted run stands after `n` tokens, up to a trailing gap. */
  predicate FollowsPlain(s: string, st: State, n: nat) {
    && |st.ahead| <= 1 && UpToTrailingGap(s, st.pos, PosAt(s, 0, n))
    && Scan(s, st.pos) == Scan(s, PosAt(s, 0, n))
  }

  lemma FreshFollowsPlain(s: string)
    ensures FollowsPlain(s, State(0, []), 0)
  {
  }

  lemma CallFollowsPlain(s: string, st: State, call: Call, n: nat)
    requires Coherent(s, st) && FollowsPlain(s, st, n)
    ensures FollowsPlain(s, Answer(s, st, call).state, if call == NextCall then n + 1 else n)
  {
    CallsKeepCoherence(s, st);
    if call == NextCall { NextFollowsPlainRun(s, st, n); }
  }

  lemma {:induction false} StateFollowsPlainRun(s: string, calls: seq<Call>)
    ensures FollowsPlain(s, Run(s, calls).state, Nexts(calls))
  {
    if calls == [] {
      FreshFollowsPlain(s);
    } else {
      var rest := calls[..|calls| - 1];
      StateFollowsPlainRun(s, rest);
      CallFollowsPlain(s, Run(s, rest).state, calls[|calls| - 1], Nexts(rest));
    }
  }

  lemma {:induction false} AnswerIsPlain(s: string, calls: seq<Call>, i: nat)
    requires i < |calls|
    ensures Run(s, calls).tokens[i] == Stream(s, 0, Nexts(calls[..i]))
    decreases |calls|
  {
    var rest := calls[..|calls| - 1];
    if i < |rest| {
      assert rest[..i] == calls[..i];
      AnswerIsPlain(s, rest, i);
    } else {
      StateFollowsPlainRun(s, rest);
      CallsKeepCoherence(s, Run(s, rest).state);
    }
  }

  /** Peeking is transparent: whatever the mix of calls, each one answers with the token of an
      uninterrupted run whose index is the number of `next` calls before it, and the position is that of
      the uninterrupted run up to trailing ignored characters. */
  lemma PeekingIsTransparent(s: string, calls: seq<Call>)
    ensures forall i :: 0 <= i < |calls| ==> Run(s, calls).tokens[i] == Stream(s, 0, Nexts(calls[..i]))
    ensures |Run(s, calls).state.ahead| <= 1
    ensures UpToTrailingGap(s, Run(s, calls).state.pos, PosAt(s, 0, Nexts(calls)))
  {
    StateFollowsPlainRun(s, calls);
    forall i | 0 <= i < |calls| ensures Run(s, calls).tokens[i] == Stream(s, 0, Nexts(calls[..i])) {
      AnswerIsPlain(s, calls, i);
    }
  }

  lemma NextFollowsPlainRun(s: string, st: State, n: nat)
    requires Coherent(s, st) && UpToTrailingGap(s, st.pos, PosAt(s, 0, n))
    requires Scan(s, st.pos) == Scan(s, PosAt(s, 0, n))
    ensures var st' := Next(s, st).state;
            UpToTrailingGap(s, st'.pos, PosAt(s, 0, n + 1)) && Scan(s, st'.pos) == Scan(s, PosAt(s, 0, n + 1))
  {
    PosAtNext(s, 0, n);
    if Scan(s, st.pos).token == EOF_TOKEN { GapScansToEnd(s, st.pos); }
  }

  /** So a peek shows what the following next hands out. */
  lemma PeekShowsNext(s: string, calls: seq<Call>, i: nat, j: nat)
    requires i < j < |calls| && calls[i] == PeekCall && calls[j] == NextCall
    requires forall m :: i <= m < j ==> calls[m] == PeekCall
    ensures Run(s, calls).tokens[i] == Run(s, calls).tokens[j]
  {
    PeekingIsTransparent(s, calls);
    NextsBetween(calls, i, j);
  }

  lemma {:induction false} NextsBetween(calls: seq<Call>, i: nat, j: nat)
    requires i <= j <= |calls| && forall m :: i <= m < j ==> calls[m] == PeekCall
    ensures Nexts(calls[..i]) == Nexts(calls[..j])
    decreases j
  {
    if i < j {
      NextsBetween(calls, i, j - 1);
      assert calls[..j][..j - 1] == calls[..j - 1];
    }
  }

  /** EOF or ERROR comes within one more call than there are characters, and then repeats for ever. */
  lemma EndsInTime(s: string) returns (k: nat)
    ensures k <= |s| && Ends(Stream(s, 0, k))
    ensures forall j :: 0 <= j < k ==> !Ends(Stream(s, 0, j))
    ensures forall j: nat :: j >= k ==> Stream(s, 0, j) == Stream(s, 0, k)
  {
    k := |LexAll(s, 0)| - 1;
    LexAllIsStream(s, 0, k);
    forall j | 0 <= j < k ensures !Ends(Stream(s, 0, j)) { LexAllIsStream(s, 0, j); }
    forall j: nat | j >= k ensures Stream(s, 0, j) == Stream(s, 0, k) { EndRepeats(s, k, j); }
  }

  lemma {:induction false} EndRepeats(s: string, k: nat, j: nat)
    requires k <= j && Ends(Stream(s, 0, k))
    ensures Stream(s, 0, j) == Stream(s, 0, k)
    decreases j
  {
    if k < j {
      EndRepeats(s, k, j - 1);
      PosAtNext(s, 0, j - 1);
      ScanStays(s, PosAt(s, 0, j - 1));
    }
  }

  lemma ScanStays(s: string, pos: nat)
    requires pos <= |s| && Ends(Scan(s, pos).token)
    ensures Scan(s, Scan(s, pos).pos).token == Scan(s, pos).token
  {
    ScanEnds(s, pos);
    if Scan(s, pos).token.kind == Eof {
      GapScansToEnd(s, pos);
    } else {
      SpanIsLongest(s, pos, Ignored);
    }
  }

  // ---------------------------------------------------------------- line and column

  datatype Place = Place(line: nat, column: nat)

  /** Line and column of the position `pos`, both counted from 1. */
  function PlaceOf(s: string, pos: nat): (p: Place)
    requires pos <= |s|
    ensures p.line >= 1 && p.column >= 1
  {
    if pos == 0 then Place(1, 1)
    else
      var p := PlaceOf(s, pos - 1);
      if s[pos - 1] == '\n' then Place(p.line + 1, 1) else Place(p.line, p.column + 1)
  }

  /** Positions behind the end count as the end. */
  method LineColumnFromPos(s: string, pos: nat) returns (line: nat, column: nat)
    ensures Place(line, column) == PlaceOf(s, if pos <= |s| then pos else |s|)
  {
    line, column := 1, 1;
    var i := 0;
    while i < pos && i < |s|
      invariant 0 <= i <= |s| && (i <= pos)
      invariant Place(line, column) == PlaceOf(s, i)
    {
      if s[i] == '\n' {
        line := line + 1;
        column := 1;
      } else {
        column := column + 1;
      }
      i := i + 1;
    }
  }

  method LineColumnFromCursor(s: string, cursor: nat) returns (line: nat, column: nat)
    requires cursor <= |s|
    ensures Place(line, column) == PlaceOf(s, cursor)
  {
    line, column := 1, 1;
    var c := 0;
    while c < cursor
      invariant 0 <= c <= cursor
      invariant Place(line, column) == PlaceOf(s, c)
    {
      if s[c] == '\n' {
        line := line + 1;
        column := 1;
      } else {
        column := column + 1;
      }
      c := c + 1;
    }
  }

  function Newlines(s: string): nat {
    if s == "" then 0 else Newlines(s[..|s| - 1]) + if s[|s| - 1] == '\n' then 1 else 0
  }

  /** The line is one more than the newlines before the position, and the column is one more than the
      characters since the last of them. */
  lemma {:induction false} PlaceCounts(s: string, pos: nat)
    requires pos <= |s|
    ensures PlaceOf(s, pos).line == 1 + Newlines(s[..pos])
    ensures var c := PlaceOf(s, pos).column;
            && c <= pos + 1
            && (forall i :: pos + 1 - c <= i < pos ==> s[i] != '\n')
            && (c <= pos ==> s[pos - c] == '\n')
  {
    if pos > 0 {
      PlaceCounts(s, pos - 1);
      assert s[..pos][..pos - 1] == s[..pos - 1];
    }
  }

  predicate Before(p: Place, q: Place) {
    p.line < q.line || (p.line == q.line && p.column < q.column)
  }

  /** Later positions have lexicographically larger places, so a place tells the position. */
  lemma {:induction false} PlacesIncrease(s: string, i: nat, j: nat)
    requires i < j <= |s|
    ensures Before(PlaceOf(s, i), PlaceOf(s, j)) && PlaceOf(s, i) != PlaceOf(s, j)
    decreases j
  {
    if i < j - 1 { PlacesIncrease(s, i, j - 1); }
  }
}
