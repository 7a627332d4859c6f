/** The automaton that looks for the blank line ending a request's header section (CR LF CR LF,
    section 2.1 of RFC 9112), compared with a plain substring search. */
module HttpHeaders {
  import opened Bytes

  const CR: byte := 13
  const LF: byte := 10

  datatype Result = Ok(endOfHeaders: nat) | Err

  /** Control characters in the C locale. */
  predicate IsControl(b: byte) { b < 32 || b == 127 }

  predicate IsValidByte(b: byte) {
    b != 0 && (IsControl(b) ==> b == CR || b == LF)
  }

  /** One transition; state 4 is the acceptance the program returns from. */
  function Next(state: nat, b: byte): (state': nat)
    ensures state' <= 4 && state' <= state + 1
  {
    if state == 0 && b == CR then 1
    else if state == 1 && b == CR then 1
    else if state == 1 && b == LF then 2
    else if state == 2 && b == CR then 3
    else if state == 3 && b == LF then 4
    else 0
  }

  function StateAt(b: seq<byte>, i: nat): (state: nat)
    requires i <= |b|
    ensures state <= 4 && state <= i
  {
    if i == 0 then 0 else Next(StateAt(b, i - 1), b[i - 1])
  }

  /** The verdict from position `i` on. */
  function Scan(b: seq<byte>, i: nat): (r: Result)
    requires i <= |b|
    decreases |b| - i
  {
    if i == |b| || !IsValidByte(b[i]) then Err
    else if StateAt(b, i + 1) == 4 then Ok(i - 2)
    else Scan(b, i + 1)
  }

  method Validate(buffer: seq<byte>) returns (r: Result)
    requires |buffer| > 1
    ensures r == Scan(buffer, 0)
  {
    var state := 0;
    var i := 0;
    while i < |buffer|
      invariant 0 <= i <= |buffer|
      invariant state == StateAt(buffer, i) < 4
      invariant Scan(buffer, 0) == Scan(buffer, i)
    {
      var c := buffer[i];
      if !IsValidByte(c) {
        return Err;
      }
      i := i + 1;
      if state == 0 && c == CR {
        state := 1;
        continue;
      }
      if state == 1 && c == CR {
        continue;
      }
      if state == 1 && c == LF {
        state := 2;
        continue;
      }
      if state == 2 && c == CR {
        state := 3;
        continue;
      }
      if state == 3 && c == LF {
        return Ok(i - 3);
      }
      state := 0;
    }
    return Err;
  }

  // ---------------------------------------------------------------- the reference search

  /** The first `k` bytes of CR LF CR LF are the last `k` bytes before position `i`. */
  predicate EndsWith(b: seq<byte>, i: nat, k: nat)
    requires i <= |b| && k <= 4
  {
    && k <= i
    && (k >= 1 ==> b[i - k] == 13)
    && (k >= 2 ==> b[i - k + 1] == 10)
    && (k >= 3 ==> b[i - k + 2] == 13)
    && (k >= 4 ==> b[i - k + 3] == 10)
  }

  predicate MatchAt(b: seq<byte>, p: nat) {
    p + 4 <= |b| && EndsWith(b, p + 4, 4)
  }

  /** CR LF CR CR occurs at `q`. */
  predicate RepeatedCrAt(b: seq<byte>, q: nat) {
    q + 4 <= |b| && EndsWith(b, q + 3, 3) && b[q + 3] == 13
  }

  /** The first `n` bytes are permitted in a header section: CR, LF, and everything that is no control character. */
  predicate ValidThrough(b: seq<byte>, n: nat)
    requires n <= |b|
  {
    forall j :: 0 <= j < n ==> b[j] == 13 || b[j] == 10 || 32 <= b[j] <= 126 || 128 <= b[j]
  }

  /** `p` is the first place where the pattern occurs. */
  ghost predicate FirstMatch(b: seq<byte>, p: nat) {
    MatchAt(b, p) && forall q: nat :: q < p ==> !MatchAt(b, q)
  }

  /** What a substring search would answer: the first occurrence, if every byte up to its end is valid. */
  ghost function Reference(b: seq<byte>): (r: Result)
    ensures r == Err || exists p: nat :: FirstMatch(b, p) && r == Ok(p + 1) && ValidThrough(b, p + 4)
  {
    if p: nat :| FirstMatch(b, p) then
      (if ValidThrough(b, p + 4) then Ok(p + 1) else Err)
    else Err
  }

  /** How many adjacent CR LF CR blocks end right before position `p`. */
  function Blocks(b: seq<byte>, p: nat): nat
    requires p <= |b|
  {
    if p >= 3 && b[p - 3] == 13 && b[p - 2] == 10 && b[p - 1] == 13 then 1 + Blocks(b, p - 3) else 0
  }

  /** The state is the length of a pattern prefix that the input read so far ends with. */
  lemma {:induction false} StateIsMatched(b: seq<byte>, i: nat)
    requires i <= |b|
    ensures EndsWith(b, i, StateAt(b, i))
  {
    if i > 0 { StateIsMatched(b, i - 1); }
  }

  /** Soundness: acceptance means the pattern ends here, and every byte up to there is valid. */
  lemma {:induction false} ScanIsSound(b: seq<byte>, i: nat)
    requires i <= |b| && ValidThrough(b, i) && Scan(b, i).Ok?
    ensures var o := Scan(b, i).endOfHeaders;
            o >= 1 && MatchAt(b, o - 1) && ValidThrough(b, o + 3) && i < o + 3
    decreases |b| - i
  {
    if StateAt(b, i + 1) == 4 {
      StateIsMatched(b, i + 1);
    } else {
      ScanIsSound(b, i + 1);
    }
  }

  /** The bytes up to position `i` are read without acceptance. */
  ghost predicate Running(b: seq<byte>, i: nat)
    requires i <= |b|
  {
    forall j :: 0 <= j < i ==> StateAt(b, j) != 4
  }

  /** The pattern occurs at `p`, behind an even number of CR LF CR blocks. */
  predicate EvenMatchAt(b: seq<byte>, p: nat) {
    MatchAt(b, p) && Blocks(b, p) % 2 == 0
  }

  /** The automaton is in its third state exactly after an odd number of adjacent CR LF CR blocks: a CR right
      after CR LF CR throws the matched part away. */
  lemma {:induction false} ThirdStateIsOddBlocks(b: seq<byte>, i: nat)
    requires i <= |b| && Running(b, i)
    ensures StateAt(b, i) == 3 <==> Blocks(b, i) % 2 == 1
  {
    if Blocks(b, i) == 0 {
      StateIsMatched(b, i);
    } else {
      var s := StateAt(b, i - 3);
      ThirdStateIsOddBlocks(b, i - 3);
      assert StateAt(b, i - 2) == Next(s, CR);
      assert StateAt(b, i - 1) == Next(StateAt(b, i - 2), LF);
      assert StateAt(b, i) == Next(StateAt(b, i - 1), CR);
    }
  }

  /** So acceptance comes exactly at the end of an occurrence behind an even number of blocks. */
  lemma AcceptsEvenMatch(b: seq<byte>, i: nat)
    requires i <= |b| && Running(b, i)
    ensures StateAt(b, i) == 4 <==> i >= 4 && EvenMatchAt(b, i - 4)
  {
    if i > 0 {
      ThirdStateIsOddBlocks(b, i - 1);
    }
  }

  lemma {:induction false} RunningIff(b: seq<byte>, i: nat)
    requires i <= |b|
    ensures Running(b, i) <==> forall q: nat :: q + 4 < i ==> !EvenMatchAt(b, q)
  {
    if i > 0 {
      RunningIff(b, i - 1);
      if Running(b, i - 1) {
        AcceptsEvenMatch(b, i - 1);
        assert i >= 5 && EvenMatchAt(b, i - 5) ==> !Running(b, i);
        forall q: nat | Running(b, i) && q + 4 < i ensures !EvenMatchAt(b, q) {}
      }
    }
  }

  lemma {:induction false} ScanReaches(b: seq<byte>, i: nat, e: nat)
    requires i < e <= |b| && e >= 3 && ValidThrough(b, e)
    requires forall j :: i < j < e ==> StateAt(b, j) != 4
    ensures StateAt(b, e) == 4 ==> Scan(b, i) == Ok(e - 3)
    decreases e - i
  {
    if i + 1 < e { ScanReaches(b, i + 1, e); }
  }

  /** An acceptance is the first one. */
  lemma {:induction false} ScanStopsFirst(b: seq<byte>, i: nat)
    requires i <= |b| && Scan(b, i).Ok?
    ensures var e := Scan(b, i).endOfHeaders + 3;
            i < e <= |b| && StateAt(b, e) == 4 && forall j :: i < j < e ==> StateAt(b, j) != 4
    decreases |b| - i
  {
    if StateAt(b, i + 1) != 4 { ScanStopsFirst(b, i + 1); }
  }

  /** The exact verdict: the automaton accepts with offset p + 1 exactly when p is the first place where the
      pattern occurs behind an even number of CR LF CR blocks, and every byte through its end is valid. */
  lemma ExactVerdict(b: seq<byte>, p: nat)
    ensures Scan(b, 0) == Ok(p + 1) <==>
              && EvenMatchAt(b, p) && ValidThrough(b, p + 4)
              && forall q: nat :: q < p ==> !EvenMatchAt(b, q)
  {
    if Scan(b, 0) == Ok(p + 1) {
      ScanIsSound(b, 0);
      ScanStopsFirst(b, 0);
      assert Running(b, p + 4);
      RunningIff(b, p + 4);
      AcceptsEvenMatch(b, p + 4);
    }
    if EvenMatchAt(b, p) && ValidThrough(b, p + 4) && forall q: nat :: q < p ==> !EvenMatchAt(b, q) {
      RunningIff(b, p + 4);
      AcceptsEvenMatch(b, p + 4);
      ScanReaches(b, 0, p + 4);
    }
  }

  /** Exactly when the automaton answers like the substring search: when the pattern does not occur, or an
      invalid byte comes before its end, or an even number of CR LF CR blocks leads up to it. */
  lemma AgreesWithReferenceIff(b: seq<byte>)
    ensures Scan(b, 0) == Reference(b) <==>
              forall p: nat :: FirstMatch(b, p) && ValidThrough(b, p + 4) ==> Blocks(b, p) % 2 == 0
  {
    if Scan(b, 0).Ok? {
      ScanIsSound(b, 0);
      var _ := LeastMatch(b, Scan(b, 0).endOfHeaders - 1);
    }
    if p: nat :| FirstMatch(b, p) {
      ExactVerdict(b, p);
    }
  }

  lemma {:induction false} LeastMatch(b: seq<byte>, q: nat) returns (p: nat)
    requires MatchAt(b, q)
    ensures p <= q && FirstMatch(b, p)
  {
    if r: nat :| r < q && MatchAt(b, r) { p := LeastMatch(b, r); } else { p := q; }
  }

  /** Where CR LF CR is never followed by CR, the search is complete and finds the first occurrence. */
  lemma CompleteWithoutRepeatedCr(b: seq<byte>)
    requires forall q: nat :: !RepeatedCrAt(b, q)
    ensures Scan(b, 0) == Reference(b)
  {
    forall p: nat | FirstMatch(b, p) && ValidThrough(b, p + 4) ensures Blocks(b, p) % 2 == 0 {
      assert Blocks(b, p) > 0 ==> RepeatedCrAt(b, p - 3);
    }
    AgreesWithReferenceIff(b);
  }

  /** A header section without empty lines before its end is accepted there: if the first CR LF CR is that of
      its CR LF CR LF, and every byte is permitted. */
  lemma HeaderSectionIsAccepted(b: seq<byte>, p: nat)
    requires p + 4 <= |b| && b[p] == 13 && b[p + 1] == 10 && b[p + 2] == 13 && b[p + 3] == 10
    requires forall q :: 0 <= q < p ==> !(b[q] == 13 && b[q + 1] == 10 && b[q + 2] == 13)
    requires forall j :: 0 <= j < p ==> b[j] == 13 || b[j] == 10 || 32 <= b[j] <= 126 || 128 <= b[j]
    ensures Scan(b, 0) == Ok(p + 1)
  {
    BlockBefore(b, p);
    ExactVerdict(b, p);
  }

  lemma BlockBefore(b: seq<byte>, p: nat)
    requires p <= |b|
    ensures Blocks(b, p) > 0 <==> p >= 3 && b[p - 3] == 13 && b[p - 2] == 10 && b[p - 1] == 13
  {
  }

  /** So is a single line of printable bytes. */
  lemma LineIsAccepted(line: seq<byte>, rest: seq<byte>)
    requires forall j :: 0 <= j < |line| ==> 32 <= line[j] <= 126 || 128 <= line[j]
    ensures Scan(line + [13, 10, 13, 10] + rest, 0) == Ok(|line| + 1)
  {
    var b := line + [13, 10, 13, 10] + rest;
    assert forall j :: 0 <= j < |line| ==> b[j] == line[j];
    HeaderSectionIsAccepted(b, |line|);
  }

  /** Under the same condition the state is the longest pattern prefix that the input ends with. */
  lemma {:induction false} StateIsLongest(b: seq<byte>, i: nat, k: nat)
    requires i <= |b| && k <= 4 && k <= i
    requires forall q: nat :: q + 4 <= i ==> !RepeatedCrAt(b, q)
    requires forall q: nat :: q + 4 < i ==> !MatchAt(b, q)
    requires EndsWith(b, i, k)
    ensures k <= StateAt(b, i)
  {
    if k > 0 {
      StateIsLongest(b, i - 1, k - 1);
      StateIsMatched(b, i - 1);
      var s := StateAt(b, i - 1);
      assert s == 3 && b[i - 1] == CR ==> RepeatedCrAt(b, i - 4);
      assert s == 4 ==> MatchAt(b, i - 5);
    }
  }

  /** A request whose header section does end, in valid bytes, but is refused. */
  lemma MissesAnOccurrence()
    ensures var b := [CR, LF, CR, CR, LF, CR, LF];
            FirstMatch(b, 3) && ValidThrough(b, 7) && Scan(b, 0) == Err
  {
    var b: seq<byte> := [CR, LF, CR, CR, LF, CR, LF];
    assert Blocks(b, 0) == 0 && Blocks(b, 3) == 1;
    assert FirstMatch(b, 3);
    AgreesWithReferenceIff(b);
    assert forall p: nat :: FirstMatch(b, p) ==> p == 3;
    if Scan(b, 0).Ok? {
      ScanIsSound(b, 0);
    }
  }
}
