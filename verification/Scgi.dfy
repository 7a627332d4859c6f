/** The two-cursor SCGI request parser. It reads the header part and the body of the "Request Format"
    section of the SCGI protocol specification; the enclosing netstring length is not parsed. */
module Scgi {
  import opened Bytes

  const NUL: byte := 0
  const COMMA: byte := 44
  /** The size of each buffer a name, a value or the body is copied into. */
  const BUFFER_SIZE := 256

  datatype State = HeaderName | HeaderValue | Body | Done

  datatype Header = Header(name: seq<byte>, value: seq<byte>)

  datatype Outcome = Accepted(headers: seq<Header>, body: seq<byte>) | Rejected

  /** The rest of a parse: `start` and `end` are the two cursors, `name` the last header name completed. */
  function ParseFrom(input: seq<byte>, st: State, start: nat, end: nat, name: seq<byte>, headers: seq<Header>): (r: Outcome)
    requires start <= end <= |input|
    decreases |input| - end
  {
    if st == Done then Rejected
    else if end == |input| then
      if st == Body && end - start < BUFFER_SIZE - 1 then Accepted(headers, input[start..end]) else Rejected
    else
      match st
      case HeaderName =>
        if input[end] == COMMA then ParseFrom(input, Body, end + 1, end + 1, name, headers)
        else if input[end] != NUL then ParseFrom(input, HeaderName, start, end + 1, name, headers)
        else if end - start >= BUFFER_SIZE - 1 then Rejected
        else ParseFrom(input, HeaderValue, end + 1, end + 1, input[start..end], headers)
      case HeaderValue =>
        if input[end] != NUL then ParseFrom(input, HeaderValue, start, end + 1, name, headers)
        else if end - start >= BUFFER_SIZE - 1 then Rejected
        else ParseFrom(input, HeaderName, end + 1, end + 1, name, headers + [Header(name, input[start..end])])
      case Body => ParseFrom(input, Body, start, end + 1, name, headers)
  }

  class Parser {
    var state: State
    const input: seq<byte>
    var cursorStart: nat
    var cursorEnd: nat

    ghost predicate Valid()
      reads this
    {
      cursorStart <= cursorEnd <= |input|
    }

    constructor (input: seq<byte>)
      requires |input| > 0
      ensures Valid() && this.input == input && state == HeaderName && cursorStart == cursorEnd == 0
    {
      this.input := input;
      state, cursorStart, cursorEnd := HeaderName, 0, 0;
    }

    predicate Eof()
      reads this
    {
      cursorEnd >= |input|
    }

    function CursorSize(): nat
      requires Valid()
      reads this
    {
      cursorEnd - cursorStart
    }

    /** Returns 0 and what was parsed, or 1. Every iteration consumes exactly one byte. */
    method Parse() returns (rc: int, headers: seq<Header>, body: seq<byte>, iterations: nat)
      requires Valid()
      modifies this
      ensures Valid()
      ensures var r := ParseFrom(input, old(state), old(cursorStart), old(cursorEnd), [], []);
              if rc == 0 then r == Accepted(headers, body) && state == Done && cursorStart == cursorEnd == |input|
              else rc == 1 && r == Rejected
      ensures iterations <= |input| - old(cursorEnd)
      ensures rc == 0 ==> iterations == |input| - old(cursorEnd)
    {
      headers, body, iterations := [], [], 0;
      var name := [];
      ghost var r := ParseFrom(input, state, cursorStart, cursorEnd, name, headers);
      while state != Done && !Eof()
        invariant Valid()
        invariant r == ParseFrom(input, state, cursorStart, cursorEnd, name, headers)
        invariant iterations == cursorEnd - old(cursorEnd)
        decreases |input| - cursorEnd
      {
        iterations := iterations + 1;
        match state
        case HeaderName =>
          if input[cursorEnd] == COMMA {
            state := Body;
            cursorEnd := cursorEnd + 1;
            cursorStart := cursorEnd;
            continue;
          }
          if input[cursorEnd] != NUL {
            cursorEnd := cursorEnd + 1;
            continue;
          }
          if CursorSize() >= BUFFER_SIZE - 1 {
            return 1, headers, body, iterations;
          }
          name := input[cursorStart..cursorEnd];
          state := HeaderValue;
          cursorEnd := cursorEnd + 1;
          cursorStart := cursorEnd;
        case HeaderValue =>
          if input[cursorEnd] != NUL {
            cursorEnd := cursorEnd + 1;
            continue;
          }
          if CursorSize() >= BUFFER_SIZE - 1 {
            return 1, headers, body, iterations;
          }
          headers := headers + [Header(name, input[cursorStart..cursorEnd])];
          state := HeaderName;
          cursorEnd := cursorEnd + 1;
          cursorStart := cursorEnd;
        case Body =>
          cursorEnd := cursorEnd + 1;
      }
      if Eof() && state == Body {
        if CursorSize() >= BUFFER_SIZE - 1 {
          return 1, headers, body, iterations;
        }
        body := input[cursorStart..cursorEnd];
        state := Done;
        cursorStart := cursorEnd;
        return 0, headers, body, iterations;
      }
      return 1, headers, body, iterations;
    }
  }

  // ---------------------------------------------------------------- the language

  function SerializeHeaders(hs: seq<Header>): seq<byte> {
    if hs == [] then [] else hs[0].name + [0] + (hs[0].value + [0] + SerializeHeaders(hs[1..]))
  }

  /** A request: headers, then an unterminated name fragment that is thrown away, a comma and a body. */
  function Serialize(hs: seq<Header>, fragment: seq<byte>, body: seq<byte>): seq<byte> {
    SerializeHeaders(hs) + (fragment + [44] + body)
  }

  predicate WellFormedHeader(h: Header) {
    && 0 !in h.name && 44 !in h.name && |h.name| <= 254
    && 0 !in h.value && |h.value| <= 254
  }

  predicate WellFormed(hs: seq<Header>, fragment: seq<byte>, body: seq<byte>) {
    && (forall h :: h in hs ==> WellFormedHeader(h))
    && 0 !in fragment && 44 !in fragment
    && |body| <= 254
  }

  lemma {:induction false} NameIsSkipped(input: seq<byte>, start: nat, end: nat, j: nat, name: seq<byte>, hs: seq<Header>)
    requires start <= end <= j <= |input|
    requires NUL !in input[end..j] && COMMA !in input[end..j]
    ensures ParseFrom(input, HeaderName, start, end, name, hs) == ParseFrom(input, HeaderName, start, j, name, hs)
    decreases j - end
  {
    if end < j {
      assert input[end..j][0] == input[end] && input[end + 1..j] == input[end..j][1..];
      NameIsSkipped(input, start, end + 1, j, name, hs);
    }
  }

  lemma {:induction false} ValueIsSkipped(input: seq<byte>, start: nat, end: nat, j: nat, name: seq<byte>, hs: seq<Header>)
    requires start <= end <= j <= |input| && NUL !in input[end..j]
    ensures ParseFrom(input, HeaderValue, start, end, name, hs) == ParseFrom(input, HeaderValue, start, j, name, hs)
    decreases j - end
  {
    if end < j {
      assert input[end..j][0] == input[end] && input[end + 1..j] == input[end..j][1..];
      ValueIsSkipped(input, start, end + 1, j, name, hs);
    }
  }

  lemma {:induction false} BodyIsTheRest(input: seq<byte>, start: nat, end: nat, name: seq<byte>, hs: seq<Header>)
    requires start <= end <= |input|
    ensures ParseFrom(input, Body, start, end, name, hs) ==
              if |input| - start <= 254 then Accepted(hs, input[start..]) else Rejected
    decreases |input| - end
  {
    if end == |input| {
      assert input[start..end] == input[start..];
    } else {
      BodyIsTheRest(input, start, end + 1, name, hs);
    }
  }

  /** The tail of a sequence that starts with `a`, a byte, and `rest`. */
  lemma Split(input: seq<byte>, start: nat, a: seq<byte>, c: byte, rest: seq<byte>)
    requires start <= |input| && input[start..] == a + [c] + rest
    ensures start + |a| < |input| && input[start..start + |a|] == a
    ensures input[start + |a|] == c && input[start + |a| + 1..] == rest
  {
  }

  /** At the NUL behind a name... */
  lemma NameEnds(input: seq<byte>, start: nat, end: nat, last: seq<byte>, before: seq<Header>)
    requires start <= end < |input| && input[end] == NUL && end - start <= 254
    ensures ParseFrom(input, HeaderName, start, end, last, before) ==
              ParseFrom(input, HeaderValue, end + 1, end + 1, input[start..end], before)
  {
  }

  /** ... and behind a value. */
  lemma ValueEnds(input: seq<byte>, start: nat, end: nat, name: seq<byte>, before: seq<Header>)
    requires start <= end < |input| && input[end] == NUL && end - start <= 254
    ensures ParseFrom(input, HeaderValue, start, end, name, before) ==
              ParseFrom(input, HeaderName, end + 1, end + 1, name, before + [Header(name, input[start..end])])
  {
  }

  lemma OneName(input: seq<byte>, start: nat, last: seq<byte>, before: seq<Header>, name: seq<byte>, rest: seq<byte>)
    requires start <= |input| && NUL !in name && COMMA !in name && |name| <= 254
    requires input[start..] == name + [NUL] + rest
    ensures var v := start + |name| + 1;
            && v <= |input| && input[v..] == rest
            && ParseFrom(input, HeaderName, start, start, last, before) == ParseFrom(input, HeaderValue, v, v, name, before)
  {
    Split(input, start, name, NUL, rest);
    NameIsSkipped(input, start, start, start + |name|, last, before);
    NameEnds(input, start, start + |name|, last, before);
  }

  lemma OneValue(input: seq<byte>, start: nat, name: seq<byte>, before: seq<Header>, value: seq<byte>, rest: seq<byte>)
    requires start <= |input| && NUL !in value && |value| <= 254
    requires input[start..] == value + [NUL] + rest
    ensures var next := start + |value| + 1;
            && next <= |input| && input[next..] == rest
            && ParseFrom(input, HeaderValue, start, start, name, before) ==
               ParseFrom(input, HeaderName, next, next, name, before + [Header(name, value)])
  {
    Split(input, start, value, NUL, rest);
    ValueIsSkipped(input, start, start, start + |value|, name, before);
    ValueEnds(input, start, start + |value|, name, before);
  }

  lemma OneHeader(input: seq<byte>, start: nat, name: seq<byte>, before: seq<Header>, h: Header, rest: seq<byte>)
    requires start <= |input| && WellFormedHeader(h)
    requires input[start..] == h.name + [NUL] + (h.value + [NUL] + rest)
    ensures var next := start + |h.name| + 1 + |h.value| + 1;
            && next <= |input| && input[next..] == rest
            && ParseFrom(input, HeaderName, start, start, name, before) ==
               ParseFrom(input, HeaderName, next, next, h.name, before + [h])
  {
    OneName(input, start, name, before, h.name, h.value + [NUL] + rest);
    OneValue(input, start + |h.name| + 1, h.name, before, h.value, rest);
  }

  lemma SerializeCons(hs: seq<Header>, fragment: seq<byte>, body: seq<byte>)
    requires hs != []
    ensures Serialize(hs, fragment, body) ==
              hs[0].name + [NUL] + (hs[0].value + [NUL] + Serialize(hs[1..], fragment, body))
  {
  }

  lemma NoHeaders(fragment: seq<byte>, body: seq<byte>)
    ensures Serialize([], fragment, body) == fragment + [COMMA] + body
  {
  }

  lemma WellFormedCons(hs: seq<Header>, fragment: seq<byte>, body: seq<byte>)
    requires hs != [] && WellFormedHeader(hs[0]) && WellFormed(hs[1..], fragment, body)
    ensures WellFormed(hs, fragment, body)
  {
  }

  lemma NoMoreHeaders(input: seq<byte>, start: nat, name: seq<byte>, before: seq<Header>, fragment: seq<byte>, body: seq<byte>)
    requires start <= |input| && WellFormed([], fragment, body)
    requires input[start..] == fragment + [COMMA] + body
    ensures ParseFrom(input, HeaderName, start, start, name, before) == Accepted(before, body)
  {
    Split(input, start, fragment, COMMA, body);
    var comma := start + |fragment|;
    NameIsSkipped(input, start, start, comma, name, before);
    BodyIsTheRest(input, comma + 1, comma + 1, name, before);
  }

  lemma {:induction false} ParseSerialized(input: seq<byte>, start: nat, name: seq<byte>, before: seq<Header>,
                                           hs: seq<Header>, fragment: seq<byte>, body: seq<byte>)
    requires start <= |input| && WellFormed(hs, fragment, body)
    requires input[start..] == Serialize(hs, fragment, body)
    ensures ParseFrom(input, HeaderName, start, start, name, before) == Accepted(before + hs, body)
    decreases |hs|
  {
    if hs == [] {
      assert before + hs == before;
      NoHeaders(fragment, body);
      NoMoreHeaders(input, start, name, before, fragment, body);
    } else {
      var h := hs[0];
      SerializeCons(hs, fragment, body);
      OneHeader(input, start, name, before, h, Serialize(hs[1..], fragment, body));
      ParseSerialized(input, start + |h.name| + 1 + |h.value| + 1, h.name, before + [h], hs[1..], fragment, body);
      assert before + [h] + hs[1..] == before + hs;
    }
  }

  /** Round trip: parsing a serialised request gives back its headers and its body. */
  lemma RoundTrip(hs: seq<Header>, fragment: seq<byte>, body: seq<byte>)
    requires WellFormed(hs, fragment, body)
    ensures ParseFrom(Serialize(hs, fragment, body), HeaderName, 0, 0, [], []) == Accepted(hs, body)
  {
    var input := Serialize(hs, fragment, body);
    assert input[0..] == input;
    ParseSerialized(input, 0, [], [], hs, fragment, body);
    assert [] + hs == hs;
  }

  lemma CutAt(input: seq<byte>, start: nat, end: nat)
    requires start <= end < |input|
    ensures input[start..] == input[start..end] + [input[end]] + input[end + 1..]
    ensures input[start..end + 1] == input[start..end] + [input[end]]
    ensures input[end + 1..end + 1] == []
  {
  }

  /** Only serialised requests are accepted: what is left when a name is being read... */
  lemma {:induction false} AcceptedFromName(input: seq<byte>, start: nat, end: nat, name: seq<byte>, before: seq<Header>)
      returns (hs: seq<Header>, fragment: seq<byte>)
    requires start <= end <= |input|
    requires NUL !in input[start..end] && COMMA !in input[start..end]
    requires ParseFrom(input, HeaderName, start, end, name, before).Accepted?
    ensures var r := ParseFrom(input, HeaderName, start, end, name, before);
            && r.headers == before + hs
            && WellFormed(hs, fragment, r.body)
            && input[start..] == Serialize(hs, fragment, r.body)
    decreases |input| - end
  {
    var text, c := input[start..end], input[end];
    CutAt(input, start, end);
    if c == COMMA {
      CommaEnds(input, start, end, name, before);
      hs, fragment := [], text;
    } else if c != NUL {
      hs, fragment := AcceptedFromName(input, start, end + 1, name, before);
    } else {
      hs, fragment := AcceptedFromValue(input, end + 1, end + 1, text, before);
      var body := ParseFrom(input, HeaderName, start, end, name, before).body;
      NameCompleted(input, start, end, hs, fragment, body);
    }
  }

  lemma CommaEnds(input: seq<byte>, start: nat, end: nat, name: seq<byte>, before: seq<Header>)
    requires start <= end < |input| && input[end] == COMMA
    requires NUL !in input[start..end] && COMMA !in input[start..end]
    requires ParseFrom(input, HeaderName, start, end, name, before).Accepted?
    ensures var r := ParseFrom(input, HeaderName, start, end, name, before);
            && r.headers == before + []
            && WellFormed([], input[start..end], r.body)
            && input[start..] == Serialize([], input[start..end], r.body)
  {
    CutAt(input, start, end);
    BodyIsTheRest(input, end + 1, end + 1, name, before);
    NoHeaders(input[start..end], input[end + 1..]);
    assert before + [] == before;
  }

  lemma NameCompleted(input: seq<byte>, start: nat, end: nat, hs: seq<Header>, fragment: seq<byte>, body: seq<byte>)
    requires start <= end < |input| && input[end] == NUL && hs != [] && hs[0].name == input[start..end]
    requires WellFormedHeader(hs[0]) && WellFormed(hs[1..], fragment, body)
    requires input[end + 1..] == hs[0].value + [NUL] + Serialize(hs[1..], fragment, body)
    ensures WellFormed(hs, fragment, body) && input[start..] == Serialize(hs, fragment, body)
  {
    CutAt(input, start, end);
    SerializeCons(hs, fragment, body);
    WellFormedCons(hs, fragment, body);
  }

  /** ... and when a value is being read. */
  lemma {:induction false} AcceptedFromValue(input: seq<byte>, start: nat, end: nat, name: seq<byte>, before: seq<Header>)
      returns (hs: seq<Header>, fragment: seq<byte>)
    requires start <= end <= |input| && NUL !in input[start..end]
    requires ParseFrom(input, HeaderValue, start, end, name, before).Accepted?
    ensures var r := ParseFrom(input, HeaderValue, start, end, name, before);
            && hs != [] && hs[0].name == name && NUL !in hs[0].value && |hs[0].value| <= 254
            && r.headers == before + hs
            && WellFormed(hs[1..], fragment, r.body)
            && input[start..] == hs[0].value + [NUL] + Serialize(hs[1..], fragment, r.body)
    decreases |input| - end
  {
    var text, c := input[start..end], input[end];
    CutAt(input, start, end);
    if c != NUL {
      hs, fragment := AcceptedFromValue(input, start, end + 1, name, before);
    } else {
      var h := Header(name, text);
      var rest;
      rest, fragment := AcceptedFromName(input, end + 1, end + 1, name, before + [h]);
      hs := [h] + rest;
      assert hs[1..] == rest;
      assert before + [h] + rest == before + hs;
    }
  }

  /** The exact language: a parse returns `hs` and `body` exactly when the input is such a request. */
  lemma ExactLanguage(input: seq<byte>, hs: seq<Header>, body: seq<byte>)
    ensures ParseFrom(input, HeaderName, 0, 0, [], []) == Accepted(hs, body) <==>
              exists fragment :: WellFormed(hs, fragment, body) && input == Serialize(hs, fragment, body)
  {
    var r := ParseFrom(input, HeaderName, 0, 0, [], []);
    if r == Accepted(hs, body) {
      assert input[0..0] == [];
      var hs', fragment := AcceptedFromName(input, 0, 0, [], []);
      assert input[0..] == input && [] + hs' == hs';
      assert WellFormed(hs, fragment, body) && input == Serialize(hs, fragment, body);
    }
    if fragment :| WellFormed(hs, fragment, body) && input == Serialize(hs, fragment, body) {
      RoundTrip(hs, fragment, body);
    }
  }

  /** A request splits in one way only. */
  lemma SplitIsUnique(hs: seq<Header>, fragment: seq<byte>, body: seq<byte>,
                      hs': seq<Header>, fragment': seq<byte>, body': seq<byte>)
    requires WellFormed(hs, fragment, body) && WellFormed(hs', fragment', body')
    requires Serialize(hs, fragment, body) == Serialize(hs', fragment', body')
    ensures hs == hs' && fragment == fragment' && body == body'
  {
    RoundTrip(hs, fragment, body);
    RoundTrip(hs', fragment', body');
    var input, n := Serialize(hs, fragment, body), |SerializeHeaders(hs)|;
    assert |fragment| == |fragment'|;
    assert fragment == input[n..n + |fragment|] == fragment';
  }
}
