/** The lexer with its lookahead queue, as it moves over the input. */
module Lexer {
  import opened Lexing
  import opened TokenQueue

  const LOOKAHEAD := 10

  /** The position after the last token handed out, and the tokens peeked at. */
  datatype State = State(pos: nat, ahead: seq<Token>)

  predicate InRange(s: string, st: State) {
    st.pos <= |s|
  }

  /** The lookahead holds at most the token that a scan from the position would give. */
  predicate Coherent(s: string, st: State) {
    InRange(s, st) && (st.ahead == [] || st.ahead == [Scan(s, st.pos).token])
  }

  datatype Outcome = Outcome(token: Token, state: State)

  function Peek(s: string, st: State): (r: Outcome)
    requires InRange(s, st)
  {
    if st.ahead != [] then Outcome(st.ahead[0], st)
    else
      var t := Scan(s, st.pos).token;
      Outcome(t, st.(ahead := [t]))
  }

  /** A queued token is handed out and the position moves behind it; a queued EOF moves nothing. */
  function Next(s: string, st: State): (r: Outcome)
    requires InRange(s, st)
  {
    if st.ahead != [] then
      var t := st.ahead[0];
      Outcome(t, State(if t.start.At? then t.start.offset + t.len else st.pos, st.ahead[1..]))
    else
      var r := Scan(s, st.pos);
      Outcome(r.token, State(r.pos, []))
  }

  /** Both calls keep the lookahead coherent, with never more than one token in it. */
  lemma CallsKeepCoherence(s: string, st: State)
    requires Coherent(s, st)
    ensures Coherent(s, Peek(s, st).state) && Coherent(s, Next(s, st).state)
    ensures Peek(s, st).token == Next(s, st).token == Scan(s, st.pos).token
    ensures |Peek(s, st).state.ahead| == 1 && Next(s, st).state.ahead == []
  {
  }

  /** The pattern expressions, in the order they are tried. */
  function MatchPattern(i: nat, s: string, p: nat): (n: nat)
    requires p <= |s| && i < 2
    ensures p + n <= |s|
  {
    if i == 0 then MatchString(s, p) else MatchId(s, p)
  }

  class TokenLexer {
    const input: string
    var cursor: nat
    var pos: nat
    const lookahead: Queue

    ghost predicate Valid()
      reads this, lookahead, lookahead.items
    {
      && cursor == pos
      && lookahead.Valid() && lookahead.items.Length == LOOKAHEAD
      && Coherent(input, View())
    }

    ghost function View(): State
      reads this, lookahead
    {
      State(pos, lookahead.contents)
    }

    constructor (input: string)
      ensures Valid() && this.input == input && View() == State(0, [])
      ensures fresh(lookahead) && fresh(lookahead.items)
    {
      this.input := input;
      cursor, pos := 0, 0;
      lookahead := new Queue(LOOKAHEAD);
    }

    predicate HasMoreTokens()
      reads this
    {
      pos < |input|
    }

    method Advance(offset: nat)
      requires cursor == pos && pos + offset <= |input|
      modifies this`pos, this`cursor
      ensures pos == cursor == old(pos) + offset
    {
      pos := pos + offset;
      cursor := cursor + offset;
    }

    /** The token at the cursor: the first pattern that matches. */
    method MatchToken(at: nat) returns (t: Token)
      requires at <= |input|
      ensures t == TokenAt(input, at)
    {
      var kinds := [StringLiteral, Id];
      for i := 0 to 2
        invariant forall j :: 0 <= j < i ==> MatchPattern(j, input, at) == 0
      {
        var matchLen := MatchPattern(i, input, at);
        if matchLen > 0 {
          return Token(kinds[i], At(at), matchLen);
        }
      }
      assert MatchPattern(0, input, at) == MatchPattern(1, input, at) == 0;
      t := Token(Error, At(at), 0);
    }

    method PeekToken() returns (t: Token)
      requires Valid()
      modifies lookahead, lookahead.items
      ensures Valid()
      ensures Outcome(t, View()) == Peek(input, old(View()))
    {
      if !lookahead.IsEmpty() {
        t := lookahead.Peek();
        return;
      }
      if !HasMoreTokens() {
        t := EOF_TOKEN;
        lookahead.Append(t);
        return;
      }
      var c, p := cursor, pos;
      var matchLen := Span(input, c, Ignored);
      p := p + matchLen;
      c := c + matchLen;
      if p >= |input| {
        t := EOF_TOKEN;
        lookahead.Append(t);
        return;
      }
      t := MatchToken(c);
      lookahead.Append(t);
    }

    method NextToken() returns (t: Token)
      requires Valid()
      modifies this`pos, this`cursor, lookahead
      ensures Valid()
      ensures Outcome(t, View()) == Next(input, old(View()))
    {
      if !lookahead.IsEmpty() {
        ghost var ahead := lookahead.contents;
        t := lookahead.Pop();
        assert ahead[0] == t && t == Scan(input, pos).token;
        if t.start.At? {
          var offset := 0;
          var c := cursor;
          while c != t.start.offset
            invariant c == cursor + offset <= t.start.offset
          {
            offset := offset + 1;
            c := c + 1;
          }
          Advance(offset);
          Advance(t.len);
        }
        return;
      }
      if !HasMoreTokens() {
        return EOF_TOKEN;
      }
      Advance(Span(input, cursor, Ignored));
      if !HasMoreTokens() {
        return EOF_TOKEN;
      }
      t := MatchToken(cursor);
      Advance(t.len);
    }
  }
}
