/** The ring buffer behind the lexer's lookahead. */
module TokenQueue {
  import opened Cyclic
  import opened Lexing

  class Queue {
    const items: array<Token>
    var start: nat
    var end: nat
    var len: nat

    /** The queued tokens, oldest first. */
    ghost var contents: seq<Token>

    ghost predicate Valid()
      reads this, items
    {
      && 0 < items.Length && start < items.Length && len <= items.Length
      && end == (if len == items.Length then start else Wrap(start, len, items.Length))
      && |contents| == len
      && forall i :: 0 <= i < len ==> contents[i] == items[Wrap(start, i, items.Length)]
    }

    constructor (capacity: nat)
      requires 0 < capacity
      ensures Valid() && fresh(items) && items.Length == capacity && contents == []
    {
      items := new Token[capacity](_ => EOF_TOKEN);
      start, end, len, contents := 0, 0, 0, [];
    }

    predicate IsEmpty()
      reads this
    {
      len == 0
    }

    predicate IsFull()
      reads this
    {
      len == items.Length
    }

    method Append(item: Token)
      requires Valid() && !IsFull()
      modifies this`end, this`len, this`contents, items
      ensures Valid() && contents == old(contents) + [item]
    {
      items[end] := item;
      NextSlot(start, len, items.Length);
      end := (end + 1) % items.Length;
      len := len + 1;
      contents := contents + [item];
    }

    method Pop() returns (token: Token)
      requires Valid() && !IsEmpty()
      modifies this`start, this`len, this`contents
      ensures Valid() && token == old(contents)[0] && contents == old(contents)[1..]
    {
      token := items[start];
      NextSlot(start, 0, items.Length);
      start := (start + 1) % items.Length;
      len := len - 1;
      contents := contents[1..];
    }

    method Peek() returns (token: Token)
      requires Valid() && !IsEmpty()
      ensures token == contents[0]
    {
      token := items[start];
    }
  }
}
