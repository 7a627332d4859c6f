/** The growable byte array of the HTTP server. Two push operations with different growth policies
    share one buffer. */
module DynamicArray {
  import opened Bytes

  const INITIAL_CAPACITY := 8
  const GROW_FACTOR := 2
  const SIZE_MAX := 0xFFFF_FFFF_FFFF_FFFF

  function Max(a: nat, b: nat): nat { if a > b then a else b }

  /** What an array stands for: its bytes, the size of its buffer, and the bytes of old buffers that
      reallocations have carried over so far. */
  datatype Buffer = Buffer(data: seq<byte>, capacity: nat, moved: nat)

  datatype Push = Byte(item: byte) | Bytes(buffer: seq<byte>)

  predicate IsFull(length: nat, capacity: nat) { length >= capacity }

  predicate WouldOverflow(length: nat, capacity: nat, byteCount: nat) {
    if byteCount == 0 then IsFull(length, capacity) else length + byteCount > capacity
  }

  /** A block push must carry at least one byte. */
  predicate Legal(p: Push) { p.Bytes? ==> p.buffer != [] }

  function PushedBytes(p: Push): seq<byte> {
    match p case Byte(b) => [b] case Bytes(bs) => bs
  }

  /** The capacity after making room for a push. */
  function CapacityFor(length: nat, capacity: nat, p: Push): (c: nat)
    requires Legal(p)
  {
    match p
    case Byte(_) =>
      if !IsFull(length, capacity) then capacity
      else if capacity == 0 then INITIAL_CAPACITY
      else GROW_FACTOR * capacity
    case Bytes(bs) =>
      if !WouldOverflow(length, capacity, |bs|) then capacity
      else
        var extra := length + |bs| - capacity;
        if capacity == 0 then Max(INITIAL_CAPACITY, extra) else GROW_FACTOR * (capacity + extra)
  }

  /** A push fits in the capacity made for it, so a capacity within the size type keeps the length within it... */
  lemma PushFits(length: nat, capacity: nat, p: Push)
    requires Legal(p) && length <= capacity
    ensures length + |PushedBytes(p)| <= CapacityFor(length, capacity, p)
  {
  }

  /** ... and that capacity is within the size type whenever twice the new length is. */
  lemma DoubleSuffices(length: nat, capacity: nat, p: Push)
    requires Legal(p) && length <= capacity <= SIZE_MAX
    requires 2 * (length + |PushedBytes(p)|) <= 0xFFFF_FFFF_FFFF_FFFF
    ensures CapacityFor(length, capacity, p) <= SIZE_MAX
  {
  }

  /** The two growth policies: a full array doubles, or starts with 8; a block that does not fit gets twice the new
      length, or in an array without a buffer its own length but at least 8. Nothing else moves the buffer. */
  lemma GrowthIs(length: nat, capacity: nat, item: byte, block: seq<byte>)
    requires length <= capacity && block != []
    ensures CapacityFor(length, capacity, Byte(item)) ==
              if length < capacity then capacity else if capacity == 0 then 8 else 2 * capacity
    ensures CapacityFor(length, capacity, Bytes(block)) ==
              if length + |block| <= capacity then capacity
              else if capacity > 0 then 2 * (length + |block|)
              else if |block| > 8 then |block| else 8
  {
  }

  function Step(b: Buffer, p: Push): (b': Buffer)
    requires Legal(p)
  {
    var c := CapacityFor(|b.data|, b.capacity, p);
    Buffer(b.data + PushedBytes(p), c, b.moved + if c == b.capacity then 0 else b.capacity)
  }

  class Array {
    var items: array?<byte>
    var length: nat
    var capacity: nat
    ghost var moved: nat

    ghost predicate Valid()
      reads this, items
    {
      && (if items == null then capacity == 0 else items.Length == capacity)
      && length <= capacity <= SIZE_MAX
    }

    ghost function View(): (b: Buffer)
      requires Valid()
      reads this, items
    {
      Buffer(if items == null then [] else items[..length], capacity, moved)
    }

    constructor ()
      ensures Valid() && View() == Buffer([], 0, 0)
    {
      items, length, capacity, moved := null, 0, 0, 0;
    }

    constructor WithCapacity(initialCapacity: nat)
      requires 0 < initialCapacity <= SIZE_MAX
      ensures Valid() && View() == Buffer([], initialCapacity, 0) && fresh(items)
    {
      items := new byte[initialCapacity](_ => 0);
      length, capacity, moved := 0, initialCapacity, 0;
    }

    /** A successful reallocation: the old buffer's bytes are carried over to a larger one. */
    method Reallocate(newCapacity: nat)
      requires Valid() && capacity < newCapacity <= SIZE_MAX
      modifies this
      ensures Valid() && items != null && fresh(items)
      ensures View() == old(View()).(capacity := newCapacity, moved := old(moved) + old(capacity))
      ensures length == old(length)
    {
      var bigger := new byte[newCapacity](_ => 0);
      if items != null {
        CopyInto(bigger, 0, items[..]);
        assert bigger[..length] == bigger[..0 + capacity][..length];
      }
      moved := moved + capacity;
      items, capacity := bigger, newCapacity;
    }

    method PushBackByte(item: byte)
      requires Valid() && CapacityFor(length, capacity, Byte(item)) <= SIZE_MAX
      modifies this, items
      ensures Valid() && items != null && (items == old(items) || fresh(items))
      ensures View() == Step(old(View()), Byte(item))
    {
      if IsFull(length, capacity) {
        var newCapacity := if capacity == 0 then INITIAL_CAPACITY else GROW_FACTOR * capacity;
        Reallocate(newCapacity);
      }
      items[length] := item;
      length := length + 1;
    }

    method PushBack(buffer: seq<byte>)
      requires Valid() && 0 < |buffer| && CapacityFor(length, capacity, Bytes(buffer)) <= SIZE_MAX
      modifies this, items
      ensures Valid() && items != null && (items == old(items) || fresh(items))
      ensures View() == Step(old(View()), Bytes(buffer))
    {
      if WouldOverflow(length, capacity, |buffer|) {
        var extraCount := length + |buffer| - capacity;
        var newCapacity := if capacity == 0 then Max(INITIAL_CAPACITY, extraCount)
                           else GROW_FACTOR * (capacity + extraCount);
        Reallocate(newCapacity);
      }
      CopyInto(items, length, buffer);
      length := length + |buffer|;
    }
  }

  /** A block copy of `bytes` to offset `at`. */
  method CopyInto(a: array<byte>, at: nat, bytes: seq<byte>)
    requires at + |bytes| <= a.Length
    modifies a
    ensures a[..at + |bytes|] == old(a[..at]) + bytes
  {
    for i := 0 to |bytes|
      invariant a[..at + i] == old(a[..at]) + bytes[..i]
    {
      a[at + i] := bytes[i];
      assert a[..at + i + 1] == a[..at + i] + [bytes[i]];
    }
  }

  // ---------------------------------------------------------------- whole runs

  predicate AllLegal(ps: seq<Push>) { forall p :: p in ps ==> Legal(p) }

  function Run(b: Buffer, ps: seq<Push>): (b': Buffer)
    requires AllLegal(ps)
  {
    if ps == [] then b else Step(Run(b, ps[..|ps| - 1]), ps[|ps| - 1])
  }

  function Pushed(ps: seq<Push>): seq<byte> {
    if ps == [] then [] else Pushed(ps[..|ps| - 1]) + PushedBytes(ps[|ps| - 1])
  }

  /** Over any mix of pushes from an empty array of any initial capacity: the array is the concatenation
      pushed, the bytes written plus the bytes moved are at most three times the bytes pushed, and
      the buffer is at most twice as large as needed (or never grew, or is the first small one). */
  lemma {:induction false} AmortisedGrowth(initial: nat, ps: seq<Push>)
    requires AllLegal(ps)
    ensures var b := Run(Buffer([], initial, 0), ps);
            var n := |Pushed(ps)|;
            && b.data == Pushed(ps)
            && n <= b.capacity
            && n + b.moved <= 3 * n
            && b.capacity <= Max(initial, Max(8, 2 * n))
            && b.moved <= b.capacity
  {
    if ps != [] {
      AmortisedGrowth(initial, ps[..|ps| - 1]);
    }
  }

  /** So with room for twice the bytes pushed, no capacity computed on the way exceeds the size type. */
  lemma NoSizeOverflow(initial: nat, ps: seq<Push>, i: nat)
    requires AllLegal(ps)
    requires initial <= 0xFFFF_FFFF_FFFF_FFFF && 2 * |Pushed(ps)| <= 0xFFFF_FFFF_FFFF_FFFF && i <= |ps|
    ensures Run(Buffer([], initial, 0), ps[..i]).capacity <= 0xFFFF_FFFF_FFFF_FFFF
  {
    AmortisedGrowth(initial, ps[..i]);
    PushedPrefix(ps, i);
  }

  lemma {:induction false} PushedPrefix(ps: seq<Push>, i: nat)
    requires i <= |ps|
    ensures |Pushed(ps[..i])| <= |Pushed(ps)|
  {
    if i == |ps| {
      assert ps[..i] == ps;
    } else {
      assert ps[..|ps| - 1][..i] == ps[..i];
      PushedPrefix(ps[..|ps| - 1], i);
    }
  }
}
