/** Traces of a call stack that grows by calls and shrinks by returns. */
module CallStack {

  datatype Event = CallEvent | ReturnEvent | OtherEvent

  /** The program counter, the stack array and how much of it is in use. */
  datatype Frame = Frame(pc: int, stack: seq<int>, sp: nat)

  /** A call stacks the address behind it, and a return resumes at the entry on top. */
  predicate Moves(f: Frame, e: Event, f': Frame) {
    match e
    case CallEvent => f.sp < |f.stack| && f'.sp == f.sp + 1 && f'.stack == f.stack[f.sp := f.pc + 2]
    case ReturnEvent => 0 < f.sp <= |f.stack| && f'.sp == f.sp - 1 && f'.stack == f.stack && f'.pc == f.stack[f.sp - 1]
    case OtherEvent => f'.sp == f.sp && f'.stack == f.stack
  }

  ghost predicate IsTrace(fs: seq<Frame>, es: seq<Event>) {
    && |fs| == |es| + 1 && (forall k :: 0 <= k < |fs| ==> fs[k].sp <= |fs[k].stack|)
    && forall k :: 0 <= k < |es| ==> Moves(fs[k], es[k], fs[k + 1])
  }

  /** While the depth stays at `d` or above, the lowest `d` entries do not change. */
  lemma {:induction false} BelowIsKept(fs: seq<Frame>, es: seq<Event>, i: nat, j: nat, d: nat)
    requires IsTrace(fs, es) && i <= j < |fs|
    requires forall k :: i <= k <= j ==> d <= fs[k].sp
    ensures fs[j].stack[..d] == fs[i].stack[..d]
    decreases j - i
  {
    if i < j {
      BelowIsKept(fs, es, i, j - 1, d);
      assert Moves(fs[j - 1], es[j - 1], fs[j - 1 + 1]);
    }
  }

  /** The depth moves by one at a time, so until it is back at that of a call it is above. */
  lemma {:induction false} StaysDeeper(fs: seq<Frame>, es: seq<Event>, i: nat, j: nat)
    requires IsTrace(fs, es) && i < j < |fs| && es[i] == CallEvent
    requires forall k :: i < k < j ==> fs[k].sp != fs[i].sp
    ensures forall k :: i < k < j ==> fs[k].sp > fs[i].sp
    decreases j
  {
    assert Moves(fs[i], es[i], fs[i + 1]);
    if i + 1 < j - 1 {
      StaysDeeper(fs, es, i, j - 1);
      assert Moves(fs[j - 2], es[j - 2], fs[j - 2 + 1]);
    }
  }

  /** The event that first brings the depth back to that of a call is a return, it resumes behind the
      call, and the entries below are the same all the way. */
  lemma Bracketed(fs: seq<Frame>, es: seq<Event>, i: nat, j: nat)
    requires IsTrace(fs, es) && i < j < |fs| && es[i] == CallEvent
    requires fs[j].sp == fs[i].sp && forall k :: i < k < j ==> fs[k].sp != fs[i].sp
    ensures es[j - 1] == ReturnEvent && fs[j].pc == fs[i].pc + 2
    ensures forall k :: i <= k <= j ==> fs[i].sp <= |fs[k].stack| && fs[k].stack[..fs[i].sp] == fs[i].stack[..fs[i].sp]
  {
    var d := fs[i].sp;
    StaysDeeper(fs, es, i, j);
    assert Moves(fs[i], es[i], fs[i + 1]);
    assert Moves(fs[j - 1], es[j - 1], fs[j - 1 + 1]);
    BelowIsKept(fs, es, i + 1, j - 1, d + 1);
    assert fs[j - 1].stack[d] == fs[j - 1].stack[..d + 1][d];
    assert fs[i + 1].stack[d] == fs[i + 1].stack[..d + 1][d];
    forall k | i <= k <= j ensures d <= |fs[k].stack| && fs[k].stack[..d] == fs[i].stack[..d] {
      BelowIsKept(fs, es, i, k, d);
    }
  }

  /** The return addresses of the calls not yet returned from, told from where the calls were. */
  function Pending(pcs: seq<int>, es: seq<Event>): seq<int>
    requires |pcs| >= |es|
  {
    if es == [] then []
    else
      var last := |es| - 1;
      var before := Pending(pcs[..last], es[..last]);
      match es[last]
      case CallEvent => before + [pcs[last] + 2]
      case ReturnEvent => if before == [] then [] else before[..|before| - 1]
      case OtherEvent => before
  }

  /** From an empty stack on, the entries in use are exactly the pending return addresses. */
  lemma {:induction false} StackIsPending(fs: seq<Frame>, es: seq<Event>, pcs: seq<int>)
    requires IsTrace(fs, es) && fs[0].sp == 0 && |pcs| >= |es|
    requires forall k :: 0 <= k < |es| ==> pcs[k] == fs[k].pc
    ensures fs[|es|].stack[..fs[|es|].sp] == Pending(pcs, es)
    decreases |es|
  {
    if es != [] {
      var last := |es| - 1;
      StackIsPending(fs[..|es|], es[..last], pcs[..last]);
      assert Moves(fs[last], es[last], fs[last + 1]);
    }
  }
}
