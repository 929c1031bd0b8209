/**
 * The call/return stack as values: what `pushStack` and `popStack` leave in
 * the stack list. Slot 0 is the top of stack that RET jumps to.
 */
module CallStack {
  import opened Bits

  /** `pushStack(x)`: every slot moves down one place, the last slot falls off and `x` goes on top. */
  function Pushed(s: seq<Bits>, x: Bits): (r: seq<Bits>)
    requires |s| > 0
    ensures |r| == |s| && r[0] == x
    ensures forall i :: 0 < i < |s| ==> r[i] == s[i - 1]
  {
    [x] + s[..|s| - 1]
  }

  /**
   * `popStack`: its shifting loop runs over the empty range
   * `range(len, len - 1)`, so only the last slot is cleared; slot 0 stays.
   */
  function Popped(s: seq<Bits>): (r: seq<Bits>)
    requires |s| > 0
    ensures |r| == |s| && r[|s| - 1] == Zeros(8)
    ensures forall i :: 0 <= i < |s| - 1 ==> r[i] == s[i]
  {
    s[..|s| - 1] + [Zeros(8)]
  }

  /** Pushing `xs` one after the other, first element first. */
  function PushAll(s: seq<Bits>, xs: seq<Bits>): (r: seq<Bits>)
    requires |s| > 0
    ensures |r| == |s|
    decreases |xs|
  {
    if |xs| == 0 then s else Pushed(PushAll(s, xs[..|xs| - 1]), xs[|xs| - 1])
  }

  /**
   * After pushes, slot `i` holds the value pushed `i` pushes ago, or the old
   * slot `i - |xs|` when there were fewer than `i + 1` pushes: the stack keeps
   * the most recent `|s|` values and silently drops older ones.
   */
  lemma {:induction false} PushAllAt(s: seq<Bits>, xs: seq<Bits>, i: nat)
    requires |s| > 0 && i < |s|
    ensures PushAll(s, xs)[i] == if i < |xs| then xs[|xs| - 1 - i] else s[i - |xs|]
    decreases |xs|
  {
    if |xs| > 0 && i > 0 {
      PushAllAt(s, xs[..|xs| - 1], i - 1);
    }
  }

  /**
   * A push followed by a pop does not restore the stack: the pushed value
   * stays on top, and the old last two slots are gone.
   */
  lemma PushThenPop(s: seq<Bits>, x: Bits)
    requires |s| >= 2
    ensures Popped(Pushed(s, x)) == [x] + s[..|s| - 2] + [Zeros(8)]
  {
    var p := Popped(Pushed(s, x));
    var q := [x] + s[..|s| - 2] + [Zeros(8)];
    assert |p| == |q|;
    forall i | 0 <= i < |p| ensures p[i] == q[i] {
    }
  }
}
