/** Index arithmetic and contents of a circular buffer. */
module Ring {
  import opened Wrappers

  /** The slot that is `i` places after `tail`. */
  function Index(tail: nat, i: nat, capacity: nat): (r: nat)
    requires tail < capacity && i <= capacity
    ensures r < capacity
  {
    if tail + i < capacity then tail + i else tail + i - capacity
  }

  /** Index is the modular arithmetic of the source. */
  lemma {:induction false} IndexIsMod(tail: nat, i: nat, capacity: nat)
    requires tail < capacity && i <= capacity
    ensures Index(tail, i, capacity) == (tail + i) % capacity
  {
    if tail + i >= capacity {
      assert (tail + i) / capacity == 1;
    }
  }

  /** The `count` slots from `tail` on, in ring order. */
  function Window<T>(slots: seq<T>, tail: nat, count: nat): (w: seq<T>)
    requires tail < |slots| && count <= |slots|
    ensures |w| == count
  {
    seq(count, i requires 0 <= i < count => slots[Index(tail, i, |slots|)])
  }

  /** Slot j is one of the `count` slots from `tail` on. */
  predicate InWindow(j: nat, tail: nat, count: nat, capacity: nat) {
    if tail + count <= capacity then tail <= j < tail + count else tail <= j || j < tail + count - capacity
  }

  /** Writing behind the window extends it. */
  lemma WindowPush<T>(slots: seq<T>, tail: nat, count: nat, x: T)
    requires tail < |slots| && count < |slots|
    ensures Window(slots[Index(tail, count, |slots|) := x], tail, count + 1) == Window(slots, tail, count) + [x]
  {
  }

  /** Advancing the tail drops the oldest element, whatever is then written to its slot. */
  lemma WindowPop<T>(slots: seq<T>, tail: nat, count: nat, x: T)
    requires tail < |slots| && 0 < count <= |slots|
    ensures Window(slots, tail, count) == [slots[tail]] + Window(slots[tail := x], Index(tail, 1, |slots|), count - 1)
  {
  }

  /** The window as one slice of the array, or two when it wraps around. */
  lemma WindowSlices<T>(slots: seq<T>, tail: nat, count: nat)
    requires tail < |slots| && count <= |slots|
    ensures Window(slots, tail, count) ==
            if tail + count <= |slots| then slots[tail..tail + count] else slots[tail..] + slots[..tail + count - |slots|]
  {
  }

  /** What the slots hold, in slot order. */
  function Held<T>(slots: seq<Option<T>>): seq<T> {
    if slots == [] then []
    else (match slots[0] case Some(t) => [t] case None => []) + Held(slots[1..])
  }

  lemma {:induction false} HeldAppend<T>(a: seq<Option<T>>, b: seq<Option<T>>)
    ensures Held(a + b) == Held(a) + Held(b)
  {
    if a == [] {
      assert a + b == b;
    } else {
      assert (a + b)[1..] == a[1..] + b;
      HeldAppend(a[1..], b);
    }
  }

  lemma {:induction false} HoldsNothing<T>(slots: seq<Option<T>>)
    requires forall j :: 0 <= j < |slots| ==> slots[j].None?
    ensures Held(slots) == []
  {
    if slots != [] { HoldsNothing(slots[1..]); }
  }

  lemma HeldThree<T>(a: seq<Option<T>>, b: seq<Option<T>>, c: seq<Option<T>>)
    ensures Held(a + (b + c)) == Held(a) + Held(b) + Held(c)
  {
    HeldAppend(a, b + c);
    HeldAppend(b, c);
  }

  /** No slot between lo and hi holds anything. */
  ghost predicate Nothing<T>(slots: seq<Option<T>>, lo: nat, hi: nat) {
    forall j: nat :: lo <= j < hi && j < |slots| ==> slots[j].None?
  }

  lemma ThreeParts<T>(slots: seq<Option<T>>, i: nat, j: nat)
    requires i <= j <= |slots|
    ensures slots == slots[..i] + (slots[i..j] + slots[j..])
  {
  }

  lemma HeldInMiddle<T>(slots: seq<Option<T>>, i: nat, j: nat)
    requires i <= j <= |slots| && Nothing(slots, 0, i) && Nothing(slots, j, |slots|)
    ensures Held(slots) == Held(slots[i..j])
  {
    hide Held;
    ThreeParts(slots, i, j);
    HeldThree(slots[..i], slots[i..j], slots[j..]);
    HoldsNothing(slots[..i]);
    HoldsNothing(slots[j..]);
  }

  lemma HeldAtEnds<T>(slots: seq<Option<T>>, i: nat, j: nat)
    requires i <= j <= |slots| && Nothing(slots, i, j)
    ensures multiset(Held(slots)) == multiset(Held(slots[j..] + slots[..i]))
  {
    hide Held;
    ThreeParts(slots, i, j);
    HeldThree(slots[..i], slots[i..j], slots[j..]);
    HoldsNothing(slots[i..j]);
    HeldAppend(slots[j..], slots[..i]);
  }

  ghost predicate HeldOnlyInWindow<T>(slots: seq<Option<T>>, tail: nat, count: nat) {
    forall j: nat :: j < |slots| && !InWindow(j, tail, count, |slots|) ==> slots[j].None?
  }

  lemma FlatWindowHoldsAll<T>(slots: seq<Option<T>>, tail: nat, count: nat)
    requires tail + count <= |slots| && HeldOnlyInWindow(slots, tail, count)
    ensures Held(slots) == Held(slots[tail..tail + count])
  {
    hide Held;
    assert Nothing(slots, 0, tail) && Nothing(slots, tail + count, |slots|);
    HeldInMiddle(slots, tail, tail + count);
  }

  lemma WrappedWindowHoldsAll<T>(slots: seq<Option<T>>, tail: nat, count: nat)
    requires tail < |slots| && count <= |slots| < tail + count && HeldOnlyInWindow(slots, tail, count)
    ensures multiset(Held(slots)) == multiset(Held(slots[tail..] + slots[..tail + count - |slots|]))
  {
    hide Held;
    var left := tail + count - |slots|;
    assert Nothing(slots, left, tail);
    HeldAtEnds(slots, left, tail);
  }

  /** If no slot outside the window holds anything, the whole array holds what the window
      holds. */
  lemma {:induction false} WindowHoldsAll<T>(slots: seq<Option<T>>, tail: nat, count: nat)
    requires tail < |slots| && count <= |slots| && HeldOnlyInWindow(slots, tail, count)
    ensures multiset(Held(slots)) == multiset(Held(Window(slots, tail, count)))
  {
    WindowSlices(slots, tail, count);
    if tail + count <= |slots| {
      FlatWindowHoldsAll(slots, tail, count);
    } else {
      WrappedWindowHoldsAll(slots, tail, count);
    }
  }
}
