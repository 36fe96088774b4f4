/**
 What src/ring_buffer.rs does to its three fields, as functions on values, and the queue that
 these fields stand for. A cell that was never written holds `None`; reading a cell leaves it
 as it is.
 */
module RingBuffer {
  import opened Options
  import opened Words

  /** The position `i` places after `head` in a ring of `cap` cells. */
  function At(head: nat, i: nat, cap: nat): (r: nat)
    requires head < cap && i <= cap
    ensures r < cap
  {
    if head + i < cap then head + i else head + i - cap
  }

  /** In other words, the remainder of `head + i`. */
  lemma AtIsRemainder(head: nat, i: nat, cap: nat)
    requires head < cap && i <= cap
    ensures At(head, i, cap) == (head + i) % cap
  {
    var x := head + i;
    assert x == cap * (x / cap) + x % cap;
    Multiple(cap, x / cap - if x < cap then 0 else 1);
  }

  /** Different places are different cells. */
  lemma AtInjective(head: nat, i: nat, j: nat, cap: nat)
    requires head < cap && i < cap && j < cap && i != j
    ensures At(head, i, cap) != At(head, j, cap)
  {
  }

  datatype Ring<T> = Ring(head: nat, len: nat, cells: seq<Option<T>>) {

    predicate Shaped()
    {
      len <= |cells| && (head < |cells| || head == |cells| == 0)
    }

    /** The fields are in range and every cell in use has been written. */
    predicate Live()
    {
      Shaped() && forall i :: 0 <= i < len ==> cells[At(head, i, |cells|)].Some?
    }

    /** The queue, first element first. */
    function Contents(): (c: seq<T>)
      requires Live()
      ensures |c| == len
    {
      seq(len, i requires 0 <= i < len => cells[At(head, i, |cells|)].value)
    }

    /** The cells in use, first element first. */
    function Cells(): (c: seq<Option<T>>)
      requires Shaped()
    {
      seq(len, i requires 0 <= i < len => cells[At(head, i, |cells|)])
    }

    /** The two runs of cells in use: up to the end of the array, and from its start. */
    function Front(): seq<Option<T>>
      requires Shaped()
    {
      cells[head..head + if len < |cells| - head then len else |cells| - head]
    }

    function Back(): seq<Option<T>>
      requires Shaped()
    {
      cells[..len - if len < |cells| - head then len else |cells| - head]
    }

    function Push(value: T, minCap: nat): Ring<T>
      requires Shaped() && minCap > 0
    {
      if len < |cells| then
        Ring(head, len + 1, cells[At(head, len, |cells|) := Some(value)])
      else
        Ring(0, |cells| + 1,
             cells[head..] + cells[..head] + [Some(value)] + seq(NewCap(|cells|, minCap) - |cells| - 1, _ => None))
    }

    function Pop(): (Ring<T>, Option<T>)
      requires Shaped()
    {
      if len == 0 then
        (this, None)
      else
        (Ring(At(head, 1, |cells|), len - 1, cells), cells[head])
    }

    /** The emptied ring. */
    function Clear(): Ring<T>
      requires Shaped()
    {
      Ring(0, 0, cells)
    }

    /** `Drain::nth`: skip `n` elements and take the next one; the middle part lists what is dropped. */
    function Nth(n: nat): (Ring<T>, seq<T>, Option<T>)
      requires Live()
    {
      if n == 0 then
        (Pop().0, [], Pop().1)
      else if len <= n then
        (Clear(), Contents(), None)
      else
        var skipped := Ring(At(head, n, |cells|), len - n, cells);
        SkipContents(this, n);
        (skipped.Pop().0, Contents()[..n], skipped.Pop().1)
    }
  }

  /** A new, empty ring of `cap` cells. */
  function Fresh<T>(cap: nat): (r: Ring<T>)
    ensures r.Live() && r.Contents() == []
  {
    Ring(0, 0, seq(cap, _ => None))
  }

  /** The capacity after growth. */
  function NewCap(cap: nat, minCap: nat): (r: nat)
    requires minCap > 0
    ensures r > cap && r >= 2 * cap && r >= minCap && (r == 2 * cap || r == minCap)
  {
    if cap + cap >= minCap then cap + cap else minCap
  }

  lemma SkipContents<T>(ring: Ring<T>, n: nat)
    requires ring.Live() && n <= ring.len && 0 < |ring.cells|
    ensures var rest := Ring(At(ring.head, n, |ring.cells|), ring.len - n, ring.cells);
      rest.Live() && rest.Contents() == ring.Contents()[n..]
  {
    var rest := Ring(At(ring.head, n, |ring.cells|), ring.len - n, ring.cells);
    forall i | 0 <= i < rest.len
      ensures At(rest.head, i, |ring.cells|) == At(ring.head, n + i, |ring.cells|)
    {
    }
    assert rest.Live();
  }

  /** `push` appends, whether or not it has to grow, from any head. */
  lemma PushAppends<T>(ring: Ring<T>, value: T, minCap: nat)
    requires ring.Live() && minCap > 0
    ensures var r := ring.Push(value, minCap);
      && r.Live() && r.Contents() == ring.Contents() + [value]
      && |r.cells| == if ring.len < |ring.cells| then |ring.cells|
                      else if 2 * |ring.cells| < minCap then minCap else 2 * |ring.cells|
  {
    var r, cap := ring.Push(value, minCap), |ring.cells|;
    if ring.len < cap {
      forall i | 0 <= i < r.len
        ensures r.cells[At(r.head, i, cap)] == if i < ring.len then ring.cells[At(ring.head, i, cap)] else Some(value)
      {
      }
    } else {
      forall i | 0 <= i < r.len
        ensures r.cells[At(0, i, |r.cells|)] == if i < cap then ring.cells[At(ring.head, i, cap)] else Some(value)
      {
      }
    }
  }

  /** `pop` removes the first element, and answers `None` exactly when there is none. */
  lemma PopRemovesFirst<T>(ring: Ring<T>)
    requires ring.Live()
    ensures var (r, x) := ring.Pop();
      && r.Live()
      && if ring.Contents() == [] then x == None && r == ring
         else x == Some(ring.Contents()[0]) && r.Contents() == ring.Contents()[1..] && |r.cells| == |ring.cells|
  {
    if ring.len > 0 {
      SkipContents(ring, 1);
    }
  }

  /** The two slices, one after the other, are the queue. */
  lemma SlicesAreContents<T>(ring: Ring<T>)
    requires ring.Live()
    ensures |ring.Front() + ring.Back()| == ring.len
    ensures forall i :: 0 <= i < ring.len ==> (ring.Front() + ring.Back())[i] == Some(ring.Contents()[i])
  {
  }

  // ---------------------------------------------------------------------------------------
  // `nth` against `next`.

  /** `n` times `next`, each result dropped. */
  function Discard<T>(ring: Ring<T>, n: nat): (result: (Ring<T>, seq<T>))
    requires ring.Live()
    ensures result.0.Live()
    decreases n
  {
    if n == 0 then (ring, [])
    else
      PopRemovesFirst(ring);
      var (r, x) := ring.Pop();
      var (end, dropped) := Discard(r, n - 1);
      (end, (if x.Some? then [x.value] else []) + dropped)
  }

  lemma {:induction false} DiscardContents<T>(ring: Ring<T>, n: nat)
    requires ring.Live()
    ensures var (r, dropped) := Discard(ring, n); var k := if n < ring.len then n else ring.len;
      r.Contents() == ring.Contents()[k..] && dropped == ring.Contents()[..k]
    decreases n
  {
    if n > 0 {
      PopRemovesFirst(ring);
      var (r, x) := ring.Pop();
      DiscardContents(r, n - 1);
      if ring.len > 0 {
        assert ring.Contents() == [ring.Contents()[0]] + r.Contents();
      }
    }
  }

  /**
   `nth(n)` is `n` discarded `next`s and one more: same result, same elements dropped in the same
   order, same elements left, across the end of the array and past the end of the queue.
   */
  lemma NthIsNexts<T>(ring: Ring<T>, n: nat)
    requires ring.Live()
    ensures var (r, dropped, x) := ring.Nth(n); var (rest, discarded) := Discard(ring, n);
      && r.Live() && rest.Live()
      && x == rest.Pop().1 && dropped == discarded
      && rest.Pop().0.Live() && r.Contents() == rest.Pop().0.Contents()
  {
    DiscardContents(ring, n);
    PopRemovesFirst(Discard(ring, n).0);
    if n == 0 {
      PopRemovesFirst(ring);
    } else if n < ring.len {
      SkipContents(ring, n);
      PopRemovesFirst(Ring(At(ring.head, n, |ring.cells|), ring.len - n, ring.cells));
    }
  }

  // ---------------------------------------------------------------------------------------
  // Whole runs.

  datatype RingOp<T> = PushBack(value: T) | PopFront | DrainNext | DrainNth(n: nat) | ClearAll

  /** What becomes of an element: it is handed to the caller or dropped in place. */
  datatype Departure<T> = Moved(value: T) | Dropped(value: T)

  function Moves<T>(x: Option<T>): seq<Departure<T>> { if x.Some? then [Moved(x.value)] else [] }

  function Drops<T>(xs: seq<T>): seq<Departure<T>> { seq(|xs|, i requires 0 <= i < |xs| => Dropped(xs[i])) }

  function Values<T>(ds: seq<Departure<T>>): (vs: seq<T>)
    ensures |vs| == |ds|
  {
    seq(|ds|, i requires 0 <= i < |ds| => ds[i].value)
  }

  function Apply<T>(ring: Ring<T>, op: RingOp<T>, minCap: nat): (result: (Ring<T>, seq<Departure<T>>))
    requires ring.Live() && minCap > 0
    ensures result.0.Live()
  {
    match op
    case PushBack(value) => PushAppends(ring, value, minCap); (ring.Push(value, minCap), [])
    case PopFront => PopRemovesFirst(ring); (ring.Pop().0, Moves(ring.Pop().1))
    case DrainNext => PopRemovesFirst(ring); (ring.Pop().0, Moves(ring.Pop().1))
    case DrainNth(n) =>
      NthIsNexts(ring, n);
      var (r, dropped, x) := ring.Nth(n);
      (r, Drops(dropped) + Moves(x))
    case ClearAll => (ring.Clear(), Drops(ring.Contents()))
  }

  function ApplyAll<T>(ring: Ring<T>, ops: seq<RingOp<T>>, minCap: nat): (result: (Ring<T>, seq<Departure<T>>))
    requires ring.Live() && minCap > 0
    ensures result.0.Live()
    decreases |ops|
  {
    if ops == [] then (ring, [])
    else
      var (r, first) := Apply(ring, ops[0], minCap);
      var (end, rest) := ApplyAll(r, ops[1..], minCap);
      (end, first + rest)
  }

  function Pushed<T>(ops: seq<RingOp<T>>): seq<T>
  {
    if ops == [] then []
    else (if ops[0].PushBack? then [ops[0].value] else []) + Pushed(ops[1..])
  }

  lemma OnceEach<T>(ring: Ring<T>, op: RingOp<T>, minCap: nat)
    requires ring.Live() && minCap > 0
    ensures var (r, gone) := Apply(ring, op, minCap);
      ring.Contents() + Pushed([op]) == Values(gone) + r.Contents()
  {
    assert Pushed([op]) == if op.PushBack? then [op.value] else [];
    match op
    case PushBack(value) => PushAppends(ring, value, minCap);
    case PopFront => PopRemovesFirst(ring);
    case DrainNext => PopRemovesFirst(ring);
    case DrainNth(n) => NthContents(ring, n);
    case ClearAll =>
  }

  lemma NthContents<T>(ring: Ring<T>, n: nat)
    requires ring.Live()
    ensures var (r, dropped, x) := ring.Nth(n);
      r.Live() && ring.Contents() == dropped + (if x.Some? then [x.value] else []) + r.Contents()
  {
    NthIsNexts(ring, n);
    DiscardContents(ring, n);
    PopRemovesFirst(Discard(ring, n).0);
  }

  /**
   Exactly-once ownership in order: over any run the elements that were there at the start and
   those pushed since are the departed ones, first in first out, followed by the live ones.
   */
  lemma {:induction false} ExactlyOnce<T>(ring: Ring<T>, ops: seq<RingOp<T>>, minCap: nat)
    requires ring.Live() && minCap > 0
    ensures var (end, gone) := ApplyAll(ring, ops, minCap);
      ring.Contents() + Pushed(ops) == Values(gone) + end.Contents()
    decreases |ops|
  {
    if ops != [] {
      var r, first := Apply(ring, ops[0], minCap).0, Apply(ring, ops[0], minCap).1;
      OnceEach(ring, ops[0], minCap);
      ExactlyOnce(r, ops[1..], minCap);
      PushedSplit(ops);
      ValuesConcat(first, ApplyAll(r, ops[1..], minCap).1);
      Chain(ring.Contents(), Pushed([ops[0]]), Pushed(ops[1..]), Values(first),
            Values(ApplyAll(r, ops[1..], minCap).1), r.Contents(), ApplyAll(ring, ops, minCap).0.Contents());
    }
  }

  lemma PushedSplit<T>(ops: seq<RingOp<T>>)
    requires ops != []
    ensures Pushed(ops) == Pushed([ops[0]]) + Pushed(ops[1..])
  {
    assert [ops[0]][1..] == [];
  }

  lemma ValuesConcat<T>(a: seq<Departure<T>>, b: seq<Departure<T>>)
    ensures Values(a + b) == Values(a) + Values(b)
  {
  }

  /** Two balanced accounts make one. */
  lemma Chain<T>(start: seq<T>, in1: seq<T>, in2: seq<T>, out1: seq<T>, out2: seq<T>, mid: seq<T>, end: seq<T>)
    requires start + in1 == out1 + mid && mid + in2 == out2 + end
    ensures start + (in1 + in2) == (out1 + out2) + end
  {
    assert start + (in1 + in2) == (start + in1) + in2;
    assert out1 + (mid + in2) == (out1 + mid) + in2;
  }

  // ---------------------------------------------------------------------------------------
  // Growth.

  /** How many elements growing copies over a run. */
  function Copied<T>(ring: Ring<T>, ops: seq<RingOp<T>>, minCap: nat): nat
    requires ring.Live() && minCap > 0
    decreases |ops|
  {
    if ops == [] then 0
    else
      (if ops[0].PushBack? && ring.len == |ring.cells| then |ring.cells| else 0)
      + Copied(Apply(ring, ops[0], minCap).0, ops[1..], minCap)
  }

  /** The account of growth: `copied` elements were copied for `pushes` pushes so far. */
  lemma {:induction false} GrowthFrom<T>(ring: Ring<T>, ops: seq<RingOp<T>>, minCap: nat, copied: nat, pushes: nat)
    requires ring.Live() && minCap > 0
    requires ring.len <= pushes && copied <= |ring.cells|
    requires copied < 2 * pushes || copied == pushes == 0
    ensures var all := pushes + |Pushed(ops)|;
      copied + Copied(ring, ops, minCap) < 2 * all || copied + Copied(ring, ops, minCap) == all == 0
    decreases |ops|
  {
    if ops != [] {
      var (r, gone) := Apply(ring, ops[0], minCap);
      OnceEach(ring, ops[0], minCap);
      assert |ring.Contents() + Pushed([ops[0]])| == |Values(gone) + r.Contents()|;
      assert Pushed(ops) == Pushed([ops[0]]) + Pushed(ops[1..]);
      var isPush := ops[0].PushBack?;
      var cost := if isPush && ring.len == |ring.cells| then |ring.cells| else 0;
      CapacityNeverShrinks(ring, ops[0], minCap);
      GrowthFrom(r, ops[1..], minCap, copied + cost, if isPush then pushes + 1 else pushes);
    }
  }

  lemma CapacityNeverShrinks<T>(ring: Ring<T>, op: RingOp<T>, minCap: nat)
    requires ring.Live() && minCap > 0
    ensures var grows := op.PushBack? && ring.len == |ring.cells|;
      |Apply(ring, op, minCap).0.cells| >= if grows then 2 * |ring.cells| else |ring.cells|
  {
  }

  /** Amortized growth: from an empty ring of any capacity, growing copies fewer than two elements a push. */
  lemma AmortizedGrowth<T>(cap: nat, ops: seq<RingOp<T>>, minCap: nat)
    requires minCap > 0
    ensures var ring := Fresh<T>(cap);
      (Pushed(ops) != [] ==> Copied(ring, ops, minCap) < 2 * |Pushed(ops)|)
  {
    GrowthFrom(Fresh<T>(cap), ops, minCap, 0, 0);
  }
}
