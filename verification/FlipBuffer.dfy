/** The claim counters of src/flip_queue.rs over a ring buffer, as functions on values. */
module FlipBuffer {
  import opened Options
  import opened RingBuffer

  function Min(a: nat, b: nat): nat { if a <= b then a else b }

  /**
   A ring together with the numbers of pops and pushes begun under the shared lock since the last
   flush. Both counters may overshoot.
   */
  datatype Buf<T> = Buf(ring: Ring<T>, popped: nat, pushed: nat) {

    function Vacant(): nat
      requires ring.Shaped()
    {
      |ring.cells| - ring.len
    }

    /** The pops and pushes that got a cell. */
    function ClaimedPops(): nat { Min(popped, ring.len) }

    function ClaimedPushes(): nat
      requires ring.Shaped()
    {
      Min(pushed, Vacant())
    }

    /** `flush`: folds the claims into the ring and resets the counters. */
    function Flush(): (b: Buf<T>)
      requires ring.Shaped()
      ensures b.ring.Shaped() && b.popped == b.pushed == 0
    {
      var pops, pushes := ClaimedPops(), ClaimedPushes();
      if pops == 0 && pushes == 0 then
        Buf(ring, 0, 0)
      else
        Buf(Ring(At(ring.head, pops, |ring.cells|), ring.len - pops + pushes, ring.cells), 0, 0)
    }

    /** The cell of the `i`-th claimed push. */
    function PushCell(i: nat): (r: nat)
      requires ring.Shaped() && i < Vacant()
      ensures r < |ring.cells|
    {
      At(ring.head, ring.len + i, |ring.cells|)
    }

    /** The cell of the `i`-th claimed pop. */
    function PopCell(i: nat): (r: nat)
      requires ring.Shaped() && i < ring.len
      ensures r < |ring.cells|
    {
      At(ring.head, i, |ring.cells|)
    }

    function WriteCell(i: nat, value: T): Buf<T>
      requires ring.Shaped() && i < Vacant()
    {
      this.(ring := ring.(cells := ring.cells[PushCell(i) := Some(value)]))
    }
  }

  /** No pop and no push ever share a cell, and no two pops or two pushes do. */
  lemma ClaimsAreDisjoint<T>(b: Buf<T>, pop: nat, push: nat, pop2: nat, push2: nat)
    requires b.ring.Shaped() && pop < b.ring.len && push < b.Vacant() && pop2 < b.ring.len && push2 < b.Vacant()
    ensures b.PopCell(pop) != b.PushCell(push)
    ensures pop != pop2 ==> b.PopCell(pop) != b.PopCell(pop2)
    ensures push != push2 ==> b.PushCell(push) != b.PushCell(push2)
  {
  }

  /** Writing a claimed cell leaves the elements alone. */
  lemma WriteKeepsContents<T>(b: Buf<T>, i: nat, value: T)
    requires b.ring.Live() && i < b.Vacant()
    ensures b.WriteCell(i, value).ring.Live() && b.WriteCell(i, value).ring.Contents() == b.ring.Contents()
  {
    forall j | 0 <= j < b.ring.len
      ensures b.PopCell(j) != b.PushCell(i)
    {
      ClaimsAreDisjoint(b, j, i, j, i);
    }
  }

  /**
   If every claimed push has written its cell, the flushed ring holds the elements no pop has
   claimed, followed by the claimed pushes.
   */
  lemma FlushContents<T>(b: Buf<T>, claims: seq<T>)
    requires b.ring.Live() && |claims| == b.ClaimedPushes()
    requires forall j :: 0 <= j < |claims| ==> b.ring.cells[b.PushCell(j)] == Some(claims[j])
    ensures b.Flush().ring.Live()
    ensures b.Flush().ring.Contents() == b.ring.Contents()[b.ClaimedPops()..] + claims
  {
    var r, pops, cap := b.Flush().ring, b.ClaimedPops(), |b.ring.cells|;
    forall i | 0 <= i < r.len
      ensures r.cells[At(r.head, i, cap)] ==
        if i < b.ring.len - pops then Some(b.ring.Contents()[pops + i]) else Some(claims[i - (b.ring.len - pops)])
    {
      assert At(r.head, i, cap) == At(b.ring.head, pops + i, cap) || cap < pops + i;
      if b.ring.len - pops <= i {
        assert At(r.head, i, cap) == b.PushCell(i - (b.ring.len - pops));
      }
    }
  }
}
