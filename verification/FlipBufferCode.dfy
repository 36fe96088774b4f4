/** The flip buffer of src/flip_queue.rs, working in place on a ring buffer, used by one thread at a time. */
module FlipBufferCode {
  import opened Options
  import opened Claims = FlipBuffer
  import R = RingBuffer
  import opened RingBufferCode

  /** Elements no pop has claimed, then claimed pushes. */
  function QueueOf<T>(b: Buf<T>, claims: seq<T>): seq<T>
    requires b.ring.Live()
  {
    b.ring.Contents()[b.ClaimedPops()..] + claims
  }

  /** `claims` lists the values of the pushes that got a cell, and each has been written. */
  ghost predicate Written<T>(b: Buf<T>, claims: seq<T>)
  {
    && b.ring.Live() && |claims| == b.ClaimedPushes()
    && forall j :: 0 <= j < |claims| ==> b.ring.cells[b.PushCell(j)] == Some(claims[j])
  }

  /** After a push that got a cell and wrote it at once. */
  function PushedTo<T>(b: Buf<T>, value: T): Buf<T>
    requires b.ring.Live() && b.pushed < b.Vacant()
  {
    b.WriteCell(b.pushed, value).(pushed := b.pushed + 1)
  }

  class FlipBuffer<T> {
    var buffer: RingBufferCode.RingBuffer<T>
    var popped: nat
    var pushed: nat
    ghost var claims: seq<T>   // the values of the pushes that got a cell since the last flush

    ghost function Model(): Buf<T>
      reads this, buffer, buffer.cells
    {
      Buf(buffer.Model(), popped, pushed)
    }

    ghost predicate Valid()
      reads this, buffer, buffer.cells
    {
      buffer.Valid() && Written(Model(), claims)
    }

    /** The queue: elements no pop has claimed, then claimed pushes. */
    ghost function Queue(): seq<T>
      requires Valid()
      reads this, buffer, buffer.cells
    {
      QueueOf(Model(), claims)
    }

    constructor WithCapacity(cap: usize, size: nat)
      ensures Valid() && fresh(buffer) && fresh(buffer.cells) && Queue() == [] && buffer.size == size
    {
      buffer := new RingBufferCode.RingBuffer.WithCapacity(cap, size);
      popped, pushed, claims := 0, 0, [];
    }

    /** How many pops and pushes got a cell. */
    method Claimed() returns (pops: usize, pushes: usize)
      requires Valid()
      ensures pops as int == Model().ClaimedPops() && pushes as int == Model().ClaimedPushes()
    {
      var len := buffer.len;
      var cap := buffer.Capacity();
      var vacant := cap - len;
      pops := if popped <= len as nat then popped as usize else len;
      pushes := if pushed <= vacant as nat then pushed as usize else vacant;
    }

    /** Folds the claims into the ring; the queue stays what it is and the ring becomes equal to it. */
    method Flush()
      requires Valid()
      modifies this`popped, this`pushed, this`claims, buffer`head, buffer`len
      ensures Valid() && Model() == old(Model()).Flush()
      ensures Queue() == old(Queue()) && buffer.Model().Contents() == old(Queue())
      ensures claims == [] && popped == 0 && pushed == 0
    {
      FlushContents(Model(), claims);
      var cap := buffer.Capacity();
      var pops, pushes := Claimed();
      popped, pushed, claims := 0, 0, [];
      if pops == 0 && pushes == 0 {
        return;
      }
      var newLen := buffer.len - pops + pushes;
      buffer.head := RingIndex(buffer.head, pops, cap);
      buffer.len := newLen;
      NothingClaimed(Model());
    }

    /** Refused exactly when as many pushes have begun since the last flush as there were free cells. */
    method PushSync(value: T) returns (accepted: bool)
      requires Valid()
      modifies this`pushed, this`claims, buffer.cells
      ensures Valid() && accepted == (old(pushed) < old(Model()).Vacant())
      ensures Queue() == if accepted then old(Queue()) + [value] else old(Queue())
      ensures popped == old(popped) && pushed == old(pushed) + 1
    {
      ghost var b := Model();
      var i := pushed;
      pushed := i + 1;
      var cap := buffer.Capacity();
      accepted := i < (cap - buffer.len) as nat;
      if accepted {
        PushAppends(b, claims, value);
        var idx := RingIndex(buffer.head, buffer.len + i as usize, cap);
        buffer.cells[idx] := Some(value);
        claims := claims + [value];
        assert Model() == PushedTo(b, value);
      } else {
        RefusedPush(b, claims);
      }
    }

    /** Finds nothing exactly when every element of the ring has been claimed by a pop. */
    method PopSync() returns (element: Option<T>)
      requires Valid()
      modifies this`popped
      ensures Valid() && popped == old(popped) + 1 && pushed == old(pushed)
      ensures (element == None) == (old(popped) >= old(buffer.len) as int)
      ensures if element == None then Queue() == old(Queue())
        else old(Queue()) != [] && element == Some(old(Queue())[0]) && Queue() == old(Queue())[1..]
    {
      var i := popped;
      popped := i + 1;
      if i < buffer.len as nat {
        var idx := RingIndex(buffer.head, i as usize, buffer.cells.Length as usize);
        element := buffer.cells[idx];
      } else {
        element := None;
      }
    }

    /** Panics exactly if the queue fills a ring that cannot grow as above; the value is then dropped. */
    method Push(value: T) returns (panicked: bool)
      requires Valid()
      modifies this, buffer, buffer.cells
      ensures Valid() && buffer == old(buffer)
      ensures Queue() == if panicked then old(Queue()) else old(Queue()) + [value]
      ensures var cap, least := old(buffer.cells.Length), if buffer.size == 1 then 8 else if buffer.size <= 1024 then 4 else 1;
        var grown := if 2 * cap < least then least else 2 * cap;
        panicked <==>
          |old(Queue())| == cap && (grown > 0xFFFF_FFFF_FFFF_FFFF || grown * buffer.size > 0x7FFF_FFFF_FFFF_FFFF)
    {
      Flush();
      panicked := buffer.Push(value);
      NothingClaimed(Model());
    }

    method Pop() returns (element: Option<T>)
      requires Valid()
      modifies this`popped, this`pushed, this`claims, buffer`head, buffer`len
      ensures Valid()
      ensures if old(Queue()) == [] then element == None && Queue() == []
        else element == Some(old(Queue())[0]) && Queue() == old(Queue())[1..]
    {
      Flush();
      element := PopElement();
      NothingClaimed(Model());
    }

    /** Takes the first element of the ring. */
    method PopElement() returns (element: Option<T>)
      requires buffer.Valid()
      modifies buffer`head, buffer`len
      ensures buffer.Valid()
      ensures var c, c' := old(buffer.Model().Contents()), buffer.Model().Contents();
        if c == [] then element == None && c' == c else element == Some(c[0]) && c' == c[1..]
    {
      R.PopRemovesFirst(buffer.Model());
      element := buffer.Pop();
    }

    /** Lists what was dropped. */
    method Clear() returns (dropped: seq<Option<T>>)
      requires Valid()
      modifies this`popped, this`pushed, this`claims, buffer`head, buffer`len
      ensures Valid() && Queue() == []
      ensures |dropped| == |old(Queue())|
      ensures forall i :: 0 <= i < |dropped| ==> dropped[i] == Some(old(Queue())[i])
    {
      Flush();
      dropped := buffer.Clear();
      NothingClaimed(Model());
    }

    /** The iterator works on a ring that is exactly the queue. */
    method Drain() returns (drain: Drain<T>)
      requires Valid()
      modifies this`popped, this`pushed, this`claims, buffer`head, buffer`len
      ensures Valid() && drain.ring == buffer && buffer.Model().Contents() == Queue() == old(Queue())
      ensures fresh(drain)
    {
      Flush();
      drain := new RingBufferCode.Drain(buffer);
    }

    /** Exchanges the contents of two rings. */
    method SwapBuffer(ring: RingBufferCode.RingBuffer<T>)
      requires Valid() && ring.Valid() && ring != buffer
      modifies this`popped, this`pushed, this`claims, buffer, ring
      ensures Valid() && ring.Valid()
      ensures Queue() == old(ring.Model().Contents()) && ring.Model().Contents() == old(Queue())
    {
      Flush();
      ring.head, buffer.head := buffer.head, ring.head;
      ring.len, buffer.len := buffer.len, ring.len;
      ring.cells, buffer.cells := buffer.cells, ring.cells;
      NothingClaimed(Model());
    }
  }

  lemma NothingClaimed<T>(b: Buf<T>)
    requires b.ring.Live() && b.popped == 0 && b.pushed == 0
    ensures b.ClaimedPops() == 0 && b.ClaimedPushes() == 0 && QueueOf(b, []) == b.ring.Contents()
  {
  }

  lemma PushIsWritten<T>(b: Buf<T>, claims: seq<T>, value: T)
    requires Written(b, claims) && b.pushed < b.Vacant()
    ensures Written(PushedTo(b, value), claims + [value])
  {
    WriteKeepsContents(b, b.pushed, value);
    forall j | 0 <= j < |claims|
      ensures b.PushCell(j) != b.PushCell(b.pushed)
    {
      R.AtInjective(b.ring.head, b.ring.len + j, b.ring.len + b.pushed, |b.ring.cells|);
    }
  }

  /** A push that gets a cell appends. */
  lemma PushAppends<T>(b: Buf<T>, claims: seq<T>, value: T)
    requires Written(b, claims) && b.pushed < b.Vacant()
    ensures Written(PushedTo(b, value), claims + [value])
    ensures QueueOf(PushedTo(b, value), claims + [value]) == QueueOf(b, claims) + [value]
  {
    PushIsWritten(b, claims, value);
    WriteKeepsContents(b, b.pushed, value);
  }

  /** One that gets none leaves the queue as it is. */
  lemma RefusedPush<T>(b: Buf<T>, claims: seq<T>)
    requires Written(b, claims) && b.pushed >= b.Vacant()
    ensures Written(b.(pushed := b.pushed + 1), claims)
    ensures QueueOf(b.(pushed := b.pushed + 1), claims) == QueueOf(b, claims)
  {
  }
}
