/**
 The locked queue of src/flip_queue.rs as an interleaving transition system: any number of
 threads call its sharing methods. Under the shared lock every atomic operation and every access
 to a cell is a step of its own; a section under the exclusive lock is one step.
 */
module FlipQueue {
  import opened Options
  import opened RingBuffer
  import opened FlipBuffer

  /** The methods that need only a shared reference to the queue. */
  datatype Op<T> =
    | PushSync(value: T)
    | TryPushSync(value: T)
    | PopSync
    | TryPopSync
    | DrainLocking(take: nat)      // the closure takes up to `take` elements from the iterator
    | SwapBuffer(ring: Ring<T>)    // the caller's ring

  datatype Result<T> =
    | Done
    | Got(element: Option<T>)
    | Refused(value: T)
    | Drained(taken: seq<Option<T>>, dropped: seq<Option<T>>)
    | Swapped(ring: Ring<T>)

  predicate IsPush<T>(op: Op<T>) { op.PushSync? || op.TryPushSync? }

  predicate IsPop<T>(op: Op<T>) { op.PopSync? || op.TryPopSync? }

  /** Where a thread stands. */
  datatype Pc<T> =
    | Idle
    | WantShared(op: Op<T>)                                      // about to take the shared lock
    | Claim(op: Op<T>)                                           // about to bump a counter
    | Write(op: Op<T>, i: nat)                                   // claimed push `i`; about to write its cell
    | Read(op: Op<T>, i: nat)                                    // claimed pop `i`; about to read its cell
    | Check(op: Op<T>)                                           // found no element; about to load `pushed`
    | ReleaseShared(op: Op<T>, result: Option<Result<T>>)        // about to release; `None` means to go the slow path
    | WantExclusive(op: Op<T>)                                   // about to take the exclusive lock
    | Critical(op: Op<T>)                                        // alone with the buffer
    | ReleaseExclusive(op: Op<T>, answer: Result<T>)             // about to release
    | Return(op: Op<T>, answer: Result<T>)                       // about to return

  /**
   The queue. `claims` lists the values of the pushes claimed since the last flush; it only
   records and nothing depends on it.
   */
  datatype State<T> = State(minCap: nat, buf: Buf<T>, claims: seq<T>, threads: seq<Pc<T>>)

  datatype Action<T> = Call(t: nat, op: Op<T>) | Go(t: nat)

  predicate HoldsShared<T>(pc: Pc<T>)
  {
    pc.Claim? || pc.Write? || pc.Read? || pc.Check? || pc.ReleaseShared?
  }

  predicate HoldsExclusive<T>(pc: Pc<T>) { pc.Critical? || pc.ReleaseExclusive? }

  predicate Sound<T>(s: State<T>) { s.buf.ring.Shaped() && s.minCap > 0 }

  /** A call brings along a ring in order; the lock admits readers or one writer; a claimed cell exists. */
  predicate Enabled<T>(s: State<T>, a: Action<T>)
    requires Sound(s)
  {
    && a.t < |s.threads|
    && var pc := s.threads[a.t];
       match a {
         case Call(_, op) => pc.Idle? && (op.SwapBuffer? ==> op.ring.Live())
         case Go(_) =>
           match pc
           case Idle => false
           case WantShared(_) => forall u :: 0 <= u < |s.threads| ==> !HoldsExclusive(s.threads[u])
           case WantExclusive(_) =>
             forall u :: 0 <= u < |s.threads| ==> !HoldsExclusive(s.threads[u]) && !HoldsShared(s.threads[u])
           case Write(_, i) => i < s.buf.Vacant()
           case Read(_, i) => i < s.buf.ring.len
           case _ => true
       }
  }

  /** The fetch_add under the shared lock and the decision after it. */
  function ClaimStep<T>(s: State<T>, t: nat, op: Op<T>): State<T>
    requires Sound(s) && t < |s.threads|
  {
    if IsPush(op) then
      var i := s.buf.pushed;
      if i < s.buf.Vacant() then
        s.(buf := s.buf.(pushed := i + 1), claims := s.claims + [op.value], threads := s.threads[t := Write(op, i)])
      else
        s.(buf := s.buf.(pushed := i + 1),
           threads := s.threads[t := ReleaseShared(op, if op.TryPushSync? then Some(Refused(op.value)) else None)])
    else
      var i := s.buf.popped;
      var next :=
        if i < s.buf.ring.len then Read(op, i)
        else if op.TryPopSync? then ReleaseShared(op, Some(Got(None)))
        else Check(op);
      s.(buf := s.buf.(popped := i + 1), threads := s.threads[t := next])
  }

  /** What happens under the exclusive lock: a flush and then the operation proper. */
  function CriticalStep<T>(minCap: nat, buf: Buf<T>, op: Op<T>): (result: (Ring<T>, Result<T>))
    requires buf.ring.Shaped() && minCap > 0
    ensures result.0.Shaped() || op.SwapBuffer?
  {
    var ring := buf.Flush().ring;
    match op
    case PushSync(value) => (ring.Push(value, minCap), Done)
    case TryPushSync(value) => (ring.Push(value, minCap), Done)
    case PopSync => (ring.Pop().0, Got(ring.Pop().1))
    case TryPopSync => (ring.Pop().0, Got(ring.Pop().1))
    case DrainLocking(take) =>
      var n := Min(take, ring.len);
      (ring.Clear(), Drained(ring.Cells()[..n], ring.Cells()[n..]))
    case SwapBuffer(other) => (other, Swapped(ring))
  }

  function Step<T>(s: State<T>, a: Action<T>): State<T>
    requires Sound(s) && Enabled(s, a)
  {
    var t := a.t;
    match a
    case Call(_, op) =>
      s.(threads := s.threads[t := if IsPush(op) || IsPop(op) then WantShared(op) else WantExclusive(op)])
    case Go(_) =>
      match s.threads[t]
      case WantShared(op) => s.(threads := s.threads[t := Claim(op)])
      case Claim(op) => ClaimStep(s, t, op)
      case Write(op, i) =>
        var value := if IsPush(op) then Some(op.value) else None;
        s.(buf := if value.Some? then s.buf.WriteCell(i, value.value) else s.buf,
           threads := s.threads[t := ReleaseShared(op, Some(Done))])
      case Read(op, i) =>
        s.(threads := s.threads[t := ReleaseShared(op, Some(Got(s.buf.ring.cells[s.buf.PopCell(i)])))])
      case Check(op) =>
        s.(threads := s.threads[t := ReleaseShared(op, if s.buf.pushed == 0 then Some(Got(None)) else None)])
      case ReleaseShared(op, result) =>
        s.(threads := s.threads[t := if result.Some? then Return(op, result.value) else WantExclusive(op)])
      case WantExclusive(op) => s.(threads := s.threads[t := Critical(op)])
      case Critical(op) =>
        var (ring, answer) := CriticalStep(s.minCap, s.buf, op);
        s.(buf := Buf(ring, 0, 0), claims := [], threads := s.threads[t := ReleaseExclusive(op, answer)])
      case ReleaseExclusive(op, answer) => s.(threads := s.threads[t := Return(op, answer)])
      case Return(op, answer) => s.(threads := s.threads[t := Idle])
      case Idle => s
  }

  /** A queue in use by nobody, around a ring in order. */
  predicate Init<T>(s: State<T>)
  {
    && s.minCap > 0 && s.buf.ring.Live() && s.buf.popped == s.buf.pushed == 0 && s.claims == []
    && forall t :: 0 <= t < |s.threads| ==> s.threads[t].Idle?
  }
}
