/**
 The queue of src/flip_queue.rs is linearizable: every step of the transition system is a step of
 an atomic FIFO queue, or changes nothing of it.
 */
module FlipQueueLinear {
  import opened Options
  import opened RingBuffer
  import opened FlipBuffer
  import opened FlipQueue

  // ---------------------------------------------------------------------------------------
  // The invariant.

  predicate Holds<T>(pc: Pc<T>) { HoldsShared(pc) || HoldsExclusive(pc) }

  /** Each place of the program is reached by the right methods only. */
  predicate Typed<T>(pc: Pc<T>)
  {
    match pc
    case Idle => true
    case WantShared(op) => IsPush(op) || IsPop(op)
    case Claim(op) => IsPush(op) || IsPop(op)
    case Write(op, _) => IsPush(op)
    case Read(op, _) => IsPop(op)
    case Check(op) => op.PopSync?
    case ReleaseShared(op, result) => result.None? ==> op.PushSync? || op.PopSync?
    case WantExclusive(op) => SlowPath(op)
    case Critical(op) => SlowPath(op)
    case ReleaseExclusive(_, _) => true
    case Return(_, _) => true
  }

  predicate SlowPath<T>(op: Op<T>)
  {
    !op.TryPushSync? && !op.TryPopSync? && (op.SwapBuffer? ==> op.ring.Live())
  }

  /** One writer alone, or readers only. */
  ghost predicate Excluded<T>(threads: seq<Pc<T>>)
  {
    forall t, u :: 0 <= t < |threads| && 0 <= u < |threads| && t != u && HoldsExclusive(threads[t]) ==> !Holds(threads[u])
  }

  /** The claim of a thread that has yet to touch its cell is in bounds. */
  predicate OwnsClaim<T>(s: State<T>, pc: Pc<T>)
    requires Sound(s)
  {
    match pc
    case Write(op, i) => i < |s.claims| && IsPush(op)
    case Read(_, i) => i < s.buf.ClaimedPops()
    case Check(_) => s.buf.popped >= s.buf.ring.len
    case _ => true
  }

  /** A push writes the value that it has claimed its cell for. */
  ghost predicate WritesItsClaim<T>(s: State<T>, pc: Pc<T>)
    requires Sound(s) && OwnsClaim(s, pc)
  {
    pc.Write? ==> pc.op.value == s.claims[pc.i]
  }

  /** No two threads have claimed one cell. */
  predicate ClaimsDiffer<T>(a: Pc<T>, b: Pc<T>)
  {
    (a.Write? && b.Write? ==> a.i != b.i) && (a.Read? && b.Read? ==> a.i != b.i)
  }

  ghost predicate ClaimsOwned<T>(s: State<T>)
    requires Sound(s)
  {
    && (forall t :: 0 <= t < |s.threads| ==> OwnsClaim(s, s.threads[t]) && WritesItsClaim(s, s.threads[t]))
    && (forall t, u :: 0 <= t < |s.threads| && 0 <= u < |s.threads| && t != u ==>
          ClaimsDiffer(s.threads[t], s.threads[u]))
  }

  /** The cell of claim `j` has been written, or somebody is about to write it. */
  ghost predicate WrittenOrOwned<T>(s: State<T>, j: nat)
    requires Sound(s) && j < |s.claims| <= s.buf.Vacant()
  {
    || s.buf.ring.cells[s.buf.PushCell(j)] == Some(s.claims[j])
    || exists t :: 0 <= t < |s.threads| && s.threads[t].Write? && s.threads[t].i == j
  }

  /** Every claimed push has been written or is about to be. */
  ghost predicate ClaimsWritten<T>(s: State<T>)
    requires Sound(s) && |s.claims| <= s.buf.Vacant()
  {
    forall j :: 0 <= j < |s.claims| ==> WrittenOrOwned(s, j)
  }

  predicate AllTyped<T>(threads: seq<Pc<T>>)
  {
    forall t :: 0 <= t < |threads| ==> Typed(threads[t])
  }

  ghost predicate Inv<T>(s: State<T>)
  {
    && Sound(s) && s.buf.ring.Live()
    && |s.claims| == s.buf.ClaimedPushes()
    && AllTyped(s.threads)
    && Excluded(s.threads)
    && ClaimsOwned(s)
    && ClaimsWritten(s)
  }

  // ---------------------------------------------------------------------------------------
  // The atomic queue.

  datatype Status<T> = Quiet | Called(op: Op<T>) | Answered(op: Op<T>, answer: Result<T>)

  /** The elements no pop has claimed yet, then the claimed pushes in the order of their claims. */
  function Queue<T>(s: State<T>): seq<T>
    requires Sound(s) && s.buf.ring.Live()
  {
    s.buf.ring.Contents()[s.buf.ClaimedPops()..] + s.claims
  }

  /** How far a thread's call has got: a claim already decides the answer. */
  function StatusOf<T>(s: State<T>, pc: Pc<T>): Status<T>
    requires Sound(s)
  {
    match pc
    case Idle => Quiet
    case WantShared(op) => Called(op)
    case Claim(op) => Called(op)
    case Write(op, _) => Answered(op, Done)
    case Read(op, i) =>
      Answered(op, Got(if i < s.buf.ring.len then s.buf.ring.cells[s.buf.PopCell(i)] else None))
    case Check(op) => Called(op)
    case ReleaseShared(op, result) => if result.Some? then Answered(op, result.value) else Called(op)
    case WantExclusive(op) => Called(op)
    case Critical(op) => Called(op)
    case ReleaseExclusive(op, answer) => Answered(op, answer)
    case Return(op, answer) => Answered(op, answer)
  }

  function Statuses<T>(s: State<T>): (r: seq<Status<T>>)
    requires Sound(s)
    ensures |r| == |s.threads|
  {
    seq(|s.threads|, t requires 0 <= t < |s.threads| => StatusOf(s, s.threads[t]))
  }

  function Somes<T>(xs: seq<T>): seq<Option<T>> { seq(|xs|, i requires 0 <= i < |xs| => Some(xs[i])) }

  /** A pop of the first element, or `None` from an empty queue. */
  ghost predicate PopsFirst<T>(q: seq<T>, q': seq<T>, answer: Result<T>)
  {
    if q == [] then q' == q && answer == Got(None) else q' == q[1..] && answer == Got(Some(q[0]))
  }

  /** What each method does to a FIFO queue, atomically. Only the `try` methods may decline. */
  ghost predicate Fifo<T>(q: seq<T>, op: Op<T>, q': seq<T>, answer: Result<T>)
  {
    match op
    case PushSync(value) => q' == q + [value] && answer == Done
    case TryPushSync(value) => (q' == q + [value] && answer == Done) || (q' == q && answer == Refused(value))
    case PopSync => PopsFirst(q, q', answer)
    case TryPopSync => PopsFirst(q, q', answer) || (q' == q && answer == Got(None))
    case DrainLocking(take) => q' == [] && answer == Drained(Somes(q[..Min(take, |q|)]), Somes(q[Min(take, |q|)..]))
    case SwapBuffer(ring) =>
      ring.Live() && q' == ring.Contents() && answer.Swapped? && answer.ring.Live() && answer.ring.Contents() == q
  }

  /** One step of the atomic queue by thread `t`: it calls, takes effect, or returns. */
  ghost predicate AtomicStep<T>(q: seq<T>, st: Status<T>, q': seq<T>, st': Status<T>)
  {
    || (st == Quiet && st'.Called? && q' == q)
    || (st.Called? && st'.Answered? && st'.op == st.op && Fifo(q, st.op, q', st'.answer))
    || (st.Answered? && st' == Quiet && q' == q)
  }

  /** A step of the transition system, seen from the atomic queue. */
  ghost predicate Simulated<T>(s: State<T>, s': State<T>, t: nat)
    requires Sound(s) && Sound(s') && s.buf.ring.Live() && s'.buf.ring.Live()
    requires t < |s.threads| == |s'.threads|
  {
    && (forall u :: 0 <= u < |s.threads| && u != t ==> Statuses(s')[u] == Statuses(s)[u])
    && ((Queue(s') == Queue(s) && Statuses(s')[t] == Statuses(s)[t])
        || AtomicStep(Queue(s), Statuses(s)[t], Queue(s'), Statuses(s')[t]))
  }

  // ---------------------------------------------------------------------------------------
  // Steps that leave the buffer alone.

  lemma ExcludedMove<T>(threads: seq<Pc<T>>, t: nat, pc: Pc<T>)
    requires Excluded(threads) && t < |threads|
    requires HoldsExclusive(pc) ==> HoldsExclusive(threads[t])
    requires Holds(pc) ==> Holds(threads[t])
    ensures Excluded(threads[t := pc])
  {
  }

  /** Claims stay owned while the counters grow and `t` moves on. */
  lemma OwnedMove<T>(s: State<T>, s': State<T>, t: nat)
    requires Sound(s) && Sound(s') && ClaimsOwned(s) && t < |s.threads| == |s'.threads|
    requires s'.threads == s.threads[t := s'.threads[t]]
    requires s'.buf.ring.len == s.buf.ring.len && s'.buf.popped >= s.buf.popped && s.claims <= s'.claims
    requires OwnsClaim(s', s'.threads[t]) && WritesItsClaim(s', s'.threads[t])
    requires forall u :: 0 <= u < |s.threads| && u != t ==> ClaimsDiffer(s'.threads[t], s.threads[u])
    ensures ClaimsOwned(s')
  {
    forall u | 0 <= u < |s'.threads|
      ensures OwnsClaim(s', s'.threads[u]) && WritesItsClaim(s', s'.threads[u])
    {
      if u != t {
        assert OwnsClaim(s, s.threads[u]) && WritesItsClaim(s, s.threads[u]);
      }
    }
    forall v, u | 0 <= v < |s.threads| && 0 <= u < |s.threads| && v != u
      ensures ClaimsDiffer(s'.threads[v], s'.threads[u])
    {
      assert ClaimsDiffer(s.threads[v], s.threads[u]);
    }
  }

  /** Claimed pushes stay written or owned when `t`, which owns none, moves on. */
  lemma KeepWritten<T>(s: State<T>, s': State<T>, t: nat)
    requires Sound(s) && Sound(s') && |s.claims| <= s.buf.Vacant() && ClaimsWritten(s)
    requires t < |s.threads| == |s'.threads| && !s.threads[t].Write? && s'.threads == s.threads[t := s'.threads[t]]
    requires s'.buf.ring == s.buf.ring && s.claims <= s'.claims && |s'.claims| <= s.buf.Vacant()
    requires |s'.claims| == |s.claims| || (|s'.claims| == |s.claims| + 1 && s'.threads[t].Write? && s'.threads[t].i == |s.claims|)
    ensures ClaimsWritten(s')
  {
    forall j | 0 <= j < |s'.claims|
      ensures WrittenOrOwned(s', j)
    {
      if j < |s.claims| {
        assert WrittenOrOwned(s, j);
        if s.buf.ring.cells[s.buf.PushCell(j)] != Some(s.claims[j]) {
          var u :| 0 <= u < |s.threads| && s.threads[u].Write? && s.threads[u].i == j;
          assert s'.threads[u] == s.threads[u];
        }
      } else {
        assert s'.threads[t].Write? && s'.threads[t].i == j;
      }
    }
  }

  lemma TypedMove<T>(threads: seq<Pc<T>>, t: nat, pc: Pc<T>)
    requires t < |threads| && Typed(pc) && AllTyped(threads)
    ensures AllTyped(threads[t := pc])
  {
  }

  /** Thread `t` moves on and may claim something, the cells staying as they are. */
  lemma ClaimInv<T>(s: State<T>, s': State<T>, t: nat)
    requires Inv(s) && Sound(s') && t < |s.threads| == |s'.threads| && !s.threads[t].Write?
    requires s'.threads == s.threads[t := s'.threads[t]] && Typed(s'.threads[t]) && Excluded(s'.threads)
    requires s'.buf.ring == s.buf.ring && s'.buf.popped >= s.buf.popped && s.claims <= s'.claims
    requires |s'.claims| == s'.buf.ClaimedPushes()
    requires |s'.claims| == |s.claims| || (|s'.claims| == |s.claims| + 1 && s'.threads[t].Write? && s'.threads[t].i == |s.claims|)
    requires OwnsClaim(s', s'.threads[t]) && WritesItsClaim(s', s'.threads[t])
    requires forall u :: 0 <= u < |s.threads| && u != t ==> ClaimsDiffer(s'.threads[t], s.threads[u])
    ensures Inv(s')
  {
    TypedMove(s.threads, t, s'.threads[t]);
    OwnedMove(s, s', t);
    KeepWritten(s, s', t);
  }

  /** Thread `t` moves on without touching buffer or claims. */
  lemma MoveOnly<T>(s: State<T>, t: nat, pc: Pc<T>)
    requires Inv(s) && t < |s.threads| && Typed(pc)
    requires !s.threads[t].Write? && !pc.Write? && !pc.Read? && !pc.Check?
    requires Excluded(s.threads[t := pc])
    ensures Inv(s.(threads := s.threads[t := pc]))
    ensures Queue(s.(threads := s.threads[t := pc])) == Queue(s)
    ensures forall u :: 0 <= u < |s.threads| && u != t ==> Statuses(s.(threads := s.threads[t := pc]))[u] == Statuses(s)[u]
    ensures Statuses(s.(threads := s.threads[t := pc]))[t] == StatusOf(s, pc)
  {
    ClaimInv(s, s.(threads := s.threads[t := pc]), t);
    MoveStatuses(s, t, pc);
  }

  lemma MoveStatuses<T>(s: State<T>, t: nat, pc: Pc<T>)
    requires Sound(s) && t < |s.threads|
    ensures Statuses(s.(threads := s.threads[t := pc])) == Statuses(s)[t := StatusOf(s, pc)]
  {
  }

  lemma CallSimulated<T>(s: State<T>, t: nat, op: Op<T>)
    requires Inv(s) && Enabled(s, Call(t, op))
    ensures Inv(Step(s, Call(t, op))) && Simulated(s, Step(s, Call(t, op)), t)
  {
    MoveOnly(s, t, Step(s, Call(t, op)).threads[t]);
  }

  /** Taking and releasing the lock and returning. */
  lemma LockStepSimulated<T>(s: State<T>, t: nat)
    requires Inv(s) && Enabled(s, Go(t))
    requires var pc := s.threads[t];
      pc.WantShared? || pc.ReleaseShared? || pc.WantExclusive? || pc.ReleaseExclusive? || pc.Return?
    ensures Inv(Step(s, Go(t))) && Simulated(s, Step(s, Go(t)), t)
  {
    MoveOnly(s, t, Step(s, Go(t)).threads[t]);
  }

  /** The load of `pushed`: with no unclaimed element and no claimed push the queue is empty. */
  lemma CheckSimulated<T>(s: State<T>, t: nat)
    requires Inv(s) && Enabled(s, Go(t)) && s.threads[t].Check?
    ensures Inv(Step(s, Go(t))) && Simulated(s, Step(s, Go(t)), t)
  {
    MoveOnly(s, t, Step(s, Go(t)).threads[t]);
  }

  /** Reading a claimed cell yields the element that the claim removed. */
  lemma ReadSimulated<T>(s: State<T>, t: nat)
    requires Inv(s) && s.threads != [] && t < |s.threads| && s.threads[t].Read?
    ensures Enabled(s, Go(t)) && Inv(Step(s, Go(t))) && Simulated(s, Step(s, Go(t)), t)
  {
    MoveOnly(s, t, Step(s, Go(t)).threads[t]);
  }

  // ---------------------------------------------------------------------------------------
  // Claims.

  /** A new claim is beyond all that others have. */
  lemma NewClaimDiffers<T>(s: State<T>, t: nat, pc: Pc<T>)
    requires Sound(s) && ClaimsOwned(s) && t < |s.threads|
    requires pc.Write? ==> pc.i >= |s.claims|
    requires pc.Read? ==> pc.i >= s.buf.ClaimedPops()
    ensures forall u :: 0 <= u < |s.threads| && u != t ==> ClaimsDiffer(pc, s.threads[u])
  {
    forall u | 0 <= u < |s.threads| && u != t
      ensures ClaimsDiffer(pc, s.threads[u])
    {
      assert OwnsClaim(s, s.threads[u]);
    }
  }

  lemma PopClaimInv<T>(s: State<T>, t: nat)
    requires Inv(s) && t < |s.threads| && s.threads[t].Claim? && IsPop(s.threads[t].op)
    ensures Inv(Step(s, Go(t)))
  {
    var s' := Step(s, Go(t));
    ExcludedMove(s.threads, t, s'.threads[t]);
    NewClaimDiffers(s, t, s'.threads[t]);
    ClaimInv(s, s', t);
  }

  lemma PopClaimQueue<T>(s: State<T>)
    requires Inv(s)
    ensures var s' := s.(buf := s.buf.(popped := s.buf.popped + 1));
      if s.buf.popped < s.buf.ring.len
      then Queue(s) != [] && Queue(s') == Queue(s)[1..] && s.buf.ring.cells[s.buf.PopCell(s.buf.popped)] == Some(Queue(s)[0])
      else Queue(s') == Queue(s)
  {
  }

  lemma PopClaimSimulated<T>(s: State<T>, t: nat)
    requires Inv(s) && t < |s.threads| && s.threads[t].Claim? && IsPop(s.threads[t].op)
    ensures Inv(Step(s, Go(t))) && Simulated(s, Step(s, Go(t)), t)
  {
    PopClaimInv(s, t);
    PopClaimQueue(s);
    assert Queue(Step(s, Go(t))) == Queue(s.(buf := s.buf.(popped := s.buf.popped + 1)));
  }

  lemma PushClaimInv<T>(s: State<T>, t: nat)
    requires Inv(s) && t < |s.threads| && s.threads[t].Claim? && IsPush(s.threads[t].op)
    ensures Inv(Step(s, Go(t)))
  {
    var s' := Step(s, Go(t));
    ExcludedMove(s.threads, t, s'.threads[t]);
    NewClaimDiffers(s, t, s'.threads[t]);
    ClaimInv(s, s', t);
  }

  lemma PushClaimSimulated<T>(s: State<T>, t: nat)
    requires Inv(s) && t < |s.threads| && s.threads[t].Claim? && IsPush(s.threads[t].op)
    ensures Inv(Step(s, Go(t))) && Simulated(s, Step(s, Go(t)), t)
  {
    PushClaimInv(s, t);
    var s' := Step(s, Go(t));
    if s.buf.pushed < s.buf.Vacant() {
      assert Queue(s') == Queue(s) + [s.threads[t].op.value];
    } else {
      assert Queue(s') == Queue(s);
    }
  }

  /** Writing claim `i` leaves the cells of all other claims alone. */
  lemma WriteWritten<T>(s: State<T>, s': State<T>, t: nat)
    requires Sound(s) && Sound(s') && |s.claims| <= s.buf.Vacant() && ClaimsWritten(s) && s'.claims == s.claims
    requires t < |s.threads| && s.threads[t].Write? && s.threads[t].i < |s.claims| && IsPush(s.threads[t].op)
    requires s.threads[t].op.value == s.claims[s.threads[t].i]
    requires s'.buf == s.buf.WriteCell(s.threads[t].i, s.threads[t].op.value)
    requires |s'.threads| == |s.threads| && s'.threads == s.threads[t := s'.threads[t]]
    ensures ClaimsWritten(s')
  {
    var i := s.threads[t].i;
    forall j | 0 <= j < |s.claims|
      ensures WrittenOrOwned(s', j)
    {
      if j != i {
        AtInjective(s.buf.ring.head, s.buf.ring.len + i, s.buf.ring.len + j, |s.buf.ring.cells|);
        assert WrittenOrOwned(s, j);
        if s.buf.ring.cells[s.buf.PushCell(j)] != Some(s.claims[j]) {
          var u :| 0 <= u < |s.threads| && s.threads[u].Write? && s.threads[u].i == j;
          assert s'.threads[u] == s.threads[u];
        }
      }
    }
  }

  /** What a thread that is about to write has claimed. */
  lemma WriterFacts<T>(s: State<T>, t: nat)
    requires Inv(s) && t < |s.threads| && s.threads[t].Write?
    ensures s.threads[t].i < |s.claims| <= s.buf.Vacant() && IsPush(s.threads[t].op)
    ensures s.threads[t].op.value == s.claims[s.threads[t].i] && Enabled(s, Go(t))
  {
    assert OwnsClaim(s, s.threads[t]) && WritesItsClaim(s, s.threads[t]);
  }

  lemma WriteInv<T>(s: State<T>, t: nat)
    requires Inv(s) && t < |s.threads| && s.threads[t].Write?
    ensures Enabled(s, Go(t)) && Inv(Step(s, Go(t)))
  {
    WriterFacts(s, t);
    var s' := Step(s, Go(t));
    WriteKeepsContents(s.buf, s.threads[t].i, s.threads[t].op.value);
    TypedMove(s.threads, t, s'.threads[t]);
    ExcludedMove(s.threads, t, s'.threads[t]);
    OwnedMove(s, s', t);
    WriteWritten(s, s', t);
  }

  lemma WriteSimulated<T>(s: State<T>, t: nat)
    requires Inv(s) && t < |s.threads| && s.threads[t].Write?
    ensures Enabled(s, Go(t)) && Inv(Step(s, Go(t))) && Simulated(s, Step(s, Go(t)), t)
  {
    WriteInv(s, t);
    var s', i, value := Step(s, Go(t)), s.threads[t].i, s.threads[t].op.value;
    WriteKeepsContents(s.buf, i, value);
    forall u | 0 <= u < |s.threads| && u != t
      ensures Statuses(s')[u] == Statuses(s)[u]
    {
      if s.threads[u].Read? {
        ClaimsAreDisjoint(s.buf, s.threads[u].i, i, s.threads[u].i, i);
      }
    }
  }

  // ---------------------------------------------------------------------------------------
  // The exclusive section.

  /** When a thread is alone with the buffer every cell that the flush admits has been written. */
  lemma FlushedQueue<T>(s: State<T>, t: nat)
    requires Inv(s) && t < |s.threads| && s.threads[t].Critical?
    ensures s.buf.Flush().ring.Live() && s.buf.Flush().ring.Contents() == Queue(s)
    ensures forall u :: 0 <= u < |s.threads| && u != t ==> !Holds(s.threads[u])
  {
    forall j | 0 <= j < |s.claims|
      ensures s.buf.ring.cells[s.buf.PushCell(j)] == Some(s.claims[j])
    {
      assert WrittenOrOwned(s, j);
      if u :| 0 <= u < |s.threads| && s.threads[u].Write? && s.threads[u].i == j {
        assert false;
      }
    }
    FlushContents(s.buf, s.claims);
  }

  /** The operation proper is a FIFO step on the ring's contents. */
  lemma CriticalIsFifo<T>(minCap: nat, buf: Buf<T>, op: Op<T>)
    requires buf.ring.Shaped() && buf.Flush().ring.Live() && minCap > 0 && SlowPath(op)
    ensures var (ring, answer) := CriticalStep(minCap, buf, op);
      ring.Live() && Fifo(buf.Flush().ring.Contents(), op, ring.Contents(), answer)
  {
    var ring := buf.Flush().ring;
    match op
    case PushSync(value) => PushAppends(ring, value, minCap);
    case PopSync => PopRemovesFirst(ring);
    case DrainLocking(take) =>
    case SwapBuffer(other) =>
  }

  lemma CriticalSimulated<T>(s: State<T>, t: nat)
    requires Inv(s) && t < |s.threads| && s.threads[t].Critical?
    ensures Inv(Step(s, Go(t))) && Simulated(s, Step(s, Go(t)), t)
  {
    var s' := Step(s, Go(t));
    FlushedQueue(s, t);
    CriticalIsFifo(s.minCap, s.buf, s.threads[t].op);
    assert s'.claims == [] && s'.buf.ClaimedPops() == 0;
    assert Queue(s') == s'.buf.ring.Contents();
  }

  /** Linearizability, step by step: the invariant is kept and the atomic queue follows. */
  lemma StepSimulated<T>(s: State<T>, a: Action<T>)
    requires Inv(s) && Enabled(s, a)
    ensures Inv(Step(s, a)) && |Step(s, a).threads| == |s.threads| && Simulated(s, Step(s, a), a.t)
  {
    match a
    case Call(t, op) => CallSimulated(s, t, op);
    case Go(t) =>
      var pc := s.threads[t];
      if pc.Claim? {
        if IsPush(pc.op) { PushClaimSimulated(s, t); } else { PopClaimSimulated(s, t); }
      } else if pc.Write? {
        WriteSimulated(s, t);
      } else if pc.Read? {
        ReadSimulated(s, t);
      } else if pc.Check? {
        CheckSimulated(s, t);
      } else if pc.Critical? {
        CriticalSimulated(s, t);
      } else {
        LockStepSimulated(s, t);
      }
  }
}
