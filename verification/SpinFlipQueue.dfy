/**
 The queue of src/flip_queue.rs with its default lock, the spin lock of src/spin.rs: one word, one
 buffer, and every atomic operation of either a step of its own. Nothing is assumed of the lock;
 that it admits readers or one writer follows from its protocol.
 */
module SpinFlipQueue {
  import opened Sums
  import opened Words
  import opened RingBuffer
  import Spin = RawRwSpin
  import Safety = RawRwSpinSafety
  import Queue = FlipQueue
  import Linear = FlipQueueLinear
  import Runs = FlipQueueRuns

  datatype State<T> = State(spin: Spin.State, queue: Queue.State<T>)

  datatype Action<T> =
    | Lock(t: nat, spurious: bool)     // an atomic operation of `read` or `write`
    | Work(step: Queue.Action<T>)      // anything else; releasing the lock is one atomic operation

  /** The operation on the lock word that a thread does next; the blocking methods never give up. */
  function LockOp<T>(th: Spin.Thread, pc: Queue.Pc<T>, spurious: bool): Spin.Op
  {
    if !th.pc.Idle? then Spin.Continue(true, spurious)
    else if pc.WantShared? then Spin.LockShared(true)
    else Spin.LockExclusive(true, spurious)
  }

  predicate Enabled<T>(c: State<T>, a: Action<T>)
    requires Queue.Sound(c.queue)
  {
    match a
    case Lock(t, spurious) =>
      && t < |c.queue.threads| && t < |c.spin.threads|
      && (c.queue.threads[t].WantShared? || c.queue.threads[t].WantExclusive?)
    case Work(step) =>
      && step.t < |c.queue.threads| && step.t < |c.spin.threads|
      && !c.queue.threads[step.t].WantShared? && !c.queue.threads[step.t].WantExclusive?
      && Queue.Enabled(c.queue, step)
      && (Releases(c.queue.threads[step.t], step) ==>
            Spin.Enabled(c.spin, Spin.Act(step.t, ReleaseOp(c.queue.threads[step.t]))))
  }

  predicate Releases<T>(pc: Queue.Pc<T>, step: Queue.Action<T>)
  {
    step.Go? && (pc.ReleaseShared? || pc.ReleaseExclusive?)
  }

  function ReleaseOp<T>(pc: Queue.Pc<T>): Spin.Op
  {
    if pc.ReleaseShared? then Spin.UnlockShared else Spin.UnlockExclusive
  }

  /** A thread that has got the lock goes on with the queue. */
  function Admitted<T>(pc: Queue.Pc<T>): Queue.Pc<T>
  {
    match pc
    case WantShared(op) => Queue.Claim(op)
    case WantExclusive(op) => Queue.Critical(op)
    case _ => pc
  }

  /** The step gives its thread a guard. */
  predicate GetsGuard<T>(c: State<T>, t: nat, spurious: bool)
    requires Queue.Sound(c.queue) && Enabled(c, Lock(t, spurious))
  {
    var th := c.spin.threads[t];
    var th' := Spin.LocalStep(c.spin.debug, c.spin.word, th, LockOp(th, c.queue.threads[t], spurious)).1;
    th'.shared > th.shared || th'.exclusive > th.exclusive
  }

  function Step<T>(c: State<T>, a: Action<T>): State<T>
    requires Queue.Sound(c.queue) && Enabled(c, a)
  {
    match a
    case Lock(t, spurious) =>
      var op := LockOp(c.spin.threads[t], c.queue.threads[t], spurious);
      State(Spin.Step(c.spin, Spin.Act(t, op)),
            if GetsGuard(c, t, spurious) then c.queue.(threads := c.queue.threads[t := Admitted(c.queue.threads[t])])
            else c.queue)
    case Work(step) =>
      State(if Releases(c.queue.threads[step.t], step)
            then Spin.Step(c.spin, Spin.Act(step.t, ReleaseOp(c.queue.threads[step.t])))
            else c.spin,
            Queue.Step(c.queue, step))
  }

  /** The thread owns the guard that its place in the queue's code calls for, and uses the lock only to get it. */
  predicate Coupled<T>(th: Spin.Thread, pc: Queue.Pc<T>)
  {
    && th.shared == (if Queue.HoldsShared(pc) then 1 else 0)
    && th.exclusive == (if Queue.HoldsExclusive(pc) then 1 else 0)
    && (th.pc.Idle?
        || (pc.WantShared? && (th.pc.GiveWay? || th.pc.Yielding? || th.pc.Rejoin? || th.pc.Waiting?))
        || (pc.WantExclusive? && (th.pc.Enqueue? || th.pc.Convert?)))
  }

  ghost predicate Inv<T>(c: State<T>)
  {
    && Safety.Inv(c.spin) && Linear.Inv(c.queue)
    && |c.spin.threads| == |c.queue.threads| <= Spin.SHARED_LOCK_THRESHOLD
    && AllCoupled(c)
  }

  /** Nobody is registered more than once, so the count of readers stays far below the mark. */
  lemma FewRegistrations<T>(spin: Spin.State, threads: seq<Queue.Pc<T>>)
    requires |spin.threads| == |threads| <= Spin.SHARED_LOCK_THRESHOLD
    requires forall t :: 0 <= t < |threads| ==> Coupled(spin.threads[t], threads[t])
    ensures Safety.Readers(spin) <= Spin.SHARED_LOCK_THRESHOLD
  {
    SumAtMostOneEach(spin.threads, Safety.Registered);
  }

  /** One atomic operation of `read` or `write`. */
  lemma LocalLock<T>(debug: bool, word: Word, th: Spin.Thread, pc: Queue.Pc<T>, spurious: bool, r: nat, w: nat)
    requires (pc.WantShared? || pc.WantExclusive?) && Coupled(th, pc)
    requires r <= Spin.SHARED_LOCK_THRESHOLD && w <= 2 && word == r + Spin.EXCLUSIVE_PENDING * w
    ensures var th' := Spin.LocalStep(debug, word, th, LockOp(th, pc, spurious)).1;
      Coupled(th', if th'.shared > th.shared || th'.exclusive > th.exclusive then Admitted(pc) else pc)
  {
  }

  /** Whoever gets a guard may enter: no writer is in, and for a writer no reader either. */
  lemma GuardAdmits<T>(c: State<T>, t: nat, spurious: bool)
    requires Inv(c) && Enabled(c, Lock(t, spurious)) && GetsGuard(c, t, spurious)
    requires Safety.Inv(Step(c, Lock(t, spurious)).spin)
    requires AllCoupled(Step(c, Lock(t, spurious)))
    ensures Queue.Enabled(c.queue, Queue.Go(t))
    ensures Step(c, Lock(t, spurious)).queue == Queue.Step(c.queue, Queue.Go(t))
  {
    var c' := Step(c, Lock(t, spurious));
    Safety.InvExclusive(c'.spin);
    forall u | 0 <= u < |c.queue.threads| && u != t
      ensures !Queue.HoldsExclusive(c.queue.threads[u])
      ensures c.queue.threads[t].WantExclusive? ==> !Queue.HoldsShared(c.queue.threads[u])
    {
      assert c'.queue.threads[u] == c.queue.threads[u] && Coupled(c'.spin.threads[u], c'.queue.threads[u]);
      assert Coupled(c'.spin.threads[t], c'.queue.threads[t]);
      assert t < u || u < t;
    }
  }

  predicate AllCoupled<T>(c: State<T>)
  {
    |c.spin.threads| == |c.queue.threads| &&
    forall t :: 0 <= t < |c.spin.threads| ==> Coupled(c.spin.threads[t], c.queue.threads[t])
  }

  /** What a step on the lock does to its thread. */
  lemma LockMovesOne<T>(c: State<T>, u: nat, spurious: bool)
    requires Queue.Sound(c.queue) && Enabled(c, Lock(u, spurious)) && |c.spin.threads| == |c.queue.threads|
    ensures var th, pc, c' := c.spin.threads[u], c.queue.threads[u], Step(c, Lock(u, spurious));
      var th' := Spin.LocalStep(c.spin.debug, c.spin.word, th, LockOp(th, pc, spurious)).1;
      && c'.spin.threads == c.spin.threads[u := th']
      && c'.queue.threads == c.queue.threads[u :=
           if th'.shared > th.shared || th'.exclusive > th.exclusive then Admitted(pc) else pc]
  {
  }

  lemma CoupledMove<T>(c: State<T>, c': State<T>, t: nat)
    requires AllCoupled(c) && t < |c.spin.threads| == |c'.spin.threads| == |c'.queue.threads|
    requires c'.spin.threads == c.spin.threads[t := c'.spin.threads[t]]
    requires c'.queue.threads == c.queue.threads[t := c'.queue.threads[t]]
    requires Coupled(c'.spin.threads[t], c'.queue.threads[t])
    ensures AllCoupled(c')
  {
  }

  /** The next operation on the lock word fits where the thread stands. */
  lemma LockOpFits<T>(c: State<T>, t: nat, spurious: bool)
    requires t < |c.spin.threads| && t < |c.queue.threads|
    ensures Spin.Enabled(c.spin, Spin.Act(t, LockOp(c.spin.threads[t], c.queue.threads[t], spurious)))
  {
  }

  /** A step on the lock word keeps guards and places in the code together. */
  lemma LockCoupled<T>(c: State<T>, t: nat, spurious: bool)
    requires Queue.Sound(c.queue) && Safety.Accounted(c.spin) && AllCoupled(c) && Enabled(c, Lock(t, spurious))
    requires |c.spin.threads| <= Spin.SHARED_LOCK_THRESHOLD
    ensures AllCoupled(Step(c, Lock(t, spurious)))
    ensures Spin.Enabled(c.spin, Spin.Act(t, LockOp(c.spin.threads[t], c.queue.threads[t], spurious)))
  {
    hide Spin.LocalStep, Coupled;
    LockOpFits(c, t, spurious);
    FewRegistrations(c.spin, c.queue.threads);
    LocalLock(c.spin.debug, c.spin.word, c.spin.threads[t], c.queue.threads[t], spurious, Safety.Readers(c.spin),
              Safety.QueuedWriters(c.spin) + 2 * Safety.Writers(c.spin));
    LockMovesOne(c, t, spurious);
    CoupledMove(c, Step(c, Lock(t, spurious)), t);
  }

  lemma LockSafe<T>(c: State<T>, t: nat, spurious: bool)
    requires Inv(c) && Enabled(c, Lock(t, spurious))
    ensures Safety.Inv(Step(c, Lock(t, spurious)).spin)
  {
    LockCoupled(c, t, spurious);
    Safety.StepPreserves(c.spin, Spin.Act(t, LockOp(c.spin.threads[t], c.queue.threads[t], spurious)));
  }

  /**
   The lock does its duty: a step on the lock word changes nothing of the queue, or admits its thread
   as the abstract lock would.
   */
  lemma LockStep<T>(c: State<T>, t: nat, spurious: bool)
    requires Inv(c) && Enabled(c, Lock(t, spurious))
    ensures Inv(Step(c, Lock(t, spurious)))
    ensures GetsGuard(c, t, spurious) ==>
      Queue.Enabled(c.queue, Queue.Go(t)) && Step(c, Lock(t, spurious)).queue == Queue.Step(c.queue, Queue.Go(t))
    ensures !GetsGuard(c, t, spurious) ==> Step(c, Lock(t, spurious)).queue == c.queue
  {
    LockCoupled(c, t, spurious);
    LockSafe(c, t, spurious);
    if GetsGuard(c, t, spurious) {
      GuardAdmits(c, t, spurious);
      Linear.StepSimulated(c.queue, Queue.Go(t));
    }
  }

  lemma WorkCoupled<T>(c: State<T>, step: Queue.Action<T>)
    requires Queue.Sound(c.queue) && AllCoupled(c) && Enabled(c, Work(step))
    requires Linear.Typed(c.queue.threads[step.t])
    ensures AllCoupled(Step(c, Work(step)))
  {
    var c', t := Step(c, Work(step)), step.t;
    assert forall u :: 0 <= u < |c.queue.threads| && u != t ==> c'.queue.threads[u] == c.queue.threads[u];
    assert Coupled(c'.spin.threads[t], c'.queue.threads[t]);
  }

  /** Every other step keeps them together, too. */
  lemma WorkStep<T>(c: State<T>, step: Queue.Action<T>)
    requires Inv(c) && Enabled(c, Work(step))
    ensures Inv(Step(c, Work(step)))
  {
    var c' := Step(c, Work(step));
    WorkCoupled(c, step);
    Linear.StepSimulated(c.queue, step);
    if Releases(c.queue.threads[step.t], step) {
      Safety.StepPreserves(c.spin, Spin.Act(step.t, ReleaseOp(c.queue.threads[step.t])));
    }
  }

  // ---------------------------------------------------------------------------------------
  // Whole runs.

  predicate Run<T(==)>(c: State<T>, run: seq<Action<T>>)
    decreases |run|
  {
    Queue.Sound(c.queue) && (run == [] || (Enabled(c, run[0]) && Run(Step(c, run[0]), run[1..])))
  }

  function After<T(==)>(c: State<T>, run: seq<Action<T>>): State<T>
    requires Run(c, run)
    decreases |run|
  {
    if run == [] then c else After(Step(c, run[0]), run[1..])
  }

  /** The run as the queue sees it: failed attempts on the lock word disappear. */
  function Projected<T(==)>(c: State<T>, run: seq<Action<T>>): seq<Queue.Action<T>>
    requires Run(c, run)
    decreases |run|
  {
    if run == [] then []
    else
      var rest := Projected(Step(c, run[0]), run[1..]);
      match run[0]
      case Lock(t, spurious) => if GetsGuard(c, t, spurious) then [Queue.Go(t)] + rest else rest
      case Work(step) => [step] + rest
  }

  /** Every run over the spin lock is a run of the queue over an ideal reader-writer lock. */
  lemma {:induction false} Refines<T>(c: State<T>, run: seq<Action<T>>)
    requires Inv(c) && Run(c, run)
    ensures Inv(After(c, run))
    ensures Runs.Run(c.queue, Projected(c, run)) && Runs.After(c.queue, Projected(c, run)) == After(c, run).queue
    decreases |run|
  {
    if run != [] {
      var c' := Step(c, run[0]);
      match run[0] {
        case Lock(t, spurious) => LockStep(c, t, spurious);
        case Work(step) => WorkStep(c, step);
      }
      Refines(c', run[1..]);
      var p := Projected(c, run);
      if run[0].Work? || GetsGuard(c, run[0].t, run[0].spurious) {
        assert p[1..] == Projected(c', run[1..]);
      }
    }
  }

  ghost predicate Init<T>(c: State<T>)
  {
    && Spin.Init(c.spin) && Queue.Init(c.queue)
    && |c.spin.threads| == |c.queue.threads| <= Spin.SHARED_LOCK_THRESHOLD
  }

  lemma InitInv<T>(c: State<T>)
    requires Init(c)
    ensures Inv(c)
  {
    Safety.InitInv(c.spin);
    Runs.InitInv(c.queue);
  }

  /**
   The queue with its spin lock, from scratch: its runs are linearizable FIFO runs that conserve
   every element.
   */
  lemma SpinQueueIsFifo<T>(c: State<T>, run: seq<Action<T>>)
    requires Init(c) && Run(c, run)
    ensures Runs.Run(c.queue, Projected(c, run)) && Linear.Inv(After(c, run).queue)
    ensures var events := Runs.Events(c.queue, Projected(c, run));
      && Runs.AtomicRun(c.queue.buf.ring.Contents(), Linear.Statuses(c.queue), events,
                        Linear.Queue(After(c, run).queue), Linear.Statuses(After(c, run).queue))
      && c.queue.buf.ring.Contents() + Runs.AllEntered(events) == Runs.AllLeft(events) + Linear.Queue(After(c, run).queue)
  {
    InitInv(c);
    Runs.InitInv(c.queue);
    Refines(c, run);
    Runs.Linearizable(c.queue, Projected(c, run));
    Runs.Conservation(c.queue, Projected(c, run));
  }
}
