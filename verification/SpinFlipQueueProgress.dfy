/** With its spin lock, too, the queue leaves no call stuck: any open call can be brought to its return. */
module SpinFlipQueueProgress {
  import opened Sums
  import opened Words
  import Spin = RawRwSpin
  import Safety = RawRwSpinSafety
  import Progress = RawRwSpinProgress
  import Queue = FlipQueue
  import Linear = FlipQueueLinear
  import QueueProgress = FlipQueueProgress
  import opened SpinFlipQueue

  /** Where a thread stands with the lock and with the queue. */
  datatype Place<T> = Place(th: Spin.Thread, pc: Queue.Pc<T>)

  function Places<T>(c: State<T>): (r: seq<Place<T>>)
    requires |c.spin.threads| == |c.queue.threads|
    ensures |r| == |c.queue.threads|
  {
    seq(|c.queue.threads|, u requires 0 <= u < |c.queue.threads| => Place(c.spin.threads[u], c.queue.threads[u]))
  }

  /** What is left to a thread until it is out of the way; getting a guard uses up more than the guard adds. */
  function Burden<T>(p: Place<T>): nat { 10 * Progress.Effort(p.th) + QueueProgress.HoldingLeft(p.pc) }

  const NOWHERE := Spin.Thread(Spin.Pc.Idle, 0, 0)

  function OthersBurden<T>(c: State<T>, t: nat): nat
    requires |c.spin.threads| == |c.queue.threads| && t < |c.queue.threads|
  {
    Sum(Places(c)[t := Place(NOWHERE, Queue.Pc<T>.Idle)], Burden)
  }

  predicate Wants<T>(pc: Queue.Pc<T>) { pc.WantShared? || pc.WantExclusive? }

  /** What is left to a thread until its call returns. */
  function OwnWay<T>(p: Place<T>): nat
  {
    10 * QueueProgress.StepsLeft(p.pc) + if Wants(p.pc) && p.th.pc.Idle? then 5 else Progress.Effort(p.th)
  }

  /** The step moves thread `u` only, and brings it nearer. */
  ghost predicate Nearer<T>(c: State<T>, c': State<T>, u: nat, t: nat)
    requires |c.spin.threads| == |c.queue.threads| == |c'.spin.threads| == |c'.queue.threads|
    requires u < |c.queue.threads| && t < |c.queue.threads|
  {
    && Places(c') == Places(c)[u := Places(c')[u]]
    && if u == t then OwnWay(Places(c')[u]) < OwnWay(Places(c)[u]) else Burden(Places(c')[u]) < Burden(Places(c)[u])
  }

  lemma NearerMeasure<T>(c: State<T>, c': State<T>, u: nat, t: nat)
    requires |c.spin.threads| == |c.queue.threads| == |c'.spin.threads| == |c'.queue.threads|
    requires u < |c.queue.threads| && t < |c.queue.threads| && Nearer(c, c', u, t)
    ensures if u == t then OthersBurden(c', t) == OthersBurden(c, t) else OthersBurden(c', t) < OthersBurden(c, t)
    ensures u != t ==> Places(c')[t] == Places(c)[t]
  {
    var nowhere := Place(NOWHERE, Queue.Pc<T>.Idle);
    if u == t {
      assert Places(c')[t := nowhere] == Places(c)[t := nowhere];
    } else {
      assert Places(c')[t := nowhere] == Places(c)[t := nowhere][u := Places(c')[u]];
      SumUpdate(Places(c)[t := nowhere], Burden, u, Places(c')[u]);
    }
  }

  /** One thread changes its place. */
  lemma PlacesMove<T>(c: State<T>, c': State<T>, u: nat)
    requires |c.spin.threads| == |c.queue.threads| == |c'.spin.threads| == |c'.queue.threads| && u < |c.queue.threads|
    requires c'.spin.threads == c.spin.threads[u := c'.spin.threads[u]]
    requires c'.queue.threads == c.queue.threads[u := c'.queue.threads[u]]
    ensures Places(c') == Places(c)[u := Place(c'.spin.threads[u], c'.queue.threads[u])]
  {
  }

  // ---------------------------------------------------------------------------------------
  // Steps on the queue.

  /** Its step can be taken. */
  lemma WorkEnabled<T>(c: State<T>, u: nat)
    requires Inv(c) && u < |c.queue.threads| && !Wants(c.queue.threads[u]) && !c.queue.threads[u].Idle?
    ensures Enabled(c, Work(Queue.Go(u)))
    ensures Queue.Sound(c.queue) && |c.spin.threads| == |c.queue.threads|
    ensures Coupled(c.spin.threads[u], c.queue.threads[u])
  {
    assert Coupled(c.spin.threads[u], c.queue.threads[u]);
    if c.queue.threads[u].Write? {
      Linear.WriteInv(c.queue, u);
    }
  }

  /** Fewer steps left mean less burden while a guard is held, and a shorter way. */
  lemma FewerStepsLeft<T>(th: Spin.Thread, th': Spin.Thread, pc: Queue.Pc<T>, pc': Queue.Pc<T>)
    requires th'.pc == th.pc && !Wants(pc) && th.pc.Idle? && QueueProgress.StepsLeft(pc') < QueueProgress.StepsLeft(pc)
    ensures OwnWay(Place(th', pc')) < OwnWay(Place(th, pc))
    ensures Linear.Holds(pc) ==> Burden(Place(th', pc')) < Burden(Place(th, pc))
  {
  }

  /** A thread that is not waiting for the lock can go on. */
  lemma WorkComesNearer<T>(c: State<T>, u: nat, t: nat)
    requires Inv(c) && u < |c.queue.threads| && t < |c.queue.threads|
    requires !Wants(c.queue.threads[u]) && !c.queue.threads[u].Idle? && (u == t || Linear.Holds(c.queue.threads[u]))
    ensures Enabled(c, Work(Queue.Go(u)))
    ensures var c' := Step(c, Work(Queue.Go(u)));
      |c'.spin.threads| == |c'.queue.threads| == |c.queue.threads| && Nearer(c, c', u, t)
  {
    WorkEnabled(c, u);
    hide Inv, OwnWay, Burden, Spin.LocalStep;
    QueueProgress.GoComesNearer(c.queue, u);
    WorkMovesOne(c, u);
    hide Step, Enabled, Queue.Step, Queue.Enabled;
    var c' := Step(c, Work(Queue.Go(u)));
    PlacesMove(c, c', u);
    FewerStepsLeft(c.spin.threads[u], c'.spin.threads[u], c.queue.threads[u], c'.queue.threads[u]);
  }

  lemma WorkMovesOne<T>(c: State<T>, u: nat)
    requires Queue.Sound(c.queue) && Enabled(c, Work(Queue.Go(u))) && Coupled(c.spin.threads[u], c.queue.threads[u])
    requires |c.spin.threads| == |c.queue.threads|
    ensures var c' := Step(c, Work(Queue.Go(u)));
      && c'.queue == Queue.Step(c.queue, Queue.Go(u))
      && |c'.spin.threads| == |c.spin.threads| && c'.spin.threads == c.spin.threads[u := c'.spin.threads[u]]
      && c'.spin.threads[u].pc == c.spin.threads[u].pc
  {
  }

  // ---------------------------------------------------------------------------------------
  // Steps on the lock.

  /** The first operation of `read` or `write`: it acquires, or the thread is inside the method. */
  lemma FirstOp<T>(debug: bool, word: Word, th: Spin.Thread, pc: Queue.Pc<T>)
    requires Wants(pc) && th.pc.Idle? && !Spin.TooMany(word)
    ensures var th' := Spin.LocalStep(debug, word, th, LockOp(th, pc, false)).1;
      || th' == th.(shared := th.shared + 1) || th' == th.(exclusive := th.exclusive + 1)
      || (th'.shared == th.shared && th'.exclusive == th.exclusive && Progress.Requesting(th'))
  {
  }

  /** The count of readers is far too small for the debug check. */
  lemma WordIsSmall<T>(c: State<T>)
    requires Inv(c)
    ensures !Spin.TooMany(c.spin.word)
  {
    FewRegistrations(c.spin, c.queue.threads);
  }

  /** Getting into the lock's method, or through it, shortens the way. */
  lemma FirstIsNearer<T>(th: Spin.Thread, th': Spin.Thread, pc: Queue.Pc<T>)
    requires Wants(pc) && th.pc.Idle?
    requires th' == th.(shared := th.shared + 1) || th' == th.(exclusive := th.exclusive + 1)
      || (th'.shared == th.shared && th'.exclusive == th.exclusive && Progress.Requesting(th'))
    ensures var pc' := if th'.shared > th.shared || th'.exclusive > th.exclusive then Admitted(pc) else pc;
      OwnWay(Place(th', pc')) < OwnWay(Place(th, pc))
  {
  }

  lemma FirstComesNearer<T>(c: State<T>, t: nat)
    requires Inv(c) && t < |c.queue.threads| && Wants(c.queue.threads[t]) && c.spin.threads[t].pc.Idle?
    ensures Enabled(c, Lock(t, false))
    ensures var c' := Step(c, Lock(t, false));
      |c'.spin.threads| == |c'.queue.threads| == |c.queue.threads| && Nearer(c, c', t, t)
  {
    OnTheQueue(c, t);
    WordIsSmall(c);
    var th, pc := c.spin.threads[t], c.queue.threads[t];
    hide Inv, OwnWay, Burden, Spin.LocalStep;
    FirstOp(c.spin.debug, c.spin.word, th, pc);
    LockMovesOne(c, t, false);
    PlacesMove(c, Step(c, Lock(t, false)), t);
    FirstIsNearer(th, Spin.LocalStep(c.spin.debug, c.spin.word, th, LockOp(th, pc, false)).1, pc);
  }

  /** A step towards a guard lightens the thread's burden and shortens its way. */
  lemma StepIsNearer<T>(th: Spin.Thread, th': Spin.Thread, pc: Queue.Pc<T>)
    requires Wants(pc) && !th.pc.Idle? && th.shared == 0 && th.exclusive == 0
    requires Progress.Requesting(th) && Progress.Steps(th, th')
    ensures var p, p' := Place(th, pc), Place(th', if th'.shared > 0 || th'.exclusive > 0 then Admitted(pc) else pc);
      Burden(p') < Burden(p) && OwnWay(p') < OwnWay(p)
  {
  }

  /** Inside the lock's methods, once nobody owns a guard. */
  lemma LockComesNearer<T>(c: State<T>, u: nat, t: nat)
    requires Inv(c) && u < |c.queue.threads| && t < |c.queue.threads| && Wants(c.queue.threads[u])
    requires var th := c.spin.threads[u];
      && !th.pc.Idle? && th.shared == 0 && th.exclusive == 0 && Progress.Requesting(th)
      && Progress.Steps(th, Spin.LocalStep(c.spin.debug, c.spin.word, th, Progress.KEEP_GOING).1)
    ensures Enabled(c, Lock(u, false))
    ensures var c' := Step(c, Lock(u, false));
      |c'.spin.threads| == |c'.queue.threads| == |c.queue.threads| && Nearer(c, c', u, t)
  {
    var th, pc := c.spin.threads[u], c.queue.threads[u];
    hide Spin.LocalStep, Inv, Progress.Steps, Burden, OwnWay, Places, Progress.Requesting;
    OnTheQueue(c, u);
    LockMovesOne(c, u, false);
    PlacesMove(c, Step(c, Lock(u, false)), u);
    StepIsNearer(th, Spin.LocalStep(c.spin.debug, c.spin.word, th, Progress.KEEP_GOING).1, pc);
  }

  lemma OnTheQueue<T>(c: State<T>, u: nat)
    requires Inv(c) && u < |c.queue.threads|
    ensures Queue.Sound(c.queue) && |c.spin.threads| == |c.queue.threads|
    ensures Coupled(c.spin.threads[u], c.queue.threads[u])
    ensures Places(c)[u] == Place(c.spin.threads[u], c.queue.threads[u])
  {
  }

  /** Guards belong to threads inside the queue's sections only. */
  lemma NoGuards<T>(c: State<T>)
    requires AllCoupled(c) && forall u :: 0 <= u < |c.queue.threads| ==> !Linear.Holds(c.queue.threads[u])
    ensures Safety.Holders(c.spin) == 0 && Safety.Writers(c.spin) == 0
    ensures forall u :: 0 <= u < |c.spin.threads| ==> c.spin.threads[u].shared == 0 && c.spin.threads[u].exclusive == 0
  {
    forall u | 0 <= u < |c.spin.threads|
      ensures c.spin.threads[u].shared == 0 && c.spin.threads[u].exclusive == 0
    {
      assert Coupled(c.spin.threads[u], c.queue.threads[u]);
    }
    SumZero(c.spin.threads, Safety.SharedGuards);
    SumZero(c.spin.threads, Safety.ExclusiveGuards);
  }

  /** With no guard out, somebody's next operation on the lock word is one for the sake of `t`. */
  lemma ChooseOnLock<T>(c: State<T>, t: nat) returns (u: nat)
    requires Inv(c) && t < |c.queue.threads| && Wants(c.queue.threads[t]) && !c.spin.threads[t].pc.Idle?
    requires forall v :: 0 <= v < |c.queue.threads| ==> !Linear.Holds(c.queue.threads[v])
    ensures u < |c.queue.threads| && Enabled(c, Lock(u, false))
    ensures var c' := Step(c, Lock(u, false));
      |c'.spin.threads| == |c'.queue.threads| == |c.queue.threads| && Nearer(c, c', u, t)
  {
    NoGuards(c);
    assert Coupled(c.spin.threads[t], c.queue.threads[t]);
    u := Progress.NextFor(c.spin, t);
    Progress.NextForStep(c.spin, u);
    assert Coupled(c.spin.threads[u], c.queue.threads[u]);
    LockComesNearer(c, u, t);
  }

  // ---------------------------------------------------------------------------------------
  // Whole schedules.

  /** The next step for the sake of `t`: of an owner of a guard, of `t` itself, or on the lock word. */
  lemma ChooseStep<T>(c: State<T>, t: nat) returns (a: Action<T>, u: nat)
    requires Inv(c) && t < |c.queue.threads| && !c.queue.threads[t].Idle?
    ensures u < |c.queue.threads| && Enabled(c, a) && (a == Lock(u, false) || a == Work(Queue.Go(u)))
    ensures |Step(c, a).spin.threads| == |Step(c, a).queue.threads| == |c.queue.threads| && Nearer(c, Step(c, a), u, t)
  {
    if !Wants(c.queue.threads[t]) {
      u, a := t, Work(Queue.Go(t));
      WorkComesNearer(c, u, t);
    } else if v :| 0 <= v < |c.queue.threads| && Linear.Holds(c.queue.threads[v]) {
      u, a := v, Work(Queue.Go(v));
      WorkComesNearer(c, u, t);
    } else if c.spin.threads[t].pc.Idle? {
      u, a := t, Lock(t, false);
      FirstComesNearer(c, t);
    } else {
      u := ChooseOnLock(c, t);
      a := Lock(u, false);
    }
  }

  lemma StepKeepsInv<T>(c: State<T>, a: Action<T>)
    requires Inv(c) && Enabled(c, a)
    ensures Inv(Step(c, a))
  {
    match a
    case Lock(t, spurious) => LockStep(c, t, spurious);
    case Work(step) => WorkStep(c, step);
  }

  /** Threads only go on with the calls they have made. */
  predicate OnlyGo<T>(run: seq<Action<T>>)
  {
    forall i :: 0 <= i < |run| ==> run[i].Lock? || run[i].step.Go?
  }

  lemma Prepended<T>(c: State<T>, a: Action<T>, rest: seq<Action<T>>)
    requires Queue.Sound(c.queue) && Enabled(c, a) && Run(Step(c, a), rest)
    requires OnlyGo(rest) && (a.Lock? || a.step.Go?)
    ensures Run(c, [a] + rest) && OnlyGo([a] + rest) && After(c, [a] + rest) == After(Step(c, a), rest)
  {
    hide Step, Enabled;
    assert ([a] + rest)[1..] == rest;
  }

  lemma {:induction false} CallReturns<T>(c: State<T>, t: nat) returns (run: seq<Action<T>>)
    requires Inv(c) && t < |c.queue.threads|
    ensures Run(c, run) && OnlyGo(run) && t < |After(c, run).queue.threads|
    ensures After(c, run).queue.threads[t] == Queue.Pc<T>.Idle
    decreases OthersBurden(c, t), OwnWay(Places(c)[t])
  {
    if c.queue.threads[t].Idle? {
      run := [];
    } else {
      var a, u := ChooseStep(c, t);
      NearerMeasure(c, Step(c, a), u, t);
      StepKeepsInv(c, a);
      var rest := CallReturns(Step(c, a), t);
      Prepended(c, a, rest);
      run := [a] + rest;
    }
  }

  ghost predicate CanReturn<T(!new)>(c: State<T>, t: nat)
  {
    exists run :: Run(c, run) && OnlyGo(run) && t < |After(c, run).queue.threads|
      && After(c, run).queue.threads[t] == Queue.Pc<T>.Idle
  }

  /**
   Every reachable state of the queue with its spin lock, every call open there: some schedule, in
   which threads only go on with the calls they have made and no exchange fails without reason, brings
   it to its return.
   */
  lemma CallsComplete<T(!new)>(c: State<T>, before: seq<Action<T>>, t: nat)
    requires Init(c) && Run(c, before) && t < |After(c, before).queue.threads|
    ensures CanReturn(After(c, before), t)
  {
    ReachableInv(c, before);
    InvCanReturn(After(c, before), t);
  }

  lemma InvCanReturn<T(!new)>(c: State<T>, t: nat)
    requires Inv(c) && t < |c.queue.threads|
    ensures CanReturn(c, t)
  {
    var run := CallReturns(c, t);
    assert Run(c, run);
  }

  lemma ReachableInv<T>(c: State<T>, before: seq<Action<T>>)
    requires Init(c) && Run(c, before)
    ensures Inv(After(c, before))
  {
    InitInv(c);
    Refines(c, before);
  }
}
