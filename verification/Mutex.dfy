/** The parking mutex of src/mutex.rs: lock, try_lock and unlock as clients of the wait list. */
module Mutex {
  import opened Sums
  import opened CondVar
  import opened CondVarSafety

  const UNLOCKED: Byte := 0
  const LOCKED: Byte := 1

  /** Where a thread stands with the mutex. */
  datatype Role =
    | Out          // not concerned
    | Locking      // in the slow path of `lock`
    | Held         // owns the mutex
    | Relocking    // owns the mutex and is in the slow path of `lock`
    | Unlocking    // has released the mutex and is waking the waiters

  datatype MutexState = MutexState(cv: State, roles: seq<Role>)

  datatype MutexAction =
    | TryLock(t: nat)
    | Lock(t: nat)                                               // the fast path; the slow path follows if it fails
    | Update(t: nat)                                             // the slow path loads the word
    | Decide(t: nat, block: bool, addr: Addr, spurious: bool)    // the closure decides, then the exchange
    | Proceed(t: nat)                                            // inside a wait or a wake-up
    | Unlock(t: nat)
    | GiveGuard(t: nat, to: nat)                                 // guards may be sent to another thread

  /** The step on the wait list that an action amounts to. */
  function CvAction(m: MutexState, a: MutexAction): Action
    requires a.t < |m.cv.threads|
  {
    match a
    case TryLock(t) => CallOptimistic(t, UNLOCKED, LOCKED)
    case Lock(t) => CallOptimistic(t, UNLOCKED, LOCKED)
    case Update(t) => CallUpdate(t, false)
    case Decide(t, block, addr, spurious) =>
      if m.cv.threads[t].Have? && m.cv.threads[t].cur.state == UNLOCKED then DoUpdate(t, LOCKED, spurious)
      else DoWait(t, block, addr, spurious)
    case Proceed(t) => Go(t)
    case Unlock(t) => CallSet(t, 0)
    case GiveGuard(t, _) => Go(t)
  }

  predicate InSlowPath(role: Role) { role == Locking || role == Relocking }

  predicate Owner(role: Role) { role == Held || role == Relocking }

  /** The owner may try the mutex again, or lock it again. */
  predicate MutexEnabled(m: MutexState, a: MutexAction)
  {
    && a.t < |m.roles| == |m.cv.threads|
    && match a {
      case TryLock(t) => (m.roles[t] == Out || m.roles[t] == Held) && Enabled(m.cv, CvAction(m, a))
      case Lock(t) => (m.roles[t] == Out || m.roles[t] == Held) && Enabled(m.cv, CvAction(m, a))
      case Update(t) => InSlowPath(m.roles[t]) && Enabled(m.cv, CvAction(m, a))
      case Decide(t, _, _, _) => InSlowPath(m.roles[t]) && Enabled(m.cv, CvAction(m, a))
      case Proceed(t) => (InSlowPath(m.roles[t]) || m.roles[t] == Unlocking) && Enabled(m.cv, CvAction(m, a))
      case Unlock(t) => m.roles[t] == Held && Enabled(m.cv, CvAction(m, a))
      case GiveGuard(t, to) => to < |m.roles| && m.roles[t] == Held && m.roles[to] == Out
    }
  }

  function NextRole(m: MutexState, a: MutexAction): Role
    requires MutexEnabled(m, a) && !a.GiveGuard?
  {
    var cv' := Step(m.cv, CvAction(m, a));
    match a
    case TryLock(t) => if m.cv.head == Head(NULL, UNLOCKED) then Held else m.roles[t]
    case Lock(t) =>
      if m.cv.head == Head(NULL, UNLOCKED) then Held else if m.roles[t] == Held then Relocking else Locking
    case Update(t) => m.roles[t]
    case Decide(t, _, _, _) => if cv'.threads[t].Idle? then Held else m.roles[t]
    case Proceed(t) => if m.roles[t] == Unlocking && cv'.threads[t].Idle? then Out else m.roles[t]
    case Unlock(t) => Unlocking
  }

  function MutexStep(m: MutexState, a: MutexAction): MutexState
    requires MutexEnabled(m, a)
  {
    if a.GiveGuard? then
      m.(roles := m.roles[a.t := Out][a.to := Held])
    else
      MutexState(Step(m.cv, CvAction(m, a)), m.roles[a.t := NextRole(m, a)])
  }

  predicate MutexInit(m: MutexState)
  {
    Init(m.cv) && m.cv.head.state == UNLOCKED
    && |m.roles| == |m.cv.threads| && forall t :: 0 <= t < |m.roles| ==> m.roles[t] == Out
  }

  /** A role fits the place in the code of the wait list. */
  predicate Fits(role: Role, pc: Pc)
  {
    match role
    case Out => pc.Idle?
    case Held => pc.Idle?
    case Locking => pc.Idle? || ((pc.Have? || Owns(pc)) && !pc.wake)
    case Relocking => pc.Idle? || ((pc.Have? || Owns(pc)) && !pc.wake)
    case Unlocking => pc.Walk? || pc.Mark? || pc.Unpark?
  }

  ghost predicate RolesFit(m: MutexState)
  {
    |m.roles| == |m.cv.threads| && forall t :: 0 <= t < |m.roles| ==> Fits(m.roles[t], m.cv.threads[t])
  }

  function HeldWeight(role: Role): nat { if Owner(role) then 1 else 0 }

  /** How many threads own the mutex. */
  function Holders(m: MutexState): nat { Sum(m.roles, HeldWeight) }

  ghost predicate MutexInv(m: MutexState)
  {
    && Inv(m.cv)
    && RolesFit(m)
    && m.cv.head.state == Holders(m)
    && Holders(m) <= 1
    && (m.cv.head.state == UNLOCKED ==> m.cv.queue == [])
  }

  /** What a step of thread `t` needs to know. */
  ghost predicate Ready(m: MutexState, t: nat)
  {
    && t < |m.roles| == |m.cv.threads| == |m.cv.tokens|
    && Fits(m.roles[t], m.cv.threads[t]) && Healthy(m.cv, m.cv.threads[t])
    && (m.cv.head.state == UNLOCKED ==> m.cv.queue == [])
    && m.cv.head.state <= 1 && (Owner(m.roles[t]) ==> m.cv.head.state == LOCKED)
  }

  /** What it leaves behind: the state byte moves with the ownership. */
  ghost predicate Shaped(m: MutexState, m': MutexState, t: nat)
  {
    && t < |m.roles| == |m.cv.threads| == |m'.cv.threads| == |m'.roles|
    && m'.roles == m.roles[t := m'.roles[t]]
    && m'.cv.threads == m.cv.threads[t := m'.cv.threads[t]]
    && Fits(m'.roles[t], m'.cv.threads[t])
    && m'.cv.head.state + HeldWeight(m.roles[t]) == m.cv.head.state + HeldWeight(m'.roles[t])
    && (m'.cv.head.state == UNLOCKED ==> m'.cv.queue == [])
  }

  lemma StartShape(m: MutexState, a: MutexAction)
    requires MutexEnabled(m, a) && (a.TryLock? || a.Lock? || a.Update? || a.Unlock?) && Ready(m, a.t)
    ensures Shaped(m, MutexStep(m, a), a.t)
  {
  }

  lemma DecideShape(m: MutexState, a: MutexAction)
    requires MutexEnabled(m, a) && a.Decide? && Ready(m, a.t)
    ensures Shaped(m, MutexStep(m, a), a.t)
  {
  }

  lemma ProceedShape(m: MutexState, a: MutexAction)
    requires MutexEnabled(m, a) && a.Proceed? && Ready(m, a.t)
    requires m.cv.threads[a.t].Walk? && m.cv.threads[a.t].at != NULL ==> m.cv.threads[a.t].at in m.cv.nodes
    requires Owns(m.cv.threads[a.t]) ==> m.cv.threads[a.t].node in m.cv.nodes
    ensures Shaped(m, MutexStep(m, a), a.t)
  {
  }

  lemma ThreadReady(m: MutexState, t: nat)
    requires MutexInv(m) && t < |m.roles|
    ensures Ready(m, t)
    ensures m.cv.threads[t].Walk? && m.cv.threads[t].at != NULL ==> m.cv.threads[t].at in m.cv.nodes
    ensures Owns(m.cv.threads[t]) ==> m.cv.threads[t].node in m.cv.nodes
  {
    SumAtLeast(m.roles, HeldWeight, t);
    assert Linked(m.cv.nodes, First(m.cv.threads[t]), Rest(m.cv.threads[t]));
  }

  lemma ShapedInv(m: MutexState, m': MutexState, t: nat)
    requires RolesFit(m) && m.cv.head.state == Holders(m) && m'.cv.head.state <= 1 && Inv(m'.cv) && Shaped(m, m', t)
    ensures MutexInv(m')
  {
    SumUpdate(m.roles, HeldWeight, t, m'.roles[t]);
  }

  lemma GiveRoles(m: MutexState, t: nat, to: nat)
    requires RolesFit(m) && MutexEnabled(m, GiveGuard(t, to))
    ensures RolesFit(MutexStep(m, GiveGuard(t, to)))
  {
  }

  lemma GiveHolders(m: MutexState, t: nat, to: nat)
    requires MutexEnabled(m, GiveGuard(t, to))
    ensures Holders(MutexStep(m, GiveGuard(t, to))) == Holders(m) && MutexStep(m, GiveGuard(t, to)).cv == m.cv
  {
    SumUpdate(m.roles, HeldWeight, t, Out);
    SumUpdate(m.roles[t := Out], HeldWeight, to, Held);
  }

  lemma GiveInv(m: MutexState, t: nat, to: nat)
    requires MutexInv(m) && MutexEnabled(m, GiveGuard(t, to))
    ensures MutexInv(MutexStep(m, GiveGuard(t, to)))
  {
    GiveRoles(m, t, to);
    GiveHolders(m, t, to);
  }

  lemma MutexStepInv(m: MutexState, a: MutexAction)
    requires MutexInv(m) && MutexEnabled(m, a)
    ensures MutexInv(MutexStep(m, a))
    ensures !a.GiveGuard? ==> Shaped(m, MutexStep(m, a), a.t)
  {
    if a.GiveGuard? {
      GiveInv(m, a.t, a.to);
    } else {
      StepInv(m.cv, CvAction(m, a));
      ThreadReady(m, a.t);
      if a.Decide? {
        DecideShape(m, a);
      } else if a.Proceed? {
        ProceedShape(m, a);
      } else {
        StartShape(m, a);
      }
      StateStaysSmall(m, a);
      ShapedInv(m, MutexStep(m, a), a.t);
    }
  }

  lemma StateStaysSmall(m: MutexState, a: MutexAction)
    requires MutexEnabled(m, a) && !a.GiveGuard? && m.cv.head.state <= 1
    ensures MutexStep(m, a).cv.head.state <= 1
  {
  }

  lemma MutexInitInv(m: MutexState)
    requires MutexInit(m)
    ensures MutexInv(m)
  {
    SumZero(m.roles, HeldWeight);
    InitInv(m.cv);
  }

  predicate MutexRun(m: MutexState, run: seq<MutexAction>)
    decreases |run|
  {
    run == [] || (MutexEnabled(m, run[0]) && MutexRun(MutexStep(m, run[0]), run[1..]))
  }

  function MutexAfter(m: MutexState, run: seq<MutexAction>): MutexState
    requires MutexRun(m, run)
    decreases |run|
  {
    if run == [] then m else MutexAfter(MutexStep(m, run[0]), run[1..])
  }

  lemma {:induction false} MutexRunSnoc(m: MutexState, run: seq<MutexAction>, a: MutexAction)
    requires MutexRun(m, run) && MutexEnabled(MutexAfter(m, run), a)
    ensures MutexRun(m, run + [a]) && MutexAfter(m, run + [a]) == MutexStep(MutexAfter(m, run), a)
    decreases |run|
  {
    if run == [] {
      assert [a][1..] == [];
    } else {
      MutexRunSnoc(MutexStep(m, run[0]), run[1..], a);
      assert (run + [a])[1..] == run[1..] + [a];
    }
  }

  lemma {:induction false} MutexRunInv(m: MutexState, run: seq<MutexAction>)
    requires MutexInv(m) && MutexRun(m, run)
    ensures MutexInv(MutexAfter(m, run))
    decreases |run|
  {
    if run != [] {
      MutexStepInv(m, run[0]);
      MutexRunInv(MutexStep(m, run[0]), run[1..]);
    }
  }

  /**
   Mutual exclusion and no lost wake-up, in every reachable state of any number of threads, whether or
   not an owner tries or locks the mutex again: at most one thread owns the mutex and the word says
   whether one does; an unlocked mutex has no queued waiter; every unwoken waiter is queued at a held
   mutex or in the hands of a thread that is unlocking; and a woken waiter in park has its token or is
   owed it.
   */
  lemma MutexSafe(m: MutexState, run: seq<MutexAction>)
    requires MutexInit(m) && MutexRun(m, run)
    ensures var e := MutexAfter(m, run);
      && (forall t, u :: 0 <= t < u < |e.roles| ==> !(Owner(e.roles[t]) && Owner(e.roles[u])))
      && (e.cv.head.state == LOCKED <==> exists t :: 0 <= t < |e.roles| && Owner(e.roles[t]))
      && (e.cv.head.state == UNLOCKED ==> e.cv.head.ptr == NULL)
      && |e.roles| == |e.cv.threads| == |e.cv.tokens|
      && (forall a :: a in e.cv.nodes && !e.cv.nodes[a].ready ==>
            (a in e.cv.queue && e.cv.head.state == LOCKED)
            || exists w :: 0 <= w < |e.roles| && e.roles[w] == Unlocking && a in Rest(e.cv.threads[w]))
      && (forall t :: 0 <= t < |e.roles| && MustWake(e.cv, t) ==> e.cv.tokens[t] || Owed(e.cv.threads, t))
  {
    MutexInitInv(m);
    MutexRunInv(m, run);
    var e := MutexAfter(m, run);
    Owners(e);
    WakersUnlock(e);
    Wakeups(e);
  }

  /** The state byte counts the owners. */
  lemma Owners(m: MutexState)
    requires m.cv.head.state == Holders(m) <= 1
    ensures forall t, u :: 0 <= t < u < |m.roles| ==> !(Owner(m.roles[t]) && Owner(m.roles[u]))
    ensures m.cv.head.state == LOCKED <==> exists t :: 0 <= t < |m.roles| && Owner(m.roles[t])
  {
    forall t, u | 0 <= t < u < |m.roles|
      ensures !(Owner(m.roles[t]) && Owner(m.roles[u]))
    {
      SumAtLeastTwo(m.roles, HeldWeight, t, u);
    }
    if m.cv.head.state == LOCKED {
      var t := SumWitness(m.roles, HeldWeight);
    }
    if t :| 0 <= t < |m.roles| && Owner(m.roles[t]) {
      SumAtLeast(m.roles, HeldWeight, t);
    }
  }

  lemma Wakeups(m: MutexState)
    requires MutexInv(m)
    ensures |m.roles| == |m.cv.threads| == |m.cv.tokens|
    ensures forall t :: 0 <= t < |m.roles| && MustWake(m.cv, t) ==> m.cv.tokens[t] || Owed(m.cv.threads, t)
  {
  }

  lemma WakersUnlock(m: MutexState)
    requires MutexInv(m)
    ensures forall a :: a in m.cv.nodes && !m.cv.nodes[a].ready && a !in m.cv.queue ==>
      exists w :: 0 <= w < |m.roles| && m.roles[w] == Unlocking && a in Rest(m.cv.threads[w])
    ensures m.cv.head.state == UNLOCKED ==> m.cv.head.ptr == NULL
    ensures m.cv.queue != [] ==> m.cv.head.state == LOCKED
  {
    forall a | a in m.cv.nodes && !m.cv.nodes[a].ready && a !in m.cv.queue
      ensures exists w :: 0 <= w < |m.roles| && m.roles[w] == Unlocking && a in Rest(m.cv.threads[w])
    {
      var w :| 0 <= w < |m.cv.threads| && a in Rest(m.cv.threads[w]);
      assert Fits(m.roles[w], m.cv.threads[w]);
    }
  }
}
