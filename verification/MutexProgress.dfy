/** A thread in the slow path of `lock` can always be brought to own the mutex, without spurious wake-ups. */
module MutexProgress {
  import opened Sums
  import opened CondVar
  import opened CondVarSafety
  import opened Mutex

  /** How much waking is left to a thread. */
  function Work(pc: Pc): nat
  {
    match pc
    case Walk(_, rest) => 3 * |rest| + 1
    case Mark(_, _, _, rest) => 3 * |rest|
    case Unpark(_, _, rest) => 3 * |rest| + 2
    case _ => 0
  }

  /** How far a locking thread is from taking a free mutex whose word is `head`. */
  function Distance(pc: Pc, head: Head): nat
  {
    match pc
    case InPark(_, _) => 5
    case CheckReady(_, _) => 4
    case Reload(_, _) => 3
    case Idle => 2
    case Have(cur, _) => if cur == head then 1 else 2
    case _ => 0
  }

  /** The owner unlocks and threads go on; park returns only with a token, and no exchange fails without reason. */
  ghost predicate Cooperative(m: MutexState, a: MutexAction)
    requires MutexEnabled(m, a)
  {
    match a
    case Unlock(_) => true
    case Update(_) => true
    case Proceed(t) => m.cv.threads[t].InPark? ==> t < |m.cv.tokens| && m.cv.tokens[t]
    case Decide(_, block, _, spurious) => !block && !spurious
    case _ => false
  }

  ghost predicate CooperativeRun(m: MutexState, run: seq<MutexAction>)
    requires MutexRun(m, run)
    decreases |run|
  {
    run != [] ==> Cooperative(m, run[0]) && CooperativeRun(MutexStep(m, run[0]), run[1..])
  }

  ghost predicate SomeoneIs(m: MutexState, role: Role)
  {
    exists u :: 0 <= u < |m.roles| && m.roles[u] == role
  }

  ghost predicate SomeoneOwns(m: MutexState) { SomeoneIs(m, Held) || SomeoneIs(m, Relocking) }

  /** With nobody owning and nobody unlocking, every waiter has been woken and has its token. */
  lemma WaitersAreWoken(m: MutexState, t: nat)
    requires MutexInv(m) && !SomeoneOwns(m) && !SomeoneIs(m, Unlocking)
    requires t < |m.roles| && m.roles[t] == Locking && Owns(m.cv.threads[t])
    ensures m.cv.nodes[m.cv.threads[t].node].ready
    ensures m.cv.threads[t].InPark? ==> m.cv.tokens[t]
  {
    FreeWord(m);
    WakersUnlock(m);
    NobodyOwes(m, t);
    assert MustWake(m.cv, t) ==> m.cv.tokens[t] || Owed(m.cv.threads, t);
  }

  lemma NobodyOwes(m: MutexState, t: nat)
    requires RolesFit(m) && !SomeoneIs(m, Unlocking)
    ensures !Owed(m.cv.threads, t)
  {
    forall w | 0 <= w < |m.cv.threads|
      ensures !m.cv.threads[w].Unpark?
    {
      assert Fits(m.roles[w], m.cv.threads[w]);
    }
  }

  lemma FreeWord(m: MutexState)
    requires MutexInv(m) && !SomeoneOwns(m)
    ensures m.cv.head == Head(NULL, UNLOCKED) && m.cv.queue == []
  {
    SumZero(m.roles, HeldWeight);
    assert Linked(m.cv.nodes, m.cv.head.ptr, m.cv.queue);
  }

  /** A waking thread's step leaves less to wake. */
  lemma WakerStep(m: MutexState, u: nat)
    requires Ready(m, u) && m.roles[u] == Unlocking && NULL !in m.cv.nodes
    requires Linked(m.cv.nodes, First(m.cv.threads[u]), Rest(m.cv.threads[u]))
    ensures MutexEnabled(m, Proceed(u)) && Cooperative(m, Proceed(u))
    ensures var m' := MutexStep(m, Proceed(u));
      |m'.cv.threads| == |m.cv.threads| && Work(m'.cv.threads[u]) < Work(m.cv.threads[u]) && !Owner(m'.roles[u])
  {
  }

  /** The next action of a locking thread when the mutex is free and nobody is waking. */
  function NextAction(pc: Pc, t: nat): MutexAction
  {
    if pc.Idle? then Update(t) else if pc.Have? then Decide(t, false, NULL, false) else Proceed(t)
  }

  /** What a locking thread finds when nobody owns the mutex and nobody is waking. */
  ghost predicate FreeFor(m: MutexState, t: nat)
  {
    && Ready(m, t) && m.roles[t] == Locking && m.cv.head == Head(NULL, UNLOCKED)
    && (Owns(m.cv.threads[t]) ==>
          m.cv.threads[t].node in m.cv.nodes && m.cv.nodes[m.cv.threads[t].node].ready
          && (m.cv.threads[t].InPark? ==> m.cv.tokens[t]))
  }

  lemma LockerFinds(m: MutexState, t: nat)
    requires MutexInv(m) && !SomeoneOwns(m) && !SomeoneIs(m, Unlocking)
    requires t < |m.roles| && m.roles[t] == Locking
    ensures FreeFor(m, t)
  {
    ThreadReady(m, t);
    FreeWord(m);
    if Owns(m.cv.threads[t]) {
      WaitersAreWoken(m, t);
    }
  }

  lemma LockerStep(m: MutexState, t: nat)
    requires FreeFor(m, t)
    ensures var a := NextAction(m.cv.threads[t], t);
      MutexEnabled(m, a) && Cooperative(m, a)
      && var m' := MutexStep(m, a);
         && |m'.roles| == |m'.cv.threads| == |m.roles| && m'.cv.threads == m.cv.threads[t := m'.cv.threads[t]]
         && (m'.roles[t] == Held
             || (m'.roles[t] == Locking && m'.cv.head == m.cv.head
                 && Distance(m'.cv.threads[t], m'.cv.head) < Distance(m.cv.threads[t], m.cv.head)))
         && m'.roles == m.roles[t := m'.roles[t]]
         && Work(m'.cv.threads[t]) == Work(m.cv.threads[t])
  {
  }

  function TotalWork(m: MutexState): nat { Sum(m.cv.threads, Work) }

  /** Thread `t` owns the mutex, or is nearer to it: one owner less, less to wake, or a shorter way to go. */
  ghost predicate Nearer(m: MutexState, m': MutexState, t: nat)
    requires t < |m.cv.threads| == |m'.cv.threads| == |m.roles| == |m'.roles|
  {
    !SomeoneIs(m', Relocking) && (m'.roles[t] == Held || (m'.roles[t] == Locking && !SomeoneIs(m', Held) &&
      (SomeoneIs(m, Held)
       || TotalWork(m') < TotalWork(m)
       || (TotalWork(m') == TotalWork(m)
           && Distance(m'.cv.threads[t], m'.cv.head) < Distance(m.cv.threads[t], m.cv.head)))))
  }

  /** The owner's `unlock`, seen from the roles. */
  lemma UnlockRoles(m: MutexState, h: nat)
    requires h < |m.roles| == |m.cv.threads| == |m.cv.tokens| && m.roles[h] == Held && m.cv.threads[h].Idle?
    ensures MutexEnabled(m, Unlock(h))
    ensures MutexStep(m, Unlock(h)).roles == m.roles[h := Unlocking]
    ensures |MutexStep(m, Unlock(h)).cv.threads| == |m.cv.threads|
  {
  }

  lemma OwnerTurn(m: MutexState, t: nat, h: nat)
    requires MutexInv(m) && t < |m.roles| && m.roles[t] == Locking && h < |m.roles| && m.roles[h] == Held
    requires !SomeoneIs(m, Relocking)
    ensures MutexEnabled(m, Unlock(h))
    ensures |MutexStep(m, Unlock(h)).roles| == |MutexStep(m, Unlock(h)).cv.threads| == |m.roles|
    ensures Nearer(m, MutexStep(m, Unlock(h)), t)
  {
    ThreadReady(m, h);
    UnlockRoles(m, h);
    SoleOwner(m, h);
    OwnerGone(m, MutexStep(m, Unlock(h)), t, h);
  }

  lemma OwnerGone(m: MutexState, m': MutexState, t: nat, h: nat)
    requires t < |m.roles| == |m.cv.threads| == |m'.cv.threads| && h < |m.roles|
    requires m.roles[t] == Locking && m.roles[h] == Held && m'.roles == m.roles[h := Unlocking]
    requires !SomeoneIs(m, Relocking) && forall u :: 0 <= u < |m.roles| && u != h ==> !Owner(m.roles[u])
    ensures Nearer(m, m', t)
  {
  }

  lemma WakerTurn(m: MutexState, t: nat, u: nat)
    requires MutexInv(m) && t < |m.roles| && m.roles[t] == Locking && !SomeoneOwns(m)
    requires u < |m.roles| && m.roles[u] == Unlocking
    ensures MutexEnabled(m, Proceed(u)) && Cooperative(m, Proceed(u))
    ensures |MutexStep(m, Proceed(u)).roles| == |MutexStep(m, Proceed(u)).cv.threads| == |m.roles|
    ensures Nearer(m, MutexStep(m, Proceed(u)), t)
  {
    ThreadReady(m, u);
    WakerFacts(m, u);
    WakerStep(m, u);
    MutexStepInv(m, Proceed(u));
    LessWork(m, MutexStep(m, Proceed(u)), t, u);
  }

  lemma WakerFacts(m: MutexState, u: nat)
    requires MutexInv(m) && u < |m.roles|
    ensures NULL !in m.cv.nodes && Linked(m.cv.nodes, First(m.cv.threads[u]), Rest(m.cv.threads[u]))
  {
  }

  /** Less work for one waker and no new owner. */
  lemma LessWork(m: MutexState, m': MutexState, t: nat, u: nat)
    requires Shaped(m, m', u) && t < |m.roles| && t != u && m.roles[t] == Locking && !SomeoneOwns(m)
    requires !Owner(m'.roles[u]) && Work(m'.cv.threads[u]) < Work(m.cv.threads[u])
    ensures Nearer(m, m', t)
  {
    SumUpdate(m.cv.threads, Work, u, m'.cv.threads[u]);
  }

  lemma LockerTurn(m: MutexState, t: nat)
    requires MutexInv(m) && t < |m.roles| && m.roles[t] == Locking && !SomeoneOwns(m) && !SomeoneIs(m, Unlocking)
    ensures var a := NextAction(m.cv.threads[t], t);
      && MutexEnabled(m, a) && Cooperative(m, a)
      && |MutexStep(m, a).roles| == |MutexStep(m, a).cv.threads| == |m.roles|
      && Nearer(m, MutexStep(m, a), t)
  {
    var a := NextAction(m.cv.threads[t], t);
    LockerFinds(m, t);
    LockerStep(m, t);
    CloserOrOwner(m, MutexStep(m, a), t);
  }

  /** As much to wake as before, and the thread itself is closer to the mutex. */
  lemma CloserOrOwner(m: MutexState, m': MutexState, t: nat)
    requires t < |m.roles| == |m.cv.threads| == |m'.cv.threads| == |m'.roles| && !SomeoneOwns(m)
    requires m'.roles == m.roles[t := m'.roles[t]] && m'.cv.threads == m.cv.threads[t := m'.cv.threads[t]]
    requires Work(m'.cv.threads[t]) == Work(m.cv.threads[t])
    requires m'.roles[t] == Held
      || (m'.roles[t] == Locking
          && Distance(m'.cv.threads[t], m'.cv.head) < Distance(m.cv.threads[t], m.cv.head))
    ensures Nearer(m, m', t)
  {
    SumUpdate(m.cv.threads, Work, t, m'.cv.threads[t]);
  }

  /** A cooperative action that makes `t` the owner or brings that nearer. */
  lemma ChooseAction(m: MutexState, t: nat) returns (a: MutexAction)
    requires MutexInv(m) && t < |m.roles| && m.roles[t] == Locking && !SomeoneIs(m, Relocking)
    ensures MutexEnabled(m, a) && Cooperative(m, a)
    ensures |MutexStep(m, a).roles| == |MutexStep(m, a).cv.threads| == |m.roles| == |m.cv.threads|
    ensures Nearer(m, MutexStep(m, a), t)
  {
    if h :| 0 <= h < |m.roles| && m.roles[h] == Held {
      a := Unlock(h);
      OwnerTurn(m, t, h);
    } else if u :| 0 <= u < |m.roles| && m.roles[u] == Unlocking {
      a := Proceed(u);
      WakerTurn(m, t, u);
    } else {
      a := NextAction(m.cv.threads[t], t);
      LockerTurn(m, t);
    }
  }

  /**
   Deadlock freedom and no lost wake-up, made one: unless the owner itself is in `lock`, a cooperative
   schedule makes any thread in the slow path the owner. Only the owner unlocks, wakers and the thread
   itself go on, and park never has to return for no reason.
   */
  lemma {:induction false} LockIsObtained(m: MutexState, t: nat) returns (run: seq<MutexAction>)
    requires MutexInv(m) && t < |m.roles| && m.roles[t] == Locking && !SomeoneIs(m, Relocking)
    ensures MutexRun(m, run) && CooperativeRun(m, run)
    ensures t < |MutexAfter(m, run).roles| && MutexAfter(m, run).roles[t] == Held
    decreases if SomeoneIs(m, Held) then 1 else 0, TotalWork(m), Distance(m.cv.threads[t], m.cv.head)
  {
    var a := ChooseAction(m, t);
    var m' := MutexStep(m, a);
    MutexStepInv(m, a);
    var rest: seq<MutexAction> := [];
    if m'.roles[t] != Held {
      rest := LockIsObtained(m', t);
    }
    run := [a] + rest;
    Prepended(m, a, rest);
  }

  lemma Prepended(m: MutexState, a: MutexAction, rest: seq<MutexAction>)
    requires MutexEnabled(m, a) && Cooperative(m, a) && MutexRun(MutexStep(m, a), rest)
    requires CooperativeRun(MutexStep(m, a), rest)
    ensures MutexRun(m, [a] + rest) && CooperativeRun(m, [a] + rest)
    ensures MutexAfter(m, [a] + rest) == MutexAfter(MutexStep(m, a), rest)
  {
    assert ([a] + rest)[1..] == rest;
  }

  lemma SoleOwner(m: MutexState, h: nat)
    requires MutexInv(m) && h < |m.roles| && Owner(m.roles[h])
    ensures forall u :: 0 <= u < |m.roles| && u != h ==> !Owner(m.roles[u])
  {
    forall u | 0 <= u < |m.roles| && u != h
      ensures !Owner(m.roles[u])
    {
      SumAtLeastTwo(m.roles, HeldWeight, if u < h then u else h, if u < h then h else u);
    }
  }

  // ---------------------------------------------------------------------------------------
  // An owner that locks again.

  lemma RelockingStep(m: MutexState, a: MutexAction, u: nat)
    requires MutexEnabled(m, a) && Ready(m, u) && m.roles[u] == Relocking && |MutexStep(m, a).roles| == |m.roles|
    requires a.t == u && Owns(m.cv.threads[u]) ==> m.cv.threads[u].node in m.cv.nodes
    ensures MutexStep(m, a).roles[u] == Relocking
  {
  }

  /** It never gets out of `lock`. */
  lemma {:induction false} RelockingStays(m: MutexState, run: seq<MutexAction>, u: nat)
    requires MutexInv(m) && MutexRun(m, run) && u < |m.roles| && m.roles[u] == Relocking
    ensures u < |MutexAfter(m, run).roles| && MutexAfter(m, run).roles[u] == Relocking
    decreases |run|
  {
    if run != [] {
      ThreadReady(m, u);
      MutexStepInv(m, run[0]);
      StepKeepsRoles(m, run[0]);
      RelockingStep(m, run[0], u);
      RelockingStays(MutexStep(m, run[0]), run[1..], u);
    }
  }

  lemma StepKeepsRoles(m: MutexState, a: MutexAction)
    requires MutexEnabled(m, a)
    ensures |MutexStep(m, a).roles| == |m.roles|
  {
  }

  /** Then nobody else ever becomes the owner, whatever all threads do. */
  lemma OwnerLockedOut(m: MutexState, run: seq<MutexAction>, u: nat)
    requires MutexInv(m) && MutexRun(m, run) && u < |m.roles| && m.roles[u] == Relocking
    ensures !SomeoneIs(MutexAfter(m, run), Held)
  {
    MutexRunInv(m, run);
    RelockingStays(m, run, u);
    SoleOwner(MutexAfter(m, run), u);
  }

  /**
   Over every run from a fresh mutex: a thread in the slow path of `lock` can be brought to own the
   mutex if and only if the owner is not itself in `lock`.
   */
  lemma LockerCanBeServed(m: MutexState, before: seq<MutexAction>, t: nat)
    requires MutexInit(m) && MutexRun(m, before)
    requires t < |MutexAfter(m, before).roles| && MutexAfter(m, before).roles[t] == Locking
    ensures var e := MutexAfter(m, before);
      (exists run :: MutexRun(e, run) && CooperativeRun(e, run)
         && t < |MutexAfter(e, run).roles| && MutexAfter(e, run).roles[t] == Held)
      <==> !SomeoneIs(e, Relocking)
  {
    MutexInitInv(m);
    MutexRunInv(m, before);
    var e := MutexAfter(m, before);
    if SomeoneIs(e, Relocking) {
      var u :| 0 <= u < |e.roles| && e.roles[u] == Relocking;
      forall run | MutexRun(e, run)
        ensures !SomeoneIs(MutexAfter(e, run), Held)
      {
        OwnerLockedOut(e, run, u);
      }
    } else {
      var run := LockIsObtained(e, t);
      assert MutexRun(e, run);
    }
  }

  /** The failing run: the owner locks again, and a second thread waits in vain. */
  lemma OwnerCanLockItselfOut() returns (m: MutexState, before: seq<MutexAction>)
    ensures MutexInit(m) && MutexRun(m, before) && |MutexAfter(m, before).roles| == 2
    ensures MutexAfter(m, before).roles == [Relocking, Locking]
  {
    m := MutexState(State(Head(NULL, UNLOCKED), [], map[], [CondVar.Idle, CondVar.Idle], [false, false]), [Out, Out]);
    before := [Lock(0), Lock(0), Lock(1)];
    assert before[1..] == [Lock(0), Lock(1)] && before[1..][1..] == [Lock(1)] && before[1..][1..][1..] == [];
  }
}
