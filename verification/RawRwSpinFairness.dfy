/**
 A queued writer is overtaken only by readers that were already waiting for good: always in debug
 builds, and in release builds as long as fewer than EXCLUSIVE_PENDING readers are registered.
 */
module RawRwSpinFairness {
  import opened Sums
  import opened Words
  import opened RawRwSpin
  import opened RawRwSpinSafety

  /** A reader that gave way before, or arrived while a writer held the lock. */
  predicate Eligible(th: Thread) { th.pc.Waiting? || th.pc.Rejoin? }

  function EligibleWeight(th: Thread): nat { if Eligible(th) then 1 else 0 }

  /** How many readers may still overtake a queued writer. */
  function EligibleReaders(s: State): nat { Sum(s.threads, EligibleWeight) }

  /** Thread `t` acquires a shared lock by this step. */
  predicate AcquiresShared(s: State, a: Action, t: nat)
    requires Enabled(s, a)
  {
    a.Act? && a.t == t && Step(s, a).threads[t].shared > s.threads[t].shared
  }

  predicate AcquiresExclusive(s: State, a: Action)
    requires Enabled(s, a)
  {
    a.Act? && Step(s, a).threads[a.t].exclusive > s.threads[a.t].exclusive
  }

  /** Shared acquisitions during a run, by one thread and by all threads. */
  function SharedAcquisitionsBy(s: State, run: seq<Action>, t: nat): nat
    requires Run(s, run)
    decreases |run|
  {
    if run == [] then 0
    else (if AcquiresShared(s, run[0], t) then 1 else 0) + SharedAcquisitionsBy(Step(s, run[0]), run[1..], t)
  }

  function SharedAcquisitions(s: State, run: seq<Action>): nat
    requires Run(s, run)
    decreases |run|
  {
    if run == [] then 0
    else (if AcquiresShared(s, run[0], run[0].t) then 1 else 0) + SharedAcquisitions(Step(s, run[0]), run[1..])
  }

  function ExclusiveAcquisitions(s: State, run: seq<Action>): nat
    requires Run(s, run)
    decreases |run|
  {
    if run == [] then 0
    else (if AcquiresExclusive(s, run[0]) then 1 else 0) + ExclusiveAcquisitions(Step(s, run[0]), run[1..])
  }

  /** Writer `w` is queued. */
  predicate WindowOpen(s: State, w: nat)
  {
    w < |s.threads| && s.threads[w].pc == Convert(true)
  }

  /** Writer `w` stays queued throughout the run. */
  predicate Window(s: State, run: seq<Action>, w: nat)
    requires Run(s, run)
    decreases |run|
  {
    WindowOpen(s, w) && (run != [] ==> Window(Step(s, run[0]), run[1..], w))
  }

  /** While a writer is queued, the word lies between the two marks, given headroom. */
  lemma WindowWord(s: State, w: nat)
    requires Inv(s) && Headroom(s) && WindowOpen(s, w)
    ensures EXCLUSIVE_PENDING <= s.word < EXCLUSIVE_LOCKED
  {
    SumAtLeast(s.threads, Queued, w);
  }

  /** With the word between the two marks only an eligible thread acquires, and nobody becomes eligible. */
  lemma LocalOvertaking(debug: bool, word: Word, th: Thread, op: Op)
    requires EnabledLocally(th, op) && EXCLUSIVE_PENDING <= word < EXCLUSIVE_LOCKED
    ensures var th' := LocalStep(debug, word, th, op).1;
      && (Eligible(th') ==> Eligible(th))
      && (th'.shared > th.shared ==> Eligible(th) && !Eligible(th'))
      && (th'.exclusive > th.exclusive ==> th.pc == Convert(true))
  {
  }

  /** Replacing a thread by one that is no more eligible. */
  lemma EligibleUpdate(s: State, t: nat, th': Thread)
    requires t < |s.threads| && (Eligible(th') ==> Eligible(s.threads[t]))
    ensures Sum(s.threads[t := th'], EligibleWeight) + EligibleWeight(s.threads[t]) == EligibleReaders(s) + EligibleWeight(th')
  {
    SumUpdate(s.threads, EligibleWeight, t, th');
  }

  lemma WindowAct(s: State, t: nat, op: Op, w: nat)
    requires Inv(s) && Headroom(s) && Enabled(s, Act(t, op)) && WindowOpen(s, w) && WindowOpen(Step(s, Act(t, op)), w)
    ensures var th, th' := s.threads[t], LocalStep(s.debug, s.word, s.threads[t], op).1;
      && (Eligible(th') ==> Eligible(th))
      && (th'.shared > th.shared ==> Eligible(th) && !Eligible(th'))
      && th'.exclusive <= th.exclusive
  {
    WindowWord(s, w);
    LocalOvertaking(s.debug, s.word, s.threads[t], op);
    if s.threads[t].pc == Convert(true) {
      SoleQueuedWriter(s, t, w);
    }
  }

  lemma WindowGive(s: State, a: Action, t: nat, to: nat)
    requires Enabled(s, a) && (a == GiveShared(t, to) || a == GiveExclusive(t, to))
    ensures EligibleReaders(Step(s, a)) == EligibleReaders(s)
    ensures forall u :: 0 <= u < |s.threads| ==> Eligible(Step(s, a).threads[u]) == Eligible(s.threads[u])
  {
    SumGive(s.threads, EligibleWeight, t, Step(s, a).threads[t], to, Step(s, a).threads[to]);
  }

  /** In a window each step that acquires uses up one eligible reader. */
  lemma WindowStep(s: State, a: Action, w: nat)
    requires Inv(s) && Headroom(s) && Enabled(s, a) && WindowOpen(s, w) && WindowOpen(Step(s, a), w)
    ensures (if AcquiresShared(s, a, a.t) then 1 else 0) + EligibleReaders(Step(s, a)) <= EligibleReaders(s)
    ensures !AcquiresExclusive(s, a)
    ensures forall t :: 0 <= t < |s.threads| && !Eligible(s.threads[t]) ==>
      !AcquiresShared(s, a, t) && !Eligible(Step(s, a).threads[t])
  {
    match a
    case Act(t, op) =>
      WindowAct(s, t, op, w);
      EligibleUpdate(s, t, LocalStep(s.debug, s.word, s.threads[t], op).1);
    case GiveShared(t, to) => WindowGive(s, a, t, to);
    case GiveExclusive(t, to) => WindowGive(s, a, t, to);
  }

  /** There is only one queued writer. */
  lemma SoleQueuedWriter(s: State, t: nat, w: nat)
    requires Inv(s) && WindowOpen(s, t) && WindowOpen(s, w)
    ensures t == w
  {
    if t < w {
      SumAtLeastTwo(s.threads, Queued, t, w);
    } else if w < t {
      SumAtLeastTwo(s.threads, Queued, w, t);
    }
  }

  /**
   Bounded overtaking. While a writer is queued, the shared locks acquired plus the readers that
   may still overtake are no more than the readers that might overtake at the start, and no other
   writer gets ahead.
   */
  lemma {:induction false} BoundedOvertaking(s: State, run: seq<Action>, w: nat)
    requires Inv(s) && Run(s, run) && Roomy(s, run) && Window(s, run, w)
    ensures SharedAcquisitions(s, run) + EligibleReaders(After(s, run)) <= EligibleReaders(s)
    ensures ExclusiveAcquisitions(s, run) == 0
    decreases |run|
  {
    if run != [] {
      WindowStep(s, run[0], w);
      StepPreserves(s, run[0]);
      BoundedOvertaking(Step(s, run[0]), run[1..], w);
    }
  }

  /**
   A thread that is not waiting for good acquires no shared lock for as long as the writer stays
   queued, however often it asks.
   */
  lemma {:induction false} NewcomersGiveWay(s: State, run: seq<Action>, w: nat, t: nat)
    requires Inv(s) && Run(s, run) && Roomy(s, run) && Window(s, run, w)
    requires t < |s.threads| && !Eligible(s.threads[t])
    ensures SharedAcquisitionsBy(s, run, t) == 0
    decreases |run|
  {
    if run != [] {
      WindowStep(s, run[0], w);
      StepPreserves(s, run[0]);
      NewcomersGiveWay(Step(s, run[0]), run[1..], w, t);
    }
  }

  /** In particular a request whose first fetch_add falls into the window. */
  lemma LateRequestWaits(s: State, before: seq<Action>, t: nat, op: Op, rest: seq<Action>, w: nat)
    requires op.TryShared? || op.LockShared?
    requires Inv(s) && Run(s, before + [Act(t, op)] + rest) && Roomy(s, before + [Act(t, op)] + rest)
    requires Window(s, before + [Act(t, op)] + rest, w)
    ensures Run(s, before) && Run(After(s, before), [Act(t, op)] + rest)
    ensures SharedAcquisitionsBy(After(s, before), [Act(t, op)] + rest, t) == 0
    decreases |before|
  {
    var run := before + [Act(t, op)] + rest;
    if before == [] {
      assert run == [Act(t, op)] + rest;
      NewcomersGiveWay(s, run, w, t);
    } else {
      assert run[1..] == before[1..] + [Act(t, op)] + rest;
      StepPreserves(s, run[0]);
      LateRequestWaits(Step(s, run[0]), before[1..], t, op, rest, w);
    }
  }

  /** A window ends only by its writer's own step: holding the lock alone, or cancelling. */
  lemma WindowEnds(s: State, a: Action, w: nat)
    requires Inv(s) && Enabled(s, a) && WindowOpen(s, w) && !WindowOpen(Step(s, a), w)
    ensures a.Act? && a.t == w && a.op.Continue?
    ensures var th := Step(s, a).threads[w];
      || (th.pc == Idle && th.exclusive == 1 && Holders(Step(s, a)) == 0)
      || (th.pc == Cancel && !a.op.cond)
  {
    StepPreserves(s, a);
    assert a.Act? && a.t == w;
    var s' := Step(s, a);
    SumAtLeast(s'.threads, ExclusiveGuards, w);
    if s'.threads[w].pc != Cancel {
      SumAtLeast(s'.threads, SharedGuards, w);
      SumAtLeast(s.threads, Queued, w);
      SumAtLeast(s.threads, ExclusiveGuards, w);
    }
  }

  /** The queued writer's attempt succeeds exactly when no reader is registered any more. */
  lemma QueuedWriterGetsIn(s: State, w: nat)
    requires Inv(s) && WindowOpen(s, w)
    ensures (Step(s, Act(w, Continue(true, false))).threads[w].exclusive == 1) <==> Readers(s) == 0
  {
    ThreadFits(s, w);
  }

  // ---------------------------------------------------------------------------------------
  // Headroom.

  /** In debug builds nothing has to be assumed. */
  lemma DebugOvertaking(s: State, before: seq<Action>, run: seq<Action>, w: nat)
    requires Init(s) && s.debug && |s.threads| <= MAX_THREADS && Run(s, before)
    requires Run(After(s, before), run) && Window(After(s, before), run, w)
    ensures var e := After(s, before);
      && SharedAcquisitions(e, run) + EligibleReaders(After(e, run)) <= EligibleReaders(e)
      && ExclusiveAcquisitions(e, run) == 0
      && forall t :: 0 <= t < |e.threads| && !Eligible(e.threads[t]) ==> SharedAcquisitionsBy(e, run, t) == 0
  {
    InitInv(s);
    SumZero(s.threads, Admitted);
    DebugIsRoomy(s, before);
    var e := After(s, before);
    DebugIsRoomy(e, run);
    BoundedOvertaking(e, run, w);
    forall t | 0 <= t < |e.threads| && !Eligible(e.threads[t])
      ensures SharedAcquisitionsBy(e, run, t) == 0
    {
      NewcomersGiveWay(e, run, w, t);
    }
  }

  lemma LocalNewcomer(word: Word, th: Thread)
    requires th.pc.Idle? && word >= EXCLUSIVE_PENDING
    ensures Eligible(LocalStep(false, word, th, LockShared(true)).1) <==> word >= EXCLUSIVE_LOCKED
  {
  }

  /** In a window the word says that somebody holds the lock exactly if there is no headroom. */
  lemma WindowCarry(s: State, w: nat)
    requires Inv(s) && WindowOpen(s, w)
    ensures s.word >= EXCLUSIVE_PENDING && (s.word >= EXCLUSIVE_LOCKED <==> !Headroom(s))
  {
    SumAtLeast(s.threads, Queued, w);
  }

  /**
   In release builds headroom is exactly what it takes: without it the count of readers carries into
   the mark of the holder, and a newcomer takes the queued writer for one that holds the lock.
   */
  lemma NewcomerNeedsHeadroom(s: State, w: nat, t: nat)
    requires Inv(s) && !s.debug && WindowOpen(s, w) && t < |s.threads| && s.threads[t].pc.Idle?
    ensures Eligible(Step(s, Act(t, LockShared(true))).threads[t]) <==> !Headroom(s)
  {
    WindowCarry(s, w);
    LocalNewcomer(s.word, s.threads[t]);
  }

  /** An owner of many guards, a queued writer, and a third thread. */
  function Crowded(word: Word, guards: nat, third: Thread): State
  {
    State(false, word, [Thread(Idle, guards, 0), Thread(Convert(true), 0, 0), third])
  }

  /** During `run` writer 1 stays queued and thread 2 acquires the lock once. */
  predicate Overtakes(s: State, run: seq<Action>)
  {
    Run(s, run) && Window(s, run, 1) && SharedAcquisitionsBy(s, run, 2) == 1
  }

  lemma Prepend(s: State, a: Action, s': State, rest: seq<Action>) returns (run: seq<Action>)
    requires Enabled(s, a) && s' == Step(s, a) && WindowOpen(s, 1)
    requires if AcquiresShared(s, a, 2) then rest == [] && WindowOpen(s', 1) else Overtakes(s', rest)
    ensures Overtakes(s, run)
  {
    run := [a] + rest;
    assert run[1..] == rest;
  }

  lemma NewcomerWaits(rest: seq<Action>) returns (run: seq<Action>)
    requires Overtakes(Crowded(EXCLUSIVE_LOCKED + 1, EXCLUSIVE_PENDING, Thread(Waiting, 0, 0)), rest)
    ensures Overtakes(Crowded(EXCLUSIVE_LOCKED, EXCLUSIVE_PENDING, Thread(Idle, 0, 0)), run)
  {
    var s := Crowded(EXCLUSIVE_LOCKED, EXCLUSIVE_PENDING, Thread(Idle, 0, 0));
    var s' := Crowded(EXCLUSIVE_LOCKED + 1, EXCLUSIVE_PENDING, Thread(Waiting, 0, 0));
    assert Step(s, Act(2, LockShared(true))) == s';
    run := Prepend(s, Act(2, LockShared(true)), s', rest);
  }

  lemma OwnerReleases(word: Word, guards: nat, rest: seq<Action>) returns (run: seq<Action>)
    requires word > 0 && guards > 0 && Overtakes(Crowded(word - 1, guards - 1, Thread(Waiting, 0, 0)), rest)
    ensures Overtakes(Crowded(word, guards, Thread(Waiting, 0, 0)), run)
  {
    var s, s' := Crowded(word, guards, Thread(Waiting, 0, 0)), Crowded(word - 1, guards - 1, Thread(Waiting, 0, 0));
    assert s'.threads == s.threads[0 := Thread(Idle, guards - 1, 0)];
    run := Prepend(s, Act(0, UnlockShared), s', rest);
  }

  lemma WaiterAcquires(word: Word, guards: nat) returns (run: seq<Action>)
    requires word < EXCLUSIVE_LOCKED
    ensures Overtakes(Crowded(word, guards, Thread(Waiting, 0, 0)), run)
  {
    var s, s' := Crowded(word, guards, Thread(Waiting, 0, 0)), Crowded(word, guards, Thread(Idle, 1, 0));
    assert s'.threads == s.threads[2 := Thread(Idle, 1, 0)];
    run := Prepend(s, Act(2, Continue(true, false)), s', []);
  }

  lemma CrowdedSums(s: State)
    requires s == Crowded(EXCLUSIVE_LOCKED, EXCLUSIVE_PENDING, Thread(Idle, 0, 0))
    ensures Readers(s) == Holders(s) == Sum(s.threads, Entitled) == EXCLUSIVE_PENDING
    ensures QueuedWriters(s) == 1 && Writers(s) == 0
  {
    SumOfThree(s.threads, Registered);
    SumOfThree(s.threads, SharedGuards);
    SumOfThree(s.threads, Queued);
    SumOfThree(s.threads, ExclusiveGuards);
    SumOfThree(s.threads, Entitled);
  }

  lemma CrowdedInv(s: State)
    requires s == Crowded(EXCLUSIVE_LOCKED, EXCLUSIVE_PENDING, Thread(Idle, 0, 0))
    ensures Inv(s) && !Headroom(s)
  {
    CrowdedSums(s);
  }

  lemma SumOfThree(s: seq<Thread>, weight: Thread -> nat)
    requires |s| == 3
    ensures Sum(s, weight) == weight(s[0]) + weight(s[1]) + weight(s[2])
  {
    assert s[..2][..1][..0] == [];
    assert Sum(s[..2][..1], weight) == weight(s[0]);
  }

  lemma CrowdedRun() returns (run: seq<Action>)
    ensures Overtakes(Crowded(EXCLUSIVE_LOCKED, EXCLUSIVE_PENDING, Thread(Idle, 0, 0)), run)
  {
    hide Overtakes;
    run := WaiterAcquires(EXCLUSIVE_LOCKED - 1, EXCLUSIVE_PENDING - 2);
    run := OwnerReleases(EXCLUSIVE_LOCKED, EXCLUSIVE_PENDING - 1, run);
    run := OwnerReleases(EXCLUSIVE_LOCKED + 1, EXCLUSIVE_PENDING, run);
    run := NewcomerWaits(run);
  }

  // ---------------------------------------------------------------------------------------
  // The lock gets there.

  ghost predicate Reaches(start: State, s: State)
  {
    exists run :: Run(start, run) && After(start, run) == s
  }

  lemma ReachStep(start: State, s: State, a: Action, s': State)
    requires Reaches(start, s) && Enabled(s, a) && Step(s, a) == s'
    ensures Reaches(start, s')
  {
    var run :| Run(start, run) && After(start, run) == s;
    assert [a][1..] == [];
    RunConcat(start, run, [a]);
    assert Run(start, run + [a]);
  }

  lemma ReachesItself(start: State)
    ensures Reaches(start, start)
  {
    assert Run(start, []) && After(start, []) == start;
  }

  /** Three threads at a release build's lock. */
  function Three(word: Word, a: Thread, b: Thread, c: Thread): State { State(false, word, [a, b, c]) }

  /** The first thread's atomic operation; likewise for the others. */
  lemma FirstActs(start: State, word: Word, a: Thread, b: Thread, c: Thread, op: Op)
    requires Reaches(start, Three(word, a, b, c)) && EnabledLocally(a, op)
    ensures var (word', a') := LocalStep(false, word, a, op); Reaches(start, Three(word', a', b, c))
  {
    var s, next := Three(word, a, b, c), LocalStep(false, word, a, op);
    assert s.threads[0 := next.1] == [next.1, b, c];
    ReachStep(start, s, Act(0, op), Three(next.0, next.1, b, c));
  }

  lemma SecondActs(start: State, word: Word, a: Thread, b: Thread, c: Thread, op: Op)
    requires Reaches(start, Three(word, a, b, c)) && EnabledLocally(b, op)
    ensures var (word', b') := LocalStep(false, word, b, op); Reaches(start, Three(word', a, b', c))
  {
    var s, next := Three(word, a, b, c), LocalStep(false, word, b, op);
    assert s.threads[1 := next.1] == [a, next.1, c];
    ReachStep(start, s, Act(1, op), Three(next.0, a, next.1, c));
  }

  lemma ThirdActs(start: State, word: Word, a: Thread, b: Thread, c: Thread, op: Op)
    requires Reaches(start, Three(word, a, b, c)) && EnabledLocally(c, op)
    ensures var (word', c') := LocalStep(false, word, c, op); Reaches(start, Three(word', a, b, c'))
  {
    var s, next := Three(word, a, b, c), LocalStep(false, word, c, op);
    assert s.threads[2 := next.1] == [a, b, next.1];
    ReachStep(start, s, Act(2, op), Three(next.0, a, b, next.1));
  }

  function Owning(guards: nat): Thread { Thread(Idle, guards, 0) }

  function At(pc: Pc): Thread { Thread(pc, 0, 0) }

  const GO_ON := Continue(true, false)

  /** A reader gives way to a queued writer, which cancels; the reader is about to register for good. */
  lemma ReaderRejoins(start: State)
    requires start == Three(0, At(Idle), At(Idle), At(Idle))
    ensures Reaches(start, Three(1, Owning(1), At(Idle), At(Rejoin)))
  {
    ReachesItself(start);
    hide Reaches;
    FirstActs(start, 0, At(Idle), At(Idle), At(Idle), TryShared);
    WriterQueues(start, 1, At(Idle));
    ThirdActs(start, EXCLUSIVE_PENDING + 1, Owning(1), At(Convert(true)), At(Idle), LockShared(true));
    ThirdActs(start, EXCLUSIVE_PENDING + 2, Owning(1), At(Convert(true)), At(GiveWay), GO_ON);
    WriterCancels(start, At(Yielding));
    ThirdActs(start, 1, Owning(1), At(Idle), At(Yielding), GO_ON);
  }

  /** The second thread finds some guards out and queues up. */
  lemma WriterQueues(start: State, guards: nat, c: Thread)
    requires 0 < guards < EXCLUSIVE_PENDING && Reaches(start, Three(guards, Owning(guards), At(Idle), c))
    ensures Reaches(start, Three(guards + EXCLUSIVE_PENDING, Owning(guards), At(Convert(true)), c))
  {
    SecondActs(start, guards, Owning(guards), At(Idle), c, LockExclusive(true, false));
    SecondActs(start, guards, Owning(guards), At(Enqueue(guards)), c, GO_ON);
  }

  lemma WriterCancels(start: State, c: Thread)
    requires Reaches(start, Three(EXCLUSIVE_PENDING + 1, Owning(1), At(Convert(true)), c))
    ensures Reaches(start, Three(1, Owning(1), At(Idle), c))
  {
    SecondActs(start, EXCLUSIVE_PENDING + 1, Owning(1), At(Convert(true)), c, Continue(false, false));
    SecondActs(start, EXCLUSIVE_PENDING + 1, Owning(1), At(Cancel), c, GO_ON);
  }

  /** The first thread takes one guard after the other. */
  lemma {:induction false} GuardsPileUp(start: State, guards: nat)
    requires Reaches(start, Three(1, Owning(1), At(Idle), At(Rejoin))) && 0 < guards < EXCLUSIVE_PENDING
    ensures Reaches(start, Three(guards, Owning(guards), At(Idle), At(Rejoin)))
    decreases guards
  {
    if guards > 1 {
      GuardsPileUp(start, guards - 1);
      FirstActs(start, guards - 1, Owning(guards - 1), At(Idle), At(Rejoin), TryShared);
    }
  }

  /** The third thread sends its guard to the first. */
  lemma GuardIsSent(start: State, guards: nat)
    requires Reaches(start, Three(EXCLUSIVE_LOCKED, Owning(guards), At(Convert(true)), Owning(1)))
    ensures Reaches(start, Crowded(EXCLUSIVE_LOCKED, guards + 1, At(Idle)))
  {
    var s := Three(EXCLUSIVE_LOCKED, Owning(guards), At(Convert(true)), Owning(1));
    assert s.threads[2 := At(Idle)][0 := Owning(guards + 1)] == [Owning(guards + 1), At(Convert(true)), At(Idle)];
    ReachStep(start, s, GiveShared(2, 0), Crowded(EXCLUSIVE_LOCKED, guards + 1, At(Idle)));
  }

  lemma CrowdReached(start: State)
    requires start == Three(0, At(Idle), At(Idle), At(Idle))
    ensures Reaches(start, Crowded(EXCLUSIVE_LOCKED, EXCLUSIVE_PENDING, At(Idle)))
  {
    hide Reaches;
    var most := EXCLUSIVE_PENDING - 1;
    ReaderRejoins(start);
    GuardsPileUp(start, most);
    WriterQueues(start, most, At(Rejoin));
    ThirdActs(start, EXCLUSIVE_LOCKED - 1, Owning(most), At(Convert(true)), At(Rejoin), GO_ON);
    GuardIsSent(start, most);
  }

  /**
   Then it does overtake. A fresh lock gets into a state with 2^62 guards in one hand and a queued
   writer; from there a newcomer gets in once two of them are given back.
   */
  lemma CrowdedNewcomerOvertakes() returns (start: State, s: State, run: seq<Action>)
    ensures Init(start) && Reaches(start, s)
    ensures Inv(s) && !Headroom(s) && Run(s, run) && Window(s, run, 1)
    ensures |s.threads| == 3 && !Eligible(s.threads[2]) && SharedAcquisitionsBy(s, run, 2) == 1
  {
    start := Three(0, At(Idle), At(Idle), At(Idle));
    s := Crowded(EXCLUSIVE_LOCKED, EXCLUSIVE_PENDING, At(Idle));
    CrowdReached(start);
    run := CrowdedRun();
    CrowdedInv(s);
  }
}
