/**
 Exact accounting of the lock word and mutual exclusion in every build, and the bound on the reader
 count in debug builds.
 */
module RawRwSpinSafety {
  import opened Sums
  import opened Words
  import opened RawRwSpin

  /** How often a thread is counted in the low bits: its shared guards and an open registration. */
  function Registered(th: Thread): nat
  {
    th.shared + if th.pc.BackOut? || th.pc.GiveWay? || th.pc.Waiting? then 1 else 0
  }

  function Queued(th: Thread): nat { if th.pc.Cancel? || th.pc == Convert(true) then 1 else 0 }

  function SharedGuards(th: Thread): nat { th.shared }

  function ExclusiveGuards(th: Thread): nat { th.exclusive }

  function Readers(s: State): nat { Sum(s.threads, Registered) }

  function QueuedWriters(s: State): nat { Sum(s.threads, Queued) }

  function Holders(s: State): nat { Sum(s.threads, SharedGuards) }

  function Writers(s: State): nat { Sum(s.threads, ExclusiveGuards) }

  /** More threads than any machine has. */
  const MAX_THREADS: nat := EXCLUSIVE_PENDING / 2 - 2

  /** The word says exactly who is registered, queued and holding. */
  predicate Accounted(s: State)
  {
    && s.word == Readers(s) + EXCLUSIVE_PENDING * QueuedWriters(s) + EXCLUSIVE_LOCKED * Writers(s)
    && QueuedWriters(s) + Writers(s) <= 1
    && (Writers(s) > 0 ==> Holders(s) == 0)
  }

  predicate LocallySane(th: Thread) { th.pc.Enqueue? ==> 0 < th.pc.seen < EXCLUSIVE_PENDING }

  /** Shared guards, and readers that may get one without giving way. */
  function Entitled(th: Thread): nat { th.shared + if th.pc.Rejoin? || th.pc.Waiting? then 1 else 0 }

  /**
   Guards can be re-entrant, but a request finds the count below EXCLUSIVE_PENDING before it becomes
   entitled, or finds a writer. So each thread can push the count past that mark by one at most.
   */
  ghost predicate Crowd(s: State)
  {
    && |s.threads| <= MAX_THREADS
    && Sum(s.threads, Entitled) <= EXCLUSIVE_PENDING + |s.threads|
    && (QueuedWriters(s) > 0 ==> Holders(s) <= EXCLUSIVE_PENDING)
  }

  ghost predicate Inv(s: State)
  {
    && Accounted(s)
    && Crowd(s)
    && (forall t :: 0 <= t < |s.threads| ==> LocallySane(s.threads[t]))
  }

  /** The word `word` with thread `th` among others that weigh `r`, `h`, `q` and `x` in the four counts. */
  predicate Fits(word: Word, th: Thread, r: nat, h: nat, q: nat, x: nat)
  {
    && word == (r + Registered(th)) + EXCLUSIVE_PENDING * (q + Queued(th)) + EXCLUSIVE_LOCKED * (x + th.exclusive)
    && q + Queued(th) + x + th.exclusive <= 1
    && (x + th.exclusive > 0 ==> h + th.shared == 0)
    && LocallySane(th)
  }

  /** Starting a shared method. */
  lemma LocalStartShared(debug: bool, word: Word, th: Thread, op: Op, r: nat, h: nat, q: nat, x: nat)
    requires th.pc.Idle? && (op.TryShared? || op.LockShared?)
    requires Fits(word, th, r, h, q, x) && r + Registered(th) < EXCLUSIVE_LOCKED - 1 && h <= r
    ensures var (word', th') := LocalStep(debug, word, th, op); Fits(word', th', r, h, q, x)
  {
  }

  /** Starting an exclusive method, or unlocking. */
  lemma LocalStartOther(debug: bool, word: Word, th: Thread, op: Op, r: nat, h: nat, q: nat, x: nat)
    requires EnabledLocally(th, op) && !op.Continue? && !op.TryShared? && !op.LockShared?
    requires Fits(word, th, r, h, q, x) && r + Registered(th) < EXCLUSIVE_LOCKED - 1 && h <= r
    ensures var (word', th') := LocalStep(debug, word, th, op); Fits(word', th', r, h, q, x)
  {
  }

  /** Unregistering. */
  lemma LocalUnregister(debug: bool, word: Word, th: Thread, op: Op, r: nat, h: nat, q: nat, x: nat)
    requires op.Continue? && (th.pc.BackOut? || th.pc.GiveWay?)
    requires Fits(word, th, r, h, q, x) && r + Registered(th) < EXCLUSIVE_LOCKED - 1 && h <= r
    ensures var (word', th') := LocalStep(debug, word, th, op); Fits(word', th', r, h, q, x)
  {
  }

  /** Going on inside a shared method. */
  lemma LocalReader(debug: bool, word: Word, th: Thread, op: Op, r: nat, h: nat, q: nat, x: nat)
    requires op.Continue? && (th.pc.BackOut? || th.pc.GiveWay? || th.pc.Yielding? || th.pc.Rejoin? || th.pc.Waiting?)
    requires Fits(word, th, r, h, q, x) && r + Registered(th) < EXCLUSIVE_LOCKED - 1 && h <= r
    ensures var (word', th') := LocalStep(debug, word, th, op); Fits(word', th', r, h, q, x)
  {
    if th.pc.BackOut? || th.pc.GiveWay? {
      LocalUnregister(debug, word, th, op, r, h, q, x);
    }
  }

  /** Going on inside an exclusive method. */
  lemma LocalWriter(debug: bool, word: Word, th: Thread, op: Op, r: nat, h: nat, q: nat, x: nat)
    requires op.Continue? && (th.pc.Enqueue? || th.pc.Convert? || th.pc.Cancel?)
    requires Fits(word, th, r, h, q, x) && r + Registered(th) < EXCLUSIVE_LOCKED - 1 && h <= r
    ensures var (word', th') := LocalStep(debug, word, th, op); Fits(word', th', r, h, q, x)
  {
  }

  /** Every atomic operation keeps the word in step with its thread. */
  lemma LocalPreserves(debug: bool, word: Word, th: Thread, op: Op, r: nat, h: nat, q: nat, x: nat)
    requires EnabledLocally(th, op)
    requires Fits(word, th, r, h, q, x) && r + Registered(th) < EXCLUSIVE_LOCKED - 1 && h <= r
    ensures Fits(LocalStep(debug, word, th, op).0, LocalStep(debug, word, th, op).1, r, h, q, x)
  {
    if op.TryShared? || op.LockShared? {
      LocalStartShared(debug, word, th, op, r, h, q, x);
    } else if !op.Continue? {
      LocalStartOther(debug, word, th, op, r, h, q, x);
    } else if th.pc.Enqueue? || th.pc.Convert? || th.pc.Cancel? {
      LocalWriter(debug, word, th, op, r, h, q, x);
    } else {
      LocalReader(debug, word, th, op, r, h, q, x);
    }
  }

  /** A thread gets entitled only if that leaves few guards, and a queue finds few guards. */
  lemma LocalCrowd(debug: bool, word: Word, th: Thread, op: Op, r: nat, h: nat, q: nat, x: nat)
    requires EnabledLocally(th, op)
    requires Fits(word, th, r, h, q, x) && r + Registered(th) < EXCLUSIVE_LOCKED - 1 && h <= r
    requires q + Queued(th) > 0 ==> h + th.shared <= EXCLUSIVE_PENDING
    ensures var th' := LocalStep(debug, word, th, op).1;
      && (q + Queued(th') > 0 ==> h + th'.shared <= EXCLUSIVE_PENDING)
      && (Entitled(th') <= Entitled(th) || h + th'.shared <= EXCLUSIVE_PENDING)
  {
  }

  /** Readers that are about to unregister. */
  function Transient(th: Thread): nat { if th.pc.BackOut? || th.pc.GiveWay? then 1 else 0 }

  function Counted(th: Thread): nat { Entitled(th) + Transient(th) }

  function Entering(th: Thread): nat { if th.pc.Rejoin? || th.pc.Waiting? then 1 else 0 }

  /** The count of readers stays far from EXCLUSIVE_LOCKED. */
  lemma CrowdBound(s: State)
    requires Crowd(s)
    ensures Readers(s) <= EXCLUSIVE_PENDING + 2 * |s.threads| < EXCLUSIVE_LOCKED - 2
  {
    SumSplit(s.threads, Counted, Entitled, Transient);
    SumAtMostOneEach(s.threads, Transient);
    SumMonotone(s.threads, Registered, Counted);
  }

  /** Thread `t` fits among the others. */
  lemma ThreadFits(s: State, t: nat)
    requires Inv(s) && t < |s.threads|
    ensures Registered(s.threads[t]) <= Readers(s) < EXCLUSIVE_LOCKED - 2 && s.threads[t].shared <= Holders(s)
    ensures Queued(s.threads[t]) <= QueuedWriters(s) && s.threads[t].exclusive <= Writers(s)
    ensures Holders(s) - s.threads[t].shared <= Readers(s) - Registered(s.threads[t])
  {
    SumAtLeast(s.threads, Registered, t);
    SumAtLeast(s.threads, SharedGuards, t);
    SumAtLeast(s.threads, Queued, t);
    SumAtLeast(s.threads, ExclusiveGuards, t);
    OthersRegistered(s, t);
    CrowdBound(s);
  }

  /** The accounting survives replacing one thread by another that fits among the rest. */
  lemma ReplacePreserves(s: State, t: nat, word': Word, th': Thread, s': State)
    requires Inv(s) && t < |s.threads|
    requires var th := s.threads[t];
      && Registered(th) <= Readers(s) && th.shared <= Holders(s)
      && Queued(th) <= QueuedWriters(s) && th.exclusive <= Writers(s)
      && Fits(word', th', Readers(s) - Registered(th), Holders(s) - th.shared,
              QueuedWriters(s) - Queued(th), Writers(s) - th.exclusive)
    requires s' == s.(word := word', threads := s.threads[t := th'])
    ensures Accounted(s') && forall u :: 0 <= u < |s'.threads| ==> LocallySane(s'.threads[u])
    ensures Holders(s') == Holders(s) - s.threads[t].shared + th'.shared
    ensures QueuedWriters(s') == QueuedWriters(s) - Queued(s.threads[t]) + Queued(th')
  {
    SumUpdate(s.threads, Registered, t, th');
    SumUpdate(s.threads, SharedGuards, t, th');
    SumUpdate(s.threads, Queued, t, th');
    SumUpdate(s.threads, ExclusiveGuards, t, th');
  }

  lemma ReplaceCrowd(s: State, t: nat, th': Thread, s': State)
    requires Crowd(s) && t < |s.threads| && s'.threads == s.threads[t := th']
    requires QueuedWriters(s') > 0 ==> Holders(s') <= EXCLUSIVE_PENDING
    requires Entitled(th') <= Entitled(s.threads[t]) || Holders(s') <= EXCLUSIVE_PENDING
    ensures Crowd(s')
  {
    SumUpdate(s.threads, Entitled, t, th');
    SumSplit(s'.threads, Entitled, SharedGuards, Entering);
    SumAtMostOneEach(s'.threads, Entering);
  }

  /** Every step of any thread keeps the accounting. */
  lemma StepPreserves(s: State, a: Action)
    requires Inv(s) && Enabled(s, a)
    ensures Inv(Step(s, a))
  {
    match a
    case Act(t, op) =>
      ActPreserves(s, t, op);
    case GiveShared(t, to) =>
      GivePreserves(s, a, t, to);
    case GiveExclusive(t, to) =>
      GivePreserves(s, a, t, to);
  }

  lemma ActPreserves(s: State, t: nat, op: Op)
    requires Inv(s) && Enabled(s, Act(t, op))
    ensures Inv(Step(s, Act(t, op)))
  {
    hide LocalStep, Fits, LocallySane;
    var th := s.threads[t];
    var r, h := Readers(s) - Registered(th), Holders(s) - th.shared;
    var q, x := QueuedWriters(s) - Queued(th), Writers(s) - th.exclusive;
    ThreadFits(s, t);
    LocalPreserves(s.debug, s.word, th, op, r, h, q, x);
    LocalCrowd(s.debug, s.word, th, op, r, h, q, x);
    var next := LocalStep(s.debug, s.word, th, op);
    ReplacePreserves(s, t, next.0, next.1, Step(s, Act(t, op)));
    ReplaceCrowd(s, t, next.1, Step(s, Act(t, op)));
  }

  /** The guards of the threads other than `t` are all registered. */
  lemma OthersRegistered(s: State, t: nat)
    requires t < |s.threads|
    ensures Holders(s) - s.threads[t].shared <= Readers(s) - Registered(s.threads[t])
  {
    var rest := s.threads[t := Thread(Idle, 0, 0)];
    SumUpdate(s.threads, Registered, t, Thread(Idle, 0, 0));
    SumUpdate(s.threads, SharedGuards, t, Thread(Idle, 0, 0));
    SumMonotone(rest, SharedGuards, Registered);
  }

  /** Moving a guard from one thread to another leaves a total as it is. */
  lemma SumGive(s: seq<Thread>, weight: Thread -> nat, t: nat, giver: Thread, to: nat, taker: Thread)
    requires t < |s| && to < |s| && t != to
    requires weight(giver) + weight(taker) == weight(s[t]) + weight(s[to])
    ensures Sum(s[t := giver][to := taker], weight) == Sum(s, weight)
  {
    SumUpdate(s, weight, t, giver);
    SumUpdate(s[t := giver], weight, to, taker);
  }

  /** Sending a guard to another thread changes no count. */
  lemma GivePreserves(s: State, a: Action, t: nat, to: nat)
    requires Inv(s) && Enabled(s, a) && (a == GiveShared(t, to) || a == GiveExclusive(t, to))
    ensures Inv(Step(s, a))
  {
    var s' := Step(s, a);
    var giver, taker := s'.threads[t], s'.threads[to];
    SumGive(s.threads, Registered, t, giver, to, taker);
    SumGive(s.threads, SharedGuards, t, giver, to, taker);
    SumGive(s.threads, Queued, t, giver, to, taker);
    SumGive(s.threads, ExclusiveGuards, t, giver, to, taker);
    SumGive(s.threads, Entitled, t, giver, to, taker);
  }

  lemma InitInv(s: State)
    requires Init(s) && |s.threads| <= MAX_THREADS
    ensures Inv(s)
  {
    SumZero(s.threads, Registered);
    SumZero(s.threads, SharedGuards);
    SumZero(s.threads, Queued);
    SumZero(s.threads, ExclusiveGuards);
    SumZero(s.threads, Entitled);
  }

  lemma {:induction false} RunPreserves(s: State, run: seq<Action>)
    requires Inv(s) && Run(s, run)
    ensures Inv(After(s, run))
    decreases |run|
  {
    if run != [] {
      StepPreserves(s, run[0]);
      RunPreserves(Step(s, run[0]), run[1..]);
    }
  }

  /** What the accounting means for the guards: one writer alone, or readers only. */
  ghost predicate Exclusive(s: State)
  {
    && (forall t, u :: 0 <= t < |s.threads| && 0 <= u < |s.threads| && s.threads[t].exclusive > 0 ==>
          s.threads[u].shared == 0)
    && (forall t, u :: 0 <= t < u < |s.threads| ==> s.threads[t].exclusive + s.threads[u].exclusive <= 1)
    && (forall t :: 0 <= t < |s.threads| ==> s.threads[t].exclusive <= 1)
  }

  lemma InvExclusive(s: State)
    requires Inv(s)
    ensures Exclusive(s)
  {
    forall t, u | 0 <= t < |s.threads| && 0 <= u < |s.threads| && s.threads[t].exclusive > 0
      ensures s.threads[u].shared == 0
    {
      SumAtLeast(s.threads, ExclusiveGuards, t);
      SumAtLeast(s.threads, SharedGuards, u);
    }
    forall t, u | 0 <= t < u < |s.threads|
      ensures s.threads[t].exclusive + s.threads[u].exclusive <= 1
    {
      SumAtLeastTwo(s.threads, ExclusiveGuards, t, u);
    }
    forall t | 0 <= t < |s.threads|
      ensures s.threads[t].exclusive <= 1
    {
      SumAtLeast(s.threads, ExclusiveGuards, t);
    }
  }

  /**
   Accounting and mutual exclusion in every reachable state, whatever the build and however often
   guards are taken again by a thread that owns one.
   */
  lemma MutualExclusion(s: State, run: seq<Action>)
    requires Init(s) && |s.threads| <= MAX_THREADS && Run(s, run)
    ensures Accounted(After(s, run)) && Exclusive(After(s, run))
  {
    InitInv(s);
    RunPreserves(s, run);
    InvExclusive(After(s, run));
  }

  // ---------------------------------------------------------------------------------------
  // Headroom, and the debug build, which always has it.

  /** There is room for the reader count below EXCLUSIVE_PENDING. */
  predicate Headroom(s: State) { Readers(s) < EXCLUSIVE_PENDING }

  /** Every state that `run` passes through has headroom. */
  predicate Roomy(s: State, run: seq<Action>)
    requires Run(s, run)
    decreases |run|
  {
    Headroom(s) && (run != [] ==> Roomy(Step(s, run[0]), run[1..]))
  }

  /** Registrations that passed the debug check. */
  function Admitted(th: Thread): nat
  {
    th.shared + if th.pc.GiveWay? || th.pc.Waiting? then 1 else 0
  }

  /** Registrations that are about to be taken back. */
  function Leaving(th: Thread): nat { if th.pc.BackOut? then 1 else 0 }

  ghost predicate DebugInv(s: State)
  {
    Inv(s) && s.debug && Sum(s.threads, Admitted) <= SHARED_LOCK_THRESHOLD + 1
  }

  /** Only a thread that found a small count is admitted. */
  lemma LocalAdmission(word: Word, th: Thread, op: Op, r: nat, w: nat)
    requires EnabledLocally(th, op)
    requires r < EXCLUSIVE_PENDING && w <= 2 && word == r + EXCLUSIVE_PENDING * w
    ensures var th' := LocalStep(true, word, th, op).1;
      Admitted(th') <= Admitted(th) || (Admitted(th') == Admitted(th) + 1 && r <= SHARED_LOCK_THRESHOLD)
  {
  }

  lemma ReadersSplit(s: State)
    ensures Readers(s) == Sum(s.threads, Admitted) + Sum(s.threads, Leaving)
    ensures Sum(s.threads, Leaving) <= |s.threads|
  {
    SumSplit(s.threads, Registered, Admitted, Leaving);
    SumAtMostOneEach(s.threads, Leaving);
  }

  lemma DebugHeadroom(s: State)
    requires DebugInv(s)
    ensures Headroom(s) && Readers(s) <= SHARED_LOCK_THRESHOLD + 1 + |s.threads|
  {
    ReadersSplit(s);
  }

  lemma AdmissionUpdate(s: State, t: nat, th': Thread)
    requires DebugInv(s) && t < |s.threads|
    requires Admitted(th') <= Admitted(s.threads[t])
      || (Admitted(th') == Admitted(s.threads[t]) + 1 && Readers(s) <= SHARED_LOCK_THRESHOLD)
    ensures Sum(s.threads[t := th'], Admitted) <= SHARED_LOCK_THRESHOLD + 1
  {
    ReadersSplit(s);
    SumUpdate(s.threads, Admitted, t, th');
  }

  lemma AdmissionGive(s: State, a: Action, t: nat, to: nat)
    requires DebugInv(s) && Enabled(s, a) && (a == GiveShared(t, to) || a == GiveExclusive(t, to))
    ensures Sum(Step(s, a).threads, Admitted) <= SHARED_LOCK_THRESHOLD + 1
  {
    SumGive(s.threads, Admitted, t, Step(s, a).threads[t], to, Step(s, a).threads[to]);
  }

  lemma AdmissionAct(s: State, t: nat, op: Op)
    requires DebugInv(s) && t < |s.threads| && EnabledLocally(s.threads[t], op)
    ensures Sum(s.threads[t := LocalStep(s.debug, s.word, s.threads[t], op).1], Admitted) <= SHARED_LOCK_THRESHOLD + 1
  {
    DebugHeadroom(s);
    LocalAdmission(s.word, s.threads[t], op, Readers(s), QueuedWriters(s) + 2 * Writers(s));
    AdmissionUpdate(s, t, LocalStep(s.debug, s.word, s.threads[t], op).1);
  }

  lemma AdmissionStep(s: State, a: Action)
    requires DebugInv(s) && Enabled(s, a)
    ensures Sum(Step(s, a).threads, Admitted) <= SHARED_LOCK_THRESHOLD + 1
  {
    match a
    case Act(t, op) => AdmissionAct(s, t, op);
    case GiveShared(t, to) => AdmissionGive(s, a, t, to);
    case GiveExclusive(t, to) => AdmissionGive(s, a, t, to);
  }

  /** With debug checks every run is roomy. */
  lemma {:induction false} DebugIsRoomy(s: State, run: seq<Action>)
    requires DebugInv(s) && Run(s, run)
    ensures Roomy(s, run) && DebugInv(After(s, run))
    decreases |run|
  {
    DebugHeadroom(s);
    if run != [] {
      AdmissionStep(s, run[0]);
      StepPreserves(s, run[0]);
      DebugIsRoomy(Step(s, run[0]), run[1..]);
    }
  }

  /**
   With debug checks the reader count stays at most SHARED_LOCK_THRESHOLD + 1 + the number of
   threads, re-entrant guards included, and so never reaches EXCLUSIVE_PENDING.
   */
  lemma DebugBound(s: State, run: seq<Action>)
    requires Init(s) && s.debug && |s.threads| <= MAX_THREADS && Run(s, run)
    ensures Readers(After(s, run)) <= SHARED_LOCK_THRESHOLD + 1 + |s.threads| < EXCLUSIVE_PENDING
    ensures Roomy(s, run)
  {
    InitInv(s);
    SumZero(s.threads, Admitted);
    DebugIsRoomy(s, run);
    RunKeepsThreads(s, run);
    DebugHeadroom(After(s, run));
  }

  lemma {:induction false} RunKeepsThreads(s: State, run: seq<Action>)
    requires Run(s, run)
    ensures |After(s, run).threads| == |s.threads| && After(s, run).debug == s.debug
    decreases |run|
  {
    if run != [] {
      RunKeepsThreads(Step(s, run[0]), run[1..]);
    }
  }
}
