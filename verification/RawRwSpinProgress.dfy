/** A free lock is never stuck: a blocked requester can always be brought to acquire it. */
module RawRwSpinProgress {
  import opened Sums
  import opened Words
  import opened RawRwSpin
  import opened RawRwSpinSafety

  /** The thread is inside one of the blocking methods. */
  predicate Requesting(th: Thread)
  {
    th.pc.GiveWay? || th.pc.Yielding? || th.pc.Rejoin? || th.pc.Waiting? || th.pc.Enqueue? || th.pc.Convert?
  }

  /** It asks for a shared lock. */
  predicate WantsShared(th: Thread) { th.pc.GiveWay? || th.pc.Yielding? || th.pc.Rejoin? || th.pc.Waiting? }

  /** How many steps a thread may need before it holds the lock or is out of the way. */
  function Effort(th: Thread): nat
  {
    match th.pc
    case Idle => 0
    case BackOut => 1
    case Cancel => 1
    case Waiting => 1
    case Rejoin => 1
    case Convert(_) => 1
    case Enqueue(_) => 2
    case Yielding => 2
    case GiveWay => 3
  }

  function TotalEffort(s: State): nat { Sum(s.threads, Effort) }

  /** Nobody holds the lock, somebody wants it, and there are not absurdly many threads. */
  ghost predicate Stalled(s: State)
  {
    && Inv(s)
    && Holders(s) == 0 && Writers(s) == 0
    && |s.threads| <= SHARED_LOCK_THRESHOLD
    && exists t :: 0 <= t < |s.threads| && Requesting(s.threads[t])
  }

  /** The thread goes on, its closure says to keep trying, and no exchange fails without reason. */
  const KEEP_GOING := Continue(true, false)

  /** The run only lets threads that are already inside a method go on. */
  predicate Patient(run: seq<Action>)
  {
    forall i :: 0 <= i < |run| ==> run[i].Act? && run[i].op == KEEP_GOING
  }

  /** Without guards the reader count is at most the number of threads, so the debug check passes. */
  lemma FewReaders(s: State)
    requires Inv(s) && Holders(s) == 0
    ensures Readers(s) <= |s.threads|
    ensures forall t :: 0 <= t < |s.threads| ==> s.threads[t].shared == 0
  {
    forall t | 0 <= t < |s.threads|
      ensures s.threads[t].shared == 0
    {
      SumAtLeast(s.threads, SharedGuards, t);
    }
    SumAtMostOneEach(s.threads, Registered);
  }

  /** What a patient step does to a thread when the lock is free. */
  lemma LocalProgress(debug: bool, word: Word, th: Thread, r: nat, q: nat)
    requires !th.pc.Idle? && th.shared == 0 && th.exclusive == 0 && LocallySane(th)
    requires word == r + EXCLUSIVE_PENDING * q && q <= 1 && Registered(th) <= r <= SHARED_LOCK_THRESHOLD
    requires Queued(th) <= q
    requires th.pc.Convert? || th.pc.Enqueue? || th.pc.Yielding? ==> r == 0
    requires th.pc == Convert(false) || th.pc.Enqueue? || th.pc.Yielding? ==> q == 0
    ensures var th' := LocalStep(debug, word, th, KEEP_GOING).1;
      && (th.pc.Waiting? || th.pc.Rejoin? ==> th' == Thread(Idle, 1, 0))
      && (th.pc.Convert? ==> th' == Thread(Idle, 0, 1))
      && (!th.pc.Waiting? && !th.pc.Rejoin? && !th.pc.Convert? ==>
            && th'.shared == 0 && th'.exclusive == 0 && Effort(th') < Effort(th)
            && Registered(th') <= Registered(th)
            && (Requesting(th) ==> Requesting(th') && WantsShared(th') == WantsShared(th)))
  {
  }

  /** The thread to run next: readers that wait for good, then registrations to undo, then writers. */
  lemma NextThread(s: State) returns (t: nat)
    requires Stalled(s)
    ensures t < |s.threads| && !s.threads[t].pc.Idle?
    ensures s.threads[t].pc.Convert? || s.threads[t].pc.Enqueue? || s.threads[t].pc.Yielding? ==> Readers(s) == 0
    ensures s.threads[t].pc == Convert(false) || s.threads[t].pc.Enqueue? || s.threads[t].pc.Yielding? ==>
      QueuedWriters(s) == 0
  {
    FewReaders(s);
    if i :| 0 <= i < |s.threads| && (s.threads[i].pc.Waiting? || s.threads[i].pc.Rejoin?) {
      return i;
    }
    if Readers(s) > 0 {
      t := SumWitness(s.threads, Registered);
      return;
    }
    if QueuedWriters(s) > 0 {
      t := SumWitness(s.threads, Queued);
      return;
    }
    t :| 0 <= t < |s.threads| && Requesting(s.threads[t]);
  }

  /**
   Deadlock freedom. From every state in which nobody holds the lock and a request is open, a
   patient schedule of at most TotalEffort(s) steps hands out exactly one guard.
   */
  lemma {:induction false} FreeLockIsTaken(s: State) returns (run: seq<Action>)
    requires Stalled(s)
    ensures Run(s, run) && Patient(run) && |run| <= TotalEffort(s)
    ensures Holders(After(s, run)) + Writers(After(s, run)) == 1
    decreases TotalEffort(s)
  {
    var t := NextThread(s);
    var th, a := s.threads[t], Act(t, KEEP_GOING);
    var s' := Step(s, a);
    FreeStep(s, t);
    SumAtLeast(s.threads, Effort, t);
    if th.pc.Waiting? || th.pc.Rejoin? || th.pc.Convert? {
      run := [a];
      assert run[1..] == [];
    } else {
      var rest := FreeLockIsTaken(s');
      run := [a] + rest;
      assert run[1..] == rest;
    }
  }

  /** One patient step of the chosen thread takes the lock or leaves less to do. */
  lemma FreeStep(s: State, t: nat)
    requires Stalled(s) && t < |s.threads| && !s.threads[t].pc.Idle?
    requires s.threads[t].pc.Convert? || s.threads[t].pc.Enqueue? || s.threads[t].pc.Yielding? ==> Readers(s) == 0
    requires s.threads[t].pc == Convert(false) || s.threads[t].pc.Enqueue? || s.threads[t].pc.Yielding? ==>
      QueuedWriters(s) == 0
    ensures var th, s' := s.threads[t], Step(s, Act(t, KEEP_GOING));
      if th.pc.Waiting? || th.pc.Rejoin? || th.pc.Convert? then Holders(s') + Writers(s') == 1
      else Stalled(s') && TotalEffort(s') < TotalEffort(s)
  {
    var th, s' := s.threads[t], Step(s, Act(t, KEEP_GOING));
    FewReaders(s);
    ThreadFits(s, t);
    LocalProgress(s.debug, s.word, th, Readers(s), QueuedWriters(s));
    var th' := s'.threads[t];
    SumUpdate(s.threads, SharedGuards, t, th');
    SumUpdate(s.threads, ExclusiveGuards, t, th');
    SumUpdate(s.threads, Effort, t, th');
    SumUpdate(s.threads, Registered, t, th');
    if !(th.pc.Waiting? || th.pc.Rejoin? || th.pc.Convert?) {
      StepPreserves(s, Act(t, KEEP_GOING));
      var u :| 0 <= u < |s.threads| && Requesting(s.threads[u]);
      assert Requesting(s'.threads[u]);
    }
  }

  /**
   So from every reachable state: if nobody holds the lock and some thread is in a blocking method,
   then letting threads go on, at most TotalEffort times, hands out a guard.
   */
  lemma DeadlockFree(s: State, before: seq<Action>)
    requires Init(s) && |s.threads| <= SHARED_LOCK_THRESHOLD && Run(s, before)
    requires Holders(After(s, before)) == 0 && Writers(After(s, before)) == 0
    requires exists t :: 0 <= t < |After(s, before).threads| && Requesting(After(s, before).threads[t])
    ensures var e := After(s, before);
      exists run :: Run(e, run) && Patient(run) && |run| <= TotalEffort(e) && Holders(After(e, run)) + Writers(After(e, run)) == 1
  {
    InitInv(s);
    RunPreserves(s, before);
    RunKeepsThreads(s, before);
    var run := FreeLockIsTaken(After(s, before));
    assert Run(After(s, before), run);
  }

  // ---------------------------------------------------------------------------------------
  // Any chosen request.

  /** Whoever owns a guard is in none of the lock's methods, so it can give the guard back. */
  ghost predicate OwnersOutside(s: State)
  {
    forall t :: 0 <= t < |s.threads| && s.threads[t].shared + s.threads[t].exclusive > 0 ==> s.threads[t].pc.Idle?
  }

  /** Steps and guards that are left to a thread; acquiring uses up more than the guard adds. */
  function Burden(th: Thread): nat { 2 * Effort(th) + th.shared + th.exclusive }

  /** The run lets threads go on that are inside a method, and owners give guards back. */
  predicate Cooperative(run: seq<Action>)
  {
    forall i :: 0 <= i < |run| ==>
      run[i].Act? && (run[i].op == KEEP_GOING || run[i].op == UnlockShared || run[i].op == UnlockExclusive)
  }

  /** The guard that thread `th` asks for, once it has got it. */
  function Served(th: Thread): Thread { if WantsShared(th) then Thread(Idle, 1, 0) else Thread(Idle, 0, 1) }

  /** With all guards given back, the thread to run next for the sake of `t`. */
  lemma NextFor(s: State, t: nat) returns (u: nat)
    requires Inv(s) && Holders(s) == 0 && Writers(s) == 0 && t < |s.threads| && Requesting(s.threads[t])
    ensures u < |s.threads| && !s.threads[u].pc.Idle?
    ensures s.threads[u].pc.Convert? || s.threads[u].pc.Enqueue? || s.threads[u].pc.Yielding? ==> Readers(s) == 0
    ensures s.threads[u].pc == Convert(false) || s.threads[u].pc.Enqueue? || s.threads[u].pc.Yielding? ==>
      QueuedWriters(s) == 0
  {
    u := t;
    var pc := s.threads[t].pc;
    if pc.Convert? || pc.Enqueue? || pc.Yielding? {
      FewReaders(s);
      if Readers(s) > 0 {
        u := SumWitness(s.threads, Registered);
      } else if pc != Convert(true) && QueuedWriters(s) > 0 {
        u := SumWitness(s.threads, Queued);
      }
    }
  }

  /** A step towards the goal: less burden, and a request is open as before or has been served. */
  predicate Steps(th: Thread, th': Thread)
  {
    && Burden(th') < Burden(th)
    && (th'.shared + th'.exclusive > 0 ==> th'.pc.Idle?)
    && (Requesting(th) ==> th' == Served(th) || (Requesting(th') && WantsShared(th') == WantsShared(th)))
  }

  /** What the lock's state means for a thread that is inside a method, with all guards given back. */
  lemma InsideFacts(s: State, u: nat)
    requires Inv(s) && Holders(s) == 0 && Writers(s) == 0 && |s.threads| <= SHARED_LOCK_THRESHOLD && u < |s.threads|
    ensures var th := s.threads[u];
      && th.shared == 0 && th.exclusive == 0 && LocallySane(th)
      && s.word == Readers(s) + EXCLUSIVE_PENDING * QueuedWriters(s) && QueuedWriters(s) <= 1
      && Registered(th) <= Readers(s) <= SHARED_LOCK_THRESHOLD && Queued(th) <= QueuedWriters(s)
  {
    FewReaders(s);
    SumAtLeast(s.threads, ExclusiveGuards, u);
    ThreadFits(s, u);
  }

  /** One thread's step towards its guard, or out of the way. */
  lemma LocalSteps(debug: bool, word: Word, th: Thread, r: nat, q: nat)
    requires !th.pc.Idle? && th.shared == 0 && th.exclusive == 0 && LocallySane(th)
    requires word == r + EXCLUSIVE_PENDING * q && q <= 1 && Registered(th) <= r <= SHARED_LOCK_THRESHOLD
    requires Queued(th) <= q
    requires th.pc.Convert? || th.pc.Enqueue? || th.pc.Yielding? ==> r == 0
    requires th.pc == Convert(false) || th.pc.Enqueue? || th.pc.Yielding? ==> q == 0
    ensures Steps(th, LocalStep(debug, word, th, KEEP_GOING).1)
  {
    LocalProgress(debug, word, th, r, q);
    hide LocalStep;
  }

  lemma NextForStep(s: State, u: nat)
    requires Inv(s) && Holders(s) == 0 && Writers(s) == 0 && |s.threads| <= SHARED_LOCK_THRESHOLD
    requires u < |s.threads| && !s.threads[u].pc.Idle?
    requires s.threads[u].pc.Convert? || s.threads[u].pc.Enqueue? || s.threads[u].pc.Yielding? ==> Readers(s) == 0
    requires s.threads[u].pc == Convert(false) || s.threads[u].pc.Enqueue? || s.threads[u].pc.Yielding? ==>
      QueuedWriters(s) == 0
    ensures Steps(s.threads[u], Step(s, Act(u, KEEP_GOING)).threads[u])
    ensures Step(s, Act(u, KEEP_GOING)).threads == s.threads[u := Step(s, Act(u, KEEP_GOING)).threads[u]]
  {
    hide LocalStep, Steps, Inv;
    InsideFacts(s, u);
    LocalSteps(s.debug, s.word, s.threads[u], Readers(s), QueuedWriters(s));
  }

  /** The next action for the sake of `t`. */
  lemma NextActionFor(s: State, t: nat) returns (a: Action)
    requires Inv(s) && OwnersOutside(s) && |s.threads| <= SHARED_LOCK_THRESHOLD && t < |s.threads|
    requires Requesting(s.threads[t])
    ensures Enabled(s, a) && Cooperative([a])
    ensures Steps(s.threads[a.t], Step(s, a).threads[a.t])
    ensures Step(s, a).threads == s.threads[a.t := Step(s, a).threads[a.t]]
  {
    if Holders(s) > 0 {
      var u := SumWitness(s.threads, SharedGuards);
      a := Act(u, UnlockShared);
    } else if Writers(s) > 0 {
      var u := SumWitness(s.threads, ExclusiveGuards);
      a := Act(u, UnlockExclusive);
    } else {
      var u := NextFor(s, t);
      NextForStep(s, u);
      a := Act(u, KEEP_GOING);
    }
  }

  lemma StepsKeep(s: State, s': State, u: nat)
    requires OwnersOutside(s) && u < |s.threads| == |s'.threads| && s'.threads == s.threads[u := s'.threads[u]]
    requires Steps(s.threads[u], s'.threads[u])
    ensures OwnersOutside(s') && Sum(s'.threads, Burden) < Sum(s.threads, Burden)
  {
    SumUpdate(s.threads, Burden, u, s'.threads[u]);
  }

  lemma {:induction false} RequestIsServed(s: State, t: nat) returns (run: seq<Action>)
    requires Inv(s) && OwnersOutside(s) && |s.threads| <= SHARED_LOCK_THRESHOLD && t < |s.threads|
    requires Requesting(s.threads[t])
    ensures Run(s, run) && Cooperative(run) && |run| <= Sum(s.threads, Burden)
    ensures |After(s, run).threads| == |s.threads| && After(s, run).threads[t] == Served(s.threads[t])
    decreases Sum(s.threads, Burden)
  {
    var a := NextActionFor(s, t);
    var s' := Step(s, a);
    StepsKeep(s, s', a.t);
    StepPreserves(s, a);
    if s'.threads[t] == Served(s.threads[t]) {
      run := [a];
      assert run[1..] == [];
    } else {
      var rest := RequestIsServed(s', t);
      run := [a] + rest;
      assert run[1..] == rest;
    }
  }

  /** Owners give guards back and threads go on, and thread `t` gets the guard it asks for. */
  ghost predicate CanBeServed(s: State, t: nat)
    requires t < |s.threads|
  {
    exists run :: Run(s, run) && Cooperative(run) && |run| <= Sum(s.threads, Burden)
      && t < |After(s, run).threads| && After(s, run).threads[t] == Served(s.threads[t])
  }

  lemma InvServed(s: State, t: nat)
    requires Inv(s) && OwnersOutside(s) && |s.threads| <= SHARED_LOCK_THRESHOLD && t < |s.threads|
    requires Requesting(s.threads[t])
    ensures CanBeServed(s, t)
  {
    var run := RequestIsServed(s, t);
    assert Run(s, run);
  }

  /**
   From every reachable state in which the owners of guards are outside of the lock's methods, for
   every open request, shared or exclusive: if owners give their guards back and threads go on, some
   schedule gives that very thread the guard it asks for.
   */
  lemma AnyRequestIsServed(s: State, before: seq<Action>, t: nat)
    requires Init(s) && |s.threads| <= SHARED_LOCK_THRESHOLD && Run(s, before)
    requires OwnersOutside(After(s, before))
    requires t < |After(s, before).threads| && Requesting(After(s, before).threads[t])
    ensures CanBeServed(After(s, before), t)
  {
    InitInv(s);
    RunPreserves(s, before);
    RunKeepsThreads(s, before);
    InvServed(After(s, before), t);
  }
}
