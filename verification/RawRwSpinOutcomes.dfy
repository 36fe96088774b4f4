/**
 What every operation of the spin lock comes to, said in the numbers of readers registered, writers
 queued and writers holding. A thread decides on the word it finds; these lemmas say what that
 decision is, for every state that keeps the accounting, and so for every reachable one.
 */
module RawRwSpinOutcomes {
  import opened Sums
  import opened Words
  import opened RawRwSpin
  import opened RawRwSpinSafety
  import opened RawRwSpinFairness

  /** Nobody is queued or holds for writing. */
  predicate NoWriter(s: State) { QueuedWriters(s) == 0 && Writers(s) == 0 }

  /** The debug build finds too many readers. */
  predicate Overcrowded(s: State) { s.debug && Readers(s) > SHARED_LOCK_THRESHOLD }

  /**
   What a reader takes for a held lock, and for a queued writer. With fewer than EXCLUSIVE_PENDING readers it
   is right; more of them look like one writer more.
   */
  predicate LooksHeld(s: State) { Writers(s) == 1 || (QueuedWriters(s) == 1 && !Headroom(s)) }

  predicate LooksQueued(s: State) { if Headroom(s) then QueuedWriters(s) == 1 else NoWriter(s) }

  /** The accounting, and room for the count in a debug build: what every reachable state has. */
  ghost predicate Sound(s: State) { Inv(s) && (s.debug ==> Headroom(s)) }

  predicate IdleAt(s: State, t: nat) { t < |s.threads| && s.threads[t].pc.Idle? }

  /** Thread `t` is `th` now and the word `word`; nothing else has changed. */
  predicate Became(s: State, s': State, t: nat, word: int, th: Thread)
  {
    t < |s.threads| && 0 <= word < USIZE_SIZE && s' == s.(word := word, threads := s.threads[t := th])
  }

  /** A word made up of `r`, `q` and `x` in the three places. */
  lemma WordParts(word: Word, r: nat, q: nat, x: nat)
    requires word == r + EXCLUSIVE_PENDING * q + EXCLUSIVE_LOCKED * x && q + x <= 1
    requires r < EXCLUSIVE_LOCKED - 1
    ensures word < EXCLUSIVE_PENDING <==> q == 0 && x == 0 && r < EXCLUSIVE_PENDING
    ensures word == 0 <==> r == 0 && q == 0 && x == 0
    ensures word >= EXCLUSIVE_LOCKED <==> x == 1 || (q == 1 && r >= EXCLUSIVE_PENDING)
    ensures word < USIZE_SIZE - 1
    ensures r < EXCLUSIVE_PENDING ==> (TooMany(word) <==> r > SHARED_LOCK_THRESHOLD)
  {
    assert (q == 0 || q == 1) && (x == 0 || x == 1);
  }

  /** What can be read off the word. */
  lemma WordMeans(s: State)
    requires Inv(s)
    ensures s.word < EXCLUSIVE_PENDING <==> NoWriter(s) && Headroom(s)
    ensures s.word == 0 <==> Readers(s) == 0 && NoWriter(s)
    ensures s.word >= EXCLUSIVE_LOCKED <==> LooksHeld(s)
    ensures EXCLUSIVE_PENDING <= s.word < EXCLUSIVE_LOCKED <==> LooksQueued(s)
    ensures Headroom(s) ==> (TooMany(s.word) <==> Readers(s) > SHARED_LOCK_THRESHOLD)
    ensures s.word < USIZE_SIZE - 1
  {
    CrowdBound(s);
    WordParts(s.word, Readers(s), QueuedWriters(s), Writers(s));
  }

  /** Every reachable state has it. */
  lemma Reached(s: State, run: seq<Action>)
    requires Init(s) && |s.threads| <= MAX_THREADS && Run(s, run)
    ensures Sound(After(s, run))
  {
    InitInv(s);
    RunPreserves(s, run);
    RunKeepsThreads(s, run);
    if s.debug {
      DebugBound(s, run);
    }
  }

  // ---------------------------------------------------------------------------------------
  // Shared requests.

  /** A shared request may have the lock at once: no writer, room for the count and, in debug builds, few readers. */
  predicate Open(s: State) { NoWriter(s) && Headroom(s) && !Overcrowded(s) }

  /**
   `try_lock_shared` answers yes exactly if the lock is open. If not, its thread has only to take back
   its registration, and then everything is as it was.
   */
  lemma TrySharedOutcome(s: State, t: nat, cond: bool, spurious: bool)
    requires Inv(s) && IdleAt(s, t)
    ensures var th, s' := s.threads[t], Step(s, Act(t, TryShared));
      if Open(s) then
        Became(s, s', t, s.word + 1, th.(shared := th.shared + 1))
      else
        && Became(s, s', t, s.word + 1, th.(pc := BackOut))
        && Step(s', Act(t, Continue(cond, spurious))) == s
  {
    WordMeans(s);
    if !Open(s) {
      assert s.threads[t := s.threads[t].(pc := BackOut)][t := s.threads[t]] == s.threads;
    }
  }

  /** The first fetch_add of `lock_shared_while`. */
  lemma LockSharedOutcome(s: State, t: nat, cond: bool)
    requires Sound(s) && IdleAt(s, t)
    ensures var th := s.threads[t];
      Became(s, Step(s, Act(t, LockShared(cond))), t, s.word + 1,
             if Open(s) then th.(shared := th.shared + 1)
             else if Overcrowded(s) then th.(pc := BackOut)
             else if LooksQueued(s) then th.(pc := GiveWay)
             else th.(pc := if cond then Waiting else BackOut))
  {
    WordMeans(s);
  }

  /** The give-way loop: unregister at first; go on only when no writer seems to be queued any more. */
  lemma YieldOutcome(s: State, t: nat, cond: bool, spurious: bool)
    requires Sound(s) && t < |s.threads| && (s.threads[t].pc.GiveWay? || s.threads[t].pc.Yielding?)
    ensures var th := s.threads[t];
      Became(s, Step(s, Act(t, Continue(cond, spurious))), t, if th.pc.GiveWay? then s.word - 1 else s.word,
             th.(pc := if Overcrowded(s) || !cond then Idle
                       else if LooksQueued(s) then Yielding
                       else Rejoin))
  {
    WordMeans(s);
    SumAtLeast(s.threads, Registered, t);
  }

  /** The last loop: registered for good, a reader gets in exactly if no writer seems to hold the lock. */
  lemma AwaitOutcome(s: State, t: nat, cond: bool, spurious: bool)
    requires Sound(s) && t < |s.threads| && (s.threads[t].pc.Rejoin? || s.threads[t].pc.Waiting?)
    ensures var th := s.threads[t];
      Became(s, Step(s, Act(t, Continue(cond, spurious))), t, if th.pc.Rejoin? then s.word + 1 else s.word,
             if Overcrowded(s) then th.(pc := BackOut)
             else if !LooksHeld(s) then th.(pc := Idle, shared := th.shared + 1)
             else th.(pc := if cond then Waiting else BackOut))
  {
    WordMeans(s);
  }

  // ---------------------------------------------------------------------------------------
  // Exclusive requests.

  /** `try_lock_exclusive` answers yes exactly if nobody is registered, queued or holding; else nothing changes. */
  lemma TryExclusiveOutcome(s: State, t: nat)
    requires Inv(s) && IdleAt(s, t)
    ensures var th, s' := s.threads[t], Step(s, Act(t, TryExclusive));
      if Readers(s) == 0 && NoWriter(s) then
        Became(s, s', t, EXCLUSIVE_LOCKED, th.(exclusive := th.exclusive + 1))
      else
        s' == s
  {
    WordMeans(s);
    assert s.threads[t := s.threads[t]] == s.threads;
  }

  /** The exchange for which a thread inside `lock_exclusive_while` stands, or with which it starts, can succeed. */
  predicate CanTake(s: State, queued: bool)
  {
    Readers(s) == 0 && Writers(s) == 0 && (QueuedWriters(s) == 0 <==> !queued)
  }

  /** The operation that tries to take the lock, from outside or from inside the loop. */
  function TakeOp(th: Thread, cond: bool, spurious: bool): Op
  {
    if th.pc.Idle? then LockExclusive(cond, spurious) else Continue(cond, spurious)
  }

  /**
   Taking the lock succeeds exactly if no reader is registered and no writer is queued but the thread
   itself, unless the exchange fails for no reason. A thread that failed and is told to go on queues up next if
   readers hold the lock and nobody is queued; told to stop, it leaves the queue if it is in it.
   */
  lemma TakeOutcome(s: State, t: nat, cond: bool, spurious: bool)
    requires Inv(s) && t < |s.threads| && (s.threads[t].pc.Idle? || s.threads[t].pc.Convert?)
    ensures var th := s.threads[t];
      var queued := th.pc == Convert(true);
      var s' := Step(s, Act(t, TakeOp(th, cond, spurious)));
      if CanTake(s, queued) && !spurious then
        Became(s, s', t, EXCLUSIVE_LOCKED, th.(pc := Idle, exclusive := th.exclusive + 1))
      else
        Became(s, s', t, s.word,
               th.(pc := if !cond then (if queued then Cancel else Idle)
                         else if !queued && NoWriter(s) && 0 < Readers(s) < EXCLUSIVE_PENDING then Enqueue(Readers(s))
                         else Convert(queued)))
  {
    WordMeans(s);
    SumAtLeast(s.threads, Queued, t);
  }

  /** Queueing up succeeds exactly if still so many readers are registered and no writer came before. */
  lemma EnqueueOutcome(s: State, t: nat, seen: nat, cond: bool, spurious: bool)
    requires Inv(s) && t < |s.threads| && s.threads[t].pc == Enqueue(seen)
    ensures var th := s.threads[t];
      var ok := Readers(s) == seen && NoWriter(s) && !spurious;
      Became(s, Step(s, Act(t, Continue(cond, spurious))), t, if ok then s.word + EXCLUSIVE_PENDING else s.word,
             th.(pc := Convert(ok)))
  {
    WordMeans(s);
    assert LocallySane(s.threads[t]);
  }

  /** Leaving the queue undoes the enqueueing. */
  lemma CancelOutcome(s: State, t: nat, cond: bool, spurious: bool)
    requires Inv(s) && t < |s.threads| && s.threads[t].pc.Cancel?
    ensures Became(s, Step(s, Act(t, Continue(cond, spurious))), t, s.word - EXCLUSIVE_PENDING, s.threads[t].(pc := Idle))
  {
    SumAtLeast(s.threads, Queued, t);
  }

  /** Backing out undoes the registration. */
  lemma BackOutOutcome(s: State, t: nat, cond: bool, spurious: bool)
    requires Inv(s) && t < |s.threads| && s.threads[t].pc.BackOut?
    ensures Became(s, Step(s, Act(t, Continue(cond, spurious))), t, s.word - 1, s.threads[t].(pc := Idle))
  {
    SumAtLeast(s.threads, Registered, t);
  }

  /** Unlocking gives up the guard and nothing else. */
  lemma UnlockSharedOutcome(s: State, t: nat)
    requires Inv(s) && IdleAt(s, t) && s.threads[t].shared > 0
    ensures Became(s, Step(s, Act(t, UnlockShared)), t, s.word - 1, s.threads[t].(shared := s.threads[t].shared - 1))
  {
    SumAtLeast(s.threads, Registered, t);
  }

  lemma UnlockExclusiveOutcome(s: State, t: nat)
    requires Inv(s) && IdleAt(s, t) && s.threads[t].exclusive > 0
    ensures Became(s, Step(s, Act(t, UnlockExclusive)), t, s.word - EXCLUSIVE_LOCKED,
                   s.threads[t].(exclusive := s.threads[t].exclusive - 1))
  {
    SumAtLeast(s.threads, ExclusiveGuards, t);
    assert Writers(s) == 1 && s.word >= EXCLUSIVE_LOCKED;
  }

  // ---------------------------------------------------------------------------------------
  // A writer that meets readers.

  /**
   A writer that finds readers, whatever their number, and no other writer is queued after its first
   two operations; it takes nothing from the readers.
   */
  lemma WriterQueuesUp(s: State, t: nat)
    requires Inv(s) && Headroom(s) && Readers(s) > 0 && NoWriter(s) && IdleAt(s, t)
    ensures var run := [Act(t, LockExclusive(true, false)), Act(t, Continue(true, false))];
      Run(s, run) && WindowOpen(After(s, run), t) && After(s, run).word == s.word + EXCLUSIVE_PENDING
  {
    TwoSteps(s, t, LockExclusive(true, false), Continue(true, false));
    var s1 := Step(s, Act(t, LockExclusive(true, false)));
    TakeOutcome(s, t, true, false);
    SameCounts(s, s1, t);
    StepPreserves(s, Act(t, LockExclusive(true, false)));
    EnqueueOutcome(s1, t, Readers(s), true, false);
  }

  /** So is one that goes on inside its loop. */
  lemma RetryingWriterQueuesUp(s: State, t: nat)
    requires Inv(s) && Headroom(s) && Readers(s) > 0 && NoWriter(s)
    requires t < |s.threads| && s.threads[t].pc == Convert(false)
    ensures var run := [Act(t, Continue(true, false)), Act(t, Continue(true, false))];
      Run(s, run) && WindowOpen(After(s, run), t) && After(s, run).word == s.word + EXCLUSIVE_PENDING
  {
    TwoSteps(s, t, Continue(true, false), Continue(true, false));
    var s1 := Step(s, Act(t, Continue(true, false)));
    TakeOutcome(s, t, true, false);
    SameCounts(s, s1, t);
    StepPreserves(s, Act(t, Continue(true, false)));
    EnqueueOutcome(s1, t, Readers(s), true, false);
  }

  lemma TwoSteps(s: State, t: nat, first: Op, second: Op)
    requires Enabled(s, Act(t, first)) && Enabled(Step(s, Act(t, first)), Act(t, second))
    ensures Run(s, [Act(t, first), Act(t, second)])
    ensures After(s, [Act(t, first), Act(t, second)]) == Step(Step(s, Act(t, first)), Act(t, second))
  {
    hide Step, Enabled;
    var run, rest := [Act(t, first), Act(t, second)], [Act(t, second)];
    var s1 := Step(s, Act(t, first));
    assert rest[1..] == [] && Run(s1, rest) && After(s1, rest) == Step(s1, Act(t, second));
    assert run[0] == Act(t, first) && run[1..] == rest;
  }

  /** A thread that goes from the outside to the brink of the queue is counted nowhere. */
  lemma SameCounts(s: State, s': State, t: nat)
    requires t < |s.threads| == |s'.threads| && s'.threads == s.threads[t := s'.threads[t]]
    requires Registered(s'.threads[t]) == Registered(s.threads[t]) && Queued(s'.threads[t]) == Queued(s.threads[t])
    requires s'.threads[t].exclusive == s.threads[t].exclusive
    ensures Readers(s') == Readers(s) && QueuedWriters(s') == QueuedWriters(s) && Writers(s') == Writers(s)
  {
    SumUpdate(s.threads, Registered, t, s'.threads[t]);
    SumUpdate(s.threads, Queued, t, s'.threads[t]);
    SumUpdate(s.threads, ExclusiveGuards, t, s'.threads[t]);
  }

  /** And from then on every `try_lock_shared` is refused until the writer is done. */
  lemma QueuedWriterKeepsTriesOut(s: State, t: nat, u: nat)
    requires Inv(s) && WindowOpen(s, t) && IdleAt(s, u)
    ensures Step(s, Act(u, TryShared)).threads[u] == s.threads[u].(pc := BackOut)
  {
    SumAtLeast(s.threads, Queued, t);
    TrySharedOutcome(s, u, false, false);
  }
}
