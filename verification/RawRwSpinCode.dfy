/**
 The methods of src/spin.rs with their retry loops. Other threads interfere before every atomic
 operation; ghost fields record where everybody stands in the transition system and the run that
 led there.
 */
module RawRwSpinCode {
  import opened Words
  import opened RawRwSpin
  import opened RawRwSpinSafety
  import opened RawRwSpinOutcomes

  /** How a locking method ends. The debug-build check panics. */
  datatype Outcome = Acquired | GaveUp | Panicked

  /** The thread owns one guard more exactly if it acquired the lock. */
  function WithShared(th: Thread, outcome: Outcome): Thread
  {
    if outcome == Acquired then th.(shared := th.shared + 1) else th
  }

  function WithExclusive(th: Thread, outcome: Outcome): Thread
  {
    if outcome == Acquired then th.(exclusive := th.exclusive + 1) else th
  }

  /** What thread `me` itself did in a run. */
  function Mine(run: seq<Action>, me: nat): seq<Op>
  {
    if run == [] then []
    else
      var last := run[|run| - 1];
      Mine(run[..|run| - 1], me) + if last.Act? && last.t == me then [last.op] else []
  }

  /** The operation, whether or not its exchange failed for no reason. */
  function Normal(op: Op): Op
  {
    match op
    case LockExclusive(cond, _) => LockExclusive(cond, false)
    case Continue(cond, _) => Continue(cond, false)
    case _ => op
  }

  /** The atomic operations of one call: it starts with `first` and then goes on. */
  predicate OneCall(ops: seq<Op>, first: Op)
  {
    ops != [] && Normal(ops[0]) == first && forall i :: 1 <= i < |ops| ==> ops[i].Continue?
  }

  class Lock {
    const debug: bool
    var lock: Word
    ghost var threads: seq<Thread>
    ghost const origin: State
    ghost var history: seq<Action>

    ghost function St(): State
      reads this
    {
      State(debug, lock, threads)
    }

    /** The recorded run really leads from a fresh lock to the present state. */
    ghost predicate Valid()
      reads this
    {
      Init(origin) && Run(origin, history) && After(origin, history) == St()
    }

    constructor (debug: bool, ghost n: nat)
      ensures Valid() && this.debug == debug && |threads| == n && history == []
    {
      this.debug := debug;
      lock := 0;
      threads := seq(n, _ => Thread(Idle, 0, 0));
      origin := State(debug, 0, seq(n, _ => Thread(Idle, 0, 0)));
      history := [];
    }

    /** The code is exactly as safe as the protocol. */
    lemma Safe()
      requires Valid() && |origin.threads| <= MAX_THREADS
      ensures Accounted(St()) && Exclusive(St())
    {
      MutualExclusion(origin, history);
    }

    /** What the word of a state in the recorded run means. */
    lemma ReachedMeans(past: seq<Action>)
      requires Valid() && past <= history && Run(origin, past)
      ensures var s := After(origin, past);
        |threads| <= MAX_THREADS ==>
          && (s.word < EXCLUSIVE_PENDING && !(debug && TooMany(s.word)) <==> Open(s))
          && (debug && TooMany(s.word) <==> Overcrowded(s))
          && (s.word == 0 <==> Readers(s) == 0 && NoWriter(s))
    {
      RunKeepsThreads(origin, history);
      RunKeepsThreads(origin, past);
      if |threads| <= MAX_THREADS {
        Reached(origin, past);
        WordMeans(After(origin, past));
      }
    }

    /**
     Other threads take any number of steps. Callers learn only that the recorded run goes on and
     that `me` took no part in it.
     */
    method Interference(ghost me: nat, ghost n: nat)
      requires Valid() && me < |threads| && n <= |history|
      modifies this
      ensures Valid() && |threads| == |old(threads)| && threads[me] == old(threads[me])
      ensures old(history) <= history && Mine(history[n..], me) == old(Mine(history[n..], me))
    {
    }

    /** Thread `me` did `op` on a word of `count`, after the others had their turns. */
    twostate predicate Did(me: nat, n: nat, count: Word, op: Op)
      requires me < |old(threads)| && EnabledLocally(old(threads[me]), op) && n <= |old(history)|
      reads this
    {
      && Valid() && |threads| == |old(threads)| && old(history) <= history
      && threads[me] == LocalStep(debug, count, old(threads[me]), op).1
      && Mine(history[n..], me) == old(Mine(history[n..], me)) + [op]
    }

    /** Accounts for the atomic operation that `me` has just done on a word of `count`. */
    ghost method Record(me: nat, n: nat, count: Word, op: Op)
      requires me < |threads| && EnabledLocally(threads[me], op) && n <= |history|
      requires Init(origin) && Run(origin, history) && After(origin, history) == State(debug, count, threads)
      requires lock == LocalStep(debug, count, threads[me], op).0
      modifies this`threads, this`history
      ensures Did(me, n, count, op) && history == old(history) + [Act(me, op)]
    {
      var a := Act(me, op);
      assert [a][1..] == [];
      RunConcat(origin, history, [a]);
      assert (history + [a])[n..] == history[n..] + [a];
      assert (history[n..] + [a])[..|history[n..]|] == history[n..];
      history := history + [a];
      threads := threads[me := LocalStep(debug, count, threads[me], op).1];
    }

    /** At the end of `past` the word was `count`, and there thread `me` had the next turn. */
    ghost predicate ReadAt(me: nat, past: seq<Action>, count: Word)
      reads this
    {
      && past <= history && |past| < |history| && history[|past|].Act? && history[|past|].t == me
      && Run(origin, past) && After(origin, past).word == count
    }

    /** An atomic `fetch_add(1)`. */
    method FetchAddOne(ghost me: nat, ghost n: nat, ghost op: Op) returns (count: Word, ghost past: seq<Action>)
      requires Valid() && me < |threads| && n <= |history|
      requires var pc := threads[me].pc;
        (pc == Idle && (op.TryShared? || op.LockShared?)) || (pc == Rejoin && op.Continue?)
      modifies this
      ensures Did(me, n, count, op)
      ensures old(history) <= past && ReadAt(me, past, count) && history[|past|] == Act(me, op)
    {
      Interference(me, n);
      past := history;
      count := lock;
      lock := FetchAdd(count, 1);
      Record(me, n, count, op);
    }

    /** An atomic `fetch_sub(1)`. */
    method FetchSubOne(ghost me: nat, ghost n: nat, ghost op: Op) returns (count: Word, ghost past: seq<Action>)
      requires Valid() && me < |threads| && n <= |history| && EnabledLocally(threads[me], op)
      requires op.UnlockShared? || (op.Continue? && (threads[me].pc == BackOut || threads[me].pc == GiveWay))
      modifies this
      ensures Did(me, n, count, op)
      ensures old(history) <= past && ReadAt(me, past, count)
    {
      Interference(me, n);
      past := history;
      count := lock;
      lock := FetchSub(count, 1);
      Record(me, n, count, op);
    }

    /** An atomic load. */
    method Load(ghost me: nat, ghost n: nat, ghost op: Op) returns (count: Word, ghost past: seq<Action>)
      requires Valid() && me < |threads| && n <= |history|
      requires op.Continue? && (threads[me].pc == Yielding || threads[me].pc == Waiting)
      modifies this
      ensures Did(me, n, count, op)
      ensures old(history) <= past && ReadAt(me, past, count)
    {
      Interference(me, n);
      past := history;
      count := lock;
      Record(me, n, count, op);
    }

    /** A weak compare-exchange to EXCLUSIVE_LOCKED, which also returns the word it found. */
    method ExchangeToLocked(ghost me: nat, ghost n: nat, ghost cond: bool, expected: Word)
      returns (ok: bool, count: Word, ghost op: Op)
      requires Valid() && me < |threads| && n <= |history|
      requires (threads[me].pc == Idle && expected == 0) ||
        (threads[me].pc.Convert? && expected == if threads[me].pc.queued then EXCLUSIVE_PENDING else 0)
      modifies this
      ensures Normal(op) == if old(threads[me]).pc == Idle then LockExclusive(cond, false) else Continue(cond, false)
      ensures Valid() && |threads| == |old(threads)| && old(history) <= history
      ensures Mine(history[n..], me) == old(Mine(history[n..], me)) + [op]
      ensures threads[me] ==
        if ok then WithExclusive(old(threads[me]), Acquired).(pc := Idle)
        else DecideExclusive(count, old(threads[me]), expected == EXCLUSIVE_PENDING, cond)
    {
      Interference(me, n);
      var spurious: bool := *;
      count := lock;
      ok := count == expected && !spurious;
      if ok {
        lock := EXCLUSIVE_LOCKED;
      }
      op := if threads[me].pc == Idle then LockExclusive(cond, spurious) else Continue(cond, spurious);
      Record(me, n, count, op);
    }

    /** A weak compare-exchange that adds EXCLUSIVE_PENDING to exactly `seen`. */
    method ExchangeToQueued(ghost me: nat, ghost n: nat, seen: Word) returns (ok: bool, ghost op: Op)
      requires Valid() && me < |threads| && n <= |history|
      requires threads[me].pc == Enqueue(seen) && seen < EXCLUSIVE_PENDING
      modifies this
      ensures Valid() && |threads| == |old(threads)| && old(history) <= history
      ensures op.Continue? && Mine(history[n..], me) == old(Mine(history[n..], me)) + [op]
      ensures threads[me] == old(threads[me]).(pc := Convert(ok))
    {
      Interference(me, n);
      var spurious: bool := *;
      var count := lock;
      ok := count == seen && !spurious;
      if ok {
        lock := count + EXCLUSIVE_PENDING;
      }
      op := Continue(true, spurious);
      Record(me, n, count, op);
    }

    /**
     The outcome depends on the word found by the fetch_add at the end of `past`, and so on who is
     registered, queued and holding at that instant.
     */
    method TryLockShared(ghost me: nat) returns (outcome: Outcome, ghost past: seq<Action>)
      requires Valid() && me < |threads| && threads[me].pc == Idle
      modifies this
      ensures Valid() && |threads| == |old(threads)| && threads[me] == WithShared(old(threads[me]), outcome)
      ensures old(history) <= history && OneCall(Mine(history[|old(history)|..], me), TryShared)
      ensures old(history) <= past && past + [Act(me, TryShared)] <= history && Run(origin, past)
      ensures var word := After(origin, past).word;
        var mark := if word < EXCLUSIVE_PENDING then 0
                    else if word < EXCLUSIVE_LOCKED then EXCLUSIVE_PENDING else EXCLUSIVE_LOCKED;
        && (outcome == Acquired <==> word < EXCLUSIVE_PENDING && (debug ==> word <= SHARED_LOCK_THRESHOLD))
        && (outcome == Panicked <==> debug && word - mark > SHARED_LOCK_THRESHOLD)
      ensures |threads| <= MAX_THREADS ==>
        && (outcome == Acquired <==> Open(After(origin, past)))
        && (outcome == Panicked <==> Overcrowded(After(origin, past)))
    {
      hide Run, After, Open, Overcrowded;
      ghost var n := |history|;
      var count;
      count, past := FetchAddOne(me, n, TryShared);
      ReachedMeans(past);
      if debug && TooMany(count) {
        var _, _ := FetchSubOne(me, n, Continue(false, false));
        return Panicked, past;
      }
      if count < EXCLUSIVE_PENDING {
        return Acquired, past;
      } else {
        var _, _ := FetchSubOne(me, n, Continue(false, false));
        return GaveUp, past;
      }
    }

    /** The outcome of `lock_shared_while` goes with the word `word` that it read last. */
    ghost predicate Fitting(outcome: Outcome, word: Word)
      reads this
    {
      var mark := if word < EXCLUSIVE_PENDING then 0
                  else if word < EXCLUSIVE_LOCKED then EXCLUSIVE_PENDING else EXCLUSIVE_LOCKED;
      && (outcome == Panicked <==> debug && word - mark > SHARED_LOCK_THRESHOLD)
      && (outcome == Acquired ==> word < EXCLUSIVE_LOCKED)
    }

    /**
     The closure answers true `patience` times and false from then on; `left` of the true answers
     have not been asked for, and only a false one makes the method give up.
     */
    method LockSharedWhile(ghost me: nat, patience: nat)
      returns (outcome: Outcome, left: nat, ghost past: seq<Action>)
      requires Valid() && me < |threads| && threads[me].pc == Idle
      modifies this
      ensures Valid() && |threads| == |old(threads)| && threads[me] == WithShared(old(threads[me]), outcome)
      ensures left <= patience && (outcome == GaveUp ==> left == 0)
      ensures old(history) <= history && OneCall(Mine(history[|old(history)|..], me), LockShared(patience > 0))
      ensures old(history) <= past < history && history[|past|].t == me && Run(origin, past)
      ensures Fitting(outcome, After(origin, past).word)
    {
      hide Run, After;
      ghost var n, th := |history|, threads[me];
      left := patience;
      var count: Word;
      count, past := FetchAddOne(me, n, LockShared(left > 0));
      if debug && TooMany(count) {
        var _, _ := FetchSubOne(me, n, Continue(false, false));
        return Panicked, left, past;
      }
      if count < EXCLUSIVE_PENDING {
        return Acquired, left, past;
      }
      if count < EXCLUSIVE_LOCKED {
        var goOn;
        goOn, outcome, count, left, past := YieldShared(me, n, th, left, LockShared(patience > 0));
        if !goOn {
          return;
        }
      }
      outcome, left, past := AwaitShared(me, n, th, count, past, left, LockShared(patience > 0));
    }

    /** The give-way loop of lock_shared_while: the method goes on, or ends with `outcome`. */
    method YieldShared(ghost me: nat, ghost n: nat, ghost th: Thread, patience: nat, ghost first: Op)
      returns (goOn: bool, outcome: Outcome, count: Word, left: nat, ghost past: seq<Action>)
      requires Valid() && me < |threads| && n <= |history|
      requires OneCall(Mine(history[n..], me), first)
      requires th.pc == Idle && threads[me] == th.(pc := GiveWay)
      modifies this
      ensures Valid() && |threads| == |old(threads)|
      ensures threads[me] == if goOn then DecideShared(debug, count, th, left > 0) else WithShared(th, outcome)
      ensures left <= patience && (!goOn && outcome == GaveUp ==> left == 0)
      ensures old(history) <= history && OneCall(Mine(history[n..], me), first)
      ensures old(history) <= past && ReadAt(me, past, count) && (goOn || Fitting(outcome, count))
    {
      hide Run, After, Mine;
      left := patience;
      count, past := FetchSubOne(me, n, Continue(left > 0, false));
      while true
        invariant Valid() && |threads| == |old(threads)| && old(history) <= history
        invariant OneCall(Mine(history[n..], me), first)
        invariant old(history) <= past && ReadAt(me, past, count)
        invariant threads[me] == DecideYield(debug, count, th, left > 0) && left <= patience
        decreases left
      {
        if debug && TooMany(count) {
          return false, Panicked, count, left, past;
        }
        if left == 0 {
          return false, GaveUp, count, left, past;
        }
        left := left - 1;
        if count >= EXCLUSIVE_LOCKED || count < EXCLUSIVE_PENDING {
          count, past := FetchAddOne(me, n, Continue(left > 0, false));
          return true, GaveUp, count, left, past;
        }
        count, past := Load(me, n, Continue(left > 0, false));
      }
    }

    /** The last loop of lock_shared_while, entered with the count just read. */
    method AwaitShared(ghost me: nat, ghost n: nat, ghost th: Thread, read: Word, ghost readAt: seq<Action>,
                       patience: nat, ghost first: Op)
      returns (outcome: Outcome, left: nat, ghost past: seq<Action>)
      requires Valid() && me < |threads| && n <= |history| && th.pc == Idle
      requires OneCall(Mine(history[n..], me), first)
      requires threads[me] == DecideShared(debug, read, th, patience > 0) && ReadAt(me, readAt, read)
      modifies this
      ensures Valid() && |threads| == |old(threads)| && threads[me] == WithShared(th, outcome)
      ensures left <= patience && (outcome == GaveUp ==> left == 0)
      ensures old(history) <= history && OneCall(Mine(history[n..], me), first)
      ensures readAt <= past < history && history[|past|].t == me && Run(origin, past)
      ensures Fitting(outcome, After(origin, past).word)
    {
      hide Run, After, Mine;
      var count: Word := read;
      left, past := patience, readAt;
      while true
        invariant Valid() && |threads| == |old(threads)| && old(history) <= history
        invariant OneCall(Mine(history[n..], me), first)
        invariant readAt <= past && ReadAt(me, past, count)
        invariant threads[me] == DecideShared(debug, count, th, left > 0) && left <= patience
        decreases left
      {
        if debug && TooMany(count) {
          var _, _ := FetchSubOne(me, n, Continue(false, false));
          return Panicked, left, past;
        }
        if count < EXCLUSIVE_LOCKED {
          return Acquired, left, past;
        }
        if left == 0 {
          var _, _ := FetchSubOne(me, n, Continue(false, false));
          return GaveUp, left, past;
        }
        left := left - 1;
        count, past := Load(me, n, Continue(left > 0, false));
      }
    }

    method UnlockShared(ghost me: nat)
      requires Valid() && me < |threads| && threads[me].pc == Idle && threads[me].shared > 0
      modifies this
      ensures Valid() && |threads| == |old(threads)|
      ensures threads[me] == old(threads[me]).(shared := old(threads[me]).shared - 1)
      ensures old(history) <= history && OneCall(Mine(history[|old(history)|..], me), RawRwSpin.UnlockShared)
    {
      var _, _ := FetchSubOne(me, |history|, RawRwSpin.UnlockShared);
    }

    /** One exchange, which finds a zero word exactly if nobody is registered, queued or holding at that instant. */
    method TryLockExclusive(ghost me: nat) returns (outcome: Outcome, ghost past: seq<Action>)
      requires Valid() && me < |threads| && threads[me].pc == Idle
      modifies this
      ensures Valid() && |threads| == |old(threads)| && threads[me] == WithExclusive(old(threads[me]), outcome)
      ensures outcome != Panicked
      ensures old(history) <= history && OneCall(Mine(history[|old(history)|..], me), TryExclusive)
      ensures old(history) <= past && history == past + [Act(me, TryExclusive)] && Run(origin, past)
      ensures outcome == Acquired <==> After(origin, past).word == 0
      ensures |threads| <= MAX_THREADS ==>
        (outcome == Acquired <==> Readers(After(origin, past)) == 0 && NoWriter(After(origin, past)))
    {
      ghost var n := |history|;
      Interference(me, n);
      past := history;
      ReachedMeans(past);
      var count := lock;
      outcome := if count == 0 then Acquired else GaveUp;
      lock := if count == 0 then EXCLUSIVE_LOCKED else count;
      Record(me, n, count, TryExclusive);
    }

    /** The closure answers as above. */
    method LockExclusiveWhile(ghost me: nat, patience: nat) returns (outcome: Outcome, left: nat)
      requires Valid() && me < |threads| && threads[me].pc == Idle
      modifies this
      ensures Valid() && |threads| == |old(threads)| && threads[me] == WithExclusive(old(threads[me]), outcome)
      ensures outcome != Panicked && left <= patience && (outcome == GaveUp ==> left == 0)
      ensures old(history) <= history
      ensures OneCall(Mine(history[|old(history)|..], me), LockExclusive(patience > 0, false))
    {
      hide Run, After;
      ghost var n, th := |history|, threads[me];
      var inQueue := false;
      left := patience;
      var ok, count: Word;
      ghost var op: Op;
      ok, count, op := ExchangeToLocked(me, n, left > 0, 0);
      while !ok
        invariant Valid() && |threads| == |old(threads)| && old(history) <= history
        invariant OneCall(Mine(history[n..], me), LockExclusive(patience > 0, false))
        invariant threads[me] ==
          if ok then WithExclusive(th, Acquired) else DecideExclusive(count, th, inQueue, left > 0)
        invariant left <= patience
        decreases left, !ok
      {
        if left == 0 {
          if inQueue {
            FetchSubPending(me, n);
          }
          return GaveUp, left;
        }
        left := left - 1;
        ok, count, inQueue := RetryExclusive(me, n, th, count, inQueue, left > 0, LockExclusive(patience > 0, false));
      }
      return Acquired, left;
    }

    /** One more round: enqueue if readers hold the lock and nobody is queued, then try to convert. */
    method RetryExclusive(ghost me: nat, ghost n: nat, ghost th: Thread, seen: Word, queued: bool, ghost cond: bool,
                          ghost first: Op)
      returns (ok: bool, count: Word, inQueue: bool)
      requires Valid() && me < |threads| && n <= |history| && th.pc == Idle
      requires OneCall(Mine(history[n..], me), first)
      requires threads[me] == DecideExclusive(seen, th, queued, true)
      modifies this
      ensures Valid() && |threads| == |old(threads)|
      ensures old(history) <= history && OneCall(Mine(history[n..], me), first)
      ensures threads[me] == if ok then WithExclusive(th, Acquired) else DecideExclusive(count, th, inQueue, cond)
    {
      hide Run, After, Mine;
      ghost var op: Op;
      inQueue := queued;
      if !inQueue && 0 < seen < EXCLUSIVE_PENDING {
        inQueue, op := ExchangeToQueued(me, n, seen);
      }
      ok, count, op := ExchangeToLocked(me, n, cond, if inQueue then EXCLUSIVE_PENDING else 0);
    }

    /** The fetch_sub that leaves the queue. */
    method FetchSubPending(ghost me: nat, ghost n: nat)
      requires Valid() && me < |threads| && n <= |history| && threads[me].pc == Cancel
      modifies this
      ensures Did(me, n, 0, Continue(false, false))
    {
      Interference(me, n);
      var count := lock;
      lock := FetchSub(count, EXCLUSIVE_PENDING);
      Record(me, n, count, Continue(false, false));
    }

    method UnlockExclusive(ghost me: nat)
      requires Valid() && me < |threads| && threads[me].pc == Idle && threads[me].exclusive > 0
      modifies this
      ensures Valid() && |threads| == |old(threads)|
      ensures threads[me] == old(threads[me]).(exclusive := old(threads[me]).exclusive - 1)
      ensures old(history) <= history && OneCall(Mine(history[|old(history)|..], me), RawRwSpin.UnlockExclusive)
    {
      ghost var n := |history|;
      Interference(me, n);
      var count := lock;
      lock := FetchSub(count, EXCLUSIVE_LOCKED);
      Record(me, n, count, RawRwSpin.UnlockExclusive);
    }
  }
}
