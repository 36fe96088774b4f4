/**
 The reader-writer spin lock of src/spin.rs as an interleaving transition system.

 Any number of threads share one machine word. Every atomic operation on the word is one
 step; the local decisions that follow it up to the next atomic operation belong to the
 same step. A closure passed to a `..._while` method is an arbitrary Boolean answer at every
 call, and a weak compare-exchange may fail for no reason.
 */
module RawRwSpin {
  import opened Words

  const USIZE_MAX: nat := USIZE_SIZE - 1
  const SHARED_LOCK_THRESHOLD: nat := USIZE_MAX / 32 + 1
  const EXCLUSIVE_PENDING: nat := USIZE_MAX / 4 + 1
  const EXCLUSIVE_LOCKED: nat := USIZE_MAX / 2 + 1

  /** The word after `fetch_add(n)`, which wraps around. */
  function FetchAdd(word: Word, n: Word): (r: Word)
    ensures r == (word + n) % USIZE_SIZE
  {
    if word + n < USIZE_SIZE then word + n else word + n - USIZE_SIZE
  }

  /** The word after `fetch_sub(n)`, which wraps around. */
  function FetchSub(word: Word, n: Word): (r: Word)
    ensures r == (word - n) % USIZE_SIZE
  {
    if n <= word then word - n else word - n + USIZE_SIZE
  }

  /** Where a thread stands between two atomic operations. */
  datatype Pc =
    | Idle                    // in no method of the lock
    | BackOut                 // registered; about to unregister and give the request up
    | GiveWay                 // registered while a writer is queued; about to unregister once
    | Yielding                // unregistered; about to load the word
    | Rejoin                  // unregistered; about to register for good
    | Waiting                 // registered for good; about to load the word
    | Enqueue(seen: nat)      // about to add EXCLUSIVE_PENDING to exactly `seen`
    | Convert(queued: bool)   // about to turn EXCLUSIVE_PENDING (or zero) into EXCLUSIVE_LOCKED
    | Cancel                  // queued; about to leave the queue and give the request up

  /** A thread: its program counter and the guards it owns. */
  datatype Thread = Thread(pc: Pc, shared: nat, exclusive: nat)

  /** The lock; `debug` says whether the build checks the count of shared locks. */
  datatype State = State(debug: bool, word: Word, threads: seq<Thread>)

  /** What one thread may do next. */
  datatype Op =
    | TryShared
    | LockShared(cond: bool)
    | TryExclusive
    | LockExclusive(cond: bool, spurious: bool)
    | Continue(cond: bool, spurious: bool)
    | UnlockShared
    | UnlockExclusive

  /** One step of the system. Guards may be sent to another thread. */
  datatype Action =
    | Act(t: nat, op: Op)
    | GiveShared(t: nat, to: nat)
    | GiveExclusive(t: nat, to: nat)

  /** The debug-build check on the count found in the word (locks_count_check). */
  predicate TooMany(count: Word)
  {
    if count < EXCLUSIVE_PENDING then
      count > SHARED_LOCK_THRESHOLD
    else if count < EXCLUSIVE_LOCKED then
      count > EXCLUSIVE_PENDING + SHARED_LOCK_THRESHOLD
    else
      count > EXCLUSIVE_LOCKED + SHARED_LOCK_THRESHOLD
  }

  /** The body of the last loop of lock_shared_while, entered with a fresh `count`. */
  function DecideShared(debug: bool, count: Word, th: Thread, cond: bool): Thread
  {
    if debug && TooMany(count) then
      th.(pc := BackOut)
    else if count < EXCLUSIVE_LOCKED then
      th.(pc := Idle, shared := th.shared + 1)
    else if !cond then
      th.(pc := BackOut)
    else
      th.(pc := Waiting)
  }

  /** The body of the give-way loop of lock_shared_while, entered with a fresh `count`. */
  function DecideYield(debug: bool, count: Word, th: Thread, cond: bool): Thread
  {
    if debug && TooMany(count) then
      th.(pc := Idle)
    else if !cond then
      th.(pc := Idle)
    else if count >= EXCLUSIVE_LOCKED || count < EXCLUSIVE_PENDING then
      th.(pc := Rejoin)
    else
      th.(pc := Yielding)
  }

  /** The `Err(count)` arm of lock_exclusive_while. */
  function DecideExclusive(count: Word, th: Thread, queued: bool, cond: bool): Thread
  {
    if !cond then
      th.(pc := if queued then Cancel else Idle)
    else if !queued && 0 < count < EXCLUSIVE_PENDING then
      th.(pc := Enqueue(count))
    else
      th.(pc := Convert(queued))
  }

  /** A compare-exchange to EXCLUSIVE_LOCKED and the decision after it. */
  function TryConvert(word: Word, th: Thread, queued: bool, cond: bool, spurious: bool): (Word, Thread)
  {
    var expected := if queued then EXCLUSIVE_PENDING else 0;
    if word == expected && !spurious then
      (EXCLUSIVE_LOCKED, th.(pc := Idle, exclusive := th.exclusive + 1))
    else
      (word, DecideExclusive(word, th, queued, cond))
  }

  predicate EnabledLocally(th: Thread, op: Op)
  {
    match op
    case Continue(_, _) => !th.pc.Idle?
    case UnlockShared => th.pc.Idle? && th.shared > 0
    case UnlockExclusive => th.pc.Idle? && th.exclusive > 0
    case _ => th.pc.Idle?
  }

  /** One atomic operation of one thread: the new word and the new thread. */
  function LocalStep(debug: bool, word: Word, th: Thread, op: Op): (Word, Thread)
    requires EnabledLocally(th, op)
  {
    match op
    case TryShared =>
      (FetchAdd(word, 1),
       if (debug && TooMany(word)) || word >= EXCLUSIVE_PENDING then th.(pc := BackOut)
       else th.(shared := th.shared + 1))
    case LockShared(cond) =>
      (FetchAdd(word, 1),
       if debug && TooMany(word) then th.(pc := BackOut)
       else if word < EXCLUSIVE_PENDING then th.(shared := th.shared + 1)
       else if word < EXCLUSIVE_LOCKED then th.(pc := GiveWay)
       else DecideShared(debug, word, th, cond))
    case TryExclusive =>
      if word == 0 then (EXCLUSIVE_LOCKED, th.(exclusive := th.exclusive + 1)) else (word, th)
    case LockExclusive(cond, spurious) =>
      TryConvert(word, th, false, cond, spurious)
    case UnlockShared =>
      (FetchSub(word, 1), th.(shared := th.shared - 1))
    case UnlockExclusive =>
      (FetchSub(word, EXCLUSIVE_LOCKED), th.(exclusive := th.exclusive - 1))
    case Continue(cond, spurious) =>
      match th.pc {
        case BackOut => (FetchSub(word, 1), th.(pc := Idle))
        case GiveWay => (FetchSub(word, 1), DecideYield(debug, word, th, cond))
        case Yielding => (word, DecideYield(debug, word, th, cond))
        case Rejoin => (FetchAdd(word, 1), DecideShared(debug, word, th, cond))
        case Waiting => (word, DecideShared(debug, word, th, cond))
        case Enqueue(seen) =>
          if word == seen && !spurious then
            (FetchAdd(word, EXCLUSIVE_PENDING), th.(pc := Convert(true)))
          else
            (word, th.(pc := Convert(false)))
        case Convert(queued) => TryConvert(word, th, queued, cond, spurious)
        case Cancel => (FetchSub(word, EXCLUSIVE_PENDING), th.(pc := Idle))
      }
  }

  predicate Enabled(s: State, a: Action)
  {
    && a.t < |s.threads|
    && match a {
      case Act(t, op) => EnabledLocally(s.threads[t], op)
      case GiveShared(t, to) =>
        to < |s.threads| && to != t && s.threads[t].pc.Idle? && s.threads[to].pc.Idle? && s.threads[t].shared > 0
      case GiveExclusive(t, to) =>
        to < |s.threads| && to != t && s.threads[t].pc.Idle? && s.threads[to].pc.Idle? && s.threads[t].exclusive > 0
    }
  }

  function Step(s: State, a: Action): State
    requires Enabled(s, a)
  {
    match a
    case Act(t, op) =>
      var (word, th) := LocalStep(s.debug, s.word, s.threads[t], op);
      s.(word := word, threads := s.threads[t := th])
    case GiveShared(t, to) =>
      var giver, taker := s.threads[t], s.threads[to];
      s.(threads := s.threads[t := giver.(shared := giver.shared - 1)][to := taker.(shared := taker.shared + 1)])
    case GiveExclusive(t, to) =>
      var giver, taker := s.threads[t], s.threads[to];
      s.(threads :=
        s.threads[t := giver.(exclusive := giver.exclusive - 1)][to := taker.(exclusive := taker.exclusive + 1)])
  }

  /** A fresh lock: a zero word, no guards and no thread inside a method. */
  predicate Init(s: State)
  {
    s.word == 0 && forall t :: 0 <= t < |s.threads| ==> s.threads[t] == Thread(Idle, 0, 0)
  }

  /** Every action of `run` is enabled when its turn comes. */
  predicate Run(s: State, run: seq<Action>)
    decreases |run|
  {
    run == [] || (Enabled(s, run[0]) && Run(Step(s, run[0]), run[1..]))
  }

  function After(s: State, run: seq<Action>): State
    requires Run(s, run)
    decreases |run|
  {
    if run == [] then s else After(Step(s, run[0]), run[1..])
  }

  /** Runs compose. */
  lemma {:induction false} RunConcat(s: State, first: seq<Action>, second: seq<Action>)
    requires Run(s, first) && Run(After(s, first), second)
    ensures Run(s, first + second) && After(s, first + second) == After(After(s, first), second)
    decreases |first|
  {
    if first == [] {
      assert first + second == second;
    } else {
      assert (first + second)[0] == first[0] && (first + second)[1..] == first[1..] + second;
      RunConcat(Step(s, first[0]), first[1..], second);
    }
  }
}
