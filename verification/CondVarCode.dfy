/**
 The methods of src/condvar.rs with their retry loops and the pointer walk, and the mutex of
 src/mutex.rs on top of them. Other threads interfere before every atomic operation and before every
 access to another thread's node; ghost fields record where everybody stands and the run so far.
 Loops that need not end are followed for a given number of rounds.
 */
module CondVarCode {
  import opened Options
  import opened Sums
  import opened CondVar
  import opened CondVarSafety
  import opened CondVarRuns
  import opened Mutex

  /** What the closure passed to an update answers. */
  datatype Answer = SetTo(state: Byte) | Wait | Break

  /** How an update ends; `Running` if it has not ended within its rounds. */
  datatype Result = Ok(previous: Byte) | Err(last: Byte) | Running

  /** A closure that never waits. */
  function NeverWaits(f: (nat, Byte) -> Option<Byte>): (nat, Byte) -> Answer
  {
    (call: nat, state: Byte) => match f(call, state) case Some(new_) => SetTo(new_) case None => Break
  }

  /** The operation that the closure's answer asks for. */
  predicate Obeys(answer: Answer, a: Action)
  {
    match answer
    case SetTo(new_) => a.DoUpdate? && a.new_ == new_
    case Wait => a.DoWait?
    case Break => a.DoBreak?
  }

  /** One call of the closure: where the thread looked at the word, the state shown, and what it did next. */
  datatype Round = Round(at: nat, state: Byte, did: nat)

  /** In the run `h`, later than `n`, the state was in the word when the thread looked, and then it did as answered. */
  ghost predicate IsRound(start: State, h: seq<Action>, me: nat, n: nat, answer: Answer, r: Round)
  {
    && n <= r.at < r.did < |h| && h[r.at].t == me && h[r.did].t == me && Foreign(h[r.at + 1..r.did], me)
    && Run(start, h[..r.at]) && After(start, h[..r.at]).head.state == r.state && Obeys(answer, h[r.did])
  }

  /** The calls of the closure `f` so far: one round after the other, and none but the last broke. */
  ghost predicate Rounds(start: State, h: seq<Action>, me: nat, n: nat, f: (nat, Byte) -> Answer, asked: seq<Round>)
  {
    && (forall i :: 0 <= i < |asked| ==> IsRound(start, h, me, n, f(i, asked[i].state), asked[i]))
    && (forall i :: 0 < i < |asked| ==> asked[i - 1].did <= asked[i].at)
    && (forall i :: 0 <= i < |asked| - 1 ==> f(i, asked[i].state) != Break)
  }

  lemma RoundStays(start: State, h: seq<Action>, more: seq<Action>, me: nat, n: nat, answer: Answer, r: Round)
    requires IsRound(start, h, me, n, answer, r) && h <= more
    ensures IsRound(start, more, me, n, answer, r)
  {
    assert more[..r.at] == h[..r.at] && more[r.at + 1..r.did] == h[r.at + 1..r.did];
  }

  lemma AddRound(start: State, h: seq<Action>, more: seq<Action>, me: nat, n: nat, f: (nat, Byte) -> Answer,
                 asked: seq<Round>, r: Round)
    requires Rounds(start, h, me, n, f, asked) && h <= more && IsRound(start, more, me, n, f(|asked|, r.state), r)
    requires asked != [] ==> asked[|asked| - 1].did <= r.at && f(|asked| - 1, asked[|asked| - 1].state) != Break
    ensures Rounds(start, more, me, n, f, asked + [r])
  {
    hide IsRound;
    forall i | 0 <= i < |asked|
      ensures IsRound(start, more, me, n, f(i, asked[i].state), asked[i])
    {
      RoundStays(start, h, more, me, n, f(i, asked[i].state), asked[i]);
    }
  }

  lemma RoundsStay(start: State, h: seq<Action>, more: seq<Action>, me: nat, n: nat, f: (nat, Byte) -> Answer,
                   asked: seq<Round>)
    requires Rounds(start, h, me, n, f, asked) && h <= more
    ensures Rounds(start, more, me, n, f, asked)
  {
    hide IsRound;
    forall i | 0 <= i < |asked|
      ensures IsRound(start, more, me, n, f(i, asked[i].state), asked[i])
    {
      RoundStays(start, h, more, me, n, f(i, asked[i].state), asked[i]);
    }
  }

  /** Inside an update thread `me` does nothing but what its loop does. */
  predicate Inner(run: seq<Action>, me: nat)
  {
    forall i :: 0 <= i < |run| && run[i].t == me ==>
      run[i].DoUpdate? || run[i].DoWait? || run[i].DoBreak? || run[i].Go?
  }

  /** In `run` thread `me` makes one call of an update. */
  ghost predicate OneUpdate(run: seq<Action>, me: nat, wake: bool)
  {
    exists k :: 0 <= k < |run| && Foreign(run[..k], me) && run[k] == CallUpdate(me, wake) && Inner(run[k + 1..], me)
  }

  /** The closure of `lock`. */
  function LockClosure(call: nat, state: Byte): Answer
  {
    if state == UNLOCKED then SetTo(LOCKED) else Wait
  }

  /** The role of a thread whose fast path has failed. */
  function SlowRole(role: Role): Role { if role == Held then Relocking else Locking }

  /** In `run` thread `me` makes one call of `lock`: the fast path and, if it fails, one update. */
  ghost predicate OneLock(run: seq<Action>, me: nat)
  {
    exists k :: 0 <= k < |run| && Foreign(run[..k], me) && run[k] == CallOptimistic(me, UNLOCKED, LOCKED)
      && (Foreign(run[k + 1..], me) || OneUpdate(run[k + 1..], me, false))
  }

  lemma OneLockOf(before: seq<Action>, rest: seq<Action>, me: nat)
    requires Foreign(before, me) && (Foreign(rest, me) || OneUpdate(rest, me, false))
    ensures OneLock(before + [CallOptimistic(me, UNLOCKED, LOCKED)] + rest, me)
  {
    hide OneUpdate;
    var run, k := before + [CallOptimistic(me, UNLOCKED, LOCKED)] + rest, |before|;
    assert run[..k] == before && run[k + 1..] == rest;
  }

  /** There is always an address that nothing lives at. */
  lemma {:induction false} Bounded(s: set<nat>) returns (b: nat)
    ensures forall a :: a in s ==> a < b
  {
    if s == {} {
      b := 0;
    } else {
      var x :| x in s;
      var c := Bounded(s - {x});
      b := if x < c then c else x + 1;
      assert forall a :: a in s ==> a == x || a in s - {x};
    }
  }

  /** `turn` is how thread `me` may do `a` with the mutex. */
  predicate MutexTurn(m: MutexState, me: nat, turn: MutexAction, a: Action)
  {
    !turn.GiveGuard? && turn.t == me && MutexEnabled(m, turn) && CvAction(m, turn) == a
  }

  lemma StepKeepsThreads(s: State, a: Action)
    requires Enabled(s, a)
    ensures |Step(s, a).threads| == |s.threads| && |Step(s, a).tokens| == |s.tokens|
  {
  }

  lemma GoKeeps(s: State, me: nat)
    requires Enabled(s, Go(me)) && Waking(s.threads[me])
    ensures Run(s, [Go(me)]) && KeepsWaking(s, [Go(me)], me)
  {
    assert [Go(me)][1..] == [];
  }

  class WaitList {
    ghost const origin: State
    ghost const mutex: bool             // every thread uses it as a mutex
    var head: Head
    var nodes: map<Addr, Node>
    var tokens: seq<bool>
    ghost var threads: seq<Pc>
    ghost var queue: seq<Addr>
    ghost var history: seq<Action>
    ghost var roles: seq<Role>
    ghost var turns: seq<MutexAction>   // the run as actions on a mutex

    ghost function St(): State
      reads this
    {
      State(head, queue, nodes, threads, tokens)
    }

    ghost function MutexStart(): MutexState
    {
      MutexState(origin, seq(|origin.threads|, _ => Out))
    }

    /** The recorded run leads to `s`; used as a mutex, it is a run of the mutex. */
    ghost predicate LeadsTo(s: State)
      reads this
    {
      && Init(origin) && Run(origin, history) && After(origin, history) == s && |roles| == |s.threads| == |s.tokens|
      && (mutex ==> TurnsLeadTo(MutexState(s, roles)))
    }

    ghost predicate TurnsLeadTo(m: MutexState)
      reads this
    {
      MutexInit(MutexStart()) && MutexRun(MutexStart(), turns) && MutexAfter(MutexStart(), turns) == m
    }

    ghost predicate Valid()
      reads this
    {
      LeadsTo(St())
    }

    constructor (state: Byte, n: nat, ghost mutex: bool)
      requires mutex ==> state == UNLOCKED
      ensures Valid() && this.mutex == mutex && |threads| == n && history == [] && head == Head(NULL, state)
    {
      head := Head(NULL, state);
      nodes := map[];
      tokens := seq(n, _ => false);
      threads := seq(n, _ => Idle);
      queue := [];
      history := [];
      roles := seq(n, _ => Out);
      turns := [];
      this.mutex := mutex;
      origin := State(Head(NULL, state), [], map[], seq(n, _ => Idle), seq(n, _ => false));
    }

    lemma Sound()
      requires Valid()
      ensures Inv(St())
    {
      InitInv(origin);
      RunInv(origin, history);
    }

    /** The code of a mutex is exactly as safe as the protocol. */
    lemma MutexSound()
      requires Valid() && mutex
      ensures forall t, u :: 0 <= t < u < |roles| ==> !(Owner(roles[t]) && Owner(roles[u]))
      ensures MutexInv(MutexState(St(), roles))
    {
      MutexSafe(MutexStart(), turns);
      MutexInitInv(MutexStart());
      MutexRunInv(MutexStart(), turns);
    }

    lemma OwnerMeansLocked(me: nat)
      requires Valid() && mutex && me < |roles| && Owner(roles[me])
      ensures head.state == LOCKED
    {
      MutexSound();
      SumAtLeast(roles, HeldWeight, me);
    }

    /** The state has gone on by `ext`. */
    twostate predicate Moved(ext: seq<Action>)
      reads this
    {
      && Valid() && |threads| == |old(threads)|
      && history == old(history) + ext && Run(old(St()), ext) && After(old(St()), ext) == St()
    }

    /** The others have had their turns. */
    twostate predicate Others(ext: seq<Action>, me: nat)
      requires old(LeadsTo(St())) && me < |old(threads)|
      reads this
    {
      && Moved(ext) && Foreign(ext, me) && threads[me] == old(threads[me]) && roles[me] == old(roles[me])
    }

    /** Other threads take any number of steps. Callers learn only that `me` took no part. */
    method Interference(ghost me: nat) returns (ghost ext: seq<Action>)
      requires Valid() && me < |threads|
      modifies this
      ensures Others(ext, me)
    {
      ext := [];
    }

    /** Accounts for the atomic operation `a` of thread `me`, done after the others did `ext`. */
    ghost method Record(me: nat, s0: State, ext: seq<Action>, s: State, a: Action, turn: MutexAction)
      requires LeadsTo(s) && me < |s.threads| && Enabled(s, a) && a.t == me
      requires Run(s0, ext) && After(s0, ext) == s
      requires mutex ==> MutexTurn(MutexState(s, roles), me, turn, a)
      requires head == Step(s, a).head && nodes == Step(s, a).nodes && tokens == Step(s, a).tokens
      modifies this`threads, this`queue, this`history, this`roles, this`turns
      ensures Valid() && St() == Step(s, a) && history == old(history) + [a]
      ensures Run(s0, ext + [a]) && After(s0, ext + [a]) == St()
      ensures roles == if mutex then old(roles)[me := NextRole(MutexState(s, old(roles)), turn)] else old(roles)
    {
      RunSnoc(origin, history, a);
      RunSnoc(s0, ext, a);
      StepKeepsThreads(s, a);
      if mutex {
        RecordTurn(me, s, a, turn);
      }
      history := history + [a];
      threads := Step(s, a).threads;
      queue := Step(s, a).queue;
    }

    ghost method RecordTurn(me: nat, s: State, a: Action, turn: MutexAction)
      requires mutex && LeadsTo(s) && me < |s.threads| && MutexTurn(MutexState(s, roles), me, turn, a)
      modifies this`roles, this`turns
      ensures Enabled(s, a) && TurnsLeadTo(MutexState(Step(s, a), roles))
      ensures roles == old(roles)[me := NextRole(MutexState(s, old(roles)), turn)]
    {
      MutexRunSnoc(MutexStart(), turns, turn);
      turns := turns + [turn];
      roles := roles[me := NextRole(MutexState(s, roles), turn)];
    }

    // -------------------------------------------------------------------------------------
    // The walk over a detached list.

    /** Thread `me` has been waking ever since `s0`, when the history was `h0`. */
    ghost predicate WakingSince(me: nat, s0: State, h0: seq<Action>, ext: seq<Action>)
      reads this
    {
      && history == h0 + ext && Run(s0, ext) && After(s0, ext) == St() && KeepsWaking(s0, ext, me)
      && Valid() && me < |threads| == |s0.threads|
      && (mutex ==> roles[me] == if threads[me].Idle? then Out else Unlocking)
    }

    /** The others have their turns during a walk. */
    method WalkInterference(ghost me: nat, ghost s0: State, ghost h0: seq<Action>, ghost ext: seq<Action>)
      returns (ghost all: seq<Action>)
      requires WakingSince(me, s0, h0, ext) && Waking(threads[me])
      modifies this
      ensures WakingSince(me, s0, h0, all) && threads[me] == old(threads[me])
    {
      ghost var s1 := St();
      ghost var more := Interference(me);
      ForeignKeeps(s1, more, me);
      RunConcat(s0, ext, more);
      KeepsWakingConcat(s0, ext, more, me);
      all := ext + more;
    }

    /** Accounts for a step of the walk, done in state `s`. */
    ghost method RecordGo(me: nat, s0: State, h0: seq<Action>, ext: seq<Action>, s: State) returns (all: seq<Action>)
      requires LeadsTo(s) && me < |s.threads| == |s0.threads| && Waking(s.threads[me]) && Enabled(s, Go(me))
      requires mutex ==> roles[me] == Unlocking
      requires history == h0 + ext && Run(s0, ext) && After(s0, ext) == s && KeepsWaking(s0, ext, me)
      requires head == s.head && nodes == GoStep(s, me).nodes && tokens == GoStep(s, me).tokens
      modifies this`threads, this`queue, this`history, this`roles, this`turns
      ensures WakingSince(me, s0, h0, all) && threads[me] == GoStep(s, me).threads[me]
    {
      all := ext + [Go(me)];
      GoKeeps(s, me);
      KeepsWakingConcat(s0, ext, [Go(me)], me);
      Record(me, s0, ext, s, Go(me), Proceed(me));
    }

    /** What a waker may rely on. */
    lemma WalkSound(me: nat)
      requires Valid() && me < |threads| && Waking(threads[me])
      ensures Enabled(St(), Go(me))
      ensures threads[me].Walk? ==>
        (threads[me].at == NULL <==> threads[me].rest == []) && (threads[me].at != NULL ==> threads[me].at in nodes)
      ensures threads[me].Mark? ==> threads[me].at in nodes && threads[me].rest != []
    {
      Sound();
      if threads[me].Walk? {
        WalkInv(St(), me);
        assert Linked(St().nodes, First(threads[me]), Rest(threads[me]));
      } else if threads[me].Mark? {
        LinkedHead(St(), me);
      }
    }

    /** Reads the next node's `unpark` and `next`. The owner cannot have left. */
    method ReadNode(ghost me: nat, node: Addr, ghost s0: State, ghost h0: seq<Action>, ghost ext: seq<Action>)
      returns (owner: nat, next: Addr, ghost all: seq<Action>)
      requires WakingSince(me, s0, h0, ext) && threads[me].Walk? && threads[me].at == node && node != NULL
      modifies this
      ensures WakingSince(me, s0, h0, all) && threads[me] == Mark(node, next, owner, old(threads[me].rest))
    {
      all := WalkInterference(me, s0, h0, ext);
      WalkSound(me);
      owner, next := nodes[node].owner, nodes[node].next;
      all := RecordGo(me, s0, h0, all, St());
    }

    /** Sets the node's `ready`. */
    method MarkReady(ghost me: nat, node: Addr, ghost s0: State, ghost h0: seq<Action>, ghost ext: seq<Action>)
      returns (ghost all: seq<Action>)
      requires WakingSince(me, s0, h0, ext) && threads[me].Mark? && threads[me].at == node
      modifies this
      ensures old(threads[me].rest) != [] && WakingSince(me, s0, h0, all)
      ensures threads[me] == Unpark(old(threads[me].owner), old(threads[me].next), old(threads[me].rest)[1..])
    {
      all := WalkInterference(me, s0, h0, ext);
      WalkSound(me);
      ghost var s := St();
      nodes := nodes[node := nodes[node].(ready := true)];
      all := RecordGo(me, s0, h0, all, s);
    }

    /** Hands its token to the owner of the node just marked. */
    method UnparkOwner(ghost me: nat, owner: nat, ghost s0: State, ghost h0: seq<Action>, ghost ext: seq<Action>)
      returns (ghost all: seq<Action>)
      requires WakingSince(me, s0, h0, ext) && threads[me].Unpark? && threads[me].owner == owner
      modifies this
      ensures WakingSince(me, s0, h0, all) && threads[me] == Walk(old(threads[me].next), old(threads[me].rest))
    {
      all := WalkInterference(me, s0, h0, ext);
      WalkSound(me);
      ghost var s := St();
      if owner < |tokens| {
        tokens := tokens[owner := true];
      }
      all := RecordGo(me, s0, h0, all, s);
    }

    /** The loop that wakes a detached list: exactly its nodes are marked, each once and in order. */
    method WakeAll(ghost me: nat, first: Addr) returns (ghost ext: seq<Action>)
      requires Valid() && me < |threads| && threads[me].Walk? && threads[me].at == first
      requires mutex ==> roles[me] == Unlocking
      modifies this
      ensures WakingSince(me, old(St()), old(history), ext) && threads[me] == Idle
      ensures MarkedBy(old(St()), ext, me) == old(Rest(threads[me]))
    {
      ghost var s0, h0 := St(), history;
      ext := [];
      var node := first;
      while node != NULL
        invariant WakingSince(me, s0, h0, ext) && threads[me].Walk? && threads[me].at == node
        decreases |Rest(threads[me])|
      {
        node, ext := WakeOne(me, node, s0, h0, ext);
      }
      WalkSound(me);
      ext := RecordGo(me, s0, h0, ext, St());
      AllMarked(me, s0, h0, ext);
    }

    lemma AllMarked(me: nat, s0: State, h0: seq<Action>, ext: seq<Action>)
      requires Init(origin) && Run(origin, h0) && After(origin, h0) == s0
      requires WakingSince(me, s0, h0, ext) && threads[me] == Idle && Waking(s0.threads[me])
      ensures MarkedBy(s0, ext, me) == Rest(s0.threads[me])
    {
      InitInv(origin);
      RunInv(origin, h0);
      WalkWakesAll(s0, ext, me);
    }

    /** One round of the loop. */
    method WakeOne(ghost me: nat, node: Addr, ghost s0: State, ghost h0: seq<Action>, ghost ext: seq<Action>)
      returns (next: Addr, ghost all: seq<Action>)
      requires WakingSince(me, s0, h0, ext) && threads[me].Walk? && threads[me].at == node && node != NULL
      modifies this
      ensures WakingSince(me, s0, h0, all) && threads[me].Walk? && threads[me].at == next
      ensures |Rest(threads[me])| < |old(Rest(threads[me]))|
    {
      var owner;
      owner, next, all := ReadNode(me, node, s0, h0, ext);
      all := MarkReady(me, node, s0, h0, all);
      all := UnparkOwner(me, owner, s0, h0, all);
    }

    // -------------------------------------------------------------------------------------
    // What takes effect at one instant.

    /**
     The action `a` of thread `me`, done right after `past`, found the state `found` and left `new_`.
     With wake-up it took exactly the queued nodes away, and since then, in `ext`, the thread has
     marked them, each once and in order, and done nothing else. Without it the list stayed.
     */
    ghost predicate TookEffect(me: nat, past: seq<Action>, a: Action, ext: seq<Action>, found: Byte, new_: Byte, wake: bool)
      reads this
    {
      && history == past + [a] + ext && a.t == me
      && Run(origin, past) && Enabled(After(origin, past), a)
      && var s := After(origin, past);
         var s' := Step(s, a);
         && s.head.state == found && Linked(s.nodes, s.head.ptr, s.queue)
         && s'.head == Head(if wake then NULL else s.head.ptr, new_) && s'.nodes == s.nodes
         && if wake then
              s'.queue == [] && Run(s', ext) && OnlyGoes(ext, me) && MarkedBy(s', ext, me) == s.queue
            else
              s'.queue == s.queue && ext == []
    }

    /** Swaps in an empty list. */
    method SwapHead(ghost me: nat, state: Byte) returns (cur: Head, ghost past: seq<Action>)
      requires Valid() && me < |threads| && threads[me] == Idle
      requires mutex ==> roles[me] == Held && state == UNLOCKED
      modifies this
      ensures Valid() && |threads| == |old(threads)| && (mutex ==> roles[me] == Unlocking)
      ensures old(history) <= past && Foreign(past[|old(history)|..], me) && history == past + [CallSet(me, state)]
      ensures Run(origin, past) && Enabled(After(origin, past), CallSet(me, state))
      ensures St() == Step(After(origin, past), CallSet(me, state)) && cur == After(origin, past).head
    {
      ghost var s0 := St();
      ghost var more := Interference(me);
      past := history;
      assert past[|old(history)|..] == more;
      ghost var s := St();
      cur := head;
      head := Head(NULL, state);
      Record(me, s0, more, s, CallSet(me, state), Mutex.Unlock(me));
    }

    /** `set` with wake-up. */
    method Set(ghost me: nat, state: Byte) returns (found: Byte, ghost past: seq<Action>, ghost ext: seq<Action>)
      requires Valid() && me < |threads| && threads[me] == Idle
      requires mutex ==> roles[me] == Held && state == UNLOCKED
      modifies this
      ensures Valid() && |threads| == |old(threads)| && threads[me] == Idle && (mutex ==> roles[me] == Out)
      ensures old(history) <= past && Foreign(past[|old(history)|..], me)
      ensures TookEffect(me, past, CallSet(me, state), ext, found, state, true)
    {
      var cur;
      cur, past := SwapHead(me, state);
      QueueLinked(past);
      ghost var s1 := St();
      ext := WakeAll(me, cur.ptr);
      WakersOnlyGo(s1, ext, me);
      return cur.state, past, ext;
    }

    lemma QueueLinked(past: seq<Action>)
      requires Init(origin) && Run(origin, past)
      ensures var s := After(origin, past); Linked(s.nodes, s.head.ptr, s.queue)
    {
      InitInv(origin);
      RunInv(origin, past);
    }

    /** `optimistic_update`; a caller of `lock` goes on to the slow path if it fails. */
    method OptimisticUpdate(ghost me: nat, old_: Byte, new_: Byte, ghost toLock: bool)
      returns (ok: bool, ghost past: seq<Action>)
      requires Valid() && me < |threads| && threads[me] == Idle
      requires mutex ==> (roles[me] == Out || roles[me] == Held) && old_ == UNLOCKED && new_ == LOCKED
      modifies this
      ensures Valid() && |threads| == |old(threads)| && threads[me] == Idle
      ensures mutex ==> roles[me] == if ok then Held else if toLock then SlowRole(old(roles[me])) else old(roles[me])
      ensures mutex && old(roles[me]) == Held ==> !ok
      ensures old(history) <= past && Foreign(past[|old(history)|..], me)
      ensures history == past + [CallOptimistic(me, old_, new_)] && Run(origin, past)
      ensures ok <==> After(origin, past).head == Head(NULL, old_)
      ensures ok ==> TookEffect(me, past, CallOptimistic(me, old_, new_), [], old_, new_, false)
      ensures !ok ==> St() == After(origin, past)
    {
      ghost var s0 := St();
      ghost var more := Interference(me);
      past := history;
      assert past[|old(history)|..] == more;
      QueueLinked(past);
      ghost var s := St();
      if mutex && roles[me] == Held {
        OwnerMeansLocked(me);
      }
      ok := head == Head(NULL, old_);
      if ok {
        head := Head(NULL, new_);
      }
      Record(me, s0, more, s, CallOptimistic(me, old_, new_), if toLock then Mutex.Lock(me) else Mutex.TryLock(me));
      assert past + [CallOptimistic(me, old_, new_)] + [] == history;
    }

    // -------------------------------------------------------------------------------------
    // The loop of an update.

    /** Thread `me` is in the loop that it entered when the history was `h1`. */
    ghost predicate InLoop(me: nat, role: Role, h1: seq<Action>, ext: seq<Action>)
      reads this
    {
      && Valid() && me < |threads| && history == h1 + ext && Inner(ext, me)
      && (mutex ==> InSlowPath(role) && roles[me] == if threads[me].Idle? then Held else role)
    }

    method LoopInterference(ghost me: nat,
                            ghost role: Role, ghost h1: seq<Action>, ghost ext: seq<Action>) returns (ghost all: seq<Action>)
      requires InLoop(me, role, h1, ext)
      modifies this
      ensures InLoop(me, role, h1, all) && |threads| == |old(threads)| && threads[me] == old(threads[me])
      ensures old(history) <= history && Foreign(history[|old(history)|..], me)
    {
      ghost var more := Interference(me);
      assert history[|old(history)|..] == more;
      all := ext + more;
    }

    /** What thread `me` did next, right after `past`, is what the closure answered. */
    twostate predicate Answered(me: nat, past: seq<Action>, answer: Answer)
      reads this
    {
      && old(history) <= past < history && Foreign(past[|old(history)|..], me)
      && history[|past|].t == me && Obeys(answer, history[|past|])
    }

    /** Thread `me` had the last turn. */
    ghost predicate LastIs(me: nat)
      reads this
    {
      history != [] && history[|history| - 1].t == me
    }

    /** The word that the thread has read was there when it read it. */
    lemma Looked(me: nat)
      requires Valid() && me < |threads| && threads[me].Have? && LastIs(me)
      ensures var past := history[..|history| - 1]; Run(origin, past) && After(origin, past).head == threads[me].cur
    {
      RunUnsnoc(origin, history);
      LooksAtTheWord(After(origin, history[..|history| - 1]), history[|history| - 1]);
    }

    /** One more round is over: the thread looked last of all at `h`, was answered, and acted right after `past`. */
    lemma NextRound(me: nat, n: nat, h: seq<Action>, state: Byte, past: seq<Action>,
                    f: (nat, Byte) -> Answer, asked: seq<Round>)
      requires n < |h| && h[|h| - 1].t == me && Rounds(origin, h, me, n, f, asked)
      requires Run(origin, h[..|h| - 1]) && After(origin, h[..|h| - 1]).head.state == state
      requires h <= past < history && Foreign(past[|h|..], me)
      requires history[|past|].t == me && Obeys(f(|asked|, state), history[|past|])
      requires asked != [] ==> asked[|asked| - 1].did < |h| && f(|asked| - 1, asked[|asked| - 1].state) != Break
      ensures Rounds(origin, history, me, n, f, asked + [Round(|h| - 1, state, |past|)])
    {
      hide Run, After;
      assert history[..|h| - 1] == h[..|h| - 1] && history[|h|..|past|] == past[|h|..];
      AddRound(origin, h, history, me, n, f, asked, Round(|h| - 1, state, |past|));
    }

    /** Accounts for a step inside the loop. */
    ghost method RecordInner(me: nat,
                             role: Role, h1: seq<Action>, ext: seq<Action>, s: State, a: Action, turn: MutexAction)
      returns (all: seq<Action>)
      requires LeadsTo(s) && me < |s.threads| && Enabled(s, a) && a.t == me && Inner([a], me)
      requires history == h1 + ext && Inner(ext, me)
      requires mutex ==> InSlowPath(role) && roles[me] == role && MutexTurn(MutexState(s, roles), me, turn, a)
      requires mutex ==> turn.Decide? || (turn.Proceed? && !GoStep(s, me).threads[me].Idle?)
      requires head == Step(s, a).head && nodes == Step(s, a).nodes && tokens == Step(s, a).tokens
      modifies this`threads, this`queue, this`history, this`roles, this`turns
      ensures InLoop(me, role, h1, all) && St() == Step(s, a) && history == old(history) + [a]
      ensures |threads| == |s.threads|
    {
      all := ext + [a];
      StepKeepsThreads(s, a);
      Record(me, s, [], s, a, turn);
    }

    /** The load before the loop. */
    method FirstLoad(ghost me: nat, ghost role: Role, ghost wake: bool) returns (cur: Head, ghost h1: seq<Action>)
      requires Valid() && me < |threads| && threads[me] == Idle
      requires mutex ==> !wake && InSlowPath(role) && roles[me] == role
      modifies this
      ensures InLoop(me, role, h1, []) && |threads| == |old(threads)| && threads[me] == Have(cur, wake)
      ensures |old(history)| < |h1| && old(history) <= h1 && h1[|h1| - 1] == CallUpdate(me, wake)
      ensures Foreign(h1[|old(history)|..|h1| - 1], me) && history == h1 && LastIs(me)
    {
      ghost var s0 := St();
      ghost var more := Interference(me);
      assert history[|old(history)|..] == more;
      ghost var s := St();
      cur := head;
      Record(me, s0, more, s, CallUpdate(me, wake), Mutex.Update(me));
      h1 := history;
      assert h1[|old(history)|..|h1| - 1] == more;
      assert h1 == h1 + [];
    }

    /** The weak compare-exchange to a new state. */
    method ExchangeState(ghost me: nat, cur: Head, new_: Byte, wake: bool,
                         ghost role: Role, ghost h1: seq<Action>, ghost ext: seq<Action>)
      returns (ok: bool, found: Head, ghost past: seq<Action>, ghost all: seq<Action>)
      requires InLoop(me, role, h1, ext) && threads[me] == Have(cur, wake)
      requires mutex ==> cur.state == UNLOCKED && new_ == LOCKED && !wake
      modifies this
      ensures InLoop(me, role, h1, all) && |threads| == |old(threads)|
      ensures !ok ==> threads[me] == Have(found, wake) && LastIs(me)
      ensures Answered(me, past, SetTo(new_))
      ensures mutex && role == Relocking ==> !ok
      ensures ok ==> h1 <= past && history == past + [DoUpdate(me, new_, false)] && Run(origin, past)
      ensures ok ==> Enabled(After(origin, past), DoUpdate(me, new_, false))
      ensures ok ==> St() == Step(After(origin, past), DoUpdate(me, new_, false))
      ensures ok ==> After(origin, past).head == cur && After(origin, past).threads[me] == Have(cur, wake)
    {
      all := LoopInterference(me, role, h1, ext);
      past := history;
      ghost var s := St();
      if mutex && role == Relocking {
        OwnerMeansLocked(me);
      }
      var spurious: bool := *;
      found := head;
      ok := head == cur && !spurious;
      if ok {
        head := if wake then Head(NULL, new_) else Head(cur.ptr, new_);
      }
      all := RecordInner(me, role, h1, all, s, DoUpdate(me, new_, spurious), Decide(me, false, NULL, spurious));
    }

    /** The weak compare-exchange that puts a new node at the head of the list. */
    method ExchangeNode(me: nat, cur: Head, ghost wake: bool,
                        ghost role: Role, ghost h1: seq<Action>, ghost ext: seq<Action>)
      returns (ok: bool, found: Head, addr: Addr, ghost past: seq<Action>, ghost all: seq<Action>)
      requires InLoop(me, role, h1, ext) && threads[me] == Have(cur, wake) && (mutex ==> cur.state != UNLOCKED)
      modifies this
      ensures InLoop(me, role, h1, all) && |threads| == |old(threads)|
      ensures threads[me] == if ok then CheckReady(addr, wake) else Have(found, wake)
      ensures Answered(me, past, Wait) && LastIs(me)
    {
      all := LoopInterference(me, role, h1, ext);
      past := history;
      ghost var s := St();
      ghost var b := Bounded(nodes.Keys);
      assert b + 1 !in nodes;
      addr :| addr != NULL && addr !in nodes;
      var spurious: bool := *;
      found := head;
      ok := head == cur && !spurious;
      if ok {
        head := Head(addr, cur.state);
        nodes := nodes[addr := Node(me, cur.ptr, false)];
      }
      all := RecordInner(me, role, h1, all, s, DoWait(me, true, addr, spurious), Decide(me, true, addr, spurious));
    }

    /** Loads the word again after waiting without a node. */
    method LoadAgain(ghost me: nat, ghost cur: Head, ghost wake: bool,
                     ghost role: Role, ghost h1: seq<Action>, ghost ext: seq<Action>)
      returns (found: Head, ghost past: seq<Action>, ghost all: seq<Action>)
      requires InLoop(me, role, h1, ext) && threads[me] == Have(cur, wake) && (mutex ==> cur.state != UNLOCKED)
      modifies this
      ensures InLoop(me, role, h1, all) && |threads| == |old(threads)| && threads[me] == Have(found, wake)
      ensures Answered(me, past, Wait) && LastIs(me)
    {
      all := LoopInterference(me, role, h1, ext);
      past := history;
      found := head;
      all := RecordInner(me, role, h1, all, St(), DoWait(me, false, NULL, false), Decide(me, false, NULL, false));
    }

    /** What a waiting thread may rely on: its own node is where it put it. */
    lemma WaiterSound(me: nat)
      requires Valid() && me < |threads| && Owns(threads[me])
      ensures threads[me].node in nodes && Enabled(St(), Go(me))
    {
      Sound();
    }

    /** Loads `ready` of the thread's own node. */
    method LoadReady(ghost me: nat, addr: Addr, ghost wake: bool,
                     ghost role: Role, ghost h1: seq<Action>, ghost ext: seq<Action>)
      returns (ready: bool, ghost all: seq<Action>)
      requires InLoop(me, role, h1, ext) && threads[me] == CheckReady(addr, wake)
      modifies this
      ensures InLoop(me, role, h1, all) && |threads| == |old(threads)|
      ensures old(history) <= history
      ensures threads[me] == if ready then Reload(addr, wake) else InPark(addr, wake)
    {
      all := LoopInterference(me, role, h1, ext);
      WaiterSound(me);
      ready := nodes[addr].ready;
      all := RecordInner(me, role, h1, all, St(), Go(me), Proceed(me));
    }

    /** Parks: returns with the token, or for no reason. */
    method Park(me: nat, ghost addr: Addr, ghost wake: bool,
                ghost role: Role, ghost h1: seq<Action>, ghost ext: seq<Action>)
      returns (ghost all: seq<Action>)
      requires InLoop(me, role, h1, ext) && threads[me] == InPark(addr, wake)
      modifies this
      ensures InLoop(me, role, h1, all) && |threads| == |old(threads)| && threads[me] == CheckReady(addr, wake)
      ensures old(history) <= history
    {
      all := LoopInterference(me, role, h1, ext);
      WaiterSound(me);
      ghost var s := St();
      tokens := tokens[me := false];
      all := RecordInner(me, role, h1, all, s, Go(me), Proceed(me));
    }

    /** Loads the word again and leaves; the node is gone. */
    method Leave(ghost me: nat, addr: Addr, ghost wake: bool,
                 ghost role: Role, ghost h1: seq<Action>, ghost ext: seq<Action>)
      returns (found: Head, ghost all: seq<Action>)
      requires InLoop(me, role, h1, ext) && threads[me] == Reload(addr, wake)
      modifies this
      ensures InLoop(me, role, h1, all) && |threads| == |old(threads)| && threads[me] == Have(found, wake)
      ensures old(history) < history && LastIs(me)
    {
      all := LoopInterference(me, role, h1, ext);
      WaiterSound(me);
      ghost var s := St();
      found := head;
      nodes := nodes - {addr};
      all := RecordInner(me, role, h1, all, s, Go(me), Proceed(me));
    }

    /** Waits until the node is ready, for at most `rounds` rounds. */
    method AwaitReady(me: nat, addr: Addr, ghost wake: bool, rounds: nat,
                      ghost role: Role, ghost h1: seq<Action>, ghost ext: seq<Action>)
      returns (woken: bool, left: nat, ghost all: seq<Action>)
      requires InLoop(me, role, h1, ext) && threads[me] == CheckReady(addr, wake)
      modifies this
      ensures InLoop(me, role, h1, all) && |threads| == |old(threads)| && left <= rounds && (!woken ==> left == 0)
      ensures old(history) <= history
      ensures if woken then threads[me] == Reload(addr, wake) else threads[me] == CheckReady(addr, wake)
    {
      hide Run, After, MutexRun, MutexAfter;
      all, left := ext, rounds;
      while left > 0
        invariant InLoop(me, role, h1, all) && |threads| == |old(threads)| && threads[me] == CheckReady(addr, wake)
        invariant left <= rounds && old(history) <= history
      {
        left := left - 1;
        woken, all := LoadReady(me, addr, wake, role, h1, all);
        if woken {
          return;
        }
        all := Park(me, addr, wake, role, h1, all);
      }
      woken := false;
    }

    /** The branch in which the closure wants to wait. */
    method WaitForChange(me: nat, cur: Head, ghost wake: bool, rounds: nat,
                         ghost role: Role, ghost h1: seq<Action>, ghost ext: seq<Action>)
      returns (goOn: bool, found: Head, left: nat, ghost past: seq<Action>, ghost all: seq<Action>)
      requires InLoop(me, role, h1, ext) && threads[me] == Have(cur, wake) && (mutex ==> cur.state != UNLOCKED)
      modifies this
      ensures InLoop(me, role, h1, all) && |threads| == |old(threads)| && left <= rounds && (!goOn ==> left == 0)
      ensures if goOn then threads[me] == Have(found, wake) && LastIs(me) else Owns(threads[me])
      ensures Answered(me, past, Wait)
    {
      hide Run, After, MutexRun, MutexAfter;
      var shouldBlock: bool := *;
      left := rounds;
      if !shouldBlock {
        found, past, all := LoadAgain(me, cur, wake, role, h1, ext);
        return true, found, left, past, all;
      }
      var ok, addr;
      ok, found, addr, past, all := ExchangeNode(me, cur, wake, role, h1, ext);
      if !ok {
        return true, found, left, past, all;
      }
      goOn, left, all := AwaitReady(me, addr, wake, rounds, role, h1, all);
      if goOn {
        found, all := Leave(me, addr, wake, role, h1, all);
      }
    }

    /** The closure breaks; the loop ends without a further access. */
    ghost method RecordBreak(me: nat, cur: Head, wake: bool,
                             role: Role, h1: seq<Action>, ext: seq<Action>) returns (all: seq<Action>)
      requires InLoop(me, role, h1, ext) && threads[me] == Have(cur, wake) && !mutex
      modifies this`threads, this`queue, this`history, this`roles, this`turns
      ensures InLoop(me, role, h1, all) && |threads| == |old(threads)| && threads[me] == Idle
      ensures history == old(history) + [DoBreak(me)]
    {
      all := RecordInner(me, role, h1, ext, St(), DoBreak(me), Proceed(me));
    }

    /** Tries the new state; if it takes effect, wakes the list that came with it. */
    method TryUpdate(ghost me: nat, cur: Head, new_: Byte, wake: bool,
                     ghost role: Role, ghost h1: seq<Action>, ghost ext: seq<Action>)
      returns (ok: bool, found: Head, ghost past: seq<Action>, ghost all: seq<Action>, ghost later: seq<Action>)
      requires InLoop(me, role, h1, ext) && threads[me] == Have(cur, wake)
      requires mutex ==> cur.state == UNLOCKED && new_ == LOCKED && !wake
      modifies this
      ensures InLoop(me, role, h1, all) && |threads| == |old(threads)|
      ensures threads[me] == if ok then Idle else Have(found, wake)
      ensures Answered(me, past, SetTo(new_)) && (!ok ==> LastIs(me))
      ensures mutex && role == Relocking ==> !ok
      ensures ok ==> h1 <= past && Updated(me, past, later, cur.state, new_, wake)
    {
      ok, found, past, all := ExchangeState(me, cur, new_, wake, role, h1, ext);
      later := [];
      if ok {
        QueueLinked(past);
        assert history == history + [];
        if wake {
          ghost var s1 := St();
          later := WakeAll(me, cur.ptr);
          WakersOnlyGo(s1, later, me);
          all := all + later;
        }
      }
    }

    /** An update replaced the state `found` right after `past`. */
    ghost predicate Updated(me: nat, past: seq<Action>, later: seq<Action>, found: Byte, new_: Byte, wake: bool)
      reads this
    {
      TookEffect(me, past, DoUpdate(me, new_, false), later, found, new_, wake)
    }

    ghost predicate Called(me: nat, wake: bool, n: nat)
      reads this
    {
      n <= |history| && OneUpdate(history[n..], me, wake)
    }

    /** The loop's history, seen from before the call. */
    lemma WholeCall(me: nat, wake: bool, n: nat, h1: seq<Action>, ext: seq<Action>)
      requires history == h1 + ext && Inner(ext, me) && n < |h1| && h1[|h1| - 1] == CallUpdate(me, wake)
      requires Foreign(h1[n..|h1| - 1], me)
      ensures Called(me, wake, n)
    {
      var run, k := history[n..], |h1| - 1 - n;
      assert run[..k] == h1[n..|h1| - 1];
      assert run[k + 1..] == ext;
    }

    /** Thread `me` has read `cur` and is about to call the closure, as it did for all that it was `asked`. */
    ghost predicate Asking(me: nat, wake: bool, n: nat, role: Role, h1: seq<Action>, ext: seq<Action>,
                           cur: Head, f: (nat, Byte) -> Answer, asked: seq<Round>)
      reads this
    {
      && InLoop(me, role, h1, ext) && threads[me] == Have(cur, wake) && LastIs(me)
      && n < |h1| && h1[|h1| - 1] == CallUpdate(me, wake) && Foreign(h1[n..|h1| - 1], me)
      && Rounds(origin, history, me, n, f, asked)
      && (asked != [] ==>
            var i := |asked| - 1; asked[i].did < |history| && f(i, asked[i].state) != Break)
    }

    /** The call so far, whether or not it has ended. */
    ghost predicate Asked(me: nat, wake: bool, n: nat, role: Role, f: (nat, Byte) -> Answer, asked: seq<Round>)
      reads this
    {
      && Valid() && me < |threads| && Called(me, wake, n) && Rounds(origin, history, me, n, f, asked)
      && (mutex ==> roles[me] == if threads[me].Idle? then Held else role)
    }

    /** The first load of the loop. */
    method FirstLook(ghost me: nat, ghost wake: bool, ghost role: Role, ghost f: (nat, Byte) -> Answer)
      returns (cur: Head, ghost h1: seq<Action>)
      requires Valid() && me < |threads| && threads[me] == Idle
      requires mutex ==> !wake && InSlowPath(role) && roles[me] == role
      modifies this
      ensures Asking(me, wake, |old(history)|, role, h1, [], cur, f, [])
      ensures |threads| == |old(threads)| && old(history) <= history
    {
      cur, h1 := FirstLoad(me, role, wake);
    }

    lemma StillAsked(me: nat, wake: bool, n: nat, role: Role, h1: seq<Action>, ext: seq<Action>,
                     cur: Head, f: (nat, Byte) -> Answer, asked: seq<Round>)
      requires Asking(me, wake, n, role, h1, ext, cur, f, asked)
      ensures Asked(me, wake, n, role, f, asked) && !threads[me].Idle?
    {
      hide Run, After, MutexRun, MutexAfter, Rounds;
      WholeCall(me, wake, n, h1, ext);
    }

    /** The round in which the closure answers with a new state. */
    method UpdateRound(ghost me: nat, cur: Head, new_: Byte, wake: bool, ghost n: nat, ghost role: Role,
                       ghost h1: seq<Action>, ghost ext: seq<Action>, ghost f: (nat, Byte) -> Answer, ghost asked: seq<Round>)
      returns (ok: bool, found: Head, ghost all: seq<Action>, ghost told: seq<Round>,
               ghost past: seq<Action>, ghost later: seq<Action>)
      requires Asking(me, wake, n, role, h1, ext, cur, f, asked) && f(|asked|, cur.state) == SetTo(new_)
      requires mutex ==> cur.state == UNLOCKED && new_ == LOCKED && !wake
      modifies this
      ensures |threads| == |old(threads)| && old(history) <= history && (mutex && role == Relocking ==> !ok)
      ensures told == asked + [Round(|old(history)| - 1, cur.state, |past|)]
      ensures !ok ==> Asking(me, wake, n, role, h1, all, found, f, told)
      ensures ok ==> Asked(me, wake, n, role, f, told) && threads[me] == Idle
      ensures ok ==> |h1| <= |past| && old(history) <= past && Updated(me, past, later, cur.state, new_, wake)
    {
      hide Run, After, MutexRun, MutexAfter, Rounds, IsRound, TookEffect;
      Looked(me);
      ghost var h := history;
      ok, found, past, all, later := TryUpdate(me, cur, new_, wake, role, h1, ext);
      NextRound(me, n, h, cur.state, past, f, asked);
      told := asked + [Round(|h| - 1, cur.state, |past|)];
      if ok {
        WholeCall(me, wake, n, h1, all);
      }
    }

    /** The round in which the closure wants to wait. */
    method WaitRound(me: nat, cur: Head, ghost wake: bool, rounds: nat, ghost n: nat, ghost role: Role,
                     ghost h1: seq<Action>, ghost ext: seq<Action>, ghost f: (nat, Byte) -> Answer, ghost asked: seq<Round>)
      returns (goOn: bool, found: Head, left: nat, ghost all: seq<Action>, ghost told: seq<Round>)
      requires Asking(me, wake, n, role, h1, ext, cur, f, asked) && f(|asked|, cur.state) == Wait
      requires mutex ==> cur.state != UNLOCKED
      modifies this
      ensures |threads| == |old(threads)| && old(history) <= history && left <= rounds && (!goOn ==> left == 0)
      ensures |told| == |asked| + 1
      ensures if goOn then Asking(me, wake, n, role, h1, all, found, f, told)
              else Asked(me, wake, n, role, f, told) && !threads[me].Idle?
    {
      hide Run, After, MutexRun, MutexAfter, Rounds, IsRound;
      Looked(me);
      ghost var h, past := history, [];
      goOn, found, left, past, all := WaitForChange(me, cur, wake, rounds, role, h1, ext);
      NextRound(me, n, h, cur.state, past, f, asked);
      told := asked + [Round(|h| - 1, cur.state, |past|)];
      if !goOn {
        WholeCall(me, wake, n, h1, all);
      }
    }

    /** The round in which the closure breaks. */
    ghost method BreakRound(me: nat, cur: Head, wake: bool, n: nat, role: Role,
                            h1: seq<Action>, ext: seq<Action>, f: (nat, Byte) -> Answer, asked: seq<Round>)
      returns (told: seq<Round>, past: seq<Action>)
      requires Asking(me, wake, n, role, h1, ext, cur, f, asked) && f(|asked|, cur.state) == Break && !mutex
      modifies this`threads, this`queue, this`history, this`roles, this`turns
      ensures |threads| == |old(threads)| && old(history) <= history
      ensures told == asked + [Round(|old(history)| - 1, cur.state, |old(history)|)]
      ensures Asked(me, wake, n, role, f, told) && threads[me] == Idle && SawLast(me, n, past, cur.state)
    {
      hide Run, After, MutexRun, MutexAfter, Rounds, IsRound, SawLast;
      Looked(me);
      var h := history;
      past := h[..|h| - 1];
      told := asked + [Round(|h| - 1, cur.state, |h|)];
      var all := RecordBreak(me, cur, wake, role, h1, ext);
      BrokeAt(me, n, h, cur.state, f, asked);
      WholeCall(me, wake, n, h1, all);
    }

    /** The last round, in which the thread does nothing but break. */
    lemma BrokeAt(me: nat, n: nat, h: seq<Action>, state: Byte, f: (nat, Byte) -> Answer, asked: seq<Round>)
      requires history == h + [DoBreak(me)]
      requires n < |h| && h[|h| - 1].t == me && Rounds(origin, h, me, n, f, asked)
      requires Run(origin, h[..|h| - 1]) && After(origin, h[..|h| - 1]).head.state == state
      requires f(|asked|, state) == Break
      requires asked != [] ==> asked[|asked| - 1].did < |h| && f(|asked| - 1, asked[|asked| - 1].state) != Break
      ensures Rounds(origin, history, me, n, f, asked + [Round(|h| - 1, state, |h|)])
      ensures SawLast(me, n, h[..|h| - 1], state)
    {
      hide Run, After, Rounds;
      NextRound(me, n, h, state, h, f, asked);
      assert history[|h|..] == [DoBreak(me)];
    }

    /** The thread looked at the word after `past`, found `state`, and then did nothing but break. */
    ghost predicate SawLast(me: nat, n: nat, past: seq<Action>, state: Byte)
      reads this
    {
      && n <= |past| && past < history && history[|past|].t == me
      && Run(origin, past) && After(origin, past).head.state == state
      && history[|past| + 1..] == [DoBreak(me)]
    }

    /**
     `update_wait_break_park`. Every call of the closure is shown a state that was in the word when the
     thread last looked, and the thread goes on as answered. If it ends with `Ok`, the closure answered
     a new state for the state found, and at one instant that state was there and was replaced; if it
     ends with `Err`, the closure answered to break for that state, which was there after `past`.
     */
    method UpdateWaitBreakPark(me: nat, wake: bool, f: (nat, Byte) -> Answer, rounds: nat)
      returns (r: Result, calls: nat, left: nat, ghost asked: seq<Round>, ghost past: seq<Action>, ghost later: seq<Action>)
      requires Valid() && me < |threads| && threads[me] == Idle
      requires mutex ==> InSlowPath(roles[me]) && !wake && f == LockClosure
      modifies this
      ensures Valid() && |threads| == |old(threads)| && (threads[me] == Idle <==> !r.Running?)
      ensures mutex ==> !r.Err? && roles[me] == if r.Ok? then Held else old(roles[me])
      ensures mutex && old(roles[me]) == Relocking ==> r.Running?
      ensures old(history) <= history && Called(me, wake, |old(history)|)
      ensures if r.Running? then left == 0 else left <= rounds && calls > 0
      ensures |asked| == calls && Rounds(origin, history, me, |old(history)|, f, asked)
      ensures r.Ok? ==> f(calls - 1, r.previous).SetTo? && old(history) <= past
      ensures r.Ok? ==> Updated(me, past, later, r.previous, f(calls - 1, r.previous).state, wake)
      ensures r.Ok? ==> asked[calls - 1].state == r.previous && asked[calls - 1].did == |past|
      ensures r.Err? ==> f(calls - 1, r.last) == Break && asked[calls - 1].state == r.last
      ensures r.Err? ==> SawLast(me, |old(history)|, past, r.last)
    {
      hide Run, After, MutexRun, MutexAfter, Rounds, Asking, OneUpdate, TookEffect;
      ghost var n, role := |history|, roles[me];
      var cur: Head := Head(NULL, 0);
      left := rounds;
      ghost var h1, all;
      calls := 0;
      cur, h1 := FirstLook(me, wake, role, f);
      all, asked := [], [];
      while left > 0
        invariant Asking(me, wake, n, role, h1, all, cur, f, asked)
        invariant |threads| == |old(threads)| && old(history) <= history && left <= rounds && |asked| == calls
      {
        left := left - 1;
        var answer := f(calls, cur.state);
        calls := calls + 1;
        match answer {
          case SetTo(new_) =>
            var ok, found;
            ok, found, all, asked, past, later := UpdateRound(me, cur, new_, wake, n, role, h1, all, f, asked);
            if ok {
              return Ok(cur.state), calls, left, asked, past, later;
            }
            cur := found;
          case Wait =>
            var goOn, found;
            goOn, found, left, all, asked := WaitRound(me, cur, wake, left, n, role, h1, all, f, asked);
            if !goOn {
              return Running, calls, left, asked, [], [];
            }
            cur := found;
          case Break =>
            asked, past := BreakRound(me, cur, wake, n, role, h1, all, f, asked);
            return Err(cur.state), calls, left, asked, past, [];
        }
      }
      StillAsked(me, wake, n, role, h1, all, cur, f, asked);
      return Running, calls, left, asked, [], [];
    }

    /** `update_break`, with or without wake-up: the same loop for a closure that never waits. */
    method UpdateBreak(ghost me: nat, wake: bool, f: (nat, Byte) -> Option<Byte>, rounds: nat)
      returns (r: Result, calls: nat, ghost asked: seq<Round>, ghost past: seq<Action>, ghost later: seq<Action>)
      requires Valid() && me < |threads| && threads[me] == Idle && !mutex
      modifies this
      ensures Valid() && |threads| == |old(threads)| && (threads[me] == Idle <==> !r.Running?)
      ensures old(history) <= history && Called(me, wake, |old(history)|)
      ensures if r.Running? then calls == rounds else 0 < calls <= rounds
      ensures |asked| == calls && Rounds(origin, history, me, |old(history)|, NeverWaits(f), asked)
      ensures r.Ok? ==> f(calls - 1, r.previous).Some? && old(history) <= past
      ensures r.Ok? ==> Updated(me, past, later, r.previous, f(calls - 1, r.previous).value, wake)
      ensures r.Ok? ==> asked[calls - 1].state == r.previous && asked[calls - 1].did == |past|
      ensures r.Err? ==> f(calls - 1, r.last) == None && asked[calls - 1].state == r.last
      ensures r.Err? ==> SawLast(me, |old(history)|, past, r.last)
    {
      hide Run, After, MutexRun, MutexAfter, Rounds, Asking, OneUpdate, TookEffect;
      ghost var n, role := |history|, roles[me];
      var cur: Head, left := Head(NULL, 0), rounds;
      ghost var h1, all;
      calls := 0;
      cur, h1 := FirstLook(me, wake, role, NeverWaits(f));
      all, asked := [], [];
      while left > 0
        invariant Asking(me, wake, n, role, h1, all, cur, NeverWaits(f), asked)
        invariant |threads| == |old(threads)| && old(history) <= history && calls + left == rounds && |asked| == calls
      {
        left := left - 1;
        var answer := f(calls, cur.state);
        calls := calls + 1;
        if answer == None {
          asked, past := BreakRound(me, cur, wake, n, role, h1, all, NeverWaits(f), asked);
          return Err(cur.state), calls, asked, past, [];
        }
        var ok, found;
        ok, found, all, asked, past, later :=
          UpdateRound(me, cur, answer.value, wake, n, role, h1, all, NeverWaits(f), asked);
        if ok {
          return Ok(cur.state), calls, asked, past, later;
        }
        cur := found;
      }
      StillAsked(me, wake, n, role, h1, all, cur, NeverWaits(f), asked);
      return Running, calls, asked, [], [];
    }

    // -------------------------------------------------------------------------------------
    // The mutex.

    /**
     One exchange, which locks exactly if at that instant the mutex is free and nobody waits for it;
     so the owner is told no.
     */
    method TryLock(ghost me: nat) returns (locked: bool, ghost past: seq<Action>)
      requires Valid() && mutex && me < |threads| && threads[me] == Idle && (roles[me] == Out || roles[me] == Held)
      modifies this
      ensures Valid() && |threads| == |old(threads)| && threads[me] == Idle
      ensures old(history) <= past && Foreign(past[|old(history)|..], me) && Run(origin, past)
      ensures history == past + [CallOptimistic(me, UNLOCKED, LOCKED)]
      ensures locked <==> After(origin, past).head == Head(NULL, UNLOCKED)
      ensures roles[me] == if locked then Held else old(roles[me])
      ensures old(roles[me]) == Held ==> !locked
      ensures locked ==> forall t :: 0 <= t < |roles| && t != me ==> !Owner(roles[t])
    {
      locked, past := OptimisticUpdate(me, UNLOCKED, LOCKED, false);
      if locked {
        SoleHolder(me);
      }
    }

    lemma SoleHolder(me: nat)
      requires Valid() && mutex && me < |roles| && roles[me] == Held
      ensures forall t :: 0 <= t < |roles| && t != me ==> !Owner(roles[t])
    {
      MutexSound();
      forall t | 0 <= t < |roles| && t != me
        ensures !Owner(roles[t])
      {
        assert t < me || me < t;
      }
    }

    /** One call of `lock`, seen from before it. */
    lemma WholeLock(me: nat, n: nat, past: seq<Action>)
      requires past + [CallOptimistic(me, UNLOCKED, LOCKED)] <= history && n <= |past| && Foreign(past[n..], me)
      requires history == past + [CallOptimistic(me, UNLOCKED, LOCKED)] || Called(me, false, |past| + 1)
      ensures OneLock(history[n..], me)
    {
      hide OneUpdate, OneLock;
      OneLockOf(past[n..], history[|past| + 1..], me);
      assert history[n..] == past[n..] + [CallOptimistic(me, UNLOCKED, LOCKED)] + history[|past| + 1..];
    }

    /**
     `lock_park`: when it returns, the thread is the one owner; else all rounds are used up. It does
     not return to a thread that already owns the mutex.
     */
    method LockPark(me: nat, rounds: nat) returns (locked: bool, left: nat)
      requires Valid() && mutex && me < |threads| && threads[me] == Idle && (roles[me] == Out || roles[me] == Held)
      modifies this
      ensures Valid() && |threads| == |old(threads)|
      ensures old(history) <= history && OneLock(history[|old(history)|..], me)
      ensures roles[me] == if locked then Held else SlowRole(old(roles[me]))
      ensures old(roles[me]) == Held ==> !locked
      ensures left <= rounds && (!locked ==> left == 0)
      ensures locked ==> threads[me] == Idle && forall t :: 0 <= t < |roles| && t != me ==> !Owner(roles[t])
    {
      hide Run, After, MutexRun, MutexAfter, OneLock, OneUpdate, TookEffect, Rounds;
      ghost var n, past, before, later := |history|, [], [], [];
      left := rounds;
      locked, past := OptimisticUpdate(me, UNLOCKED, LOCKED, true);
      if !locked {
        var r, calls;
        ghost var asked;
        r, calls, left, asked, before, later := UpdateWaitBreakPark(me, false, LockClosure, rounds);
        locked := r.Ok?;
      }
      WholeLock(me, n, past);
      if locked {
        SoleHolder(me);
      }
    }

    /** `unlock`: frees the mutex and wakes every thread that was queued at that instant, and does nothing else. */
    method Unlock(ghost me: nat) returns (ghost found: Byte, ghost past: seq<Action>, ghost ext: seq<Action>)
      requires Valid() && mutex && me < |threads| && threads[me] == Idle && roles[me] == Held
      modifies this
      ensures Valid() && |threads| == |old(threads)| && threads[me] == Idle && roles[me] == Out
      ensures old(history) <= past && Foreign(past[|old(history)|..], me)
      ensures TookEffect(me, past, CallSet(me, UNLOCKED), ext, found, UNLOCKED, true)
    {
      found, past, ext := Set(me, UNLOCKED);
    }
  }
}
