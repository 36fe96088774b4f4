/**
 The sharing methods of the queue in src/flip_queue.rs: fast paths under the shared lock, slow paths
 under the exclusive one. Other threads interfere before every atomic operation and every access to a
 cell; ghost fields record where everybody stands and the run so far. Waiting for the lock need not
 end, so it is followed for a given number of rounds.
 */
module FlipQueueCode {
  import opened Options
  import opened RingBuffer
  import opened FlipBuffer
  import opened FlipQueue
  import opened FlipQueueLinear
  import opened FlipQueueRuns

  datatype Guard = NoGuard | SharedGuard | ExclusiveGuard

  function GuardOf<T>(pc: Pc<T>): Guard
  {
    if HoldsShared(pc) then SharedGuard else if HoldsExclusive(pc) then ExclusiveGuard else NoGuard
  }

  function GuardsOf<T>(threads: seq<Pc<T>>): (r: seq<Guard>)
    ensures |r| == |threads| && forall t :: 0 <= t < |threads| ==> r[t] == GuardOf(threads[t])
  {
    seq(|threads|, t requires 0 <= t < |threads| => GuardOf(threads[t]))
  }

  /** After `past`, the next step of thread `me` is the step of a FIFO queue that its call amounts to. */
  ghost predicate TakesEffect<T>(origin: State<T>, past: seq<Action<T>>, me: nat, op: Op<T>, answer: Result<T>)
  {
    && Run(origin, past)
    && var s := After(origin, past);
       InOrder(s) && Enabled(s, Go(me)) && InOrder(Step(s, Go(me)))
       && Fifo(FlipQueueLinear.Queue(s), op, FlipQueueLinear.Queue(Step(s, Go(me))), answer)
  }

  /** A recorded run grows by a step. */
  lemma Extend<T>(origin: State<T>, past: seq<Action<T>>, s: State<T>, a: Action<T>)
    requires Init(origin) && Run(origin, past) && After(origin, past) == s && InOrder(s) && Enabled(s, a)
    ensures Run(origin, past + [a]) && After(origin, past + [a]) == Step(s, a) && InOrder(Step(s, a))
    ensures By(Events(origin, past + [a]), a.t) == By(Events(origin, past), a.t) + EventsOf(s, a)
  {
    InitInv(origin);
    Linearizable(origin, past);
    StepSimulated(s, a);
    RunSnoc(origin, past, a);
    ByStep(origin, past, a, a.t);
  }

  lemma StepKeepsOthers<T>(s: State<T>, a: Action<T>)
    requires Sound(s) && Enabled(s, a)
    ensures |Step(s, a).threads| == |s.threads| && Step(s, a).minCap == s.minCap
    ensures forall u :: 0 <= u < |s.threads| && u != a.t ==> Step(s, a).threads[u] == s.threads[u]
  {
  }

  /** The step under the exclusive lock gives the call its answer. */
  lemma CriticalAnswers<T>(s: State<T>, me: nat, op: Op<T>)
    requires Inv(s) && me < |s.threads| && s.threads[me] == Critical(op)
    ensures var (ring, answer) := CriticalStep(s.minCap, s.buf, op);
      && InOrder(Step(s, Go(me))) && Step(s, Go(me)).buf == Buf(ring, 0, 0)
      && Step(s, Go(me)).threads == s.threads[me := ReleaseExclusive(op, answer)]
      && EventsOf(s, Go(me)) == [Effect(me, op, answer)]
  {
    hide CriticalStep, Simulated, Buf<T>.Flush;
    CriticalSimulated(s, me);
  }

  /** The buffer stands for a queue. */
  predicate InOrder<T>(s: State<T>) { Sound(s) && s.buf.ring.Live() }

  /** Somebody else owns a guard. */
  predicate Busy(guards: seq<Guard>, me: nat) { exists u :: 0 <= u < |guards| && u != me && guards[u] != NoGuard }

  class Queue<T(==)> {
    ghost const origin: State<T>
    const minCap: nat
    var buf: Buf<T>
    var guards: seq<Guard>          // the reader-writer lock: which guard each thread owns
    ghost var claims: seq<T>
    ghost var threads: seq<Pc<T>>
    ghost var history: seq<Action<T>>

    ghost function St(): State<T>
      reads this
    {
      State(minCap, buf, claims, threads)
    }

    ghost predicate LeadsTo(s: State<T>)
      reads this
    {
      Init(origin) && Run(origin, history) && After(origin, history) == s && InOrder(s)
    }

    lemma Invariant(s: State<T>)
      requires LeadsTo(s)
      ensures Inv(s)
    {
      InitInv(origin);
      Linearizable(origin, history);
    }

    ghost predicate Valid()
      reads this
    {
      LeadsTo(St()) && guards == GuardsOf(threads)
    }

    constructor (ring: Ring<T>, n: nat, minCap: nat)
      requires ring.Live() && minCap > 0
      ensures Valid() && |threads| == n && history == [] && Linear() == ring.Contents()
    {
      this.minCap := minCap;
      buf, claims, history := Buf(ring, 0, 0), [], [];
      guards := seq(n, _ => NoGuard);
      threads := seq(n, _ => Pc<T>.Idle);
      origin := State(minCap, Buf(ring, 0, 0), [], seq(n, _ => Pc<T>.Idle));
      new;
      InitInv(origin);
    }

    /** The queue that the buffer and its claims stand for. */
    ghost function Linear(): seq<T>
      requires Valid()
      reads this
    {
      FlipQueueLinear.Queue(St())
    }

    /** Everything that thread `me` did to the queue, as its callers see it, and when it took effect. */
    ghost function MyEvents(me: nat): seq<Event<T>>
      requires Run(origin, history)
      reads this
    {
      By(Events(origin, history), me)
    }

    /** All that happened, taken together, is a run of the atomic FIFO queue. */
    lemma IsLinearizable()
      requires Valid()
      ensures AtomicRun(origin.buf.ring.Contents(), Statuses(origin), Events(origin, history), Linear(), Statuses(St()))
    {
      InitInv(origin);
      Linearizable(origin, history);
    }

    /** Other threads take any number of steps. Callers learn only that `me` took no part. */
    method OthersRun(ghost me: nat) returns (ghost ext: seq<Action<T>>)
      requires Valid() && me < |threads|
      modifies this
      ensures Valid() && history == old(history) + ext && Foreign(ext, me)
      ensures Run(old(St()), ext) && After(old(St()), ext) == St()
    {
      ext := [];
    }

    /** What that means for `me`. */
    method Interference(ghost me: nat)
      requires Valid() && me < |threads|
      modifies this
      ensures Valid() && |threads| == |old(threads)| && threads[me] == old(threads[me]) && old(history) <= history
      ensures StatusOf(St(), threads[me]) == old(StatusOf(St(), threads[me])) && MyEvents(me) == old(MyEvents(me))
    {
      ghost var s, h := St(), history;
      Invariant(s);
      ghost var ext := OthersRun(me);
      ForeignKeeps(s, ext, me);
      ForeignEvents(origin, h, ext, me);
    }

    /** Accounts for the step `a` that was done in state `s`. */
    ghost method Record(me: nat, s: State<T>, a: Action<T>)
      requires LeadsTo(s) && Enabled(s, a) && a.t == me && buf == Step(s, a).buf && s.minCap == minCap
      requires guards == GuardsOf(s.threads)[me := GuardOf(Step(s, a).threads[me])]
      modifies this`claims, this`threads, this`history
      ensures Valid() && St() == Step(s, a) && history == old(history) + [a] && |threads| == |s.threads|
      ensures MyEvents(me) == old(MyEvents(me)) + EventsOf(s, a)
    {
      Extend(origin, history, s, a);
      StepKeepsOthers(s, a);
      history := history + [a];
      claims, threads := Step(s, a).claims, Step(s, a).threads;
    }

    /** A step recorded right after `past` was the one in which the call of `me` took effect, with this answer. */
    ghost predicate EffectAt(past: seq<Action<T>>, me: nat, op: Op<T>, answer: Result<T>)
      reads this
    {
      past + [Go(me)] <= history && TakesEffect(origin, past, me, op, answer)
    }

    lemma HasEffect(past: seq<Action<T>>, s: State<T>, me: nat, op: Op<T>, answer: Result<T>)
      requires Init(origin) && Run(origin, past) && After(origin, past) == s && Sound(s)
      requires Enabled(s, Go(me)) && Sound(Step(s, Go(me))) && StatusOf(s, s.threads[me]) == Called(op)
      requires StatusOf(Step(s, Go(me)), Step(s, Go(me)).threads[me]) == Answered(op, answer)
      ensures TakesEffect(origin, past, me, op, answer)
    {
      InitInv(origin);
      Linearizable(origin, past);
      StepSimulated(s, Go(me));
      assert Statuses(s)[me] == Called(op) && Statuses(Step(s, Go(me)))[me] == Answered(op, answer);
    }

    // -------------------------------------------------------------------------------------
    // The lock.

    /** A step that only takes or releases a guard, calls or returns. */
    method Begin(ghost me: nat, ghost op: Op<T>)
      requires Valid() && me < |threads| && threads[me] == Pc<T>.Idle && (op.SwapBuffer? ==> op.ring.Live())
      modifies this
      ensures Valid() && |threads| == |old(threads)| && old(history) <= history
      ensures threads[me] == if IsPush(op) || IsPop(op) then WantShared(op) else WantExclusive(op)
      ensures MyEvents(me) == old(MyEvents(me)) + [Invoke(me, op)]
    {
      Interference(me);
      Record(me, St(), Call(me, op));
    }

    /** Waits for the shared lock, for at most `rounds` rounds. */
    method AcquireShared(me: nat, rounds: nat) returns (acquired: bool)
      requires Valid() && me < |threads| && threads[me].WantShared?
      modifies this
      ensures Valid() && |threads| == |old(threads)| && old(history) <= history
      ensures threads[me] == if acquired then Claim(old(threads[me].op)) else old(threads[me])
      ensures !acquired && rounds > 0 ==> Busy(guards, me)
      ensures MyEvents(me) == old(MyEvents(me))
    {
      hide Run, After, Events, By, TakesEffect;
      var left := rounds;
      while left > 0
        invariant Valid() && |threads| == |old(threads)| && threads[me] == old(threads[me]) && old(history) <= history
        invariant MyEvents(me) == old(MyEvents(me)) && (left < rounds ==> Busy(guards, me))
      {
        left := left - 1;
        Interference(me);
        if forall u :: 0 <= u < |guards| ==> guards[u] != ExclusiveGuard {
          ghost var s := St();
          guards := guards[me := SharedGuard];
          Record(me, s, Go(me));
          return true;
        }
      }
      return false;
    }

    /** Waits for the exclusive lock, for at most `rounds` rounds. */
    method AcquireExclusive(me: nat, rounds: nat) returns (acquired: bool)
      requires Valid() && me < |threads| && threads[me].WantExclusive?
      modifies this
      ensures Valid() && |threads| == |old(threads)| && old(history) <= history
      ensures threads[me] == if acquired then Critical(old(threads[me].op)) else old(threads[me])
      ensures !acquired && rounds > 0 ==> Busy(guards, me)
      ensures MyEvents(me) == old(MyEvents(me))
    {
      hide Run, After, Events, By, TakesEffect;
      var left := rounds;
      while left > 0
        invariant Valid() && |threads| == |old(threads)| && threads[me] == old(threads[me]) && old(history) <= history
        invariant MyEvents(me) == old(MyEvents(me)) && (left < rounds ==> Busy(guards, me))
      {
        left := left - 1;
        Interference(me);
        if forall u :: 0 <= u < |guards| ==> guards[u] == NoGuard {
          ghost var s := St();
          guards := guards[me := ExclusiveGuard];
          Record(me, s, Go(me));
          return true;
        }
      }
      return false;
    }

    /** Drops the guard that `me` owns. */
    method Release(me: nat)
      requires Valid() && me < |threads| && (threads[me].ReleaseShared? || threads[me].ReleaseExclusive?)
      modifies this
      ensures Valid() && |threads| == |old(threads)| && old(history) <= history
      ensures threads[me] == match old(threads[me])
        case ReleaseShared(op, result) => if result.Some? then Return(op, result.value) else WantExclusive(op)
        case ReleaseExclusive(op, answer) => Return(op, answer)
        case other => other
      ensures MyEvents(me) == old(MyEvents(me))
    {
      Interference(me);
      ghost var s := St();
      guards := guards[me := NoGuard];
      Record(me, s, Go(me));
    }

    method Finish(ghost me: nat)
      requires Valid() && me < |threads| && threads[me].Return?
      modifies this
      ensures Valid() && |threads| == |old(threads)| && old(history) <= history && threads[me] == Pc<T>.Idle
      ensures MyEvents(me) == old(MyEvents(me)) + [Respond(me, old(threads[me].op), old(threads[me].answer))]
    {
      Interference(me);
      Record(me, St(), Go(me));
    }

    // -------------------------------------------------------------------------------------
    // Under the shared lock.

    /** The fetch_add of `push_sync` and its decision. A push that gets a cell has taken effect. */
    method ClaimPush(ghost me: nat, ghost op: Op<T>) returns (ok: bool, i: nat, ghost past: seq<Action<T>>)
      requires Valid() && me < |threads| && threads[me] == Claim(op) && IsPush(op)
      modifies this
      ensures Valid() && |threads| == |old(threads)| && old(history) <= past && past <= history
      ensures ok ==> threads[me] == FlipQueue.Write(op, i) && EffectAt(past, me, op, Done)
      ensures !ok && op.TryPushSync? ==>
        threads[me] == ReleaseShared(op, Some(Refused(op.value))) && EffectAt(past, me, op, Refused(op.value))
      ensures !ok && op.PushSync? ==> threads[me] == ReleaseShared(op, None)
      ensures MyEvents(me) == old(MyEvents(me)) +
        if ok then [Effect(me, op, Done)] else if op.TryPushSync? then [Effect(me, op, Refused(op.value))] else []
    {
      Interference(me);
      ghost var s := St();
      past := history;
      i := buf.pushed;
      buf := buf.(pushed := i + 1);
      ok := i < buf.Vacant();
      Record(me, s, Go(me));
      if ok {
        HasEffect(past, s, me, op, Done);
      } else if op.TryPushSync? {
        HasEffect(past, s, me, op, Refused(op.value));
      }
    }

    /** Writes the cell that the push has claimed. */
    method WriteCell(ghost me: nat, ghost op: Op<T>, i: nat, value: T)
      requires Valid() && me < |threads| && threads[me] == FlipQueue.Write(op, i) && IsPush(op) && op.value == value
      modifies this
      ensures Valid() && |threads| == |old(threads)| && old(history) <= history
      ensures threads[me] == ReleaseShared(op, Some(Done))
      ensures MyEvents(me) == old(MyEvents(me))
    {
      Interference(me);
      ghost var s := St();
      Invariant(s);
      WriteInv(s, me);
      var idx := At(buf.ring.head, buf.ring.len + i, |buf.ring.cells|);
      buf := buf.(ring := buf.ring.(cells := buf.ring.cells[idx := Some(value)]));
      Record(me, s, Go(me));
    }

    /** The fetch_add of `pop_sync` and its decision. A pop that gets a cell has taken effect. */
    method ClaimPop(ghost me: nat, ghost op: Op<T>)
      returns (ok: bool, i: nat, ghost past: seq<Action<T>>, ghost element: Option<T>)
      requires Valid() && me < |threads| && threads[me] == Claim(op) && IsPop(op)
      modifies this
      ensures Valid() && |threads| == |old(threads)| && old(history) <= past && past <= history
      ensures ok ==> threads[me] == FlipQueue.Read(op, i) && EffectAt(past, me, op, Got(element))
      ensures ok ==> StatusOf(St(), threads[me]) == Answered(op, Got(element))
      ensures !ok && op.TryPopSync? ==>
        threads[me] == ReleaseShared(op, Some(Got(None))) && EffectAt(past, me, op, Got(None))
      ensures !ok && op.PopSync? ==> threads[me] == Check(op)
      ensures MyEvents(me) == old(MyEvents(me)) +
        if ok || op.TryPopSync? then [Effect(me, op, Got(element))] else []
      ensures !ok ==> element == None
    {
      Interference(me);
      ghost var s := St();
      past := history;
      i := buf.popped;
      buf := buf.(popped := i + 1);
      ok := i < buf.ring.len;
      element := None;
      Record(me, s, Go(me));
      if ok {
        element := buf.ring.cells[buf.PopCell(i)];
        HasEffect(past, s, me, op, Got(element));
      } else if op.TryPopSync? {
        HasEffect(past, s, me, op, Got(None));
      }
    }

    /** Reads the cell that the pop has claimed; it still holds what the claim took. */
    method ReadCell(ghost me: nat, ghost op: Op<T>, i: nat, ghost element: Option<T>) returns (read: Option<T>)
      requires Valid() && me < |threads| && threads[me] == FlipQueue.Read(op, i) && IsPop(op)
      requires StatusOf(St(), threads[me]) == Answered(op, Got(element))
      modifies this
      ensures Valid() && |threads| == |old(threads)| && old(history) <= history
      ensures read == element && threads[me] == ReleaseShared(op, Some(Got(element)))
      ensures MyEvents(me) == old(MyEvents(me))
    {
      Interference(me);
      Invariant(St());
      ReadSimulated(St(), me);
      read := buf.ring.cells[At(buf.ring.head, i, |buf.ring.cells|)];
      Record(me, St(), Go(me));
    }

    /** The load of `pushed` in `pop_sync`; zero means that the queue is empty now. */
    method LoadPushed(ghost me: nat) returns (none: bool, ghost past: seq<Action<T>>)
      requires Valid() && me < |threads| && threads[me] == Check(FlipQueue.PopSync)
      modifies this
      ensures Valid() && |threads| == |old(threads)| && old(history) <= past && past <= history
      ensures threads[me] == ReleaseShared(FlipQueue.PopSync, if none then Some(Got(None)) else None)
      ensures none ==> EffectAt(past, me, FlipQueue.PopSync, Got(None))
      ensures MyEvents(me) == old(MyEvents(me)) + if none then [Effect(me, FlipQueue.PopSync, Got(None))] else []
    {
      Interference(me);
      ghost var s := St();
      past := history;
      none := buf.pushed == 0;
      Record(me, s, Go(me));
      if none {
        HasEffect(past, s, me, FlipQueue.PopSync, Got(None));
      }
    }

    // -------------------------------------------------------------------------------------
    // Under the exclusive lock.

    /** The work under the exclusive lock, alone with the buffer; it takes effect here. */
    method Alone(ghost me: nat, op: Op<T>) returns (answer: Result<T>, ghost past: seq<Action<T>>)
      requires Valid() && me < |threads| && threads[me] == Critical(op)
      modifies this
      ensures Valid() && |threads| == |old(threads)| && old(history) <= past && past <= history
      ensures threads[me] == ReleaseExclusive(op, answer) && EffectAt(past, me, op, answer)
      ensures MyEvents(me) == old(MyEvents(me)) + [Effect(me, op, answer)]
    {
      Interference(me);
      ghost var s := St();
      past := history;
      Invariant(s);
      CriticalAnswers(s, me, op);
      var result := CriticalStep(minCap, buf, op);
      answer := result.1;
      buf := Buf(result.0, 0, 0);
      Record(me, s, Go(me));
      HasEffect(past, s, me, op, answer);
    }

    /** Drops the guard and returns; what has taken effect stays so. */
    method Leave(me: nat, ghost past: seq<Action<T>>, ghost op: Op<T>, ghost answer: Result<T>)
      requires Valid() && me < |threads| && EffectAt(past, me, op, answer)
      requires threads[me] == ReleaseShared(op, Some(answer)) || threads[me] == ReleaseExclusive(op, answer)
      modifies this
      ensures Valid() && |threads| == |old(threads)| && threads[me] == Pc<T>.Idle
      ensures old(history) <= history && EffectAt(past, me, op, answer)
      ensures MyEvents(me) == old(MyEvents(me)) + [Respond(me, op, answer)]
    {
      hide Run, After, Events, By, TakesEffect;
      Release(me);
      Finish(me);
    }

    /**
     Thread `me` went on with its call of `op`: if done, to its end, having taken effect once, at the
     instant after `past`; if not, as far as the lock let it in so many rounds, without any effect.
     */
    twostate predicate WentOn(me: nat, op: Op<T>, first: seq<Event<T>>, done: bool, new answer: Result<T>,
                              new past: seq<Action<T>>, rounds: nat)
      requires old(Valid()) && me < |old(threads)|
      reads this
    {
      && Valid() && |threads| == |old(threads)| && old(history) <= history
      && MyEvents(me) ==
           old(MyEvents(me)) + first + (if done then [Effect(me, op, answer), Respond(me, op, answer)] else [])
      && if done then
           threads[me] == Pc<T>.Idle && old(history) <= past && EffectAt(past, me, op, answer)
         else
           (threads[me] == WantShared(op) || threads[me] == WantExclusive(op)) && (rounds > 0 ==> Busy(guards, me))
    }

    /** A slow path: waits for the exclusive lock, does the work and returns. */
    method Exclusively(me: nat, op: Op<T>, rounds: nat) returns (done: bool, answer: Result<T>, ghost past: seq<Action<T>>)
      requires Valid() && me < |threads| && threads[me] == WantExclusive(op)
      modifies this
      ensures WentOn(me, op, [], done, answer, past, rounds)
    {
      hide Run, After, Events, By, TakesEffect;
      answer, past := Done, [];
      done := AcquireExclusive(me, rounds);
      if done {
        answer, past := Alone(me, op);
        Leave(me, past, op, answer);
      }
    }

    // -------------------------------------------------------------------------------------
    // The fast paths.

    /**
     A push under the shared lock; a refused `push_sync` has yet to take effect. `released` says that
     the lock has been acquired and released again.
     */
    method PushShared(me: nat, op: Op<T>, value: T, rounds: nat)
      returns (released: bool, ok: bool, ghost past: seq<Action<T>>)
      requires Valid() && me < |threads| && threads[me] == WantShared(op) && IsPush(op) && op.value == value
      modifies this
      ensures !released || ok || op.TryPushSync? ==>
        WentOn(me, op, [], released, if ok then Done else Refused(value), past, rounds)
      ensures released && !ok && op.PushSync? ==>
        && Valid() && |threads| == |old(threads)| && old(history) <= history
        && threads[me] == WantExclusive(op) && MyEvents(me) == old(MyEvents(me))
    {
      hide Run, After, Events, By, TakesEffect;
      ok, past := false, [];
      released := AcquireShared(me, rounds);
      if released {
        ok, past := PushHeld(me, op, value);
      }
    }

    method PushHeld(me: nat, op: Op<T>, value: T) returns (ok: bool, ghost past: seq<Action<T>>)
      requires Valid() && me < |threads| && threads[me] == Claim(op) && IsPush(op) && op.value == value
      modifies this
      ensures ok || op.TryPushSync? ==> WentOn(me, op, [], true, if ok then Done else Refused(value), past, 0)
      ensures !ok && op.PushSync? ==>
        && Valid() && |threads| == |old(threads)| && old(history) <= history
        && threads[me] == WantExclusive(op) && MyEvents(me) == old(MyEvents(me))
    {
      hide Run, After, Events, By, TakesEffect;
      var i;
      ok, i, past := ClaimPush(me, op);
      if ok {
        WriteCell(me, op, i, value);
      }
      if ok || op.TryPushSync? {
        Leave(me, past, op, if ok then Done else Refused(value));
      } else {
        Release(me);
      }
    }

    /** The part of a pop that claims an element and reads it; `ok` says whether there was one. */
    method PopClaimed(me: nat, ghost op: Op<T>) returns (ok: bool, element: Option<T>, ghost past: seq<Action<T>>)
      requires Valid() && me < |threads| && threads[me] == Claim(op) && IsPop(op)
      modifies this
      ensures Valid() && |threads| == |old(threads)| && old(history) <= past && past <= history
      ensures ok || op.TryPopSync? ==>
        threads[me] == ReleaseShared(op, Some(Got(element))) && EffectAt(past, me, op, Got(element))
      ensures !ok && op.PopSync? ==> threads[me] == Check(op)
      ensures !ok ==> element == None
      ensures MyEvents(me) == old(MyEvents(me)) +
        if ok || op.TryPopSync? then [Effect(me, op, Got(element))] else []
    {
      hide Run, After, Events, By, TakesEffect;
      var i;
      ghost var taken;
      ok, i, past, taken := ClaimPop(me, op);
      element := None;
      if ok {
        element := ReadCell(me, op, i, taken);
      }
    }

    // -------------------------------------------------------------------------------------
    // The methods. A call that returns was called, took effect once, as a step of a FIFO queue, and
    // returned; nothing else is among its thread's events.

    method TryPushSync(me: nat, value: T, rounds: nat) returns (done: bool, ok: bool, ghost past: seq<Action<T>>)
      requires Valid() && me < |threads| && threads[me] == Pc<T>.Idle
      modifies this
      ensures WentOn(me, FlipQueue.TryPushSync(value), [Invoke(me, FlipQueue.TryPushSync(value))], done,
                     if ok then Done else Refused(value), past, rounds)
    {
      hide Run, After, Events, By, TakesEffect;
      Begin(me, FlipQueue.TryPushSync(value));
      done, ok, past := PushShared(me, FlipQueue.TryPushSync(value), value, rounds);
    }

    method PushSync(me: nat, value: T, rounds: nat) returns (done: bool, ghost past: seq<Action<T>>)
      requires Valid() && me < |threads| && threads[me] == Pc<T>.Idle
      modifies this
      ensures WentOn(me, FlipQueue.PushSync(value), [Invoke(me, FlipQueue.PushSync(value))], done, Done, past, rounds)
    {
      hide Run, After, Events, By, TakesEffect;
      var ok;
      Begin(me, FlipQueue.PushSync(value));
      done, ok, past := PushShared(me, FlipQueue.PushSync(value), value, rounds);
      if done && !ok {
        done, past := PushSlow(me, value, rounds);
      }
    }

    method PushSlow(me: nat, value: T, rounds: nat) returns (done: bool, ghost past: seq<Action<T>>)
      requires Valid() && me < |threads| && threads[me] == WantExclusive(FlipQueue.PushSync(value))
      modifies this
      ensures WentOn(me, FlipQueue.PushSync(value), [], done, Done, past, rounds)
    {
      hide Run, After, Events, By;
      var answer;
      done, answer, past := Exclusively(me, FlipQueue.PushSync(value), rounds);
    }

    method TryPopSync(me: nat, rounds: nat) returns (done: bool, element: Option<T>, ghost past: seq<Action<T>>)
      requires Valid() && me < |threads| && threads[me] == Pc<T>.Idle
      modifies this
      ensures WentOn(me, FlipQueue.TryPopSync, [Invoke(me, FlipQueue.TryPopSync)], done, Got(element), past, rounds)
    {
      hide Run, After, Events, By, TakesEffect;
      element, past := None, [];
      Begin(me, FlipQueue.TryPopSync);
      done := AcquireShared(me, rounds);
      if done {
        element, past := TryPopHeld(me);
      }
    }

    /** What `try_pop_sync` does with the shared lock in hand. */
    method TryPopHeld(me: nat) returns (element: Option<T>, ghost past: seq<Action<T>>)
      requires Valid() && me < |threads| && threads[me] == Claim(FlipQueue.TryPopSync)
      modifies this
      ensures WentOn(me, FlipQueue.TryPopSync, [], true, Got(element), past, 0)
    {
      hide Run, After, Events, By, TakesEffect;
      var ok;
      ok, element, past := PopClaimed(me, FlipQueue.TryPopSync);
      Leave(me, past, FlipQueue.TryPopSync, Got(element));
    }

    method PopSync(me: nat, rounds: nat) returns (done: bool, element: Option<T>, ghost past: seq<Action<T>>)
      requires Valid() && me < |threads| && threads[me] == Pc<T>.Idle
      modifies this
      ensures WentOn(me, FlipQueue.PopSync, [Invoke(me, FlipQueue.PopSync)], done, Got(element), past, rounds)
    {
      hide Run, After, Events, By, TakesEffect;
      element, past := None, [];
      Begin(me, FlipQueue.PopSync);
      done := AcquireShared(me, rounds);
      if done {
        done, element, past := PopHeld(me, rounds);
      }
    }

    /** What `pop_sync` does with the shared lock in hand. */
    method PopHeld(me: nat, rounds: nat) returns (done: bool, element: Option<T>, ghost past: seq<Action<T>>)
      requires Valid() && me < |threads| && threads[me] == Claim(FlipQueue.PopSync)
      modifies this
      ensures WentOn(me, FlipQueue.PopSync, [], done, Got(element), past, rounds)
    {
      hide Run, After, Events, By, TakesEffect;
      var ok;
      ok, element, past := PopClaimed(me, FlipQueue.PopSync);
      if ok {
        Leave(me, past, FlipQueue.PopSync, Got(element));
        done := true;
      } else {
        done, element, past := PopOrLeave(me, rounds);
      }
    }

    /** What it does after it has found no element to claim. */
    method PopOrLeave(me: nat, rounds: nat) returns (done: bool, element: Option<T>, ghost past: seq<Action<T>>)
      requires Valid() && me < |threads| && threads[me] == Check(FlipQueue.PopSync)
      modifies this
      ensures WentOn(me, FlipQueue.PopSync, [], done, Got(element), past, rounds)
    {
      hide Run, After, Events, By, TakesEffect;
      var none;
      none, past := LoadPushed(me);
      if none {
        Leave(me, past, FlipQueue.PopSync, Got(None));
        done, element := true, None;
      } else {
        Release(me);
        done, element, past := PopSlow(me, rounds);
      }
    }

    method PopSlow(me: nat, rounds: nat) returns (done: bool, element: Option<T>, ghost past: seq<Action<T>>)
      requires Valid() && me < |threads| && threads[me] == WantExclusive(FlipQueue.PopSync)
      modifies this
      ensures WentOn(me, FlipQueue.PopSync, [], done, Got(element), past, rounds)
    {
      hide Run, After, Events, By;
      var answer;
      done, answer, past := Exclusively(me, FlipQueue.PopSync, rounds);
      element := if done then answer.element else None;
    }

    /** The closure takes up to `take` elements; the iterator drops the others. */
    method DrainLocking(me: nat, take: nat, rounds: nat) returns (done: bool, answer: Result<T>, ghost past: seq<Action<T>>)
      requires Valid() && me < |threads| && threads[me] == Pc<T>.Idle
      modifies this
      ensures WentOn(me, FlipQueue.DrainLocking(take), [Invoke(me, FlipQueue.DrainLocking(take))], done, answer, past, rounds)
    {
      hide Run, After, Events, By, TakesEffect;
      Begin(me, FlipQueue.DrainLocking(take));
      done, answer, past := Exclusively(me, FlipQueue.DrainLocking(take), rounds);
    }

    /** Exchanges the buffer's ring for the caller's. */
    method SwapBuffer(me: nat, ring: Ring<T>, rounds: nat) returns (done: bool, answer: Result<T>, ghost past: seq<Action<T>>)
      requires Valid() && me < |threads| && threads[me] == Pc<T>.Idle && ring.Live()
      modifies this
      ensures WentOn(me, FlipQueue.SwapBuffer(ring), [Invoke(me, FlipQueue.SwapBuffer(ring))], done, answer, past, rounds)
    {
      hide Run, After, Events, By, TakesEffect;
      Begin(me, FlipQueue.SwapBuffer(ring));
      done, answer, past := Exclusively(me, FlipQueue.SwapBuffer(ring), rounds);
    }
  }
}
