/** Whole runs of the locked queue: real-time FIFO order, conservation, and when the `try` methods decline. */
module FlipQueueRuns {
  import opened Options
  import opened RingBuffer
  import opened FlipBuffer
  import opened FlipQueue
  import opened FlipQueueLinear

  /** Every action of `run` is enabled when its turn comes. */
  predicate Run<T(==)>(s: State<T>, run: seq<Action<T>>)
    decreases |run|
  {
    Sound(s) && (run == [] || (Enabled(s, run[0]) && Run(Step(s, run[0]), run[1..])))
  }

  function After<T(==)>(s: State<T>, run: seq<Action<T>>): State<T>
    requires Run(s, run)
    decreases |run|
  {
    if run == [] then s else After(Step(s, run[0]), run[1..])
  }

  lemma {:induction false} RunSnoc<T>(s: State<T>, run: seq<Action<T>>, a: Action<T>)
    requires Run(s, run) && Sound(After(s, run)) && Enabled(After(s, run), a) && Sound(Step(After(s, run), a))
    ensures Run(s, run + [a]) && After(s, run + [a]) == Step(After(s, run), a)
    decreases |run|
  {
    hide Step, Enabled;
    if run == [] {
      assert [a][1..] == [];
    } else {
      RunSnoc(Step(s, run[0]), run[1..], a);
      assert (run + [a])[1..] == run[1..] + [a];
    }
  }

  /** Calls and returns as the callers see them, and the instants at which calls take effect. */
  datatype Event<T> =
    | Invoke(t: nat, op: Op<T>)
    | Effect(t: nat, op: Op<T>, answer: Result<T>)
    | Respond(t: nat, op: Op<T>, answer: Result<T>)

  /** A call or return of the code, or else a call that becomes answered. */
  function EventsOf<T>(s: State<T>, a: Action<T>): seq<Event<T>>
    requires Sound(s) && Enabled(s, a) && Sound(Step(s, a))
  {
    if a.Call? then
      [Invoke(a.t, a.op)]
    else if s.threads[a.t].Return? then
      [Respond(a.t, s.threads[a.t].op, s.threads[a.t].answer)]
    else
      var before, after := StatusOf(s, s.threads[a.t]), StatusOf(Step(s, a), Step(s, a).threads[a.t]);
      if before.Called? && after.Answered? then [Effect(a.t, before.op, after.answer)] else []
  }

  function Events<T(==)>(s: State<T>, run: seq<Action<T>>): seq<Event<T>>
    requires Run(s, run)
    decreases |run|
  {
    if run == [] then []
    else
      assert Run(Step(s, run[0]), run[1..]);
      EventsOf(s, run[0]) + Events(Step(s, run[0]), run[1..])
  }

  /** The atomic queue may do `e`: calls and returns alternate, and an effect is a FIFO step. */
  ghost predicate Legal<T>(q: seq<T>, status: seq<Status<T>>, e: Event<T>)
  {
    && e.t < |status|
    && match e {
      case Invoke(t, op) => status[t] == Quiet
      case Effect(t, op, answer) => status[t] == Called(op) && Fifo(q, op, NextQueue(q, e), answer)
      case Respond(t, op, answer) => status[t] == Answered(op, answer)
    }
  }

  ghost function NextQueue<T>(q: seq<T>, e: Event<T>): seq<T>
  {
    if !e.Effect? then q
    else
      match e.op
      case PushSync(value) => q + [value]
      case TryPushSync(value) => if e.answer == Done then q + [value] else q
      case PopSync => if q == [] || e.answer == Got(None) then q else q[1..]
      case TryPopSync => if q == [] || e.answer == Got(None) then q else q[1..]
      case DrainLocking(_) => []
      case SwapBuffer(ring) => if ring.Live() then ring.Contents() else q
  }

  ghost function NextStatus<T>(status: seq<Status<T>>, e: Event<T>): seq<Status<T>>
    requires e.t < |status|
  {
    match e
    case Invoke(t, op) => status[t := Called(op)]
    case Effect(t, op, answer) => status[t := Answered(op, answer)]
    case Respond(t, _, _) => status[t := Quiet]
  }

  /** The atomic queue goes from one state to another by exactly these events. */
  ghost predicate AtomicRun<T>(q: seq<T>, status: seq<Status<T>>, events: seq<Event<T>>, q': seq<T>, status': seq<Status<T>>)
    decreases |events|
  {
    if events == [] then
      q == q' && status == status'
    else
      Legal(q, status, events[0]) && AtomicRun(NextQueue(q, events[0]), NextStatus(status, events[0]), events[1..], q', status')
  }

  /** A FIFO step is determined by its answer. */
  lemma FifoIsDetermined<T>(q: seq<T>, t: nat, op: Op<T>, q': seq<T>, answer: Result<T>)
    requires Fifo(q, op, q', answer)
    ensures q' == NextQueue(q, Effect(t, op, answer))
  {
  }

  /** A step of the atomic queue is one event. */
  lemma AtomicStepIsEvent<T>(q: seq<T>, status: seq<Status<T>>, q': seq<T>, status': seq<Status<T>>, e: Event<T>)
    requires e.t < |status| == |status'| && forall u :: 0 <= u < |status| && u != e.t ==> status'[u] == status[u]
    requires AtomicStep(q, status[e.t], q', status'[e.t])
    requires match e
      case Invoke(t, op) => status[t] == Quiet && status'[t] == Called(op)
      case Effect(t, op, answer) => status[t] == Called(op) && status'[t] == Answered(op, answer)
      case Respond(t, op, answer) => status[t] == Answered(op, answer)
    ensures Legal(q, status, e) && q' == NextQueue(q, e) && status' == NextStatus(status, e)
  {
    if e.Effect? {
      FifoIsDetermined(q, e.t, e.op, q', e.answer);
    }
  }

  /** The event, if any, is what happens to the caller's status. */
  lemma EventFitsStatus<T>(s: State<T>, a: Action<T>)
    requires Inv(s) && Enabled(s, a) && Inv(Step(s, a)) && |Step(s, a).threads| == |s.threads|
    requires AtomicStep(Queue(s), Statuses(s)[a.t], Queue(Step(s, a)), Statuses(Step(s, a))[a.t])
      || Statuses(Step(s, a))[a.t] == Statuses(s)[a.t]
    ensures var events, before, after := EventsOf(s, a), Statuses(s)[a.t], Statuses(Step(s, a))[a.t];
      && (events == [] ==> before == after)
      && (events != [] ==> |events| == 1 && before != after && events[0].t == a.t)
      && (events != [] && events[0].Invoke? ==> before == Quiet && after == Called(events[0].op))
      && (events != [] && events[0].Effect? ==>
            before == Called(events[0].op) && after == Answered(events[0].op, events[0].answer))
      && (events != [] && events[0].Respond? ==> before == Answered(events[0].op, events[0].answer))
  {
  }

  /** One step of the code is at most one event of the atomic queue. */
  lemma StepEvent<T>(s: State<T>, a: Action<T>)
    requires Inv(s) && Enabled(s, a)
    ensures Inv(Step(s, a)) && |EventsOf(s, a)| <= 1
    ensures if EventsOf(s, a) == [] then Queue(Step(s, a)) == Queue(s) && Statuses(Step(s, a)) == Statuses(s)
      else
        var e := EventsOf(s, a)[0];
        && Legal(Queue(s), Statuses(s), e)
        && Queue(Step(s, a)) == NextQueue(Queue(s), e) && Statuses(Step(s, a)) == NextStatus(Statuses(s), e)
  {
    StepSimulated(s, a);
    EventFitsStatus(s, a);
    if EventsOf(s, a) != [] {
      AtomicStepIsEvent(Queue(s), Statuses(s), Queue(Step(s, a)), Statuses(Step(s, a)), EventsOf(s, a)[0]);
    }
  }

  /**
   Linearizability. Every run of the code, with its calls and returns in the order in which they
   happen, is a run of the atomic FIFO queue in which each call takes effect once, between its
   invocation and its response, with the answer that the code returns.
   */
  lemma {:induction false} Linearizable<T>(s: State<T>, run: seq<Action<T>>)
    requires Inv(s) && Run(s, run)
    ensures Inv(After(s, run))
    ensures AtomicRun(Queue(s), Statuses(s), Events(s, run), Queue(After(s, run)), Statuses(After(s, run)))
    decreases |run|
  {
    if run != [] {
      var s', rest := Step(s, run[0]), run[1..];
      StepEvent(s, run[0]);
      Linearizable(s', rest);
      if EventsOf(s, run[0]) == [] {
        assert Events(s, run) == Events(s', rest);
      } else {
        assert Events(s, run)[1..] == Events(s', rest);
      }
    }
  }

  lemma InitInv<T>(s: State<T>)
    requires Init(s)
    ensures Inv(s) && Queue(s) == s.buf.ring.Contents()
  {
  }

  // ---------------------------------------------------------------------------------------
  // Conservation.

  /** The elements that an event puts into the queue. */
  ghost function Entered<T>(e: Event<T>): seq<T>
  {
    if !e.Effect? then []
    else
      match e.op
      case PushSync(value) => [value]
      case TryPushSync(value) => if e.answer == Done then [value] else []
      case SwapBuffer(ring) => if ring.Live() then ring.Contents() else []
      case _ => []
  }

  function Known<T>(xs: seq<Option<T>>): seq<T>
  {
    if forall i :: 0 <= i < |xs| ==> xs[i].Some? then seq(|xs|, i requires 0 <= i < |xs| => xs[i].value) else []
  }

  /** The elements that an event takes out of the queue: popped, drained, dropped by the drain, or swapped out. */
  ghost function Left<T>(e: Event<T>): seq<T>
  {
    if !e.Effect? then []
    else
      match e.answer
      case Got(element) => if element.Some? then [element.value] else []
      case Drained(taken, dropped) => Known(taken) + Known(dropped)
      case Swapped(ring) => if ring.Live() then ring.Contents() else []
      case _ => []
  }

  ghost function AllEntered<T>(events: seq<Event<T>>): seq<T>
  {
    if events == [] then [] else Entered(events[0]) + AllEntered(events[1..])
  }

  ghost function AllLeft<T>(events: seq<Event<T>>): seq<T>
  {
    if events == [] then [] else Left(events[0]) + AllLeft(events[1..])
  }

  lemma KnownSomes<T>(xs: seq<T>)
    ensures Known(Somes(xs)) == xs
  {
  }

  lemma PushConserves<T>(q: seq<T>, e: Event<T>)
    requires e.Effect? && IsPush(e.op) && Fifo(q, e.op, NextQueue(q, e), e.answer)
    ensures q + Entered(e) == Left(e) + NextQueue(q, e)
  {
  }

  lemma PopConserves<T>(q: seq<T>, e: Event<T>)
    requires e.Effect? && IsPop(e.op) && Fifo(q, e.op, NextQueue(q, e), e.answer)
    ensures q + Entered(e) == Left(e) + NextQueue(q, e)
  {
  }

  lemma DrainConserves<T>(q: seq<T>, e: Event<T>)
    requires e.Effect? && e.op.DrainLocking? && Fifo(q, e.op, NextQueue(q, e), e.answer)
    ensures q + Entered(e) == Left(e) + NextQueue(q, e)
  {
    var n := Min(e.op.take, |q|);
    KnownSomes(q[..n]);
    KnownSomes(q[n..]);
    assert q == q[..n] + q[n..];
  }

  lemma SwapConserves<T>(q: seq<T>, e: Event<T>)
    requires e.Effect? && e.op.SwapBuffer? && Fifo(q, e.op, NextQueue(q, e), e.answer)
    ensures q + Entered(e) == Left(e) + NextQueue(q, e)
  {
  }

  lemma EventConserves<T>(q: seq<T>, status: seq<Status<T>>, e: Event<T>)
    requires Legal(q, status, e)
    ensures q + Entered(e) == Left(e) + NextQueue(q, e)
  {
    if e.Effect? {
      if IsPush(e.op) {
        PushConserves(q, e);
      } else if IsPop(e.op) {
        PopConserves(q, e);
      } else if e.op.DrainLocking? {
        DrainConserves(q, e);
      } else {
        SwapConserves(q, e);
      }
    }
  }

  lemma {:induction false} AtomicRunConserves<T>(q: seq<T>, status: seq<Status<T>>, events: seq<Event<T>>, q': seq<T>,
                                                status': seq<Status<T>>)
    requires AtomicRun(q, status, events, q', status')
    ensures q + AllEntered(events) == AllLeft(events) + q'
    decreases |events|
  {
    if events != [] {
      var mid := NextQueue(q, events[0]);
      EventConserves(q, status, events[0]);
      AtomicRunConserves(mid, NextStatus(status, events[0]), events[1..], q', status');
      Chain(q, Entered(events[0]), AllEntered(events[1..]), Left(events[0]), AllLeft(events[1..]), mid, q');
    }
  }

  /**
   Conservation in order. Over any run from a queue in use by nobody, the elements there at the
   start and those pushed or swapped in since are exactly those popped, drained or swapped out,
   first in first out, followed by those in the queue: nothing is lost or doubled when counters
   overshoot, when the buffer grows or when it is swapped.
   */
  lemma Conservation<T>(s: State<T>, run: seq<Action<T>>)
    requires Init(s) && Run(s, run)
    ensures Inv(After(s, run))
    ensures var events := Events(s, run);
      s.buf.ring.Contents() + AllEntered(events) == AllLeft(events) + Queue(After(s, run))
  {
    InitInv(s);
    Linearizable(s, run);
    AtomicRunConserves(Queue(s), Statuses(s), Events(s, run), Queue(After(s, run)), Statuses(After(s, run)));
  }

  // ---------------------------------------------------------------------------------------
  // Cells.

  /**
   Two threads that are about to touch a cell of the buffer touch different cells, and each access
   is in bounds.
   */
  lemma AccessesAreDisjoint<T>(s: State<T>, t: nat, u: nat)
    requires Inv(s) && t < |s.threads| && u < |s.threads| && t != u
    requires (s.threads[t].Write? || s.threads[t].Read?) && (s.threads[u].Write? || s.threads[u].Read?)
    ensures Enabled(s, Go(t)) && Enabled(s, Go(u))
    ensures CellOf(s, t) != CellOf(s, u)
  {
    assert t < u || u < t;
    var a, b := s.threads[t], s.threads[u];
    if a.Write? && b.Write? {
      AtInjective(s.buf.ring.head, s.buf.ring.len + a.i, s.buf.ring.len + b.i, |s.buf.ring.cells|);
    } else if a.Read? && b.Read? {
      AtInjective(s.buf.ring.head, a.i, b.i, |s.buf.ring.cells|);
    } else if a.Write? {
      AtInjective(s.buf.ring.head, s.buf.ring.len + a.i, b.i, |s.buf.ring.cells|);
    } else {
      AtInjective(s.buf.ring.head, a.i, s.buf.ring.len + b.i, |s.buf.ring.cells|);
    }
  }

  /** The cell that thread `t` is about to touch. */
  function CellOf<T>(s: State<T>, t: nat): nat
    requires Sound(s) && t < |s.threads| && Enabled(s, Go(t)) && (s.threads[t].Write? || s.threads[t].Read?)
  {
    if s.threads[t].Write? then s.buf.PushCell(s.threads[t].i) else s.buf.PopCell(s.threads[t].i)
  }

  // ---------------------------------------------------------------------------------------
  // The `try` methods.

  /**
   try_push_sync is refused exactly when as many pushes have begun since the last flush as there
   were free cells: the elements in the queue and the cells that pops have claimed since then fill
   the buffer together. So it may be refused though pops have made room. It changes nothing.
   */
  lemma TryPushDeclines<T>(s: State<T>, t: nat, value: T)
    requires Inv(s) && t < |s.threads| && s.threads[t] == Claim(TryPushSync(value))
    ensures var s' := Step(s, Go(t)); var status := StatusOf(s', s'.threads[t]);
      && (status == Answered(TryPushSync(value), Refused(value)) <==> s.buf.pushed >= s.buf.Vacant())
      && (status == Answered(TryPushSync(value), Refused(value)) <==>
            |Queue(s)| + s.buf.ClaimedPops() == |s.buf.ring.cells|)
      && (status == Answered(TryPushSync(value), Done) <==> s.buf.pushed < s.buf.Vacant())
      && Inv(s') && (status == Answered(TryPushSync(value), Refused(value)) ==> Queue(s') == Queue(s))
  {
    PushClaimSimulated(s, t);
  }

  /**
   try_pop_sync finds nothing exactly when every element in the ring has been claimed by a pop,
   even if pushes claimed since the last flush are in the queue.
   */
  lemma TryPopDeclines<T>(s: State<T>, t: nat)
    requires Inv(s) && t < |s.threads| && s.threads[t] == Claim(TryPopSync)
    ensures var status := StatusOf(Step(s, Go(t)), Step(s, Go(t)).threads[t]);
      status == Answered(TryPopSync, Got(None)) <==> Queue(s) == s.claims
  {
    assert |Queue(s)| == s.buf.ring.len - s.buf.ClaimedPops() + |s.claims|;
    if s.buf.popped >= s.buf.ring.len {
      assert s.buf.ring.Contents()[s.buf.ring.len..] == [];
    } else {
      assert s.buf.ring.cells[s.buf.PopCell(s.buf.popped)].Some?;
    }
  }

  ghost predicate Reaches<T(!new)>(start: State<T>, s: State<T>)
  {
    exists run :: Run(start, run) && After(start, run) == s
  }

  lemma ReachStep<T(!new)>(start: State<T>, s: State<T>, a: Action<T>, s': State<T>)
    requires Reaches(start, s) && Sound(s) && Enabled(s, a) && Step(s, a) == s' && Sound(s')
    ensures Reaches(start, s')
  {
    var run :| Run(start, run) && After(start, run) == s;
    RunSnoc(start, run, a);
    assert Run(start, run + [a]);
  }

  /** One thread at a queue of one cell. */
  function Single(cell: Option<int>, claims: seq<int>, pc: Pc<int>): State<int>
  {
    State(4, Buf(Ring(0, 0, [cell]), 0, |claims|), claims, [pc])
  }

  /** A step of the one thread from place to place, the buffer staying as it is. */
  lemma SingleMove(start: State<int>, cell: Option<int>, claims: seq<int>, pc: Pc<int>, pc': Pc<int>)
    requires Reaches(start, Single(cell, claims, pc))
    requires match pc
      case Idle => (pc'.WantShared? && pc'.op == TryPopSync) || pc' == WantShared(PushSync(7))
      case WantShared(op) => pc' == Claim(op)
      case ReleaseShared(op, result) => result.Some? && pc' == Return(op, result.value)
      case Return(_, _) => pc' == Idle
      case _ => false
    ensures Reaches(start, Single(cell, claims, pc'))
  {
    var s := Single(cell, claims, pc);
    var a := if pc.Idle? then Call(0, pc'.op) else Go(0);
    assert s.threads[0 := pc'] == [pc'];
    ReachStep(start, s, a, Single(cell, claims, pc'));
  }

  lemma SingleClaim(start: State<int>)
    requires Reaches(start, Single(None, [], Claim(PushSync(7))))
    ensures Reaches(start, Single(None, [7], Write(PushSync(7), 0)))
  {
    var s, s' := Single(None, [], Claim(PushSync(7))), Single(None, [7], Write(PushSync(7), 0));
    assert s.threads[0 := s'.threads[0]] == s'.threads && s.claims + [7] == s'.claims;
    ReachStep(start, s, Go(0), s');
  }

  lemma SingleWrite(start: State<int>)
    requires Reaches(start, Single(None, [7], Write(PushSync(7), 0)))
    ensures Reaches(start, Single(Some(7), [7], ReleaseShared(PushSync(7), Some(Done))))
  {
    var s := Single(None, [7], Write(PushSync(7), 0));
    var s' := Single(Some(7), [7], ReleaseShared(PushSync(7), Some(Done)));
    assert s.threads[0 := s'.threads[0]] == s'.threads && s.buf.ring.cells[0 := Some(7)] == s'.buf.ring.cells;
    ReachStep(start, s, Go(0), s');
  }

  lemma SingleReached(start: State<int>)
    requires start == Single(None, [], Idle)
    ensures Reaches(start, Single(Some(7), [7], Claim(TryPopSync)))
  {
    assert Run(start, []) && After(start, []) == start;
    var push := PushSync(7);
    SingleMove(start, None, [], Idle, WantShared(push));
    SingleMove(start, None, [], WantShared(push), Claim(push));
    SingleClaim(start);
    SingleWrite(start);
    SingleMove(start, Some(7), [7], ReleaseShared(push, Some(Done)), Return(push, Done));
    SingleMove(start, Some(7), [7], Return(push, Done), Idle);
    SingleMove(start, Some(7), [7], Idle, WantShared(TryPopSync));
    SingleMove(start, Some(7), [7], WantShared(TryPopSync), Claim(TryPopSync));
  }

  lemma SingleInv(s: State<int>)
    requires s == Single(Some(7), [7], Claim(TryPopSync))
    ensures Inv(s) && Queue(s) == [7]
  {
    assert s.buf.ring.Contents() == [];
    assert s.buf.PushCell(0) == 0;
    assert WrittenOrOwned(s, 0);
  }

  lemma SingleDeclines(s: State<int>)
    requires s == Single(Some(7), [7], Claim(TryPopSync)) && Sound(s)
    ensures Enabled(s, Go(0)) && Step(s, Go(0)).buf.ring == s.buf.ring && Step(s, Go(0)).minCap == 4
    ensures Step(s, Go(0)).threads == [ReleaseShared(TryPopSync, Some(Got(None)))]
  {
    var after: Pc<int> := ReleaseShared(TryPopSync, Some(Got(None)));
    assert s.threads[0 := after] == [after];
  }

  /**
   So it may find nothing in a queue that is not empty: from a fresh queue one thread pushes 7, and
   nobody has flushed when it tries to pop.
   */
  lemma TryPopMissesClaimedPush() returns (start: State<int>, s: State<int>)
    ensures Init(start) && Reaches(start, s) && Inv(s) && Queue(s) == [7] && s.threads == [Claim(TryPopSync)]
    ensures Sound(Step(s, Go(0)))
    ensures StatusOf(Step(s, Go(0)), Step(s, Go(0)).threads[0]) == Answered(TryPopSync, Got(None))
  {
    start, s := Single(None, [], Idle), Single(Some(7), [7], Claim(TryPopSync));
    hide Reaches;
    SingleReached(start);
    SingleInv(s);
    SingleDeclines(s);
  }

  // ---------------------------------------------------------------------------------------
  // Interference.

  /** None of the actions is thread `me`'s. */
  predicate Foreign<T>(run: seq<Action<T>>, me: nat)
  {
    forall i :: 0 <= i < |run| ==> run[i].t != me
  }

  /** Whatever the others do, thread `me` stays where it is, and so does the answer that it has coming. */
  lemma {:induction false} ForeignKeeps<T>(s: State<T>, run: seq<Action<T>>, me: nat)
    requires Inv(s) && Run(s, run) && Foreign(run, me) && me < |s.threads|
    ensures var e := After(s, run);
      Inv(e) && |e.threads| == |s.threads| && e.threads[me] == s.threads[me]
      && StatusOf(e, e.threads[me]) == StatusOf(s, s.threads[me])
    decreases |run|
  {
    if run != [] {
      StepSimulated(s, run[0]);
      ForeignStep(s, run[0], me);
      assert Statuses(Step(s, run[0]))[me] == Statuses(s)[me];
      ForeignKeeps(Step(s, run[0]), run[1..], me);
    }
  }

  lemma ForeignStep<T>(s: State<T>, a: Action<T>, me: nat)
    requires Sound(s) && Enabled(s, a) && a.t != me && me < |s.threads|
    ensures |Step(s, a).threads| == |s.threads| && Step(s, a).threads[me] == s.threads[me]
  {
  }

  // ---------------------------------------------------------------------------------------
  // The events of one thread.

  function By<T>(events: seq<Event<T>>, me: nat): seq<Event<T>>
  {
    if events == [] then []
    else
      var last := events[|events| - 1];
      By(events[..|events| - 1], me) + if last.t == me then [last] else []
  }

  lemma BySnoc<T>(events: seq<Event<T>>, more: seq<Event<T>>, t: nat, me: nat)
    requires more == [] || (|more| == 1 && more[0].t == t)
    ensures By(events + more, me) == By(events, me) + if t == me then more else []
  {
    if more == [] {
      assert events + more == events;
    } else {
      assert (events + more)[..|events|] == events;
    }
  }

  lemma {:induction false} EventsSnoc<T>(s: State<T>, run: seq<Action<T>>, a: Action<T>)
    requires Run(s, run) && Sound(After(s, run)) && Enabled(After(s, run), a) && Sound(Step(After(s, run), a))
    ensures Run(s, run + [a]) && Events(s, run + [a]) == Events(s, run) + EventsOf(After(s, run), a)
    decreases |run|
  {
    hide Step, Enabled, EventsOf;
    RunSnoc(s, run, a);
    if run == [] {
      assert [a][1..] == [];
    } else {
      EventsSnoc(Step(s, run[0]), run[1..], a);
      assert (run + [a])[1..] == run[1..] + [a];
    }
  }

  lemma EventOfItsThread<T>(s: State<T>, a: Action<T>)
    requires Sound(s) && Enabled(s, a) && Sound(Step(s, a))
    ensures EventsOf(s, a) == [] || (|EventsOf(s, a)| == 1 && EventsOf(s, a)[0].t == a.t)
  {
  }

  /** A step is an event of its own thread only. */
  lemma ByStep<T>(s: State<T>, run: seq<Action<T>>, a: Action<T>, me: nat)
    requires Run(s, run) && Sound(After(s, run)) && Enabled(After(s, run), a) && Sound(Step(After(s, run), a))
    ensures Run(s, run + [a])
    ensures By(Events(s, run + [a]), me) ==
      By(Events(s, run), me) + if a.t == me then EventsOf(After(s, run), a) else []
  {
    hide Step, Enabled, EventsOf, Events, Run, After, By;
    EventsSnoc(s, run, a);
    EventOfItsThread(After(s, run), a);
    BySnoc(Events(s, run), EventsOf(After(s, run), a), a.t, me);
  }

  lemma {:induction false} EventsConcat<T>(s: State<T>, a: seq<Action<T>>, b: seq<Action<T>>)
    requires Run(s, a) && Run(After(s, a), b)
    ensures Run(s, a + b) && Events(s, a + b) == Events(s, a) + Events(After(s, a), b)
    decreases |a|
  {
    hide Step, Enabled, EventsOf;
    if a == [] {
      assert a + b == b;
    } else {
      EventsConcat(Step(s, a[0]), a[1..], b);
      assert (a + b)[1..] == a[1..] + b;
    }
  }

  /** None of the events is thread `me`'s. */
  predicate NoneBy<T>(events: seq<Event<T>>, me: nat)
  {
    forall i :: 0 <= i < |events| ==> events[i].t != me
  }

  lemma {:induction false} ByKeeps<T>(events: seq<Event<T>>, more: seq<Event<T>>, me: nat)
    requires NoneBy(more, me)
    ensures By(events + more, me) == By(events, me)
    decreases |more|
  {
    if more == [] {
      assert events + more == events;
    } else {
      var n := |more| - 1;
      assert (events + more)[..|events| + n] == events + more[..n];
      ByKeeps(events, more[..n], me);
    }
  }

  lemma {:induction false} ForeignNone<T>(s: State<T>, ext: seq<Action<T>>, me: nat)
    requires Inv(s) && Run(s, ext) && Foreign(ext, me)
    ensures NoneBy(Events(s, ext), me)
    decreases |ext|
  {
    if ext != [] {
      StepSimulated(s, ext[0]);
      ForeignNone(Step(s, ext[0]), ext[1..], me);
    }
  }

  /** What the others do adds nothing to the events of `me`. */
  lemma ForeignEvents<T>(s: State<T>, run: seq<Action<T>>, ext: seq<Action<T>>, me: nat)
    requires Run(s, run) && Inv(After(s, run)) && Run(After(s, run), ext) && Foreign(ext, me)
    ensures Run(s, run + ext) && By(Events(s, run + ext), me) == By(Events(s, run), me)
  {
    EventsConcat(s, run, ext);
    ForeignNone(After(s, run), ext, me);
    ByKeeps(Events(s, run), Events(After(s, run), ext), me);
  }
}
