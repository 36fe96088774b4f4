/** Whole runs of the wait list: what a waker may touch, and that each detached node is woken once. */
module CondVarRuns {
  import opened CondVar
  import opened CondVarSafety

  /** Every action of `run` is enabled when its turn comes. */
  predicate Run(s: State, run: seq<Action>)
    decreases |run|
  {
    run == [] || (Enabled(s, run[0]) && Run(Step(s, run[0]), run[1..]))
  }

  function After(s: State, run: seq<Action>): State
    requires Run(s, run)
    decreases |run|
  {
    if run == [] then s else After(Step(s, run[0]), run[1..])
  }

  lemma {:induction false} RunInv(s: State, run: seq<Action>)
    requires Inv(s) && Run(s, run)
    ensures Inv(After(s, run))
    decreases |run|
  {
    if run != [] {
      StepInv(s, run[0]);
      RunInv(Step(s, run[0]), run[1..]);
    }
  }

  /**
   Safety under address reuse, in every reachable state: nobody has touched dead memory; the node
   that a waker is about to read or to mark is live, has not been woken and is in no other list;
   its owner is therefore still waiting.
   */
  lemma WaitListSafe(s: State, run: seq<Action>, w: nat)
    requires Init(s) && Run(s, run) && w < |After(s, run).threads|
    ensures var e := After(s, run); var pc := e.threads[w];
      && pc != Fault && ListsApart(e)
      && ((pc.Walk? && pc.at != NULL) || pc.Mark? ==>
            && pc.at in e.nodes && !e.nodes[pc.at].ready && pc.at !in e.queue
            && var owner := e.nodes[pc.at].owner;
               owner < |e.threads| && Owns(e.threads[owner]) && !e.threads[owner].Reload? && e.threads[owner].node == pc.at)
  {
    InitInv(s);
    RunInv(s, run);
    var e := After(s, run);
    assert Healthy(e, e.threads[w]);
    assert Linked(e.nodes, First(e.threads[w]), Rest(e.threads[w]));
    if (e.threads[w].Walk? && e.threads[w].at != NULL) || e.threads[w].Mark? {
      var a := e.threads[w].at;
      assert a in Rest(e.threads[w]);
      assert Healthy(e, e.threads[e.nodes[a].owner]);
    }
  }

  /** No wake-up is lost: an unwoken node is queued or in a waker's hands; a woken, parked thread is owed its token. */
  lemma NoLostWakeup(s: State, run: seq<Action>)
    requires Init(s) && Run(s, run)
    ensures var e := After(s, run);
      && (forall a :: a in e.nodes && !e.nodes[a].ready ==>
            a in e.queue || exists w :: 0 <= w < |e.threads| && a in Rest(e.threads[w]))
      && (forall t :: 0 <= t < |e.threads| && MustWake(e, t) ==>
            t < |e.tokens| && (e.tokens[t] || Owed(e.threads, t)))
  {
    InitInv(s);
    RunInv(s, run);
  }

  /**
   What an update does at its atomic instant: with wake-up it takes exactly the queued nodes and
   leaves an empty list, without it only the state byte changes; a failed exchange changes nothing.
   */
  lemma UpdateTakesTheQueue(s: State, t: nat, new_: Byte, spurious: bool)
    requires Inv(s) && Enabled(s, DoUpdate(t, new_, spurious))
    ensures var s', pc := Step(s, DoUpdate(t, new_, spurious)), s.threads[t];
      if s.head != pc.cur || spurious then
        s'.head == s.head && s'.queue == s.queue && s'.threads[t] == Have(s.head, pc.wake)
      else if pc.wake then
        Rest(s'.threads[t]) == s.queue && s'.queue == [] && s'.head == Head(NULL, new_)
      else
        s'.queue == s.queue && s'.head == Head(s.head.ptr, new_) && s'.threads[t] == Idle
    ensures Step(s, DoUpdate(t, new_, spurious)).nodes == s.nodes
    ensures Linked(s.nodes, s.head.ptr, s.queue)
  {
  }

  /**
   What a thread does that waits: with the word still as it read it, it puts a live, unwoken node of
   its own before the queue and leaves the state alone; else it reads the word again and changes nothing.
   */
  lemma WaitPushes(s: State, t: nat, block: bool, addr: Addr, spurious: bool)
    requires Inv(s) && Enabled(s, DoWait(t, block, addr, spurious))
    ensures var s', pc := Step(s, DoWait(t, block, addr, spurious)), s.threads[t];
      if block && s.head == pc.cur && !spurious then
        && s'.head == Head(addr, s.head.state) && s'.queue == [addr] + s.queue && Linked(s'.nodes, s'.head.ptr, s'.queue)
        && s'.nodes == s.nodes[addr := Node(t, s.head.ptr, false)] && addr !in s.nodes
        && s'.threads[t] == CheckReady(addr, pc.wake)
      else
        s' == s.(threads := s.threads[t := Have(s.head, pc.wake)])
  {
    StepInv(s, DoWait(t, block, addr, spurious));
  }

  /** The action stores a state byte: `set`, and an optimistic or other update whose exchange succeeds. */
  predicate Stores(s: State, a: Action)
    requires Enabled(s, a)
  {
    match a
    case CallSet(_, _) => true
    case CallOptimistic(_, old_, _) => s.head == Head(NULL, old_)
    case DoUpdate(t, _, spurious) => s.head == s.threads[t].cur && !spurious
    case _ => false
  }

  function Stored(a: Action): Byte
    requires a.CallSet? || a.CallOptimistic? || a.DoUpdate?
  {
    match a
    case CallSet(_, state) => state
    case CallOptimistic(_, _, new_) => new_
    case DoUpdate(_, new_, _) => new_
  }

  /** Nothing else, waiting and leaving least of all, touches the state byte. */
  lemma StateStays(s: State, a: Action)
    requires Enabled(s, a)
    ensures Step(s, a).head.state == if Stores(s, a) then Stored(a) else s.head.state
  {
  }

  /** The state stored last in the run, `first` if none was. */
  function LastStored(s: State, run: seq<Action>, first: Byte): Byte
    requires Run(s, run)
    decreases |run|
  {
    if run == [] then first
    else LastStored(Step(s, run[0]), run[1..], if Stores(s, run[0]) then Stored(run[0]) else first)
  }

  /** After every run the state byte is the one stored last. */
  lemma {:induction false} StateIsLastStored(s: State, run: seq<Action>)
    requires Run(s, run)
    ensures After(s, run).head.state == LastStored(s, run, s.head.state)
    decreases |run|
  {
    if run != [] {
      StateStays(s, run[0]);
      StateIsLastStored(Step(s, run[0]), run[1..]);
    }
  }

  /** Every step that leads up to the closure reads the word: by a load or by an exchange that fails. */
  lemma LooksAtTheWord(s: State, a: Action)
    requires Enabled(s, a) && a.t < |Step(s, a).threads| && Step(s, a).threads[a.t].Have?
    ensures Step(s, a).threads[a.t].cur == s.head
    ensures if s.threads[a.t].Idle? then a.CallUpdate? && Step(s, a).threads[a.t].wake == a.wake
            else !Waking(s.threads[a.t]) && Step(s, a).threads[a.t].wake == s.threads[a.t].wake
  {
  }

  /** What a thread shows the closure was in the word when the thread last did anything. */
  lemma {:induction false} HaveWasThere(s: State, run: seq<Action>, t: nat) returns (k: nat)
    requires Init(s) && Run(s, run) && t < |s.threads| == |After(s, run).threads| && After(s, run).threads[t].Have?
    ensures k < |run| && run[k].t == t && Foreign(run[k + 1..], t)
    ensures Run(s, run[..k]) && After(s, run[..k]).head == After(s, run).threads[t].cur
    decreases |run|
  {
    RunUnsnoc(s, run);
    k := |run| - 1;
    var most := run[..k];
    if run[k].t == t {
      LooksAtTheWord(After(s, most), run[k]);
    } else {
      RunKeepsThreads(s, most);
      ForeignStep(After(s, most), run[k], t);
      k := HaveWasThere(s, most, t);
      assert run[..k] == most[..k];
      assert run[k + 1..] == most[k + 1..] + [run[|run| - 1]];
    }
  }

  lemma {:induction false} RunKeepsThreads(s: State, run: seq<Action>)
    requires Run(s, run)
    ensures |After(s, run).threads| == |s.threads|
    decreases |run|
  {
    if run != [] {
      RunKeepsThreads(Step(s, run[0]), run[1..]);
    }
  }

  /** A node goes away only with its owner, after it has been woken. */
  lemma LeavesOnlyWoken(s: State, a: Action, n: Addr)
    requires Inv(s) && Enabled(s, a) && n in s.nodes && n !in Step(s, a).nodes
    ensures a == Go(s.nodes[n].owner) && s.threads[a.t].Reload? && s.nodes[n].ready
  {
    assert Healthy(s, s.threads[a.t]);
  }

  // ---------------------------------------------------------------------------------------
  // Exactly once.

  predicate Waking(pc: Pc) { pc.Walk? || pc.Mark? || pc.Unpark? }

  /** Thread `w` is waking its list in every state of the run but perhaps the last. */
  predicate KeepsWaking(s: State, run: seq<Action>, w: nat)
    requires Run(s, run)
    decreases |run|
  {
    run != [] ==> w < |s.threads| && Waking(s.threads[w]) && KeepsWaking(Step(s, run[0]), run[1..], w)
  }

  /** The nodes whose `ready` thread `w` sets during the run, in order. */
  function MarkedBy(s: State, run: seq<Action>, w: nat): seq<Addr>
    requires Run(s, run)
    decreases |run|
  {
    if run == [] then []
    else
      (if run[0] == Go(w) && w < |s.threads| && s.threads[w].Mark? then [s.threads[w].at] else [])
      + MarkedBy(Step(s, run[0]), run[1..], w)
  }

  /** What a step off a waker's list needs to know. */
  predicate WakerSound(s: State, w: nat)
  {
    w < |s.threads| && Waking(s.threads[w]) && Healthy(s, s.threads[w]) && NULL !in s.nodes
    && Linked(s.nodes, First(s.threads[w]), Rest(s.threads[w]))
  }

  /** One step takes off a waker's list exactly the node that it marks. */
  lemma RestStep(s: State, a: Action, w: nat)
    requires Enabled(s, a) && WakerSound(s, w)
    ensures |Step(s, a).threads| == |s.threads|
    ensures Rest(s.threads[w]) ==
      (if a == Go(w) && s.threads[w].Mark? then [s.threads[w].at] else []) + Rest(Step(s, a).threads[w])
  {
    if a == Go(w) {
      RestGo(s, w);
    } else {
      ForeignStep(s, a, w);
    }
  }

  lemma RestGo(s: State, w: nat)
    requires Enabled(s, Go(w)) && WakerSound(s, w)
    ensures |GoStep(s, w).threads| == |s.threads|
    ensures Rest(s.threads[w]) == (if s.threads[w].Mark? then [s.threads[w].at] else []) + Rest(GoStep(s, w).threads[w])
  {
    if s.threads[w].Mark? {
      assert s.threads[w].rest == [s.threads[w].rest[0]] + s.threads[w].rest[1..];
    }
  }

  /** Taking the first part off one side of a balance. */
  lemma Regroup<T>(first: seq<T>, marked: seq<T>, left: seq<T>, rest: seq<T>, whole: seq<T>)
    requires marked + left == rest && whole == first + rest
    ensures (first + marked) + left == whole
  {
  }

  lemma MarksStep(s: State, run: seq<Action>, w: nat)
    requires run != [] && Run(s, run) && WakerSound(s, w)
    requires var s', rest := Step(s, run[0]), run[1..];
      w < |s'.threads| && w < |After(s', rest).threads|
      && MarkedBy(s', rest, w) + Rest(After(s', rest).threads[w]) == Rest(s'.threads[w])
    ensures w < |After(s, run).threads|
    ensures MarkedBy(s, run, w) + Rest(After(s, run).threads[w]) == Rest(s.threads[w])
  {
    RestStep(s, run[0], w);
    hide Step, Enabled, WakerSound, Rest;
    var s', rest := Step(s, run[0]), run[1..];
    var first := if run[0] == Go(w) && s.threads[w].Mark? then [s.threads[w].at] else [];
    Regroup(first, MarkedBy(s', rest, w), Rest(After(s', rest).threads[w]), Rest(s'.threads[w]), Rest(s.threads[w]));
  }

  lemma WakerIsSound(s: State, w: nat)
    requires Inv(s) && w < |s.threads| && Waking(s.threads[w])
    ensures WakerSound(s, w)
  {
  }

  /**
   A waker marks the nodes of its list one by one and in order: those marked so far and those still
   to mark make up the list it started with.
   */
  lemma {:induction false} MarksItsList(s: State, run: seq<Action>, w: nat)
    requires Inv(s) && Run(s, run) && KeepsWaking(s, run, w) && w < |s.threads|
    ensures w < |After(s, run).threads|
    ensures MarkedBy(s, run, w) + Rest(After(s, run).threads[w]) == Rest(s.threads[w])
    decreases |run|
  {
    if run != [] {
      WakerIsSound(s, w);
      RestStep(s, run[0], w);
      StepInv(s, run[0]);
      MarksItsList(Step(s, run[0]), run[1..], w);
      MarksStep(s, run, w);
    }
  }

  /** When the walk is over, exactly the detached nodes have been marked, each once. */
  lemma WalkWakesAll(s: State, run: seq<Action>, w: nat)
    requires Inv(s) && Run(s, run) && w < |s.threads| && Waking(s.threads[w]) && KeepsWaking(s, run, w)
    requires w < |After(s, run).threads| && After(s, run).threads[w] == Idle
    ensures MarkedBy(s, run, w) == Rest(s.threads[w])
    ensures forall i, j :: 0 <= i < j < |MarkedBy(s, run, w)| ==> MarkedBy(s, run, w)[i] != MarkedBy(s, run, w)[j]
  {
    MarksItsList(s, run, w);
    LinkedDistinct(s.nodes, First(s.threads[w]), Rest(s.threads[w]));
  }

  /** The action takes the whole list off the word: `set`, or an update with wake-up that succeeds. */
  predicate Detaches(s: State, a: Action)
    requires Enabled(s, a)
  {
    match a
    case CallSet(_, _) => true
    case DoUpdate(t, _, spurious) => s.head == s.threads[t].cur && !spurious && s.threads[t].wake
    case _ => false
  }

  /**
   From the instant of an update with wake-up to the end of its walk, whatever the others do: the
   nodes queued at that instant, and no others, are marked, each once and from the head on.
   */
  lemma QueueIsWoken(s: State, a: Action, run: seq<Action>)
    requires Inv(s) && Enabled(s, a) && Detaches(s, a) && Run(Step(s, a), run) && KeepsWaking(Step(s, a), run, a.t)
    requires a.t < |After(Step(s, a), run).threads| && After(Step(s, a), run).threads[a.t] == Idle
    ensures Linked(s.nodes, s.head.ptr, s.queue) && MarkedBy(Step(s, a), run, a.t) == s.queue
    ensures forall i, j :: 0 <= i < j < |s.queue| ==> s.queue[i] != s.queue[j]
  {
    StepInv(s, a);
    WalkWakesAll(Step(s, a), run, a.t);
  }

  lemma {:induction false} LinkedDistinct(nodes: map<Addr, Node>, p: Addr, c: seq<Addr>)
    requires Linked(nodes, p, c)
    ensures forall i, j :: 0 <= i < j < |c| ==> c[i] != c[j]
    decreases |c|
  {
    if c != [] {
      LinkedDistinct(nodes, nodes[p].next, c[1..]);
    }
  }

  /** No step but a waker's mark touches a node, except to push or to take away a whole one. */
  lemma NodesStay(s: State, a: Action, n: Addr)
    requires Enabled(s, a) && n in s.nodes && n in Step(s, a).nodes
    ensures Step(s, a).nodes[n] == s.nodes[n] || (a.Go? && s.threads[a.t].Mark? && s.threads[a.t].at == n)
  {
  }

  /** `ready` goes from false to true only by a waker that holds the node, and never back while the node lives. */
  lemma ReadyOnlyByWaker(s: State, a: Action, n: Addr)
    requires Inv(s) && Enabled(s, a) && n in s.nodes && n in Step(s, a).nodes
    ensures s.nodes[n].ready ==> Step(s, a).nodes[n].ready
    ensures !s.nodes[n].ready && Step(s, a).nodes[n].ready ==>
      a.Go? && s.threads[a.t].Mark? && s.threads[a.t].at == n && n in Rest(s.threads[a.t])
  {
    NodesStay(s, a, n);
    if a.Go? && s.threads[a.t].Mark? {
      LinkedHead(s, a.t);
    }
  }

  // ---------------------------------------------------------------------------------------
  // Putting runs together.

  lemma {:induction false} RunConcat(s: State, a: seq<Action>, b: seq<Action>)
    requires Run(s, a) && Run(After(s, a), b)
    ensures Run(s, a + b) && After(s, a + b) == After(After(s, a), b)
    decreases |a|
  {
    hide Step, Enabled;
    if a == [] {
      assert a + b == b;
    } else {
      RunConcat(Step(s, a[0]), a[1..], b);
      assert (a + b)[1..] == a[1..] + b;
    }
  }

  lemma {:induction false} RunSnoc(s: State, run: seq<Action>, a: Action)
    requires Run(s, run) && Enabled(After(s, run), a)
    ensures Run(s, run + [a]) && After(s, run + [a]) == Step(After(s, run), a)
    decreases |run|
  {
    hide Step, Enabled;
    if run == [] {
      assert [a][1..] == [];
    } else {
      RunSnoc(Step(s, run[0]), run[1..], a);
      assert (run + [a])[1..] == run[1..] + [a];
    }
  }

  /** A run without its last action. */
  lemma {:induction false} RunUnsnoc(s: State, run: seq<Action>)
    requires Run(s, run) && run != []
    ensures var most, last := run[..|run| - 1], run[|run| - 1];
      Run(s, most) && Enabled(After(s, most), last) && After(s, run) == Step(After(s, most), last)
    decreases |run|
  {
    hide Step, Enabled;
    if |run| > 1 {
      RunUnsnoc(Step(s, run[0]), run[1..]);
      assert run[1..][..|run| - 2] == run[..|run| - 1][1..];
    }
  }

  lemma {:induction false} KeepsWakingConcat(s: State, a: seq<Action>, b: seq<Action>, w: nat)
    requires Run(s, a) && Run(After(s, a), b) && KeepsWaking(s, a, w) && KeepsWaking(After(s, a), b, w)
    ensures Run(s, a + b) && KeepsWaking(s, a + b, w)
    decreases |a|
  {
    hide Step, Enabled;
    RunConcat(s, a, b);
    if a == [] {
      assert a + b == b;
    } else {
      KeepsWakingConcat(Step(s, a[0]), a[1..], b, w);
      assert (a + b)[1..] == a[1..] + b;
    }
  }

  /** None of the actions is thread `me`'s. */
  predicate Foreign(run: seq<Action>, me: nat)
  {
    forall i :: 0 <= i < |run| ==> run[i].t != me
  }

  lemma ForeignStep(s: State, a: Action, me: nat)
    requires Enabled(s, a) && a.t != me && me < |s.threads|
    ensures |Step(s, a).threads| == |s.threads| && Step(s, a).threads[me] == s.threads[me]
  {
  }

  /** The others never move thread `me`: a waker keeps waking while they run. */
  lemma {:induction false} ForeignKeeps(s: State, run: seq<Action>, me: nat)
    requires Run(s, run) && Foreign(run, me) && me < |s.threads|
    ensures |After(s, run).threads| == |s.threads| && After(s, run).threads[me] == s.threads[me]
    ensures Waking(s.threads[me]) ==> KeepsWaking(s, run, me)
    decreases |run|
  {
    if run != [] {
      ForeignStep(s, run[0], me);
      ForeignKeeps(Step(s, run[0]), run[1..], me);
    }
  }

  /** A thread that is waking does nothing but go on. */
  predicate OnlyGoes(run: seq<Action>, me: nat)
  {
    forall i :: 0 <= i < |run| && run[i].t == me ==> run[i].Go?
  }

  lemma {:induction false} WakersOnlyGo(s: State, run: seq<Action>, me: nat)
    requires Run(s, run) && KeepsWaking(s, run, me)
    ensures OnlyGoes(run, me)
    decreases |run|
  {
    if run != [] {
      WakersOnlyGo(Step(s, run[0]), run[1..], me);
      assert run == [run[0]] + run[1..];
    }
  }
}
