/** No call is ever stuck: any open call can be brought to its return, without new calls. */
module FlipQueueProgress {
  import opened Sums
  import opened FlipBuffer
  import opened FlipQueue
  import opened FlipQueueLinear
  import opened FlipQueueRuns

  /** A bound on the steps that a thread has still to take until it returns. */
  function StepsLeft<T>(pc: Pc<T>): nat
  {
    match pc
    case Idle => 0
    case Return(_, _) => 1
    case ReleaseShared(_, result) => if result.Some? then 2 else 6
    case ReleaseExclusive(_, _) => 2
    case Write(_, _) => 3
    case Read(_, _) => 3
    case Critical(_) => 4
    case WantExclusive(_) => 5
    case Check(_) => 7
    case Claim(_) => 8
    case WantShared(_) => 9
  }

  /** The steps until a thread that owns a guard has dropped it. */
  function HoldingLeft<T>(pc: Pc<T>): nat { if Holds(pc) then StepsLeft(pc) else 0 }

  /** The steps that threads other than `t` may need to drop their guards. */
  function OthersLeft<T>(s: State<T>, t: nat): nat
    requires t < |s.threads|
  {
    Sum(s.threads[t := Idle], HoldingLeft)
  }

  /** The thread's own next step brings it nearer to its end. */
  lemma GoComesNearer<T>(s: State<T>, u: nat)
    requires Sound(s) && u < |s.threads| && !s.threads[u].Idle? && Enabled(s, Go(u))
    ensures |Step(s, Go(u)).threads| == |s.threads|
    ensures Step(s, Go(u)).threads == s.threads[u := Step(s, Go(u)).threads[u]]
    ensures StepsLeft(Step(s, Go(u)).threads[u]) < StepsLeft(s.threads[u])
  {
  }

  /** Who goes next: the thread itself or, if the lock keeps it waiting, one that owns a guard. */
  lemma NextToGo<T>(s: State<T>, t: nat) returns (u: nat)
    requires Inv(s) && t < |s.threads| && !s.threads[t].Idle?
    ensures u < |s.threads| && !s.threads[u].Idle? && Enabled(s, Go(u))
    ensures u == t || Holds(s.threads[u])
  {
    u := t;
    if s.threads[t].Write? {
      WriteInv(s, t);
    } else if (s.threads[t].WantShared? || s.threads[t].WantExclusive?) && !Enabled(s, Go(t)) {
      u :| 0 <= u < |s.threads| && Holds(s.threads[u]);
      HoldersGo(s, u);
    }
  }

  lemma HoldersGo<T>(s: State<T>, u: nat)
    requires Inv(s) && u < |s.threads| && Holds(s.threads[u])
    ensures Enabled(s, Go(u))
  {
    if s.threads[u].Write? {
      WriteInv(s, u);
    }
  }

  lemma OthersComeNearer<T>(s: State<T>, s': State<T>, t: nat, u: nat)
    requires t < |s.threads| == |s'.threads| && u < |s.threads| && s'.threads == s.threads[u := s'.threads[u]]
    requires StepsLeft(s'.threads[u]) < StepsLeft(s.threads[u]) && (u == t || Holds(s.threads[u]))
    ensures if u == t then OthersLeft(s', t) == OthersLeft(s, t) else OthersLeft(s', t) < OthersLeft(s, t)
  {
    if u == t {
      assert s'.threads[t := Idle] == s.threads[t := Idle];
    } else {
      assert s'.threads[t := Idle] == s.threads[t := Idle][u := s'.threads[u]];
      SumUpdate(s.threads[t := Idle], HoldingLeft, u, s'.threads[u]);
    }
  }

  /** No thread calls anything. */
  predicate OnlyGo<T>(run: seq<Action<T>>)
  {
    forall i :: 0 <= i < |run| ==> run[i].Go?
  }

  lemma {:induction false} CallReturns<T>(s: State<T>, t: nat) returns (run: seq<Action<T>>)
    requires Inv(s) && t < |s.threads|
    ensures Run(s, run) && OnlyGo(run) && t < |After(s, run).threads| && After(s, run).threads[t] == Idle
    decreases if t < |s.threads| then OthersLeft(s, t) else 0, if t < |s.threads| then StepsLeft(s.threads[t]) else 0
  {
    if s.threads[t].Idle? {
      run := [];
    } else {
      var u := NextToGo(s, t);
      var s' := Step(s, Go(u));
      GoComesNearer(s, u);
      OthersComeNearer(s, s', t, u);
      StepSimulated(s, Go(u));
      var rest := CallReturns(s', t);
      run := [Go(u)] + rest;
      assert run[1..] == rest;
    }
  }

  /**
   Every reachable state of the queue, every call open there: some schedule, in which threads only go
   on with the calls they have made, brings it to its return.
   */
  lemma CallsComplete<T(!new)>(start: State<T>, before: seq<Action<T>>, t: nat)
    requires Init(start) && Run(start, before) && t < |After(start, before).threads|
    ensures var s := After(start, before);
      exists run :: Run(s, run) && OnlyGo(run) && t < |After(s, run).threads| && After(s, run).threads[t] == Idle
  {
    InitInv(start);
    Linearizable(start, before);
    var run := CallReturns(After(start, before), t);
    assert Run(After(start, before), run);
  }
}
