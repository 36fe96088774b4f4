/** The wait list is safe although addresses are reused, and no wake-up is lost. */
module CondVarSafety {
  import opened CondVar

  /** The node that a waiting thread has on its stack. */
  predicate Owns(pc: Pc) { pc.CheckReady? || pc.InPark? || pc.Reload? }

  /** The nodes that a thread has still to wake. */
  function Rest(pc: Pc): seq<Addr>
  {
    if pc.Walk? || pc.Mark? || pc.Unpark? then pc.rest else []
  }

  /** Where they start. */
  function First(pc: Pc): Addr
  {
    match pc
    case Walk(at, _) => at
    case Mark(at, _, _, _) => at
    case Unpark(_, next, _) => next
    case _ => NULL
  }

  /** `c` lists the different nodes met from `p` to the end of a list; they are live and not yet woken. */
  predicate Linked(nodes: map<Addr, Node>, p: Addr, c: seq<Addr>)
    decreases |c|
  {
    if c == [] then p == NULL
    else p == c[0] && p in nodes && !nodes[p].ready && p !in c[1..] && Linked(nodes, nodes[p].next, c[1..])
  }

  /** Live nodes are exactly the ones on the stacks of waiting threads. */
  ghost predicate StacksMatch(s: State)
  {
    && |s.threads| == |s.tokens|
    && NULL !in s.nodes
    && (forall t :: 0 <= t < |s.threads| && Owns(s.threads[t]) ==>
          s.threads[t].node in s.nodes && s.nodes[s.threads[t].node].owner == t)
    && (forall a :: a in s.nodes ==>
          s.nodes[a].owner < |s.threads| && Owns(s.threads[s.nodes[a].owner]) && s.threads[s.nodes[a].owner].node == a)
  }

  /** The queued list and the detached ones are proper lists without a common node. */
  ghost predicate ListsApart(s: State)
  {
    && Linked(s.nodes, s.head.ptr, s.queue)
    && (forall w :: 0 <= w < |s.threads| ==> Linked(s.nodes, First(s.threads[w]), Rest(s.threads[w])))
    && (forall w, a :: 0 <= w < |s.threads| && a in Rest(s.threads[w]) ==> a !in s.queue)
    && (forall w, v, a :: 0 <= w < |s.threads| && 0 <= v < |s.threads| && w != v && a in Rest(s.threads[w]) ==>
          a !in Rest(s.threads[v]))
  }

  /** A node that has not been woken is queued or in the hands of a waking thread. */
  ghost predicate NobodyForgotten(s: State)
  {
    forall a :: a in s.nodes && !s.nodes[a].ready ==>
      a in s.queue || exists w :: 0 <= w < |s.threads| && a in Rest(s.threads[w])
  }

  predicate Healthy(s: State, pc: Pc)
  {
    match pc
    case Mark(at, next, owner, rest) =>
      rest != [] && at in s.nodes && s.nodes[at].next == next && s.nodes[at].owner == owner
    case Reload(node, _) => node in s.nodes && s.nodes[node].ready
    case Fault => false
    case _ => true
  }

  ghost predicate AllHealthy(s: State)
  {
    forall t :: 0 <= t < |s.threads| ==> Healthy(s, s.threads[t])
  }

  /** The thread is in park although its node has been woken. */
  predicate MustWake(s: State, t: nat)
    requires t < |s.threads|
  {
    var pc := s.threads[t];
    pc.InPark? && pc.node in s.nodes && s.nodes[pc.node].ready
  }

  /** Somebody is about to unpark thread `t`. */
  ghost predicate Owed(threads: seq<Pc>, t: nat)
  {
    exists w :: 0 <= w < |threads| && threads[w].Unpark? && threads[w].owner == t
  }

  /** A woken thread that is still parked has its token, or somebody is about to hand it over. */
  ghost predicate UnparkOwed(s: State)
    requires |s.threads| == |s.tokens|
  {
    forall t :: 0 <= t < |s.threads| && MustWake(s, t) ==> s.tokens[t] || Owed(s.threads, t)
  }

  ghost predicate Inv(s: State)
  {
    && StacksMatch(s)
    && ListsApart(s)
    && NobodyForgotten(s)
    && AllHealthy(s)
    && UnparkOwed(s)
  }

  lemma InitInv(s: State)
    requires Init(s)
    ensures Inv(s)
  {
  }

  // ---------------------------------------------------------------------------------------
  // Lists.

  lemma {:induction false} LinkedMembers(nodes: map<Addr, Node>, p: Addr, c: seq<Addr>)
    requires Linked(nodes, p, c)
    ensures forall a :: a in c ==> a in nodes && !nodes[a].ready
    decreases |c|
  {
    if c != [] {
      LinkedMembers(nodes, nodes[p].next, c[1..]);
      assert c == [c[0]] + c[1..];
    }
  }

  /** A list stays a list if its nodes keep their links and are not woken. */
  lemma {:induction false} LinkedFrame(nodes: map<Addr, Node>, nodes': map<Addr, Node>, p: Addr, c: seq<Addr>)
    requires Linked(nodes, p, c)
    requires forall a :: a in c && a in nodes ==> a in nodes' && nodes'[a] == nodes[a]
    ensures Linked(nodes', p, c)
    decreases |c|
  {
    if c != [] {
      LinkedFrame(nodes, nodes', nodes[p].next, c[1..]);
    }
  }

  /** All lists at once, when only nodes outside of them change. */
  lemma ListsFrame(s: State, nodes': map<Addr, Node>, outside: Addr)
    requires ListsApart(s)
    requires forall a :: a in s.nodes && a != outside ==> a in nodes' && nodes'[a] == s.nodes[a]
    requires outside !in s.queue && forall w :: 0 <= w < |s.threads| ==> outside !in Rest(s.threads[w])
    ensures ListsApart(s.(nodes := nodes'))
  {
    LinkedFrame(s.nodes, nodes', s.head.ptr, s.queue);
    forall w | 0 <= w < |s.threads|
      ensures Linked(nodes', First(s.threads[w]), Rest(s.threads[w]))
    {
      LinkedFrame(s.nodes, nodes', First(s.threads[w]), Rest(s.threads[w]));
    }
  }

  /** Only live, unwoken nodes are in lists. */
  lemma NotInLists(s: State, a: Addr)
    requires ListsApart(s) && (a !in s.nodes || s.nodes[a].ready)
    ensures a !in s.queue && forall w :: 0 <= w < |s.threads| ==> a !in Rest(s.threads[w])
  {
    LinkedMembers(s.nodes, s.head.ptr, s.queue);
    forall w | 0 <= w < |s.threads|
      ensures a !in Rest(s.threads[w])
    {
      LinkedMembers(s.nodes, First(s.threads[w]), Rest(s.threads[w]));
    }
  }

  // ---------------------------------------------------------------------------------------
  // Debts.

  /** Debts stay if `t`, which has none to pay and is not parked afterwards, moves on. */
  lemma SameOwed(s: State, s': State, t: nat)
    requires |s.threads| == |s.tokens| == |s'.threads| == |s'.tokens| && t < |s.threads|
    requires UnparkOwed(s) && !s.threads[t].Unpark? && !MustWake(s', t)
    requires forall u :: 0 <= u < |s.threads| && u != t ==> s'.threads[u] == s.threads[u] && (s.tokens[u] ==> s'.tokens[u])
    requires forall u :: 0 <= u < |s.threads| && u != t && MustWake(s', u) ==> MustWake(s, u)
    ensures UnparkOwed(s')
  {
    forall u | 0 <= u < |s'.threads| && MustWake(s', u) && !s'.tokens[u]
      ensures Owed(s'.threads, u)
    {
      var w :| 0 <= w < |s.threads| && s.threads[w].Unpark? && s.threads[w].owner == u;
      assert s'.threads[w] == s.threads[w];
    }
  }

  /** Nobody is forgotten if everything to wake stays somewhere. */
  lemma SameForgotten(s: State, s': State)
    requires NobodyForgotten(s)
    requires forall a :: a in s'.nodes && !s'.nodes[a].ready ==> (a in s.nodes && !s.nodes[a].ready) || a in s'.queue
    requires forall a :: a in s.queue ==> a in s'.queue
    requires |s.threads| == |s'.threads|
    requires forall w :: 0 <= w < |s.threads| ==> Rest(s'.threads[w]) == Rest(s.threads[w])
    ensures NobodyForgotten(s')
  {
    forall a | a in s'.nodes && !s'.nodes[a].ready && a !in s'.queue
      ensures exists w :: 0 <= w < |s'.threads| && a in Rest(s'.threads[w])
    {
      var w :| 0 <= w < |s.threads| && a in Rest(s.threads[w]);
      assert a in Rest(s'.threads[w]);
    }
  }

  // ---------------------------------------------------------------------------------------
  // Preservation, one kind of step after the other.

  lemma StacksMove(s: State, t: nat, pc: Pc)
    requires StacksMatch(s) && t < |s.threads|
    requires Owns(pc) == Owns(s.threads[t]) && (Owns(pc) ==> pc.node == s.threads[t].node)
    ensures StacksMatch(s.(threads := s.threads[t := pc]))
  {
  }

  /** Health of the threads depends on the nodes only. */
  lemma HealthyMove(s: State, s': State, t: nat)
    requires AllHealthy(s) && |s'.threads| == |s.threads| && t < |s.threads| && s'.nodes == s.nodes
    requires forall u :: 0 <= u < |s.threads| && u != t ==> s'.threads[u] == s.threads[u]
    requires Healthy(s, s'.threads[t])
    ensures AllHealthy(s')
  {
  }

  lemma ListsMove(s: State, t: nat, pc: Pc)
    requires ListsApart(s) && t < |s.threads|
    requires Rest(pc) == Rest(s.threads[t]) && First(pc) == First(s.threads[t])
    ensures ListsApart(s.(threads := s.threads[t := pc]))
  {
  }

  /** Thread `t` changes its place, and perhaps its token. */
  function Moved(s: State, t: nat, pc: Pc, token: bool): State
    requires t < |s.threads| == |s.tokens|
  {
    s.(threads := s.threads[t := pc], tokens := s.tokens[t := token])
  }

  lemma MoveStacks(s: State, t: nat, pc: Pc, token: bool)
    requires StacksMatch(s) && t < |s.threads|
    requires Owns(pc) == Owns(s.threads[t]) && (Owns(pc) ==> pc.node == s.threads[t].node)
    ensures StacksMatch(Moved(s, t, pc, token))
  {
  }

  lemma MoveLists(s: State, t: nat, pc: Pc, token: bool)
    requires ListsApart(s) && t < |s.threads| == |s.tokens|
    requires Rest(pc) == Rest(s.threads[t]) && First(pc) == First(s.threads[t])
    ensures ListsApart(Moved(s, t, pc, token))
  {
  }

  lemma MoveForgotten(s: State, t: nat, pc: Pc, token: bool)
    requires NobodyForgotten(s) && t < |s.threads| == |s.tokens| && Rest(pc) == Rest(s.threads[t])
    ensures NobodyForgotten(Moved(s, t, pc, token))
  {
    SameForgotten(s, Moved(s, t, pc, token));
  }

  lemma MoveHealthy(s: State, t: nat, pc: Pc, token: bool)
    requires AllHealthy(s) && t < |s.threads| == |s.tokens| && Healthy(s, pc)
    ensures AllHealthy(Moved(s, t, pc, token))
  {
    HealthyMove(s, Moved(s, t, pc, token), t);
  }

  lemma MoveOwed(s: State, t: nat, pc: Pc, token: bool)
    requires |s.threads| == |s.tokens| && UnparkOwed(s) && t < |s.threads| && !s.threads[t].Unpark?
    requires !MustWake(s.(threads := s.threads[t := pc]), t)
    ensures UnparkOwed(Moved(s, t, pc, token))
  {
    SameOwed(s, Moved(s, t, pc, token), t);
  }

  /** The invariant is kept by a thread with the same list to wake before and after. */
  lemma MoveInv(s: State, t: nat, pc: Pc, token: bool)
    requires Inv(s) && t < |s.threads| && !s.threads[t].Unpark?
    requires Rest(pc) == Rest(s.threads[t]) && First(pc) == First(s.threads[t])
    requires Owns(pc) == Owns(s.threads[t]) && (Owns(pc) ==> pc.node == s.threads[t].node)
    requires Healthy(s, pc) && !MustWake(s.(threads := s.threads[t := pc]), t)
    ensures Inv(s.(threads := s.threads[t := pc], tokens := s.tokens[t := token]))
  {
    MoveStacks(s, t, pc, token);
    MoveLists(s, t, pc, token);
    MoveForgotten(s, t, pc, token);
    MoveHealthy(s, t, pc, token);
    MoveOwed(s, t, pc, token);
  }

  lemma StateOwed(s: State, s': State)
    requires |s.threads| == |s.tokens| && UnparkOwed(s)
    requires s'.nodes == s.nodes && s'.threads == s.threads && s'.tokens == s.tokens
    ensures UnparkOwed(s')
  {
    assert forall t :: 0 <= t < |s.threads| ==> MustWake(s', t) == MustWake(s, t);
  }

  lemma StateLists(s: State, state: Byte)
    requires ListsApart(s)
    ensures ListsApart(s.(head := s.head.(state := state)))
  {
  }

  /** The word changes its state byte only: every other part of the invariant is about other fields. */
  lemma StateInv(s: State, state: Byte)
    requires Inv(s)
    ensures Inv(s.(head := s.head.(state := state)))
  {
    var s' := s.(head := s.head.(state := state));
    StateLists(s, state);
    SameForgotten(s, s');
    StateOwed(s, s');
  }

  /** `t` keeps its token. */
  lemma PlainMoveInv(s: State, t: nat, pc: Pc)
    requires Inv(s) && t < |s.threads| && !s.threads[t].Unpark?
    requires Rest(pc) == Rest(s.threads[t]) && First(pc) == First(s.threads[t])
    requires Owns(pc) == Owns(s.threads[t]) && (Owns(pc) ==> pc.node == s.threads[t].node)
    requires Healthy(s, pc) && !MustWake(s.(threads := s.threads[t := pc]), t)
    ensures Inv(s.(threads := s.threads[t := pc]))
  {
    MoveInv(s, t, pc, s.tokens[t]);
    assert s.tokens[t := s.tokens[t]] == s.tokens;
  }

  // ---------------------------------------------------------------------------------------
  // Detaching.

  lemma DetachLists(s: State, t: nat, state: Byte)
    requires ListsApart(s) && t < |s.threads| && (s.threads[t].Idle? || s.threads[t].Have?)
    ensures ListsApart(Detach(s, t, state))
  {
  }

  lemma DetachForgotten(s: State, t: nat, state: Byte)
    requires NobodyForgotten(s) && t < |s.threads| && (s.threads[t].Idle? || s.threads[t].Have?)
    ensures NobodyForgotten(Detach(s, t, state))
  {
    var s' := Detach(s, t, state);
    forall a | a in s'.nodes && !s'.nodes[a].ready
      ensures exists w :: 0 <= w < |s'.threads| && a in Rest(s'.threads[w])
    {
      if a in s.queue {
        assert a in Rest(s'.threads[t]);
      } else {
        var w :| 0 <= w < |s.threads| && a in Rest(s.threads[w]);
        assert a in Rest(s'.threads[w]);
      }
    }
  }

  /** Detaching hands the queued list, as it is at this instant, to one waking thread. */
  lemma DetachInv(s: State, t: nat, state: Byte)
    requires Inv(s) && t < |s.threads| && (s.threads[t].Idle? || s.threads[t].Have?)
    ensures Inv(Detach(s, t, state))
  {
    var s' := Detach(s, t, state);
    StacksMove(s, t, s'.threads[t]);
    DetachLists(s, t, state);
    DetachForgotten(s, t, state);
    HealthyMove(s, s', t);
    SameOwed(s, s', t);
  }

  // ---------------------------------------------------------------------------------------
  // Pushing.

  /** The state after thread `t` has pushed a node at `addr`. */
  function Pushed(s: State, t: nat, addr: Addr, wake: bool): State
    requires t < |s.threads|
  {
    s.(head := s.head.(ptr := addr), queue := [addr] + s.queue,
       nodes := s.nodes[addr := Node(t, s.head.ptr, false)],
       threads := s.threads[t := CheckReady(addr, wake)])
  }

  lemma PushStacks(s: State, t: nat, addr: Addr, wake: bool)
    requires StacksMatch(s) && t < |s.threads| && s.threads[t].Have? && addr != NULL && addr !in s.nodes
    ensures StacksMatch(Pushed(s, t, addr, wake))
  {
  }

  lemma PushLists(s: State, t: nat, addr: Addr, wake: bool)
    requires ListsApart(s) && t < |s.threads| && s.threads[t].Have? && addr != NULL && addr !in s.nodes
    ensures ListsApart(Pushed(s, t, addr, wake))
  {
    var s' := Pushed(s, t, addr, wake);
    NotInLists(s, addr);
    ListsFrame(s, s'.nodes, addr);
    PushHead(s.(nodes := s'.nodes), t, addr, wake);
  }

  lemma PushHead(s: State, t: nat, addr: Addr, wake: bool)
    requires ListsApart(s) && t < |s.threads| && s.threads[t].Have? && addr != NULL
    requires addr in s.nodes && s.nodes[addr] == Node(t, s.head.ptr, false)
    requires addr !in s.queue && forall w :: 0 <= w < |s.threads| ==> addr !in Rest(s.threads[w])
    ensures ListsApart(s.(head := s.head.(ptr := addr), queue := [addr] + s.queue,
                          threads := s.threads[t := CheckReady(addr, wake)]))
  {
    assert ([addr] + s.queue)[1..] == s.queue;
  }

  lemma PushHealthy(s: State, t: nat, addr: Addr, wake: bool)
    requires AllHealthy(s) && t < |s.threads| && addr !in s.nodes
    ensures AllHealthy(Pushed(s, t, addr, wake))
  {
  }

  lemma PushOwed(s: State, t: nat, addr: Addr, wake: bool)
    requires StacksMatch(s) && UnparkOwed(s) && t < |s.threads| && s.threads[t].Have? && addr !in s.nodes
    ensures UnparkOwed(Pushed(s, t, addr, wake))
  {
    SameOwed(s, Pushed(s, t, addr, wake), t);
  }

  /** A node at a free address becomes the head of the queued list. */
  lemma PushInv(s: State, t: nat, addr: Addr, wake: bool)
    requires Inv(s) && t < |s.threads| && s.threads[t].Have? && addr != NULL && addr !in s.nodes
    ensures Inv(Pushed(s, t, addr, wake))
  {
    PushStacks(s, t, addr, wake);
    PushLists(s, t, addr, wake);
    SameForgotten(s, Pushed(s, t, addr, wake));
    PushHealthy(s, t, addr, wake);
    PushOwed(s, t, addr, wake);
  }

  // ---------------------------------------------------------------------------------------
  // Leaving.

  lemma LeaveStacks(s: State, t: nat)
    requires StacksMatch(s) && t < |s.threads| && s.threads[t].Reload?
    ensures StacksMatch(GoStep(s, t))
  {
  }

  lemma LeaveLists(s: State, t: nat)
    requires StacksMatch(s) && ListsApart(s) && t < |s.threads| && s.threads[t].Reload? && Healthy(s, s.threads[t])
    ensures ListsApart(GoStep(s, t))
  {
    var s', node := GoStep(s, t), s.threads[t].node;
    NotInLists(s, node);
    ListsFrame(s, s'.nodes, node);
    ListsMove(s.(nodes := s'.nodes), t, s'.threads[t]);
  }

  lemma LeaveHealthy(s: State, t: nat)
    requires StacksMatch(s) && ListsApart(s) && AllHealthy(s) && t < |s.threads| && s.threads[t].Reload?
    ensures AllHealthy(GoStep(s, t))
  {
    var s' := GoStep(s, t);
    forall u | 0 <= u < |s'.threads|
      ensures Healthy(s', s'.threads[u])
    {
      if s.threads[u].Mark? {
        LinkedHead(s, u);
      }
    }
  }

  /** The node that a thread is about to mark is the first of its list, and still unwoken. */
  lemma LinkedHead(s: State, u: nat)
    requires ListsApart(s) && u < |s.threads| && s.threads[u].Mark? && Healthy(s, s.threads[u])
    ensures s.threads[u].rest != [] && s.threads[u].at == s.threads[u].rest[0]
    ensures s.threads[u].at in s.nodes && !s.nodes[s.threads[u].at].ready
  {
    assert Linked(s.nodes, First(s.threads[u]), Rest(s.threads[u]));
  }

  lemma LeaveOwed(s: State, t: nat)
    requires StacksMatch(s) && UnparkOwed(s) && t < |s.threads| && s.threads[t].Reload?
    ensures UnparkOwed(GoStep(s, t))
  {
    SameOwed(s, GoStep(s, t), t);
  }

  lemma LeaveForgotten(s: State, t: nat)
    requires NobodyForgotten(s) && t < |s.threads| == |s.tokens| && s.threads[t].Reload?
    ensures NobodyForgotten(GoStep(s, t))
  {
    SameForgotten(s, GoStep(s, t));
  }

  /** A woken thread leaves, and its node with it. */
  lemma LeaveInv(s: State, t: nat)
    requires Inv(s) && t < |s.threads| && s.threads[t].Reload?
    ensures Inv(GoStep(s, t))
  {
    LeaveStacks(s, t);
    LeaveLists(s, t);
    LeaveForgotten(s, t);
    LeaveHealthy(s, t);
    LeaveOwed(s, t);
  }

  // ---------------------------------------------------------------------------------------
  // Waking.

  lemma MarkStacks(s: State, t: nat)
    requires StacksMatch(s) && t < |s.threads| && s.threads[t].Mark? && Healthy(s, s.threads[t])
    ensures StacksMatch(GoStep(s, t))
  {
  }

  lemma MarkLists(s: State, t: nat)
    requires ListsApart(s) && |s.threads| == |s.tokens| && t < |s.threads|
    requires s.threads[t].Mark? && Healthy(s, s.threads[t])
    ensures ListsApart(GoStep(s, t))
  {
    var s', at, rest := GoStep(s, t), s.threads[t].at, s.threads[t].rest;
    LinkedHead(s, t);
    assert Linked(s.nodes, at, rest);
    assert rest == [at] + rest[1..];
    var mid := s.(threads := s'.threads);
    MarkShorter(s, t, s'.threads[t]);
    ListsFrame(mid, s'.nodes, at);
  }

  /** Taking the first node off one list. */
  lemma MarkShorter(s: State, t: nat, pc: Pc)
    requires ListsApart(s) && t < |s.threads| && Rest(s.threads[t]) != []
    requires First(s.threads[t]) in s.nodes
    requires Rest(pc) == Rest(s.threads[t])[1..] && First(pc) == s.nodes[First(s.threads[t])].next
    ensures ListsApart(s.(threads := s.threads[t := pc]))
    ensures First(s.threads[t]) !in s.queue && First(s.threads[t]) !in Rest(pc)
    ensures forall w :: 0 <= w < |s.threads| && w != t ==> First(s.threads[t]) !in Rest(s.threads[w])
  {
    var rest := Rest(s.threads[t]);
    assert Linked(s.nodes, First(s.threads[t]), rest);
    assert rest == [rest[0]] + rest[1..];
  }

  lemma MarkForgotten(s: State, t: nat)
    requires NobodyForgotten(s) && |s.threads| == |s.tokens| && t < |s.threads|
    requires s.threads[t].Mark? && Healthy(s, s.threads[t]) && s.threads[t].rest[0] == s.threads[t].at
    ensures NobodyForgotten(GoStep(s, t))
  {
    var s', at, rest := GoStep(s, t), s.threads[t].at, s.threads[t].rest;
    assert rest == [at] + rest[1..];
    forall a | a in s'.nodes && !s'.nodes[a].ready && a !in s'.queue
      ensures exists w :: 0 <= w < |s'.threads| && a in Rest(s'.threads[w])
    {
      var w :| 0 <= w < |s.threads| && a in Rest(s.threads[w]);
      assert a in Rest(s'.threads[w]);
    }
  }

  lemma MarkHealthy(s: State, t: nat)
    requires AllHealthy(s) && |s.threads| == |s.tokens| && t < |s.threads| && s.threads[t].Mark?
    ensures AllHealthy(GoStep(s, t))
  {
    assert Healthy(s, s.threads[t]);
    var s' := GoStep(s, t);
    forall u | 0 <= u < |s'.threads|
      ensures Healthy(s', s'.threads[u])
    {
      assert Healthy(s, s.threads[u]);
    }
  }

  lemma MarkOwed(s: State, t: nat)
    requires StacksMatch(s) && UnparkOwed(s) && t < |s.threads| && s.threads[t].Mark? && Healthy(s, s.threads[t])
    ensures UnparkOwed(GoStep(s, t))
  {
    var s', at := GoStep(s, t), s.threads[t].at;
    forall u | 0 <= u < |s'.threads| && MustWake(s', u) && !s'.tokens[u]
      ensures Owed(s'.threads, u)
    {
      if s.threads[u].node == at {
        assert s'.threads[t].Unpark? && s'.threads[t].owner == u;
      } else {
        assert MustWake(s, u);
        var w :| 0 <= w < |s.threads| && s.threads[w].Unpark? && s.threads[w].owner == u;
        assert s'.threads[w] == s.threads[w];
      }
    }
  }

  /** A thread marks the first node of its list, and now owes the owner an unpark. */
  lemma MarkInv(s: State, t: nat)
    requires Inv(s) && t < |s.threads| && s.threads[t].Mark?
    ensures Inv(GoStep(s, t))
  {
    LinkedHead(s, t);
    MarkStacks(s, t);
    MarkLists(s, t);
    MarkForgotten(s, t);
    MarkHealthy(s, t);
    MarkOwed(s, t);
  }

  lemma UnparkOwedAfter(s: State, t: nat)
    requires StacksMatch(s) && UnparkOwed(s) && t < |s.threads| && s.threads[t].Unpark?
    ensures UnparkOwed(GoStep(s, t))
  {
    var s' := GoStep(s, t);
    forall u | 0 <= u < |s'.threads| && MustWake(s', u) && !s'.tokens[u]
      ensures Owed(s'.threads, u)
    {
      assert MustWake(s, u);
      var w :| 0 <= w < |s.threads| && s.threads[w].Unpark? && s.threads[w].owner == u;
      assert s'.threads[w] == s.threads[w];
    }
  }

  lemma UnparkStacks(s: State, t: nat)
    requires StacksMatch(s) && t < |s.threads| && s.threads[t].Unpark?
    ensures StacksMatch(GoStep(s, t))
  {
  }

  lemma UnparkLists(s: State, t: nat)
    requires ListsApart(s) && t < |s.threads| == |s.tokens| && s.threads[t].Unpark?
    ensures ListsApart(GoStep(s, t))
  {
  }

  lemma UnparkForgotten(s: State, t: nat)
    requires NobodyForgotten(s) && t < |s.threads| == |s.tokens| && s.threads[t].Unpark?
    ensures NobodyForgotten(GoStep(s, t))
  {
    SameForgotten(s, GoStep(s, t));
  }

  lemma UnparkHealthy(s: State, t: nat)
    requires AllHealthy(s) && t < |s.threads| == |s.tokens| && s.threads[t].Unpark?
    ensures AllHealthy(GoStep(s, t))
  {
    HealthyMove(s, GoStep(s, t), t);
  }

  /** The token is handed over. */
  lemma UnparkInv(s: State, t: nat)
    requires Inv(s) && t < |s.threads| && s.threads[t].Unpark?
    ensures Inv(GoStep(s, t))
  {
    UnparkStacks(s, t);
    UnparkLists(s, t);
    UnparkForgotten(s, t);
    UnparkHealthy(s, t);
    UnparkOwedAfter(s, t);
  }

  /** A walk reads live nodes only, and ends with its list. */
  lemma WalkInv(s: State, t: nat)
    requires Inv(s) && t < |s.threads| && s.threads[t].Walk?
    ensures Inv(GoStep(s, t)) && (s.threads[t].at == NULL <==> s.threads[t].rest == [])
  {
    assert Linked(s.nodes, First(s.threads[t]), Rest(s.threads[t]));
    PlainMoveInv(s, t, GoStep(s, t).threads[t]);
  }

  // ---------------------------------------------------------------------------------------
  // All steps.

  lemma GoInv(s: State, t: nat)
    requires Inv(s) && Enabled(s, Go(t))
    ensures Inv(Step(s, Go(t)))
  {
    var pc := s.threads[t];
    if pc.CheckReady? {
      PlainMoveInv(s, t, GoStep(s, t).threads[t]);
    } else if pc.InPark? {
      MoveInv(s, t, GoStep(s, t).threads[t], false);
    } else if pc.Reload? {
      LeaveInv(s, t);
    } else if pc.Walk? {
      WalkInv(s, t);
    } else if pc.Mark? {
      MarkInv(s, t);
    } else {
      UnparkInv(s, t);
    }
  }

  /** Every step of any thread keeps the lists safe and owes nobody a forgotten wake-up. */
  lemma StepInv(s: State, a: Action)
    requires Inv(s) && Enabled(s, a)
    ensures Inv(Step(s, a))
  {
    match a
    case CallUpdate(t, wake) => PlainMoveInv(s, t, Have(s.head, wake));
    case CallSet(t, state) => DetachInv(s, t, state);
    case CallOptimistic(t, old_, new_) => StateInv(s, new_);
    case DoUpdate(t, new_, spurious) => UpdateInv(s, t, new_, spurious);
    case DoWait(t, block, addr, spurious) => WaitInv(s, t, block, addr, spurious);
    case DoBreak(t) => PlainMoveInv(s, t, Idle);
    case Go(t) => GoInv(s, t);
  }

  lemma UpdateInv(s: State, t: nat, new_: Byte, spurious: bool)
    requires Inv(s) && t < |s.threads| && s.threads[t].Have?
    ensures Inv(UpdateStep(s, t, new_, spurious))
  {
    var pc := s.threads[t];
    if s.head == pc.cur && !spurious {
      if pc.wake {
        DetachInv(s, t, new_);
      } else {
        StateInv(s, new_);
        PlainMoveInv(s.(head := s.head.(state := new_)), t, Idle);
      }
    } else {
      PlainMoveInv(s, t, Have(s.head, pc.wake));
    }
  }

  lemma WaitInv(s: State, t: nat, block: bool, addr: Addr, spurious: bool)
    requires Inv(s) && Enabled(s, DoWait(t, block, addr, spurious))
    ensures Inv(WaitStep(s, t, block, addr, spurious))
  {
    var pc := s.threads[t];
    if block && s.head == pc.cur && !spurious {
      PushInv(s, t, addr, pc.wake);
    } else {
      PlainMoveInv(s, t, Have(s.head, pc.wake));
    }
  }
}
