/**
 The wait list of src/condvar.rs as an interleaving transition system. One word holds a state byte
 and the head of a list of nodes that live on the stacks of waiting threads. A node's memory is
 dead as soon as its owner leaves, and the same address may be used again at once, by anybody.

 Every atomic operation and every access to another thread's node is a step. The closure passed to
 an update may answer anything at every call, back-off may or may not decide to block, a weak
 compare-exchange may fail for no reason, and park may return for no reason.
 */
module CondVar {

  /** The address of a node; nothing lives at address zero. */
  type Addr = nat

  const NULL: Addr := 0

  type Byte = b: nat | b < 256

  /** The word: see the packing of a pointer and a state in one word. */
  datatype Head = Head(ptr: Addr, state: Byte)

  datatype Node = Node(owner: nat, next: Addr, ready: bool)

  /**
   Where a thread stands. A waking thread also records, without using it, the nodes that it has
   still to wake.
   */
  datatype Pc =
    | Idle
    | Have(cur: Head, wake: bool)                              // read `cur`; about to call the closure
    | CheckReady(node: Addr, wake: bool)                       // queued; about to load its own `ready`
    | InPark(node: Addr, wake: bool)                           // found `ready` false; in park
    | Reload(node: Addr, wake: bool)                           // found `ready` true; about to load the word and leave
    | Walk(at: Addr, rest: seq<Addr>)                          // about to read the node at `at`
    | Mark(at: Addr, next: Addr, owner: nat, rest: seq<Addr>)  // about to set `ready` of the node at `at`
    | Unpark(owner: nat, next: Addr, rest: seq<Addr>)          // about to unpark a thread
    | Fault                                                    // touched memory that is not a node

  /**
   The condition variable, the live nodes, and the park token of every thread. `queue` records the
   nodes reachable from the head; nothing depends on it.
   */
  datatype State = State(head: Head, queue: seq<Addr>, nodes: map<Addr, Node>, threads: seq<Pc>, tokens: seq<bool>)

  datatype Action =
    | CallUpdate(t: nat, wake: bool)                             // load the word for an update
    | CallSet(t: nat, state: Byte)                               // `set` with wake-up: swap the word
    | CallOptimistic(t: nat, old_: Byte, new_: Byte)             // compare-exchange between empty lists
    | DoUpdate(t: nat, new_: Byte, spurious: bool)               // the closure answers with a new state
    | DoWait(t: nat, block: bool, addr: Addr, spurious: bool)    // the closure answers to wait
    | DoBreak(t: nat)                                            // the closure answers to break
    | Go(t: nat)

  predicate Enabled(s: State, a: Action)
  {
    && a.t < |s.threads| == |s.tokens|
    && var pc := s.threads[a.t];
       match a {
         case CallUpdate(_, _) => pc.Idle?
         case CallSet(_, _) => pc.Idle?
         case CallOptimistic(_, _, _) => pc.Idle?
         case DoUpdate(_, _, _) => pc.Have?
         case DoWait(_, block, addr, _) => pc.Have? && (block ==> addr != NULL && addr !in s.nodes)
         case DoBreak(_) => pc.Have?
         case Go(_) => !pc.Idle? && !pc.Have? && !pc.Fault?
       }
  }

  /** Thread `t` detaches the list and starts to wake it. */
  function Detach(s: State, t: nat, state: Byte): State
    requires t < |s.threads|
  {
    s.(head := Head(NULL, state), queue := [], threads := s.threads[t := Walk(s.head.ptr, s.queue)])
  }

  /** The closure wants a new state: a weak compare-exchange, with or without detaching the list. */
  function UpdateStep(s: State, t: nat, new_: Byte, spurious: bool): State
    requires t < |s.threads| && s.threads[t].Have?
  {
    var pc := s.threads[t];
    if s.head == pc.cur && !spurious then
      if pc.wake then Detach(s, t, new_)
      else s.(head := Head(pc.cur.ptr, new_), threads := s.threads[t := Idle])
    else
      s.(threads := s.threads[t := Have(s.head, pc.wake)])
  }

  /** The closure wants to wait: look again, or push a node and park. */
  function WaitStep(s: State, t: nat, block: bool, addr: Addr, spurious: bool): State
    requires t < |s.threads| && s.threads[t].Have?
  {
    var pc := s.threads[t];
    if block && s.head == pc.cur && !spurious then
      s.(head := Head(addr, pc.cur.state), queue := [addr] + s.queue,
         nodes := s.nodes[addr := Node(t, pc.cur.ptr, false)],
         threads := s.threads[t := CheckReady(addr, pc.wake)])
    else
      s.(threads := s.threads[t := Have(s.head, pc.wake)])
  }

  function GoStep(s: State, t: nat): State
    requires t < |s.threads| == |s.tokens|
  {
    match s.threads[t]
    case CheckReady(node, wake) =>
      s.(threads := s.threads[t :=
        if node !in s.nodes then Fault
        else if s.nodes[node].ready then Reload(node, wake)
        else InPark(node, wake)])
    case InPark(node, wake) =>
      s.(tokens := s.tokens[t := false], threads := s.threads[t := CheckReady(node, wake)])
    case Reload(node, wake) =>
      s.(nodes := s.nodes - {node}, threads := s.threads[t := Have(s.head, wake)])
    case Walk(at, rest) =>
      s.(threads := s.threads[t :=
        if at == NULL then Idle
        else if at !in s.nodes then Fault
        else Mark(at, s.nodes[at].next, s.nodes[at].owner, rest)])
    case Mark(at, next, owner, rest) =>
      if at !in s.nodes || rest == [] then
        s.(threads := s.threads[t := Fault])
      else
        s.(nodes := s.nodes[at := s.nodes[at].(ready := true)], threads := s.threads[t := Unpark(owner, next, rest[1..])])
    case Unpark(owner, next, rest) =>
      s.(tokens := if owner < |s.tokens| then s.tokens[owner := true] else s.tokens,
         threads := s.threads[t := Walk(next, rest)])
    case _ => s
  }

  function Step(s: State, a: Action): State
    requires Enabled(s, a)
  {
    match a
    case CallUpdate(t, wake) => s.(threads := s.threads[t := Have(s.head, wake)])
    case CallSet(t, state) => Detach(s, t, state)
    case CallOptimistic(t, old_, new_) =>
      if s.head == Head(NULL, old_) then s.(head := Head(NULL, new_)) else s
    case DoUpdate(t, new_, spurious) => UpdateStep(s, t, new_, spurious)
    case DoWait(t, block, addr, spurious) => WaitStep(s, t, block, addr, spurious)
    case DoBreak(t) => s.(threads := s.threads[t := Idle])
    case Go(t) => GoStep(s, t)
  }

  predicate Init(s: State)
  {
    && s.head.ptr == NULL && s.queue == [] && s.nodes == map[]
    && |s.threads| == |s.tokens| && forall t :: 0 <= t < |s.threads| ==> s.threads[t].Idle?
  }
}
