/**
 The triple buffer of src/triple.rs as a state machine shared by one producer and one consumer.
 Publishing and consuming are one atomic swap each; writing an element in place is a step of its
 own, so the two sides interleave freely.
 */
module TripleBuffer {
  import opened Options

  const INDEX_MASK: bv8 := 3
  const PENDING_BIT: bv8 := 4

  datatype Idx = Zero | One | Two

  /** `Idx::from_bits`; `None` is the panic. */
  function FromBits(value: bv8): Option<Idx>
  {
    if value == 0 then Some(Zero)
    else if value == 1 then Some(One)
    else if value == 2 then Some(Two)
    else None
  }

  function Bits(i: Idx): (r: bv8)
    ensures FromBits(r) == Some(i)
  {
    match i
    case Zero => 0
    case One => 1
    case Two => 2
  }

  function Index(i: Idx): (r: nat)
    ensures r < 3
  {
    match i
    case Zero => 0
    case One => 1
    case Two => 2
  }

  function Other(i: Idx): Idx
  {
    match i
    case Zero => One
    case One => Two
    case Two => Zero
  }

  /** The word that says which element is pending and whether it was published since. */
  function Flags(pending: Idx, published: bool): bv8
  {
    if published then Bits(pending) | PENDING_BIT else Bits(pending)
  }

  predicate Wellformed(flags: bv8) { FromBits(flags & INDEX_MASK).Some? }

  function PendingIdx(flags: bv8): Idx
    requires Wellformed(flags)
  {
    FromBits(flags & INDEX_MASK).value
  }

  predicate IsPublished(flags: bv8) { flags & PENDING_BIT != 0 }

  /** `publish`: new flags, new producer index, and whether the previous element was consumed. */
  function PublishSwap(flags: bv8, producer: Idx): (bv8, Idx, bool)
    requires Wellformed(flags)
  {
    (Bits(producer) | PENDING_BIT, PendingIdx(flags), flags & PENDING_BIT == 0)
  }

  /** `consume`: new flags, new consumer index, and whether an element was published. */
  function ConsumeSwap(flags: bv8, consumer: Idx): (bv8, Idx, bool)
    requires Wellformed(flags)
  {
    (Bits(consumer), PendingIdx(flags), flags & PENDING_BIT != 0)
  }

  /** What a swap puts into the word and what is read back from it fit together. */
  lemma FlagsRoundTrip(i: Idx, published: bool)
    ensures Wellformed(Flags(i, published)) && PendingIdx(Flags(i, published)) == i
    ensures IsPublished(Flags(i, published)) == published
  {
    match i
    case Zero => assert (0 | PENDING_BIT) & INDEX_MASK == 0;
    case One => assert (1 | PENDING_BIT) & INDEX_MASK == 1;
    case Two => assert (2 | PENDING_BIT) & INDEX_MASK == 2;
  }

  datatype State<T> = State(slots: seq<T>, flags: bv8, producer: Idx, consumer: Idx, lastConsumed: bool)

  datatype Op<T> =
    | Write(value: T)       // the producer writes its element
    | Publish
    | Overwrite(value: T)   // the consumer writes its element
    | Consume

  /** Each element belongs to one side or is pending. */
  predicate Valid<T>(s: State<T>)
  {
    && |s.slots| == 3
    && Wellformed(s.flags)
    && s.flags == Flags(PendingIdx(s.flags), IsPublished(s.flags))
    && s.producer != s.consumer && PendingIdx(s.flags) != s.producer && PendingIdx(s.flags) != s.consumer
  }

  /** `split_mut` and `split_arc`. */
  function Split<T>(slots: seq<T>, flags: bv8): State<T>
    requires Wellformed(flags)
  {
    var pending := PendingIdx(flags);
    State(slots, flags, Other(pending), Other(Other(pending)), true)
  }

  function Step<T>(s: State<T>, op: Op<T>): State<T>
    requires Valid(s)
  {
    match op
    case Write(value) => s.(slots := s.slots[Index(s.producer) := value])
    case Publish =>
      var (flags, producer, consumed) := PublishSwap(s.flags, s.producer);
      s.(flags := flags, producer := producer, lastConsumed := consumed)
    case Overwrite(value) => s.(slots := s.slots[Index(s.consumer) := value])
    case Consume =>
      var (flags, consumer, _) := ConsumeSwap(s.flags, s.consumer);
      s.(flags := flags, consumer := consumer)
  }

  /** What `publish` or `consume` returns. */
  function Answer<T>(s: State<T>, op: Op<T>): bool
    requires Valid(s)
  {
    match op
    case Publish => PublishSwap(s.flags, s.producer).2
    case Consume => ConsumeSwap(s.flags, s.consumer).2
    case _ => true
  }

  /** A new buffer splits into three different indices. */
  lemma SplitValid<T>(slots: seq<T>, pending: Idx, published: bool)
    requires |slots| == 3
    ensures Wellformed(Flags(pending, published)) && Valid(Split(slots, Flags(pending, published)))
  {
    FlagsRoundTrip(pending, published);
  }

  // ---------------------------------------------------------------------------------------
  // A mailbox for one value.

  function ProducerSlot<T>(s: State<T>): T requires Valid(s) { s.slots[Index(s.producer)] }

  function ConsumerSlot<T>(s: State<T>): T requires Valid(s) { s.slots[Index(s.consumer)] }

  /** The producer gets the element after the pending one, around the end, and the consumer the one after that. */
  lemma SplitSlots<T>(slots: seq<T>, pending: Idx, published: bool)
    requires |slots| == 3
    ensures Wellformed(Flags(pending, published)) && Valid(Split(slots, Flags(pending, published)))
    ensures var s, i := Split(slots, Flags(pending, published)), Index(pending);
      ProducerSlot(s) == slots[(i + 1) % 3] && ConsumerSlot(s) == slots[(i + 2) % 3] && s.lastConsumed
  {
    SplitValid(slots, pending, published);
    FlagsRoundTrip(pending, published);
  }

  /** The value published last, unless it has been consumed. */
  function Mailbox<T>(s: State<T>): Option<T>
    requires Valid(s)
  {
    if IsPublished(s.flags) then Some(s.slots[Index(PendingIdx(s.flags))]) else None
  }

  /** What `op` does to the mailbox and to the two elements, and what it answers. */
  ghost predicate MailboxStep<T>(s: State<T>, op: Op<T>, s': State<T>, answer: bool)
    requires Valid(s) && Valid(s')
  {
    match op
    case Write(value) =>
      Mailbox(s') == Mailbox(s) && ProducerSlot(s') == value && ConsumerSlot(s') == ConsumerSlot(s)
    case Publish =>
      && Mailbox(s') == Some(ProducerSlot(s)) && ConsumerSlot(s') == ConsumerSlot(s)
      && answer == (Mailbox(s) == None) && s'.lastConsumed == answer
      && (!answer ==> ProducerSlot(s') == Mailbox(s).value)
    case Overwrite(value) =>
      Mailbox(s') == Mailbox(s) && ConsumerSlot(s') == value && ProducerSlot(s') == ProducerSlot(s)
    case Consume =>
      && Mailbox(s') == None && ProducerSlot(s') == ProducerSlot(s)
      && answer == Mailbox(s).Some? && (answer ==> ConsumerSlot(s') == Mailbox(s).value)
  }

  /**
   The buffer is a one-place mailbox that a publish overwrites. Publishing puts the producer's value
   in and says whether the mailbox was empty; if it was not, the producer gets the unread value back.
   Consuming takes the value out and says whether there was one. Nothing that either side writes to
   its own element reaches the mailbox or the other side.
   */
  lemma StepIsMailbox<T>(s: State<T>, op: Op<T>)
    requires Valid(s)
    ensures Valid(Step(s, op)) && MailboxStep(s, op, Step(s, op), Answer(s, op))
  {
    match op
    case Publish => FlagsRoundTrip(s.producer, true);
    case Consume => FlagsRoundTrip(s.consumer, false);
    case Write(_) =>
    case Overwrite(_) =>
  }

  // ---------------------------------------------------------------------------------------
  // Whole runs.

  /**
   A run so far: the values published, in order; which of them were consumed; how often a publish
   answered false; the publish, never consumed until then, whose value the last publish brought back;
   and whether the producer has left its element alone since.
   */
  datatype Log<T> = Log(published: seq<T>, consumed: seq<nat>, unread: nat, back: Option<nat>, untouched: bool)

  /** Before the run; a buffer may be split with a published value pending. */
  function NewLog<T>(published: seq<T>): Log<T> { Log(published, [], 0, None, true) }

  /** The last publish, unless it has been consumed. */
  function LastUnread<T>(log: Log<T>): Option<nat>
  {
    var n := |log.published|;
    if n > 0 && (n - 1) !in log.consumed then Some(n - 1) else None
  }

  function Record<T>(s: State<T>, log: Log<T>, op: Op<T>): Log<T>
    requires Valid(s)
  {
    match op
    case Publish =>
      Log(log.published + [ProducerSlot(s)], log.consumed, if Answer(s, op) then log.unread else log.unread + 1,
          LastUnread(log), true)
    case Consume =>
      if Answer(s, op) && log.published != [] then log.(consumed := log.consumed + [|log.published| - 1]) else log
    case Write(_) => log.(untouched := false)
    case Overwrite(_) => log
  }

  function Run<T>(s: State<T>, log: Log<T>, ops: seq<Op<T>>): (r: (State<T>, Log<T>))
    requires Valid(s)
    ensures Valid(r.0)
    decreases |ops|
  {
    if ops == [] then (s, log)
    else
      StepIsMailbox(s, ops[0]);
      Run(Step(s, ops[0]), Record(s, log, ops[0]), ops[1..])
  }

  /** The log agrees with the state. */
  ghost predicate Agrees<T>(s: State<T>, log: Log<T>)
    requires Valid(s)
  {
    var n := |log.published|;
    && n == |log.consumed| + log.unread + (if Mailbox(s).Some? then 1 else 0)
    && (Mailbox(s).Some? <==> LastUnread(log).Some?)
    && (Mailbox(s).Some? ==> Mailbox(s).value == log.published[n - 1])
    && (forall i :: 0 <= i < |log.consumed| ==> log.consumed[i] < n)
    && (forall i, j :: 0 <= i < j < |log.consumed| ==> log.consumed[i] < log.consumed[j])
  }

  /** What the producer holds agrees with the log. */
  ghost predicate BackAgrees<T>(s: State<T>, log: Log<T>)
    requires Valid(s)
  {
    && s.lastConsumed == log.back.None?
    && match log.back {
      case None => true
      case Some(i) =>
        && i < |log.published| - 1 && i !in log.consumed
        && (log.untouched ==> ProducerSlot(s) == log.published[i])
    }
  }

  lemma StepAgrees<T>(s: State<T>, log: Log<T>, op: Op<T>)
    requires Valid(s) && Agrees(s, log)
    ensures Valid(Step(s, op)) && Agrees(Step(s, op), Record(s, log, op))
  {
    StepIsMailbox(s, op);
  }

  lemma StepBackAgrees<T>(s: State<T>, log: Log<T>, op: Op<T>)
    requires Valid(s) && Agrees(s, log) && BackAgrees(s, log)
    ensures Valid(Step(s, op)) && BackAgrees(Step(s, op), Record(s, log, op))
  {
    StepIsMailbox(s, op);
  }

  lemma {:induction false} RunAgrees<T>(s: State<T>, log: Log<T>, ops: seq<Op<T>>)
    requires Valid(s) && Agrees(s, log) && BackAgrees(s, log)
    ensures Agrees(Run(s, log, ops).0, Run(s, log, ops).1) && BackAgrees(Run(s, log, ops).0, Run(s, log, ops).1)
    decreases |ops|
  {
    if ops != [] {
      StepAgrees(s, log, ops[0]);
      StepBackAgrees(s, log, ops[0]);
      RunAgrees(Step(s, ops[0]), Record(s, log, ops[0]), ops[1..]);
    }
  }

  /** What is published in a buffer at the time of the split. */
  function PublishedBefore<T>(slots: seq<T>, pending: Idx, published: bool): seq<T>
    requires |slots| == 3
  {
    if published then [slots[Index(pending)]] else []
  }

  /** A run from a buffer just split, with or without a published value in it. */
  function RunFromSplit<T>(slots: seq<T>, pending: Idx, published: bool, ops: seq<Op<T>>): (r: (State<T>, Log<T>))
    requires |slots| == 3
    ensures Valid(r.0)
  {
    SplitValid(slots, pending, published);
    Run(Split(slots, Flags(pending, published)), NewLog(PublishedBefore(slots, pending, published)), ops)
  }

  lemma SplitRunAgrees<T>(slots: seq<T>, pending: Idx, published: bool, ops: seq<Op<T>>)
    requires |slots| == 3
    ensures var (s, log) := RunFromSplit(slots, pending, published, ops);
      Agrees(s, log) && BackAgrees(s, log)
  {
    SplitValid(slots, pending, published);
    FlagsRoundTrip(pending, published);
    RunAgrees(Split(slots, Flags(pending, published)), NewLog(PublishedBefore(slots, pending, published)), ops);
  }

  /**
   Freshness and conservation over any interleaving. The publishes consumed are strictly increasing;
   a consume answers true exactly if the most recent publish was not consumed yet, and then yields
   that very value; and every publish is consumed, or was answered by a false of the next publish,
   or is still pending.
   */
  lemma FreshAndConserved<T>(slots: seq<T>, pending: Idx, published: bool, ops: seq<Op<T>>)
    requires |slots| == 3
    ensures var (s, log) := RunFromSplit(slots, pending, published, ops);
      && |log.published| == |log.consumed| + log.unread + (if IsPublished(s.flags) then 1 else 0)
      && (forall i, j :: 0 <= i < j < |log.consumed| ==> log.consumed[i] < log.consumed[j] < |log.published|)
      && (Answer(s, Consume) <==> LastUnread(log).Some?)
      && Valid(Step(s, Consume))
      && (Answer(s, Consume) ==> ConsumerSlot(Step(s, Consume)) == log.published[LastUnread(log).value])
  {
    SplitRunAgrees(slots, pending, published, ops);
    StepIsMailbox(RunFromSplit(slots, pending, published, ops).0, Consume);
  }

  /**
   In every reachable state `last_consumed` is false exactly if the last publish brought a published
   value back; that value has not been consumed, and it is still the producer's element unless the
   producer has written since.
   */
  lemma LastConsumed<T>(slots: seq<T>, pending: Idx, published: bool, ops: seq<Op<T>>)
    requires |slots| == 3
    ensures var (s, log) := RunFromSplit(slots, pending, published, ops);
      && (!s.lastConsumed <==> log.back.Some?)
      && (log.back.Some? ==> log.back.value < |log.published| - 1 && log.back.value !in log.consumed)
      && (log.back.Some? && log.untouched ==> ProducerSlot(s) == log.published[log.back.value])
  {
    SplitRunAgrees(slots, pending, published, ops);
  }
}
