/**
 The buffer of src/triple.rs and its two handles. Every access to the shared buffer is one swap or
 one access to an element that the handle owns, so a method is one step of the state machine.
 */
module TripleBufferCode {
  import opened Options
  import opened TripleBuffer

  class Buffer<T> {
    const elements: array<T>
    var flags: bv8

    constructor (a: T, b: T, c: T)
      ensures elements.Length == 3 && elements[..] == [a, b, c] && fresh(elements)
      ensures flags == Flags(Zero, false) && Wellformed(flags) && Index(PendingIdx(flags)) == 0
    {
      elements := new T[] [a, b, c];
      flags := 0;
    }

    method ConsumedLoad() returns (consumed: bool)
      ensures consumed == !IsPublished(flags)
    {
      return flags & PENDING_BIT == 0;
    }

    method Pending() returns (pending: Idx)
      requires Wellformed(flags)
      ensures pending == PendingIdx(flags)
    {
      return FromBits(flags & INDEX_MASK).value;
    }

    /** Swaps the producer's element with the pending one. */
    method PublishElement(producer: Idx) returns (newProducer: Idx, consumed: bool)
      requires Wellformed(flags)
      modifies this
      ensures Wellformed(flags) && PendingIdx(flags) == producer && IsPublished(flags)
      ensures newProducer == PendingIdx(old(flags)) && consumed == !IsPublished(old(flags))
      ensures flags == Flags(producer, true)
    {
      FlagsRoundTrip(producer, true);
      var found := flags;
      flags := Bits(producer) | PENDING_BIT;
      return FromBits(found & INDEX_MASK).value, found & PENDING_BIT == 0;
    }

    /** Swaps the consumer's element with the pending one. */
    method ConsumeElement(consumer: Idx) returns (newConsumer: Idx, published: bool)
      requires Wellformed(flags)
      modifies this
      ensures Wellformed(flags) && PendingIdx(flags) == consumer && !IsPublished(flags)
      ensures newConsumer == PendingIdx(old(flags)) && published == IsPublished(old(flags))
      ensures flags == Flags(consumer, false)
    {
      FlagsRoundTrip(consumer, false);
      var found := flags;
      flags := Bits(consumer);
      return FromBits(found & INDEX_MASK).value, found & PENDING_BIT != 0;
    }

    method SetElement(producer: Idx, value: T)
      requires elements.Length == 3
      modifies elements
      ensures elements[..] == old(elements[..])[Index(producer) := value]
    {
      elements[Index(producer)] := value;
    }

    /** `split_mut` and `split_arc`: the handles own the two elements that are not pending. */
    method SplitMut() returns (p: Producer<T>, c: Consumer<T>)
      requires elements.Length == 3 && Wellformed(flags) && flags == Flags(PendingIdx(flags), IsPublished(flags))
      ensures fresh(p) && fresh(c) && Shared(p, c) && p.buffer == this
      ensures View(p, c) == Split(elements[..], flags) && Valid(View(p, c)) && p.lastConsumed
      ensures var i := Index(PendingIdx(flags));
        ProducerSlot(View(p, c)) == elements[(i + 1) % 3] && ConsumerSlot(View(p, c)) == elements[(i + 2) % 3]
    {
      SplitSlots(elements[..], PendingIdx(flags), IsPublished(flags));
      var pending := Pending();
      var producer := Other(pending);
      var consumer := Other(producer);
      p := new Producer(this, producer);
      c := new Consumer(this, consumer);
    }
  }

  /** The two handles share one buffer. */
  predicate Shared<T>(p: Producer<T>, c: Consumer<T>)
  {
    p.buffer == c.buffer && p.buffer.elements.Length == 3
  }

  /** The state of the buffer and its handles. */
  ghost function View<T>(p: Producer<T>, c: Consumer<T>): State<T>
    reads p, c, p.buffer, p.buffer.elements
  {
    State(p.buffer.elements[..], p.buffer.flags, p.producer, c.consumer, p.lastConsumed)
  }

  predicate ConsumerOnly<T>(ops: seq<Op<T>>)
  {
    forall i :: 0 <= i < |ops| ==> ops[i].Consume? || ops[i].Overwrite?
  }

  /** The state after some steps of the consumer, which never touch the producer's element. */
  function AfterTurns<T>(s: State<T>, ops: seq<Op<T>>): (r: State<T>)
    requires Valid(s) && ConsumerOnly(ops)
    ensures Valid(r) && ProducerSlot(r) == ProducerSlot(s)
    decreases |ops|
  {
    if ops == [] then s
    else
      StepIsMailbox(s, ops[0]);
      AfterTurns(Step(s, ops[0]), ops[1..])
  }

  class Producer<T> {
    const buffer: Buffer<T>
    var producer: Idx
    var lastConsumed: bool

    constructor (buffer: Buffer<T>, producer: Idx)
      ensures this.buffer == buffer && this.producer == producer && lastConsumed
    {
      this.buffer := buffer;
      this.producer := producer;
      lastConsumed := true;
    }

    method Get(ghost c: Consumer<T>) returns (value: T)
      requires Shared(this, c) && Valid(View(this, c))
      ensures value == ProducerSlot(View(this, c))
    {
      return buffer.elements[Index(producer)];
    }

    method Set(ghost c: Consumer<T>, value: T)
      requires Shared(this, c) && Valid(View(this, c))
      modifies buffer.elements
      ensures View(this, c) == Step(old(View(this, c)), Write(value)) && Valid(View(this, c))
    {
      StepIsMailbox(View(this, c), Write(value));
      buffer.SetElement(producer, value);
    }

    method Publish(ghost c: Consumer<T>) returns (consumed: bool)
      requires Shared(this, c) && Valid(View(this, c))
      modifies this, buffer
      ensures View(this, c) == Step(old(View(this, c)), TripleBuffer.Publish) && Valid(View(this, c))
      ensures consumed == Answer(old(View(this, c)), TripleBuffer.Publish)
    {
      StepIsMailbox(View(this, c), TripleBuffer.Publish);
      var newProducer;
      newProducer, consumed := buffer.PublishElement(producer);
      lastConsumed := consumed;
      producer := newProducer;
    }

    /**
     Whatever the consumer does between the write and the swap, the value sent is in the mailbox at
     the end.
     */
    method Send(c: Consumer<T>, value: T, between: seq<Op<T>>) returns (consumed: bool)
      requires Shared(this, c) && Valid(View(this, c)) && ConsumerOnly(between)
      modifies this, c, buffer, buffer.elements
      ensures View(this, c) == Step(AfterTurns(Step(old(View(this, c)), Write(value)), between), TripleBuffer.Publish)
      ensures Valid(View(this, c)) && Mailbox(View(this, c)) == Some(value) && lastConsumed == consumed
    {
      StepIsMailbox(View(this, c), Write(value));
      Set(c, value);
      c.Turns(this, between);
      StepIsMailbox(View(this, c), TripleBuffer.Publish);
      consumed := Publish(c);
    }

    method Consumed() returns (consumed: bool)
      ensures consumed == !IsPublished(buffer.flags)
    {
      consumed := buffer.ConsumedLoad();
    }

    method LastConsumed() returns (consumed: bool)
      ensures consumed == lastConsumed
    {
      return lastConsumed;
    }
  }

  class Consumer<T> {
    const buffer: Buffer<T>
    var consumer: Idx

    constructor (buffer: Buffer<T>, consumer: Idx)
      ensures this.buffer == buffer && this.consumer == consumer
    {
      this.buffer := buffer;
      this.consumer := consumer;
    }

    method Get(ghost p: Producer<T>) returns (value: T)
      requires Shared(p, this) && Valid(View(p, this))
      ensures value == ConsumerSlot(View(p, this))
    {
      return buffer.elements[Index(consumer)];
    }

    /** What a caller does through `get_mut`. */
    method Replace(ghost p: Producer<T>, value: T)
      requires Shared(p, this) && Valid(View(p, this))
      modifies buffer.elements
      ensures View(p, this) == Step(old(View(p, this)), Overwrite(value)) && Valid(View(p, this))
    {
      StepIsMailbox(View(p, this), Overwrite(value));
      buffer.SetElement(consumer, value);
    }

    method Consume(ghost p: Producer<T>) returns (published: bool)
      requires Shared(p, this) && Valid(View(p, this))
      modifies this, buffer
      ensures View(p, this) == Step(old(View(p, this)), TripleBuffer.Consume) && Valid(View(p, this))
      ensures published == Answer(old(View(p, this)), TripleBuffer.Consume)
    {
      StepIsMailbox(View(p, this), TripleBuffer.Consume);
      var newConsumer;
      newConsumer, published := buffer.ConsumeElement(consumer);
      consumer := newConsumer;
    }

    /** The consumer takes the given steps. */
    method Turns(p: Producer<T>, ops: seq<Op<T>>)
      requires Shared(p, this) && Valid(View(p, this)) && ConsumerOnly(ops)
      modifies this, buffer, buffer.elements
      ensures View(p, this) == AfterTurns(old(View(p, this)), ops) && Valid(View(p, this))
    {
      if ops != [] {
        if ops[0].Overwrite? {
          Replace(p, ops[0].value);
        } else {
          var _ := Consume(p);
        }
        Turns(p, ops[1..]);
      }
    }

    method Published() returns (published: bool)
      ensures published == IsPublished(buffer.flags)
    {
      var consumed := buffer.ConsumedLoad();
      return !consumed;
    }
  }
}
