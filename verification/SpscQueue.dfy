/** The bounded single-producer/single-consumer queue of src/common/lf_queue.h. Every access to the shared
    element count, index store and slot access is one atomic step; steps of the two threads interleave freely. */
module SpscQueues {
  import opened Common

  /** Where the producer stands: outside any operation, holding a slot it may write (with the value last
      written to it, if any), past the full check of `updateWriteIndex`, or between its index store and its
      count update. */
  datatype Producer<T> = Outside | Holding(slot: nat, put: Option<T>) | Admitted(value: T) | IndexStored(value: T)

  /** Where the consumer stands, likewise. */
  datatype Consumer<T> = Away | Reading(slot: nat, got: Option<T>) | Allowed(value: T) | Advanced(value: T)

  /** The ring slot of the i-th element ever written, lap by lap. */
  ghost function SlotOf(i: nat, capacity: nat): (s: nat)
    requires capacity > 0
    ensures s < capacity
  {
    if i < capacity then i else SlotOf(i - capacity, capacity)
  }

  /** The index update `(index + 1) % capacity` moves to the slot of the next element. */
  lemma {:induction false} SlotStep(i: nat, n: nat)
    requires n > 0
    ensures (SlotOf(i, n) + 1) % n == SlotOf(i + 1, n)
  {
    if i >= n {
      SlotStep(i - n, n);
    }
  }

  /** Less than a full turn apart, two elements never share a slot. */
  lemma {:induction false} SlotsDiffer(i: nat, j: nat, n: nat)
    requires n > 0 && i < j < i + n
    ensures SlotOf(i, n) != SlotOf(j, n)
  {
    if i >= n {
      SlotsDiffer(i - n, j - n, n);
    }
  }

  /** One atomic step of either thread. */
  datatype Step<T> =
    | TryGetNextToWriteTo
    | WriteSlot(value: T)
    | CheckNotFull
    | StoreWriteIndex
    | IncrementCount
    | GetNextToRead
    | ReadSlot
    | CheckNotEmpty
    | StoreReadIndex
    | DecrementCount

  // ----- on values -------------------------------------------------------------------------------------------

  /** What the two threads have done: where each stands, and the elements published and finished with. */
  datatype Queue<T> = Queue(producer: Producer<T>, consumer: Consumer<T>, written: seq<T>, read: seq<T>)

  function Empty<T>(): Queue<T> { Queue(Outside, Away, [], []) }

  /** The slot of the next element to be written, none when `n` elements are waiting. */
  ghost function SlotToWrite<T>(s: Queue<T>, n: nat): Option<nat>
    requires n > 0
  {
    if |s.written| - |s.read| >= n then None else Some(SlotOf(|s.written|, n))
  }

  /** The slot of the oldest element not finished with, if any. */
  ghost function SlotToRead<T>(s: Queue<T>, n: nat): Option<nat>
    requires n > 0
  {
    if |s.read| >= |s.written| then None else Some(SlotOf(|s.read|, n))
  }

  /** One step of a queue of `n` slots; a step that its thread cannot take next changes nothing. */
  ghost function Stepped<T>(n: nat, s: Queue<T>, step: Step<T>): Queue<T>
    requires n > 0
  {
    match step
    case TryGetNextToWriteTo =>
      if s.producer.Outside? && SlotToWrite(s, n).Some? then
        s.(producer := Holding(SlotToWrite(s, n).value, None))
      else s
    case WriteSlot(value) =>
      if s.producer.Holding? then s.(producer := Holding(s.producer.slot, Some(value))) else s
    case CheckNotFull =>
      if s.producer.Holding? && s.producer.put.Some? then s.(producer := Admitted(s.producer.put.value)) else s
    case StoreWriteIndex =>
      if s.producer.Admitted? then s.(producer := IndexStored(s.producer.value)) else s
    case IncrementCount =>
      if s.producer.IndexStored? then s.(producer := Outside, written := s.written + [s.producer.value]) else s
    case GetNextToRead =>
      if s.consumer.Away? && SlotToRead(s, n).Some? then
        s.(consumer := Reading(SlotToRead(s, n).value, None))
      else s
    case ReadSlot =>
      if s.consumer.Reading? && |s.read| < |s.written| then
        s.(consumer := Reading(s.consumer.slot, Some(s.written[|s.read|])))
      else s
    case CheckNotEmpty =>
      if s.consumer.Reading? && s.consumer.got.Some? then s.(consumer := Allowed(s.consumer.got.value)) else s
    case StoreReadIndex =>
      if s.consumer.Allowed? then s.(consumer := Advanced(s.consumer.value)) else s
    case DecrementCount =>
      if s.consumer.Advanced? then s.(consumer := Away, read := s.read + [s.consumer.value]) else s
  }

  /** A queue of `n` slots after any interleaving of steps. */
  ghost function Ran<T>(n: nat, s: Queue<T>, schedule: seq<Step<T>>): Queue<T>
    requires n > 0
  {
    if schedule == [] then s
    else Stepped(n, Ran(n, s, schedule[..|schedule| - 1]), schedule[|schedule| - 1])
  }

  /** What is read is what was written, in order; at most `n` elements wait, fewer while one is on its way in. */
  ghost predicate Fifo<T>(n: nat, s: Queue<T>) {
    && s.read <= s.written && |s.written| - |s.read| <= n
    && (!s.producer.Outside? ==> |s.written| - |s.read| < n)
    && (!s.consumer.Away? ==> |s.read| < |s.written|)
    && (s.consumer.Reading? && s.consumer.got.Some? ==> s.consumer.got.value == s.written[|s.read|])
    && (s.consumer.Allowed? || s.consumer.Advanced? ==> s.consumer.value == s.written[|s.read|])
  }

  lemma {:induction false} RunIsFifo<T>(n: nat, schedule: seq<Step<T>>)
    requires n > 0
    ensures Fifo(n, Ran(n, Empty(), schedule))
  {
    if schedule != [] {
      RunIsFifo(n, schedule[..|schedule| - 1]);
    }
  }

  predicate OfProducer<T>(step: Step<T>) {
    step.TryGetNextToWriteTo? || step.WriteSlot? || step.CheckNotFull? || step.StoreWriteIndex? || step.IncrementCount?
  }

  /** The steps of one thread in a schedule. */
  function StepsOf<T>(schedule: seq<Step<T>>, producers: bool): seq<Step<T>> {
    if schedule == [] then []
    else
      var last := schedule[|schedule| - 1];
      StepsOf(schedule[..|schedule| - 1], producers) + if OfProducer(last) == producers then [last] else []
  }

  /** Putting one value in. */
  function Push<T>(value: T): seq<Step<T>> {
    [TryGetNextToWriteTo, WriteSlot(value), CheckNotFull, StoreWriteIndex, IncrementCount]
  }

  /** Taking one value out. */
  function Pop<T>(): seq<Step<T>> { [GetNextToRead, ReadSlot, CheckNotEmpty, StoreReadIndex, DecrementCount] }

  /** The producer after the first `k` steps of a push that began with `before` published. */
  ghost predicate PushedTo<T>(n: nat, s: Queue<T>, value: T, before: seq<T>, k: nat) {
    && s.written == (if k < 5 then before else before + [value])
    && (k == 0 ==> s.producer == Outside && |s.written| - |s.read| < n)
    && (k == 1 ==> s.producer.Holding?)
    && (k == 2 ==> s.producer.Holding? && s.producer.put == Some(value))
    && (k == 3 ==> s.producer == Admitted(value))
    && (k == 4 ==> s.producer == IndexStored(value))
    && (k == 5 ==> s.producer == Outside)
  }

  /** Whatever the consumer does in between, a push into a queue with room publishes its value, after all
      others. */
  lemma {:induction false} PushPublishes<T>(n: nat, s: Queue<T>, value: T, schedule: seq<Step<T>>)
    requires n > 0 && s.producer == Outside && |s.written| - |s.read| < n
    requires StepsOf(schedule, true) <= Push(value)
    ensures PushedTo(n, Ran(n, s, schedule), value, s.written, |StepsOf(schedule, true)|)
  {
    if schedule != [] {
      var before := schedule[..|schedule| - 1];
      PushPublishes(n, s, value, before);
      var k := |StepsOf(before, true)|;
      assert StepsOf(schedule, true)[..k] == StepsOf(before, true);
      assert OfProducer(schedule[|schedule| - 1]) ==> schedule[|schedule| - 1] == Push(value)[k];
    }
  }

  /** The consumer after the first `k` steps of a pop. */
  ghost predicate PoppedTo<T>(s: Queue<T>, before: Queue<T>, k: nat)
    requires |before.read| < |before.written|
  {
    var value := before.written[|before.read|];
    && before.written <= s.written
    && s.read == (if k < 5 then before.read else before.read + [value])
    && (k == 0 ==> s.consumer == Away)
    && (k == 1 ==> s.consumer.Reading?)
    && (k == 2 ==> s.consumer.Reading? && s.consumer.got == Some(value))
    && (k == 3 ==> s.consumer == Allowed(value))
    && (k == 4 ==> s.consumer == Advanced(value))
    && (k == 5 ==> s.consumer == Away)
  }

  /** Whatever the producer does in between, a pop from a queue that holds something takes its oldest value. */
  lemma {:induction false} PopTakesOldest<T>(n: nat, s: Queue<T>, schedule: seq<Step<T>>)
    requires n > 0 && s.consumer == Away && |s.read| < |s.written|
    requires StepsOf(schedule, false) <= Pop()
    ensures PoppedTo(Ran(n, s, schedule), s, |StepsOf(schedule, false)|)
  {
    if schedule != [] {
      var before := schedule[..|schedule| - 1];
      PopTakesOldest(n, s, before);
      var k := |StepsOf(before, false)|;
      assert StepsOf(schedule, false)[..k] == StepsOf(before, false);
      assert !OfProducer(schedule[|schedule| - 1]) ==> schedule[|schedule| - 1] == Pop<T>()[k];
    }
  }

  // ----- the object ------------------------------------------------------------------------------------------

  class SpscQueue<T(0, ==)> {
    const store: array<T>
    var nextWriteIndex: nat
    var nextReadIndex: nat
    var numElements: int

    var producer: Producer<T>
    var consumer: Consumer<T>

    /** Everything the producer has published, and everything the consumer has finished with. */
    ghost var written: seq<T>
    ghost var read: seq<T>

    ghost function View(): Queue<T>
      reads this
    {
      Queue(producer, consumer, written, read)
    }

    /** What holds between any two atomic steps. */
    ghost predicate Valid()
      reads this, store
    {
      var n, w, r := store.Length, |written|, |read|;
      && n > 0
      && read <= written
      && numElements == w - r <= n
      && nextWriteIndex == SlotOf(if producer.IndexStored? then w + 1 else w, n)
      && nextReadIndex == SlotOf(if consumer.Advanced? then r + 1 else r, n)
      && (forall i: nat :: r <= i < w ==> store[SlotOf(i, n)] == written[i])
      && (!producer.Outside? ==> w - r < n)
      && (producer.Holding? ==> producer.slot == SlotOf(w, n))
      && (producer.Holding? && producer.put.Some? ==> store[SlotOf(w, n)] == producer.put.value)
      && (producer.Admitted? || producer.IndexStored? ==> store[SlotOf(w, n)] == producer.value)
      && (!consumer.Away? ==> r < w)
      && (consumer.Reading? ==> consumer.slot == SlotOf(r, n))
      && (consumer.Reading? && consumer.got.Some? ==> consumer.got.value == written[r])
      && (consumer.Allowed? || consumer.Advanced? ==> consumer.value == written[r])
    }

    constructor (capacity: nat, initial: T)
      requires capacity > 0
      ensures Valid() && fresh(store) && store.Length == capacity
      ensures View() == Empty()
    {
      store := new T[capacity](_ => initial);
      nextWriteIndex, nextReadIndex, numElements := 0, 0, 0;
      producer, consumer, written, read := Outside, Away, [], [];
    }

    /** `tryGetNextToWriteTo`: null exactly when the queue holds `capacity` elements. */
    method TryGetNextToWriteTo() returns (slot: Option<nat>)
      requires Valid() && producer == Outside
      modifies this`producer
      ensures Valid()
      ensures slot == None <==> |written| - |read| == store.Length
      ensures producer == if slot == None then Outside else Holding(slot.value, None)
      ensures slot.Some? ==> slot.value == SlotOf(|written|, store.Length)
    {
      if numElements == store.Length {
        return None;
      }
      slot := Some(nextWriteIndex);
      producer := Holding(nextWriteIndex, None);
    }

    /** The producer writes through the pointer it holds; the slot is never the one the consumer may read. */
    method WriteSlot(value: T)
      requires Valid() && producer.Holding?
      modifies this`producer, store
      ensures Valid()
      ensures producer == Holding(old(producer).slot, Some(value))
      ensures consumer.Reading? ==> consumer.slot != producer.slot
    {
      ghost var n, w, r := store.Length, |written|, |read|;
      forall i: nat | r <= i < w ensures SlotOf(i, n) != producer.slot {
        SlotsDiffer(i, w, n);
      }
      store[producer.slot] := value;
      producer := Holding(producer.slot, Some(value));
    }

    /** The full check of `updateWriteIndex`; its `std::terminate` is never reached. */
    method CheckNotFull() returns (terminates: bool)
      requires Valid() && producer.Holding? && producer.put.Some?
      modifies this`producer
      ensures !terminates && Valid() && producer == Admitted(old(producer).put.value)
    {
      terminates := numElements == store.Length;
      if !terminates {
        producer := Admitted(producer.put.value);
      }
    }

    method StoreWriteIndex()
      requires Valid() && producer.Admitted?
      modifies this`producer, this`nextWriteIndex
      ensures Valid() && producer == IndexStored(old(producer).value)
    {
      SlotStep(|written|, store.Length);
      nextWriteIndex := (nextWriteIndex + 1) % store.Length;
      producer := IndexStored(producer.value);
    }

    /** The count update publishes the element. */
    method IncrementCount()
      requires Valid() && producer.IndexStored?
      modifies this`producer, this`numElements, this`written
      ensures Valid() && producer == Outside && written == old(written) + [old(producer).value]
    {
      numElements := numElements + 1;
      written := written + [producer.value];
      producer := Outside;
    }

    /** `getNextToRead`: null exactly when no element is published. */
    method GetNextToRead() returns (slot: Option<nat>)
      requires Valid() && consumer == Away
      modifies this`consumer
      ensures Valid()
      ensures slot == None <==> |written| == |read|
      ensures consumer == if slot == None then Away else Reading(slot.value, None)
      ensures slot.Some? ==> slot.value == SlotOf(|read|, store.Length)
    {
      if numElements == 0 {
        return None;
      }
      slot := Some(nextReadIndex);
      consumer := Reading(nextReadIndex, None);
    }

    /** The consumer reads the oldest element it has not finished with. */
    method ReadSlot() returns (value: T)
      requires Valid() && consumer.Reading?
      modifies this`consumer
      ensures Valid() && consumer == Reading(old(consumer).slot, Some(value))
      ensures |read| < |written| && value == written[|read|]
    {
      value := store[consumer.slot];
      consumer := Reading(consumer.slot, Some(value));
    }

    /** The empty check of `updateReadIndex`; its `std::terminate` is never reached. */
    method CheckNotEmpty() returns (terminates: bool)
      requires Valid() && consumer.Reading? && consumer.got.Some?
      modifies this`consumer
      ensures !terminates && Valid() && consumer == Allowed(old(consumer).got.value)
    {
      terminates := numElements == 0;
      if !terminates {
        consumer := Allowed(consumer.got.value);
      }
    }

    method StoreReadIndex()
      requires Valid() && consumer.Allowed?
      modifies this`consumer, this`nextReadIndex
      ensures Valid() && consumer == Advanced(old(consumer).value)
    {
      SlotStep(|read|, store.Length);
      nextReadIndex := (nextReadIndex + 1) % store.Length;
      consumer := Advanced(consumer.value);
    }

    /** The count update gives the slot back. */
    method DecrementCount()
      requires Valid() && consumer.Advanced?
      modifies this`consumer, this`numElements, this`read
      ensures Valid() && consumer == Away && read == old(read) + [old(consumer).value]
    {
      numElements := numElements - 1;
      read := read + [consumer.value];
      consumer := Away;
    }

    /** The two counts bound each other between any two steps. */
    lemma Counts()
      requires Valid()
      ensures read <= written && |written| - |read| == numElements <= store.Length
      ensures consumer.Reading? ==> |read| < |written|
    {
    }

    /** The scheduler picks any step; one that its thread cannot take next leaves the queue alone. */
    method Take(step: Step<T>)
      requires Valid()
      modifies this, store
      ensures Valid() && View() == Stepped(store.Length, old(View()), step)
    {
      hide Valid, SlotOf;
      Counts();
      match step {
        case TryGetNextToWriteTo => if producer.Outside? { var slot := TryGetNextToWriteTo(); }
        case WriteSlot(value) => if producer.Holding? { WriteSlot(value); }
        case CheckNotFull => if producer.Holding? && producer.put.Some? { var terminates := CheckNotFull(); }
        case StoreWriteIndex => if producer.Admitted? { StoreWriteIndex(); }
        case IncrementCount => if producer.IndexStored? { IncrementCount(); }
        case GetNextToRead => if consumer.Away? { var slot := GetNextToRead(); }
        case ReadSlot => if consumer.Reading? { var value := ReadSlot(); }
        case CheckNotEmpty => if consumer.Reading? && consumer.got.Some? { var terminates := CheckNotEmpty(); }
        case StoreReadIndex => if consumer.Allowed? { StoreReadIndex(); }
        case DecrementCount => if consumer.Advanced? { DecrementCount(); }
      }
    }
  }

  /** Over every interleaving the ring is the queue on values: what is read is a prefix of what is written, the
      count accounts for the rest, and (the checks' contracts) no terminating branch is taken. */
  method Interleave<T(0, ==)>(capacity: nat, initial: T, schedule: seq<Step<T>>) returns (q: SpscQueue<T>)
    requires capacity > 0
    ensures q.Valid() && q.View() == Ran(capacity, Empty(), schedule)
    ensures q.read <= q.written && 0 <= q.numElements == |q.written| - |q.read| <= capacity
  {
    q := new SpscQueue(capacity, initial);
    for i := 0 to |schedule|
      invariant q.Valid() && fresh(q) && fresh(q.store) && q.store.Length == capacity
      invariant q.View() == Ran(capacity, Empty(), schedule[..i])
    {
      assert schedule[..i + 1][..i] == schedule[..i];
      q.Take(schedule[i]);
    }
    assert schedule[..|schedule|] == schedule;
  }
}
