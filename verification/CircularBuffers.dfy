/**
 The bounded buffer between the reader thread and the workers: a ring with a head, a
 tail and an `empty` flag. Each operation is one critical section, so the interleavings
 of any number of threads are the sequences of operations; an operation that has to
 wait takes its place in the sequence when its condition holds.
 */
module CircularBuffers {
  import opened Options

  datatype Operation<T> = Push(data: T) | Pop | Shutdown

  /** What a `Pop` reports: an element, or false. */
  datatype Output<T> = Silent | Popped(data: T) | Finished

  datatype Ring<T> = Ring(buffer: seq<T>, head: nat, tail: nat, empty: bool, isShutdown: bool) {

    predicate Valid() {
      head < |buffer| && tail < |buffer| && (empty ==> head == tail)
    }

    predicate Empty() {
      head == tail && empty
    }

    predicate Full() {
      head == tail && !empty
    }

    /** From the head to the tail, going around the end. */
    function Contents(): seq<T>
      requires Valid()
    {
      if empty then []
      else if head < tail then buffer[head..tail]
      else buffer[head..] + buffer[..tail]
    }

    function Next(index: nat): nat {
      if index + 1 >= |buffer| then 0 else index + 1
    }

    predicate CanProceed(op: Operation<T>) {
      match op
      case Push(_) => !Full()
      case Pop => !Empty() || isShutdown
      case Shutdown => true
    }

    function Step(op: Operation<T>): (Ring<T>, Output<T>)
      requires Valid() && CanProceed(op)
    {
      match op
      case Push(data) => (this.(buffer := buffer[tail := data], tail := Next(tail), empty := false), Silent)
      case Pop =>
        if !Empty() then (this.(head := Next(head), empty := Next(head) == tail), Popped(buffer[head]))
        else (this, Finished)
      case Shutdown => (this.(isShutdown := true), Silent)
    }
  }

  /** The specification: a first-in first-out queue with a capacity. */
  datatype Queue<T> = Queue(items: seq<T>, isShutdown: bool) {

    predicate CanProceed(capacity: nat, op: Operation<T>) {
      match op
      case Push(_) => |items| < capacity
      case Pop => items != [] || isShutdown
      case Shutdown => true
    }

    function Step(op: Operation<T>): (Queue<T>, Output<T>) {
      match op
      case Push(data) => (this.(items := items + [data]), Silent)
      case Pop => if items != [] then (this.(items := items[1..]), Popped(items[0])) else (this, Finished)
      case Shutdown => (this.(isShutdown := true), Silent)
    }
  }

  datatype Run<S, T> = Run(state: S, outputs: seq<Output<T>>)

  /** Runs the operations in order; `None` if one of them would wait forever. */
  function RingRun<T>(r: Ring<T>, ops: seq<Operation<T>>): (result: Option<Run<Ring<T>, T>>)
    requires r.Valid()
    ensures result.Some? ==> result.value.state.Valid() && |result.value.state.buffer| == |r.buffer|
    decreases |ops|
  {
    if ops == [] then Some(Run(r, []))
    else if !r.CanProceed(ops[0]) then None
    else
      var (next, output) := r.Step(ops[0]);
      match RingRun(next, ops[1..])
      case None => None
      case Some(rest) => Some(rest.(outputs := [output] + rest.outputs))
  }

  function QueueRun<T>(q: Queue<T>, capacity: nat, ops: seq<Operation<T>>): (result: Option<Run<Queue<T>, T>>)
    ensures result.Some? ==> |result.value.outputs| == |ops|
    decreases |ops|
  {
    if ops == [] then Some(Run(q, []))
    else if !q.CanProceed(capacity, ops[0]) then None
    else
      var (next, output) := q.Step(ops[0]);
      match QueueRun(next, capacity, ops[1..])
      case None => None
      case Some(rest) => Some(rest.(outputs := [output] + rest.outputs))
  }

  function Abstraction<T>(r: Ring<T>): Queue<T>
    requires r.Valid()
  {
    Queue(r.Contents(), r.isShutdown)
  }

  lemma {:induction false} PushAppends<T>(r: Ring<T>, data: T)
    requires r.Valid() && !r.Full()
    ensures r.Step(Push(data)).0.Valid()
    ensures r.Step(Push(data)).0.Contents() == r.Contents() + [data]
  {
    var next := r.Step(Push(data)).0;
    var all, after := r.Contents() + [data], next.Contents();
    assert |after| == |all|;
    forall i | 0 <= i < |all| ensures after[i] == all[i] {
    }
  }

  lemma {:induction false} PopRemoves<T>(r: Ring<T>)
    requires r.Valid() && !r.Empty()
    ensures r.Contents() != [] && r.Contents()[0] == r.buffer[r.head]
    ensures r.Step(Pop).0.Valid()
    ensures r.Step(Pop).0.Contents() == r.Contents()[1..]
  {
    var after, rest := r.Step(Pop).0.Contents(), r.Contents()[1..];
    assert |after| == |rest|;
    forall i | 0 <= i < |rest| ensures after[i] == rest[i] {
    }
  }

  lemma {:induction false} StepRefines<T>(r: Ring<T>, op: Operation<T>)
    requires r.Valid()
    ensures |r.Contents()| <= |r.buffer|
    ensures r.CanProceed(op) <==> Abstraction(r).CanProceed(|r.buffer|, op)
    ensures r.CanProceed(op) ==>
              && r.Step(op).0.Valid() && |r.Step(op).0.buffer| == |r.buffer|
              && Abstraction(r).Step(op) == (Abstraction(r.Step(op).0), r.Step(op).1)
  {
    if r.CanProceed(op) {
      match op
      case Push(data) => PushAppends(r, data);
      case Pop => if !r.Empty() { PopRemoves(r); }
      case Shutdown =>
    }
  }

  /** Through any number of wraparounds the ring is indistinguishable from the queue. */
  lemma {:induction false} RingRefinesQueue<T>(r: Ring<T>, ops: seq<Operation<T>>)
    requires r.Valid()
    ensures RingRun(r, ops).None? <==> QueueRun(Abstraction(r), |r.buffer|, ops).None?
    ensures RingRun(r, ops).Some? ==>
              QueueRun(Abstraction(r), |r.buffer|, ops)
              == Some(Run(Abstraction(RingRun(r, ops).value.state), RingRun(r, ops).value.outputs))
    decreases |ops|
  {
    if ops != [] {
      StepRefines(r, ops[0]);
      if r.CanProceed(ops[0]) {
        RingRefinesQueue(r.Step(ops[0]).0, ops[1..]);
      }
    }
  }

  // ----- what goes in comes out

  function PushedBy<T>(ops: seq<Operation<T>>): seq<T> {
    if ops == [] then []
    else if ops[0].Push? then [ops[0].data] + PushedBy(ops[1..])
    else PushedBy(ops[1..])
  }

  function PoppedBy<T>(outputs: seq<Output<T>>): seq<T> {
    if outputs == [] then []
    else if outputs[0].Popped? then [outputs[0].data] + PoppedBy(outputs[1..])
    else PoppedBy(outputs[1..])
  }

  ghost predicate NoPushAfterShutdown<T>(ops: seq<Operation<T>>) {
    forall i, j :: 0 <= i < j < |ops| && ops[i].Shutdown? ==> !ops[j].Push?
  }

  /** Nothing is lost, duplicated or reordered. */
  lemma {:induction false} QueueConserves<T>(q: Queue<T>, capacity: nat, ops: seq<Operation<T>>)
    requires QueueRun(q, capacity, ops).Some?
    ensures q.items + PushedBy(ops)
         == PoppedBy(QueueRun(q, capacity, ops).value.outputs) + QueueRun(q, capacity, ops).value.state.items
    decreases |ops|
  {
    if ops != [] {
      var (next, output) := q.Step(ops[0]);
      QueueConserves(next, capacity, ops[1..]);
      var rest := QueueRun(next, capacity, ops[1..]).value;
      assert QueueRun(q, capacity, ops).value.outputs[1..] == rest.outputs;
      var popped := PoppedBy(rest.outputs);
      match ops[0]
      case Push(data) => assert q.items + ([data] + PushedBy(ops[1..])) == next.items + PushedBy(ops[1..]);
      case Pop =>
        if q.items != [] {
          assert q.items == [q.items[0]] + next.items;
          assert [q.items[0]] + (popped + rest.state.items) == [q.items[0]] + popped + rest.state.items;
        }
      case Shutdown =>
    }
  }

  lemma {:induction false} DrainedStaysEmpty<T>(q: Queue<T>, capacity: nat, ops: seq<Operation<T>>)
    requires q.items == []
    requires forall i :: 0 <= i < |ops| ==> !ops[i].Push?
    requires QueueRun(q, capacity, ops).Some?
    ensures QueueRun(q, capacity, ops).value.state.items == []
    decreases |ops|
  {
    if ops != [] {
      DrainedStaysEmpty(q.Step(ops[0]).0, capacity, ops[1..]);
    }
  }

  /** A `Pop` that returns false after a shutdown that no push follows has seen everything. */
  lemma {:induction false} FinishedMeansEmpty<T>(q: Queue<T>, capacity: nat, ops: seq<Operation<T>>)
    requires q.isShutdown ==> forall i :: 0 <= i < |ops| ==> !ops[i].Push?
    requires NoPushAfterShutdown(ops)
    requires QueueRun(q, capacity, ops).Some?
    requires Finished in QueueRun(q, capacity, ops).value.outputs
    ensures QueueRun(q, capacity, ops).value.state.items == []
    decreases |ops|
  {
    var (next, output) := q.Step(ops[0]);
    if output.Finished? {
      DrainedStaysEmpty(next, capacity, ops[1..]);
    } else {
      FinishedMeansEmpty(next, capacity, ops[1..]);
    }
  }

  /** The buffer as the constructor builds it; what the elements are at first does not matter. */
  predicate IsInitial<T>(r: Ring<T>) {
    |r.buffer| > 0 && r.head == 0 && r.tail == 0 && r.empty && !r.isShutdown
  }

  /**
   For every sequence of operations on a new buffer: the elements popped so far are the
   first elements pushed, what is left is in the buffer and fits; and if every push
   precedes the shutdown, then once some `Pop` has returned false everything was popped.
   */
  lemma {:induction false} BufferDelivers<T>(r: Ring<T>, ops: seq<Operation<T>>)
    requires IsInitial(r)
    requires RingRun(r, ops).Some?
    ensures var run := RingRun(r, ops).value;
            && PushedBy(ops) == PoppedBy(run.outputs) + run.state.Contents()
            && |run.state.Contents()| <= |r.buffer|
            && (NoPushAfterShutdown(ops) && Finished in run.outputs ==> PoppedBy(run.outputs) == PushedBy(ops))
  {
    RingRefinesQueue(r, ops);
    var q := Abstraction(r);
    QueueConserves(q, |r.buffer|, ops);
    if NoPushAfterShutdown(ops) && Finished in RingRun(r, ops).value.outputs {
      FinishedMeansEmpty(q, |r.buffer|, ops);
    }
  }

  // ----- waiting and shutdown

  /** A push waits exactly while the buffer is full, a pop exactly while it is empty and not shut down. */
  lemma {:induction false} WaitsAreExact<T>(r: Ring<T>, data: T)
    requires r.Valid()
    ensures r.CanProceed(Push(data)) <==> |r.Contents()| < |r.buffer|
    ensures r.CanProceed(Pop) <==> r.Contents() != [] || r.isShutdown
    ensures r.CanProceed(Shutdown)
  {
  }

  lemma {:induction false} RunShutsDown<T>(r: Ring<T>, ops: seq<Operation<T>>)
    requires r.Valid() && RingRun(r, ops).Some?
    ensures RingRun(r, ops).value.state.isShutdown <==> r.isShutdown || Shutdown in ops
    decreases |ops|
  {
    if ops != [] {
      StepRefines(r, ops[0]);
      RunShutsDown(r.Step(ops[0]).0, ops[1..]);
      assert Shutdown in ops <==> ops[0] == Shutdown || Shutdown in ops[1..];
    }
  }

  /**
   After any operations on a new buffer, a `Pop` waits if and only if everything pushed was
   popped and there was no shutdown; after a shutdown it returns false on an empty buffer.
   */
  lemma {:induction false} PopWaitsExactly<T>(r: Ring<T>, ops: seq<Operation<T>>)
    requires IsInitial(r) && RingRun(r, ops).Some?
    ensures var run := RingRun(r, ops).value;
            && (run.state.CanProceed(Pop) <==> PushedBy(ops) != PoppedBy(run.outputs) || Shutdown in ops)
            && (run.state.CanProceed(Pop) ==>
                  (run.state.Step(Pop).1 == Finished <==> PushedBy(ops) == PoppedBy(run.outputs)))
  {
    BufferDelivers(r, ops);
    RunShutsDown(r, ops);
    var run := RingRun(r, ops).value;
    assert PushedBy(ops) == PoppedBy(run.outputs) <==> run.state.Contents() == [];
  }

  /** The object. Its methods are the critical sections; a wait is the method's precondition. */
  class GenericCircularBuffer<T(0)> {
    const buffer: array<T>
    var head: nat
    var tail: nat
    var empty: bool
    var isShutdown: bool

    ghost function State(): Ring<T>
      reads this, buffer
    {
      Ring(buffer[..], head, tail, empty, isShutdown)
    }

    constructor (size: nat)
      requires size > 0
      ensures IsInitial(State()) && buffer.Length == size && fresh(buffer)
    {
      buffer := new T[size];
      head, tail, empty, isShutdown := 0, 0, true, false;
    }

    predicate Empty()
      reads this
    {
      head == tail && empty
    }

    predicate Full()
      reads this
    {
      head == tail && !empty
    }

    method Shutdown()
      requires State().Valid()
      modifies this
      ensures old(State()).Step(Operation.Shutdown) == (State(), Silent)
      ensures State() == old(State()).(isShutdown := true)
    {
      isShutdown := true;
    }

    method Pop() returns (popped: bool, next: Option<T>)
      requires State().Valid()
      requires !Empty() || isShutdown
      modifies this
      ensures popped == next.Some?
      ensures old(State()).Step(Operation.Pop) == (State(), if popped then Popped(next.value) else Finished)
    {
      if !Empty() {
        next := Some(buffer[head]);
        head := head + 1;
        if head >= buffer.Length {
          head := 0;
        }
        empty := head == tail;
        return true, next;
      }
      return !isShutdown, None;
    }

    method Push(data: T)
      requires State().Valid()
      requires !Full()
      modifies this, buffer
      ensures old(State()).Step(Operation.Push(data)) == (State(), Silent)
    {
      buffer[tail] := data;
      tail := tail + 1;
      if tail >= buffer.Length {
        tail := 0;
      }
      empty := false;
    }
  }
}
