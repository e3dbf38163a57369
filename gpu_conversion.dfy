/**
 * Conversion of dense tensors between host memory and GPU memory.
 *
 * Each conversion is a fixed run of stages: obtain the destination buffer, enqueue an
 * asynchronous copy on a device stream, create an event, record it on the stream right
 * after the copy, and hand the host work queue a blocking task that waits on the event.
 * The driver, the allocators and the work queue are not modelled; what they answer is
 * passed in as an oracle argument to each conversion, and what the conversion asks of
 * them is logged in the state of a GpuRuntime.
 */
module GpuConversion {
  import opened Support

  newtype byte = x: int | 0 <= x < 256

  /** The platform side a pointer addresses. */
  datatype Space = HostMemory | DeviceMemory

  datatype Pointer = Pointer(space: Space, addr: nat)

  /** Bytes of host and device memory; a pointer that is not a key holds no defined byte. */
  type Memory = map<Pointer, byte>

  type StreamId = nat
  type EventId = nat
  type FutureId = nat

  /** A dense host tensor: the host address of its buffer and its size in bytes. */
  datatype HostTensor = HostTensor(data: nat, size: nat)

  /** A dense GPU tensor: the device address of its buffer and its size in bytes. */
  datatype GpuTensor = GpuTensor(buffer: nat, size: nat)

  /** An operation enqueued on a device stream. */
  datatype StreamOp =
    | MemcpyOp(stream: StreamId, dst: Pointer, src: Pointer, size: nat)
    | RecordOp(stream: StreamId, event: EventId)

  /** Blocking work on the host work queue, with everything its closure owns. */
  datatype Task =
    | DeliverHostTensor(event: EventId, result: HostTensor, future: FutureId)
    | KeepHostTensorAlive(tensor: HostTensor, event: EventId)
  {
    /** The host tensor the task keeps alive until its event has been waited on. */
    function Held(): HostTensor {
      match this
      case DeliverHostTensor(_, t, _) => t
      case KeepHostTensorAlive(t, _) => t
    }
  }

  /** The async value a device-to-host conversion hands back. */
  datatype Future = Ready(outcome: Result<HostTensor, string>) | Pending(id: FutureId)

  const CannotAllocateResult := "cannot allocate result tensor"
  const MemcpyEnqueueFailed := "failed to enqueue host to device memcpy: "
  const EventCreateFailed := "could not create event to wait for host to device memcpy: "
  const EventRecordFailed := "could not enqueue event to wait for host to device memcpy: "
  const WaitFailed := "could not wait for event"
  const KeepAliveRejected :=
    "could not enqueue work to synchronize after issuing host to device memcpy in CreateDenseTensorOp"

  // ---------------------------------------------------------------------------
  // What the device does with a stream

  function Offset(p: Pointer, i: nat): Pointer {
    Pointer(p.space, p.addr + i)
  }

  predicate Within(p: Pointer, base: Pointer, n: nat) {
    p.space == base.space && base.addr <= p.addr < base.addr + n
  }

  /**
   * Memory after copying n bytes from src to dst, every byte read before any is written.
   * A source byte that holds nothing leaves its destination byte as it was.
   */
  function Copy(mem: Memory, dst: Pointer, src: Pointer, n: nat): (m: Memory)
    ensures forall i | 0 <= i < n && Offset(src, i) in mem ::
      Offset(dst, i) in m && m[Offset(dst, i)] == mem[Offset(src, i)]
    ensures forall p | p in mem && !Within(p, dst, n) :: p in m && m[p] == mem[p]
    ensures forall p | p in m :: p in mem || Within(p, dst, n)
  {
    if n == 0 then mem
    else
      var m' := Copy(mem, dst, src, n - 1);
      var s := Offset(src, n - 1);
      if s in mem then m'[Offset(dst, n - 1) := mem[s]] else m'
  }

  /** The effect of one stream operation: a copy moves bytes, recording an event moves none. */
  function Step(mem: Memory, op: StreamOp): Memory {
    match op
    case MemcpyOp(_, dst, src, n) => Copy(mem, dst, src, n)
    case RecordOp(_, _) => mem
  }

  /** Memory once the device has executed the operations in submission order. */
  function Execute(ops: seq<StreamOp>, mem: Memory): Memory
    decreases |ops|
  {
    if ops == [] then mem else Step(Execute(ops[..|ops| - 1], mem), ops[|ops| - 1])
  }

  /** The operations of one stream, in submission order; only these are ordered with each other. */
  function StreamOps(ops: seq<StreamOp>, s: StreamId): (r: seq<StreamOp>)
    ensures |r| <= |ops|
    ensures forall k | 0 <= k < |r| :: r[k].stream == s && r[k] in ops
  {
    if ops == [] then []
    else
      var last := ops[|ops| - 1];
      StreamOps(ops[..|ops| - 1], s) + (if last.stream == s then [last] else [])
  }

  lemma {:induction false} ExecuteAppend(a: seq<StreamOp>, b: seq<StreamOp>, mem: Memory)
    ensures Execute(a + b, mem) == Execute(b, Execute(a, mem))
    decreases |b|
  {
    if b == [] {
      assert a + b == a;
    } else {
      var b' := b[..|b| - 1];
      assert (a + b)[..|a + b| - 1] == a + b';
      ExecuteAppend(a, b', mem);
    }
  }

  lemma {:induction false} StreamOpsAppend(a: seq<StreamOp>, b: seq<StreamOp>, s: StreamId)
    ensures StreamOps(a + b, s) == StreamOps(a, s) + StreamOps(b, s)
    decreases |b|
  {
    if b == [] {
      assert a + b == a;
    } else {
      var b' := b[..|b| - 1];
      assert (a + b)[..|a + b| - 1] == a + b';
      StreamOpsAppend(a, b', s);
    }
  }

  /** Every destination byte holds the source byte as it was when the copy began. */
  ghost predicate Delivered(pre: Memory, post: Memory, dst: Pointer, src: Pointer, n: nat) {
    forall i | 0 <= i < n ::
      Offset(src, i) in pre && Offset(dst, i) in post && post[Offset(dst, i)] == pre[Offset(src, i)]
  }

  /** Every byte outside the destination range is as it was. */
  ghost predicate Untouched(pre: Memory, post: Memory, dst: Pointer, n: nat) {
    forall p | p in pre && !Within(p, dst, n) :: p in post && post[p] == pre[p]
  }

  /**
   * A copy followed by an event record on stream s: once the device has run the stream up
   * to the event, the destination holds the source bytes as the earlier operations of the
   * stream left them, and nothing else has changed.
   */
  lemma CopyCompletesAtEvent(before: seq<StreamOp>, s: StreamId, dst: Pointer, src: Pointer,
                             n: nat, e: EventId, mem: Memory)
    requires forall i | 0 <= i < n :: Offset(src, i) in Execute(StreamOps(before, s), mem)
    ensures Delivered(Execute(StreamOps(before, s), mem),
                      Execute(StreamOps(before + [MemcpyOp(s, dst, src, n), RecordOp(s, e)], s), mem),
                      dst, src, n)
    ensures Untouched(Execute(StreamOps(before, s), mem),
                      Execute(StreamOps(before + [MemcpyOp(s, dst, src, n), RecordOp(s, e)], s), mem),
                      dst, n)
  {
    var tail := [MemcpyOp(s, dst, src, n), RecordOp(s, e)];
    StreamOpsAppend(before, tail, s);
    assert StreamOps(tail, s) == tail by {
      assert tail[..1] == [MemcpyOp(s, dst, src, n)];
      assert StreamOps(tail[..1], s) == [MemcpyOp(s, dst, src, n)] by {
        assert tail[..1][..0] == [];
      }
    }
    var pre := Execute(StreamOps(before, s), mem);
    ExecuteAppend(StreamOps(before, s), tail, mem);
    assert tail[..1] == [MemcpyOp(s, dst, src, n)] && tail[..1][..0] == [];
    assert Execute(tail[..1], pre) == Copy(pre, dst, src, n);
    assert Execute(tail, pre) == Copy(pre, dst, src, n);
  }

  /** The device-to-host copy: from the GPU buffer into the new host buffer, the tensor's byte size. */
  function GpuToHostCopy(s: StreamId, gpu: GpuTensor, hostData: nat): StreamOp {
    MemcpyOp(s, Pointer(HostMemory, hostData), Pointer(DeviceMemory, gpu.buffer), gpu.size)
  }

  /** The host-to-device copy: from the host tensor's data into the new device buffer. */
  function HostToGpuCopy(s: StreamId, t: HostTensor, deviceAddr: nat): StreamOp {
    MemcpyOp(s, Pointer(DeviceMemory, deviceAddr), Pointer(HostMemory, t.data), t.size)
  }

  /**
   * Once the stream has run past the event a device-to-host conversion recorded, the new
   * host tensor holds the GPU tensor's bytes.
   */
  lemma GpuToHostDelivers(before: seq<StreamOp>, s: StreamId, gpu: GpuTensor, hostData: nat,
                          e: EventId, mem: Memory)
    requires forall i | 0 <= i < gpu.size ::
      Offset(Pointer(DeviceMemory, gpu.buffer), i) in Execute(StreamOps(before, s), mem)
    ensures Delivered(Execute(StreamOps(before, s), mem),
                      Execute(StreamOps(before + [GpuToHostCopy(s, gpu, hostData), RecordOp(s, e)], s), mem),
                      Pointer(HostMemory, hostData), Pointer(DeviceMemory, gpu.buffer), gpu.size)
  {
    CopyCompletesAtEvent(before, s, Pointer(HostMemory, hostData), Pointer(DeviceMemory, gpu.buffer),
                         gpu.size, e, mem);
  }

  /**
   * Once the stream has run past the event a host-to-device conversion recorded, the new
   * device buffer holds the host tensor's bytes.
   */
  lemma HostToGpuDelivers(before: seq<StreamOp>, s: StreamId, t: HostTensor, deviceAddr: nat,
                          e: EventId, mem: Memory)
    requires forall i | 0 <= i < t.size ::
      Offset(Pointer(HostMemory, t.data), i) in Execute(StreamOps(before, s), mem)
    ensures Delivered(Execute(StreamOps(before, s), mem),
                      Execute(StreamOps(before + [HostToGpuCopy(s, t, deviceAddr), RecordOp(s, e)], s), mem),
                      Pointer(DeviceMemory, deviceAddr), Pointer(HostMemory, t.data), t.size)
  {
    CopyCompletesAtEvent(before, s, Pointer(DeviceMemory, deviceAddr), Pointer(HostMemory, t.data),
                         t.size, e, mem);
  }

  /**
   * The stream operation op is the copy task w waits for, over the whole of the host tensor
   * w owns: into it for a device-to-host task, which hands that tensor over, and out of it
   * for a keep-alive task, whose tensor must live until the copy is done.
   */
  predicate CopiesHostTensor(op: StreamOp, w: Task) {
    && op.MemcpyOp? && op.size == w.Held().size
    && (if w.DeliverHostTensor? then op.dst else op.src) == Pointer(HostMemory, w.Held().data)
  }

  /**
   * Task w waits on an event recorded, on the same stream, right after the copy into or out
   * of its host tensor that it waits for: waiting on the event is waiting for that copy.
   */
  ghost predicate Guards(ops: seq<StreamOp>, w: Task) {
    exists k | 0 <= k < |ops| - 1 ::
      CopiesHostTensor(ops[k], w) && ops[k + 1] == RecordOp(ops[k].stream, w.event)
  }

  /**
   * The runtime invariant: every pending task owns an event nobody else owns, waits on it
   * for the copy into (device-to-host) or out of (keep-alive) the host tensor it owns, and
   * (device-to-host) resolves an async value that is not yet available and that no other
   * task resolves.
   */
  ghost predicate Consistent(ops: seq<StreamOp>, work: seq<Task>, nextEvent: EventId,
                             nextFuture: FutureId, resolved: map<FutureId, Result<HostTensor, string>>)
  {
    && (forall i | 0 <= i < |work| :: work[i].event < nextEvent && Guards(ops, work[i]))
    && (forall i, j | 0 <= i < j < |work| :: work[i].event != work[j].event)
    && (forall i | 0 <= i < |work| && work[i].DeliverHostTensor? ::
          work[i].future < nextFuture && work[i].future !in resolved)
    && (forall i, j | 0 <= i < j < |work| && work[i].DeliverHostTensor? && work[j].DeliverHostTensor? ::
          work[i].future != work[j].future)
    && (forall f | f in resolved :: f < nextFuture)
  }

  /** Issuing more stream operations and creating more events keeps the invariant. */
  lemma ConsistentAfterIssue(ops: seq<StreamOp>, more: seq<StreamOp>, work: seq<Task>,
                             nextEvent: EventId, nextEvent': EventId, nextFuture: FutureId,
                             resolved: map<FutureId, Result<HostTensor, string>>)
    requires Consistent(ops, work, nextEvent, nextFuture, resolved) && nextEvent <= nextEvent'
    ensures Consistent(ops + more, work, nextEvent', nextFuture, resolved)
  {
    forall i | 0 <= i < |work|
      ensures Guards(ops + more, work[i])
    {
      assert Guards(ops, work[i]);
      var k :| 0 <= k < |ops| - 1 &&
        CopiesHostTensor(ops[k], work[i]) && ops[k + 1] == RecordOp(ops[k].stream, work[i].event);
      assert (ops + more)[k] == ops[k] && (ops + more)[k + 1] == ops[k + 1];
    }
  }

  /**
   * Enqueuing a task whose event is newer than every pending task's, which waits for a copy
   * of its host tensor, and (device-to-host) which resolves the next async value, keeps the
   * invariant.
   */
  lemma ConsistentAfterEnqueue(ops: seq<StreamOp>, work: seq<Task>, w: Task, nextEvent: EventId,
                               nextFuture: FutureId, resolved: map<FutureId, Result<HostTensor, string>>)
    requires Consistent(ops, work, w.event, nextFuture, resolved)
    requires w.event < nextEvent && Guards(ops, w)
    requires w.DeliverHostTensor? ==> w.future == nextFuture
    ensures Consistent(ops, work + [w], nextEvent,
                       if w.DeliverHostTensor? then nextFuture + 1 else nextFuture, resolved)
  {
  }

  /** Taking the oldest task off the queue and resolving the async value it owned keeps the invariant. */
  lemma ConsistentAfterRun(ops: seq<StreamOp>, work: seq<Task>, nextEvent: EventId, nextFuture: FutureId,
                           resolved: map<FutureId, Result<HostTensor, string>>, outcome: Result<HostTensor, string>)
    requires Consistent(ops, work, nextEvent, nextFuture, resolved) && work != []
    ensures Consistent(ops, work[1..], nextEvent, nextFuture,
                       if work[0].DeliverHostTensor? then resolved[work[0].future := outcome] else resolved)
  {
  }

  // ---------------------------------------------------------------------------
  // The two conversions, stage by stage

  /**
   * What one conversion does besides returning its result: the stream operations it
   * issued, how many events it created, the blocking work it enqueued and the buffers it
   * released because a later stage failed.
   */
  datatype Outcome<R> = Outcome(result: R, issued: seq<StreamOp>, created: nat,
                                enqueued: seq<Task>, released: seq<Pointer>)

  /**
   * ConvertDenseGpuTensorToDenseHostTensor, stage by stage. hostAlloc is what
   * DenseHostTensor::CreateUninitialized yields (the host address of a buffer of the
   * tensor's size, or nothing); memcpy, create and record are the answers of MemcpyAsync,
   * EventCreate and EventRecord; enqueue is whether the host work queue took the blocking
   * work, with the error of the async value it makes when it did not. event and future are
   * the names the next event and the next async value get.
   */
  function GpuToHost(s: StreamId, gpu: GpuTensor, hostAlloc: Option<nat>, memcpy: Status,
                     create: Status, record: Status, enqueue: Status, event: EventId,
                     future: FutureId): (o: Outcome<Future>)
    // no host tensor: the error comes back at once and nothing is issued
    ensures hostAlloc.None? ==> o == Outcome(Ready(Err(CannotAllocateResult)), [], 0, [], [])
    // the stream sees the copy of exactly the tensor's bytes into the new host tensor, then
    // the record of the new event, or a prefix of these two where a stage failed
    ensures hostAlloc.Some? ==>
      o.issued <= [GpuToHostCopy(s, gpu, hostAlloc.value), RecordOp(s, event)]
    ensures |o.issued| == 2 <==> hostAlloc.Some? && memcpy.Success? && create.Success? && record.Success?
    // an event is created only once the copy was enqueued
    ensures o.created == (if hostAlloc.Some? && memcpy.Success? && create.Success? then 1 else 0)
    // the first failing stage names the error, and nothing after it runs
    ensures hostAlloc.Some? && memcpy.Failure? ==>
      o.result == Ready(Err(MemcpyEnqueueFailed + memcpy.message)) && o.issued == [] && o.created == 0
    ensures hostAlloc.Some? && memcpy.Success? && create.Failure? ==>
      o.result == Ready(Err(EventCreateFailed + create.message)) && |o.issued| == 1
    ensures hostAlloc.Some? && memcpy.Success? && create.Success? && record.Failure? ==>
      o.result == Ready(Err(EventRecordFailed + record.message)) && |o.issued| == 1
    ensures |o.issued| == 2 && enqueue.Failure? ==> o.result == Ready(Err(enqueue.message))
    // blocking work is enqueued exactly when every stage succeeded: one task, owning the
    // event and the host tensor, that makes the returned async value available
    ensures o.enqueued != [] <==> |o.issued| == 2 && enqueue.Success?
    ensures o.enqueued != [] ==>
      && o.enqueued == [DeliverHostTensor(event, HostTensor(hostAlloc.value, gpu.size), future)]
      && o.result == Pending(future)
    ensures o.enqueued == [] ==> o.result.Ready? && o.result.outcome.Err?
    // a host tensor that no task took over is released
    ensures o.released == (if hostAlloc.Some? && o.enqueued == [] then [Pointer(HostMemory, hostAlloc.value)] else [])
  {
    if hostAlloc.None? then Outcome(Ready(Err(CannotAllocateResult)), [], 0, [], [])
    else
      var host := [Pointer(HostMemory, hostAlloc.value)];
      var copy := GpuToHostCopy(s, gpu, hostAlloc.value);
      if memcpy.Failure? then
        Outcome(Ready(Err(MemcpyEnqueueFailed + memcpy.message)), [], 0, [], host)
      else if create.Failure? then
        Outcome(Ready(Err(EventCreateFailed + create.message)), [copy], 0, [], host)
      else if record.Failure? then
        Outcome(Ready(Err(EventRecordFailed + record.message)), [copy], 1, [], host)
      else if enqueue.Failure? then
        Outcome(Ready(Err(enqueue.message)), [copy, RecordOp(s, event)], 1, [], host)
      else
        var task := DeliverHostTensor(event, HostTensor(hostAlloc.value, gpu.size), future);
        Outcome(Pending(future), [copy, RecordOp(s, event)], 1, [task], [])
  }

  /**
   * ConvertDenseHostTensorToDenseGpuTensor, stage by stage. alloc is what the device
   * allocator answers for a buffer of the tensor's byte size (a device address or its
   * error); memcpy, create and record are the driver's answers; accepted is whether the
   * host work queue took the keep-alive task. event is the name the next event gets.
   */
  function HostToGpu(s: StreamId, tensor: HostTensor, alloc: Result<nat, string>, memcpy: Status,
                     create: Status, record: Status, accepted: bool,
                     event: EventId): (o: Outcome<Result<GpuTensor, string>>)
    // the allocator's error comes back unchanged and nothing is issued
    ensures alloc.Err? ==> o == Outcome(Err(alloc.error), [], 0, [], [])
    // the stream sees the copy of exactly the tensor's bytes into the new buffer, then the
    // record of the new event, or a prefix of these two where a stage failed
    ensures alloc.Ok? ==> o.issued <= [HostToGpuCopy(s, tensor, alloc.value), RecordOp(s, event)]
    ensures |o.issued| == 2 <==> alloc.Ok? && memcpy.Success? && create.Success? && record.Success?
    ensures o.created == (if alloc.Ok? && memcpy.Success? && create.Success? then 1 else 0)
    // driver errors come back unchanged, in stage order, and nothing after them runs
    ensures alloc.Ok? && memcpy.Failure? ==> o.result == Err(memcpy.message) && o.issued == [] && o.created == 0
    ensures alloc.Ok? && memcpy.Success? && create.Failure? ==> o.result == Err(create.message) && |o.issued| == 1
    ensures alloc.Ok? && memcpy.Success? && create.Success? && record.Failure? ==>
      o.result == Err(record.message) && |o.issued| == 1
    ensures |o.issued| == 2 && !accepted ==> o.result == Err(KeepAliveRejected)
    // the caller gets the new buffer exactly when the keep-alive task, holding the source
    // tensor and the event, was enqueued
    ensures o.result.Ok? <==> o.enqueued != []
    ensures o.enqueued != [] <==> |o.issued| == 2 && accepted
    ensures o.enqueued != [] ==>
      && o.enqueued == [KeepHostTensorAlive(tensor, event)]
      && o.result == Ok(GpuTensor(alloc.value, tensor.size))
    // a device buffer that no tensor took over is released
    ensures o.released == (if alloc.Ok? && o.enqueued == [] then [Pointer(DeviceMemory, alloc.value)] else [])
  {
    if alloc.Err? then Outcome(Err(alloc.error), [], 0, [], [])
    else
      var buffer := [Pointer(DeviceMemory, alloc.value)];
      var copy := HostToGpuCopy(s, tensor, alloc.value);
      if memcpy.Failure? then Outcome(Err(memcpy.message), [], 0, [], buffer)
      else if create.Failure? then Outcome(Err(create.message), [copy], 0, [], buffer)
      else if record.Failure? then Outcome(Err(record.message), [copy], 1, [], buffer)
      else if !accepted then Outcome(Err(KeepAliveRejected), [copy, RecordOp(s, event)], 1, [], buffer)
      else
        Outcome(Ok(GpuTensor(alloc.value, tensor.size)), [copy, RecordOp(s, event)], 1,
                [KeepHostTensorAlive(tensor, event)], [])
  }

  /**
   * The async value a device-to-host task makes available: its host tensor when
   * EventSynchronize succeeded, the wait error otherwise.
   */
  function WaitOutcome(result: HostTensor, wait: Status): (r: Result<HostTensor, string>)
    ensures r.Ok? <==> wait.Success?
    ensures r.Ok? ==> r.value == result
    ensures r.Err? ==> r.error == WaitFailed
  {
    if wait.Success? then Ok(result) else Err(WaitFailed)
  }

  /**
   * Round trip: a host tensor converted to the GPU and the resulting GPU tensor converted
   * back, every stage succeeding on one stream, gives a host tensor of the same size whose
   * bytes, once the stream has run past the second event, are the original tensor's bytes.
   */
  lemma RoundTrip(ops: seq<StreamOp>, s: StreamId, t: HostTensor, alloc: Result<nat, string>,
                  hostAlloc: Option<nat>, e1: EventId, e2: EventId, f: FutureId, mem: Memory)
    requires alloc.Ok? && hostAlloc.Some?
    requires forall i | 0 <= i < t.size ::
      Offset(Pointer(HostMemory, t.data), i) in Execute(StreamOps(ops, s), mem)
    ensures var o1 := HostToGpu(s, t, alloc, Success, Success, Success, true, e1);
      && o1.result == Ok(GpuTensor(alloc.value, t.size))
      && var o2 := GpuToHost(s, o1.result.value, hostAlloc, Success, Success, Success, Success, e2, f);
      && o2.enqueued == [DeliverHostTensor(e2, HostTensor(hostAlloc.value, t.size), f)]
      && var pre, post := Execute(StreamOps(ops, s), mem),
                          Execute(StreamOps(ops + o1.issued + o2.issued, s), mem);
      forall i | 0 <= i < t.size ::
        && Offset(Pointer(HostMemory, hostAlloc.value), i) in post
        && post[Offset(Pointer(HostMemory, hostAlloc.value), i)] == pre[Offset(Pointer(HostMemory, t.data), i)]
  {
    var o1 := HostToGpu(s, t, alloc, Success, Success, Success, true, e1);
    var gpu := o1.result.value;
    var o2 := GpuToHost(s, gpu, hostAlloc, Success, Success, Success, Success, e2, f);
    HostToGpuDelivers(ops, s, t, alloc.value, e1, mem);
    GpuToHostDelivers(ops + o1.issued, s, gpu, hostAlloc.value, e2, mem);
  }

  /** A device-to-host conversion keeps the runtime invariant, whatever the oracles answer. */
  lemma GpuToHostKeepsConsistent(ops: seq<StreamOp>, work: seq<Task>, nextEvent: EventId,
                                 nextFuture: FutureId, resolved: map<FutureId, Result<HostTensor, string>>,
                                 s: StreamId, gpu: GpuTensor, hostAlloc: Option<nat>, memcpy: Status,
                                 create: Status, record: Status, enqueue: Status)
    requires Consistent(ops, work, nextEvent, nextFuture, resolved)
    ensures var o := GpuToHost(s, gpu, hostAlloc, memcpy, create, record, enqueue, nextEvent, nextFuture);
      Consistent(ops + o.issued, work + o.enqueued, nextEvent + o.created, nextFuture + |o.enqueued|, resolved)
  {
    var o := GpuToHost(s, gpu, hostAlloc, memcpy, create, record, enqueue, nextEvent, nextFuture);
    ConsistentAfterIssue(ops, o.issued, work, nextEvent, nextEvent, nextFuture, resolved);
    if o.enqueued == [] {
      ConsistentAfterIssue(ops, o.issued, work, nextEvent, nextEvent + o.created, nextFuture, resolved);
      assert work + o.enqueued == work;
    } else {
      var ops' := ops + o.issued;
      var task := o.enqueued[0];
      assert Guards(ops', task) by {
        assert ops'[|ops|] == o.issued[0] && ops'[|ops| + 1] == o.issued[1];
        assert CopiesHostTensor(ops'[|ops|], task);
      }
      ConsistentAfterEnqueue(ops', work, task, nextEvent + 1, nextFuture, resolved);
    }
  }

  /** A host-to-device conversion keeps the runtime invariant, whatever the oracles answer. */
  lemma HostToGpuKeepsConsistent(ops: seq<StreamOp>, work: seq<Task>, nextEvent: EventId,
                                 nextFuture: FutureId, resolved: map<FutureId, Result<HostTensor, string>>,
                                 s: StreamId, tensor: HostTensor, alloc: Result<nat, string>, memcpy: Status,
                                 create: Status, record: Status, accepted: bool)
    requires Consistent(ops, work, nextEvent, nextFuture, resolved)
    ensures var o := HostToGpu(s, tensor, alloc, memcpy, create, record, accepted, nextEvent);
      Consistent(ops + o.issued, work + o.enqueued, nextEvent + o.created, nextFuture, resolved)
  {
    var o := HostToGpu(s, tensor, alloc, memcpy, create, record, accepted, nextEvent);
    ConsistentAfterIssue(ops, o.issued, work, nextEvent, nextEvent, nextFuture, resolved);
    if o.enqueued == [] {
      ConsistentAfterIssue(ops, o.issued, work, nextEvent, nextEvent + o.created, nextFuture, resolved);
      assert work + o.enqueued == work;
    } else {
      var ops' := ops + o.issued;
      var task := o.enqueued[0];
      assert Guards(ops', task) by {
        assert ops'[|ops|] == o.issued[0] && ops'[|ops| + 1] == o.issued[1];
        assert CopiesHostTensor(ops'[|ops|], task);
      }
      ConsistentAfterEnqueue(ops', work, task, nextEvent + 1, nextFuture, resolved);
    }
  }

  // ---------------------------------------------------------------------------
  // The runtime state the two conversions act on

  class GpuRuntime {
    /** Every operation enqueued on a device stream, in submission order. */
    var ops: seq<StreamOp>
    /** Events are numbered in creation order; the next EventCreate makes this one. */
    var nextEvent: EventId
    /** Blocking work pending on the host work queue, oldest first. */
    var work: seq<Task>
    /** Requests made to the device allocator: byte size and stream. */
    var allocations: seq<(nat, StreamId)>
    /** Buffers handed back to their allocator because their last owner went away. */
    var released: seq<Pointer>
    /** Async values made for device-to-host results are numbered in creation order. */
    var nextFuture: FutureId
    /** The async values that blocking work has already made available. */
    var resolved: map<FutureId, Result<HostTensor, string>>
    /**
     * Set once a keep-alive task's wait failed: ExitOnError ends the process, so no
     * conversion and no task runs after that.
     */
    var aborted: bool
    /**
     * Host tensors whose reference, taken by a keep-alive task's closure, was dropped when
     * the task finished, in that order.
     */
    var dropped: seq<HostTensor>

    ghost predicate Valid()
      reads this
    {
      Consistent(ops, work, nextEvent, nextFuture, resolved)
    }

    constructor ()
      ensures Valid()
      ensures ops == [] && work == [] && allocations == [] && released == []
      ensures nextEvent == 0 && nextFuture == 0 && resolved == map[] && !aborted && dropped == []
    {
      ops, nextEvent, work, allocations, released := [], 0, [], [], [];
      nextFuture, resolved, aborted, dropped := 0, map[], false, [];
    }

    /**
     * ConvertDenseGpuTensorToDenseHostTensor on this runtime: the stream, the event
     * counter, the work queue and the released buffers change as GpuToHost says.
     */
    method ConvertGpuToHost(s: StreamId, gpu: GpuTensor, hostAlloc: Option<nat>,
                            memcpy: Status, create: Status, record: Status, enqueue: Status)
      returns (r: Future)
      requires Valid() && !aborted
      modifies this
      ensures var o := GpuToHost(s, gpu, hostAlloc, memcpy, create, record, enqueue,
                                 old(nextEvent), old(nextFuture));
        && r == o.result
        && ops == old(ops) + o.issued && nextEvent == old(nextEvent) + o.created
        && work == old(work) + o.enqueued && released == old(released) + o.released
        && nextFuture == old(nextFuture) + |o.enqueued|
      ensures allocations == old(allocations) && resolved == old(resolved) && aborted == old(aborted)
      ensures dropped == old(dropped)
      ensures Valid()
    {
      GpuToHostKeepsConsistent(ops, work, nextEvent, nextFuture, resolved,
                               s, gpu, hostAlloc, memcpy, create, record, enqueue);
      if hostAlloc.None? {
        return Ready(Err(CannotAllocateResult));
      }
      var result := HostTensor(hostAlloc.value, gpu.size);
      if memcpy.Failure? {
        released := released + [Pointer(HostMemory, result.data)];
        return Ready(Err(MemcpyEnqueueFailed + memcpy.message));
      }
      ops := ops + [GpuToHostCopy(s, gpu, result.data)];
      if create.Failure? {
        released := released + [Pointer(HostMemory, result.data)];
        return Ready(Err(EventCreateFailed + create.message));
      }
      var event := nextEvent;
      nextEvent := nextEvent + 1;
      if record.Failure? {
        released := released + [Pointer(HostMemory, result.data)];
        return Ready(Err(EventRecordFailed + record.message));
      }
      ops := ops + [RecordOp(s, event)];
      if enqueue.Failure? {
        released := released + [Pointer(HostMemory, result.data)];
        return Ready(Err(enqueue.message));
      }
      work := work + [DeliverHostTensor(event, result, nextFuture)];
      r := Pending(nextFuture);
      nextFuture := nextFuture + 1;
    }

    /**
     * ConvertDenseHostTensorToDenseGpuTensor on this runtime: the allocator is asked for a
     * buffer of the tensor's byte size on the given stream, and the stream, the event
     * counter, the work queue and the released buffers change as HostToGpu says.
     */
    method ConvertHostToGpu(s: StreamId, tensor: HostTensor, alloc: Result<nat, string>,
                            memcpy: Status, create: Status, record: Status, accepted: bool)
      returns (r: Result<GpuTensor, string>)
      requires Valid() && !aborted
      modifies this
      ensures allocations == old(allocations) + [(tensor.size, s)]
      ensures var o := HostToGpu(s, tensor, alloc, memcpy, create, record, accepted, old(nextEvent));
        && r == o.result
        && ops == old(ops) + o.issued && nextEvent == old(nextEvent) + o.created
        && work == old(work) + o.enqueued && released == old(released) + o.released
      ensures resolved == old(resolved) && nextFuture == old(nextFuture) && aborted == old(aborted)
      ensures dropped == old(dropped)
      ensures Valid()
    {
      HostToGpuKeepsConsistent(ops, work, nextEvent, nextFuture, resolved,
                               s, tensor, alloc, memcpy, create, record, accepted);
      allocations := allocations + [(tensor.size, s)];
      if alloc.Err? {
        return Err(alloc.error);
      }
      var buffer := alloc.value;
      if memcpy.Failure? {
        released := released + [Pointer(DeviceMemory, buffer)];
        return Err(memcpy.message);
      }
      ops := ops + [HostToGpuCopy(s, tensor, buffer)];
      if create.Failure? {
        released := released + [Pointer(DeviceMemory, buffer)];
        return Err(create.message);
      }
      var event := nextEvent;
      nextEvent := nextEvent + 1;
      if record.Failure? {
        released := released + [Pointer(DeviceMemory, buffer)];
        return Err(record.message);
      }
      ops := ops + [RecordOp(s, event)];
      if !accepted {
        released := released + [Pointer(DeviceMemory, buffer)];
        return Err(KeepAliveRejected);
      }
      work := work + [KeepHostTensorAlive(tensor, event)];
      r := Ok(GpuTensor(buffer, tensor.size));
    }

    /**
     * A worker thread runs the oldest blocking task; wait is what EventSynchronize answers
     * for the task's event. A device-to-host task makes its async value available with the
     * host tensor, or with an error when the wait failed; in that case the host tensor, which
     * only the task's closure owned, is released with the closure. A keep-alive task whose
     * wait succeeded is destroyed with its closure, which drops its reference on the source
     * host tensor; one whose wait failed ends the process before that.
     */
    method RunNextTask(wait: Status)
      requires Valid() && !aborted && work != []
      modifies this
      ensures Valid()
      ensures work == old(work)[1..]
      ensures ops == old(ops) && nextEvent == old(nextEvent) && allocations == old(allocations)
      ensures nextFuture == old(nextFuture)
      ensures old(work)[0].DeliverHostTensor? ==>
        && aborted == old(aborted)
        && resolved == old(resolved)[old(work)[0].future := WaitOutcome(old(work)[0].result, wait)]
        && released == old(released) +
             (if wait.Failure? then [Pointer(HostMemory, old(work)[0].result.data)] else [])
        && dropped == old(dropped)
      ensures old(work)[0].KeepHostTensorAlive? ==>
        && resolved == old(resolved) && aborted == wait.Failure? && released == old(released)
        && dropped == old(dropped) + (if wait.Success? then [old(work)[0].tensor] else [])
    {
      var task := work[0];
      ConsistentAfterRun(ops, work, nextEvent, nextFuture, resolved, WaitOutcome(task.Held(), wait));
      work := work[1..];
      match task
      case DeliverHostTensor(_, result, future) =>
        resolved := resolved[future := WaitOutcome(result, wait)];
        if wait.Failure? {
          // the error is returned and the closure, still owning the host tensor, is destroyed
          released := released + [Pointer(HostMemory, result.data)];
        }
      case KeepHostTensorAlive(tensor, _) =>
        if wait.Failure? {
          aborted := true;
        } else {
          // the closure and the tensor.CopyRef() it captured are destroyed
          dropped := dropped + [tensor];
        }
    }
  }

  // ---------------------------------------------------------------------------
  // Registration

  datatype TensorKind = DenseHost | DenseGpu

  /** A conversion function, named by the tensor kinds it converts from and to. */
  datatype Conversion = Conversion(from: TensorKind, to: TensorKind)

  /** The table of conversion functions, in the order they were added. */
  class ConversionRegistry {
    var fns: seq<Conversion>

    constructor ()
      ensures fns == []
    {
      fns := [];
    }

    method AddTensorConversionFn(c: Conversion)
      modifies this
      ensures fns == old(fns) + [c]
    {
      fns := fns + [c];
    }
  }

  /** Registers host-to-GPU and then GPU-to-host conversion, and nothing else. */
  method RegisterGpuTensorConversionFn(registry: ConversionRegistry)
    modifies registry
    ensures registry.fns == old(registry.fns) + [Conversion(DenseHost, DenseGpu), Conversion(DenseGpu, DenseHost)]
  {
    registry.AddTensorConversionFn(Conversion(DenseHost, DenseGpu));
    registry.AddTensorConversionFn(Conversion(DenseGpu, DenseHost));
  }
}
