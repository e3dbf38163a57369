# TFRT host/device transfer, cluster registry and request cancellation, in Dafny

This project models three parts of the TFRT runtime and proves properties of the models.

- **Dense tensor conversion between host and GPU** (`gpu_conversion.dfy`, module `GpuConversion`).
  - Device→host conversion: allocate a host tensor, enqueue an asynchronous memcpy on the stream, create an event, record it on the stream, then enqueue blocking work that waits on the event and hands the host tensor to an async value.
  - Host→device conversion: allocate a device buffer of the tensor's byte size, then memcpy, event create and event record. It then enqueues blocking work that keeps the source host tensor alive until the event has been waited on.
  - Registration of both conversion functions.
  - Each conversion is specified stage by stage by a pure function (`GpuToHost`, `HostToGpu`). That function gives:
    - the result;
    - the stream operations issued and the events created;
    - the task enqueued;
    - the buffers released because a later stage failed.
  - The methods of class `GpuRuntime` perform the stages imperatively, with early returns, and are proved equal to those functions.
  - A runtime invariant is kept by every conversion and by running a task. It says that every pending task owns its own event, recorded right after the copy that the task waits for. For a device→host task that is the copy into the host tensor it hands over. For a keep-alive task it is the copy out of the tensor it keeps alive.
  - Memory semantics of the stream (`Copy`, `Execute`) show that once the stream has run up to the recorded event, the destination holds the source bytes.
- **Cluster task registry** (`cluster_info.dfy`, module `Cluster`).
  - Every configured task gets a random handle. That handle is never the invalid handle.
  - Each task is filed under its job and task id, and indexed by its handle. When a handle is drawn twice, the first task keeps it.
  - The task whose name equals this process's task name sets the local handle.
  - Lookups by (job, task id) and by handle return a value or a `TaskNotFound` error that says what was missing. The lookup by name returns the name parser's error when the name does not parse, and otherwise the (job, task id) lookup's answer.
  - The constructor loop is proved to build exactly the registry the configuration describes. The lookup lemmas state what each lookup then answers.
- **Request context cancellation** (`execution_context.dfy`, module `ExecutionContext`).
  - `Cancel` makes a "Cancelled" error value and installs it if the slot is empty; otherwise it drops the value's only reference at once.
  - The destructor drops the slot's reference.
  - `RequestContextBuilder::build` fails with the work queue's `InitRequest` error.
  - `RequestContext::Create` requires that build succeeds.
  - Every error value made is kept with its reference count. This lets the model prove three things: the slot is monotone, Cancel is idempotent, and no error value is leaked over a context's lifetime.

`support.dfy` (module `Support`) holds `Option`, `Result` and `Status`: the model's versions of `llvm::Optional`, `llvm::Expected` and `llvm::Error`.

The inputs of the following are passed in as parameters:

- **GPU driver calls.** `MemcpyAsync`, `EventCreate`, `EventRecord` and `EventSynchronize` become `Status` arguments.
- **Allocators.** `DenseHostTensor::CreateUninitialized` becomes an `Option` argument, and the GPU allocator a `Result` argument.
- **Host work queue.** Whether it accepts blocking work, and its `InitRequest` answer, are parameters.
- **Task-name parser.** `TaskNameUtil::ParseTaskName` is a function parameter of type `string -> Result<ParsedName, string>`.
- **Random source.** `random::New64` is a supplied sequence of 64-bit values, read from a cursor.

## Model

| member | source | states |
|---|---|---|
| GpuConversion.GpuToHost | backends/gpu/lib/device/conversion_function.cc:47-97 | Without a host tensor the result is "cannot allocate result tensor" and nothing is issued. Otherwise the stream gets the copy of exactly the GPU tensor's byte size from its buffer into the new host tensor, then the event record, or the prefix of these up to the failing stage. MemcpyAsync, EventCreate and EventRecord failures are checked in that order, each with its own literal message prefix. An event exists only once the copy is enqueued. Work is enqueued exactly when every stage succeeded: one task owning the event and the host tensor, with the result pending on its async value. Otherwise the result is an error and the host tensor is released. |
| GpuConversion.HostToGpu | backends/gpu/lib/device/conversion_function.cc:108-145 | An allocator error is returned unchanged and nothing is issued. Otherwise the stream gets the copy of exactly the host tensor's byte size into the new buffer, then the event record, or the prefix up to the failing stage. Driver errors come back unchanged, in stage order. A rejected keep-alive task yields the fixed "could not enqueue work..." error. The result is a GPU tensor over the new buffer, with the host tensor's size, exactly when one task holding the source tensor and the event was enqueued. On any failure after allocation the buffer is released. |
| GpuConversion.WaitOutcome | backends/gpu/lib/device/conversion_function.cc:91-95 | The device→host task yields its host tensor exactly when EventSynchronize succeeds, and otherwise the error "could not wait for event". |
| GpuConversion.CopyCompletesAtEvent | backends/gpu/lib/device/conversion_function.cc:61-85 | Once the device has run a stream past an event recorded right after a memcpy, every destination byte holds the source byte as the earlier operations on that stream left it, and every other byte is unchanged. Operations on other streams do not interleave into this. |
| GpuConversion.GpuToHostDelivers | backends/gpu/lib/device/conversion_function.cc:57-85 | After the event the device→host conversion records, the new host tensor holds the GPU tensor's bytes. |
| GpuConversion.HostToGpuDelivers | backends/gpu/lib/device/conversion_function.cc:119-130 | After the event the host→device conversion records, the new device buffer holds the host tensor's bytes. |
| GpuConversion.GpuToHostKeepsConsistent | backends/gpu/lib/device/conversion_function.cc:87-96 | Whatever the driver and the allocators answer, a device→host conversion keeps the runtime invariant. Each pending task has an event of its own. The event is recorded right after the copy of the task's whole host tensor: into it for a device→host task, and out of it for a keep-alive task. The new device→host task waits for the copy into the host tensor it hands over. Each device→host task resolves a distinct async value not yet available. |
| GpuConversion.HostToGpuKeepsConsistent | backends/gpu/lib/device/conversion_function.cc:132-138 | Whatever the driver and the allocator answer, a host→device conversion keeps the runtime invariant. The keep-alive task owns the source tensor and an event recorded right after the copy out of it. |
| GpuConversion.ConsistentAfterRun | backends/gpu/lib/device/conversion_function.cc:89-96 | Running the oldest task and resolving its async value keeps the runtime invariant. |
| GpuConversion.GpuRuntime.ConvertGpuToHost | backends/gpu/lib/device/conversion_function.cc:47-97 | Runs only while the process has not been ended by a failed keep-alive wait. The stages run imperatively with early returns. The result and the new stream, event counter, work queue and released-buffer log are exactly those `GpuToHost` gives. The allocator log, the resolved values, the abort flag and the dropped-reference log are unchanged. The runtime invariant holds afterwards. |
| GpuConversion.GpuRuntime.ConvertHostToGpu | backends/gpu/lib/device/conversion_function.cc:108-145 | Runs only while the process has not been ended by a failed keep-alive wait. A buffer of the tensor's byte size is requested on the given stream. The result and the new stream, event counter, work queue and released-buffer log are exactly those `HostToGpu` gives. The resolved values, the abort flag and the dropped-reference log are unchanged. The runtime invariant holds afterwards. |
| GpuConversion.RoundTrip | backends/gpu/lib/device/conversion_function.cc:47-145 | A host tensor converted to the GPU, and the GPU tensor that comes back converted to the host, all stages succeeding on one stream, gives a host tensor of the same size. Once the stream has run past the second event, its bytes equal the original tensor's bytes. |
| GpuConversion.GpuRuntime.RunNextTask | backends/gpu/lib/device/conversion_function.cc:87-137 | Runs only while the process has not been ended by a failed keep-alive wait. The oldest task leaves the queue. A device→host task makes its async value available with the `WaitOutcome` of its host tensor. When its wait failed, the host tensor its closure still owns is released with the closure; when the wait succeeded, the tensor moves into the async value and nothing is released. A keep-alive task whose wait succeeded is destroyed with its closure, which drops the closure's reference on the source host tensor; the model logs that tensor in `dropped`. A keep-alive task whose wait failed ends the process, which the model records as the abort flag, and drops nothing; after that no conversion and no task can run. The stream, the events, the allocator log and the async value counter are unchanged, and the invariant is kept. |
| GpuConversion.RegisterGpuTensorConversionFn | backends/gpu/lib/device/conversion_function.cc:155-160 | Exactly two conversion functions are appended to the registry: host→GPU, then GPU→host. |
| Cluster.GetNewTaskHandle | lib/distributed_runtime/cluster_info.cc:33-39 | The loop draws values until one is not the invalid handle and returns that one. Every value skipped was the invalid handle. The valid values not yet drawn lose exactly the returned one. |
| Cluster.DecimalRoundTrip | lib/distributed_runtime/cluster_info.cc:44 | The decimal digits written for a task id read back as that number. |
| Cluster.IntToDecimalInjective | lib/distributed_runtime/cluster_info.cc:44 | Distinct task ids are written as distinct decimal strings. |
| Cluster.TaskNameParts | lib/distributed_runtime/cluster_info.cc:42-45 | A TaskInfo's name reads "/job:", then the job, then "/task:", then the task id in decimal. |
| Cluster.InfoFields | lib/distributed_runtime/cluster_info.cc:42-45 | The TaskInfo the model makes for a configured task (`Cluster.Info`) carries the handle drawn for it and its configured address. Its name reads "/job:", then the parsed job, then "/task:", then the parsed task id in decimal. |
| Cluster.TaskNamesDiffer | lib/distributed_runtime/cluster_info.cc:44 | Two tasks of one job with different ids get different names. |
| Cluster.RegisterTask | lib/distributed_runtime/cluster_info.cc:50-66 | One pass of the constructor loop: the task's name is parsed, its job is try_emplaced, and a handle is drawn. The task is filed under its job and id, indexed by the handle unless that handle was drawn before, and it sets the local handle when its name is this process's task name. The registry then describes one more configured task, and that task's handle is the next valid random value. |
| Cluster.ClusterInfo.constructor | lib/distributed_runtime/cluster_info.cc:49-67 | Every configured name must parse, and no two may name the same (job, task id). The registry built then holds exactly the configured tasks, filed by job and id. Job names equal their keys. Each handle in the index belongs to the first task given it. The local handle is that of the task named like this process. The handles are the first valid values of the random source, in order. |
| Cluster.ClusterInfo.GetTaskHandle | lib/distributed_runtime/cluster_info.cc:77-92 | A missing job gives TaskNotFound naming the job. A missing task id in an existing job gives TaskNotFound naming the task. Otherwise the result is the filed task's handle. |
| Cluster.ClusterInfo.GetTaskHandleByName | lib/distributed_runtime/cluster_info.cc:69-75 | A name that does not parse returns the parser's error. Otherwise the result is the (job, task id) lookup on the parsed parts. |
| Cluster.ClusterInfo.GetTaskName | lib/distributed_runtime/cluster_info.cc:94-101 | The lookup succeeds exactly when the handle is indexed, with that task's name, and otherwise fails with TaskNotFound for the handle. |
| Cluster.ClusterInfo.GetTaskAddress | lib/distributed_runtime/cluster_info.cc:103-111 | The lookup succeeds exactly when the handle is indexed, with that task's address, and otherwise fails with TaskNotFound for the handle. |
| Cluster.ConfiguredTaskFound | lib/distributed_runtime/cluster_info.cc:49-92 | On a built registry, every configured task is found, by its parsed (job, task id) and by its full configured name, with the handle it was given. |
| Cluster.LookupByJobAndTaskId | lib/distributed_runtime/cluster_info.cc:77-92 | On a built registry, a (job, task id) lookup succeeds exactly for configured tasks. It reports the job as missing exactly when no configured task belongs to that job. |
| Cluster.HandleFindsTask | lib/distributed_runtime/cluster_info.cc:62-111 | The first task given a handle is the one that handle finds: its name "/job:…/task:…" and its configured address. |
| Cluster.UnknownHandleNotFound | lib/distributed_runtime/cluster_info.cc:94-111 | A handle no configured task was given finds no name and no address. The invalid handle never finds a task. |
| Cluster.LocalTaskHandle | lib/distributed_runtime/cluster_info.cc:63-65 | The local handle is set exactly when a configured task has this process's name, and then it is that task's handle. |
| ExecutionContext.AfterCancel | lib/host_context/execution_context.cc:36-50 | Cancel makes one new "Cancelled" value and leaves earlier values alone. Afterwards the slot is never empty. An empty slot gets the new value. A full slot keeps its value, and the new value's only reference is dropped. The no-leak invariant is preserved. |
| ExecutionContext.AfterDestroy | lib/host_context/execution_context.cc:30-34 | Exactly one reference is dropped, on the installed value, and nothing changes when the slot is empty. From a no-leak state every value ends up released. |
| ExecutionContext.CancelIdempotent | lib/host_context/execution_context.cc:45-49 | A second Cancel changes neither the slot nor the value it holds. |
| ExecutionContext.CancelTimesFirstWins | lib/host_context/execution_context.cc:36-50 | After any number of Cancel calls the slot holds the first call's value, or the value it held before. One value is made per call. From a no-leak state every losing value has been released. |
| ExecutionContext.LifetimeReleasesAll | lib/host_context/execution_context.cc:30-50 | A context's life, with any number of Cancel calls and then its destruction, releases every error value it made. |
| ExecutionContext.RequestContext.Cancel | lib/host_context/execution_context.cc:36-50 | The imperative compare-and-swap and DropRef give the state `AfterCancel` describes, and the no-leak invariant is kept. |
| ExecutionContext.RequestContext.Destroy | lib/host_context/execution_context.cc:30-34 | The slot's value loses one reference and everything else is unchanged. From a valid context, nothing is left alive. |
| ExecutionContext.RequestContextBuilder.Build | lib/host_context/execution_context.cc:52-58 | A failed InitRequest returns its error and makes no context. Otherwise the result is a new, uncancelled context carrying the builder's host, resource context and data. |
| ExecutionContext.Create | lib/host_context/execution_context.cc:60-67 | Requires InitRequest to succeed, since the failure is declared unreachable. Returns a new, uncancelled context with the given host and resource context and no request data. |

## Left out

- GPU driver timing, device execution order across streams, and the blocking of worker threads are not modelled. Driver calls are oracle arguments, and the work queue is a sequence of pending tasks run oldest first.
- GpuConversion.GpuRuntime.RunNextTask: reference counts on host tensors are not modelled. `released` covers only the buffers the conversions allocate. `dropped` logs the reference that a finished keep-alive closure gives up on its source host tensor (line 134); whether that frees the buffer depends on other holders, which are not modelled.
- GpuConversion.GpuRuntime.ConvertHostToGpu: when `EnqueueBlockingWork` refuses the keep-alive task (line 139), the closure's `tensor.CopyRef()` is taken and dropped before the call returns, while the caller still holds the tensor. That net-zero pair is not logged.
- GpuConversion.WaitOutcome: follows builds without `LLVM_ENABLE_ABI_BREAKING_CHECKS`. Line 91 tests the `llvm::Error` from `EventSynchronize` as a bool and never consumes it. On a failure it stays unchecked, so in builds with those checks its destruction calls `fatalUncheckedError()` and aborts the process instead of yielding "could not wait for event".
- Event destruction is not modelled. That covers the `OwningEvent` freed when EventRecord fails, or after its task runs.
- GpuConversion.GpuRuntime.ConvertGpuToHost: takes the error text of an async value made when `EnqueueBlockingWork` refuses the task from the `enqueue` oracle. That function template is not part of this model.
- The bodies of `DenseHostTensor::CreateUninitialized` and of the GPU allocator are not modelled. backends/gpu/include/tfrt/gpu/memory/sub_allocator.h only declares its allocator, so no address or non-overlap behaviour is assumed. Its starting address `next_addr_ = 1` (line 48) is not used.
- `TensorConversionFnRegistry` becomes `ConversionRegistry`, an ordered list of conversions, each named only by its source and target tensor kinds. `AddTensorConversionFn` appends to it. The `TFRT_CONVERSION` machinery and the function pointers it wraps are not modelled. The static wrappers at conversion_function.cc:99-106 and 147-153 call `CreateContext()` on the device and pass on its stream, its allocator and the host context. The model drops `stream::CurrentContext` and the platform of each pointer entirely.
- Tensor metadata and layout are reduced to a byte size.
- `TaskNameUtil::ParseTaskName` is a parameter, and `random::New64` a supplied sequence.
- Cluster.ClusterInfo.GetTaskHandle: states its TaskNotFound errors as structured values naming the missing job or task, not as the `StrCat` message text.
- Cluster.ClusterInfo.GetTaskName: states its TaskNotFound error as a structured value naming the handle, not as the `StrCat` message text.
- Cluster.ClusterInfo.GetTaskAddress: states its TaskNotFound error as a structured value naming the handle, not as the `StrCat` message text.
- `TaskHandle::kInvalidTaskHandle` is taken to be the handle value 0. The header that defines it is not part of this model.
- Cluster.ClusterInfo.constructor: states the parse and duplicate checks as preconditions. The source treats a bad name as fatal (`DieIfError`) and a duplicate as a failed assertion. The assertion at line 61 exists only in builds without `NDEBUG`. Without it, a duplicate (job, task id) keeps the first TaskInfo, because the `try_emplace` at line 60 fails. Line 62 then indexes the newly drawn handle to that first entry, and lines 63-64 may set `task_handle_` to the new handle. The model does not describe that case.
- `ClusterConfiguration.taskAddresses` is a sequence standing for the iteration order of the source's `task_addresses`. Lines 56 and 63 read it through `first()`, which suggests an `llvm::StringMap` that iterates in hash order, not insertion order. The model is stated for whatever order that iteration gives. That order decides which task gets which random handle, and which task keeps a handle drawn twice.
- Task ids are unbounded integers. The source's `int` width is not modelled.
- `tasks_` stores a pointer to the TaskInfo inside `jobs_`, and the model stores a copy. That is sound only while the pointer stays valid. The model assumes that `JobInfo::tasks` does not move its entries when more tasks are inserted, and that nothing changes a filed TaskInfo afterwards. The header that declares `JobInfo` is not part of this model.
- The memory ordering of `compare_exchange_strong` and true concurrency of `Cancel` are not modelled. Cancel calls are sequential, and the first call on an empty slot wins.
- ExecutionContext.RequestContextBuilder.Build: does not model the moved-from state of the builder's context data, nor the registration `InitRequest` performs inside the work queue. Only its answer is modelled.
- `AsyncValue` internals are not modelled. An error value is its message and its reference count, and a count of 0 stands for freed.
- Request contexts' own reference counting (`RCReference`, `TakeRef`) is not modelled. `Destroy` is the destructor that runs when the last reference goes.
