/**
 * A request context's cancellation slot, and how request contexts are built.
 *
 * The slot cancel_value_ holds null or a reference to an error async value. Cancel races
 * to install a fresh error value with one compare-and-swap; it is modelled sequentially:
 * the swap succeeds exactly when the slot is still empty. Every error value Cancel makes is
 * kept, with its reference count, so that what becomes of each one can be stated: the
 * installed one is held by the slot, every other one is released at once.
 */
module ExecutionContext {
  import opened Support

  /** Identity of a HostContext or a ResourceContext: a context only passes these along. */
  type HostId = nat
  type ResourceContextId = nat

  /** The request-scoped data a builder collects; its contents are opaque here. */
  type ContextData = seq<nat>

  const CancelledMessage: string := "Cancelled"

  /** An error async value made by Cancel: its message and its reference count (0: freed). */
  datatype ErrorValue = ErrorValue(message: string, refCount: nat)

  /**
   * cancel_value_ (None for null, otherwise the index of the installed value) and every
   * error value Cancel made so far, in order.
   */
  datatype CancelState = CancelState(slot: Option<nat>, values: seq<ErrorValue>)

  /** The slot points at a made value that still holds a reference. */
  predicate SlotHeld(st: CancelState) {
    st.slot.Some? ==> st.slot.value < |st.values| && st.values[st.slot.value].refCount > 0
  }

  /**
   * No leak: the installed value holds exactly the slot's reference, and every other value
   * made has been released.
   */
  predicate Owned(st: CancelState) {
    && (st.slot.Some? ==> st.slot.value < |st.values|)
    && forall v | 0 <= v < |st.values| :: st.values[v].refCount == (if st.slot == Some(v) then 1 else 0)
  }

  /** Every error value made has been released. */
  predicate AllReleased(values: seq<ErrorValue>) {
    forall v | 0 <= v < |values| :: values[v].refCount == 0
  }

  /** DropRef on value v. */
  function DropRef(values: seq<ErrorValue>, v: nat): seq<ErrorValue>
    requires v < |values| && values[v].refCount > 0
  {
    values[v := values[v].(refCount := values[v].refCount - 1)]
  }

  /**
   * RequestContext::Cancel: make a "Cancelled" error value holding one reference; install
   * it if the slot is empty, otherwise drop that reference.
   */
  function AfterCancel(st: CancelState): (r: CancelState)
    ensures |r.values| == |st.values| + 1 && r.values[..|st.values|] == st.values
    ensures r.values[|st.values|].message == CancelledMessage
    ensures r.slot.Some?
    ensures st.slot.None? ==> r.slot == Some(|st.values|)
    ensures st.slot.Some? ==> r.slot == st.slot && r.values[|st.values|].refCount == 0
    ensures SlotHeld(st) ==> SlotHeld(r)
    ensures Owned(st) ==> Owned(r)
  {
    var made := st.values + [ErrorValue(CancelledMessage, 1)];
    if st.slot.None? then CancelState(Some(|st.values|), made)
    else CancelState(st.slot, DropRef(made, |st.values|))
  }

  /** ~RequestContext: drop the slot's reference on the installed value, if there is one. */
  function AfterDestroy(st: CancelState): (r: seq<ErrorValue>)
    requires SlotHeld(st)
    ensures |r| == |st.values|
    ensures forall v | 0 <= v < |r| && st.slot != Some(v) :: r[v] == st.values[v]
    ensures st.slot.Some? ==> r[st.slot.value].refCount == st.values[st.slot.value].refCount - 1
    ensures Owned(st) ==> AllReleased(r)
  {
    match st.slot
    case None => st.values
    case Some(v) => DropRef(st.values, v)
  }

  /** Cancelling twice changes nothing the first Cancel decided: the slot and what it holds. */
  lemma CancelIdempotent(st: CancelState)
    requires SlotHeld(st)
    ensures AfterCancel(AfterCancel(st)).slot == AfterCancel(st).slot
    ensures var s := AfterCancel(st).slot.value;
            AfterCancel(AfterCancel(st)).values[s] == AfterCancel(st).values[s]
  {
    var once := AfterCancel(st);
    var s := once.slot.value;
    assert s < |once.values|;
    assert AfterCancel(once).values[..|once.values|] == once.values;
  }

  /** The state after n calls to Cancel. */
  function CancelTimes(st: CancelState, n: nat): CancelState {
    if n == 0 then st else AfterCancel(CancelTimes(st, n - 1))
  }

  /**
   * However many times Cancel is called, the first call on an empty slot wins for good: the
   * slot holds its value, one value per call was made, and, starting from a state without a
   * leak, every losing value has been released.
   */
  lemma {:induction false} CancelTimesFirstWins(st: CancelState, n: nat)
    requires n > 0
    ensures |CancelTimes(st, n).values| == |st.values| + n
    ensures CancelTimes(st, n).values[..|st.values|] == st.values
    ensures CancelTimes(st, n).slot == if st.slot.None? then Some(|st.values|) else st.slot
    ensures Owned(st) ==> Owned(CancelTimes(st, n))
  {
    if n > 1 {
      CancelTimesFirstWins(st, n - 1);
      var prev := CancelTimes(st, n - 1);
      assert CancelTimes(st, n) == AfterCancel(prev);
      assert AfterCancel(prev).values[..|st.values|] == prev.values[..|st.values|];
    }
  }

  /**
   * Over a context's whole life, any number of Cancel calls followed by its destruction
   * leaves every error value released: nothing made by Cancel is leaked.
   */
  lemma {:induction false} LifetimeReleasesAll(n: nat)
    ensures SlotHeld(CancelTimes(CancelState(None, []), n))
    ensures AllReleased(AfterDestroy(CancelTimes(CancelState(None, []), n)))
  {
    var st := CancelState(None, []);
    if n > 0 {
      CancelTimesFirstWins(st, n);
      assert Owned(CancelTimes(st, n));
    }
  }

  class RequestContext {
    const host: HostId
    const resourceContext: ResourceContextId
    const contextData: ContextData
    /** cancel_value_. */
    var cancelValue: Option<nat>
    /** The error values this context's Cancel calls made, with their reference counts. */
    var errorValues: seq<ErrorValue>

    function State(): CancelState
      reads this
    {
      CancelState(cancelValue, errorValues)
    }

    /** The slot holds one reference on its value and no other value made is leaked. */
    ghost predicate Valid()
      reads this
    {
      Owned(State())
    }

    constructor (host: HostId, resourceContext: ResourceContextId, contextData: ContextData)
      ensures this.host == host && this.resourceContext == resourceContext
      ensures this.contextData == contextData
      ensures State() == CancelState(None, [])
      ensures Valid()
    {
      this.host := host;
      this.resourceContext := resourceContext;
      this.contextData := contextData;
      cancelValue := None;
      errorValues := [];
    }

    /** Cancel: install a fresh "Cancelled" error value unless one is installed already. */
    method Cancel()
      modifies this
      ensures State() == AfterCancel(old(State()))
      ensures old(Valid()) ==> Valid()
    {
      // MakeErrorAsyncValueRef(...).release(): a new value whose one reference is ours
      var errorValue := |errorValues|;
      errorValues := errorValues + [ErrorValue(CancelledMessage, 1)];
      // compare_exchange_strong(nullptr, errorValue)
      if cancelValue == None {
        cancelValue := Some(errorValue);
      } else {
        errorValues := DropRef(errorValues, errorValue);
      }
    }

    /** ~RequestContext: release the installed value's reference, if any. */
    method Destroy()
      modifies this
      requires SlotHeld(State())
      ensures cancelValue == old(cancelValue)
      ensures errorValues == AfterDestroy(old(State()))
      ensures old(Valid()) ==> AllReleased(errorValues)
    {
      if cancelValue.Some? {
        errorValues := DropRef(errorValues, cancelValue.value);
      }
    }
  }

  class RequestContextBuilder {
    const host: HostId
    const resourceContext: ResourceContextId
    var contextData: ContextData

    constructor (host: HostId, resourceContext: ResourceContextId)
      ensures this.host == host && this.resourceContext == resourceContext
      ensures contextData == []
    {
      this.host := host;
      this.resourceContext := resourceContext;
      contextData := [];
    }

    /**
     * build(): the work queue's InitRequest answer is initRequest. Its error is returned as
     * is and no context is made; otherwise a new, uncancelled context carrying this
     * builder's host, resource context and data.
     */
    method Build(initRequest: Status) returns (r: Result<RequestContext, string>)
      ensures initRequest.Failure? <==> r.Err?
      ensures initRequest.Failure? ==> r.error == initRequest.message
      ensures r.Ok? ==> fresh(r.value) && r.value.host == host && r.value.resourceContext == resourceContext
      ensures r.Ok? ==> r.value.contextData == contextData && r.value.State() == CancelState(None, [])
      ensures r.Ok? ==> r.value.Valid()
    {
      if initRequest.Failure? {
        return Err(initRequest.message);
      }
      var context := new RequestContext(host, resourceContext, contextData);
      return Ok(context);
    }
  }

  /**
   * RequestContext::Create: build a context with no request data. A failed build is
   * declared unreachable, so InitRequest must succeed.
   */
  method Create(host: HostId, resourceContext: ResourceContextId, initRequest: Status)
    returns (context: RequestContext)
    requires initRequest.Success?
    ensures fresh(context) && context.host == host && context.resourceContext == resourceContext
    ensures context.contextData == [] && context.State() == CancelState(None, [])
    ensures context.Valid()
  {
    var builder := new RequestContextBuilder(host, resourceContext);
    var built := builder.Build(initRequest);
    context := built.value;
  }
}
