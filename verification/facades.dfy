/** The public facade wrappers.

    Every wrapper checks its delegate slot first and throws
    `EcsactRuntimeMissingMethod(symbol)` when it is null; otherwise it
    forwards to the native function. The native function is a parameter: it
    returns a value or throws. Three wrappers also hand the native side
    user-data tokens for the duration of the call (`ExecuteSystems`,
    `Async.FlushEvents`) or a marshalled buffer (`AddComponent`), and free
    them in a `finally` block. */
module Facades {
  import opened Native
  import opened Catalog
  import opened Resolver
  import opened Enums
  import opened Subscriptions
  import opened Handles
  import opened Runtime

  /** What a native entry point does when called. */
  datatype NativeOutcome<T> = NativeReturned(value: T) | NativeThrew

  /** What a facade wrapper does: throw `EcsactRuntimeMissingMethod` carrying
      a symbol, return, or let the native exception propagate. */
  datatype Outcome<T> = MissingMethod(symbol: Symbol) | Returned(value: T) | Threw

  function Lift<T>(o: NativeOutcome<T>): Outcome<T>
  {
    match o
    case NativeReturned(v) => Returned(v)
    case NativeThrew => Threw
  }

  /** The guard every wrapper starts with. */
  function Guard<T>(slot: Option<FnId>, symbol: Symbol, call: FnId -> NativeOutcome<T>): (r: Outcome<T>)
    ensures r.MissingMethod? <==> slot.None?
    ensures r.MissingMethod? ==> r.symbol == symbol
    ensures slot.Some? ==> (r.Returned? <==> call(slot.value).NativeReturned?)
    ensures r.Returned? ==> call(slot.value) == NativeReturned(r.value)
  {
    match slot
    case None => MissingMethod(symbol)
    case Some(fn) => Lift(call(fn))
  }

  function FacadeSlot(rt: EcsactRuntime, f: Facade, symbol: Symbol): Option<FnId>
  {
    Slot(TableOf(rt.tables, f), symbol)
  }

  /** A wrapper of facade `f` that guards `symbol` and then makes one call. */
  function FacadeCall<T>(rt: EcsactRuntime, f: Facade, symbol: Symbol, call: FnId -> NativeOutcome<T>): Outcome<T>
  {
    Guard(FacadeSlot(rt, f, symbol), symbol, call)
  }

  /** On a freshly loaded runtime, a wrapper whose symbol is one of the names
      its facade loads throws `MissingMethod` with that symbol exactly when
      there is no library or the last library does not export it; otherwise
      it forwards to the last library's export. */
  lemma GuardAfterLoad<T>(id: nat, paths: seq<string>, open: string -> Library, f: Facade, sym: Symbol,
                          call: FnId -> NativeOutcome<T>)
    requires sym in LoadedNames(f)
    ensures var libs := OpenAll(paths, open);
      FacadeCall(Load(id, paths, open).0, f, sym, call)
      == if libs == [] || sym !in libs[|libs| - 1].exports then MissingMethod(sym)
         else Lift(call(libs[|libs| - 1].exports[sym]))
  {
    SlotAfterLoad(id, paths, open, f, sym);
  }

  lemma SlotAfterLoad(id: nat, paths: seq<string>, open: string -> Library, f: Facade, sym: Symbol)
    requires sym in LoadedNames(f)
    ensures FacadeSlot(Load(id, paths, open).0, f, sym) == LastSays(OpenAll(paths, open), sym)
  {
  }

  // ---------------------------------------------------------------------
  // Core

  /** The Core wrappers, one per native entry point. */
  datatype CoreOp =
    | CreateRegistry | DestroyRegistry | ClearRegistry
    | CreateEntity | EnsureEntity | EntityExists | DestroyEntity
    | CountEntities | GetEntities
    | AddComponent | HasComponent | GetComponent | EachComponent
    | CountComponents | GetComponents | UpdateComponent | RemoveComponent
    | ExecuteSystems

  /** The symbol each Core wrapper names in its guard and in its exception. */
  function CoreSymbol(op: CoreOp): Symbol
  {
    match op
    case CreateRegistry => "ecsact_create_registry"
    case DestroyRegistry => "ecsact_destroy_registry"
    case ClearRegistry => "ecsact_clear_registry"
    case CreateEntity => "ecsact_create_entity"
    case EnsureEntity => "ecsact_ensure_entity"
    case EntityExists => "ecsact_entity_exists"
    case DestroyEntity => "ecsact_destroy_entity"
    case CountEntities => "ecsact_count_entities"
    case GetEntities => "ecsact_get_entities"
    case AddComponent => "ecsact_add_component"
    case HasComponent => "ecsact_has_component"
    case GetComponent => "ecsact_get_component"
    case EachComponent => "ecsact_each_component"
    case CountComponents => "ecsact_count_components"
    case GetComponents => "ecsact_get_components"
    case UpdateComponent => "ecsact_update_component"
    case RemoveComponent => "ecsact_remove_component"
    case ExecuteSystems => "ecsact_execute_systems"
  }

  /** Where `Load` resolves each Core wrapper's symbol. */
  function CoreLoadIndex(op: CoreOp): (i: nat)
    ensures i < 18
  {
    match op
    case CreateRegistry => 0
    case DestroyRegistry => 1
    case ClearRegistry => 2
    case CreateEntity => 3
    case EnsureEntity => 4
    case EntityExists => 5
    case DestroyEntity => 6
    case CountEntities => 7
    case GetEntities => 8
    case AddComponent => 9
    case HasComponent => 10
    case GetComponent => 11
    case EachComponent => 12
    case CountComponents => 13
    case GetComponents => 14
    case UpdateComponent => 15
    case RemoveComponent => 16
    case ExecuteSystems => 17
  }

  /** The name each wrapper throws is the very name `Load` resolves into its
      slot, so a wrapper never reports a symbol other than the one it checked. */
  lemma CoreSymbolIsLoaded(op: CoreOp)
    ensures CoreLoadIndex(op) < |LoadedNames(Core)|
    ensures LoadedNames(Core)[CoreLoadIndex(op)] == CoreSymbol(op)
  {
  }

  /** A plain Core wrapper: guard, then forward the call with its arguments. */
  function CoreCall<T>(rt: EcsactRuntime, op: CoreOp, call: FnId -> NativeOutcome<T>): Outcome<T>
  {
    FacadeCall(rt, Core, CoreSymbol(op), call)
  }

  /** After `Load`, a Core wrapper throws `MissingMethod(CoreSymbol(op))` iff
      there is no library or the last one lacks the symbol. */
  lemma CoreCallAfterLoad<T>(id: nat, paths: seq<string>, open: string -> Library, op: CoreOp,
                             call: FnId -> NativeOutcome<T>)
    ensures var libs := OpenAll(paths, open);
      var r := CoreCall(Load(id, paths, open).0, op, call);
      && (r.MissingMethod? <==> libs == [] || CoreSymbol(op) !in libs[|libs| - 1].exports)
      && (r.MissingMethod? ==> r.symbol == CoreSymbol(op))
  {
    var sym := CoreSymbol(op);
    assert sym in LoadedNames(Core) by {
      CoreSymbolIsLoaded(op);
    }
    MissingAfterLoad(id, paths, open, Core, sym, call);
  }

  /** The `MissingMethod` half of `GuardAfterLoad`. */
  lemma MissingAfterLoad<T>(id: nat, paths: seq<string>, open: string -> Library, f: Facade, sym: Symbol,
                            call: FnId -> NativeOutcome<T>)
    requires sym in LoadedNames(f)
    ensures var libs := OpenAll(paths, open);
      var r := FacadeCall(Load(id, paths, open).0, f, sym, call);
      && (r.MissingMethod? <==> libs == [] || sym !in libs[|libs| - 1].exports)
      && (r.MissingMethod? ==> r.symbol == sym)
  {
    SlotAfterLoad(id, paths, open, f, sym);
  }

  /** The `Int32[] GetEntities(registryId)` overload: count, allocate an
      array of that length (a negative length throws), then fetch at most that
      many. Each step is guarded by its own symbol. */
  function GetAllEntities(rt: EcsactRuntime, count: FnId -> NativeOutcome<int>,
                          get: (FnId, int) -> NativeOutcome<seq<int>>): (r: Outcome<seq<int>>)
    ensures FacadeSlot(rt, Core, CoreSymbol(CountEntities)).None? ==> r == MissingMethod(CoreSymbol(CountEntities))
    ensures r.Returned? ==>
      var n := count(FacadeSlot(rt, Core, CoreSymbol(CountEntities)).value);
      && n.NativeReturned? && n.value >= 0
      && FacadeSlot(rt, Core, CoreSymbol(GetEntities)).Some?
      && get(FacadeSlot(rt, Core, CoreSymbol(GetEntities)).value, n.value) == NativeReturned(r.value)
    ensures r.MissingMethod? ==> r.symbol in {CoreSymbol(CountEntities), CoreSymbol(GetEntities)}
    ensures FacadeSlot(rt, Core, CoreSymbol(CountEntities)).Some? ==>
      var n := count(FacadeSlot(rt, Core, CoreSymbol(CountEntities)).value);
      var getSlot := FacadeSlot(rt, Core, CoreSymbol(GetEntities));
      && (n.NativeThrew? ==> r == Threw)
      && (n.NativeReturned? && n.value < 0 ==> r == Threw)
      && (n.NativeReturned? && n.value >= 0 && getSlot.None? ==> r == MissingMethod(CoreSymbol(GetEntities)))
      && (n.NativeReturned? && n.value >= 0 && getSlot.Some? ==> r == Lift(get(getSlot.value, n.value)))
  {
    match CoreCall(rt, CountEntities, count)
    case MissingMethod(s) => MissingMethod(s)
    case Threw => Threw
    case Returned(n) =>
      if n < 0 then Threw
      else CoreCall(rt, GetEntities, fn => get(fn, n))
  }

  /** A missing `ecsact_get_entities` is only noticed after a successful,
      non-negative count. */
  lemma GetAllEntitiesMissingGet(rt: EcsactRuntime, count: FnId -> NativeOutcome<int>,
                                 get: (FnId, int) -> NativeOutcome<seq<int>>)
    requires FacadeSlot(rt, Core, CoreSymbol(GetEntities)).None?
    ensures GetAllEntities(rt, count, get) == MissingMethod(CoreSymbol(GetEntities))
        <==> FacadeSlot(rt, Core, CoreSymbol(CountEntities)).Some?
             && count(FacadeSlot(rt, Core, CoreSymbol(CountEntities)).value).NativeReturned?
             && count(FacadeSlot(rt, Core, CoreSymbol(CountEntities)).value).value >= 0
  {
  }

  /** After `Load`, the array overload of `GetEntities` is decided by the
      last library alone: it must export the count, the count must return a
      non-negative value, and it must export the fetch, which then receives
      that count. */
  lemma GetAllEntitiesAfterLoad(id: nat, paths: seq<string>, open: string -> Library,
                                count: FnId -> NativeOutcome<int>, get: (FnId, int) -> NativeOutcome<seq<int>>)
    ensures var libs := OpenAll(paths, open);
      var countSym, getSym := CoreSymbol(CountEntities), CoreSymbol(GetEntities);
      GetAllEntities(Load(id, paths, open).0, count, get)
      == if libs == [] || countSym !in libs[|libs| - 1].exports then MissingMethod(countSym)
         else match count(libs[|libs| - 1].exports[countSym])
           case NativeThrew => Threw
           case NativeReturned(n) =>
             if n < 0 then Threw
             else if getSym !in libs[|libs| - 1].exports then MissingMethod(getSym)
             else Lift(get(libs[|libs| - 1].exports[getSym], n))
  {
    CoreSymbolIsLoaded(CountEntities);
    CoreSymbolIsLoaded(GetEntities);
    SlotAfterLoad(id, paths, open, Core, CoreSymbol(CountEntities));
    SlotAfterLoad(id, paths, open, Core, CoreSymbol(GetEntities));
  }

  // ---------------------------------------------------------------------
  // Async.Connect and Wasm.Load

  const ConnectSymbol: Symbol := "ecsact_async_connect"
  const FlushEventsSymbol: Symbol := "ecsact_async_flush_events"
  const WasmLoadSymbol: Symbol := "ecsactsi_wasm_load"

  /** `Async.Connect`: guard, then forward the connection string unchanged. */
  function Connect(rt: EcsactRuntime, connectionString: string,
                   call: (FnId, string) -> NativeOutcome<()>): (r: Outcome<()>)
    ensures r.MissingMethod? <==> FacadeSlot(rt, Async, ConnectSymbol).None?
    ensures r.MissingMethod? ==> r.symbol == ConnectSymbol
    ensures r.Returned? ==> call(FacadeSlot(rt, Async, ConnectSymbol).value, connectionString).NativeReturned?
    ensures FacadeSlot(rt, Async, ConnectSymbol).Some? ==>
      r == Lift(call(FacadeSlot(rt, Async, ConnectSymbol).value, connectionString))
  {
    FacadeCall(rt, Async, ConnectSymbol, fn => call(fn, connectionString))
  }

  /** After `Load`, `Connect` throws `MissingMethod("ecsact_async_connect")`
      iff there is no library or the last lacks the symbol, and otherwise
      hands the connection string to the last library's export. */
  lemma ConnectAfterLoad(id: nat, paths: seq<string>, open: string -> Library, connectionString: string,
                         call: (FnId, string) -> NativeOutcome<()>)
    ensures var libs := OpenAll(paths, open);
      Connect(Load(id, paths, open).0, connectionString, call)
      == if libs == [] || ConnectSymbol !in libs[|libs| - 1].exports then MissingMethod(ConnectSymbol)
         else Lift(call(libs[|libs| - 1].exports[ConnectSymbol], connectionString))
  {
    assert LoadedNames(Async)[3] == ConnectSymbol;
    SlotAfterLoad(id, paths, open, Async, ConnectSymbol);
  }

  /** Loading only a library with the Core entry points leaves every async
      slot null, so connecting throws `MissingMethod("ecsact_async_connect")`. */
  lemma ConnectWithCoreOnlyLibrary(id: nat, path: string, lib: Library, connectionString: string,
                                   call: (FnId, string) -> NativeOutcome<()>)
    requires ConnectSymbol !in lib.exports
    ensures Connect(Load(id, [path], _ => lib).0, connectionString, call) == MissingMethod(ConnectSymbol)
  {
    assert LoadedNames(Async)[3] == ConnectSymbol;
    assert OpenAll([path], _ => lib) == [lib];
    GuardAfterLoad(id, [path], _ => lib, Async, ConnectSymbol, fn => call(fn, connectionString));
  }

  /** The arguments `Wasm.Load` passes: the bytes, their length, a count of
      one, and one-element arrays holding the system id and export name. */
  datatype WasmLoadArgs = WasmLoadArgs(data: seq<int>, length: int, count: int, systemIds: seq<int>, exportNames: seq<string>)

  function WasmArgs(data: seq<int>, systemId: int, exportName: string): (a: WasmLoadArgs)
  {
    WasmLoadArgs(data, |data|, 1, [systemId], [exportName])
  }

  /** The native side reads `count` entries of each array and `length` bytes:
      the wrapper always passes lengths that agree. */
  lemma WasmArgsConsistent(data: seq<int>, systemId: int, exportName: string)
    ensures var a := WasmArgs(data, systemId, exportName);
      && a.length == |a.data| && a.count == |a.systemIds| == |a.exportNames| == 1
      && a.systemIds[0] == systemId && a.exportNames[0] == exportName && a.data == data
  {
  }

  /** `Wasm.Load`: guard, then one call with the argument shape above. */
  function WasmLoad(rt: EcsactRuntime, data: seq<int>, systemId: int, exportName: string,
                    call: (FnId, WasmLoadArgs) -> NativeOutcome<()>): (r: Outcome<()>)
    ensures r.MissingMethod? <==> FacadeSlot(rt, Wasm, WasmLoadSymbol).None?
    ensures r.MissingMethod? ==> r.symbol == WasmLoadSymbol
    ensures r.Returned? ==> call(FacadeSlot(rt, Wasm, WasmLoadSymbol).value, WasmArgs(data, systemId, exportName)).NativeReturned?
    ensures FacadeSlot(rt, Wasm, WasmLoadSymbol).Some? ==>
      r == Lift(call(FacadeSlot(rt, Wasm, WasmLoadSymbol).value, WasmArgs(data, systemId, exportName)))
  {
    FacadeCall(rt, Wasm, WasmLoadSymbol, fn => call(fn, WasmArgs(data, systemId, exportName)))
  }

  /** After `Load`, `Wasm.Load` throws `MissingMethod("ecsactsi_wasm_load")`
      iff there is no library or the last lacks the symbol, and otherwise
      makes its one call, with consistent lengths, to the last library's
      export. */
  lemma WasmLoadAfterLoad(id: nat, paths: seq<string>, open: string -> Library, data: seq<int>, systemId: int,
                          exportName: string, call: (FnId, WasmLoadArgs) -> NativeOutcome<()>)
    ensures var libs := OpenAll(paths, open);
      WasmLoad(Load(id, paths, open).0, data, systemId, exportName, call)
      == if libs == [] || WasmLoadSymbol !in libs[|libs| - 1].exports then MissingMethod(WasmLoadSymbol)
         else Lift(call(libs[|libs| - 1].exports[WasmLoadSymbol], WasmArgs(data, systemId, exportName)))
  {
    assert LoadedNames(Wasm)[0] == WasmLoadSymbol;
    SlotAfterLoad(id, paths, open, Wasm, WasmLoadSymbol);
    WasmArgsConsistent(data, systemId, exportName);
  }

  // ---------------------------------------------------------------------
  // Native events and the handlers that receive them

  /** An init, update or remove event as the native side reports it: the raw
      component bytes are decoded by the handler. */
  datatype ComponentEvent = ComponentEvent(kind: EventKind, entity: int, componentId: int, data: seq<int>)

  datatype AsyncEvent =
    | ErrorEvent(error: int, requestId: int)
    | ConnectEvent(address: string, port: int)
    | CommittedEvent(actionId: int, committedTick: int, requestId: int)

  /** What `ecsact_async_flush_events` may deliver: either collector's events. */
  datatype FlushEvent = FromExec(ev: ComponentEvent) | FromAsync(aev: AsyncEvent)

  /** A native call as seen from the host: the events it delivers to the
      handlers, in order, and whether it throws after delivering them. */
  datatype NativeRun<E> = NativeRun(events: seq<E>, throws: bool)

  /** `Ecsact.Util.PtrToComponent(data, componentId)`. */
  type Decoder = (int, seq<int>) -> ComponentValue

  /** An execution option list, passed through to the native side untouched. */
  type ExecutionOptions = seq<int>

  /** A record of the one native call a scoped wrapper makes. */
  datatype NativeCall =
    | ExecuteSystemsCall(fn: FnId, registryId: int, executionCount: int, options: seq<ExecutionOptions>, exec: ExecCollector)
    | FlushEventsCall(fn: FnId, exec: ExecCollector, asyncEvs: AsyncCollector)
    | AddComponentCall(fn: FnId, registryId: int, entityId: int, componentId: int, buffer: nat, contents: Option<Resource>)

  /** The invocations of one component event, given the subscribers. */
  function EventTrace(s: ComponentSubscribers, ev: ComponentEvent, decode: Decoder): seq<Invocation>
  {
    Dispatch(s, ev.kind, ev.entity, ev.componentId, decode(ev.componentId, ev.data))
  }

  /** The invocations of a run of events, each event's after the previous
      one's. */
  function Concat<E>(evs: seq<E>, step: E -> seq<Invocation>): seq<Invocation>
    decreases |evs|
  {
    if evs == [] then [] else Concat(evs[..|evs| - 1], step) + step(evs[|evs| - 1])
  }

  lemma {:induction false} ConcatAppend<E>(a: seq<E>, b: seq<E>, step: E -> seq<Invocation>)
    ensures Concat(a + b, step) == Concat(a, step) + Concat(b, step)
    decreases |b|
  {
    if b == [] {
      assert a + b == a;
    } else {
      var b', last := b[..|b| - 1], b[|b| - 1];
      var ab := a + b;
      assert ab[..|ab| - 1] == a + b' && ab[|ab| - 1] == last;
      ConcatAppend(a, b', step);
    }
  }

  function EventStep(s: ComponentSubscribers, decode: Decoder): ComponentEvent -> seq<Invocation>
  {
    ev => EventTrace(s, ev, decode)
  }

  /** The reference trace of a run of component events. */
  function ComponentTrace(s: ComponentSubscribers, evs: seq<ComponentEvent>, decode: Decoder): seq<Invocation>
  {
    Concat(evs, EventStep(s, decode))
  }

  /** The trace of two runs back to back is the two traces back to back. */
  lemma ComponentTraceAppend(s: ComponentSubscribers, a: seq<ComponentEvent>, b: seq<ComponentEvent>, decode: Decoder)
    ensures ComponentTrace(s, a + b, decode) == ComponentTrace(s, a, decode) + ComponentTrace(s, b, decode)
  {
    ConcatAppend(a, b, EventStep(s, decode));
  }

  /** The invocations of one async event. */
  function AsyncEventTrace(a: AsyncSubscribers, ev: AsyncEvent): seq<Invocation>
  {
    match ev
    case ErrorEvent(err, req) => ErrorTrace(a, err, req)
    case ConnectEvent(addr, port) => ConnectTrace(a, addr, port)
    case CommittedEvent(_, _, _) => ActionCommittedTrace(a)
  }

  function FlushEventTrace(s: ComponentSubscribers, a: AsyncSubscribers, ev: FlushEvent, decode: Decoder): seq<Invocation>
  {
    match ev
    case FromExec(e) => EventTrace(s, e, decode)
    case FromAsync(e) => AsyncEventTrace(a, e)
  }

  function FlushStep(s: ComponentSubscribers, a: AsyncSubscribers, decode: Decoder): FlushEvent -> seq<Invocation>
  {
    ev => FlushEventTrace(s, a, ev, decode)
  }

  /** The reference trace of the events one flush delivers. */
  function FlushTrace(s: ComponentSubscribers, a: AsyncSubscribers, evs: seq<FlushEvent>, decode: Decoder): seq<Invocation>
  {
    Concat(evs, FlushStep(s, a, decode))
  }

  /** `On{Init,Update,Remove}ComponentHandler`: resolve the user-data token
      of the event's kind to the runtime it pins, decode the component once,
      and dispatch. `None` is a token that does not pin this runtime, where
      the handler's `Target as EcsactRuntime` would be null. */
  function OnComponentEventHandler(h: HandleTable, rt: EcsactRuntime, ev: ComponentEvent, decode: Decoder): (r: Option<seq<Invocation>>)
    ensures Resolve(h, rt.exec.UserData(ev.kind)) == Some(PinnedRuntime(rt.id)) ==> r == Some(EventTrace(rt.components, ev, decode))
  {
    if Resolve(h, rt.exec.UserData(ev.kind)) == Some(PinnedRuntime(rt.id))
    then Some(EventTrace(rt.components, ev, decode))
    else None
  }

  /** The async handlers: resolve the async user-data token to the facade it
      pins, then invoke the subscribers for that event. */
  function OnAsyncEventHandler(h: HandleTable, rt: EcsactRuntime, ev: AsyncEvent): (r: Option<seq<Invocation>>)
    ensures var token := match ev
      case ErrorEvent(_, _) => rt.asyncEvs.errorUserData
      case ConnectEvent(_, _) => rt.asyncEvs.connectUserData
      case CommittedEvent(_, _, _) => rt.asyncEvs.committedUserData;
      Resolve(h, token) == Some(PinnedAsync(rt.id)) ==> r == Some(AsyncEventTrace(rt.asyncSubs, ev))
  {
    var token := match ev
      case ErrorEvent(_, _) => rt.asyncEvs.errorUserData
      case ConnectEvent(_, _) => rt.asyncEvs.connectUserData
      case CommittedEvent(_, _, _) => rt.asyncEvs.committedUserData;
    if Resolve(h, token) == Some(PinnedAsync(rt.id)) then Some(AsyncEventTrace(rt.asyncSubs, ev)) else None
  }

  /** The handler that receives one event during `ecsact_async_flush_events`. */
  function OnFlushEventHandler(h: HandleTable, rt: EcsactRuntime, ev: FlushEvent, decode: Decoder): (r: Option<seq<Invocation>>)
    ensures
      && (forall k :: Resolve(h, rt.exec.UserData(k)) == Some(PinnedRuntime(rt.id)))
      && Resolve(h, rt.asyncEvs.errorUserData) == Some(PinnedAsync(rt.id))
      && Resolve(h, rt.asyncEvs.connectUserData) == Some(PinnedAsync(rt.id))
      && Resolve(h, rt.asyncEvs.committedUserData) == Some(PinnedAsync(rt.id))
      ==> r == Some(FlushEventTrace(rt.components, rt.asyncSubs, ev, decode))
  {
    match ev
    case FromExec(e) => OnComponentEventHandler(h, rt, e, decode)
    case FromAsync(e) => OnAsyncEventHandler(h, rt, e)
  }

  // ---------------------------------------------------------------------
  // Scoped calls

  const ExecuteSystemsSymbol: Symbol := "ecsact_execute_systems"
  const AddComponentSymbol: Symbol := "ecsact_add_component"

  /** `Core.ExecuteSystems`: guard; pin the runtime; write the pinned token
      into all three exec user-data slots; make the one native call, during
      which the native side may deliver events; free the pin whether or not
      the call throws. The collector keeps the (now stale) token afterwards. */
  method ExecuteSystemsScoped(rt: EcsactRuntime, h: HandleTable, registryId: int, executionCount: int,
                              options: seq<ExecutionOptions>, run: NativeRun<ComponentEvent>, decode: Decoder)
    returns (outcome: Outcome<()>, rt': EcsactRuntime, h': HandleTable, calls: seq<NativeCall>, trace: seq<Invocation>)
    requires Valid(h)
    ensures FacadeSlot(rt, Core, ExecuteSystemsSymbol).None? ==>
      outcome == MissingMethod(ExecuteSystemsSymbol) && rt' == rt && h' == h && calls == [] && trace == []
    ensures FacadeSlot(rt, Core, ExecuteSystemsSymbol).Some? ==>
      var tok := rt'.exec.initUserData;
      && tok != 0 && tok !in h.live
      && rt'.exec == ExecCollector(tok, tok, tok)
      && rt' == rt.(exec := rt'.exec)
      && calls == [ExecuteSystemsCall(FacadeSlot(rt, Core, ExecuteSystemsSymbol).value, registryId, executionCount, options, rt'.exec)]
      && trace == ComponentTrace(rt.components, run.events, decode)
      && outcome == (if run.throws then Threw else Returned(()))
    ensures h'.live == h.live && Valid(h')
  {
    var slot := FacadeSlot(rt, Core, ExecuteSystemsSymbol);
    if slot.None? {
      return MissingMethod(ExecuteSystemsSymbol), rt, h, [], [];
    }
    var (h1, tok) := Acquire(h, PinnedRuntime(rt.id));
    rt' := rt.(exec := ExecCollector(tok, tok, tok));
    calls := [ExecuteSystemsCall(slot.value, registryId, executionCount, options, rt'.exec)];
    trace := [];
    var i := 0;
    while i < |run.events|
      invariant 0 <= i <= |run.events|
      invariant trace == ComponentTrace(rt.components, run.events[..i], decode)
    {
      var step := OnComponentEventHandler(h1, rt', run.events[i], decode);
      trace := trace + step.value;
      assert run.events[..i + 1][..i] == run.events[..i];
      i := i + 1;
    }
    assert run.events[..i] == run.events;
    h' := Release(h1, tok);
    assert h'.live == h.live;
    outcome := if run.throws then Threw else Returned(());
  }

  /** `Async.FlushEvents`: guard; pin the async facade and the runtime; write
      the runtime token into the three exec slots and the facade token into the
      three async slots; make the one native call; free both pins whether or
      not the call throws. */
  method FlushEventsScoped(rt: EcsactRuntime, h: HandleTable, run: NativeRun<FlushEvent>, decode: Decoder)
    returns (outcome: Outcome<()>, rt': EcsactRuntime, h': HandleTable, calls: seq<NativeCall>, trace: seq<Invocation>)
    requires Valid(h)
    ensures FacadeSlot(rt, Async, FlushEventsSymbol).None? ==>
      outcome == MissingMethod(FlushEventsSymbol) && rt' == rt && h' == h && calls == [] && trace == []
    ensures FacadeSlot(rt, Async, FlushEventsSymbol).Some? ==>
      var owner, self := rt'.exec.initUserData, rt'.asyncEvs.errorUserData;
      && owner != 0 && self != 0 && owner != self
      && owner !in h.live && self !in h.live
      && rt'.exec == ExecCollector(owner, owner, owner)
      && rt'.asyncEvs == AsyncCollector(self, self, self)
      && rt' == rt.(exec := rt'.exec, asyncEvs := rt'.asyncEvs)
      && calls == [FlushEventsCall(FacadeSlot(rt, Async, FlushEventsSymbol).value, rt'.exec, rt'.asyncEvs)]
      && trace == FlushTrace(rt.components, rt.asyncSubs, run.events, decode)
      && outcome == (if run.throws then Threw else Returned(()))
    ensures h'.live == h.live && Valid(h')
  {
    var slot := FacadeSlot(rt, Async, FlushEventsSymbol);
    if slot.None? {
      return MissingMethod(FlushEventsSymbol), rt, h, [], [];
    }
    var (h1, self) := Acquire(h, PinnedAsync(rt.id));
    var (h2, owner) := Acquire(h1, PinnedRuntime(rt.id));
    rt' := rt.(exec := ExecCollector(owner, owner, owner), asyncEvs := AsyncCollector(self, self, self));
    calls := [FlushEventsCall(slot.value, rt'.exec, rt'.asyncEvs)];
    assert Resolve(h2, owner) == Some(PinnedRuntime(rt.id)) && Resolve(h2, self) == Some(PinnedAsync(rt.id));
    assert forall k :: rt'.exec.UserData(k) == owner;
    trace := DeliverFlushEvents(h2, rt', run.events, decode);
    h' := Release(Release(h2, self), owner);
    assert h'.live == h.live;
    outcome := if run.throws then Threw else Returned(());
  }

  /** The events of one `ecsact_async_flush_events` call reaching their
      handlers while every collector slot names a live pin of this runtime. */
  method DeliverFlushEvents(h: HandleTable, rt: EcsactRuntime, evs: seq<FlushEvent>, decode: Decoder)
    returns (trace: seq<Invocation>)
    requires forall k :: Resolve(h, rt.exec.UserData(k)) == Some(PinnedRuntime(rt.id))
    requires Resolve(h, rt.asyncEvs.errorUserData) == Some(PinnedAsync(rt.id))
    requires Resolve(h, rt.asyncEvs.connectUserData) == Some(PinnedAsync(rt.id))
    requires Resolve(h, rt.asyncEvs.committedUserData) == Some(PinnedAsync(rt.id))
    ensures trace == FlushTrace(rt.components, rt.asyncSubs, evs, decode)
  {
    trace := [];
    var i := 0;
    while i < |evs|
      invariant 0 <= i <= |evs|
      invariant trace == FlushTrace(rt.components, rt.asyncSubs, evs[..i], decode)
    {
      var step := OnFlushEventHandler(h, rt, evs[i], decode);
      trace := trace + step.value;
      assert evs[..i + 1][..i] == evs[..i];
      i := i + 1;
    }
    assert evs[..i] == evs;
  }

  /** `Core.AddComponent`: guard; allocate a native buffer; marshal the
      component into it (which may throw, `None`); make the one native call
      with the buffer; free the buffer whether or not anything threw. */
  method AddComponentScoped(rt: EcsactRuntime, h: HandleTable, registryId: int, entityId: int, componentId: int,
                            marshalled: Option<seq<int>>, throws: bool)
    returns (outcome: Outcome<()>, h': HandleTable, calls: seq<NativeCall>)
    requires Valid(h)
    ensures FacadeSlot(rt, Core, AddComponentSymbol).None? ==>
      outcome == MissingMethod(AddComponentSymbol) && h' == h && calls == []
    ensures FacadeSlot(rt, Core, AddComponentSymbol).Some? && marshalled.None? ==>
      outcome == Threw && calls == []
    ensures FacadeSlot(rt, Core, AddComponentSymbol).Some? && marshalled.Some? ==>
      && |calls| == 1 && calls[0].AddComponentCall?
      && calls[0].fn == FacadeSlot(rt, Core, AddComponentSymbol).value
      && calls[0].registryId == registryId && calls[0].entityId == entityId && calls[0].componentId == componentId
      && calls[0].buffer != 0 && calls[0].buffer !in h.live
      && calls[0].contents == Some(NativeBuffer(marshalled.value))
      && outcome == (if throws then Threw else Returned(()))
    ensures h'.live == h.live && Valid(h')
  {
    var slot := FacadeSlot(rt, Core, AddComponentSymbol);
    if slot.None? {
      return MissingMethod(AddComponentSymbol), h, [];
    }
    var (h1, buf) := Acquire(h, NativeBuffer([]));
    if marshalled.None? {
      outcome, calls := Threw, [];
    } else {
      h1 := h1.(live := h1.live[buf := NativeBuffer(marshalled.value)]);
      calls := [AddComponentCall(slot.value, registryId, entityId, componentId, buf, Resolve(h1, buf))];
      outcome := if throws then Threw else Returned(());
    }
    h' := Release(h1, buf);
    assert h'.live == h.live;
  }

  /** `inv` is a subscriber invocation for event `ev`: same kind, component
      id and entity, and the component value decoded from the event's bytes. */
  predicate Answers(inv: Invocation, ev: ComponentEvent, decode: Decoder)
  {
    match inv
    case TypedCall(w, entity, v) =>
      w.kind == ev.kind && w.componentId == ev.componentId && entity == ev.entity && v == decode(ev.componentId, ev.data)
    case AnyCall(k, _, entity, c, v) =>
      k == ev.kind && c == ev.componentId && entity == ev.entity && v == decode(ev.componentId, ev.data)
    case _ => false
  }

  lemma EventTraceAnswers(s: ComponentSubscribers, ev: ComponentEvent, decode: Decoder)
    requires WellFormed(s)
    ensures var t := EventTrace(s, ev, decode);
      forall i :: 0 <= i < |t| ==> Answers(t[i], ev, decode)
  {
    var v := decode(ev.componentId, ev.data);
    var ws := TypedList(s.Of(ev.kind), ev.componentId);
    var tc, ac := TypedCalls(ws, ev.entity, v), AnyCalls(ev.kind, s.Of(ev.kind).any, ev.entity, ev.componentId, v);
    var t := EventTrace(s, ev, decode);
    assert t == tc + ac;
    if ev.componentId in s.Of(ev.kind).typed {
      assert ListOk(ws, ev.kind, ev.componentId, s.nextWrapper);
    }
    forall i | 0 <= i < |t|
      ensures Answers(t[i], ev, decode)
    {
      if i < |ws| {
        assert t[i] == tc[i];
        assert ws[i].kind == ev.kind && ws[i].componentId == ev.componentId;
      } else {
        assert t[i] == ac[i - |ws|];
      }
    }
  }

  /** Every subscriber invocation made while `ExecuteSystems` delivers a run
      of events answers one of the delivered events. */
  lemma {:induction false} ComponentTraceAnswers(s: ComponentSubscribers, evs: seq<ComponentEvent>, decode: Decoder)
    requires WellFormed(s)
    ensures var t := ComponentTrace(s, evs, decode);
      forall i :: 0 <= i < |t| ==> exists j :: 0 <= j < |evs| && Answers(t[i], evs[j], decode)
    decreases |evs|
  {
    if evs != [] {
      var init, last := evs[..|evs| - 1], evs[|evs| - 1];
      var a, b := ComponentTrace(s, init, decode), EventTrace(s, last, decode);
      ComponentTraceAnswers(s, init, decode);
      EventTraceAnswers(s, last, decode);
      var t := ComponentTrace(s, evs, decode);
      assert t == a + b;
      forall i | 0 <= i < |t|
        ensures exists j :: 0 <= j < |evs| && Answers(t[i], evs[j], decode)
      {
        if i < |a| {
          assert t[i] == a[i];
          var j :| 0 <= j < |init| && Answers(a[i], init[j], decode);
          assert init[j] == evs[j];
        } else {
          assert t[i] == b[i - |a|];
          assert Answers(t[i], evs[|evs| - 1], decode);
        }
      }
    }
  }
}
