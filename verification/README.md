# ecsact-unity host bookkeeping, in Dafny

This project models the host side of the Unity binding for an Ecsact
runtime: the bookkeeping the C# code does around a native entity-component
library. The native library is never modelled. It appears only as its
exported symbols and as uninterpreted call outcomes. The model covers:

- **Symbol resolution** (`EcsactRuntime.Load` / `LoadDelegate`). Every
  library is visited in order and every catalogued name of the seven facades
  (Async, Core, Dynamic, Meta, Serialize, Static, Wasm) is looked up. A hit
  fills the facade's delegate slot and appends the name to
  `_availableMethods`. A miss nulls the slot.
- **Guarded facade calls**. A wrapper throws
  `EcsactRuntimeMissingMethod(symbol)` when its slot is null and forwards to
  the native function otherwise.
- **Subscriber registries and event dispatch**. There are wildcard and
  per-component-type subscribers for init, update and remove events, and
  async error and connect subscribers. Each subscribe returns an unsubscribe
  closure. The handlers' invocation traces are modelled as sequences.
- **Scoped user-data tokens**. `ExecuteSystems` and `Async.FlushEvents` pin
  `GCHandle`s into the event collectors, and `AddComponent` allocates a
  native buffer. The handle table is restored on every exit.
- **Lifecycle**: `Free`, `SetDefault`, and the `SystemCapability`,
  `EcsactEvent` and `AsyncError` encodings.
- **The editor's asset postprocessor**: `.ecsact` classification of
  imported, deleted and moved assets, the code-generation trigger, the
  generated-script moves and deletions, the generator's argument string,
  and the runtime builder's file list.

Modules, one per file:

| module | file | role |
|---|---|---|
| `Native` | `native.dfy` | option type, libraries as `map<Symbol, FnId>`, `TryGetExport` |
| `Seqs` | `seqs.dfy` | the first-index helper behind `List.Remove` and the argument split |
| `Catalog` | `catalog.dfy` | facades; the names `Load` resolves and each facade's `methods` array |
| `Resolver` | `resolver.dfy` | `LoadDelegate` and the per-library fold of `Load` |
| `Enums` | `enums.dfy` | `SystemCapability` as `bv32`, event and async error codes |
| `Subscriptions` | `subscriptions.dfy` | subscriber registries, unsubscribers, dispatch traces |
| `Handles` | `handles.dfy` | the live `GCHandle` / `AllocHGlobal` token table |
| `Runtime` | `runtime.dfy` | the runtime record, `Load`, `Free`, `SetDefault` |
| `Facades` | `facades.dfy` | guarded wrappers, event handlers, the scoped native calls |
| `Postprocessor` | `postprocessor.dfy` | `OnPostprocessAllAssets` and the pure part of `RefreshEcsactCodegen` |

A later library that lacks a symbol nulls its slot (`LoadDelegate` stores
`null` on a miss), so the last library decides each slot, not the last
successful lookup (`Resolver.LaterMissClearsEarlierHit`).

Paths in the table below are relative to the repository root.

## Model

| member | source | states |
|---|---|---|
| Catalog.CatalogMatchesLoadsExceptDynamic | packages/com.seaube.ecsact/Runtime/EcsactRuntime.cs:334-340 | for Async, Core, Meta, Serialize, Static and Wasm, a name is in the facade's `methods` array exactly when `Load` resolves it for that facade |
| Catalog.DynamicCatalogMismatch | packages/com.seaube.ecsact/Runtime/EcsactRuntime.cs:954-980 | Dynamic's `methods` lists `ecsact_create_variant` and `ecsact_destroy_variant`, which `Load` never resolves, and omits `ecsact_system_execution_context_update`, which it does |
| Catalog.AdvertisedMatchesLoaded | packages/com.seaube.ecsact/Runtime/EcsactRuntime.cs:1464-1488 | the corrected catalog advertises exactly the loaded names, for every facade |
| Resolver.LoadDelegate | packages/com.seaube.ecsact/Runtime/EcsactRuntime.cs:1399-1419 | a hit stores the export in the slot and appends the name to the available list; a miss stores null and appends nothing; every other slot is unchanged |
| Resolver.LoadNamesSlot | packages/com.seaube.ecsact/Runtime/EcsactRuntime.cs:1437-1518 | after one library's calls, the slot of a name in the list is that library's export (or null), and other slots are unchanged |
| Resolver.LoadNamesAvailable | packages/com.seaube.ecsact/Runtime/EcsactRuntime.cs:1407-1410 | one library's calls append exactly its hits, in call order |
| Resolver.HitsMembers | packages/com.seaube.ecsact/Runtime/EcsactRuntime.cs:1407-1410 | a name is among one library's hits iff it is in the list and the library exports it |
| Resolver.LoadLibrarySlot | packages/com.seaube.ecsact/Runtime/EcsactRuntime.cs:1437-1518 | one library's pass affects only the slots of catalogued names, each set from that library |
| Resolver.ResolvedFromLastLibrary | packages/com.seaube.ecsact/Runtime/EcsactRuntime.cs:1436-1519 | after loading, a catalogued slot holds the last library's export, null if the last library lacks it or there is none; uncatalogued names have no slot |
| Resolver.LoadAllSlot | packages/com.seaube.ecsact/Runtime/EcsactRuntime.cs:1436-1519 | loading more libraries on top of a table overrides exactly the catalogued slots, from the last library |
| Resolver.AvailableAfterLoad | packages/com.seaube.ecsact/Runtime/EcsactRuntime.cs:1436-1519 | `_availableMethods` is the hits of each library in library order, names in load-call order |
| Resolver.HitsAllMembers | packages/com.seaube.ecsact/Runtime/EcsactRuntime.cs:1407-1410 | a name is available iff it is catalogued and some library, not necessarily the last, exports it |
| Resolver.SingleLibraryAvailableIsResolved | packages/com.seaube.ecsact/Runtime/EcsactRuntime.cs:1436-1519 | with exactly one library, a name is available iff its slot is non-null |
| Resolver.LaterMissClearsEarlierHit | packages/com.seaube.ecsact/Runtime/EcsactRuntime.cs:1416-1418 | a symbol resolved by the first library is null again after a second library that lacks it |
| Resolver.DuplicateAndStaleAvailable | packages/com.seaube.ecsact/Runtime/EcsactRuntime.cs:1407-1418 | a name exported by two libraries is listed twice, and remains listed after a third library nulls its slot |
| Resolver.AvailableWithinLoadCatalog | packages/com.seaube.ecsact/Runtime/EcsactRuntime.cs:1407-1410 | a facade only ever reports names it resolves, and only names some library exported |
| Resolver.AvailableWithinCatalog | packages/com.seaube.ecsact/Runtime/EcsactRuntime.cs:1464-1488 | every name `Load` can make available on a facade is in that facade's corrected catalog |
| Resolver.AvailableOutsideWrittenCatalog | packages/com.seaube.ecsact/Runtime/EcsactRuntime.cs:954-980 | any library exporting `ecsact_system_execution_context_update` makes that name available on Dynamic, although Dynamic's `methods` lacks it |
| Enums.CapabilityRoundTrip | packages/com.seaube.ecsact/Runtime/EcsactRuntime.cs:212-223 | each capability's `Int32` value decodes back to that capability |
| Enums.CapabilityValuesDistinct | packages/com.seaube.ecsact/Runtime/EcsactRuntime.cs:212-223 | no two capabilities share a value |
| Enums.CapabilityComposition | packages/com.seaube.ecsact/Runtime/EcsactRuntime.cs:212-223 | ReadWrite is Readonly or Writeonly; each OptionalX is 4 or X; Adds carries the Exclude bit and not Include; Removes carries Include and not Exclude |
| Enums.EventKindFromCode | packages/com.seaube.ecsact/Runtime/EcsactRuntime.cs:97-101 | an `EcsactEvent` code names an event kind iff it is in 0..2 |
| Enums.EventCodeRoundTrip | packages/com.seaube.ecsact/Runtime/EcsactRuntime.cs:97-101 | each event kind's code decodes back to it, and each decodable code is that kind's code |
| Enums.AsyncErrorFromCode | packages/com.seaube.ecsact/Runtime/EcsactRuntime.cs:9-16 | a code names an async error iff it is in 0..5 |
| Enums.AsyncErrorRoundTrip | packages/com.seaube.ecsact/Runtime/EcsactRuntime.cs:9-16 | each async error's code decodes back to it |
| Subscriptions.RemoveFirstDropsFirst | packages/com.seaube.ecsact/Runtime/EcsactRuntime.cs:1594 | `List.Remove` (`RemoveFirst`) drops the first element equal to its argument and keeps the elements before and after it in order; without an equal element the list is unchanged |
| Subscriptions.RemoveFirstAppendFresh | packages/com.seaube.ecsact/Runtime/EcsactRuntime.cs:1588-1596 | removing a just-appended element that was not already present gives the list back |
| Subscriptions.OnAnyComponent | packages/com.seaube.ecsact/Runtime/EcsactRuntime.cs:1588-1596 | a wildcard subscribe appends the callback to its kind's list, touches nothing else, and its unsubscriber names that kind and callback |
| Subscriptions.OnComponent | packages/com.seaube.ecsact/Runtime/EcsactRuntime.cs:1605-1627 | a typed subscribe creates the component's list if absent and appends a new wrapper not already there; other components, kinds and wildcard lists are unchanged |
| Subscriptions.Unsubscribe | packages/com.seaube.ecsact/Runtime/EcsactRuntime.cs:1620-1626 | unsubscribing keeps the registry well formed |
| Subscriptions.ListOkRemoveAll | packages/com.seaube.ecsact/Runtime/EcsactRuntime.cs:1624 | in a well-formed list, removing a wrapper removes every occurrence of it |
| Subscriptions.DispatchOrder | packages/com.seaube.ecsact/Runtime/EcsactRuntime.cs:1721-1743 | through `TypedCalls` and `AnyCalls`, a handler invokes the event component's typed wrappers first, in order, then every wildcard callback, in order; no typed call follows a wildcard call |
| Subscriptions.DispatchOnlyMatching | packages/com.seaube.ecsact/Runtime/EcsactRuntime.cs:1732-1742 | in a well-formed registry a handler never invokes a wrapper of another component id or event kind, and every call carries the decoded value |
| Subscriptions.DispatchAfterOnAny | packages/com.seaube.ecsact/Runtime/EcsactRuntime.cs:1588-1596 | after a wildcard subscribe, the trace gains exactly one call, at the end |
| Subscriptions.DispatchAfterOnComponent | packages/com.seaube.ecsact/Runtime/EcsactRuntime.cs:1605-1627 | after a typed subscribe, events on that component gain one call after the existing typed calls and before the wildcard calls; other components are unaffected |
| Subscriptions.TypedSubscribeUnsubscribeRestores | packages/com.seaube.ecsact/Runtime/EcsactRuntime.cs:1605-1627 | subscribing a typed callback and calling its unsubscriber leaves every later dispatch trace as if it had never been registered |
| Subscriptions.TypedRoundTrip | packages/com.seaube.ecsact/Runtime/EcsactRuntime.cs:1650-1672 | subscribe then unsubscribe gives back every typed list and wildcard list of every kind |
| Subscriptions.UnsubscribeRemovesExactlyItsWrapper | packages/com.seaube.ecsact/Runtime/EcsactRuntime.cs:1695-1717 | a typed unsubscriber leaves its own list as `RemoveFirst` of its wrapper, so the other wrappers keep their dispatch order; the wrapper is gone from every list and every other list is unchanged |
| Subscriptions.GoneStaysGone | packages/com.seaube.ecsact/Runtime/EcsactRuntime.cs:1620-1626 | once removed, a wrapper never comes back through later subscribes or unsubscribes, and a second call of its unsubscriber changes nothing |
| Subscriptions.GoneNeverInvoked | packages/com.seaube.ecsact/Runtime/EcsactRuntime.cs:1734-1738 | a removed wrapper is never invoked |
| Subscriptions.AnySubscribeUnsubscribeRestores | packages/com.seaube.ecsact/Runtime/EcsactRuntime.cs:1633-1643 | a wildcard subscribe/unsubscribe pair of a callback not already registered gives the registry back |
| Subscriptions.AnyUnsubscribeRemovesEarliest | packages/com.seaube.ecsact/Runtime/EcsactRuntime.cs:1680-1688 | when the callback was already registered, its unsubscriber removes the earliest registration (the first equal element, the rest keeping their order), so the callback stays, now last |
| Subscriptions.OnError | packages/com.seaube.ecsact/Runtime/EcsactRuntime.cs:441-450 | `OnError` appends to the error list only and returns its remover |
| Subscriptions.OnConnect | packages/com.seaube.ecsact/Runtime/EcsactRuntime.cs:452-461 | `OnConnect` appends to the connect list only and returns its remover |
| Subscriptions.ErrorSubscribeThenUnsubscribe | packages/com.seaube.ecsact/Runtime/EcsactRuntime.cs:441-450 | the error trace (`ErrorTrace`) of a new error callback's subscription is the old trace plus one call at the end, with the native error and request id; its remover restores the subscribers |
| Subscriptions.ConnectSubscribeThenUnsubscribe | packages/com.seaube.ecsact/Runtime/EcsactRuntime.cs:452-461 | the connect trace (`ConnectTrace`) of a new connect callback's subscription is the old trace plus one call at the end, with the native address and port; its remover restores the subscribers |
| Handles.Acquire | packages/com.seaube.ecsact/Runtime/EcsactRuntime.cs:478-479 | a pin gets a token that is non-zero and not live, and only that token is added |
| Handles.Release | packages/com.seaube.ecsact/Runtime/EcsactRuntime.cs:490-493 | freeing a token removes exactly that token and keeps the table valid |
| Handles.AcquireReleaseRestores | packages/com.seaube.ecsact/Runtime/EcsactRuntime.cs:933-948 | acquire then release of the same token gives back the live set; the token resolves to its resource in between |
| Handles.NestedAcquireReleaseRestores | packages/com.seaube.ecsact/Runtime/EcsactRuntime.cs:478-493 | two nested pins get distinct tokens and releasing both, in either order, restores the live set |
| Runtime.Load | packages/com.seaube.ecsact/Runtime/EcsactRuntime.cs:1421-1526 | each catalogued slot of each facade holds the last library's export or null; uncatalogued names have none; each facade's available list is its hits in library order; subscribers are empty, collectors zero; the trap handler is installed iff the last library exports it |
| Runtime.LoadNothing | packages/com.seaube.ecsact/Runtime/EcsactRuntime.cs:1421-1526 | with no library paths every slot is null, nothing is available, and no trap handler is installed |
| Runtime.Free | packages/com.seaube.ecsact/Runtime/EcsactRuntime.cs:1528-1539 | `Free` releases each loaded library's handle (`Handles`) once, in order, and forgets the list; a freed runtime releases nothing |
| Runtime.FreeIdempotent | packages/com.seaube.ecsact/Runtime/EcsactRuntime.cs:1528-1539 | a second `Free` changes nothing and releases nothing |
| Runtime.FreeReleasesOnce | packages/com.seaube.ecsact/Runtime/EcsactRuntime.cs:1528-1539 | any number of frees releases exactly what the first one did |
| Runtime.LoadThenFree | packages/com.seaube.ecsact/Runtime/EcsactRuntime.cs:1433-1539 | freeing a loaded runtime releases exactly the handles the loader (`OpenAll`) returned, one per path, in path order |
| Runtime.SetDefault | packages/com.seaube.ecsact/Runtime/EcsactRuntime.cs:313-321 | the previous default, if any, is freed and replaced; with no previous default nothing is released; setting the current default again leaves it installed but freed |
| Runtime.SetDefaultFreesEachPrevious | packages/com.seaube.ecsact/Runtime/EcsactRuntime.cs:313-321 | two replacements in a row free the original default, then the one installed in between |
| Runtime.SetDefaultToItselfFreesIt | packages/com.seaube.ecsact/Runtime/EcsactRuntime.cs:313-321 | re-installing the current default releases all its handles and keeps it as the default |
| Facades.Guard | packages/com.seaube.ecsact/Runtime/EcsactRuntime.cs:662-666 | a wrapper throws `MissingMethod` with its own symbol iff its slot is null; otherwise it returns exactly what the native call returns |
| Facades.GuardAfterLoad | packages/com.seaube.ecsact/Runtime/EcsactRuntime.cs:1421-1526 | on a freshly loaded runtime a wrapper throws `MissingMethod` iff there is no library or the last lacks its symbol, and otherwise calls the last library's export |
| Facades.CoreSymbolIsLoaded | packages/com.seaube.ecsact/Runtime/EcsactRuntime.cs:1445-1462 | each Core wrapper's exception symbol is the name `Load` resolves into its slot |
| Facades.CoreCallAfterLoad | packages/com.seaube.ecsact/Runtime/EcsactRuntime.cs:658-921 | after `Load` every Core wrapper throws `MissingMethod` carrying exactly its native symbol iff the last library lacks it |
| Facades.GetAllEntities | packages/com.seaube.ecsact/Runtime/EcsactRuntime.cs:768-783 | the array overload counts first (guarded by its own symbol) and propagates a throwing count; a negative count throws; otherwise a missing fetch throws `MissingMethod("ecsact_get_entities")` and a present one is called with that count and its outcome returned |
| Facades.GetAllEntitiesAfterLoad | packages/com.seaube.ecsact/Runtime/EcsactRuntime.cs:768-783 | on a freshly loaded runtime the overload is decided by the last library alone: its count export, the count's value, then its fetch export called with that count |
| Facades.GetAllEntitiesMissingGet | packages/com.seaube.ecsact/Runtime/EcsactRuntime.cs:738-783 | a missing `ecsact_get_entities` is reported iff the count succeeded with a non-negative value |
| Facades.Connect | packages/com.seaube.ecsact/Runtime/EcsactRuntime.cs:463-471 | `Connect` throws `MissingMethod("ecsact_async_connect")` iff its slot is null, and otherwise returns the outcome of the native call made with the connection string |
| Facades.ConnectAfterLoad | packages/com.seaube.ecsact/Runtime/EcsactRuntime.cs:463-471 | on a freshly loaded runtime `Connect` throws `MissingMethod` iff there is no library or the last lacks the symbol, and otherwise hands the connection string to the last library's export |
| Facades.ConnectWithCoreOnlyLibrary | packages/com.seaube.ecsact/Runtime/EcsactRuntime.cs:1438-1442 | a runtime loaded from one library without the async entry point throws `MissingMethod("ecsact_async_connect")` on `Connect` |
| Facades.WasmLoad | packages/com.seaube.ecsact/Runtime/EcsactRuntime.cs:1357-1377 | `Wasm.Load` throws `MissingMethod("ecsactsi_wasm_load")` iff its slot is null, and otherwise returns the outcome of one native call given the bytes with their own length, a count of one and one-element id and name arrays (`WasmArgs`) |
| Facades.WasmLoadAfterLoad | packages/com.seaube.ecsact/Runtime/EcsactRuntime.cs:1357-1377 | on a freshly loaded runtime `Wasm.Load` throws `MissingMethod` iff there is no library or the last lacks the symbol, and otherwise makes its one call to the last library's export |
| Facades.ComponentTraceAppend | packages/com.seaube.ecsact/Runtime/EcsactRuntime.cs:1721-1793 | the invocations of two runs of events back to back are the two traces back to back |
| Facades.OnComponentEventHandler | packages/com.seaube.ecsact/Runtime/EcsactRuntime.cs:1721-1743 | a handler whose user-data token pins the runtime dispatches the event on that runtime's subscribers |
| Facades.OnAsyncEventHandler | packages/com.seaube.ecsact/Runtime/EcsactRuntime.cs:404-439 | an async handler whose token pins the async facade invokes that event's subscribers; the committed handler invokes none |
| Facades.OnFlushEventHandler | packages/com.seaube.ecsact/Runtime/EcsactRuntime.cs:404-439 | during a flush with all six slots pinned, every delivered event reaches its subscribers |
| Facades.ExecuteSystemsScoped | packages/com.seaube.ecsact/Runtime/EcsactRuntime.cs:923-949 | guard before any pin; otherwise one fresh pin written into all three exec slots, exactly one native call, the events dispatched in order, and the live-handle set restored whether or not the call throws |
| Facades.FlushEventsScoped | packages/com.seaube.ecsact/Runtime/EcsactRuntime.cs:473-494 | guard before any pin; otherwise two distinct fresh pins, the runtime one in the three exec slots and the facade one in the three async slots, exactly one native call, events dispatched in order, and the live set restored on both exits |
| Facades.DeliverFlushEvents | packages/com.seaube.ecsact/Runtime/EcsactRuntime.cs:489 | the events of one flush reach the handlers in delivery order, giving the reference trace |
| Facades.ComponentTraceAnswers | packages/com.seaube.ecsact/Runtime/EcsactRuntime.cs:1721-1793 | in a well-formed registry, every subscriber call made while `ExecuteSystems` delivers a run of events answers one delivered event: same kind, component id and entity, and that event's decoded value |
| Facades.AddComponentScoped | packages/com.seaube.ecsact/Runtime/EcsactRuntime.cs:785-809 | guard before allocation; a fresh buffer holding the marshalled component is passed to exactly one native call (none if marshalling throws); the buffer is freed on every exit |
| Postprocessor.ExtensionBefore | packages/com.seaube.ecsact/Editor/EcsactPackagesPostprocessor.cs:38 | `Path.GetExtension` yields "" or a suffix of the path that starts with a dot |
| Postprocessor.PackageIffSuffix | packages/com.seaube.ecsact/Editor/EcsactPackagesPostprocessor.cs:38 | the extension test is exactly an ordinal, case-sensitive ".ecsact" suffix test |
| Postprocessor.ExtensionIsLastComponentOnly | packages/com.seaube.ecsact/Editor/EcsactPackagesPostprocessor.cs:44 | a file inside a directory named like a package is not a package, and neither is a path ending in a dot |
| Postprocessor.FilterPackages | packages/com.seaube.ecsact/Editor/EcsactPackagesPostprocessor.cs:37-47 | `importedPkgs` / `deletedPkgs` hold exactly the input paths with extension ".ecsact" |
| Postprocessor.FilterPackagesAppend | packages/com.seaube.ecsact/Editor/EcsactPackagesPostprocessor.cs:37-41 | the filter keeps input order (it distributes over concatenation) |
| Postprocessor.FilterPackagesIdempotent | packages/com.seaube.ecsact/Editor/EcsactPackagesPostprocessor.cs:37-47 | filtering an already filtered list changes nothing |
| Postprocessor.MovedPackages | packages/com.seaube.ecsact/Editor/EcsactPackagesPostprocessor.cs:49-56 | `movedPkgs` pairs `movedAssets[i]` with `movedFromAssetPaths[i]` for exactly the indices whose destination is a package |
| Postprocessor.MovedPackagesAppend | packages/com.seaube.ecsact/Editor/EcsactPackagesPostprocessor.cs:49-56 | one more moved asset adds one entry at the end, pairing it with the source path at its own index, when it is a package, and none otherwise; so order and multiplicity follow the index loop |
| Postprocessor.MovedDestinationsAreFiltered | packages/com.seaube.ecsact/Editor/EcsactPackagesPostprocessor.cs:49-56 | the destinations of `movedPkgs` are the package filter of `movedAssets`, in index order |
| Postprocessor.SourceExtensionIgnored | packages/com.seaube.ecsact/Editor/EcsactPackagesPostprocessor.cs:50-54 | a non-package source moved onto a package path is still recorded |
| Postprocessor.Postprocess | packages/com.seaube.ecsact/Editor/EcsactPackagesPostprocessor.cs:26-61 | code generation runs iff some imported, deleted or moved-to path is a package, and then receives the three filtered lists |
| Postprocessor.Arguments | packages/com.seaube.ecsact/Editor/EcsactPackagesPostprocessor.cs:111-131 | the argument string is empty iff there are no packages, and otherwise ends in a space |
| Postprocessor.ArgumentsRoundTrip | packages/com.seaube.ecsact/Editor/EcsactPackagesPostprocessor.cs:129-131 | splitting the argument string at spaces gives the package paths back, in order, when no path contains a space |
| Postprocessor.ArgumentsNotQuoted | packages/com.seaube.ecsact/Editor/EcsactPackagesPostprocessor.cs:129-131 | no quoting is applied, so a path containing a space reaches the generator as two arguments |
| Postprocessor.PlanFollowsAssets | packages/com.seaube.ecsact/Editor/EcsactPackagesPostprocessor.cs:98-104 | on what the postprocessor classified, the plan (`RefreshPlan`) moves the `.cs` of each moved-to package path and deletes the `.cs` of each deleted package path, in reported order |
| Postprocessor.PlanIgnoresWhichAssetsChanged | packages/com.seaube.ecsact/Editor/EcsactPackagesPostprocessor.cs:127-142 | the generator's arguments cover all discovered packages, not only the changed ones, and split back into the builder's file list |

## Left out

- The `NativeLibrary` shim (`LoadLibrary`, `GetProcAddress`, `FreeLibrary`) is left out, because it is a foreign call. A library is its handle plus its export map, and the loader is a parameter.
- `Marshal.*` layouts and `PtrToComponent` decoding are left out, because they are foreign calls. The decoder is an uninterpreted parameter.
- `Marshal.GetDelegateForFunctionPointer` is assumed always to succeed. The branch that logs "is not a function" when it returns null is not modelled.
- What the native library does during a call is not modelled: event semantics, registry storage, serialization. A native call is a parameter: the events it delivers and whether it throws.
- The Core wrappers that do nothing beyond guarding and forwarding are modelled once, generically (`Facades.CoreCall` over `Facades.FacadeCall`), not one by one. Dynamic, Meta, Serialize and Static declare no public wrappers, only delegate slots, so their calls are `FacadeCall` on their facade. `Async.Connect`, `Async.FlushEvents` and `Wasm.Load` are written out.
- `GCHandle.Alloc` and `Marshal.AllocHGlobal` failure is not modelled. Those calls sit outside the `try` blocks.
- Re-entrancy is not modelled. A subscriber that subscribes or unsubscribes while being invoked would mutate a list during a `foreach`.
- Facades.OnComponentEventHandler: the model returns `None` for every token that does not pin this runtime. In the C#, a token pinning another runtime dispatches on that runtime, a zero token throws from `GCHandle.FromIntPtr`, and only a token pinning some other object reaches a null dereference.
- The handler's debug assertion that the event code matches its kind is not modelled.
- `GetOrLoadDefault` is left out. Its dialog, quit path and default-registry creation are Unity UI and native calls. `DefaultWasmTrapHandler` (logging) and the finalizer are left out as well.
- Object identity is modelled by the runtime's `id`: Runtime.SetDefault requires that two runtimes with the same id are the same value.
- `Path.GetExtension` is modelled with the editor platform's separators `/`, `\` and `:`. Invalid-path-character exceptions are left out.
- In the postprocessor, the following side effects are left out: `AssetDatabase`, `Process`, `Progress`, the `delayCall` retry in `TryImportAssets`, `FindEcsactPackages` (its result is a parameter) and the reflection-based `GetCodegenPlugins`.
- `EcsactImporter`, `EcsactPackageEditor` and `AsyncRunner` are not part of this model. They are process I/O, inspector UI and `MonoBehaviour` glue.
- Postprocessor.MovedPackages: the C# throws when `movedFromAssetPaths` is shorter than a package index needs. The model instead requires that it is long enough (`MovedFromCovers`).

## Findings

| source | as written | input that shows it | evidently intended | confidence | as-written member | corrected member |
|---|---|---|---|---|---|---|
| packages/com.seaube.ecsact/Runtime/EcsactRuntime.cs:954-980 | `Dynamic.methods` lists `ecsact_create_variant` and `ecsact_destroy_variant`, which `Load` never resolves, and omits `ecsact_system_execution_context_update`, which `Load` resolves at line 1468 | one library exporting only `ecsact_system_execution_context_update`: the name becomes available on Dynamic but is not in Dynamic's `methods` | the catalog lists exactly the names `Load` resolves, as the other six facades do | medium, not executed | Resolver.AvailableOutsideWrittenCatalog | Resolver.AvailableWithinCatalog |
