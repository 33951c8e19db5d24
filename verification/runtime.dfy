/** The runtime object: the loaded libraries, the seven facade tables, the
    subscriber registries and the user-data slots of the two event
    collectors; and its lifecycle (`Load`, `Free`, `SetDefault`). */
module Runtime {
  import opened Native
  import opened Catalog
  import opened Resolver
  import opened Enums
  import opened Subscriptions

  /** The user-data pointers of `ExecutionEventsCollector`, one per event kind. */
  datatype ExecCollector = ExecCollector(initUserData: nat, updateUserData: nat, removeUserData: nat)
  {
    function UserData(k: EventKind): nat
    {
      match k
      case InitEvent => initUserData
      case UpdateEvent => updateUserData
      case RemoveEvent => removeUserData
    }
  }

  /** The user-data pointers of `AsyncEventsCollector`. */
  datatype AsyncCollector = AsyncCollector(committedUserData: nat, errorUserData: nat, connectUserData: nat)

  /** Both collectors start with `IntPtr.Zero` in every slot. */
  const ZeroExec := ExecCollector(0, 0, 0)
  const ZeroAsync := AsyncCollector(0, 0, 0)

  /** `id` stands for the object's identity; `libs == None` is a freed runtime. */
  datatype EcsactRuntime = EcsactRuntime(
    id: nat,
    libs: Option<seq<Library>>,
    tables: Tables,
    components: ComponentSubscribers,
    asyncSubs: AsyncSubscribers,
    exec: ExecCollector,
    asyncEvs: AsyncCollector)

  const TrapHandlerSymbol: Symbol := "ecsactsi_wasm_set_trap_handler"

  /** `libraryPaths.Select(NativeLibrary.Load)`: the loader is a parameter;
      a path that fails to open yields a library with handle 0 and no exports. */
  function OpenAll(paths: seq<string>, open: string -> Library): (libs: seq<Library>)
    ensures |libs| == |paths|
    ensures forall i :: 0 <= i < |paths| ==> libs[i] == open(paths[i])
  {
    seq(|paths|, i requires 0 <= i < |paths| => open(paths[i]))
  }

  /** `Load`: open every path, resolve every catalogued name against every
      library in order, then install the default trap handler when the Wasm
      slot for it ended up non-null. The second component says whether it was
      installed. */
  function Load(id: nat, paths: seq<string>, open: string -> Library): (r: (EcsactRuntime, bool))
    ensures r.0.id == id && r.0.libs == Some(OpenAll(paths, open))
    ensures forall f, n :: n in LoadedNames(f) ==>
      Slot(TableOf(r.0.tables, f), n) == LastSays(OpenAll(paths, open), n)
    ensures forall f, n :: n !in LoadedNames(f) ==> Slot(TableOf(r.0.tables, f), n) == None
    ensures forall f :: TableOf(r.0.tables, f).available == HitsAll(OpenAll(paths, open), LoadedNames(f))
    ensures r.0.components == NoSubscribers && r.0.asyncSubs == NoAsyncSubscribers
    ensures r.0.exec == ZeroExec && r.0.asyncEvs == ZeroAsync
    ensures r.1 <==> |paths| > 0 && TrapHandlerSymbol in open(paths[|paths| - 1]).exports
  {
    var libs := OpenAll(paths, open);
    var tables := LoadAll(libs, NoTables, LoadedNames);
    CatalogFacts(libs, LoadedNames, tables);
    TrapHandlerSlot(libs, tables);
    (EcsactRuntime(id, Some(libs), tables, NoSubscribers, NoAsyncSubscribers, ZeroExec, ZeroAsync),
     Slot(TableOf(tables, Wasm), TrapHandlerSymbol).Some?)
  }

  lemma CatalogFacts(libs: seq<Library>, cat: NameCatalog, tables: Tables)
    requires tables == LoadAll(libs, NoTables, cat)
    ensures forall f, n :: n in cat(f) ==> Slot(TableOf(tables, f), n) == LastSays(libs, n)
    ensures forall f, n :: n !in cat(f) ==> Slot(TableOf(tables, f), n) == None
    ensures forall f :: TableOf(tables, f).available == HitsAll(libs, cat(f))
  {
    forall f, n | n in cat(f)
      ensures Slot(TableOf(tables, f), n) == LastSays(libs, n)
    {
      ResolvedFromLastLibrary(libs, cat, f, n);
    }
    forall f, n | n !in cat(f)
      ensures Slot(TableOf(tables, f), n) == None
    {
      ResolvedFromLastLibrary(libs, cat, f, n);
    }
    forall f
      ensures TableOf(tables, f).available == HitsAll(libs, cat(f))
    {
      AvailableAfterLoad(libs, cat, f);
    }
  }

  lemma TrapHandlerSlot(libs: seq<Library>, tables: Tables)
    requires tables == LoadAll(libs, NoTables, LoadedNames)
    ensures Slot(TableOf(tables, Wasm), TrapHandlerSymbol).Some?
      <==> |libs| > 0 && TrapHandlerSymbol in libs[|libs| - 1].exports
  {
    ResolvedFromLastLibrary(libs, LoadedNames, Wasm, TrapHandlerSymbol);
    assert LoadedNames(Wasm)[2] == TrapHandlerSymbol;
  }

  /** With no library paths, every slot of every facade is null and nothing
      is available. */
  lemma LoadNothing(id: nat, open: string -> Library, f: Facade, n: Symbol)
    ensures Slot(TableOf(Load(id, [], open).0.tables, f), n) == None
    ensures TableOf(Load(id, [], open).0.tables, f).available == []
    ensures !Load(id, [], open).1
  {
    assert HitsAll([], LoadedNames(f)) == [];
  }

  /** `Free`: release every library handle, in order, then forget the list.
      The second component is the handles released by this call. */
  function Free(rt: EcsactRuntime): (r: (EcsactRuntime, seq<nat>))
    ensures r.0.libs == None
    ensures rt.libs.None? ==> r.1 == []
    ensures rt.libs.Some? ==>
      |r.1| == |rt.libs.value| && forall i :: 0 <= i < |r.1| ==> r.1[i] == rt.libs.value[i].handle
  {
    match rt.libs
    case None => (rt, [])
    case Some(libs) => (rt.(libs := None), Handles(libs))
  }

  /** A freed runtime keeps its tables, subscribers and collectors; only
      the library list goes. */
  lemma FreeKeepsTheRest(rt: EcsactRuntime)
    ensures Free(rt).0 == rt.(libs := None)
  {
  }

  /** A second `Free` changes nothing and releases nothing. */
  lemma FreeIdempotent(rt: EcsactRuntime)
    ensures Free(Free(rt).0).0 == Free(rt).0
    ensures Free(Free(rt).0).1 == []
  {
  }

  /** `n` successive frees: the final runtime and everything released. */
  function FreeTimes(rt: EcsactRuntime, n: nat): (r: (EcsactRuntime, seq<nat>))
    decreases n
  {
    if n == 0 then (rt, [])
    else
      var (rt1, released) := Free(rt);
      var (rt2, more) := FreeTimes(rt1, n - 1);
      (rt2, released + more)
  }

  /** However many times a runtime is freed, each loaded handle is released
      exactly once: the releases of any number of frees are those of the first. */
  lemma {:induction false} FreeReleasesOnce(rt: EcsactRuntime, n: nat)
    requires n >= 1
    ensures FreeTimes(rt, n) == Free(rt)
    decreases n
  {
    var (rt1, released) := Free(rt);
    assert released + [] == released;
    if n > 1 {
      FreeReleasesOnce(rt1, n - 1);
      FreeIdempotent(rt);
    }
  }

  /** Freeing a freshly loaded runtime releases exactly the handles the
      loader returned, one per path, in path order. */
  lemma LoadThenFree(id: nat, paths: seq<string>, open: string -> Library)
    ensures var released := Free(Load(id, paths, open).0).1;
      |released| == |paths| && forall i :: 0 <= i < |paths| ==> released[i] == open(paths[i]).handle
  {
  }

  /** `SetDefault`: free the previous default, if any, then install `next`.
      Objects are identified by `id`; when `next` is the previous default
      itself, the installed object is the one just freed. Returns the new
      default and the handles released. */
  function SetDefault(current: Option<EcsactRuntime>, next: Option<EcsactRuntime>): (r: (Option<EcsactRuntime>, seq<nat>))
    requires current.Some? && next.Some? && current.value.id == next.value.id ==> current.value == next.value
    ensures current.None? ==> r == (next, [])
    ensures current.Some? ==> r.1 == Free(current.value).1
    ensures next.None? ==> r.0 == None
    ensures next.Some? ==> r.0.Some? && r.0.value.id == next.value.id
    ensures next.Some? && current.Some? && current.value.id == next.value.id ==> r.0.value.libs == None
    ensures next.Some? && !(current.Some? && current.value.id == next.value.id) ==> r.0 == next
  {
    match current
    case None => (next, [])
    case Some(prev) =>
      var (freed, released) := Free(prev);
      if next.Some? && next.value.id == prev.id then (Some(freed), released) else (next, released)
  }

  /** Replacing the default twice in a row: the first call frees the original
      default, and the second frees the one installed in between (which is
      never the original, so no handle is released twice). */
  lemma SetDefaultFreesEachPrevious(a: EcsactRuntime, b: EcsactRuntime, c: Option<EcsactRuntime>)
    requires a.id != b.id
    requires c.Some? ==> c.value.id != b.id
    ensures var (d1, r1) := SetDefault(Some(a), Some(b));
      && d1 == Some(b)
      && r1 == Free(a).1
      && SetDefault(d1, c).1 == Free(b).1
      && SetDefault(d1, c).0 == c
  {
  }

  /** Setting the current default again frees it: it stays the default, but
      without its libraries. */
  lemma SetDefaultToItselfFreesIt(a: EcsactRuntime)
    requires a.libs.Some?
    ensures SetDefault(Some(a), Some(a)) == (Some(a.(libs := None)), Handles(a.libs.value))
  {
  }
}
