/** Symbol resolution: how `Load` fills each facade's delegate slots and its
    `availableMethods` list from an ordered list of libraries.

    For every library, in order, every catalog name of every facade is looked
    up. A hit stores the export in the slot and appends the name to the
    facade's available list; a miss stores null. The slot therefore ends up
    holding what the LAST library says about the name, even when that
    library lacks it. */
module Resolver {
  import opened Native
  import opened Catalog

  /** One facade's resolution state: a nullable slot per name (a missing key
      is a slot still holding its initial null) and `_availableMethods`. */
  datatype FacadeTable = FacadeTable(slots: map<Symbol, Option<FnId>>, available: seq<Symbol>)

  const EmptyTable := FacadeTable(map[], [])

  /** The delegate slot for `name`; null (`None`) until something is stored. */
  function Slot(t: FacadeTable, name: Symbol): Option<FnId>
  {
    if name in t.slots then t.slots[name] else None
  }

  /** The seven facade tables of a runtime. */
  type Tables = map<Facade, FacadeTable>

  const NoTables: Tables := map[]

  function TableOf(ts: Tables, f: Facade): FacadeTable
  {
    if f in ts then ts[f] else EmptyTable
  }

  /** `LoadDelegate`: resolve one name against one library. */
  function LoadDelegate(lib: Library, name: Symbol, t: FacadeTable): (r: FacadeTable)
    ensures Slot(r, name) == TryGetExport(lib, name)
    ensures forall n :: n != name ==> Slot(r, n) == Slot(t, n)
    ensures name in lib.exports ==> r.available == t.available + [name]
    ensures name !in lib.exports ==> r.available == t.available
  {
    match TryGetExport(lib, name)
    case Some(fn) => FacadeTable(t.slots[name := Some(fn)], t.available + [name])
    case None => FacadeTable(t.slots[name := None], t.available)
  }

  /** The names of `names` that `lib` exports, in order. */
  function Hits(lib: Library, names: seq<Symbol>): seq<Symbol>
  {
    if names == [] then []
    else (if names[0] in lib.exports then [names[0]] else []) + Hits(lib, names[1..])
  }

  /** The hits of every library in turn. */
  function HitsAll(libs: seq<Library>, names: seq<Symbol>): seq<Symbol>
  {
    if libs == [] then [] else Hits(libs[0], names) + HitsAll(libs[1..], names)
  }

  /** Resolve `names` against `lib`, one `LoadDelegate` call per name, in order. */
  function LoadNames(lib: Library, names: seq<Symbol>, t: FacadeTable): FacadeTable
  {
    if names == [] then t else LoadNames(lib, names[1..], LoadDelegate(lib, names[0], t))
  }

  /** The names resolved per facade. The fold below is written for any such
      catalog; `Load` uses `Catalog.LoadedNames`. */
  type NameCatalog = Facade -> seq<Symbol>

  /** One iteration of `Load`'s library loop: every facade's names against `lib`.
      Facades own disjoint tables, so the order in which they are visited does
      not change the result. */
  function LoadLibrary(lib: Library, ts: Tables, cat: NameCatalog): Tables
  {
    map f | f in AllFacades :: LoadNames(lib, cat(f), TableOf(ts, f))
  }

  /** `Load`'s library loop over `libs`, first to last. */
  function LoadAll(libs: seq<Library>, ts: Tables, cat: NameCatalog): Tables
  {
    if libs == [] then ts else LoadAll(libs[1..], LoadLibrary(libs[0], ts, cat), cat)
  }

  /** What the last library of `libs` says about `n`, or `None` for no libraries. */
  function LastSays(libs: seq<Library>, n: Symbol): Option<FnId>
  {
    if libs == [] then None else TryGetExport(libs[|libs| - 1], n)
  }

  lemma {:induction false} LoadNamesSlot(lib: Library, names: seq<Symbol>, t: FacadeTable, n: Symbol)
    ensures Slot(LoadNames(lib, names, t), n) == if n in names then TryGetExport(lib, n) else Slot(t, n)
    decreases |names|
  {
    if names != [] {
      LoadNamesSlot(lib, names[1..], LoadDelegate(lib, names[0], t), n);
      assert n in names <==> n == names[0] || n in names[1..];
    }
  }

  lemma {:induction false} LoadNamesAvailable(lib: Library, names: seq<Symbol>, t: FacadeTable)
    ensures LoadNames(lib, names, t).available == t.available + Hits(lib, names)
    decreases |names|
  {
    if names != [] {
      var t1 := LoadDelegate(lib, names[0], t);
      LoadNamesAvailable(lib, names[1..], t1);
    }
  }

  /** A hit is exactly a catalog name the library exports. */
  lemma {:induction false} HitsMembers(lib: Library, names: seq<Symbol>, n: Symbol)
    ensures n in Hits(lib, names) <==> n in names && n in lib.exports
    decreases |names|
  {
    if names != [] {
      HitsMembers(lib, names[1..], n);
      assert n in names <==> n == names[0] || n in names[1..];
    }
  }

  lemma LoadLibraryTable(lib: Library, ts: Tables, cat: NameCatalog, f: Facade)
    ensures TableOf(LoadLibrary(lib, ts, cat), f) == LoadNames(lib, cat(f), TableOf(ts, f))
  {
    assert f in AllFacades;
  }

  /** After one library, a catalog name's slot is that library's export and
      any other slot is untouched. */
  lemma LoadLibrarySlot(lib: Library, ts: Tables, cat: NameCatalog, f: Facade, n: Symbol)
    ensures Slot(TableOf(LoadLibrary(lib, ts, cat), f), n)
         == if n in cat(f) then TryGetExport(lib, n) else Slot(TableOf(ts, f), n)
  {
    LoadLibraryTable(lib, ts, cat, f);
    LoadNamesSlot(lib, cat(f), TableOf(ts, f), n);
  }

  /** The last-library rule: after loading `libs` into fresh tables, the slot
      for every catalog name holds the last library's export, or null when
      that library lacks it or there are no libraries; names outside a
      facade's catalog stay null. */
  lemma {:induction false} ResolvedFromLastLibrary(libs: seq<Library>, cat: NameCatalog, f: Facade, n: Symbol)
    ensures Slot(TableOf(LoadAll(libs, NoTables, cat), f), n)
         == if n in cat(f) then LastSays(libs, n) else None
  {
    LoadAllSlot(libs, NoTables, cat, f, n);
  }

  lemma {:induction false} LoadAllSlot(libs: seq<Library>, ts: Tables, cat: NameCatalog, f: Facade, n: Symbol)
    ensures Slot(TableOf(LoadAll(libs, ts, cat), f), n)
         == if n in cat(f) && libs != [] then LastSays(libs, n) else Slot(TableOf(ts, f), n)
    decreases |libs|
  {
    if libs != [] {
      var ts1 := LoadLibrary(libs[0], ts, cat);
      LoadLibrarySlot(libs[0], ts, cat, f, n);
      LoadAllSlot(libs[1..], ts1, cat, f, n);
      if |libs| > 1 {
        assert libs[1..][|libs[1..]| - 1] == libs[|libs| - 1];
      }
    }
  }

  /** `_availableMethods` collects one entry per (library, name) hit, in
      library order and then in the facade's load order. */
  lemma {:induction false} AvailableAfterLoad(libs: seq<Library>, cat: NameCatalog, f: Facade)
    ensures TableOf(LoadAll(libs, NoTables, cat), f).available == HitsAll(libs, cat(f))
  {
    LoadAllAvailable(libs, NoTables, cat, f);
  }

  lemma {:induction false} LoadAllAvailable(libs: seq<Library>, ts: Tables, cat: NameCatalog, f: Facade)
    ensures TableOf(LoadAll(libs, ts, cat), f).available == TableOf(ts, f).available + HitsAll(libs, cat(f))
    decreases |libs|
  {
    if libs != [] {
      var ts1 := LoadLibrary(libs[0], ts, cat);
      LoadLibraryTable(libs[0], ts, cat, f);
      LoadNamesAvailable(libs[0], cat(f), TableOf(ts, f));
      LoadAllAvailable(libs[1..], ts1, cat, f);
    }
  }

  /** With exactly one library, the available names are exactly the names
      whose slot is non-null. */
  lemma SingleLibraryAvailableIsResolved(lib: Library, cat: NameCatalog, f: Facade, n: Symbol)
    ensures n in TableOf(LoadAll([lib], NoTables, cat), f).available
        <==> Slot(TableOf(LoadAll([lib], NoTables, cat), f), n).Some?
  {
    AvailableAfterLoad([lib], cat, f);
    assert HitsAll([lib], cat(f)) == Hits(lib, cat(f));
    HitsMembers(lib, cat(f), n);
    ResolvedFromLastLibrary([lib], cat, f, n);
  }

  lemma {:induction false} HitsAllMembers(libs: seq<Library>, names: seq<Symbol>, n: Symbol)
    ensures n in HitsAll(libs, names) <==> n in names && exists i :: 0 <= i < |libs| && n in libs[i].exports
    decreases |libs|
  {
    if libs != [] {
      HitsMembers(libs[0], names, n);
      HitsAllMembers(libs[1..], names, n);
      if exists i :: 0 <= i < |libs| && n in libs[i].exports {
        var i :| 0 <= i < |libs| && n in libs[i].exports;
        if i > 0 {
          assert n in libs[1..][i - 1].exports;
        }
      }
      if exists i :: 0 <= i < |libs[1..]| && n in libs[1..][i].exports {
        var i :| 0 <= i < |libs[1..]| && n in libs[1..][i].exports;
        assert n in libs[i + 1].exports;
      }
    }
  }

  /** A later library that lacks a symbol clears what an earlier one resolved. */
  lemma LaterMissClearsEarlierHit(first: Library, second: Library, cat: NameCatalog, f: Facade, n: Symbol)
    requires n in cat(f) && n in first.exports && n !in second.exports
    ensures Slot(TableOf(LoadAll([first], NoTables, cat), f), n).Some?
    ensures Slot(TableOf(LoadAll([first, second], NoTables, cat), f), n).None?
  {
    ResolvedFromLastLibrary([first], cat, f, n);
    ResolvedFromLastLibrary([first, second], cat, f, n);
  }

  /** Two libraries exporting the same name list it twice, even when a third,
      later library then clears its slot. */
  lemma DuplicateAndStaleAvailable(a: Library, b: Library, c: Library, cat: NameCatalog, f: Facade, n: Symbol)
    requires n in cat(f) && n in a.exports && n in b.exports && n !in c.exports
    ensures multiset(TableOf(LoadAll([a, b, c], NoTables, cat), f).available)[n] >= 2
    ensures Slot(TableOf(LoadAll([a, b, c], NoTables, cat), f), n).None?
  {
    var names := cat(f);
    AvailableAfterLoad([a, b, c], cat, f);
    HitsMembers(a, names, n);
    HitsMembers(b, names, n);
    assert HitsAll([a, b, c], names) == Hits(a, names) + (Hits(b, names) + HitsAll([c], names)) by {
      assert [a, b, c][1..] == [b, c];
      assert [b, c][1..] == [c];
    }
    ResolvedFromLastLibrary([a, b, c], cat, f, n);
  }

  /** Whatever the catalog, a facade only reports names it catalogues, and
      only names some library exported. */
  lemma AvailableWithinLoadCatalog(libs: seq<Library>, cat: NameCatalog, f: Facade, n: Symbol)
    requires n in TableOf(LoadAll(libs, NoTables, cat), f).available
    ensures n in cat(f)
    ensures exists i :: 0 <= i < |libs| && n in libs[i].exports
  {
    AvailableAfterLoad(libs, cat, f);
    HitsAllMembers(libs, cat(f), n);
  }

  /** Every name `Load` can make available on a facade (its list is the
      hits of the loaded names, `Runtime.Load`) is in the facade's corrected
      catalog. */
  lemma AvailableWithinCatalog(libs: seq<Library>, f: Facade, n: Symbol)
    requires n in HitsAll(libs, LoadedNames(f))
    ensures n in AdvertisedMethods(f)
  {
    HitsAllMembers(libs, LoadedNames(f), n);
    AdvertisedMatchesLoaded(f);
  }

  const ContextUpdate: Symbol := "ecsact_system_execution_context_update"

  /** With the catalog as written, any library exporting
      `ecsact_system_execution_context_update` makes Dynamic report an
      available name its own `methods` array does not list. */
  lemma AvailableOutsideWrittenCatalog(lib: Library)
    requires ContextUpdate in lib.exports
    ensures ContextUpdate in HitsAll([lib], LoadedNames(Dynamic))
    ensures ContextUpdate !in Methods(Dynamic)
  {
    NotAdvertised(ContextUpdate);
    HitsAllMembers([lib], LoadedNames(Dynamic), ContextUpdate);
  }
}
