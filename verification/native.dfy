/** The native side of the binding, seen from the host: a loaded shared
    library is a handle plus the exports the dynamic loader can find in it.
    Everything the native code does beyond that is a parameter of the
    operations that call into it. */
module Native {

  /** A value that may be absent; `None` plays the role of a null reference. */
  datatype Option<T> = None | Some(value: T)

  /** The address of a resolved export (a non-zero `GetProcAddress` result). */
  type FnId = nat

  /** A native entry-point name such as "ecsact_create_registry". */
  type Symbol = string

  /** One loaded library: the opaque handle returned by the loader and the
      table of names it exports. A library that failed to open has handle 0
      and exports nothing. */
  datatype Library = Library(handle: nat, exports: map<Symbol, FnId>)

  /** `TryGetExport`: the export named `name`, or `None` when the library
      does not export it. */
  function TryGetExport(lib: Library, name: Symbol): Option<FnId>
  {
    if name in lib.exports then Some(lib.exports[name]) else None
  }

  /** The handles of `libs`, in order. */
  function Handles(libs: seq<Library>): (hs: seq<nat>)
    ensures |hs| == |libs|
    ensures forall i :: 0 <= i < |libs| ==> hs[i] == libs[i].handle
  {
    seq(|libs|, i requires 0 <= i < |libs| => libs[i].handle)
  }
}
