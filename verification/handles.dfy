/** The host-side table of live user-data tokens.

    A pinned `GCHandle` or an `AllocHGlobal` buffer is a token the native side
    may be handed for the duration of one call. Token 0 plays `IntPtr.Zero`
    and is never live. The table is what a scope must give back: every token
    a call acquires it releases before returning, normally or not. */
module Handles {
  import opened Native

  /** What a token keeps alive: a pinned runtime (by identity), a pinned
      async facade (by its runtime's identity), or a native buffer holding a
      marshalled component. */
  datatype Resource =
    | PinnedRuntime(runtime: nat)
    | PinnedAsync(runtime: nat)
    | NativeBuffer(bytes: seq<int>)

  datatype HandleTable = HandleTable(live: map<nat, Resource>, next: nat)

  const EmptyHandles := HandleTable(map[], 1)

  /** Every live token is non-zero and below the allocation counter. */
  ghost predicate Valid(h: HandleTable)
  {
    0 < h.next && forall t :: t in h.live ==> 0 < t < h.next
  }

  /** Allocate a token for `r`. On a valid table the token is new, non-zero,
      and nothing else in the table changes. */
  function Acquire(h: HandleTable, r: Resource): (p: (HandleTable, nat))
    ensures p.0.live == h.live[p.1 := r]
    ensures Valid(h) ==> p.1 != 0 && p.1 !in h.live && Valid(p.0)
  {
    var t := if h.next == 0 then 1 else h.next;
    (HandleTable(h.live[t := r], t + 1), t)
  }

  /** Free a token; freeing one that is not live changes nothing. */
  function Release(h: HandleTable, t: nat): (h': HandleTable)
    ensures t !in h'.live
    ensures forall u :: u != t ==> (u in h'.live <==> u in h.live)
    ensures forall u :: u in h'.live ==> h'.live[u] == h.live[u]
    ensures Valid(h) ==> Valid(h')
  {
    h.(live := h.live - {t})
  }

  /** `GCHandle.FromIntPtr(t).Target`: what a live token names. */
  function Resolve(h: HandleTable, t: nat): Option<Resource>
  {
    if t in h.live then Some(h.live[t]) else None
  }

  /** Acquire followed by release of the same token gives the live set back
      exactly, and the token resolves to its resource in between. */
  lemma AcquireReleaseRestores(h: HandleTable, r: Resource)
    requires Valid(h)
    ensures var (h1, t) := Acquire(h, r);
      && Resolve(h1, t) == Some(r)
      && Release(h1, t).live == h.live
      && Resolve(Release(h1, t), t) == None
  {
    var (h1, t) := Acquire(h, r);
    assert h1.live - {t} == h.live;
  }

  /** Two nested acquisitions released in either order also restore the table. */
  lemma NestedAcquireReleaseRestores(h: HandleTable, r1: Resource, r2: Resource)
    requires Valid(h)
    ensures var (h1, t1) := Acquire(h, r1);
      var (h2, t2) := Acquire(h1, r2);
      && t1 != t2
      && Release(Release(h2, t1), t2).live == h.live
      && Release(Release(h2, t2), t1).live == h.live
  {
    var (h1, t1) := Acquire(h, r1);
    var (h2, t2) := Acquire(h1, r2);
    assert Release(Release(h2, t1), t2).live == h.live;
    assert Release(Release(h2, t2), t1).live == h.live;
  }
}
