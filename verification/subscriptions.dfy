/** Subscriber registries and the dispatch traces of the event handlers.

    Component events have, per event kind, one list of wildcard callbacks and
    one map from component id to a list of typed wrappers. A typed subscribe
    wraps the caller's callback in a fresh closure, so each wrapper has its
    own identity (`id`, drawn from a counter). Async error and connect events
    each have one list. Subscribing appends; the returned unsubscriber removes
    the first equal element, as `List<T>.Remove` does.

    A handler's effect is the sequence of subscriber invocations it makes:
    first the typed wrappers registered for the event's component id, in
    registration order, then every wildcard callback, in registration order. */
module Subscriptions {
  import opened Native
  import opened Enums
  import opened Seqs

  /** A host delegate. Equal values are equal delegates. */
  type Callback = nat

  /** The decoded component object a handler passes to its subscribers. */
  type ComponentValue = seq<int>

  /** The closure a typed subscribe registers: it remembers its event kind
      (its delegate type) and its component type's id. */
  datatype Wrapper = Wrapper(id: nat, kind: EventKind, componentId: int, callback: Callback)

  /** The subscribers of one event kind. */
  datatype KindSubscribers = KindSubscribers(any: seq<Callback>, typed: map<int, seq<Wrapper>>)

  const NoKindSubscribers := KindSubscribers([], map[])

  datatype ComponentSubscribers =
    ComponentSubscribers(init: KindSubscribers, update: KindSubscribers, remove: KindSubscribers, nextWrapper: nat)
  {
    function Of(k: EventKind): KindSubscribers
    {
      match k
      case InitEvent => init
      case UpdateEvent => update
      case RemoveEvent => remove
    }

    function With(k: EventKind, ks: KindSubscribers): (r: ComponentSubscribers)
      ensures r.Of(k) == ks && r.nextWrapper == nextWrapper
      ensures forall k' :: k' != k ==> r.Of(k') == Of(k')
    {
      match k
      case InitEvent => this.(init := ks)
      case UpdateEvent => this.(update := ks)
      case RemoveEvent => this.(remove := ks)
    }
  }

  const NoSubscribers := ComponentSubscribers(NoKindSubscribers, NoKindSubscribers, NoKindSubscribers, 0)

  /** The typed wrappers for component `c`; an absent list reads as empty. */
  function TypedList(ks: KindSubscribers, c: int): seq<Wrapper>
  {
    if c in ks.typed then ks.typed[c] else []
  }

  /** What an unsubscribe closure captured. */
  datatype Unsubscriber = RemoveAny(kind: EventKind, callback: Callback) | RemoveTyped(wrapper: Wrapper)

  /** One subscriber invocation made by a handler, with its arguments. */
  datatype Invocation =
    | TypedCall(wrapper: Wrapper, entity: int, component: ComponentValue)
    | AnyCall(kind: EventKind, callback: Callback, entity: int, componentId: int, component: ComponentValue)
    | ErrorCall(callback: Callback, error: int, requestId: int)
    | ConnectCall(callback: Callback, address: string, port: int)

  // ---------------------------------------------------------------------
  // List<T>.Remove

  /** `List<T>.Remove`: drop the first element equal to `x`, if any. */
  function RemoveFirst<T(==)>(s: seq<T>, x: T): (r: seq<T>)
    ensures x !in s ==> r == s
    ensures x in s ==> |r| == |s| - 1 && multiset(r) == multiset(s) - multiset{x}
  {
    var i := IndexOf(s, x);
    if i == |s| then s
    else
      assert s == s[..i] + [s[i]] + s[i + 1..];
      s[..i] + s[i + 1..]
  }

  /** The occurrence removed is the first one, and the elements before and
      after it keep their order; without an occurrence nothing changes. */
  lemma RemoveFirstDropsFirst<T>(s: seq<T>, x: T)
    ensures x !in s ==> RemoveFirst(s, x) == s
    ensures x in s ==>
      exists i :: 0 <= i < |s| && s[i] == x && x !in s[..i] && RemoveFirst(s, x) == s[..i] + s[i + 1..]
  {
    var i := IndexOf(s, x);
    if x in s {
      assert s[i] == x && x !in s[..i];
    }
  }

  lemma RemoveFirstAppendFresh<T>(s: seq<T>, x: T)
    requires x !in s
    ensures RemoveFirst(s + [x], x) == s
  {
    var i := IndexOf(s + [x], x);
    assert forall j :: 0 <= j < |s| ==> (s + [x])[j] == s[j];
    assert (s + [x])[..|s|] == s;
  }

  // ---------------------------------------------------------------------
  // Well-formed registries

  /** A typed list is well formed when every wrapper lives in the list of its
      own kind and component, every id is below the counter, and ids increase
      along the list (so a wrapper occurs at most once). */
  predicate ListOk(ws: seq<Wrapper>, k: EventKind, c: int, next: nat)
  {
    && (forall i :: 0 <= i < |ws| ==> ws[i].kind == k && ws[i].componentId == c && ws[i].id < next)
    && (forall i, j :: 0 <= i < j < |ws| ==> ws[i].id < ws[j].id)
  }

  ghost predicate WellFormed(s: ComponentSubscribers)
  {
    forall k: EventKind, c: int :: c in s.Of(k).typed ==> ListOk(s.Of(k).typed[c], k, c, s.nextWrapper)
  }

  lemma ListOkRaise(ws: seq<Wrapper>, k: EventKind, c: int, next: nat, next': nat)
    requires ListOk(ws, k, c, next) && next <= next'
    ensures ListOk(ws, k, c, next')
  {
  }

  lemma ListOkRemove(ws: seq<Wrapper>, k: EventKind, c: int, next: nat, x: Wrapper)
    requires ListOk(ws, k, c, next)
    ensures ListOk(RemoveFirst(ws, x), k, c, next)
  {
    var i := IndexOf(ws, x);
    if i < |ws| {
      var r := RemoveFirst(ws, x);
      assert r == ws[..i] + ws[i + 1..];
      assert forall a :: 0 <= a < |r| ==> r[a] == ws[if a < i then a else a + 1];
      forall a, b | 0 <= a < b < |r|
        ensures r[a].id < r[b].id
      {
        var a', b' := (if a < i then a else a + 1), (if b < i then b else b + 1);
        assert r[a] == ws[a'] && r[b] == ws[b'] && a' < b';
      }
    }
  }

  /** A well-formed list holds `w` at most once, so removing it removes it entirely. */
  lemma ListOkRemoveAll(ws: seq<Wrapper>, k: EventKind, c: int, next: nat, w: Wrapper)
    requires ListOk(ws, k, c, next)
    ensures w !in RemoveFirst(ws, w)
  {
    var i := IndexOf(ws, w);
    if i < |ws| {
      var r := RemoveFirst(ws, w);
      assert r == ws[..i] + ws[i + 1..];
      forall a | 0 <= a < |r|
        ensures r[a] != w
      {
        if a < i {
          assert r[a] == ws[..i][a];
        } else {
          assert r[a] == ws[a + 1] && ws[i].id < ws[a + 1].id;
        }
      }
    }
  }

  // ---------------------------------------------------------------------
  // Subscribe and unsubscribe

  /** `On{Init,Update,Remove}Component(callback)`: append a wildcard callback. */
  function OnAnyComponent(s: ComponentSubscribers, k: EventKind, cb: Callback): (r: (ComponentSubscribers, Unsubscriber))
    ensures r.0.Of(k).any == s.Of(k).any + [cb]
    ensures r.0.Of(k).typed == s.Of(k).typed && r.0.nextWrapper == s.nextWrapper
    ensures forall k' :: k' != k ==> r.0.Of(k') == s.Of(k')
    ensures r.1 == RemoveAny(k, cb)
    ensures WellFormed(s) ==> WellFormed(r.0)
  {
    var ks := s.Of(k);
    (s.With(k, ks.(any := ks.any + [cb])), RemoveAny(k, cb))
  }

  /** `On{Init,Update,Remove}Component<T>(callback)` for the component type
      whose id is `c`: create the list if absent, append a fresh wrapper. */
  function OnComponent(s: ComponentSubscribers, k: EventKind, c: int, cb: Callback): (r: (ComponentSubscribers, Unsubscriber))
    ensures var w := Wrapper(s.nextWrapper, k, c, cb);
      && r.1 == RemoveTyped(w)
      && c in r.0.Of(k).typed
      && r.0.Of(k).typed[c] == TypedList(s.Of(k), c) + [w]
      && (WellFormed(s) ==> w !in TypedList(s.Of(k), c))
    ensures forall c' :: c' != c ==> TypedList(r.0.Of(k), c') == TypedList(s.Of(k), c')
    ensures r.0.Of(k).any == s.Of(k).any
    ensures forall k' :: k' != k ==> r.0.Of(k') == s.Of(k')
    ensures r.0.nextWrapper == s.nextWrapper + 1
    ensures WellFormed(s) ==> WellFormed(r.0)
  {
    var ks := s.Of(k);
    var w := Wrapper(s.nextWrapper, k, c, cb);
    var ks' := ks.(typed := ks.typed[c := TypedList(ks, c) + [w]]);
    var s' := s.With(k, ks').(nextWrapper := s.nextWrapper + 1);
    OnComponentWellFormed(s, k, c, w, s');
    (s', RemoveTyped(w))
  }

  lemma OnComponentWellFormed(s: ComponentSubscribers, k: EventKind, c: int, w: Wrapper, s': ComponentSubscribers)
    requires w == Wrapper(s.nextWrapper, k, c, w.callback)
    requires s' == s.With(k, s.Of(k).(typed := s.Of(k).typed[c := TypedList(s.Of(k), c) + [w]])).(nextWrapper := s.nextWrapper + 1)
    ensures WellFormed(s) ==> WellFormed(s') && w !in TypedList(s.Of(k), c)
  {
    var ks := s.Of(k);
    if WellFormed(s) {
      if c in ks.typed {
        assert ListOk(ks.typed[c], k, c, s.nextWrapper);
      }
      assert ListOk(TypedList(ks, c), k, c, s.nextWrapper);
      forall k1: EventKind, c1: int | c1 in s'.Of(k1).typed
        ensures ListOk(s'.Of(k1).typed[c1], k1, c1, s'.nextWrapper)
      {
        if k1 != k || c1 != c {
          assert ListOk(s.Of(k1).typed[c1], k1, c1, s.nextWrapper);
          ListOkRaise(s.Of(k1).typed[c1], k1, c1, s.nextWrapper, s'.nextWrapper);
        }
      }
    }
  }

  /** Run an unsubscribe closure. A typed one only touches the list it was
      registered in, and only when that list exists. */
  function Unsubscribe(s: ComponentSubscribers, u: Unsubscriber): (r: ComponentSubscribers)
    ensures r.nextWrapper == s.nextWrapper
    ensures WellFormed(s) ==> WellFormed(r)
  {
    match u
    case RemoveAny(k, cb) =>
      var ks := s.Of(k);
      s.With(k, ks.(any := RemoveFirst(ks.any, cb)))
    case RemoveTyped(w) =>
      var ks := s.Of(w.kind);
      if w.componentId in ks.typed then
        var r := s.With(w.kind, ks.(typed := ks.typed[w.componentId := RemoveFirst(ks.typed[w.componentId], w)]));
        UnsubscribeTypedWellFormed(s, w, r);
        r
      else s
  }

  lemma UnsubscribeTypedWellFormed(s: ComponentSubscribers, w: Wrapper, r: ComponentSubscribers)
    requires w.componentId in s.Of(w.kind).typed
    requires var ks := s.Of(w.kind);
      r == s.With(w.kind, ks.(typed := ks.typed[w.componentId := RemoveFirst(ks.typed[w.componentId], w)]))
    ensures WellFormed(s) ==> WellFormed(r)
  {
    if WellFormed(s) {
      forall k1: EventKind, c1: int | c1 in r.Of(k1).typed
        ensures ListOk(r.Of(k1).typed[c1], k1, c1, r.nextWrapper)
      {
        assert ListOk(s.Of(k1).typed[c1], k1, c1, s.nextWrapper);
        if k1 == w.kind && c1 == w.componentId {
          ListOkRemove(s.Of(k1).typed[c1], k1, c1, s.nextWrapper, w);
        }
      }
    }
  }

  // ---------------------------------------------------------------------
  // Dispatch

  function TypedCalls(ws: seq<Wrapper>, entity: int, v: ComponentValue): (r: seq<Invocation>)
    ensures |r| == |ws|
    ensures forall i :: 0 <= i < |ws| ==> r[i] == TypedCall(ws[i], entity, v)
  {
    seq(|ws|, i requires 0 <= i < |ws| => TypedCall(ws[i], entity, v))
  }

  function AnyCalls(k: EventKind, cbs: seq<Callback>, entity: int, c: int, v: ComponentValue): (r: seq<Invocation>)
    ensures |r| == |cbs|
    ensures forall i :: 0 <= i < |cbs| ==> r[i] == AnyCall(k, cbs[i], entity, c, v)
  {
    seq(|cbs|, i requires 0 <= i < |cbs| => AnyCall(k, cbs[i], entity, c, v))
  }

  /** `On{Init,Update,Remove}ComponentHandler` after decoding: the invocations
      for one event of kind `k` on entity `entity`, component id `c`, value `v`. */
  function Dispatch(s: ComponentSubscribers, k: EventKind, entity: int, c: int, v: ComponentValue): seq<Invocation>
  {
    TypedCalls(TypedList(s.Of(k), c), entity, v) + AnyCalls(k, s.Of(k).any, entity, c, v)
  }

  /** Typed subscribers for the event's component run first, in registration
      order, then every wildcard subscriber, in registration order; every
      invocation carries the same entity and component value. */
  lemma DispatchOrder(s: ComponentSubscribers, k: EventKind, entity: int, c: int, v: ComponentValue)
    ensures var t := Dispatch(s, k, entity, c, v);
      var ws := TypedList(s.Of(k), c);
      var any := s.Of(k).any;
      && |t| == |ws| + |any|
      && (forall i :: 0 <= i < |ws| ==> t[i] == TypedCall(ws[i], entity, v))
      && (forall j :: 0 <= j < |any| ==> t[|ws| + j] == AnyCall(k, any[j], entity, c, v))
      && (forall i, j :: 0 <= i < j < |t| && t[j].TypedCall? ==> t[i].TypedCall?)
  {
    var t := Dispatch(s, k, entity, c, v);
    var ws := TypedList(s.Of(k), c);
    var any := s.Of(k).any;
    var tc, ac := TypedCalls(ws, entity, v), AnyCalls(k, any, entity, c, v);
    assert t == tc + ac;
    forall j | 0 <= j < |any|
      ensures t[|ws| + j] == AnyCall(k, any[j], entity, c, v)
    {
      assert t[|ws| + j] == ac[j];
    }
    forall i | 0 <= i < |ws|
      ensures t[i].TypedCall?
    {
      assert t[i] == tc[i];
    }
    forall j | |ws| <= j < |t|
      ensures t[j].AnyCall?
    {
      assert t[j] == ac[j - |ws|];
    }
  }

  /** In a well-formed registry, a handler never invokes a wrapper registered
      for another component id or another event kind. */
  lemma DispatchOnlyMatching(s: ComponentSubscribers, k: EventKind, entity: int, c: int, v: ComponentValue)
    requires WellFormed(s)
    ensures forall inv :: inv in Dispatch(s, k, entity, c, v) && inv.TypedCall? ==>
      inv.wrapper.kind == k && inv.wrapper.componentId == c && inv.component == v
    ensures forall inv :: inv in Dispatch(s, k, entity, c, v) ==> inv.TypedCall? || inv.AnyCall?
  {
    var t := Dispatch(s, k, entity, c, v);
    var ws := TypedList(s.Of(k), c);
    if c in s.Of(k).typed {
      assert ListOk(ws, k, c, s.nextWrapper);
    }
    forall inv | inv in t
      ensures inv.TypedCall? ==> inv.wrapper.kind == k && inv.wrapper.componentId == c && inv.component == v
      ensures inv.TypedCall? || inv.AnyCall?
    {
      var i :| 0 <= i < |t| && t[i] == inv;
      if i < |ws| {
        assert inv == TypedCall(ws[i], entity, v);
      } else {
        assert inv == AnyCall(k, s.Of(k).any[i - |ws|], entity, c, v);
      }
    }
  }

  /** A wildcard subscription adds exactly one invocation, at the end. */
  lemma DispatchAfterOnAny(s: ComponentSubscribers, k: EventKind, cb: Callback, entity: int, c: int, v: ComponentValue)
    ensures Dispatch(OnAnyComponent(s, k, cb).0, k, entity, c, v)
         == Dispatch(s, k, entity, c, v) + [AnyCall(k, cb, entity, c, v)]
  {
    var s' := OnAnyComponent(s, k, cb).0;
    assert AnyCalls(k, s'.Of(k).any, entity, c, v) == AnyCalls(k, s.Of(k).any, entity, c, v) + [AnyCall(k, cb, entity, c, v)];
  }

  /** A typed subscription adds exactly one invocation, after the typed
      wrappers already registered for that component and before every
      wildcard callback; events on other component ids are unaffected. */
  lemma DispatchAfterOnComponent(s: ComponentSubscribers, k: EventKind, c: int, cb: Callback, entity: int, c': int, v: ComponentValue)
    ensures var (s', u) := OnComponent(s, k, c, cb);
      Dispatch(s', k, entity, c', v)
      == if c' == c
         then TypedCalls(TypedList(s.Of(k), c), entity, v) + [TypedCall(u.wrapper, entity, v)]
              + AnyCalls(k, s.Of(k).any, entity, c, v)
         else Dispatch(s, k, entity, c', v)
  {
    var (s', u) := OnComponent(s, k, c, cb);
    if c' == c {
      assert TypedCalls(TypedList(s'.Of(k), c), entity, v)
          == TypedCalls(TypedList(s.Of(k), c), entity, v) + [TypedCall(u.wrapper, entity, v)];
    }
  }

  /** Subscribing a typed callback and then running its unsubscriber leaves
      every later dispatch trace as if it had never been registered. */
  lemma TypedSubscribeUnsubscribeRestores(s: ComponentSubscribers, k: EventKind, c: int, cb: Callback,
                                          k': EventKind, entity: int, c': int, v: ComponentValue)
    requires WellFormed(s)
    ensures var (s', u) := OnComponent(s, k, c, cb);
      Dispatch(Unsubscribe(s', u), k', entity, c', v) == Dispatch(s, k', entity, c', v)
  {
    var (s', u) := OnComponent(s, k, c, cb);
    TypedRoundTrip(s, k, c, cb);
    var r := Unsubscribe(s', u);
    if k' == k {
      assert TypedList(r.Of(k), c') == TypedList(s.Of(k), c');
    }
  }

  /** The registry-level half of the round trip: every list reads as before. */
  lemma TypedRoundTrip(s: ComponentSubscribers, k: EventKind, c: int, cb: Callback)
    requires WellFormed(s)
    ensures var (s', u) := OnComponent(s, k, c, cb);
      var r := Unsubscribe(s', u);
      && r.Of(k).any == s.Of(k).any
      && (forall c2 :: TypedList(r.Of(k), c2) == TypedList(s.Of(k), c2))
      && (forall k2 :: k2 != k ==> r.Of(k2) == s.Of(k2))
  {
    var p := OnComponent(s, k, c, cb);
    FreshRoundTrip(s, k, c, cb);
  }

  lemma FreshRoundTrip(s: ComponentSubscribers, k: EventKind, c: int, cb: Callback)
    requires Wrapper(s.nextWrapper, k, c, cb) !in TypedList(s.Of(k), c)
    ensures var p := OnComponent(s, k, c, cb);
      var r := Unsubscribe(p.0, p.1);
      && r.Of(k).any == s.Of(k).any
      && (forall c2 :: TypedList(r.Of(k), c2) == TypedList(s.Of(k), c2))
      && (forall k2 :: k2 != k ==> r.Of(k2) == s.Of(k2))
  {
    var p := OnComponent(s, k, c, cb);
    var s' := p.0;
    var ks' := s'.Of(k);
    var r := s'.With(k, ks'.(typed := ks'.typed[c := TypedList(s.Of(k), c)]));
    FreshUnsubscribe(s, k, c, cb);
    forall c2
      ensures TypedList(r.Of(k), c2) == TypedList(s.Of(k), c2)
    {
      if c2 != c {
        assert TypedList(s'.Of(k), c2) == TypedList(s.Of(k), c2);
      }
    }
  }

  /** Unsubscribing a fresh wrapper puts its component's list back. */
  lemma FreshUnsubscribe(s: ComponentSubscribers, k: EventKind, c: int, cb: Callback)
    requires Wrapper(s.nextWrapper, k, c, cb) !in TypedList(s.Of(k), c)
    ensures var p := OnComponent(s, k, c, cb);
      var ks' := p.0.Of(k);
      Unsubscribe(p.0, p.1) == p.0.With(k, ks'.(typed := ks'.typed[c := TypedList(s.Of(k), c)]))
  {
    var p := OnComponent(s, k, c, cb);
    var w := p.1.wrapper;
    var before := TypedList(s.Of(k), c);
    var ks' := p.0.Of(k);
    assert p.1 == RemoveTyped(w) && w.kind == k && w.componentId == c;
    RemoveFirstAppendFresh(before, w);
    assert c in ks'.typed && ks'.typed[c] == before + [w];
  }

  /** `w` can no longer be invoked: it is in no list and the counter is past it. */
  ghost predicate Gone(s: ComponentSubscribers, w: Wrapper)
  {
    && w.id < s.nextWrapper
    && forall k: EventKind, c: int :: c in s.Of(k).typed ==> w !in s.Of(k).typed[c]
  }

  /** A typed unsubscriber removes its own wrapper and nothing else: the
      wrapper disappears from every list, its list loses exactly that one
      element, and every other list is unchanged. */
  lemma UnsubscribeRemovesExactlyItsWrapper(s: ComponentSubscribers, w: Wrapper)
    requires WellFormed(s) && w.id < s.nextWrapper
    ensures var r := Unsubscribe(s, RemoveTyped(w));
      && Gone(r, w)
      && TypedList(r.Of(w.kind), w.componentId) == RemoveFirst(TypedList(s.Of(w.kind), w.componentId), w)
      && multiset(TypedList(r.Of(w.kind), w.componentId))
         == multiset(TypedList(s.Of(w.kind), w.componentId)) - multiset{w}
      && r.Of(w.kind).any == s.Of(w.kind).any
      && (forall c :: c != w.componentId ==> TypedList(r.Of(w.kind), c) == TypedList(s.Of(w.kind), c))
      && (forall k :: k != w.kind ==> r.Of(k) == s.Of(k))
  {
    var r := Unsubscribe(s, RemoveTyped(w));
    var ks := s.Of(w.kind);
    UnsubscribeTouchedList(s, w);
    if w.componentId in ks.typed {
      ListOkRemoveAll(ks.typed[w.componentId], w.kind, w.componentId, s.nextWrapper, w);
    }
    forall k: EventKind, c: int | c in r.Of(k).typed
      ensures w !in r.Of(k).typed[c]
    {
      if !(k == w.kind && c == w.componentId) {
        var l := s.Of(k).typed[c];
        assert ListOk(l, k, c, s.nextWrapper);
        assert forall i :: 0 <= i < |l| ==> l[i] != w;
      }
    }
  }

  /** The list a typed unsubscriber touches is `RemoveFirst` of its wrapper. */
  lemma UnsubscribeTouchedList(s: ComponentSubscribers, w: Wrapper)
    ensures TypedList(Unsubscribe(s, RemoveTyped(w)).Of(w.kind), w.componentId)
         == RemoveFirst(TypedList(s.Of(w.kind), w.componentId), w)
  {
    var r := Unsubscribe(s, RemoveTyped(w));
    var ks := s.Of(w.kind);
    if w.componentId in ks.typed {
      assert r.Of(w.kind).typed[w.componentId] == RemoveFirst(ks.typed[w.componentId], w);
    } else {
      assert r == s;
    }
  }

  /** Once gone, a wrapper stays gone whatever is subscribed or unsubscribed
      later, and running its unsubscriber again changes nothing. */
  lemma GoneStaysGone(s: ComponentSubscribers, w: Wrapper, k: EventKind, c: int, cb: Callback, u: Unsubscriber)
    requires Gone(s, w)
    ensures Gone(OnAnyComponent(s, k, cb).0, w)
    ensures Gone(OnComponent(s, k, c, cb).0, w)
    ensures Gone(Unsubscribe(s, u), w)
    ensures Unsubscribe(s, RemoveTyped(w)) == s
  {
    var s1 := OnComponent(s, k, c, cb).0;
    forall k1: EventKind, c1: int | c1 in s1.Of(k1).typed
      ensures w !in s1.Of(k1).typed[c1]
    {
      if k1 == k && c1 == c {
        assert s1.Of(k).typed[c] == TypedList(s.Of(k), c) + [Wrapper(s.nextWrapper, k, c, cb)];
      } else if k1 == k {
        assert TypedList(s1.Of(k), c1) == TypedList(s.Of(k), c1);
      }
    }
    var s2 := Unsubscribe(s, u);
    if u.RemoveTyped? {
      var ks := s.Of(u.wrapper.kind);
      if u.wrapper.componentId in ks.typed {
        forall k1: EventKind, c1: int | c1 in s2.Of(k1).typed
          ensures w !in s2.Of(k1).typed[c1]
        {
          if k1 == u.wrapper.kind && c1 == u.wrapper.componentId {
            var l := ks.typed[c1];
            var i := IndexOf(l, u.wrapper);
            if i < |l| {
              assert s2.Of(k1).typed[c1] == l[..i] + l[i + 1..];
              assert w !in l;
              assert forall x :: x in l[..i] + l[i + 1..] ==> x in l;
            }
          }
        }
      }
    }
    var ks := s.Of(w.kind);
    if w.componentId in ks.typed {
      assert ks.typed[w.componentId := ks.typed[w.componentId]] == ks.typed;
    }
  }

  /** A gone wrapper is never invoked. */
  lemma GoneNeverInvoked(s: ComponentSubscribers, w: Wrapper, k: EventKind, entity: int, c: int, v: ComponentValue)
    requires Gone(s, w)
    ensures forall inv :: inv in Dispatch(s, k, entity, c, v) ==> !(inv.TypedCall? && inv.wrapper == w)
  {
    var t := Dispatch(s, k, entity, c, v);
    var ws := TypedList(s.Of(k), c);
    forall inv | inv in t
      ensures !(inv.TypedCall? && inv.wrapper == w)
    {
      var i :| 0 <= i < |t| && t[i] == inv;
      if i < |ws| {
        assert inv.wrapper == ws[i];
        assert ws[i] in ws;
      }
    }
  }

  /** A wildcard subscribe/unsubscribe pair is invisible when the callback was
      not already registered for that kind. */
  lemma AnySubscribeUnsubscribeRestores(s: ComponentSubscribers, k: EventKind, cb: Callback)
    requires cb !in s.Of(k).any
    ensures var (s', u) := OnAnyComponent(s, k, cb);
      Unsubscribe(s', u) == s
  {
    var (s', u) := OnAnyComponent(s, k, cb);
    RemoveFirstAppendFresh(s.Of(k).any, cb);
    var r := Unsubscribe(s', u);
    assert r.Of(k) == s.Of(k);
    assert forall k2 :: r.Of(k2) == s.Of(k2);
  }

  /** When the same wildcard callback was already registered for the kind,
      its unsubscriber removes the earliest registration instead of the one it
      came with: the callback keeps firing, now last in the wildcard order. */
  lemma AnyUnsubscribeRemovesEarliest(s: ComponentSubscribers, k: EventKind, cb: Callback)
    requires cb in s.Of(k).any
    ensures var (s', u) := OnAnyComponent(s, k, cb);
      var any := Unsubscribe(s', u).Of(k).any;
      var a := s.Of(k).any;
      && any == RemoveFirst(a, cb) + [cb]
      && (exists i :: 0 <= i < |a| && a[i] == cb && cb !in a[..i] && any == a[..i] + a[i + 1..] + [cb])
      && |any| == |a|
      && any[|any| - 1] == cb
  {
    var a := s.Of(k).any;
    IndexOfAppend(a, [cb], cb);
    var i := IndexOf(a, cb);
    assert (a + [cb])[..i] == a[..i];
    assert (a + [cb])[i + 1..] == a[i + 1..] + [cb];
    assert a[..i] + (a[i + 1..] + [cb]) == a[..i] + a[i + 1..] + [cb];
  }

  // ---------------------------------------------------------------------
  // Async error and connect subscribers

  datatype AsyncSubscribers = AsyncSubscribers(errors: seq<Callback>, connects: seq<Callback>)

  const NoAsyncSubscribers := AsyncSubscribers([], [])

  datatype AsyncUnsubscriber = RemoveError(callback: Callback) | RemoveConnect(callback: Callback)

  /** `Async.OnError`: append, return the remover. */
  function OnError(a: AsyncSubscribers, cb: Callback): (r: (AsyncSubscribers, AsyncUnsubscriber))
    ensures r.0.errors == a.errors + [cb] && r.0.connects == a.connects
    ensures r.1 == RemoveError(cb)
  {
    (a.(errors := a.errors + [cb]), RemoveError(cb))
  }

  /** `Async.OnConnect`: append, return the remover. */
  function OnConnect(a: AsyncSubscribers, cb: Callback): (r: (AsyncSubscribers, AsyncUnsubscriber))
    ensures r.0.connects == a.connects + [cb] && r.0.errors == a.errors
    ensures r.1 == RemoveConnect(cb)
  {
    (a.(connects := a.connects + [cb]), RemoveConnect(cb))
  }

  function UnsubscribeAsync(a: AsyncSubscribers, u: AsyncUnsubscriber): AsyncSubscribers
  {
    match u
    case RemoveError(cb) => a.(errors := RemoveFirst(a.errors, cb))
    case RemoveConnect(cb) => a.(connects := RemoveFirst(a.connects, cb))
  }

  /** `OnErrorHandler`: every error callback in registration order, with the
      native error code and request id unchanged. */
  function ErrorTrace(a: AsyncSubscribers, err: int, requestId: int): (t: seq<Invocation>)
    ensures |t| == |a.errors|
    ensures forall i :: 0 <= i < |t| ==> t[i] == ErrorCall(a.errors[i], err, requestId)
  {
    seq(|a.errors|, i requires 0 <= i < |a.errors| => ErrorCall(a.errors[i], err, requestId))
  }

  /** `OnConnectHandler`: every connect callback in registration order, with
      the native address and port unchanged. */
  function ConnectTrace(a: AsyncSubscribers, address: string, port: int): (t: seq<Invocation>)
    ensures |t| == |a.connects|
    ensures forall i :: 0 <= i < |t| ==> t[i] == ConnectCall(a.connects[i], address, port)
  {
    seq(|a.connects|, i requires 0 <= i < |a.connects| => ConnectCall(a.connects[i], address, port))
  }

  /** `OnActionCommittedHandler` resolves its owner and invokes nobody. */
  function ActionCommittedTrace(a: AsyncSubscribers): (t: seq<Invocation>)
  {
    []
  }

  /** An error subscription adds one invocation at the end of the error
      trace; its remover takes it back out when the callback was new. */
  lemma ErrorSubscribeThenUnsubscribe(a: AsyncSubscribers, cb: Callback, err: int, requestId: int)
    ensures ErrorTrace(OnError(a, cb).0, err, requestId) == ErrorTrace(a, err, requestId) + [ErrorCall(cb, err, requestId)]
    ensures cb !in a.errors ==> UnsubscribeAsync(OnError(a, cb).0, OnError(a, cb).1) == a
  {
    var a' := OnError(a, cb).0;
    var t, t' := ErrorTrace(a, err, requestId), ErrorTrace(a', err, requestId);
    assert t' == t + [ErrorCall(cb, err, requestId)];
    if cb !in a.errors {
      RemoveFirstAppendFresh(a.errors, cb);
    }
  }

  /** The same for connect subscriptions. */
  lemma ConnectSubscribeThenUnsubscribe(a: AsyncSubscribers, cb: Callback, address: string, port: int)
    ensures ConnectTrace(OnConnect(a, cb).0, address, port) == ConnectTrace(a, address, port) + [ConnectCall(cb, address, port)]
    ensures cb !in a.connects ==> UnsubscribeAsync(OnConnect(a, cb).0, OnConnect(a, cb).1) == a
  {
    var a' := OnConnect(a, cb).0;
    var t, t' := ConnectTrace(a, address, port), ConnectTrace(a', address, port);
    assert t' == t + [ConnectCall(cb, address, port)];
    if cb !in a.connects {
      RemoveFirstAppendFresh(a.connects, cb);
    }
  }
}
