/** `Registrar<TRegistrable>`: a map from view type to handler type that
    resolves a view type through its base-type chain, falls back to the view's
    `RenderWithAttribute`, and memoises what it found, a null included. */
module Handlers {
  import opened Reflection

  /** The `_handlers` dictionary. A key that is absent was never registered or
      looked up; an entry `None` is a cached null ("known to have no
      handler"), which is a real value. */
  type HandlerMap = map<TypeRef, Option<TypeRef>>

  /** What the base-chain lookup finds: the entry of the nearest type that
      has one, or nothing. */
  datatype Lookup = Miss | Hit(entry: Option<TypeRef>)

  /** `viewType, BaseType, BaseType of BaseType, ...` up to the root. */
  function Chain(ts: TypeSystem, t: TypeRef): (c: seq<TypeRef>)
    requires ts.Valid()
    ensures |c| >= 1 && c[0] == t
    ensures forall i :: 0 <= i < |c| - 1 ==> ts.BaseType(c[i]) == Some(c[i + 1])
    ensures ts.BaseType(c[|c| - 1]) == None
    decreases ts.Depth(t)
  {
    match ts.BaseType(t)
    case None => [t]
    case Some(b) => [t] + Chain(ts, b)
  }

  /** The entry of the first type in `chain` that is a key of `handlers`. */
  function FirstHit(handlers: HandlerMap, chain: seq<TypeRef>): (r: Lookup)
    ensures r.Miss? <==> forall i :: 0 <= i < |chain| ==> chain[i] !in handlers
    ensures forall i :: 0 <= i < |chain| && chain[i] in handlers
                        && (forall j :: 0 <= j < i ==> chain[j] !in handlers)
                        ==> r == Hit(handlers[chain[i]])
  {
    if |chain| == 0 then Miss
    else if chain[0] in handlers then Hit(handlers[chain[0]])
    else FirstHit(handlers, chain[1..])
  }

  /** The `RenderWithAttribute` fallback of `GetHandlerType`: the attribute's
      target, unless it is a placeholder, in which case the placeholder's own
      attribute is tried once; a candidate that is still a placeholder gives
      null. */
  function ResolveByAttribute(ts: TypeSystem, viewType: TypeRef): (r: Option<TypeRef>)
    ensures r.Some? ==> !IsPlaceholder(r.value)
    ensures r.Some? ==> r == ts.RenderWith(viewType)
                        || (ts.RenderWith(viewType).Some? && r == ts.RenderWith(ts.RenderWith(viewType).value))
    ensures ts.RenderWith(viewType).None? ==> r.None?
    ensures ts.RenderWith(viewType).Some? && !IsPlaceholder(ts.RenderWith(viewType).value)
            ==> r == ts.RenderWith(viewType)
  {
    match ts.RenderWith(viewType)
    case None => None
    case Some(target) =>
      if !IsPlaceholder(target) then Some(target)
      else
        var candidate := match ts.RenderWith(target) case Some(second) => second case None => target;
        if IsPlaceholder(candidate) then None else Some(candidate)
  }

  /** The handler a `GetHandlerType` call returns and the map it leaves. */
  datatype Resolution = Resolution(handler: Option<TypeRef>, handlers: HandlerMap)

  function Resolve(handlers: HandlerMap, ts: TypeSystem, viewType: TypeRef): Resolution
    requires ts.Valid()
  {
    match FirstHit(handlers, Chain(ts, viewType))
    case Hit(entry) => Resolution(entry, handlers)
    case Miss =>
      var found := ResolveByAttribute(ts, viewType);
      Resolution(found, handlers[viewType := found])
  }

  /** Hierarchy precedence: the nearest type of the chain that has an entry
      decides, even when that entry is a cached null, and nothing is added
      for the view type or for the ancestors in between. */
  lemma ResolveNearestEntry(handlers: HandlerMap, ts: TypeSystem, viewType: TypeRef, i: nat)
    requires ts.Valid()
    requires i < |Chain(ts, viewType)| && Chain(ts, viewType)[i] in handlers
    requires forall j :: 0 <= j < i ==> Chain(ts, viewType)[j] !in handlers
    ensures Resolve(handlers, ts, viewType) == Resolution(handlers[Chain(ts, viewType)[i]], handlers)
  {
  }

  /** On a miss the attribute outcome, null or a type, is cached under the
      view type itself and returned. */
  lemma ResolveMissCaches(handlers: HandlerMap, ts: TypeSystem, viewType: TypeRef)
    requires ts.Valid()
    requires forall j :: 0 <= j < |Chain(ts, viewType)| ==> Chain(ts, viewType)[j] !in handlers
    ensures Resolve(handlers, ts, viewType).handler == ResolveByAttribute(ts, viewType)
    ensures Resolve(handlers, ts, viewType).handlers
            == handlers[viewType := ResolveByAttribute(ts, viewType)]
    ensures viewType !in handlers
  {
  }

  /** Resolution never changes an existing entry; the only key it may add is
      the view type, and on a miss it always adds it. */
  lemma ResolveKeepsEntries(handlers: HandlerMap, ts: TypeSystem, viewType: TypeRef)
    requires ts.Valid()
    ensures forall k :: k in handlers ==>
              k in Resolve(handlers, ts, viewType).handlers && Resolve(handlers, ts, viewType).handlers[k] == handlers[k]
    ensures Resolve(handlers, ts, viewType).handlers.Keys <= handlers.Keys + {viewType}
    ensures FirstHit(handlers, Chain(ts, viewType)).Miss?
            ==> viewType in Resolve(handlers, ts, viewType).handlers
  {
  }

  /** Memoisation: a second resolution of the same view type, with no
      register in between, hits in the lookup (the attribute is not read
      again), returns the same handler and changes nothing. */
  lemma ResolveIsMemoised(handlers: HandlerMap, ts: TypeSystem, viewType: TypeRef)
    requires ts.Valid()
    ensures var r := Resolve(handlers, ts, viewType);
            FirstHit(r.handlers, Chain(ts, viewType)) == Hit(r.handler)
            && Resolve(r.handlers, ts, viewType) == r
  {
  }

  /** Every chain is the chain of its first type: the chain of any type on
      it is the rest of it from there. */
  lemma {:induction false} ChainSuffix(ts: TypeSystem, t: TypeRef, k: nat)
    requires ts.Valid() && k < |Chain(ts, t)|
    ensures Chain(ts, Chain(ts, t)[k]) == Chain(ts, t)[k..]
    decreases ts.Depth(t)
  {
    match ts.BaseType(t)
    case None =>
    case Some(b) =>
      if k > 0 {
        ChainSuffix(ts, b, k - 1);
        ConsSuffix(t, Chain(ts, b), k);
      }
  }

  /** Index `k > 0` and the suffix from `k` of `[x] + rest` are those of
      `rest` from `k - 1`. */
  lemma ConsSuffix<T>(x: T, rest: seq<T>, k: nat)
    requires 0 < k <= |rest|
    ensures ([x] + rest)[k] == rest[k - 1]
    ensures ([x] + rest)[k..] == rest[k - 1..]
  {
  }

  /** Some type on `chain` is a key, so there is a first one. */
  lemma FirstKeyAt(handlers: HandlerMap, chain: seq<TypeRef>, k: nat) returns (i: nat)
    requires k < |chain| && chain[k] in handlers
    ensures i <= k && chain[i] in handlers
    ensures forall j :: 0 <= j < i ==> chain[j] !in handlers
  {
    i := 0;
    while chain[i] !in handlers
      invariant i <= k
      invariant forall j :: 0 <= j < i ==> chain[j] !in handlers
      decreases k - i
    {
      i := i + 1;
    }
  }

  /** A view type whose own chain misses entirely is not on the chain of
      `viewType` up to that chain's first key. */
  lemma MissNotBeforeHit(handlers: HandlerMap, ts: TypeSystem, viewType: TypeRef, other: TypeRef, i: nat)
    requires ts.Valid() && FirstHit(handlers, Chain(ts, other)).Miss?
    requires i < |Chain(ts, viewType)| && Chain(ts, viewType)[i] in handlers
    ensures forall j :: 0 <= j <= i ==> Chain(ts, viewType)[j] != other
  {
    var chain := Chain(ts, viewType);
    forall j | 0 <= j <= i
      ensures i - j < |Chain(ts, chain[j])| && Chain(ts, chain[j])[i - j] == chain[i]
    {
      ChainSuffix(ts, viewType, j);
    }
  }

  /** Resolving any view type keeps the lookup of another one that already
      hits: the same entry is found, so the attribute is not read again. */
  lemma ResolvePreservesHit(handlers: HandlerMap, ts: TypeSystem, viewType: TypeRef, other: TypeRef)
    requires ts.Valid() && FirstHit(handlers, Chain(ts, viewType)).Hit?
    ensures FirstHit(Resolve(handlers, ts, other).handlers, Chain(ts, viewType))
            == FirstHit(handlers, Chain(ts, viewType))
  {
    var chain := Chain(ts, viewType);
    var k :| 0 <= k < |chain| && chain[k] in handlers;
    var i := FirstKeyAt(handlers, chain, k);
    if FirstHit(handlers, Chain(ts, other)).Miss? {
      MissNotBeforeHit(handlers, ts, viewType, other, i);
      FirstHitPastNewKey(handlers, chain, i, other, ResolveByAttribute(ts, other));
    }
  }

  /** Adding a key that is not on `chain` up to its first key does not change
      what the lookup finds. */
  lemma FirstHitPastNewKey(handlers: HandlerMap, chain: seq<TypeRef>, i: nat, key: TypeRef, value: Option<TypeRef>)
    requires i < |chain| && chain[i] in handlers
    requires forall j :: 0 <= j < i ==> chain[j] !in handlers
    requires forall j :: 0 <= j <= i ==> chain[j] != key
    ensures FirstHit(handlers[key := value], chain) == FirstHit(handlers, chain)
  {
    var after := handlers[key := value];
    assert chain[i] in after && after[chain[i]] == handlers[chain[i]];
    assert forall j :: 0 <= j < i ==> chain[j] !in after;
  }

  /** The map after `GetHandlerType` of each view type in `views`, in turn. */
  function ResolveEach(handlers: HandlerMap, ts: TypeSystem, views: seq<TypeRef>): HandlerMap
    requires ts.Valid()
    decreases |views|
  {
    if |views| == 0 then handlers
    else ResolveEach(Resolve(handlers, ts, views[0]).handlers, ts, views[1..])
  }

  /** Memoisation across other lookups: once `viewType` is resolved, any
      number of `GetHandlerType` calls for other view types, with no
      `Register` in between, leave it resolving to the same handler without
      reading its attribute again or changing the map. */
  lemma {:induction false} ResolveIsMemoisedAcross(handlers: HandlerMap, ts: TypeSystem, viewType: TypeRef, views: seq<TypeRef>)
    requires ts.Valid()
    ensures var r := Resolve(handlers, ts, viewType);
            var later := ResolveEach(r.handlers, ts, views);
            FirstHit(later, Chain(ts, viewType)) == Hit(r.handler)
            && Resolve(later, ts, viewType) == Resolution(r.handler, later)
  {
    var r := Resolve(handlers, ts, viewType);
    ResolveIsMemoised(handlers, ts, viewType);
    HitSurvivesResolveEach(r.handlers, ts, viewType, views);
  }

  /** A lookup that hits keeps hitting the same entry across any sequence of
      resolutions. */
  lemma {:induction false} HitSurvivesResolveEach(handlers: HandlerMap, ts: TypeSystem, viewType: TypeRef, views: seq<TypeRef>)
    requires ts.Valid() && FirstHit(handlers, Chain(ts, viewType)).Hit?
    ensures FirstHit(ResolveEach(handlers, ts, views), Chain(ts, viewType)) == FirstHit(handlers, Chain(ts, viewType))
    decreases |views|
  {
    if |views| > 0 {
      ResolvePreservesHit(handlers, ts, viewType, views[0]);
      HitSurvivesResolveEach(Resolve(handlers, ts, views[0]).handlers, ts, viewType, views[1..]);
    }
  }

  /** Override: after `Register(viewType, trender)`, resolving `viewType`
      gives `trender`, whatever was cached for it or its ancestors before. */
  lemma RegisterOverrides(handlers: HandlerMap, ts: TypeSystem, viewType: TypeRef, trender: Option<TypeRef>)
    requires ts.Valid()
    ensures Resolve(handlers[viewType := trender], ts, viewType)
            == Resolution(trender, handlers[viewType := trender])
  {
  }

  /** One extra hop: a placeholder target whose own attribute names a
      non-placeholder type resolves to that type. */
  lemma PlaceholderSecondHop(ts: TypeSystem, viewType: TypeRef, stub: TypeRef, handler: TypeRef)
    requires ts.RenderWith(viewType) == Some(stub) && IsPlaceholder(stub)
    requires ts.RenderWith(stub) == Some(handler) && !IsPlaceholder(handler)
    ensures ResolveByAttribute(ts, viewType) == Some(handler)
  {
  }

  /** No deeper chains: a placeholder target without an attribute of its own,
      or whose attribute names another placeholder, gives null, whatever that
      second placeholder's attribute would name. */
  lemma PlaceholderOneHopOnly(ts: TypeSystem, viewType: TypeRef, stub: TypeRef)
    requires ts.RenderWith(viewType) == Some(stub) && IsPlaceholder(stub)
    requires ts.RenderWith(stub).None? || IsPlaceholder(ts.RenderWith(stub).value)
    ensures ResolveByAttribute(ts, viewType) == None
  {
  }

  class Registrar {
    var handlers: HandlerMap

    constructor()
      ensures handlers == map[]
    {
      handlers := map[];
    }

    /** `_handlers[tview] = trender`, a null `trender` included. */
    method Register(tview: TypeRef, trender: Option<TypeRef>)
      modifies this
      ensures handlers == old(handlers)[tview := trender]
    {
      handlers := handlers[tview := trender];
    }

    method GetHandlerType(ts: TypeSystem, viewType: TypeRef) returns (r: Option<TypeRef>)
      requires ts.Valid()
      modifies this
      ensures Resolution(r, handlers) == Resolve(old(handlers), ts, viewType)
      ensures forall k :: k in old(handlers) ==> k in handlers && handlers[k] == old(handlers)[k]
    {
      ResolveKeepsEntries(handlers, ts, viewType);
      var found, t := LookupHandlerType(ts, viewType);
      if found {
        return t;
      }

      var attribute := ts.RenderWith(viewType);
      if attribute.None? {
        Register(viewType, None);
        return None;
      }

      var candidate := attribute.value;
      if IsPlaceholder(candidate) {
        var attribute2 := ts.RenderWith(candidate);
        if attribute2.Some? {
          candidate := attribute2.value;
        }
        if IsPlaceholder(candidate) {
          Register(viewType, None);
          return None;
        }
      }

      Register(viewType, Some(candidate));
      return Some(candidate);
    }

    /** Walks `viewType` and its base types; reports the entry of the first
      one that is a key, a cached null included, and never changes the map. */
    method LookupHandlerType(ts: TypeSystem, viewType: TypeRef) returns (found: bool, handlerType: Option<TypeRef>)
      requires ts.Valid()
      ensures found <==> FirstHit(handlers, Chain(ts, viewType)).Hit?
      ensures handlerType == if found then FirstHit(handlers, Chain(ts, viewType)).entry else None
    {
      var current: Option<TypeRef> := Some(viewType);
      while current.Some?
        invariant current.Some? ==> FirstHit(handlers, Chain(ts, viewType)) == FirstHit(handlers, Chain(ts, current.value))
        invariant current.None? ==> FirstHit(handlers, Chain(ts, viewType)) == Miss
        decreases if current.Some? then 1 + ts.Depth(current.value) else 0
      {
        var t := current.value;
        if t in handlers {
          return true, handlers[t];
        }
        current := ts.BaseType(t);
      }
      return false, None;
    }
  }
}
