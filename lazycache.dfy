/**
 * The module-level cache that maps each route's loader to its lazy component
 * wrapper, so that repeated navigations reuse one wrapper per loader.
 * `React.lazy` is modelled as a constructor that hands out a new wrapper each
 * time it is called, numbered in call order.
 */
module LazyCache {

  /** The wrapper `React.lazy(loader)` returned on its `serial`-th call. */
  datatype Wrapper<L> = Wrapper(serial: nat, loader: L)

  /**
   * Each cached wrapper was built for its own loader by one of the first
   * `built` calls, no two loaders share a wrapper, and every call built a
   * wrapper that is still cached.
   */
  ghost predicate WellBuilt<L>(cache: map<L, Wrapper<L>>, built: nat) {
    && (forall l :: l in cache ==> cache[l].loader == l && cache[l].serial < built)
    && (forall l, m :: l in cache && m in cache && l != m ==> cache[l].serial != cache[m].serial)
    && |cache.Keys| == built
  }

  /** In a well-built cache, two loaders share a wrapper exactly when they are the same loader. */
  lemma WrapperPerLoader<L>(cache: map<L, Wrapper<L>>, built: nat, l: L, m: L)
    requires WellBuilt(cache, built) && l in cache && m in cache
    ensures cache[l] == cache[m] <==> l == m
  {
    if l != m {
      assert cache[l].serial != cache[m].serial;
    }
  }

  class LoaderCache<L(==)> {
    var cache: map<L, Wrapper<L>>
    /** How many times `React.lazy` has been called. */
    var built: nat

    ghost predicate Valid()
      reads this
    {
      WellBuilt(cache, built)
    }

    /** `new Map()`: empty, and nothing built yet. */
    constructor ()
      ensures Valid()
      ensures cache == map[] && built == 0
    {
      cache := map[];
      built := 0;
    }

    /**
     * `getLazy(loader)`: a hit returns the stored wrapper and changes nothing;
     * a miss builds one wrapper, stores it under `loader` and returns it.
     * Either way `loader` now maps to the returned wrapper and no other entry
     * changed.
     */
    method GetLazy(loader: L) returns (w: Wrapper<L>)
      requires Valid()
      modifies this
      ensures Valid()
      ensures loader in old(cache) ==> w == old(cache)[loader] && cache == old(cache) && built == old(built)
      ensures loader !in old(cache) ==> w == Wrapper(old(built), loader) && cache == old(cache)[loader := w] && built == old(built) + 1
      ensures loader in cache && cache[loader] == w && w.loader == loader
      ensures forall l :: l in old(cache) ==> l in cache && cache[l] == old(cache)[l]
      ensures cache.Keys == old(cache).Keys + {loader}
    {
      if loader in cache {
        w := cache[loader];
        return;
      }
      w := Wrapper(built, loader);
      cache := cache[loader := w];
      built := built + 1;
    }

    /**
     * One render of the route list: `getLazy` on each active tool's loader in
     * turn. Equal loaders get the same wrapper, different loaders different
     * wrappers, earlier entries are kept, and a render whose loaders are all
     * cached already changes nothing.
     */
    method RenderRoutes(loaders: seq<L>) returns (ws: seq<Wrapper<L>>)
      requires Valid()
      modifies this
      ensures Valid()
      ensures |ws| == |loaders|
      ensures forall k :: 0 <= k < |loaders| ==> loaders[k] in cache && ws[k] == cache[loaders[k]] && ws[k].loader == loaders[k]
      ensures forall i, j :: 0 <= i < |loaders| && 0 <= j < |loaders| ==> (ws[i] == ws[j] <==> loaders[i] == loaders[j])
      ensures forall l :: l in old(cache) ==> l in cache && cache[l] == old(cache)[l]
      ensures (forall k :: 0 <= k < |loaders| ==> loaders[k] in old(cache)) ==> cache == old(cache) && built == old(built)
    {
      ws := [];
      var k := 0;
      while k < |loaders|
        invariant 0 <= k <= |loaders| && |ws| == k
        invariant Valid()
        invariant forall i :: 0 <= i < k ==> loaders[i] in cache && ws[i] == cache[loaders[i]]
        invariant forall l :: l in old(cache) ==> l in cache && cache[l] == old(cache)[l]
        invariant (forall i :: 0 <= i < |loaders| ==> loaders[i] in old(cache)) ==> cache == old(cache) && built == old(built)
      {
        ghost var before, done := cache, ws;
        var w := GetLazy(loaders[k]);
        ws := ws + [w];
        forall i | 0 <= i < k + 1
          ensures loaders[i] in cache && ws[i] == cache[loaders[i]]
        {
          if i < k {
            assert ws[i] == done[i] == before[loaders[i]];
          }
        }
        k := k + 1;
      }
      forall i, j | 0 <= i < |loaders| && 0 <= j < |loaders|
        ensures ws[i] == ws[j] <==> loaders[i] == loaders[j]
      {
        WrapperPerLoader(cache, built, loaders[i], loaders[j]);
      }
    }
  }
}
