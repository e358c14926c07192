/** The service worker itself: its listeners as methods that step through the
    cache storage one host call at a time, each proved to do what the
    specification functions of Strategies and Lifecycle say. */
module Worker {
  import opened CacheStore
  import opened Config
  import opened Classifier
  import S = Strategies
  import L = Lifecycle

  class ServiceWorker {
    /** The origin's cache storage, shared by all listeners. */
    var store: Store
    /** The origin the worker is served from; relative URLs resolve against it. */
    const origin: string

    ghost predicate Valid()
      reads this
    {
      CacheStore.Valid(store)
    }

    constructor (origin: string, initial: Store)
      requires CacheStore.Valid(initial)
      ensures Valid() && store == initial && this.origin == origin
    {
      this.origin := origin;
      store := initial;
    }

    /** The install listener: open the static cache and `addAll` the asset list;
        `outcomes[i]` is what fetching the i-th asset gives. */
    method Install(outcomes: seq<FetchOutcome>) returns (installed: bool)
      requires Valid() && |outcomes| == |ASSETS_TO_PRECACHE|
      modifies this
      ensures Valid()
      ensures Added(installed, store) == L.Install(old(store), origin, outcomes)
    {
      store := Open(store, CACHE_NAME);
      var added := AddAll(store, CACHE_NAME, L.PrecacheKeys(origin), outcomes);
      installed, store := added.ok, added.store;
    }

    /** The activate listener: list the cache names, keep the stale ones and
        delete each of them. */
    method Activate()
      requires Valid()
      modifies this
      ensures Valid()
      ensures store == L.Cleanup(old(store))
    {
      var keys := store.names;
      var stale := L.StaleNames(keys);
      L.ActivationStarts(store);
      for i := 0 to |stale|
        invariant L.ActivationProgress(store, old(store), stale[i..])
      {
        assert stale[i..][1..] == stale[i + 1..];
        L.ActivationSteps(store, old(store), stale[i..]);
        store := Delete(store, stale[i]);
      }
      L.ActivationEnds(store, old(store));
    }

    /** The network-first handler for `key`, given what `fetch` gives. */
    method NetworkFirst(key: Key, net: FetchOutcome) returns (reply: Option<Response>, usedNetwork: bool)
      requires Valid()
      modifies this
      ensures Valid()
      ensures S.Step(reply, store, usedNetwork) == S.NetworkFirst(old(store), key, net, origin)
    {
      usedNetwork := true;
      match net {
        case Fetched(resp) =>
          store := Open(store, CACHE_NAME);
          store := Put(store, CACHE_NAME, key, resp);
          reply := Some(resp);
        case NetFail =>
          var cached := MatchAny(store, key);
          if cached.Some? {
            reply := cached;
          } else {
            reply := MatchAny(store, S.OfflineKey(origin));
          }
      }
    }

    /** The cache-first handler for `key`, given what `fetch` would give. */
    method CacheFirst(key: Key, net: FetchOutcome) returns (reply: Option<Response>, usedNetwork: bool)
      requires Valid()
      modifies this
      ensures Valid()
      ensures S.Step(reply, store, usedNetwork) == S.CacheFirst(old(store), key, net)
    {
      store := Open(store, IMAGE_CACHE);
      var cached := MatchIn(store, IMAGE_CACHE, key);
      if cached.Some? {
        return cached, false;
      }
      usedNetwork := true;
      match net {
        case Fetched(resp) =>
          store := Put(store, IMAGE_CACHE, key, resp);
          reply := Some(resp);
        case NetFail =>
          // `cached || Response.error()`: here `cached` is always empty
          reply := if cached.Some? then cached else Some(NetworkError);
      }
    }

    /** The default handler: the network, else any cache. */
    method NetworkFallback(key: Key, net: FetchOutcome) returns (reply: Option<Response>, usedNetwork: bool)
      requires Valid()
      modifies this
      ensures Valid()
      ensures S.Step(reply, store, usedNetwork) == S.NetworkFallback(old(store), key, net)
    {
      usedNetwork := true;
      match net {
        case Fetched(resp) => reply := Some(resp);
        case NetFail => reply := MatchAny(store, key);
      }
    }

    /** The fetch listener. `intercepted` is false when the request is left to
        the browser; otherwise `reply` is what the page is answered with. */
    method HandleFetch(req: Request, net: FetchOutcome)
      returns (intercepted: bool, reply: Option<Response>, usedNetwork: bool)
      requires Valid()
      modifies this
      ensures Valid()
      ensures !intercepted ==> S.Handle(old(store), req, net, origin) == S.NotIntercepted
      ensures !intercepted ==> store == old(store) && !usedNetwork
      ensures intercepted ==>
        S.Handle(old(store), req, net, origin) == S.Intercepted(S.Step(reply, store, usedNetwork))
    {
      if req.httpMethod != "GET" {
        return false, None, false;
      }
      intercepted := true;
      var key := S.RequestKey(req);
      if AcceptsHtml(req.accept) {
        reply, usedNetwork := NetworkFirst(key, net);
      } else if IsImageRequest(req) || req.destination == "style" || req.destination == "script" {
        reply, usedNetwork := CacheFirst(key, net);
      } else {
        reply, usedNetwork := NetworkFallback(key, net);
      }
    }
  }
}
