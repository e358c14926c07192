/** The three response strategies of the fetch listener as transitions of the
    cache storage, and the dispatch between them. The network is an input: what
    `fetch(req)` would give for this request. */
module Strategies {
  import opened CacheStore
  import opened Config
  import opened Classifier

  /** One strategy run: the value the response promise resolves to (None when it
      resolves to nothing, which the page sees as a failed load), the cache
      storage afterwards, and whether the network was asked. */
  datatype Step = Step(reply: Option<Response>, store: Store, usedNetwork: bool)

  /** What the fetch listener does with one request. */
  datatype Outcome = NotIntercepted | Intercepted(step: Step)

  /** The key a request is stored and looked up under. */
  function RequestKey(req: Request): Key {
    CacheKey(req.url)
  }

  /** The key of the offline page, `OFFLINE_URL` resolved against the origin. */
  function OfflineKey(origin: string): Key {
    CacheKey(ResolvePath(origin, OFFLINE_URL))
  }

  /** Network-first: a fetched response is stored in the static cache and
      returned; on a network failure, whatever any cache holds for the request,
      else whatever any cache holds for the offline page, else nothing. */
  function NetworkFirst(s: Store, key: Key, net: FetchOutcome, origin: string): (r: Step)
    ensures r.usedNetwork
    ensures net.Fetched? ==> r.reply == Option<Response>.Some(net.resp)
    ensures forall n, k | n != CACHE_NAME || k != key :: MatchIn(r.store, n, k) == MatchIn(s, n, k)
    ensures Valid(s) ==> Valid(r.store)
  {
    match net
    case Fetched(resp) =>
      Step(Some(resp), Put(Open(s, CACHE_NAME), CACHE_NAME, key, resp), true)
    case NetFail =>
      var cached := MatchAny(s, key);
      Step(if cached.Some? then cached else MatchAny(s, OfflineKey(origin)), s, true)
  }

  /** Cache-first: the image cache is opened (created if missing) and looked up;
      a hit is returned without touching the network; on a miss a fetched
      response is stored in the image cache and returned, and a network failure
      gives the network-error response. */
  function CacheFirst(s: Store, key: Key, net: FetchOutcome): (r: Step)
    ensures r.usedNetwork <==> MatchIn(s, IMAGE_CACHE, key).None?
    ensures r.reply.Some?
    ensures forall n, k | n != IMAGE_CACHE || k != key :: MatchIn(r.store, n, k) == MatchIn(s, n, k)
    ensures Valid(s) ==> Valid(r.store)
  {
    var imageCache := Open(s, IMAGE_CACHE);
    var cached := MatchIn(imageCache, IMAGE_CACHE, key);
    if cached.Some? then Step(cached, imageCache, false)
    else
      match net
      case Fetched(resp) => Step(Some(resp), Put(imageCache, IMAGE_CACHE, key, resp), true)
      case NetFail => Step(Some(NetworkError), imageCache, true)
  }

  /** Default: the network's response, else whatever any cache holds. */
  function NetworkFallback(s: Store, key: Key, net: FetchOutcome): (r: Step)
    ensures r.store == s && r.usedNetwork
    ensures r.reply.None? <==> net.NetFail? && MatchAny(s, key).None?
  {
    match net
    case Fetched(resp) => Step(Some(resp), s, true)
    case NetFail => Step(MatchAny(s, key), s, true)
  }

  /** The fetch listener: route, then run the chosen strategy. Only GETs are
      intercepted, and handling a request writes at most the request's own entry,
      and only in one of the two current generations. */
  function Handle(s: Store, req: Request, net: FetchOutcome, origin: string): (r: Outcome)
    ensures r.NotIntercepted? <==> req.httpMethod != "GET"
    ensures r.Intercepted? ==>
      forall n, k | !IsCurrent(n) || k != RequestKey(req) :: MatchIn(r.step.store, n, k) == MatchIn(s, n, k)
  {
    var key := RequestKey(req);
    match RouteOf(req)
    case Bypass => NotIntercepted
    case ToNetworkFirst => Intercepted(NetworkFirst(s, key, net, origin))
    case ToCacheFirst => Intercepted(CacheFirst(s, key, net))
    case ToNetworkFallback => Intercepted(NetworkFallback(s, key, net))
  }

  /** The storage after the listener has handled one request. */
  function StoreAfter(s: Store, req: Request, net: FetchOutcome, origin: string): Store {
    match Handle(s, req, net, origin)
    case NotIntercepted => s
    case Intercepted(step) => step.store
  }

  /** A non-GET request is left to the browser: no strategy, no cache change. */
  lemma NonGetNotIntercepted(s: Store, req: Request, net: FetchOutcome, origin: string)
    requires req.httpMethod != "GET"
    ensures Handle(s, req, net, origin) == NotIntercepted
    ensures StoreAfter(s, req, net, origin) == s
  {
  }

  /** Network-first with a fetched response returns it and leaves exactly that
      response under the request key in the static cache; no other entry of any
      cache changes. */
  lemma NetworkFirstStores(s: Store, key: Key, resp: HttpResponse, origin: string)
    ensures NetworkFirst(s, key, Fetched(resp), origin).reply == Option<Response>.Some(resp)
    ensures MatchIn(NetworkFirst(s, key, Fetched(resp), origin).store, CACHE_NAME, key) == Option<Response>.Some(resp)
    ensures forall n, k | n != CACHE_NAME || k != key ::
      MatchIn(NetworkFirst(s, key, Fetched(resp), origin).store, n, k) == MatchIn(s, n, k)
  {
  }

  /** Network-first on a network failure writes nothing and falls back first to
      the request's own entry in any cache, then to the offline page's. */
  lemma NetworkFirstFallsBack(s: Store, key: Key, origin: string)
    ensures NetworkFirst(s, key, NetFail, origin).store == s
    ensures MatchAny(s, key).Some? ==> NetworkFirst(s, key, NetFail, origin).reply == MatchAny(s, key)
    ensures MatchAny(s, key).None? ==>
      NetworkFirst(s, key, NetFail, origin).reply == MatchAny(s, OfflineKey(origin))
  {
  }

  /** Cache-first with an entry in the image cache answers it without asking
      the network and without changing the storage, whatever the network would do. */
  lemma CacheFirstHit(s: Store, key: Key, net: FetchOutcome, cached: Response)
    requires MatchIn(s, IMAGE_CACHE, key) == Some(cached)
    ensures CacheFirst(s, key, net) == Step(Some(cached), s, false)
  {
  }

  /** Cache-first on a miss with a fetched response returns it and stores it
      under the request key in the image cache only. */
  lemma CacheFirstMissFetched(s: Store, key: Key, resp: HttpResponse)
    requires MatchIn(s, IMAGE_CACHE, key).None?
    ensures CacheFirst(s, key, Fetched(resp)).reply == Option<Response>.Some(resp)
    ensures CacheFirst(s, key, Fetched(resp)).usedNetwork
    ensures MatchIn(CacheFirst(s, key, Fetched(resp)).store, IMAGE_CACHE, key) == Option<Response>.Some(resp)
    ensures forall n, k | n != IMAGE_CACHE || k != key ::
      MatchIn(CacheFirst(s, key, Fetched(resp)).store, n, k) == MatchIn(s, n, k)
  {
  }

  /** Cache-first on a miss with a network failure gives the network-error
      response; no entry changes (the image cache may now exist, empty). */
  lemma CacheFirstMissFailed(s: Store, key: Key)
    requires MatchIn(s, IMAGE_CACHE, key).None?
    ensures CacheFirst(s, key, NetFail).reply == Some(NetworkError)
    ensures CacheFirst(s, key, NetFail).store == Open(s, IMAGE_CACHE)
    ensures forall n, k :: MatchIn(CacheFirst(s, key, NetFail).store, n, k) == MatchIn(s, n, k)
  {
  }

  /** What cache-first stored on a miss is what the next cache-first request for
      that key gets, with the network not asked. */
  lemma CacheFirstRoundTrip(s: Store, key: Key, resp: HttpResponse, net: FetchOutcome)
    requires MatchIn(s, IMAGE_CACHE, key).None?
    ensures var first := CacheFirst(s, key, Fetched(resp));
            CacheFirst(first.store, key, net) == Step(Some(resp), first.store, false)
  {
    var first := CacheFirst(s, key, Fetched(resp));
    CacheFirstMissFetched(s, key, resp);
    CacheFirstHit(first.store, key, net, resp);
  }

  /** The default strategy never writes: it returns the network's response, or
      on a failure whatever any cache holds for the request. */
  lemma NetworkFallbackReadOnly(s: Store, key: Key, net: FetchOutcome)
    ensures NetworkFallback(s, key, net).store == s
    ensures NetworkFallback(s, key, net).reply ==
      if net.Fetched? then Some(net.resp) else MatchAny(s, key)
  {
  }

  /** Handling a request keeps the storage well formed. */
  lemma HandleKeepsValid(s: Store, req: Request, net: FetchOutcome, origin: string)
    requires Valid(s)
    ensures Valid(StoreAfter(s, req, net, origin))
  {
  }

  /** The offline page is in the static cache of a well-formed storage. */
  ghost predicate OfflineReady(s: Store, origin: string) {
    Valid(s) && MatchIn(s, CACHE_NAME, OfflineKey(origin)).Some?
  }

  /** No request ever takes the offline page out of the static cache. */
  lemma HandleKeepsOfflineReady(s: Store, req: Request, net: FetchOutcome, origin: string)
    requires OfflineReady(s, origin)
    ensures OfflineReady(StoreAfter(s, req, net, origin), origin)
  {
    HandleKeepsValid(s, req, net, origin);
    var key := RequestKey(req);
    match RouteOf(req)
    case Bypass =>
    case ToNetworkFirst =>
      if net.Fetched? {
        NetworkFirstStores(s, key, net.resp, origin);
      }
    case ToCacheFirst =>
      assert MatchIn(Open(s, IMAGE_CACHE), CACHE_NAME, OfflineKey(origin)).Some?;
    case ToNetworkFallback =>
  }

  /** While the offline page is cached, every HTML request gets a response, even
      with the network down. */
  lemma DocumentAlwaysAnswered(s: Store, req: Request, net: FetchOutcome, origin: string)
    requires OfflineReady(s, origin)
    requires RouteOf(req) == ToNetworkFirst
    ensures Handle(s, req, net, origin).Intercepted?
    ensures Handle(s, req, net, origin).step.reply.Some?
  {
    if net.NetFail? {
      MatchAnyFinds(s, CACHE_NAME, OfflineKey(origin));
    }
  }

  /** A sequence of requests, each with what the network gives for it. */
  datatype Exchange = Exchange(req: Request, net: FetchOutcome)

  /** The storage after the listener has handled `xs` one after another. */
  function ServeAll(s: Store, xs: seq<Exchange>, origin: string): Store
    decreases |xs|
  {
    if xs == [] then s
    else ServeAll(StoreAfter(s, xs[0].req, xs[0].net, origin), xs[1..], origin)
  }

  /** However many requests were handled before, the offline page is still
      cached. */
  lemma {:induction false} ServeAllKeepsOfflineReady(s: Store, xs: seq<Exchange>, origin: string)
    requires OfflineReady(s, origin)
    ensures OfflineReady(ServeAll(s, xs, origin), origin)
    decreases |xs|
  {
    if xs != [] {
      HandleKeepsOfflineReady(s, xs[0].req, xs[0].net, origin);
      ServeAllKeepsOfflineReady(StoreAfter(s, xs[0].req, xs[0].net, origin), xs[1..], origin);
    }
  }
}
