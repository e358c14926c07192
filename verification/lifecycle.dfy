/** The worker's lifecycle: install precaches the asset list into the static
    cache, activate deletes every cache generation but the two current ones. */
module Lifecycle {
  import opened CacheStore
  import opened Config
  import opened Classifier
  import opened Strategies

  /** `keys.filter(k => k !== CACHE_NAME && k !== IMAGE_CACHE)`. */
  function StaleNames(keys: seq<string>): (r: seq<string>)
    ensures forall n :: n in r <==> n in keys && !IsCurrent(n)
  {
    if keys == [] then []
    else if IsCurrent(keys[0]) then StaleNames(keys[1..])
    else [keys[0]] + StaleNames(keys[1..])
  }

  /** The names that survive activation, in their creation order. */
  function KeepCurrent(names: seq<string>): (r: seq<string>)
    ensures forall n :: n in r <==> n in names && IsCurrent(n)
    ensures Subsequence(r, names)
    ensures |r| <= |names|
  {
    if names == [] then []
    else
      var rest := KeepCurrent(names[1..]);
      if IsCurrent(names[0]) then
        assert ([names[0]] + rest)[1..] == rest;
        [names[0]] + rest
      else
        assert rest != [] ==> rest[0] in rest;
        rest
  }

  /** The storage once activation has deleted every stale generation: only
      current generations are left, still in their creation order. */
  function Cleanup(s: Store): (r: Store)
    ensures forall n | n in r.names :: IsCurrent(n)
    ensures Subsequence(r.names, s.names)
    ensures forall n | n in r.caches :: IsCurrent(n) && n in s.caches && r.caches[n] == s.caches[n]
  {
    Store(KeepCurrent(s.names), map n | n in s.caches && IsCurrent(n) :: s.caches[n])
  }

  /** A list of current names is kept whole. */
  lemma {:induction false} KeepCurrentOfCurrent(names: seq<string>)
    requires forall n | n in names :: IsCurrent(n)
    ensures KeepCurrent(names) == names
  {
    if names != [] {
      assert names[0] in names;
      assert forall n | n in names[1..] :: n in names;
      KeepCurrentOfCurrent(names[1..]);
    }
  }

  /** Filtering twice is filtering once. */
  lemma KeepCurrentIdempotent(names: seq<string>)
    ensures KeepCurrent(KeepCurrent(names)) == KeepCurrent(names)
  {
    KeepCurrentOfCurrent(KeepCurrent(names));
  }

  /** Removing a stale name does not change which current names remain, nor
      their order. */
  lemma {:induction false} KeepCurrentWithout(names: seq<string>, stale: string)
    requires !IsCurrent(stale)
    ensures KeepCurrent(Without(names, stale)) == KeepCurrent(names)
  {
    if names != [] {
      KeepCurrentWithout(names[1..], stale);
      if names[0] != stale {
        assert Without(names, stale) == [names[0]] + Without(names[1..], stale);
        assert ([names[0]] + Without(names[1..], stale))[1..] == Without(names[1..], stale);
      }
    }
  }

  /** Filtering keeps a list without duplicates free of duplicates. */
  lemma {:induction false} KeepCurrentDistinct(names: seq<string>)
    requires Distinct(names)
    ensures Distinct(KeepCurrent(names))
  {
    if names != [] {
      assert Distinct(names[1..]) by {
        forall i, j | 0 <= i < j < |names[1..]| ensures names[1..][i] != names[1..][j] {
          assert names[1..][i] == names[i + 1] && names[1..][j] == names[j + 1];
        }
      }
      KeepCurrentDistinct(names[1..]);
      if IsCurrent(names[0]) {
        assert names[0] !in names[1..] by {
          forall i | 0 <= i < |names[1..]| ensures names[1..][i] != names[0] {
            assert names[1..][i] == names[i + 1];
          }
        }
        DistinctCons(names[0], KeepCurrent(names[1..]));
      }
    }
  }

  /** After activation only the two current generations can exist; each that
      existed keeps every entry; nothing else survives. */
  lemma CleanupKeepsExactlyCurrent(s: Store)
    ensures forall n :: n in Cleanup(s).caches <==> n in s.caches && IsCurrent(n)
    ensures forall n :: n in Cleanup(s).names <==> n in s.names && IsCurrent(n)
    ensures forall n | n in s.caches && IsCurrent(n) :: Cleanup(s).caches[n] == s.caches[n]
    ensures forall n, k | IsCurrent(n) :: MatchIn(Cleanup(s), n, k) == MatchIn(s, n, k)
  {
  }

  /** Activation keeps the storage well formed. */
  lemma CleanupValid(s: Store)
    requires Valid(s)
    ensures Valid(Cleanup(s))
  {
    KeepCurrentDistinct(s.names);
  }

  /** Activating twice is activating once. */
  lemma CleanupIdempotent(s: Store)
    ensures Cleanup(Cleanup(s)) == Cleanup(s)
  {
    KeepCurrentIdempotent(s.names);
  }

  /** Generations `CACHE_NAME`, `IMAGE_CACHE` and an old one: only the first two
      remain, in the same order, with their entries. */
  lemma ActivateExample(statics: Cache, images: Cache, stale: Cache)
    ensures var s := Store([CACHE_NAME, IMAGE_CACHE, "old-cache-v0"],
                           map[CACHE_NAME := statics, IMAGE_CACHE := images, "old-cache-v0" := stale]);
            Cleanup(s) == Store([CACHE_NAME, IMAGE_CACHE], map[CACHE_NAME := statics, IMAGE_CACHE := images])
  {
    var names := [CACHE_NAME, IMAGE_CACHE, "old-cache-v0"];
    var s := Store(names, map[CACHE_NAME := statics, IMAGE_CACHE := images, "old-cache-v0" := stale]);
    assert !IsCurrent("old-cache-v0");
    assert KeepCurrent(names[2..]) == [] by {
      assert names[2..][1..] == [];
    }
    assert names[1..][1..] == names[2..];
    assert KeepCurrent(names[1..]) == [IMAGE_CACHE];
    assert KeepCurrent(names) == [CACHE_NAME, IMAGE_CACHE];
    assert Cleanup(s).caches == map[CACHE_NAME := statics, IMAGE_CACHE := images];
  }

  /** Midway through activation: `s` is what is left of `s0` once some stale
      names have been deleted, and every name still to go is in `pending`. */
  ghost predicate ActivationProgress(s: Store, s0: Store, pending: seq<string>) {
    && Valid(s)
    && KeepCurrent(s.names) == KeepCurrent(s0.names)
    && (forall n | n in s.names :: IsCurrent(n) || n in pending)
    && (forall n | n in s.caches :: n in s0.caches && s.caches[n] == s0.caches[n])
    && (forall n | n in s0.caches && IsCurrent(n) :: n in s.caches)
  }

  /** Before any deletion, every stale name is pending. */
  lemma ActivationStarts(s0: Store)
    requires Valid(s0)
    ensures ActivationProgress(s0, s0, StaleNames(s0.names))
  {
  }

  /** Deleting the next pending name keeps the progress invariant. */
  lemma ActivationSteps(s: Store, s0: Store, pending: seq<string>)
    requires pending != [] && !IsCurrent(pending[0])
    requires ActivationProgress(s, s0, pending)
    ensures ActivationProgress(Delete(s, pending[0]), s0, pending[1..])
  {
    assert pending == [pending[0]] + pending[1..];
    if pending[0] in s.caches {
      KeepCurrentWithout(s.names, pending[0]);
    }
  }

  /** With nothing pending, the storage is the cleaned-up original. */
  lemma ActivationEnds(s: Store, s0: Store)
    requires Valid(s0)
    requires ActivationProgress(s, s0, [])
    ensures s == Cleanup(s0)
  {
    KeepCurrentOfCurrent(s.names);
    assert s.caches == Cleanup(s0).caches;
  }

  /** Activation never removes the offline page. */
  lemma CleanupKeepsOfflineReady(s: Store, origin: string)
    requires OfflineReady(s, origin)
    ensures OfflineReady(Cleanup(s), origin)
  {
    CleanupValid(s);
    CleanupKeepsExactlyCurrent(s);
  }

  /** The keys of the precached assets, in list order. Every asset has its key
      there, the offline page among them; for an origin without a fragment (as
      every origin is) no two keys coincide, so `addAll` never sees a
      duplicate request. */
  function PrecacheKeys(origin: string): (keys: seq<Key>)
    ensures |keys| == |ASSETS_TO_PRECACHE|
    ensures forall p | p in ASSETS_TO_PRECACHE :: CacheKey(ResolvePath(origin, p)) in keys
    ensures OfflineKey(origin) in keys
    ensures '#' !in origin ==> Distinct(keys)
  {
    var keys := seq(|ASSETS_TO_PRECACHE|, i requires 0 <= i < |ASSETS_TO_PRECACHE| =>
      CacheKey(ResolvePath(origin, ASSETS_TO_PRECACHE[i])));
    ConfigurationFacts();
    assert keys[1] == OfflineKey(origin);
    AssetKeysDistinct(origin, keys);
    keys
  }

  /** With a fragment-free origin each asset URL is its own key, and the asset
      paths differ pairwise, so the keys do too. */
  lemma AssetKeysDistinct(origin: string, keys: seq<Key>)
    requires |keys| == |ASSETS_TO_PRECACHE|
    requires forall i | 0 <= i < |keys| :: keys[i] == CacheKey(ResolvePath(origin, ASSETS_TO_PRECACHE[i]))
    ensures '#' !in origin ==> Distinct(keys)
  {
    if '#' !in origin {
      ConfigurationFacts();
      forall i, j | 0 <= i < j < |keys| ensures keys[i] != keys[j] {
        var a, b := ASSETS_TO_PRECACHE[i], ASSETS_TO_PRECACHE[j];
        CacheKeyOfFragmentFree(origin + a);
        CacheKeyOfFragmentFree(origin + b);
        assert (origin + a)[|origin|..] == a;
        assert (origin + b)[|origin|..] == b;
      }
    }
  }

  /** Install: open the static cache, then `addAll` the asset list, given what
      fetching each asset gives. It succeeds exactly when every fetch gave a
      response `addAll` accepts, and touches no cache but the static one. */
  function Install(s: Store, origin: string, outcomes: seq<FetchOutcome>): (r: Added)
    requires |outcomes| == |ASSETS_TO_PRECACHE|
    ensures r.ok <==> AllAddable(outcomes)
    ensures forall n, k | n != CACHE_NAME :: MatchIn(r.store, n, k) == MatchIn(s, n, k)
    ensures Valid(s) ==> Valid(r.store)
  {
    AddAll(Open(s, CACHE_NAME), CACHE_NAME, PrecacheKeys(origin), outcomes)
  }

  /** A successful install puts every asset in the static cache, so the offline
      page is there, and (the origin having no fragment) each asset's key holds
      exactly the response fetched for it; no other cache changes. */
  lemma InstallSucceeds(s: Store, origin: string, outcomes: seq<FetchOutcome>)
    requires Valid(s)
    requires |outcomes| == |ASSETS_TO_PRECACHE| && AllAddable(outcomes)
    ensures Install(s, origin, outcomes).ok
    ensures forall i | 0 <= i < |ASSETS_TO_PRECACHE| ::
      MatchIn(Install(s, origin, outcomes).store, CACHE_NAME, PrecacheKeys(origin)[i]).Some?
    ensures '#' !in origin ==> forall i | 0 <= i < |ASSETS_TO_PRECACHE| ::
      MatchIn(Install(s, origin, outcomes).store, CACHE_NAME, PrecacheKeys(origin)[i])
        == Option<Response>.Some(outcomes[i].resp)
    ensures forall n, k | n != CACHE_NAME :: MatchIn(Install(s, origin, outcomes).store, n, k) == MatchIn(s, n, k)
    ensures OfflineReady(Install(s, origin, outcomes).store, origin)
  {
  }

  /** A failed install stores nothing: at most the static cache now exists,
      empty. */
  lemma InstallFailsAtomically(s: Store, origin: string, outcomes: seq<FetchOutcome>)
    requires |outcomes| == |ASSETS_TO_PRECACHE| && !AllAddable(outcomes)
    ensures !Install(s, origin, outcomes).ok
    ensures Install(s, origin, outcomes).store == Open(s, CACHE_NAME)
    ensures forall n, k :: MatchIn(Install(s, origin, outcomes).store, n, k) == MatchIn(s, n, k)
  {
  }

  /** After a successful install and an activation, however many requests have
      been handled, an HTML request is always answered, network or not. */
  lemma {:induction false} DocumentAnsweredAfterInstall(
    s: Store, origin: string, outcomes: seq<FetchOutcome>, xs: seq<Exchange>, req: Request, net: FetchOutcome)
    requires Valid(s)
    requires |outcomes| == |ASSETS_TO_PRECACHE| && AllAddable(outcomes)
    requires RouteOf(req) == ToNetworkFirst
    ensures var served := ServeAll(Cleanup(Install(s, origin, outcomes).store), xs, origin);
            Handle(served, req, net, origin).Intercepted? &&
            Handle(served, req, net, origin).step.reply.Some?
  {
    var installed := Install(s, origin, outcomes).store;
    InstallSucceeds(s, origin, outcomes);
    CleanupKeepsOfflineReady(installed, origin);
    ServeAllKeepsOfflineReady(Cleanup(installed), xs, origin);
    DocumentAlwaysAnswered(ServeAll(Cleanup(installed), xs, origin), req, net, origin);
  }

  /** A style request whose key sits in the static cache but not in the image
      cache gets, offline, the network-error response, although `caches.match`
      would find the static copy. */
  lemma StyleMissedOffline(t: Store, url: string, origin: string)
    requires Valid(t)
    requires MatchIn(t, CACHE_NAME, CacheKey(url)).Some?
    requires MatchIn(t, IMAGE_CACHE, CacheKey(url)).None?
    ensures var req := Request("GET", url, "style", None);
            && MatchAny(t, RequestKey(req)).Some?
            && Handle(t, req, NetFail, origin).step.reply == Some(NetworkError)
  {
    MatchAnyFinds(t, CACHE_NAME, CacheKey(url));
    CacheFirstMissFailed(t, CacheKey(url));
  }

  /** The stylesheet is precached into the static cache, but a style request goes
      cache-first, which looks only in the image cache: offline, right after
      install, it gets the network-error response although `caches.match` would
      find the precached copy. */
  lemma PrecachedStyleMissedByCacheFirst(s: Store, origin: string, outcomes: seq<FetchOutcome>)
    requires Valid(s)
    requires |outcomes| == |ASSETS_TO_PRECACHE| && AllAddable(outcomes)
    requires MatchIn(s, IMAGE_CACHE, CacheKey(ResolvePath(origin, "/dist/styles.css"))).None?
    ensures var installed := Install(s, origin, outcomes).store;
            var req := Request("GET", ResolvePath(origin, "/dist/styles.css"), "style", None);
            && MatchAny(installed, RequestKey(req)).Some?
            && Handle(installed, req, NetFail, origin).step.reply == Some(NetworkError)
  {
    var url := ResolvePath(origin, "/dist/styles.css");
    assert "/dist/styles.css" in ASSETS_TO_PRECACHE;
    InstallSucceeds(s, origin, outcomes);
    StyleMissedOffline(Install(s, origin, outcomes).store, url, origin);
  }
}
