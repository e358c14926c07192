/** The host's cache storage as this worker uses it: a set of named caches, each
    mapping a request key to a stored response, together with the operations the
    worker calls (`caches.open`, `cache.put`, `cache.addAll`, `caches.delete`,
    `cache.match`, `caches.match`). Responses are opaque values. */
module CacheStore {

  datatype Option<T> = None | Some(value: T)

  /** A response: one the network produced (any HTTP status), or the
      network-error response that `Response.error()` builds. Bodies are opaque. */
  datatype Response = Http(status: nat, body: seq<bv8>) | NetworkError

  /** A response that came over the network. `fetch` never resolves with the
      network-error response: it rejects instead. */
  type HttpResponse = r: Response | r.Http? witness Http(200, [])

  /** What one `fetch` gives: a response, whatever its status, or a rejection. */
  datatype FetchOutcome = Fetched(resp: HttpResponse) | NetFail

  /** `response.ok`: a status in the range 200 to 299. */
  predicate IsOk(r: Response) {
    r.Http? && 200 <= r.status <= 299
  }

  /** A response `cache.addAll` accepts: ok, and not a partial (206) response. */
  predicate Addable(r: Response) {
    IsOk(r) && r.status != 206
  }

  type Key = string
  type Cache = map<Key, Response>

  /** The cache storage: cache names in creation order, and each cache's entries. */
  datatype Store = Store(names: seq<string>, caches: map<string, Cache>)

  predicate Distinct(xs: seq<string>) {
    forall i, j | 0 <= i < j < |xs| :: xs[i] != xs[j]
  }

  /** Every cache is listed exactly once in the creation order. */
  ghost predicate Valid(s: Store) {
    && Distinct(s.names)
    && (forall n :: n in s.caches <==> n in s.names)
  }

  /** The key a request URL is stored and matched under: cache matching compares
      URLs with their fragment excluded, so the key is the URL up to its first '#'. */
  function CacheKey(url: string): (k: Key)
    ensures k <= url
    ensures '#' !in k
    ensures |k| < |url| ==> url[|k|] == '#'
  {
    if url == [] then []
    else if url[0] == '#' then []
    else [url[0]] + CacheKey(url[1..])
  }

  /** A URL without a fragment is its own key. */
  lemma CacheKeyOfFragmentFree(url: string)
    requires '#' !in url
    ensures CacheKey(url) == url
  {
  }

  /** The absolute URL of a path such as "/index.html", resolved against the
      origin the worker is served from. */
  function ResolvePath(origin: string, path: string): string {
    origin + path
  }

  /** `cache.match(key)` on the cache called `name`. */
  function MatchIn(s: Store, name: string, key: Key): Option<Response> {
    if name in s.caches && key in s.caches[name] then Some(s.caches[name][key]) else None
  }

  /** `caches.open(name)`: the named cache, created empty (and appended to the
      creation order) when it does not exist yet. */
  function Open(s: Store, name: string): (r: Store)
    ensures name in r.caches
    ensures r.caches.Keys == s.caches.Keys + {name}
    ensures forall n | n in s.caches :: r.caches[n] == s.caches[n]
    ensures name !in s.caches ==> r.caches[name] == map[]
    ensures name in s.caches ==> r == s
    ensures name !in s.caches ==> r.names == s.names + [name]
    ensures forall n, k :: MatchIn(r, n, k) == MatchIn(s, n, k)
    ensures Valid(s) ==> Valid(r)
  {
    if name in s.caches then s
    else Store(s.names + [name], s.caches[name := map[]])
  }

  /** `cache.put(key, resp)` on an opened cache: that one entry is replaced, no other
      entry of any cache changes. */
  function Put(s: Store, name: string, key: Key, resp: Response): (r: Store)
    requires name in s.caches
    ensures r.names == s.names && r.caches.Keys == s.caches.Keys
    ensures MatchIn(r, name, key) == Some(resp)
    ensures forall n, k | n != name || k != key :: MatchIn(r, n, k) == MatchIn(s, n, k)
    ensures Valid(s) ==> Valid(r)
  {
    Store(s.names, s.caches[name := s.caches[name][key := resp]])
  }

  /** `r` is `xs` with some elements dropped and the others kept in their order. */
  predicate Subsequence(r: seq<string>, xs: seq<string>)
    decreases |xs|
  {
    if r == [] then true
    else if xs == [] then false
    else if r[0] == xs[0] then Subsequence(r[1..], xs[1..])
    else Subsequence(r, xs[1..])
  }

  lemma {:induction false} SubsequenceOfItself(xs: seq<string>)
    ensures Subsequence(xs, xs)
    decreases |xs|
  {
    if xs != [] {
      SubsequenceOfItself(xs[1..]);
    }
  }

  /** `names` with every occurrence of `name` removed, order otherwise kept. */
  function Without(names: seq<string>, name: string): (r: seq<string>)
    ensures forall n :: n in r <==> n in names && n != name
    ensures Subsequence(r, names)
    ensures Distinct(names) ==> Distinct(r)
  {
    if names == [] then []
    else if names[0] == name then
      var rest := Without(names[1..], name);
      assert rest != [] ==> rest[0] in rest;
      rest
    else
      var rest := Without(names[1..], name);
      assert ([names[0]] + rest)[1..] == rest;
      if Distinct(names) then
        assert names[0] !in names[1..] by {
          forall i | 0 <= i < |names[1..]| ensures names[1..][i] != names[0] {
            assert names[1..][i] == names[i + 1];
          }
        }
        assert Distinct(names[1..]) by {
          forall i, j | 0 <= i < j < |names[1..]| ensures names[1..][i] != names[1..][j] {
            assert names[1..][i] == names[i + 1] && names[1..][j] == names[j + 1];
          }
        }
        DistinctCons(names[0], rest);
        [names[0]] + rest
      else [names[0]] + rest
  }

  lemma DistinctCons(x: string, rest: seq<string>)
    requires x !in rest && Distinct(rest)
    ensures Distinct([x] + rest)
  {
    var xs := [x] + rest;
    forall i, j | 0 <= i < j < |xs| ensures xs[i] != xs[j] {
      assert xs[j] == rest[j - 1];
      if i > 0 { assert xs[i] == rest[i - 1]; }
    }
  }

  /** `caches.delete(name)`: the named cache and all its entries disappear;
      deleting a name that does not exist changes nothing. */
  function Delete(s: Store, name: string): (r: Store)
    ensures name !in r.caches
    ensures forall n | n != name :: n in r.caches <==> n in s.caches
    ensures forall n | n in r.caches :: r.caches[n] == s.caches[n]
    ensures name !in s.caches ==> r == s
    ensures name in s.caches ==> r.names == Without(s.names, name)
    ensures Subsequence(r.names, s.names)
    ensures Valid(s) ==> Valid(r) && name !in r.names
  {
    if name in s.caches then Store(Without(s.names, name), s.caches - {name})
    else SubsequenceOfItself(s.names); s
  }

  /** The first cache, in the order `names` gives, that holds `key`, and its entry. */
  function FirstMatch(s: Store, names: seq<string>, key: Key): (r: Option<Response>)
    ensures r.Some? <==> exists i | 0 <= i < |names| :: MatchIn(s, names[i], key).Some?
    ensures r.Some? ==>
      exists i | 0 <= i < |names| ::
        && MatchIn(s, names[i], key) == r
        && forall j | 0 <= j < i :: MatchIn(s, names[j], key).None?
  {
    if names == [] then None
    else if MatchIn(s, names[0], key).Some? then MatchIn(s, names[0], key)
    else
      var rest := FirstMatch(s, names[1..], key);
      assert forall i | 1 <= i < |names| :: names[i] == names[1..][i - 1];
      if rest.Some? then
        var i :| 0 <= i < |names[1..]| && MatchIn(s, names[1..][i], key) == rest
                 && forall j | 0 <= j < i :: MatchIn(s, names[1..][j], key).None?;
        assert MatchIn(s, names[i + 1], key) == rest;
        rest
      else rest
  }

  /** `caches.match(key)`: searches every cache, oldest first, and answers the
      first entry found, or nothing. */
  function MatchAny(s: Store, key: Key): (r: Option<Response>)
    ensures r.Some? <==> exists i | 0 <= i < |s.names| :: MatchIn(s, s.names[i], key).Some?
    ensures r.Some? ==>
      exists i | 0 <= i < |s.names| ::
        && MatchIn(s, s.names[i], key) == r
        && forall j | 0 <= j < i :: MatchIn(s, s.names[j], key).None?
  {
    FirstMatch(s, s.names, key)
  }

  /** In a valid store, `caches.match` finds a key that some cache holds. */
  lemma MatchAnyFinds(s: Store, name: string, key: Key)
    requires Valid(s)
    requires MatchIn(s, name, key).Some?
    ensures MatchAny(s, key).Some?
  {
    var i :| 0 <= i < |s.names| && s.names[i] == name;
    assert MatchIn(s, s.names[i], key).Some?;
  }

  /** Every fetch resolved with a response `cache.addAll` accepts. */
  predicate AllAddable(outcomes: seq<FetchOutcome>) {
    forall i | 0 <= i < |outcomes| :: outcomes[i].Fetched? && Addable(outcomes[i].resp)
  }

  /** Puts each fetched response under its key, in list order. */
  function PutAll(c: Cache, keys: seq<Key>, outcomes: seq<FetchOutcome>): (r: Cache)
    requires |keys| == |outcomes|
    requires forall i | 0 <= i < |outcomes| :: outcomes[i].Fetched?
    ensures forall k :: k in r <==> k in c || k in keys
    ensures forall k | k in c && k !in keys :: r[k] == c[k]
    ensures forall i | 0 <= i < |keys| && keys[i] !in keys[i + 1..] :: r[keys[i]] == outcomes[i].resp
    decreases |keys|
  {
    if keys == [] then c
    else
      var c' := c[keys[0] := outcomes[0].resp];
      var r := PutAll(c', keys[1..], outcomes[1..]);
      assert forall i | 1 <= i < |keys| :: keys[i] == keys[1..][i - 1];
      assert keys[0] !in keys[1..] ==> r[keys[0]] == outcomes[0].resp;
      forall i | 1 <= i < |keys| && keys[i] !in keys[i + 1..] ensures r[keys[i]] == outcomes[i].resp {
        assert keys[i + 1..] == keys[1..][i..];
        assert outcomes[i] == outcomes[1..][i - 1];
      }
      r
  }

  /** The result of `cache.addAll`: whether it resolved, and the storage after it. */
  datatype Added = Added(ok: bool, store: Store)

  /** `cache.addAll(keys)` on an opened cache, given what fetching each key gave:
      all or nothing — when any fetch failed, answered a status outside 200-299
      or answered 206, nothing is stored; otherwise every response is stored under its key. */
  function AddAll(s: Store, name: string, keys: seq<Key>, outcomes: seq<FetchOutcome>): (r: Added)
    requires name in s.caches
    requires |keys| == |outcomes|
    ensures r.ok <==> AllAddable(outcomes)
    ensures !r.ok ==> r.store == s
    ensures r.ok ==> forall k | k in keys :: MatchIn(r.store, name, k).Some?
    ensures r.ok ==> forall i | 0 <= i < |keys| && keys[i] !in keys[i + 1..] ::
      MatchIn(r.store, name, keys[i]) == Option<Response>.Some(outcomes[i].resp)
    ensures forall n, k | n != name || k !in keys :: MatchIn(r.store, n, k) == MatchIn(s, n, k)
    ensures r.store.names == s.names && r.store.caches.Keys == s.caches.Keys
    ensures Valid(s) ==> Valid(r.store)
  {
    if AllAddable(outcomes) then
      Added(true, Store(s.names, s.caches[name := PutAll(s.caches[name], keys, outcomes)]))
    else Added(false, s)
  }
}
