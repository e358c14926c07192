# Service worker cache policy, modelled in Dafny

The modelled service worker (`sw.js`) is small. It caches a web application's assets in the browser and intercepts its requests. It keeps two cache generations: a static one, `supplies-static-v1`, and an image one, `supplies-images-v1`.

- **Install.** It precaches five assets into the static cache, all or nothing.
- **Activate.** It deletes every cache generation except those two.
- **Fetch.** It routes each request:
  - A non-GET request is left to the browser.
  - A request whose `Accept` header mentions `text/html` goes **network-first**. A fetched response is stored in the static cache. If the fetch fails, the worker returns what any cache holds for the request, or else what any cache holds for the offline page `/index.html`.
  - An image, style or script request goes **cache-first**. The worker looks only in the image cache. On a miss it fetches and stores the response there. If that fetch fails, it returns `Response.error()`.
  - Everything else goes to the **default** strategy: the network first, then any cache, and it never writes.

The model has six modules:
- `CacheStore`: the host's cache storage as a value. `Store` holds the cache names in creation order and a map from name to cache. Each cache is a map from request key to response. The module also has the operations the worker calls: open, put, addAll, delete, match in one cache, and match across all caches.
- `Config`: the constants.
- `Classifier`: `isImageRequest` and the listener's ordered routing tests. The regular expression is replaced by an explicit scan over the URL string, proved equal to a declarative statement of what the pattern matches.
- `Strategies`: the three strategies and the dispatch, as functions from a store and the network's outcome to a `Step`. A `Step` holds the reply, the new store, and whether the network was asked. This module also has their properties, and an "offline page is cached" invariant that every request preserves.
- `Lifecycle`: install and activate as functions, with their properties. Its headline theorem: after a successful install and an activate, any sequence of handled requests leaves every later HTML request answered, even with the network down.
- `Worker`: a `ServiceWorker` class whose `store` field is the cache storage. Its listener methods make the host calls one at a time. Each method is proved to produce exactly what the corresponding function specifies.

Three behaviours of `sw.js` are easy to misread; the model follows the code:
- **Image extension.** The extension test runs on the whole URL string, host and query included. The extension must be followed by `?` or by the end of the URL, so `/a?f=b.png` matches and `/a.png#top` does not. It is not a test of the path alone.
- **Network-first fallback.** When the fetch fails, the lookup searches every cache (`caches.match`), not only the static one.
- **Cache-first failure.** Cache-first opens the image cache before looking in it. A miss followed by a network failure can therefore leave a new, empty image cache behind. No entry changes.

The lemma `Lifecycle.PrecachedStyleMissedByCacheFirst` records one consequence of the routing as written. `/dist/styles.css` is precached into the static cache, but a style request goes cache-first, which looks only in the image cache. Right after install, with the network down, that request therefore gets the network-error response, even though `caches.match` would find the precached copy.

## Model

| member | source | states |
|---|---|---|
| CacheStore.CacheKey | sw.js:69 | the key of a request URL is its longest prefix without '#' (cache matching ignores the fragment) |
| CacheStore.Open | sw.js:68 | `caches.open` makes the named cache exist; a new one is empty and its name is appended to the creation order; an existing name leaves the store unchanged; no entry of any cache changes; well-formedness is kept |
| CacheStore.Put | sw.js:73 | `cache.put` makes the key map to the response in that cache; no other entry of any cache changes; names unchanged |
| CacheStore.Without | sw.js:29 | dropping a name from the creation order keeps exactly the other names, in their order (a subsequence), and keeps them distinct |
| CacheStore.Delete | sw.js:29 | `caches.delete` removes the named cache; every other cache keeps its entries; the remaining names keep their creation order; deleting a missing name changes nothing; well-formedness is kept |
| CacheStore.MatchAny | sw.js:58 | `caches.match` finds an entry iff some cache in the creation order holds the key, and answers the entry of the first such cache |
| CacheStore.MatchAnyFinds | sw.js:59 | in a well-formed store, a key held by any cache is found by `caches.match` |
| CacheStore.AddAll | sw.js:20 | `cache.addAll` succeeds iff every fetch gave a 2xx response other than 206; then every key is stored (the last response for a repeated key); otherwise nothing changes; other caches never change |
| Config.ConfigurationFacts | sw.js:3-12 | the two generation names differ; the offline page is the second precached asset; no asset path has a fragment; no asset is listed twice |
| Classifier.AnyExtensionThenEnd | sw.js:38 | trying the extensions one by one succeeds iff one of them stands at the position, followed by '?' or the end |
| Classifier.MatchFrom | sw.js:38 | the left-to-right scan succeeds iff the pattern matches at some position at or after the start |
| Classifier.IsImageRequest | sw.js:35-42 | true iff the destination is "image" or the whole URL contains '.' + png/jpg/jpeg/gif/webp/svg in any ASCII case, then '?' or the end |
| Classifier.AcceptsHtml | sw.js:50 | the header test holds iff the Accept header is present and contains "text/html"; the separate emptiness test never decides anything |
| Classifier.RouteOf | sw.js:47-66 | the listener's ordered tests; a GET goes to the default strategy iff it is not HTML, its destination is not image, style or script, and its URL has no image extension (the other routes: the three lemmas below) |
| Classifier.OnlyGetIntercepted | sw.js:47 | a request is bypassed iff its method is not GET |
| Classifier.HtmlTakesPrecedence | sw.js:50-63 | a GET whose Accept header contains text/html goes network-first, even when it is an image, style or script |
| Classifier.CacheFirstOnlyWithoutHtml | sw.js:65-66 | cache-first is chosen iff the request is a GET, is not HTML, and is an image, style or script |
| Classifier.MissingAcceptIsNotHtml | sw.js:50 | a request without an Accept header never goes network-first |
| Classifier.ExtensionMatches | sw.js:38 | any prefix, then '.', an image extension in any case, then nothing or '?'-and-anything, is matched |
| Classifier.QueryAndCaseExamples | sw.js:38 | "/download?f=a.png" and "/A.PNG?v=2" are matched |
| Classifier.FragmentExample | sw.js:38 | "/a.png#top" is not matched |
| Strategies.NetworkFirst | sw.js:51-61 | network-first always asks the network; a fetched response is the reply; at most the request's entry in the static cache changes; well-formedness is kept (details: NetworkFirstStores, NetworkFirstFallsBack) |
| Strategies.CacheFirst | sw.js:67-78 | cache-first asks the network iff the image cache misses; it always replies; at most the request's entry in the image cache changes; well-formedness is kept (details: the CacheFirst lemmas below) |
| Strategies.NetworkFallback | sw.js:83 | the default strategy never writes and always asks the network; it replies nothing only when the network fails and no cache holds the request |
| Strategies.Handle | sw.js:44-84 | a request is intercepted iff it is a GET; handling it changes at most the request's own entry, and only in one of the two current generations |
| Strategies.NonGetNotIntercepted | sw.js:44-47 | a non-GET request is not intercepted and leaves the storage unchanged |
| Strategies.NetworkFirstStores | sw.js:52-56 | on a fetched response, network-first returns it, the static cache maps the key to it, and no other entry changes |
| Strategies.NetworkFirstFallsBack | sw.js:57-59 | on a network failure, network-first writes nothing and returns the any-cache match for the request, or else the any-cache match for the offline page |
| Strategies.CacheFirstHit | sw.js:68-70 | with an image-cache hit, cache-first returns it, does not ask the network and leaves the storage unchanged, whatever the network would give |
| Strategies.CacheFirstMissFetched | sw.js:71-74 | on a miss with a fetched response, cache-first returns it and stores it under the key in the image cache only |
| Strategies.CacheFirstMissFailed | sw.js:75-77 | on a miss with a network failure, cache-first returns the network-error response and no entry changes |
| Strategies.CacheFirstRoundTrip | sw.js:67-78 | what cache-first stored on a miss is returned by the next cache-first request for that key without the network |
| Strategies.NetworkFallbackReadOnly | sw.js:83 | the default strategy never writes and returns the network's response, or else the any-cache match |
| Strategies.HandleKeepsValid | sw.js:44-84 | handling any request keeps the storage well formed |
| Strategies.HandleKeepsOfflineReady | sw.js:44-84 | handling any request keeps the offline page in the static cache |
| Strategies.DocumentAlwaysAnswered | sw.js:57-59 | while the offline page is cached, every HTML request gets a response, whatever the network does |
| Strategies.ServeAllKeepsOfflineReady | sw.js:44-84 | any sequence of handled requests keeps the offline page in the static cache |
| Lifecycle.StaleNames | sw.js:29 | the filtered key list holds exactly the names that are neither `CACHE_NAME` nor `IMAGE_CACHE` |
| Lifecycle.KeepCurrent | sw.js:29 | the surviving names are exactly the current names of the list, in their original order |
| Lifecycle.KeepCurrentIdempotent | sw.js:29 | filtering the names twice is filtering once |
| Lifecycle.KeepCurrentWithout | sw.js:29 | deleting a stale name does not change which current names survive, or their order |
| Lifecycle.Cleanup | sw.js:28-29 | after activation only current generations are listed, in their creation order, and every cache left is a current one with its entries unchanged (with CleanupKeepsExactlyCurrent: every current one that existed is left) |
| Lifecycle.CleanupKeepsExactlyCurrent | sw.js:28-29 | after activation a cache exists iff it existed and is current; current caches keep every entry |
| Lifecycle.CleanupValid | sw.js:28-29 | activation keeps the storage well formed |
| Lifecycle.CleanupIdempotent | sw.js:28-29 | activating twice is activating once |
| Lifecycle.ActivateExample | sw.js:28-29 | with the two current generations and an old one, only the two current ones remain, in order, with their entries |
| Lifecycle.ActivationStarts | sw.js:28-29 | before any deletion every stale name is pending |
| Lifecycle.ActivationSteps | sw.js:29 | deleting the next stale name keeps the surviving caches, their entries and their order |
| Lifecycle.ActivationEnds | sw.js:29 | once every stale name is deleted, the storage is the cleaned-up original |
| Lifecycle.CleanupKeepsOfflineReady | sw.js:28-29 | activation never removes the offline page |
| Lifecycle.PrecacheKeys | sw.js:7-16 | one key per precached asset; every asset's key is there, the offline page's among them; for a fragment-free origin no two keys coincide, so `addAll` gets no duplicate request |
| Lifecycle.Install | sw.js:18-21 | install succeeds iff every asset fetch gave a response `addAll` accepts; no cache other than the static one changes; well-formedness is kept |
| Lifecycle.InstallSucceeds | sw.js:18-21 | when every asset fetch is accepted, install succeeds, every asset is in the static cache (so the offline page is), each asset's key holds exactly the response fetched for it (fragment-free origin), and no other cache changes |
| Lifecycle.InstallFailsAtomically | sw.js:20 | when any asset fetch fails, install fails and no entry is stored |
| Lifecycle.DocumentAnsweredAfterInstall | sw.js:18-61 | after a successful install, an activation and any requests, every HTML request is answered even offline |
| Lifecycle.StyleMissedOffline | sw.js:66-77 | a style request whose key is only in the static cache gets the network-error response offline, though `caches.match` would find it |
| Lifecycle.PrecachedStyleMissedByCacheFirst | sw.js:10 | right after install, the precached stylesheet is not served offline to a style request |
| Worker.ServiceWorker.Install | sw.js:18-23 | the install listener opens the static cache and adds all assets, as `Lifecycle.Install` specifies |
| Worker.ServiceWorker.Activate | sw.js:25-33 | the activate listener's loop over the stale names leaves exactly `Lifecycle.Cleanup` of the old storage |
| Worker.ServiceWorker.NetworkFirst | sw.js:51-61 | the network-first handler's reply, new storage and network use are those of `Strategies.NetworkFirst` |
| Worker.ServiceWorker.CacheFirst | sw.js:67-78 | the cache-first handler's reply, new storage and network use are those of `Strategies.CacheFirst` |
| Worker.ServiceWorker.NetworkFallback | sw.js:83 | the default handler's reply and network use are those of `Strategies.NetworkFallback`; the storage is unchanged |
| Worker.ServiceWorker.HandleFetch | sw.js:44-84 | the fetch listener leaves non-GET requests alone, and otherwise answers and updates the storage as `Strategies.Handle` specifies |

## Left out

- Event wiring and host lifecycle calls are not modelled: `addEventListener`, `waitUntil`, `respondWith`, `skipWaiting` and `clients.claim`. They carry no decision logic.
- The network is an input, and so are the host's storage and URL parsing:
  - For each request, the model takes what `fetch` gives: a network response (`CacheStore.HttpResponse`; `fetch` rejects rather than resolving with the network-error response) or a failure.
  - For install, it takes what fetching each asset gives.
  - Relative URLs resolve as origin + path.
- The request's method is compared with "GET" exactly. The browser's normalisation of method names is not modelled.
- Classifier.IsImageRequest: the `catch` that returns false is not modelled. Reading `destination` and `url` from a request object and testing a string with a regular expression cannot throw here, so the model has no error path to take.
- Regular-expression semantics beyond this one pattern are not modelled. Case-insensitive matching is ASCII case folding, which is exact for these extension letters.
- Concurrency is not modelled:
  - Requests are handled one at a time.
  - The un-awaited `cache.put` is taken as complete before the handler returns.
  - The deletions that `Promise.all` starts at activation are done in list order, which does not affect the result.
- Responses are opaque values, so `Response.clone()` and body consumption are not modelled.
- Every fetched response is stored. The host rejects a `cache.put` of a 206 response or of one with `Vary: *`, and that entry then stays unwritten; the model does not capture this. For `cache.addAll` the 206 rejection is modelled (`CacheStore.Addable`); its rejection of a response with `Vary: *` is not.
- `cache.addAll`'s all-or-nothing behaviour is the host's promise and is modelled as such. Its rejection of duplicate requests is not modelled: `Lifecycle.PrecacheKeys` proves the asset keys distinct for any fragment-free origin, so install never meets that case.
- `Cache.match` options such as `ignoreSearch` and `Vary` headers are not modelled. The worker uses none of them, and keys are compared as exact strings.
