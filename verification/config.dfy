/** The worker's fixed configuration: the two current cache generations, the
    offline fallback page and the list of assets precached at install. */
module Config {

  const CACHE_NAME: string := "supplies-static-v1"
  const IMAGE_CACHE: string := "supplies-images-v1"
  const OFFLINE_URL: string := "/index.html"

  const ASSETS_TO_PRECACHE: seq<string> :=
    ["/", "/index.html", "/dist/styles.css", "/favicon-s.svg", "/favicon.svg"]

  /** A cache name that survives activation. */
  predicate IsCurrent(name: string) {
    name == CACHE_NAME || name == IMAGE_CACHE
  }

  /** The two generations are distinct, the offline page is one of the
      precached assets (the second), no asset path carries a fragment, and no
      asset is listed twice. */
  lemma ConfigurationFacts()
    ensures CACHE_NAME != IMAGE_CACHE
    ensures |ASSETS_TO_PRECACHE| == 5 && ASSETS_TO_PRECACHE[1] == OFFLINE_URL
    ensures OFFLINE_URL in ASSETS_TO_PRECACHE
    ensures forall i | 0 <= i < |ASSETS_TO_PRECACHE| :: '#' !in ASSETS_TO_PRECACHE[i]
    ensures forall i, j | 0 <= i < j < |ASSETS_TO_PRECACHE| :: ASSETS_TO_PRECACHE[i] != ASSETS_TO_PRECACHE[j]
  {
  }
}
