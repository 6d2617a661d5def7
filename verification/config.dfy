/** The service worker's fixed configuration: the version tag, the cache name built from it, and the install-time URL list. */
module Config {

  const CACHE_VERSION: string := "v1"

  /** `pwa-cache-${CACHE_VERSION}`: the one namespace this worker writes to and keeps on activation. */
  const CACHE_NAME: string := "pwa-cache-" + CACHE_VERSION

  /** The offline placeholder served when a page or asset cannot be fetched. */
  const OFFLINE_URL: string := "/offline.html"

  /** The URLs primed into `CACHE_NAME` at install time, in order. */
  const URLS_TO_CACHE: seq<string> := ["/pwa-192x192.png", "/pwa-512x512.png", OFFLINE_URL]

  /** The suffix that routes a request straight to the network. */
  const MANIFEST_SUFFIX: string := "/manifest.json"
}
