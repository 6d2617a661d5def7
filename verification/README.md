# Offline cache worker and memo list: a Dafny model

This project models the core of a small offline-capable memo app.

The main part is the service worker (`public/sw.js`):

- **Request routing.** The `fetch` listener sends every request to one of three strategies: network only (the web manifest), network first with an offline fallback (page loads), or cache first with write-back (everything else).
- **Cache generations.** `install` primes the cache `pwa-cache-v1` with a fixed URL list and signals skip-waiting. `activate` deletes every other cache and then claims the open pages.

The browser's cache storage is an ordered list of named namespaces (`CacheStorage.Storage`). Each namespace maps a request URL to a stored response. The list is kept in creation order because `caches.match` searches the namespaces in that order and answers from the first that holds the URL.

The network is a parameter:

- each fetch gets an `Outcome` (`Ok(response)` of any status, or `Fail` for a network error);
- install gets a function from URL to `Outcome`;
- the fire-and-forget `cache.put` gets a flag saying whether the write completed.

Every step is a pure function. It returns what the page receives, the storage afterwards, and whether the network was asked. The lifecycle handlers also return their host-visible effects (`Deleted(name)`, `SkippedWaiting`, `Claimed`) in order.

The second, smaller part is the memo screen's pure logic in `src/App.jsx`:

- `getTimeAgo`, with the clock reading as a parameter;
- the list updates made by `addMemo` and `deleteMemo`.

For these, the record store's success, the clock and the confirmation dialog are all parameters.

Modules: `Wrappers` (Option), `Text` (`endsWith`, `includes`, `trim`, decimal rendering), `Config` (constants of `sw.js:1-4`), `CacheStorage`, `Classifier`, `Strategies`, `Lifecycle`, `TimeAgo`, `Memos`.

Two behaviours of the worker are worth stating plainly:

- Activation deletes every namespace whose name differs from `pwa-cache-v1`, whatever its name looks like, including namespaces of other applications. `Lifecycle.ActivateDeletesForeignNamespaces` shows this.
- The cache-first lookup and both offline fallbacks use `caches.match`, which searches all namespaces, not only `pwa-cache-v1`.

## Model

| member | source | states |
|---|---|---|
| CacheStorage.Keys | public/sw.js:28 | `caches.keys()` lists the namespace names in creation order, one per namespace |
| CacheStorage.ValidIffKeysDistinct | public/sw.js:28-31 | names are distinct exactly when `caches.keys()` lists no name twice |
| CacheStorage.Open | public/sw.js:11 | opening a name creates it empty only if absent, appended after every existing namespace; every other namespace keeps its entries and position; distinct names are preserved |
| CacheStorage.Update | public/sw.js:14 | the batch is written over the entries of the named namespace; names, their order and every other namespace are unchanged |
| CacheStorage.Store | public/sw.js:14 | the write half of `addAll`: the batch is added to the named namespace, overwriting same URLs, and the namespace is appended last if it is new; no other namespace changes entries or position |
| CacheStorage.Put | public/sw.js:92-94 | `cache.put` stores one URL in the named namespace, creating it last if needed; every other namespace keeps its entries and position |
| CacheStorage.Delete | public/sw.js:34 | `caches.delete` removes exactly that name; every other namespace keeps its entries; distinct names are preserved |
| CacheStorage.DeleteKeepsOrder | public/sw.js:34 | after `caches.delete`, `caches.keys()` is the old list with that name removed, the others in their old order |
| CacheStorage.Match | public/sw.js:74 | `caches.match` is absent iff no namespace holds the URL; otherwise it is the entry of the first namespace, in creation order, that holds it |
| CacheStorage.MatchSoleHolder | public/sw.js:74 | when only namespaces of one name hold a URL, `caches.match` returns that namespace's entry |
| Classifier.Classify | public/sw.js:46-70 | a manifest URL is NetworkOnly; NetworkFirst iff not manifest and a page request; CacheFirst iff neither |
| Classifier.ClassifyIsFirstMatch | public/sw.js:48-73 | the listener's nested tests equal the ordered rule table (manifest, then page) read top-down, first match wins, CacheFirst as default |
| Classifier.ManifestAlwaysNetworkOnly | public/sw.js:48-51 | a URL ending in "/manifest.json" is NetworkOnly whatever its mode, method and Accept header |
| Classifier.NetworkOnlyMeansManifest | public/sw.js:48-51 | NetworkOnly is chosen iff the URL ends in "/manifest.json" |
| Classifier.NavigationIsNetworkFirst | public/sw.js:54-55 | a non-manifest navigation is NetworkFirst whatever its method and headers |
| Classifier.HtmlGetIsNetworkFirst | public/sw.js:56-58 | a non-manifest GET whose Accept header contains "text/html" at any position is NetworkFirst whatever its mode |
| Classifier.ManifestWithQueryIsNotNetworkOnly | public/sw.js:48 | the suffix test is literal, so "/manifest.json?v=2" falls through to CacheFirst |
| Text.IncludesIffOccurs | public/sw.js:58 | the `includes` scan holds iff the needle occurs at some position |
| Strategies.OfflineFallback | public/sw.js:66 | the offline fallback is present iff some namespace holds "/offline.html" |
| Strategies.NetworkOnlyStep | public/sw.js:49 | the page gets a response iff the network answered, and then that response; storage is untouched |
| Strategies.NetworkFirstStep | public/sw.js:60-68 | a network answer of any status reaches the page unchanged; on a network error the page gets a response iff "/offline.html" is cached; storage is untouched |
| Strategies.CacheFirstStep | public/sw.js:73-99 | the network is skipped iff the URL is cached; a hit is served as stored; a network answer is passed through; storage changes only for a 200/"basic" answer whose write completed |
| Strategies.HandleFetch | public/sw.js:46-101 | dispatching any request keeps the namespace names distinct |
| Strategies.StorageChangesOnlyByWriteBack | public/sw.js:83-96 | a fetch changes storage iff it is a cache-first miss with a 200/"basic" answer whose write completes, and then only by putting that answer under the URL in `pwa-cache-v1` |
| Strategies.WriteBackIsLocal | public/sw.js:91-94 | a write-back adds one URL to `pwa-cache-v1`; every other namespace and every other URL keeps its value |
| Strategies.UncacheableNeverStored | public/sw.js:83-89 | an answer that is not 200/"basic" never changes storage, yet reaches the page whenever the network was asked |
| Strategies.NetworkStrategiesLeaveStorage | public/sw.js:46-70 | manifest and page requests never change storage |
| Strategies.NetworkAnswerPassedThrough | public/sw.js:61-64 | whenever the network is asked and answers, the page receives that exact response, for every status code and every strategy |
| Strategies.NetworkErrorFallback | public/sw.js:65-67 | on a network error storage is unchanged; the manifest fetch fails; both fallback paths answer `caches.match("/offline.html")`, absent if nothing holds it |
| Strategies.CacheHitSkipsNetwork | public/sw.js:74-78 | the network is skipped iff the request is cache-first and cached; then the stored entry is served and storage is unchanged |
| Strategies.WriteOutcomeInvisibleToPage | public/sw.js:91-96 | whether the background put completes never changes what the page receives or whether the network was asked |
| Strategies.RepeatServedFromCache | public/sw.js:74-96 | after a completed write-back, the same request is served from the cache without the network, with the stored response, and storage stays put |
| Strategies.PutHoldersOnlyInTarget | public/sw.js:93 | after putting a URL that no namespace held, only the target namespace holds it |
| Lifecycle.FetchAll | public/sw.js:14 | the `addAll` batch exists iff every URL's fetch is accepted (status 200-299); it then maps exactly the listed URLs to their responses |
| Lifecycle.Install | public/sw.js:6-21 | `pwa-cache-v1` always exists afterwards; skip-waiting is signalled iff every fetch is accepted; then `pwa-cache-v1` is its previous entries with the fetched batch added over them, so every listed URL is stored with its response and nothing else is lost; otherwise nothing is written |
| Lifecycle.InstallKeepsOrder | public/sw.js:9-15 | install keeps every namespace in its position and appends `pwa-cache-v1` last when it is new, so `caches.match` searches the older namespaces first |
| Lifecycle.InstallLeavesOtherNamespaces | public/sw.js:9-15 | install writes only into `pwa-cache-v1`; every other namespace keeps its entries |
| Lifecycle.InstallIdempotent | public/sw.js:9-19 | installing twice with the same network answers leaves the same storage as installing once |
| Lifecycle.InstallStoresOfflinePage | public/sw.js:4-14 | a successful install stores "/offline.html" in `pwa-cache-v1` with its fetched response |
| Lifecycle.Sweep | public/sw.js:29-37 | deleting each listed name other than `pwa-cache-v1` removes exactly those names, leaves `pwa-cache-v1` untouched, and records exactly those deletions in list order |
| Lifecycle.Deletions | public/sw.js:31-35 | the deletions of a sweep are one per listed name other than `pwa-cache-v1`, in list order |
| Lifecycle.DeletionsDistinct | public/sw.js:28-35 | over a list of distinct names, no deletion is recorded twice |
| Lifecycle.SweepNothingDoomed | public/sw.js:32 | a sweep over names that are all `pwa-cache-v1` changes nothing |
| Lifecycle.Activate | public/sw.js:23-44 | the names left are the previous names intersected with {`pwa-cache-v1`}; its entries are untouched; a deletion is recorded for exactly each other name, and over distinct names each only once; every effect before the last is a deletion, and `Claimed` comes once, last |
| Lifecycle.Claim | public/sw.js:39-41 | the claim is appended once after the sweep's deletions, adding no duplicate |
| Lifecycle.ActivateIdempotent | public/sw.js:27-38 | activating again right after activating changes nothing |
| Lifecycle.ActivateDeletesForeignNamespaces | public/sw.js:32 | given {pwa-cache-v0, other-app-cache, pwa-cache-v1}, only pwa-cache-v1 survives, with its entries |
| Lifecycle.OnlyNamespaceAnswersMatch | public/sw.js:66 | once `pwa-cache-v1` is the only namespace, `caches.match` answers from it |
| Lifecycle.OfflinePageAfterInstallAndActivate | public/sw.js:60-67 | after a successful install and an activate, only `pwa-cache-v1` exists, and a page load that meets a network error gets the offline page fetched at install |
| TimeAgo.ElapsedSeconds | src/App.jsx:82 | the seconds are the floor of the elapsed milliseconds over 1000, for negative differences too |
| TimeAgo.GetTimeAgo | src/App.jsx:81-87 | "just now" iff seconds < 60; minutes iff 60 <= s < 3600, count 1..59; hours iff 3600 <= s < 86400, count 1..23; days iff s >= 86400, count >= 1; the four are disjoint and exhaustive |
| TimeAgo.CountIsWholeUnits | src/App.jsx:84-86 | the count shown is the floor of the elapsed seconds over the bucket's unit |
| TimeAgo.ElapsedMonotone | src/App.jsx:82 | elapsed seconds never decrease as `now - timestamp` grows |
| TimeAgo.BucketMonotone | src/App.jsx:82-86 | an older timestamp never shows a smaller bucket than a newer one at the same `now` |
| TimeAgo.Label | src/App.jsx:83-86 | the text `getTimeAgo` returns: exactly "방금 전" for the just-now bucket, otherwise the count's digits then 분 전, 시간 전 or 일 전; every label ends in " 전" |
| TimeAgo.LabelShape | src/App.jsx:83-86 | "방금 전" has no leading digits; every other label is the count's decimal digits followed by its unit |
| TimeAgo.LabelInjective | src/App.jsx:83-86 | two labels are equal only for the same bucket and count |
| Text.Decimal | src/App.jsx:84 | `${n}` for a count is at least one decimal digit with no leading zero |
| Text.DecimalRoundTrip | src/App.jsx:84 | reading the digits back gives the count |
| Text.DecimalInjective | src/App.jsx:84-86 | different counts are written differently |
| Text.TrimStart | src/App.jsx:51 | the leading part dropped is all whitespace; what is kept is a suffix that does not start with whitespace |
| Text.TrimEnd | src/App.jsx:51 | the trailing part dropped is all whitespace; what is kept is a prefix that does not end with whitespace |
| Text.Trim | src/App.jsx:51 | `trim()` is a slice of the input with only whitespace on either side, and starts and ends with non-whitespace |
| Text.TrimEmptyIffAllWhitespace | src/App.jsx:51-52 | the trimmed input is empty iff the input is all whitespace, the empty input included |
| Text.TrimIdempotent | src/App.jsx:51 | trimming twice equals trimming once |
| Text.TrimFixedIff | src/App.jsx:51 | `trim()` leaves a string unchanged exactly when it has no whitespace at either end |
| Memos.AddMemo | src/App.jsx:50-69 | blank input: screen unchanged, store not called, alert shown; else the store gets the trimmed memo with the two clock readings; on success the list is that memo followed by the old list (one longer) and the box is cleared; on failure the screen is unchanged and an alert shown |
| Memos.AddKeepsContentsTrimmed | src/App.jsx:51-64 | adding keeps every memo's text non-empty with no whitespace at either end, which is text `trim()` leaves unchanged |
| Memos.AddKeepsNewestFirst | src/App.jsx:58-64 | adding keeps the list newest first when the clock has not gone back past a shown memo |
| Memos.AddKeepsDistinctIds | src/App.jsx:58-64 | adding keeps ids distinct when the new id is not already shown |
| Memos.RemoveId | src/App.jsx:75 | a memo is kept iff it was in the list and its id differs |
| Memos.RemoveIdCounts | src/App.jsx:75 | each memo with another id is kept as often as it occurred; none with the deleted id remains |
| Memos.RemoveIdConcat | src/App.jsx:75 | filtering distributes over concatenation, so kept memos keep their relative order |
| Memos.RemoveAbsentId | src/App.jsx:75 | filtering by an id no memo has returns the list unchanged |
| Memos.RemoveIdIdempotent | src/App.jsx:75 | filtering the same id twice equals filtering once |
| Memos.RemoveIdKeepsBound | src/App.jsx:75 | filtering keeps an upper bound on the creation times shown |
| Memos.RemoveIdKeepsNewestFirst | src/App.jsx:75 | filtering keeps the list newest first |
| Memos.RemoveIdKeepsDistinctIds | src/App.jsx:75 | filtering keeps ids distinct |
| Memos.DeleteMemo | src/App.jsx:71-79 | the store is called iff confirmed; a declined or failed delete keeps the list; a failed one alone alerts; a successful one shows exactly the filtered list: no memo with the id, every other memo kept in its original order and multiplicity |
| Memos.DeleteKeepsInvariants | src/App.jsx:71-79 | deleting keeps texts trimmed, the list newest first and ids distinct |

## Left out

- `src/db.js` is not part of this model. It is a thin IndexedDB wrapper, so each store call is a success/failure parameter. Its descending `createdAt` sort appears only as the `NewestFirst` invariant the memo updates preserve.
- React rendering, hooks, dark mode, the install prompt and `loadMemos` (`src/App.jsx:14-48, 89-187`) are UI and are not modelled.
- `Date.now()`, `confirm` and `alert` are not modelled as calls. Clock readings and the confirmation are parameters, and the alert text is an output field. JavaScript numbers are modelled as unbounded integers, so floating-point limits on timestamps are not modelled.
- `event.waitUntil`, `event.respondWith` and promise scheduling are not modelled. Each handler is one sequential step. A rejected install chain is modelled only as the missing `SkippedWaiting` effect; the host discarding the new worker is left out.
- Concurrent fetch handlers, and races between an old worker's fetches and a new worker's activate, are not modelled. They concern interleaving, which a sequential model cannot express.
- `skipWaiting()` and `clients.claim()` are recorded only as effect markers, not as host behaviour.
- Lifecycle.FetchAll: `addAll` also rejects a 206 (partial) response and a response carrying `Vary: *`, which is not modelled; any fetch with a 200-299 status is accepted here, so for such a response the model signals skip-waiting where the real install chain rejects.
- Cache API details are simplified:
  - keys are request URLs exactly as written, with no resolution against the origin;
  - the request method is ignored, although the real `match` misses and `put` rejects for non-GET requests;
  - `addAll` with duplicate URLs is not rejected;
  - `caches.open` and `caches.delete` never fail;
  - deletions happen in key order, where the source starts them together and waits for all of them.
- A failed background `put` is modelled only as "the write did not happen", through the `putSucceeds` flag.
- The `!networkResponse` test at `public/sw.js:84` is not modelled, because a resolved fetch always carries a response.
- Console logging is not modelled.
