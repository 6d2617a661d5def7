/**
 * The three routing strategies and the fetch listener that dispatches to them.
 * Each is a step over the cache storage: given the storage and what the network
 * would answer, it yields what the page receives and the storage afterwards.
 */
module Strategies {
  import opened Wrappers
  import opened CacheStorage
  import opened Classifier
  import opened Config

  /** What the network gives back for one fetch: a response of any status, or a network error. */
  datatype Outcome = Ok(response: Response) | Fail

  /**
   * The result of handling one request: what the page receives (`None` is a failed
   * fetch, which is also what the page sees when a fallback lookup finds nothing),
   * the storage afterwards, and whether the network was asked at all.
   */
  datatype Handled = Handled(reply: Option<Response>, storage: Storage, networkCalled: bool)

  /** The only responses the cache-first strategy writes: status 200 of type "basic". */
  predicate Cacheable(resp: Response) {
    resp.status == 200 && resp.kind == "basic"
  }

  /** Recovery from a network error: the offline page from whichever namespace holds it first, else nothing. */
  function OfflineFallback(s: Storage): (r: Option<Response>)
    ensures r.Some? <==> exists i :: Holds(s, i, OFFLINE_URL)
  {
    Match(s, OFFLINE_URL)
  }

  /** Network only: the network's answer is passed through and the cache is never touched. */
  function NetworkOnlyStep(s: Storage, net: Outcome): (h: Handled)
    ensures h.storage == s && h.networkCalled
    ensures h.reply.Some? <==> net.Ok?
    ensures net.Ok? ==> h.reply.value == net.response
  {
    match net
    case Ok(resp) => Handled(Some(resp), s, true)
    case Fail => Handled(None, s, true)
  }

  /** Network first: any response, error statuses included, is passed through unmodified; a network error falls back to the offline page. */
  function NetworkFirstStep(s: Storage, net: Outcome): (h: Handled)
    ensures h.storage == s && h.networkCalled
    ensures net.Ok? ==> h.reply == Some(net.response)
    ensures net.Fail? ==> (h.reply.Some? <==> exists i :: Holds(s, i, OFFLINE_URL))
  {
    match net
    case Ok(resp) => Handled(Some(resp), s, true)
    case Fail => Handled(OfflineFallback(s), s, true)
  }

  /**
   * Cache first: a hit is served from storage without asking the network; a miss
   * asks the network, passes its response through, and writes a cacheable one into
   * `CACHE_NAME` when the fire-and-forget write completes (`putSucceeds`).
   */
  function CacheFirstStep(s: Storage, url: Url, net: Outcome, putSucceeds: bool): (h: Handled)
    ensures !h.networkCalled <==> Match(s, url).Some?
    ensures !h.networkCalled ==> h.reply == Match(s, url) && h.storage == s
    ensures h.networkCalled && net.Ok? ==> h.reply == Some(net.response)
    ensures h.networkCalled && net.Fail? ==> h.reply == OfflineFallback(s) && h.storage == s
    ensures h.storage != s ==> h.networkCalled && net.Ok? && Cacheable(net.response) && putSucceeds
  {
    match Match(s, url)
    case Some(cached) => Handled(Some(cached), s, false)
    case None =>
      match net
      case Fail => Handled(OfflineFallback(s), s, true)
      case Ok(resp) =>
        var s' := if Cacheable(resp) && putSucceeds then Put(s, CACHE_NAME, url, resp) else s;
        Handled(Some(resp), s', true)
  }

  /** The fetch listener: classify, then run the chosen strategy. */
  function HandleFetch(s: Storage, req: Request, net: Outcome, putSucceeds: bool): (h: Handled)
    ensures Valid(s) ==> Valid(h.storage)
  {
    match Classify(req)
    case NetworkOnly => NetworkOnlyStep(s, net)
    case NetworkFirst => NetworkFirstStep(s, net)
    case CacheFirst => CacheFirstStep(s, req.url, net, putSucceeds)
  }

  /** The one way a fetch changes storage: a cache-first miss whose network response is cacheable and whose write completes. */
  predicate WritesBack(s: Storage, req: Request, net: Outcome, putSucceeds: bool) {
    && Classify(req) == CacheFirst
    && Match(s, req.url).None?
    && net.Ok? && Cacheable(net.response)
    && putSucceeds
  }

  /** Storage changes exactly on a write-back, and then only by storing the response under the request URL in `CACHE_NAME`. */
  lemma StorageChangesOnlyByWriteBack(s: Storage, req: Request, net: Outcome, putSucceeds: bool)
    ensures var h := HandleFetch(s, req, net, putSucceeds);
            h.storage == if WritesBack(s, req, net, putSucceeds)
                         then Put(s, CACHE_NAME, req.url, net.response) else s
  {
  }

  /** A write-back adds one URL to `CACHE_NAME`; every other namespace and every other URL is left as it was. */
  lemma WriteBackIsLocal(s: Storage, req: Request, net: Outcome, putSucceeds: bool)
    requires WritesBack(s, req, net, putSucceeds)
    ensures var h := HandleFetch(s, req, net, putSucceeds);
            && Names(h.storage) == Names(s) + {CACHE_NAME}
            && (forall n :: n != CACHE_NAME ==> Get(h.storage, n) == Get(s, n))
            && Get(h.storage, CACHE_NAME).Some?
            && Get(h.storage, CACHE_NAME).value == Get(s, CACHE_NAME).GetOr(map[])[req.url := net.response]
  {
  }

  /** A response that is not 200/"basic" never reaches the cache, yet the page still receives it. */
  lemma UncacheableNeverStored(s: Storage, req: Request, resp: Response, putSucceeds: bool)
    requires !Cacheable(resp)
    ensures var h := HandleFetch(s, req, Ok(resp), putSucceeds);
            h.storage == s && (h.networkCalled ==> h.reply == Some(resp))
  {
  }

  /** Manifest and page requests never change storage. */
  lemma NetworkStrategiesLeaveStorage(s: Storage, req: Request, net: Outcome, putSucceeds: bool)
    requires Classify(req) != CacheFirst
    ensures HandleFetch(s, req, net, putSucceeds).storage == s
  {
  }

  /** Whenever the network is asked and answers, the page receives that answer unmodified, for every status code. */
  lemma NetworkAnswerPassedThrough(s: Storage, req: Request, resp: Response, putSucceeds: bool)
    ensures var h := HandleFetch(s, req, Ok(resp), putSucceeds);
            h.networkCalled ==> h.reply == Some(resp)
  {
  }

  /**
   * On a network error, the manifest fetch fails; the two fallback paths both
   * answer with the cached offline page if any namespace holds it, else fail;
   * storage is unchanged either way.
   */
  lemma NetworkErrorFallback(s: Storage, req: Request, putSucceeds: bool)
    ensures var h := HandleFetch(s, req, Fail, putSucceeds);
            && h.storage == s
            && (h.networkCalled ==>
                  h.reply == if Classify(req) == NetworkOnly then None else Match(s, OFFLINE_URL))
  {
  }

  /** The network is skipped exactly on a cache-first hit, which serves the stored entry and changes nothing. */
  lemma CacheHitSkipsNetwork(s: Storage, req: Request, net: Outcome, putSucceeds: bool)
    ensures var h := HandleFetch(s, req, net, putSucceeds);
            && (!h.networkCalled <==> Classify(req) == CacheFirst && Match(s, req.url).Some?)
            && (!h.networkCalled ==> h.reply == Match(s, req.url) && h.storage == s)
  {
  }

  /** Whether the background write completes never affects what the page receives. */
  lemma WriteOutcomeInvisibleToPage(s: Storage, req: Request, net: Outcome)
    ensures HandleFetch(s, req, net, true).reply == HandleFetch(s, req, net, false).reply
    ensures HandleFetch(s, req, net, true).networkCalled == HandleFetch(s, req, net, false).networkCalled
  {
  }

  /** After a completed write-back, repeating the request is served from the cache, without the network, with the stored response. */
  lemma RepeatServedFromCache(s: Storage, req: Request, net: Outcome, later: Outcome, putLater: bool)
    requires WritesBack(s, req, net, true)
    ensures var s1 := HandleFetch(s, req, net, true).storage;
            var h := HandleFetch(s1, req, later, putLater);
            && !h.networkCalled
            && h.reply == Some(net.response)
            && h.storage == s1
  {
    var s1 := HandleFetch(s, req, net, true).storage;
    forall i | Holds(s1, i, req.url) ensures s1[i].name == CACHE_NAME {
      if s1[i].name != CACHE_NAME {
        PutHoldersOnlyInTarget(s, CACHE_NAME, req.url, net.response, i);
      }
    }
    MatchSoleHolder(s1, CACHE_NAME, req.url);
  }

  /** After `Put` of a URL no namespace held, only the target namespace holds it. */
  lemma PutHoldersOnlyInTarget(s: Storage, name: string, url: Url, resp: Response, i: int)
    requires Match(s, url).None?
    requires Holds(Put(s, name, url, resp), i, url)
    ensures Put(s, name, url, resp)[i].name == name
  {
    var o := Open(s, name);
    if name !in Names(s) {
      assert o == s + [Cache(name, map[])];
    }
    UpdateHolders(o, name, map[url := resp], url, i);
    if i < |s| {
      assert o[i] == s[i];
      assert !Holds(s, i, url);
    }
  }

  /** A namespace that holds `url` after `Update` either is the updated one or held it already. */
  lemma {:induction false} UpdateHolders(s: Storage, name: string, batch: Entries, url: Url, i: int)
    requires Holds(Update(s, name, batch), i, url)
    ensures Update(s, name, batch)[i].name == name || Holds(s, i, url)
    ensures Update(s, name, batch)[i].name == s[i].name
    decreases |s|
  {
    if i > 0 {
      assert Update(s, name, batch)[i] == Update(s[1..], name, batch)[i - 1];
      UpdateHolders(s[1..], name, batch, url, i - 1);
    }
  }
}
