/**
 * The fetch listener's routing decision: every intercepted request goes to
 * exactly one of three strategies, chosen by a first-match-wins priority chain.
 */
module Classifier {
  import opened Wrappers
  import opened Text
  import opened Config

  /** The parts of a request the worker inspects; `accept` is `None` when the header is absent. */
  datatype Request = Request(url: string, mode: string, httpMethod: string, accept: Option<string>)

  datatype Strategy = NetworkOnly | NetworkFirst | CacheFirst

  /** A literal suffix test on the whole URL, so `/manifest.json?v=2` does not count. */
  predicate IsManifest(req: Request) {
    EndsWith(req.url, MANIFEST_SUFFIX)
  }

  /** A header value is used only when it is present and non-empty (JavaScript truthiness). */
  predicate AcceptsHtml(req: Request) {
    req.accept.Some? && req.accept.value != "" && Includes(req.accept.value, "text/html")
  }

  /** A page load: a navigation, or a GET whose Accept header asks for HTML. */
  predicate IsPageRequest(req: Request) {
    req.mode == "navigate" || (req.httpMethod == "GET" && AcceptsHtml(req))
  }

  /** The fetch listener's decision, with its conditions checked in the listener's order. */
  function Classify(req: Request): (st: Strategy)
    ensures IsManifest(req) ==> st == NetworkOnly
    ensures st == NetworkFirst <==> !IsManifest(req) && IsPageRequest(req)
    ensures st == CacheFirst <==> !IsManifest(req) && !IsPageRequest(req)
  {
    if IsManifest(req) then NetworkOnly
    else if IsPageRequest(req) then NetworkFirst
    else CacheFirst
  }

  /** One rule of an ordered routing table. */
  datatype Rule = Rule(applies: Request -> bool, strategy: Strategy)

  /** Evaluates an ordered rule table top-down: the first rule that applies decides, else `fallback`. */
  function FirstMatch(rules: seq<Rule>, req: Request, fallback: Strategy): Strategy {
    if rules == [] then fallback
    else if rules[0].applies(req) then rules[0].strategy
    else FirstMatch(rules[1..], req, fallback)
  }

  /** The routing policy written out as an explicit table. */
  function RoutingTable(): seq<Rule> {
    [Rule(IsManifest, NetworkOnly), Rule(IsPageRequest, NetworkFirst)]
  }

  /** The listener's nested tests agree with the table read top-down with `CacheFirst` as the default. */
  lemma ClassifyIsFirstMatch(req: Request)
    ensures Classify(req) == FirstMatch(RoutingTable(), req, CacheFirst)
  {
    var table := RoutingTable();
    assert table[1..] == [Rule(IsPageRequest, NetworkFirst)];
    assert table[1..][1..] == [];
    assert table[0].applies(req) == IsManifest(req);
    assert table[1].applies(req) == IsPageRequest(req);
    assert FirstMatch(table[1..][1..], req, CacheFirst) == CacheFirst;
    assert FirstMatch(table[1..], req, CacheFirst) == if IsPageRequest(req) then NetworkFirst else CacheFirst;
  }

  /** A manifest URL goes to the network whatever its mode, method and Accept header. */
  lemma ManifestAlwaysNetworkOnly(url: string, mode: string, httpMethod: string, accept: Option<string>)
    requires EndsWith(url, MANIFEST_SUFFIX)
    ensures Classify(Request(url, mode, httpMethod, accept)) == NetworkOnly
  {
  }

  /** Only a manifest URL goes to the network with no fallback. */
  lemma NetworkOnlyMeansManifest(req: Request)
    ensures Classify(req) == NetworkOnly <==> IsManifest(req)
  {
  }

  /** A navigation that is not for the manifest is a page load, whatever its method and headers. */
  lemma NavigationIsNetworkFirst(url: string, httpMethod: string, accept: Option<string>)
    requires !EndsWith(url, MANIFEST_SUFFIX)
    ensures Classify(Request(url, "navigate", httpMethod, accept)) == NetworkFirst
  {
  }

  /** A GET whose Accept header mentions `text/html` anywhere is a page load, whatever its mode. */
  lemma HtmlGetIsNetworkFirst(url: string, mode: string, accept: string, i: int)
    requires !EndsWith(url, MANIFEST_SUFFIX)
    requires OccursAt(accept, "text/html", i)
    ensures Classify(Request(url, mode, "GET", Some(accept))) == NetworkFirst
  {
    IncludesIffOccurs(accept, "text/html");
  }

  /** A query string defeats the manifest test: the request is routed like any other asset. */
  lemma ManifestWithQueryIsNotNetworkOnly()
    ensures Classify(Request("/manifest.json?v=2", "no-cors", "GET", None)) == CacheFirst
  {
    assert "/manifest.json?v=2"[4..] != MANIFEST_SUFFIX by {
      assert "/manifest.json?v=2"[4..][0] == 'i' != MANIFEST_SUFFIX[0];
    }
  }
}
