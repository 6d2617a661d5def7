/**
 * The install and activate handlers: install primes `CACHE_NAME` with the fixed
 * URL list and signals skip-waiting; activate deletes every other namespace and
 * then claims the open pages.
 */
module Lifecycle {
  import opened Wrappers
  import opened CacheStorage
  import opened Config
  import opened Classifier
  import opened Strategies

  /** The host-visible effects of the two handlers, in the order they happen. */
  datatype Effect = Deleted(name: string) | SkippedWaiting | Claimed

  /** The storage after a handler settles and the effects it produced. */
  datatype Transition = Transition(storage: Storage, effects: seq<Effect>)

  /**
   * A fetched response `cache.addAll` accepts: the fetch succeeded with an ok
   * (200-299) status. The Cache API's further refusal of a 206 (partial) response
   * and of one carrying `Vary: *` is not modelled.
   */
  predicate Accepted(o: Outcome) {
    o.Ok? && 200 <= o.response.status <= 299
  }

  /** Every URL of the list is fetched and accepted. */
  predicate AllAccepted(urls: seq<Url>, net: Url -> Outcome) {
    forall k :: 0 <= k < |urls| ==> Accepted(net(urls[k]))
  }

  /**
   * The fetch half of `cache.addAll(urls)`: the responses keyed by URL when every
   * fetch is accepted, and `None` (the whole batch rejects) as soon as one is not.
   */
  function FetchAll(urls: seq<Url>, net: Url -> Outcome): (r: Option<Entries>)
    ensures r.Some? <==> AllAccepted(urls, net)
    ensures r.Some? ==> r.value.Keys == set k | 0 <= k < |urls| :: urls[k]
    ensures r.Some? ==> forall k :: 0 <= k < |urls| ==> r.value[urls[k]] == net(urls[k]).response
  {
    if urls == [] then Some(map[])
    else if !Accepted(net(urls[0])) then None
    else
      match FetchAll(urls[1..], net)
      case None => None
      case Some(rest) =>
        assert forall k :: 1 <= k < |urls| ==> urls[k] == urls[1..][k - 1];
        assert (set k | 0 <= k < |urls| :: urls[k]) == {urls[0]} + (set k | 0 <= k < |urls[1..]| :: urls[1..][k]);
        Some(rest[urls[0] := net(urls[0]).response])
  }

  /** Every URL of the list is stored with the response the network gave for it. */
  predicate StoresAll(e: Entries, urls: seq<Url>, net: Url -> Outcome) {
    forall k :: 0 <= k < |urls| ==> urls[k] in e && net(urls[k]) == Ok(e[urls[k]])
  }

  /**
   * The install handler: opens `CACHE_NAME` (creating it), then adds every URL of
   * `URLS_TO_CACHE` at once and signals skip-waiting; if any fetch is not accepted
   * the chain rejects before writing anything and skip-waiting is never reached.
   */
  function Install(s: Storage, net: Url -> Outcome): (t: Transition)
    ensures Names(t.storage) == Names(s) + {CACHE_NAME}
    ensures Valid(s) ==> Valid(t.storage)
    ensures t.effects == if AllAccepted(URLS_TO_CACHE, net) then [SkippedWaiting] else []
    ensures AllAccepted(URLS_TO_CACHE, net) ==>
              Get(t.storage, CACHE_NAME).Some? && StoresAll(Get(t.storage, CACHE_NAME).value, URLS_TO_CACHE, net)
    ensures AllAccepted(URLS_TO_CACHE, net) ==>
              Get(t.storage, CACHE_NAME) == Some(Get(s, CACHE_NAME).GetOr(map[]) + FetchAll(URLS_TO_CACHE, net).value)
    ensures !AllAccepted(URLS_TO_CACHE, net) ==> Get(t.storage, CACHE_NAME) == Some(Get(s, CACHE_NAME).GetOr(map[]))
  {
    var withCache := Open(s, CACHE_NAME);
    match FetchAll(URLS_TO_CACHE, net)
    case None => Transition(withCache, [])
    case Some(batch) =>
      assert StoresAll(batch, URLS_TO_CACHE, net);
      Transition(Store(withCache, CACHE_NAME, batch), [SkippedWaiting])
  }

  /** Install touches no namespace but `CACHE_NAME`. */
  lemma InstallLeavesOtherNamespaces(s: Storage, net: Url -> Outcome, n: string)
    requires n != CACHE_NAME
    ensures Get(Install(s, net).storage, n) == Get(s, n)
  {
  }

  /** Install keeps every namespace where it was, appending `CACHE_NAME` last if it is new. */
  lemma InstallKeepsOrder(s: Storage, net: Url -> Outcome)
    ensures Keys(Install(s, net).storage) == if CACHE_NAME in Names(s) then Keys(s) else Keys(s) + [CACHE_NAME]
  {
  }

  /** Installing a second time with the same network answers leaves exactly the storage one install left. */
  lemma InstallIdempotent(s: Storage, net: Url -> Outcome)
    ensures Install(Install(s, net).storage, net).storage == Install(s, net).storage
  {
    var s1 := Install(s, net).storage;
    match FetchAll(URLS_TO_CACHE, net)
    case None =>
    case Some(batch) =>
      var o := Open(s, CACHE_NAME);
      assert s1 == Update(o, CACHE_NAME, batch);
      assert Open(s1, CACHE_NAME) == s1;
      UpdateTwice(o, CACHE_NAME, batch);
  }

  /** Writing the same batch into a namespace twice is the same as writing it once. */
  lemma {:induction false} UpdateTwice(s: Storage, name: string, batch: Entries)
    ensures Update(Update(s, name, batch), name, batch) == Update(s, name, batch)
  {
    if s != [] {
      UpdateTwice(s[1..], name, batch);
      if s[0].name == name {
        assert s[0].entries + batch + batch == s[0].entries + batch;
      }
    }
  }

  /** The names among `names` that a sweep deletes: all but `CACHE_NAME`. */
  function Doomed(names: seq<string>): (d: set<string>)
    ensures CACHE_NAME !in d
    ensures forall n :: n in d ==> n in names
  {
    if names == [] then {}
    else (if names[0] != CACHE_NAME then {names[0]} else {}) + Doomed(names[1..])
  }

  /** Listing every name and dooming all but `CACHE_NAME` dooms exactly the other namespaces. */
  lemma {:induction false} DoomedKeys(s: Storage)
    ensures Doomed(Keys(s)) == Names(s) - {CACHE_NAME}
  {
    if s != [] {
      DoomedKeys(s[1..]);
      assert Keys(s)[1..] == Keys(s[1..]);
    }
  }

  /** Deletes, in order, each of `names` that differs from `CACHE_NAME`, recording each deletion. */
  function Sweep(s: Storage, names: seq<string>): (t: Transition)
    ensures Names(t.storage) == Names(s) - Doomed(names)
    ensures Get(t.storage, CACHE_NAME) == Get(s, CACHE_NAME)
    ensures Valid(s) ==> Valid(t.storage)
    ensures forall i :: 0 <= i < |t.effects| ==> t.effects[i].Deleted?
    ensures forall n :: Deleted(n) in t.effects <==> n in Doomed(names)
    ensures t.effects == Deletions(names)
    decreases |names|
  {
    if names == [] then Transition(s, [])
    else
      var s' := if names[0] != CACHE_NAME then Delete(s, names[0]) else s;
      var rest := Sweep(s', names[1..]);
      if names[0] != CACHE_NAME then Transition(rest.storage, [Deleted(names[0])] + rest.effects)
      else rest
  }

  /** The deletions a sweep over `names` records, in order: one per name other than `CACHE_NAME`. */
  function Deletions(names: seq<string>): (e: seq<Effect>)
    ensures forall i :: 0 <= i < |e| ==> e[i].Deleted?
    ensures forall n :: Deleted(n) in e <==> n in Doomed(names)
  {
    if names == [] then []
    else (if names[0] != CACHE_NAME then [Deleted(names[0])] else []) + Deletions(names[1..])
  }

  /** Distinct names give distinct deletion records. */
  lemma {:induction false} DeletionsDistinct(names: seq<string>)
    requires NoDuplicates(names)
    ensures NoDuplicates(Deletions(names))
  {
    if names != [] {
      TailDistinct(names);
      DeletionsDistinct(names[1..]);
      if names[0] != CACHE_NAME {
        assert names[0] !in Doomed(names[1..]);
        ConsDistinct(Deleted(names[0]), Deletions(names[1..]));
        assert Deletions(names) == [Deleted(names[0])] + Deletions(names[1..]);
      }
    }
  }

  /** A sweep that dooms nothing changes nothing. */
  lemma {:induction false} SweepNothingDoomed(s: Storage, names: seq<string>)
    requires Doomed(names) == {}
    ensures Sweep(s, names).storage == s
    decreases |names|
  {
    if names != [] {
      assert names[0] == CACHE_NAME;
      SweepNothingDoomed(s, names[1..]);
    }
  }

  /**
   * The activate handler: deletes every namespace named anything but `CACHE_NAME`,
   * whatever its name looks like, and claims the open pages only once every
   * deletion has been made.
   */
  function Activate(s: Storage): (t: Transition)
    ensures Names(t.storage) == Names(s) * {CACHE_NAME}
    ensures Get(t.storage, CACHE_NAME) == Get(s, CACHE_NAME)
    ensures Valid(s) ==> Valid(t.storage)
    ensures |t.effects| >= 1 && t.effects[|t.effects| - 1] == Claimed
    ensures Claimed !in t.effects[..|t.effects| - 1]
    ensures forall i :: 0 <= i < |t.effects| - 1 ==> t.effects[i].Deleted?
    ensures forall n :: Deleted(n) in t.effects <==> n in Names(s) && n != CACHE_NAME
    ensures Valid(s) ==> NoDuplicates(t.effects)
  {
    var swept := Sweep(s, Keys(s));
    DoomedKeys(s);
    ValidIffKeysDistinct(s);
    if NoDuplicates(Keys(s)) then
      DeletionsDistinct(Keys(s));
      Claim(swept)
    else
      Claim(swept)
  }

  /** Appends the claim after a sweep: deletions first, each kept, then exactly one `Claimed`. */
  function Claim(swept: Transition): (t: Transition)
    requires forall i :: 0 <= i < |swept.effects| ==> swept.effects[i].Deleted?
    ensures t.storage == swept.storage
    ensures |t.effects| == |swept.effects| + 1
    ensures t.effects[..|t.effects| - 1] == swept.effects && t.effects[|t.effects| - 1] == Claimed
    ensures Claimed !in swept.effects
    ensures NoDuplicates(swept.effects) ==> NoDuplicates(t.effects)
  {
    var effects := swept.effects + [Claimed];
    assert effects[..|effects| - 1] == swept.effects;
    assert forall i :: 0 <= i < |swept.effects| ==> effects[i] == swept.effects[i];
    Transition(swept.storage, effects)
  }

  /** Activating twice in a row deletes nothing the second time and leaves the same storage. */
  lemma ActivateIdempotent(s: Storage)
    ensures Activate(Activate(s).storage).storage == Activate(s).storage
  {
    var s1 := Activate(s).storage;
    DoomedKeys(s1);
    SweepNothingDoomed(s1, Keys(s1));
  }

  /** Another application's namespace is deleted like an old generation of this one: only `CACHE_NAME` survives. */
  lemma ActivateDeletesForeignNamespaces(kept: Entries)
    ensures var s := [Cache("pwa-cache-v0", map[]), Cache("other-app-cache", map[]), Cache(CACHE_NAME, kept)];
            && Names(Activate(s).storage) == {CACHE_NAME}
            && Get(Activate(s).storage, CACHE_NAME) == Some(kept)
  {
    ForeignScenario(kept);
  }

  /** The names and the `CACHE_NAME` entries of the three-namespace storage above. */
  lemma ForeignScenario(kept: Entries)
    ensures var s := [Cache("pwa-cache-v0", map[]), Cache("other-app-cache", map[]), Cache(CACHE_NAME, kept)];
            && Names(s) * {CACHE_NAME} == {CACHE_NAME}
            && Get(s, CACHE_NAME) == Some(kept)
  {
    var s := [Cache("pwa-cache-v0", map[]), Cache("other-app-cache", map[]), Cache(CACHE_NAME, kept)];
    assert CACHE_NAME == "pwa-cache-v1";
    assert "pwa-cache-v0"[11] != CACHE_NAME[11];
    assert |"other-app-cache"| != |CACHE_NAME|;
    assert s[1..][1..][1..] == [];
    assert Names(s[1..][1..]) == {CACHE_NAME};
    assert Names(s[1..]) == {"other-app-cache", CACHE_NAME};
    assert Names(s) == {"pwa-cache-v0", "other-app-cache", CACHE_NAME};
    assert Get(s[1..][1..], CACHE_NAME) == Some(kept);
    assert Get(s[1..], CACHE_NAME) == Some(kept);
    assert Get(s, CACHE_NAME) == Some(kept);
  }

  /**
   * A successful install followed by activation leaves exactly `CACHE_NAME`, and from
   * then on a page load that meets a network error is answered with the offline page
   * fetched at install time.
   */
  lemma OfflinePageAfterInstallAndActivate(s: Storage, net: Url -> Outcome, req: Request, putSucceeds: bool)
    requires Valid(s)
    requires AllAccepted(URLS_TO_CACHE, net)
    requires Classify(req) == NetworkFirst
    ensures var live := Activate(Install(s, net).storage).storage;
            && Names(live) == {CACHE_NAME}
            && net(OFFLINE_URL).Ok?
            && HandleFetch(live, req, Fail, putSucceeds).reply == Some(net(OFFLINE_URL).response)
  {
    var installed := Install(s, net).storage;
    InstallStoresOfflinePage(s, net);
    var live := Activate(installed).storage;
    ActivateAfterInstall(installed, Names(s));
    OnlyNamespaceAnswersMatch(live, CACHE_NAME, OFFLINE_URL);
    assert Match(live, OFFLINE_URL) == Some(net(OFFLINE_URL).response);
  }

  /** Activating a storage that holds `CACHE_NAME` leaves that namespace alone and nothing else. */
  lemma ActivateAfterInstall(installed: Storage, before: set<string>)
    requires Names(installed) == before + {CACHE_NAME}
    ensures Names(Activate(installed).storage) == {CACHE_NAME}
    ensures Get(Activate(installed).storage, CACHE_NAME) == Get(installed, CACHE_NAME)
  {
  }

  /** A successful install stores the offline page under its URL in `CACHE_NAME`. */
  lemma InstallStoresOfflinePage(s: Storage, net: Url -> Outcome)
    requires AllAccepted(URLS_TO_CACHE, net)
    ensures var g := Get(Install(s, net).storage, CACHE_NAME);
            net(OFFLINE_URL).Ok? && g.Some? && OFFLINE_URL in g.value && g.value[OFFLINE_URL] == net(OFFLINE_URL).response
  {
    assert URLS_TO_CACHE[2] == OFFLINE_URL;
    assert Accepted(net(URLS_TO_CACHE[2]));
  }

  /** When `name` is the only namespace left, `caches.match` answers from it. */
  lemma OnlyNamespaceAnswersMatch(s: Storage, name: string, url: Url)
    requires Names(s) == {name}
    requires url in Get(s, name).value
    ensures Match(s, url) == Some(Get(s, name).value[url])
  {
  }
}
