/**
 * An abstract browser cache storage: an ordered list of named namespaces, each a
 * map from request URL to a stored response. The order is creation order, which
 * is the order in which a storage-wide lookup (`caches.match`) searches.
 */
module CacheStorage {
  import opened Wrappers

  type Url = string

  /** A response as far as the worker looks at it: status code, `type` ("basic", "cors", "opaque", ...) and body. */
  datatype Response = Response(status: int, kind: string, body: string)

  type Entries = map<Url, Response>

  datatype Cache = Cache(name: string, entries: Entries)

  type Storage = seq<Cache>

  /** The names currently present (`caches.keys()` as a set). */
  function Names(s: Storage): set<string> {
    if s == [] then {} else {s[0].name} + Names(s[1..])
  }

  /** `caches.keys()`: the names in creation order. */
  function Keys(s: Storage): (ks: seq<string>)
    ensures |ks| == |s|
    ensures forall i {:trigger ks[i]} :: 0 <= i < |s| ==> ks[i] == s[i].name
  {
    if s == [] then [] else [s[0].name] + Keys(s[1..])
  }

  /** No two namespaces share a name: the invariant every operation below preserves. */
  predicate Valid(s: Storage) {
    s == [] || (s[0].name !in Names(s[1..]) && Valid(s[1..]))
  }

  /** A name is present exactly when some namespace carries it. */
  lemma NamesIndex(s: Storage, n: string)
    ensures n in Names(s) <==> exists i :: 0 <= i < |s| && s[i].name == n
  {
  }

  /** No value occurs twice in `xs`. */
  predicate NoDuplicates<T(==)>(xs: seq<T>) {
    forall i, j :: 0 <= i < j < |xs| ==> xs[i] != xs[j]
  }

  /** A list without duplicates: its head is not in its tail, and its tail has none either. */
  lemma TailDistinct<T>(xs: seq<T>)
    requires |xs| > 0 && NoDuplicates(xs)
    ensures xs[0] !in xs[1..] && NoDuplicates(xs[1..])
  {
    forall i | 0 <= i < |xs| - 1 ensures xs[1..][i] != xs[0] {
      assert xs[1..][i] == xs[i + 1];
    }
    forall i, j | 0 <= i < j < |xs| - 1 ensures xs[1..][i] != xs[1..][j] {
      assert xs[1..][i] == xs[i + 1] && xs[1..][j] == xs[j + 1];
    }
  }

  /** Putting a new value in front of a list without duplicates keeps it without duplicates. */
  lemma ConsDistinct<T>(x: T, xs: seq<T>)
    requires x !in xs && NoDuplicates(xs)
    ensures NoDuplicates([x] + xs)
  {
    var ys := [x] + xs;
    forall i, j | 0 <= i < j < |ys| ensures ys[i] != ys[j] {
      assert ys[j] == xs[j - 1];
      if i > 0 {
        assert ys[i] == xs[i - 1];
      }
    }
  }

  /** Distinct names is the same as `caches.keys()` listing no name twice. */
  lemma ValidIffKeysDistinct(s: Storage)
    ensures Valid(s) <==> NoDuplicates(Keys(s))
  {
    if Valid(s) {
      ValidKeysDistinct(s);
    }
    if NoDuplicates(Keys(s)) {
      KeysDistinctValid(s);
    }
  }

  lemma {:induction false} ValidKeysDistinct(s: Storage)
    requires Valid(s)
    ensures NoDuplicates(Keys(s))
  {
    if s != [] {
      ValidKeysDistinct(s[1..]);
      NamesIndex(s[1..], s[0].name);
      forall i, j | 0 <= i < j < |s| ensures Keys(s)[i] != Keys(s)[j] {
        if i == 0 {
          assert s[1..][j - 1].name == s[j].name;
        } else {
          assert Keys(s[1..])[i - 1] != Keys(s[1..])[j - 1];
        }
      }
    }
  }

  lemma {:induction false} KeysDistinctValid(s: Storage)
    requires NoDuplicates(Keys(s))
    ensures Valid(s)
  {
    if s != [] {
      forall i, j | 0 <= i < j < |s| - 1 ensures Keys(s[1..])[i] != Keys(s[1..])[j] {
        assert Keys(s)[i + 1] != Keys(s)[j + 1];
      }
      KeysDistinctValid(s[1..]);
      forall i | 0 <= i < |s[1..]| ensures s[1..][i].name != s[0].name {
        assert Keys(s)[0] != Keys(s)[i + 1];
      }
      NamesIndex(s[1..], s[0].name);
    }
  }

  /** `ks` with every occurrence of `name` removed, the others kept in order. */
  function Without(ks: seq<string>, name: string): (r: seq<string>)
    ensures forall k :: k in r <==> k in ks && k != name
  {
    if ks == [] then []
    else (if ks[0] == name then [] else [ks[0]]) + Without(ks[1..], name)
  }

  /** The entries of the first namespace called `name`, if there is one (`caches.open` on an existing name). */
  function Get(s: Storage, name: string): (r: Option<Entries>)
    ensures r.Some? <==> name in Names(s)
  {
    if s == [] then None
    else if s[0].name == name then Some(s[0].entries)
    else Get(s[1..], name)
  }

  /** `caches.open(name)`: the storage with a namespace called `name`, created empty at the end if absent. */
  function Open(s: Storage, name: string): (r: Storage)
    ensures Names(r) == Names(s) + {name}
    ensures Keys(r) == if name in Names(s) then Keys(s) else Keys(s) + [name]
    ensures Get(r, name) == if name in Names(s) then Get(s, name) else Some(map[])
    ensures forall n :: n != name ==> Get(r, n) == Get(s, n)
    ensures Valid(s) ==> Valid(r)
  {
    if name in Names(s) then s
    else
      AppendFacts(s, Cache(name, map[]));
      s + [Cache(name, map[])]
  }

  lemma {:induction false} AppendFacts(s: Storage, c: Cache)
    requires c.name !in Names(s)
    ensures Names(s + [c]) == Names(s) + {c.name}
    ensures Get(s + [c], c.name) == Some(c.entries)
    ensures forall n :: n != c.name ==> Get(s + [c], n) == Get(s, n)
    ensures Valid(s) ==> Valid(s + [c])
  {
    if s != [] {
      assert (s + [c])[1..] == s[1..] + [c];
      AppendFacts(s[1..], c);
    } else {
      assert Names([c]) == {c.name} + Names([]);
    }
  }

  /** Adds `batch` to every namespace called `name`, overwriting URLs already there; other namespaces are untouched. */
  function Update(s: Storage, name: string, batch: Entries): (r: Storage)
    ensures |r| == |s|
    ensures Names(r) == Names(s)
    ensures Keys(r) == Keys(s)
    ensures Get(r, name) == if name in Names(s) then Some(Get(s, name).value + batch) else None
    ensures forall n :: n != name ==> Get(r, n) == Get(s, n)
    ensures Valid(s) ==> Valid(r)
  {
    if s == [] then []
    else
      var c := if s[0].name == name then Cache(name, s[0].entries + batch) else s[0];
      [c] + Update(s[1..], name, batch)
  }

  /** Opens `name` and writes `batch` into it: `cache.put` for one URL, the write half of `cache.addAll` for several. */
  function Store(s: Storage, name: string, batch: Entries): (r: Storage)
    ensures Names(r) == Names(s) + {name}
    ensures Keys(r) == if name in Names(s) then Keys(s) else Keys(s) + [name]
    ensures Get(r, name) == Some(Get(s, name).GetOr(map[]) + batch)
    ensures forall n :: n != name ==> Get(r, n) == Get(s, n)
    ensures Valid(s) ==> Valid(r)
  {
    Update(Open(s, name), name, batch)
  }

  /** `cache.put(url, response)` on the namespace `name`. */
  function Put(s: Storage, name: string, url: Url, resp: Response): (r: Storage)
    ensures Names(r) == Names(s) + {name}
    ensures Keys(r) == if name in Names(s) then Keys(s) else Keys(s) + [name]
    ensures Get(r, name) == Some(Get(s, name).GetOr(map[])[url := resp])
    ensures forall n :: n != name ==> Get(r, n) == Get(s, n)
    ensures Valid(s) ==> Valid(r)
  {
    assert Get(s, name).GetOr(map[]) + map[url := resp] == Get(s, name).GetOr(map[])[url := resp];
    Store(s, name, map[url := resp])
  }

  /** `caches.delete(name)`: removes the namespace called `name`, keeping the others in order. */
  function Delete(s: Storage, name: string): (r: Storage)
    ensures Names(r) == Names(s) - {name}
    ensures Get(r, name) == None
    ensures forall n :: n != name ==> Get(r, n) == Get(s, n)
    ensures Valid(s) ==> Valid(r)
  {
    if s == [] then []
    else if s[0].name == name then Delete(s[1..], name)
    else [s[0]] + Delete(s[1..], name)
  }

  /** Deleting keeps the other namespaces in their creation order. */
  lemma {:induction false} DeleteKeepsOrder(s: Storage, name: string)
    ensures Keys(Delete(s, name)) == Without(Keys(s), name)
  {
    if s != [] {
      DeleteKeepsOrder(s[1..], name);
      assert Keys(s)[1..] == Keys(s[1..]);
    }
  }

  /** Namespace `i` holds an entry for `url`. */
  predicate Holds(s: Storage, i: int, url: Url) {
    0 <= i < |s| && url in s[i].entries
  }

  /**
   * `caches.match(url)`: the entry of the first namespace, in creation order,
   * that holds `url`; `None` (JavaScript's `undefined`) when no namespace does.
   */
  function Match(s: Storage, url: Url): (r: Option<Response>)
    ensures r.None? <==> forall i :: !Holds(s, i, url)
    ensures r.Some? ==> exists i :: Holds(s, i, url) && r.value == s[i].entries[url]
                                    && forall j :: 0 <= j < i ==> !Holds(s, j, url)
  {
    if s == [] then None
    else if url in s[0].entries then
      assert Holds(s, 0, url);
      Some(s[0].entries[url])
    else
      var r := Match(s[1..], url);
      assert forall i :: Holds(s[1..], i, url) <==> Holds(s, i + 1, url);
      if r.Some? then
        var i :| Holds(s[1..], i, url) && r.value == s[1..][i].entries[url]
                 && forall j :: 0 <= j < i ==> !Holds(s[1..], j, url);
        forall j | 0 <= j < i + 1 ensures !Holds(s, j, url) {
          if j > 0 { assert !Holds(s[1..], j - 1, url); }
        }
        assert Holds(s, i + 1, url);
        r
      else
        assert forall i :: 0 <= i < |s| ==> !Holds(s, i, url) by {
          forall i | 0 <= i < |s| ensures !Holds(s, i, url) {
            if i > 0 { assert !Holds(s[1..], i - 1, url); }
          }
        }
        r
  }

  /** A namespace's entry is what `caches.match` finds when no namespace holds the URL anywhere else. */
  lemma MatchSoleHolder(s: Storage, name: string, url: Url)
    requires Get(s, name).Some? && url in Get(s, name).value
    requires forall i :: Holds(s, i, url) ==> s[i].name == name
    ensures Match(s, url) == Some(Get(s, name).value[url])
  {
  }
}
