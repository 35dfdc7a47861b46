/**
 * The cross-page searches of seoRules.js (equal titles, equal descriptions) and assetRules.js
 * (equal content hashes, resources referenced twice): values collected in a Map and reported
 * when they occur more than once.
 */
module Duplicates {
  import opened Prelude

  /** A page or asset and the value looked for in it; "" is the falsy value. */
  datatype Entry = Entry(key: string, url: string)

  datatype Cluster = Cluster(key: string, urls: seq<string>)

  // ------------------------------------------------------------------ the specification

  /** The urls under a key, in order. */
  function UrlsOf(es: seq<Entry>, key: string): seq<string> {
    if es == [] then []
    else
      var urls := UrlsOf(es[..|es| - 1], key);
      if es[|es| - 1].key == key then urls + [es[|es| - 1].url] else urls
  }

  /** The keys that occur, in order of first occurrence. */
  function KeysOf(es: seq<Entry>): seq<string> {
    if es == [] then []
    else
      var keys, key := KeysOf(es[..|es| - 1]), es[|es| - 1].key;
      if key == "" || key in keys then keys else keys + [key]
  }

  /** Among `keys`, those used more than once, with their users. */
  function Repeated(es: seq<Entry>, keys: seq<string>): seq<Cluster> {
    if keys == [] then []
    else
      var rest, key := Repeated(es, keys[..|keys| - 1]), keys[|keys| - 1];
      if |UrlsOf(es, key)| > 1 then rest + [Cluster(key, UrlsOf(es, key))] else rest
  }

  function Clusters(es: seq<Entry>): seq<Cluster> {
    Repeated(es, KeysOf(es))
  }

  // ------------------------------------------------------------------ the implementation

  ghost predicate Filled(es: seq<Entry>, order: seq<string>, users: map<string, seq<string>>) {
    && order == KeysOf(es)
    && users.Keys == ToSet(order)
    && forall key :: key in users ==> users[key] == UrlsOf(es, key)
  }

  lemma {:induction false} KeysOccur(es: seq<Entry>)
    ensures NoDup(KeysOf(es))
    ensures forall key :: key in KeysOf(es) <==> key != "" && UrlsOf(es, key) != []
  {
    if es != [] {
      KeysOccur(es[..|es| - 1]);
    }
  }

  /** The loop that fills the Map, then the loop over its entries. */
  method FindClusters(es: seq<Entry>) returns (clusters: seq<Cluster>)
    ensures clusters == Clusters(es)
  {
    var order: seq<string>, users: map<string, seq<string>> := [], map[];
    for i := 0 to |es|
      invariant Filled(es[..i], order, users)
    {
      KeysOccur(es[..i]);
      assert es[..i + 1][..i] == es[..i];
      assert es[i].key in order <==> es[i].key in ToSet(order);
      if es[i].key != "" {
        if es[i].key !in users {
          order := order + [es[i].key];
          users := users[es[i].key := []];
        }
        users := users[es[i].key := users[es[i].key] + [es[i].url]];
      }
    }
    assert es[..|es|] == es;
    clusters := [];
    for k := 0 to |order|
      invariant clusters == Repeated(es, order[..k])
    {
      assert order[..k + 1][..k] == order[..k];
      assert order[k] in ToSet(order);
      if |users[order[k]]| > 1 {
        clusters := clusters + [Cluster(order[k], users[order[k]])];
      }
    }
    assert order[..|order|] == order;
  }

  // ------------------------------------------------------------------ what is reported

  lemma {:induction false} RepeatedMeaning(es: seq<Entry>, keys: seq<string>)
    ensures forall c :: c in Repeated(es, keys) <==> c.key in keys && |c.urls| > 1 && c.urls == UrlsOf(es, c.key)
    ensures |Repeated(es, keys)| <= |keys|
  {
    if keys != [] {
      RepeatedMeaning(es, keys[..|keys| - 1]);
    }
  }

  lemma {:induction false} RepeatedOnce(es: seq<Entry>, keys: seq<string>)
    requires NoDup(keys)
    ensures NoDup(Repeated(es, keys))
  {
    if keys != [] {
      RepeatedOnce(es, keys[..|keys| - 1]);
      RepeatedMeaning(es, keys[..|keys| - 1]);
    }
  }

  /** The users of a value are the entries that have it, in order. */
  lemma {:induction false} UrlsMeaning(es: seq<Entry>, key: string) returns (at: seq<nat>)
    ensures Selects(es, (e: Entry) => e.key == key, at) && |UrlsOf(es, key)| == |at|
    ensures forall i :: 0 <= i < |at| ==> at[i] < |es| && UrlsOf(es, key)[i] == es[at[i]].url
  {
    if es == [] {
      at := [];
    } else {
      var front, last := es[..|es| - 1], es[|es| - 1];
      at := UrlsMeaning(front, key);
      SelectsMore(front, (e: Entry) => e.key == key, at, last);
      Snoc(es);
      at := if last.key == key then at + [|front|] else at;
    }
  }

  /** Exactly the non-empty values used more than once are reported, once each, with all their users. */
  lemma ClustersMeaning(es: seq<Entry>)
    ensures NoDup(Clusters(es))
    ensures forall c :: c in Clusters(es) <==> c.key != "" && |c.urls| > 1 && c.urls == UrlsOf(es, c.key)
  {
    KeysOccur(es);
    RepeatedMeaning(es, KeysOf(es));
    RepeatedOnce(es, KeysOf(es));
  }

  lemma {:induction false} UrlsAt(es: seq<Entry>, key: string, i: nat)
    requires i < |es| && es[i].key == key
    ensures es[i].url in UrlsOf(es, key)
  {
    if i < |es| - 1 {
      UrlsAt(es[..|es| - 1], key, i);
    }
  }

  lemma {:induction false} TwoUsers(es: seq<Entry>, key: string, i: nat, j: nat)
    requires i < j < |es| && es[i].key == key && es[j].key == key
    ensures |UrlsOf(es, key)| > 1
  {
    if j < |es| - 1 {
      TwoUsers(es[..|es| - 1], key, i, j);
    } else {
      UrlsAt(es[..j], key, i);
    }
  }

  lemma {:induction false} LastUser(es: seq<Entry>, key: string) returns (j: nat)
    requires UrlsOf(es, key) != []
    ensures j < |es| && es[j].key == key && |UrlsOf(es[..j], key)| == |UrlsOf(es, key)| - 1
  {
    var n := |es| - 1;
    if es[n].key == key {
      j := n;
    } else {
      j := LastUser(es[..n], key);
      assert es[..n][..j] == es[..j];
    }
  }

  /** A value is reported exactly when two different pages have it. */
  lemma ReportedIffShared(es: seq<Entry>, key: string)
    ensures Cluster(key, UrlsOf(es, key)) in Clusters(es) <==>
            key != "" && exists i, j :: 0 <= i < j < |es| && es[i].key == key && es[j].key == key
  {
    ClustersMeaning(es);
    forall i, j | 0 <= i < j < |es| && es[i].key == key && es[j].key == key ensures |UrlsOf(es, key)| > 1 {
      TwoUsers(es, key, i, j);
    }
    if |UrlsOf(es, key)| > 1 {
      var j := LastUser(es, key);
      var i := LastUser(es[..j], key);
      assert es[i].key == key && es[j].key == key;
    }
  }

  // ------------------------------------------------------------------ findDuplicates

  /** `u` occurs before the first `v`. */
  ghost predicate Precedes(urls: seq<string>, u: string, v: string) {
    exists k :: 0 <= k <= |urls| && u in urls[..k] && v !in urls[..k]
  }

  /** Listed in order of first occurrence. */
  ghost predicate FirstsInOrder(urls: seq<string>, order: seq<string>) {
    forall i, j :: 0 <= i < j < |order| ==> Precedes(urls, order[i], order[j])
  }

  /** The Map `counts`: its keys in insertion order, and the references counted in the first `n` urls. */
  ghost predicate Counted(urls: seq<string>, n: nat, order: seq<string>, counts: map<string, nat>)
    requires n <= |urls|
  {
    && FirstsInOrder(urls, order) && counts.Keys == ToSet(order)
    && (forall u :: u in counts <==> u in urls[..n])
    && forall u :: u in counts ==> counts[u] == multiset(urls[..n])[u]
  }

  /** The loop that counts. */
  method CountReferences(urls: seq<string>) returns (order: seq<string>, counts: map<string, nat>)
    ensures Counted(urls, |urls|, order, counts)
  {
    order, counts := [], map[];
    for i := 0 to |urls|
      invariant Counted(urls, i, order, counts)
    {
      assert urls[..i + 1] == urls[..i] + [urls[i]];
      if urls[i] !in counts {
        forall k | 0 <= k < |order| ensures Precedes(urls, order[k], urls[i]) {
          assert order[k] in ToSet(order);
          assert order[k] in urls[..i] && urls[i] !in urls[..i];
        }
        order := order + [urls[i]];
        counts := counts[urls[i] := 1];
      } else {
        counts := counts[urls[i] := counts[urls[i]] + 1];
      }
    }
  }

  /** The entries with more than one reference. */
  function Multiple(order: seq<string>, counts: map<string, nat>): seq<(string, nat)>
    requires forall k :: 0 <= k < |order| ==> order[k] in counts
  {
    if order == [] then []
    else
      var rest, last := Multiple(order[..|order| - 1], counts), order[|order| - 1];
      if counts[last] > 1 then rest + [(last, counts[last])] else rest
  }

  lemma {:induction false} MultipleMeaning(order: seq<string>, counts: map<string, nat>)
    requires forall k :: 0 <= k < |order| ==> order[k] in counts
    ensures forall d :: d in Multiple(order, counts) <==> d.0 in order && d.1 > 1 && d.1 == counts[d.0]
  {
    if order != [] {
      MultipleMeaning(order[..|order| - 1], counts);
    }
  }

  ghost predicate PairsInOrder(urls: seq<string>, ds: seq<(string, nat)>) {
    forall i, j :: 0 <= i < j < |ds| ==> Precedes(urls, ds[i].0, ds[j].0)
  }

  lemma OneMorePair(urls: seq<string>, ds: seq<(string, nat)>, d: (string, nat))
    requires PairsInOrder(urls, ds) && forall i :: 0 <= i < |ds| ==> Precedes(urls, ds[i].0, d.0)
    ensures PairsInOrder(urls, ds + [d])
  {
    forall i, j | 0 <= i < j < |ds + [d]| ensures Precedes(urls, (ds + [d])[i].0, (ds + [d])[j].0) {
      if j < |ds| {
        assert Precedes(urls, ds[i].0, ds[j].0);
      }
    }
  }

  lemma {:induction false} MultipleInOrder(urls: seq<string>, order: seq<string>, counts: map<string, nat>)
    requires FirstsInOrder(urls, order) && forall k :: 0 <= k < |order| ==> order[k] in counts
    ensures PairsInOrder(urls, Multiple(order, counts))
  {
    if order != [] {
      var front, last := order[..|order| - 1], order[|order| - 1];
      MultipleInOrder(urls, front, counts);
      MultipleMeaning(front, counts);
      var rest := Multiple(front, counts);
      forall i | 0 <= i < |rest| ensures Precedes(urls, rest[i].0, last) {
        assert rest[i] in rest;
        var a :| 0 <= a < |front| && front[a] == rest[i].0;
        assert Precedes(urls, order[a], order[|front|]);
      }
      OneMorePair(urls, rest, (last, counts[last]));
    }
  }

  /**
   * findDuplicates: each url referenced more than once, with its number of references, in order of first
   * occurrence.
   */
  method FindDuplicates(urls: seq<string>) returns (duplicates: seq<(string, nat)>)
    ensures forall d :: d in duplicates <==> d.1 > 1 && d.1 == multiset(urls)[d.0]
    ensures PairsInOrder(urls, duplicates)
  {
    var order, counts := CountReferences(urls);
    forall k | 0 <= k < |order| ensures order[k] in counts {
      assert order[k] in ToSet(order);
    }
    duplicates := [];
    for k := 0 to |order|
      invariant duplicates == Multiple(order[..k], counts)
    {
      assert order[..k + 1][..k] == order[..k];
      if counts[order[k]] > 1 {
        duplicates := duplicates + [(order[k], counts[order[k]])];
      }
    }
    assert order[..|order|] == order && urls[..|urls|] == urls;
    MultipleMeaning(order, counts);
    MultipleInOrder(urls, order, counts);
    assert forall u :: u in order <==> u in ToSet(order);
  }
}
