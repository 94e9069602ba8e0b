/** Listing extraction: what `parse_listings` does with the anchors the page
    selector matched. The HTML parser and the CSS selector are not modelled;
    their output is the input sequence of anchors. */
module Parser {
  import opened Housing

  /** The origin that every href is prefixed with. */
  const SiteOrigin: string := "https://www.stwdo.de"

  /** One element matched by the listing selector: its stripped text and its
      `href` attribute, which may be absent. */
  datatype Anchor = Anchor(title: string, href: Option<string>)

  /** Python truthiness of title and href: an empty title, a missing href and
      an empty href are all skipped. */
  predicate Usable(a: Anchor)
  {
    a.title != "" && a.href.Some? && a.href.value != ""
  }

  /** The record built for a kept anchor. The URL is the origin and the href
      concatenated as strings, not a URL join. */
  function ToListing(a: Anchor): Listing
    requires a.href.Some?
  {
    Listing(a.title, SiteOrigin + a.href.value)
  }

  /** The listings collected by the loop, in page order, before deduplication. */
  function Kept(anchors: seq<Anchor>): seq<Listing>
  {
    if anchors == [] then []
    else
      var last := anchors[|anchors| - 1];
      Kept(anchors[..|anchors| - 1]) + (if Usable(last) then [ToListing(last)] else [])
  }

  /** The positions of the anchors that the loop keeps. */
  function UsablePositions(anchors: seq<Anchor>): (idx: seq<nat>)
    ensures forall k :: 0 <= k < |idx| ==> idx[k] < |anchors|
  {
    if anchors == [] then []
    else
      var n := |anchors| - 1;
      UsablePositions(anchors[..n]) + (if Usable(anchors[n]) then [n] else [])
  }

  /** The collected listings follow page order: the k-th one is built from
      the anchor at the k-th usable position, and those positions increase. */
  lemma {:induction false} KeptIsSubseq(anchors: seq<Anchor>)
    ensures |Kept(anchors)| == |UsablePositions(anchors)|
    ensures Increasing(UsablePositions(anchors))
    ensures forall k :: 0 <= k < |UsablePositions(anchors)| ==>
              && Usable(anchors[UsablePositions(anchors)[k]])
              && Kept(anchors)[k] == ToListing(anchors[UsablePositions(anchors)[k]])
  {
    if anchors != [] {
      var n := |anchors| - 1;
      var init := anchors[..n];
      KeptIsSubseq(init);
      var r, idx := Kept(anchors), UsablePositions(anchors);
      var r0, idx0 := Kept(init), UsablePositions(init);
      forall a, b | 0 <= a < b < |idx| ensures idx[a] < idx[b] {
        assert idx[a] == idx0[a];
        if b < |idx0| {
          assert idx[b] == idx0[b];
        }
      }
      forall k | 0 <= k < |idx|
        ensures Usable(anchors[idx[k]]) && r[k] == ToListing(anchors[idx[k]])
      {
        if k < |idx0| {
          assert idx[k] == idx0[k] && r[k] == r0[k] && anchors[idx0[k]] == init[idx0[k]];
        }
      }
    }
  }

  /** A page position is kept exactly when its anchor is usable. */
  lemma {:induction false} UsablePositionsExact(anchors: seq<Anchor>)
    ensures forall i :: 0 <= i < |anchors| ==> (i in UsablePositions(anchors) <==> Usable(anchors[i]))
  {
    if anchors != [] {
      var n := |anchors| - 1;
      var init := anchors[..n];
      UsablePositionsExact(init);
      var idx, idx0 := UsablePositions(anchors), UsablePositions(init);
      forall i | 0 <= i < |anchors| ensures i in idx <==> Usable(anchors[i]) {
        if i < n {
          assert anchors[i] == init[i];
          assert i in idx <==> i in idx0;
        } else {
          assert n !in idx0;
        }
      }
    }
  }

  lemma NotInUrlSet(xs: seq<Listing>, u: string)
    requires u !in UrlSet(xs)
    ensures forall j :: 0 <= j < |xs| ==> xs[j].url != u
  {
  }

  /** The key order of a dict filled from `xs` by URL: each URL once, in the
      order in which it first occurs. */
  function FirstUrls(xs: seq<Listing>): (r: seq<string>)
    ensures forall u :: u in r <==> u in UrlSet(xs)
    ensures forall a, b :: 0 <= a < b < |r| ==> r[a] != r[b]
  {
    if xs == [] then []
    else
      var prev := FirstUrls(xs[..|xs| - 1]);
      var u := xs[|xs| - 1].url;
      UrlSetOfPrefix(xs);
      if u in prev then prev else prev + [u]
  }

  /** The position of the first listing in `xs` whose URL is `u`. */
  function FirstIndex(xs: seq<Listing>, u: string): (i: nat)
    requires u in UrlSet(xs)
    ensures i < |xs| && xs[i].url == u
    ensures forall j :: 0 <= j < i ==> xs[j].url != u
  {
    var n := |xs| - 1;
    UrlSetOfPrefix(xs);
    if u in UrlSet(xs[..n]) then FirstIndex(xs[..n], u)
    else NotInUrlSet(xs[..n], u); n
  }

  /** The position of the last listing in `xs` whose URL is `u`. */
  function LastIndex(xs: seq<Listing>, u: string): (i: nat)
    requires u in UrlSet(xs)
    ensures i < |xs| && xs[i].url == u
    ensures forall q :: i < q < |xs| ==> xs[q].url != u
  {
    var n := |xs| - 1;
    if xs[n].url == u then n
    else UrlSetOfPrefix(xs); LastIndex(xs[..n], u)
  }

  /** `list({item["url"]: item for item in xs}.values())`: the dict keeps the
      first-occurrence order of its keys and the last value stored under each. */
  function Dedup(xs: seq<Listing>): seq<Listing>
  {
    var order := FirstUrls(xs);
    seq(|order|, k requires 0 <= k < |order| => xs[LastIndex(xs, order[k])])
  }

  /** What `parse_listings` returns for the anchors the selector matched. */
  function Parse(anchors: seq<Anchor>): seq<Listing>
  {
    Dedup(Kept(anchors))
  }

  /** The source's two loops: collect the usable anchors as listings, then
      fill a dict keyed by URL (its key order in `keys`, its entries in
      `unique`) and return its values. */
  method ParseListings(anchors: seq<Anchor>) returns (result: seq<Listing>)
    ensures result == Parse(anchors)
  {
    var listings: seq<Listing> := [];
    for i := 0 to |anchors|
      invariant listings == Kept(anchors[..i])
    {
      KeptStep(anchors, i);
      var link := anchors[i];
      if link.title == "" || link.href.None? || link.href.value == "" {
        continue;
      }
      listings := listings + [Listing(link.title, SiteOrigin + link.href.value)];
    }
    assert anchors[..|anchors|] == anchors;

    var keys: seq<string> := [];
    var unique: map<string, Listing> := map[];
    for i := 0 to |listings|
      invariant DictOf(listings[..i], keys, unique)
    {
      var item := listings[i];
      assert listings[..i + 1] == listings[..i] + [item];
      DictInsert(listings[..i], item, keys, unique);
      if item.url !in unique {
        keys := keys + [item.url];
      }
      unique := unique[item.url := item];
    }
    assert listings[..|listings|] == listings;
    DictValues(listings, keys, unique);
    result := seq(|keys|, k requires 0 <= k < |keys| => unique[keys[k]]);
  }

  /** One more anchor extends the collected listings by at most its own. */
  lemma KeptStep(anchors: seq<Anchor>, i: nat)
    requires i < |anchors|
    ensures Kept(anchors[..i + 1])
            == Kept(anchors[..i]) + (if Usable(anchors[i]) then [ToListing(anchors[i])] else [])
  {
    assert anchors[..i + 1][..i] == anchors[..i];
  }

  /** `keys` (in insertion order) and `unique` are the dict filled from `xs`. */
  ghost predicate DictOf(xs: seq<Listing>, keys: seq<string>, unique: map<string, Listing>)
  {
    && keys == FirstUrls(xs)
    && unique.Keys == UrlSet(xs)
    && forall u :: u in unique ==> unique[u] == xs[LastIndex(xs, u)]
  }

  /** Storing one more record under its URL: a new key goes to the end, an
      existing key keeps its place and gets the new record. */
  lemma DictInsert(xs: seq<Listing>, x: Listing, keys: seq<string>, unique: map<string, Listing>)
    requires DictOf(xs, keys, unique)
    ensures DictOf(xs + [x], if x.url in unique then keys else keys + [x.url], unique[x.url := x])
  {
  }

  /** The values of the dict, in key order, are `Dedup(xs)`. */
  lemma DictValues(xs: seq<Listing>, keys: seq<string>, unique: map<string, Listing>)
    requires DictOf(xs, keys, unique)
    ensures seq(|keys|, k requires 0 <= k < |keys| => unique[keys[k]]) == Dedup(xs)
  {
  }

  /** Only usable anchors produce listings, every usable anchor produces one,
      and each listing has the concatenated URL. */
  lemma {:induction false} KeptExactly(anchors: seq<Anchor>)
    ensures forall l :: l in Kept(anchors) <==>
      exists a :: a in anchors && Usable(a) && l == ToListing(a)
  {
    if anchors != [] {
      var init := anchors[..|anchors| - 1];
      var last := anchors[|anchors| - 1];
      KeptExactly(init);
      assert anchors == init + [last];
      forall l | l in Kept(anchors)
        ensures exists a :: a in anchors && Usable(a) && l == ToListing(a)
      {
        if l in Kept(init) {
          var a :| a in init && Usable(a) && l == ToListing(a);
          assert a in anchors;
        } else {
          assert last in anchors;
        }
      }
      forall a | a in anchors && Usable(a) ensures ToListing(a) in Kept(anchors) {
        if a in init {
          assert ToListing(a) in Kept(init);
        }
      }
    }
  }

  /** Every deduplicated record is one of the input records. */
  lemma DedupElements(xs: seq<Listing>)
    ensures forall l :: l in Dedup(xs) ==> l in xs
  {
  }

  /** The deduplicated sequence carries each URL of its input exactly once. */
  lemma DedupUrls(xs: seq<Listing>)
    ensures DistinctUrls(Dedup(xs))
    ensures UrlSet(Dedup(xs)) == UrlSet(xs)
  {
    var r, order := Dedup(xs), FirstUrls(xs);
    assert forall k :: 0 <= k < |r| ==> r[k].url == order[k];
    forall u | u in UrlSet(r) ensures u in UrlSet(xs) {
      var l :| l in r && l.url == u;
      var k :| 0 <= k < |r| && r[k] == l;
    }
    forall u | u in UrlSet(xs) ensures u in UrlSet(r) {
      var k :| 0 <= k < |order| && order[k] == u;
      InUrlSet(r, k);
    }
  }

  /** Each record kept for a URL is the last input record with that URL. */
  lemma DedupLastWins(xs: seq<Listing>)
    ensures forall k :: 0 <= k < |Dedup(xs)| ==>
      exists p :: 0 <= p < |xs| && Dedup(xs)[k] == xs[p] &&
        (forall q :: p < q < |xs| ==> xs[q].url != Dedup(xs)[k].url)
  {
    var r, order := Dedup(xs), FirstUrls(xs);
    forall k | 0 <= k < |r|
      ensures exists p ::
                0 <= p < |xs| && r[k] == xs[p] &&
                (forall q :: p < q < |xs| ==> xs[q].url != r[k].url)
    {
      var p := LastIndex(xs, order[k]);
      assert r[k] == xs[p];
    }
  }

  /** The key order is the order of first occurrence. */
  lemma {:induction false} FirstUrlsOrder(xs: seq<Listing>)
    ensures forall a, b :: 0 <= a < b < |FirstUrls(xs)| ==>
      FirstIndex(xs, FirstUrls(xs)[a]) < FirstIndex(xs, FirstUrls(xs)[b])
  {
    if xs != [] {
      var n := |xs| - 1;
      var init := xs[..n];
      var prev, order := FirstUrls(init), FirstUrls(xs);
      FirstUrlsOrder(init);
      UrlSetOfPrefix(xs);
      forall v | v in UrlSet(init) ensures FirstIndex(xs, v) == FirstIndex(init, v) {
      }
      forall a, b | 0 <= a < b < |order|
        ensures FirstIndex(xs, order[a]) < FirstIndex(xs, order[b])
      {
        if b < |prev| {
          assert order[a] == prev[a] && order[b] == prev[b];
        } else {
          assert order[a] == prev[a] && order[b] !in UrlSet(init);
        }
      }
    }
  }

  /** Deduplication keeps the first-occurrence order of the URLs. */
  lemma DedupFirstOrder(xs: seq<Listing>)
    ensures forall a, b :: 0 <= a < b < |Dedup(xs)| ==>
      Dedup(xs)[a].url in UrlSet(xs) && Dedup(xs)[b].url in UrlSet(xs) &&
      FirstIndex(xs, Dedup(xs)[a].url) < FirstIndex(xs, Dedup(xs)[b].url)
  {
    var r, order := Dedup(xs), FirstUrls(xs);
    assert forall k :: 0 <= k < |r| ==> r[k].url == order[k];
    FirstUrlsOrder(xs);
  }

  /** Without repeated URLs the key order is the URL of every listing in turn. */
  lemma {:induction false} FirstUrlsOfDistinct(xs: seq<Listing>)
    requires DistinctUrls(xs)
    ensures FirstUrls(xs) == seq(|xs|, i requires 0 <= i < |xs| => xs[i].url)
  {
    if xs != [] {
      var n := |xs| - 1;
      var init := xs[..n];
      assert DistinctUrls(init);
      FirstUrlsOfDistinct(init);
      assert xs[n].url !in FirstUrls(init);
    }
  }

  /** Deduplication leaves a sequence with distinct URLs as it is. */
  lemma DedupOfDistinct(xs: seq<Listing>)
    requires DistinctUrls(xs)
    ensures Dedup(xs) == xs
  {
    FirstUrlsOfDistinct(xs);
    forall k | 0 <= k < |xs| ensures Dedup(xs)[k] == xs[k] {
      InUrlSet(xs, k);
      var p := LastIndex(xs, xs[k].url);
      assert p == k;
    }
  }

  /** Deduplicating twice gives the same as deduplicating once. */
  lemma DedupIdempotent(xs: seq<Listing>)
    ensures Dedup(Dedup(xs)) == Dedup(xs)
  {
    DedupUrls(xs);
    DedupOfDistinct(Dedup(xs));
  }

  /** What the caller of `parse_listings` may rely on: every listing comes
      from a usable anchor with the concatenated URL, the URLs are pairwise
      distinct, and no usable anchor's URL is lost. */
  lemma ParseProperties(anchors: seq<Anchor>)
    ensures forall l :: l in Parse(anchors) ==>
      exists a :: a in anchors && Usable(a) && l == Listing(a.title, SiteOrigin + a.href.value)
    ensures DistinctUrls(Parse(anchors))
    ensures UrlSet(Parse(anchors)) == UrlSet(Kept(anchors))
  {
    KeptExactly(anchors);
    DedupElements(Kept(anchors));
    DedupUrls(Kept(anchors));
  }
}
