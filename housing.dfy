/** Shared vocabulary of the housing checker: a listing, the set of its URLs,
    URL uniqueness and order-preserving subsequences. */
module Housing {

  datatype Option<T> = None | Some(value: T)

  /** A scraped housing offer. Its identity is the `url` field. */
  datatype Listing = Listing(title: string, url: string)

  /** The URLs occurring in a sequence of listings (the source's `{item["url"] for item in xs}`). */
  function UrlSet(xs: seq<Listing>): set<string>
  {
    set x | x in xs :: x.url
  }

  /** No two positions of `xs` carry the same URL. */
  ghost predicate DistinctUrls(xs: seq<Listing>)
  {
    forall i, j :: 0 <= i < j < |xs| ==> xs[i].url != xs[j].url
  }

  /** `idx` is a strictly increasing sequence of positions. */
  ghost predicate Increasing(idx: seq<nat>)
  {
    forall a, b :: 0 <= a < b < |idx| ==> idx[a] < idx[b]
  }

  /** `r` is the subsequence of `s` taken at the increasing positions `idx`. */
  ghost predicate SubseqAt<T>(r: seq<T>, s: seq<T>, idx: seq<nat>)
  {
    && |idx| == |r|
    && Increasing(idx)
    && (forall k :: 0 <= k < |idx| ==> idx[k] < |s| && r[k] == s[idx[k]])
  }

  lemma UrlSetOfPrefix(xs: seq<Listing>)
    requires xs != []
    ensures UrlSet(xs) == UrlSet(xs[..|xs| - 1]) + {xs[|xs| - 1].url}
  {
  }

  lemma InUrlSet(xs: seq<Listing>, i: nat)
    requires i < |xs|
    ensures xs[i].url in UrlSet(xs)
  {
  }
}
