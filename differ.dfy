/** The differ, `detect_new`: the listings of the current page whose URL the
    previous snapshot does not contain. */
module Differ {
  import opened Housing

  /** The listings of `xs` whose URL is not in `seen`, in their order in `xs`. */
  function Unseen(xs: seq<Listing>, seen: set<string>): (r: seq<Listing>)
    ensures |r| <= |xs|
    ensures forall x :: x in r <==> x in xs && x.url !in seen
  {
    if xs == [] then []
    else
      var last := xs[|xs| - 1];
      assert xs == xs[..|xs| - 1] + [last];
      Unseen(xs[..|xs| - 1], seen) + (if last.url in seen then [] else [last])
  }

  /** `[item for item in current if item["url"] not in old_urls]` where
      `old_urls` is the URL set of `previous`. */
  function DetectNew(previous: seq<Listing>, current: seq<Listing>): (r: seq<Listing>)
    ensures forall x :: x in r <==> x in current && x.url !in UrlSet(previous)
  {
    Unseen(current, UrlSet(previous))
  }

  /** The positions of `xs` that `Unseen` keeps. */
  function UnseenPositions(xs: seq<Listing>, seen: set<string>): (idx: seq<nat>)
    ensures forall k :: 0 <= k < |idx| ==> idx[k] < |xs|
  {
    if xs == [] then []
    else
      var n := |xs| - 1;
      UnseenPositions(xs[..n], seen) + (if xs[n].url in seen then [] else [n])
  }

  /** `Unseen` is the subsequence of `xs` taken at `UnseenPositions`. */
  lemma {:induction false} UnseenIsSubseq(xs: seq<Listing>, seen: set<string>)
    ensures SubseqAt(Unseen(xs, seen), xs, UnseenPositions(xs, seen))
  {
    if xs != [] {
      var n := |xs| - 1;
      var init := xs[..n];
      UnseenIsSubseq(init, seen);
      var r, idx := Unseen(xs, seen), UnseenPositions(xs, seen);
      var r0, idx0 := Unseen(init, seen), UnseenPositions(init, seen);
      assert |idx| == |r|;
      forall a, b | 0 <= a < b < |idx| ensures idx[a] < idx[b] {
        assert idx[a] == idx0[a];
        if b < |idx0| {
          assert idx[b] == idx0[b];
        }
      }
      forall k | 0 <= k < |idx| ensures r[k] == xs[idx[k]] {
        if k < |idx0| {
          assert idx[k] == idx0[k] && r[k] == r0[k] && r0[k] == init[idx0[k]];
        }
      }
    }
  }

  /** `UnseenPositions` holds exactly the positions whose URL is not in `seen`. */
  lemma {:induction false} UnseenPositionsExact(xs: seq<Listing>, seen: set<string>)
    ensures forall i :: 0 <= i < |xs| ==> (i in UnseenPositions(xs, seen) <==> xs[i].url !in seen)
  {
    if xs != [] {
      var n := |xs| - 1;
      var init := xs[..n];
      UnseenPositionsExact(init, seen);
      var idx, idx0 := UnseenPositions(xs, seen), UnseenPositions(init, seen);
      forall i | 0 <= i < |xs| ensures i in idx <==> xs[i].url !in seen {
        if i < n {
          assert xs[i] == init[i];
          assert i in idx <==> i in idx0;
        } else {
          assert n !in idx0;
        }
      }
    }
  }

  /** The differ returns the elements of `current` at exactly those positions
      whose URL is absent from `previous`, in `current`'s order. */
  lemma DetectNewIsExactSubsequence(previous: seq<Listing>, current: seq<Listing>)
    ensures exists idx ::
              && SubseqAt(DetectNew(previous, current), current, idx)
              && (forall i :: 0 <= i < |current| ==> (i in idx <==> current[i].url !in UrlSet(previous)))
  {
    var idx := UnseenPositions(current, UrlSet(previous));
    UnseenIsSubseq(current, UrlSet(previous));
    UnseenPositionsExact(current, UrlSet(previous));
    assert SubseqAt(DetectNew(previous, current), current, idx);
  }

  /** Against an empty snapshot everything is new. */
  lemma {:induction false} UnseenNothingSeen(xs: seq<Listing>)
    ensures Unseen(xs, {}) == xs
  {
    if xs != [] {
      var n := |xs| - 1;
      UnseenNothingSeen(xs[..n]);
      assert Unseen(xs, {}) == Unseen(xs[..n], {}) + [xs[n]];
      assert xs == xs[..n] + [xs[n]];
    }
  }

  lemma DetectNewFromEmpty(current: seq<Listing>)
    ensures DetectNew([], current) == current
  {
    assert UrlSet([]) == {};
    UnseenNothingSeen(current);
  }

  /** When every URL has been seen, nothing is kept. */
  lemma {:induction false} UnseenAllSeen(xs: seq<Listing>, seen: set<string>)
    requires forall i :: 0 <= i < |xs| ==> xs[i].url in seen
    ensures Unseen(xs, seen) == []
  {
    if xs != [] {
      UnseenAllSeen(xs[..|xs| - 1], seen);
    }
  }

  /** Against itself nothing is new. */
  lemma DetectNewSelf(xs: seq<Listing>)
    ensures DetectNew(xs, xs) == []
  {
    forall i | 0 <= i < |xs| ensures xs[i].url in UrlSet(xs) {
      InUrlSet(xs, i);
    }
    UnseenAllSeen(xs, UrlSet(xs));
  }

  /** A subsequence of a sequence with distinct URLs has distinct URLs. */
  lemma DetectNewDistinct(previous: seq<Listing>, current: seq<Listing>)
    requires DistinctUrls(current)
    ensures DistinctUrls(DetectNew(previous, current))
  {
    var seen := UrlSet(previous);
    UnseenIsSubseq(current, seen);
    var r, idx := DetectNew(previous, current), UnseenPositions(current, seen);
    forall a, b | 0 <= a < b < |r| ensures r[a].url != r[b].url {
      assert idx[a] < idx[b];
    }
  }

  /** The end-to-end example: a snapshot holding room A and a page with rooms
      A and B report exactly room B. */
  lemma NewRoomScenario()
    ensures DetectNew([Listing("Room A", "https://x/a")],
                      [Listing("Room A", "https://x/a"), Listing("Room B", "https://x/b")])
            == [Listing("Room B", "https://x/b")]
  {
  }
}
