/** Lists of time stamps, and what is left of them after a cutoff. */
module RecentTimes {

  ghost predicate Sorted(h: seq<real>) {
    forall i, j :: 0 <= i < j < |h| ==> h[i] <= h[j]
  }

  ghost predicate AtMost(h: seq<real>, x: real) {
    forall i :: 0 <= i < |h| ==> h[i] <= x
  }

  /** [t for t in h if t > cutoff] */
  function Recent(h: seq<real>, cutoff: real): seq<real> {
    if h == [] then []
    else
      var t := h[|h| - 1];
      Recent(h[..|h| - 1], cutoff) + if t > cutoff then [t] else []
  }

  lemma RecentAppend(h: seq<real>, t: real, cutoff: real)
    ensures Recent(h + [t], cutoff) == Recent(h, cutoff) + if t > cutoff then [t] else []
  {
    assert (h + [t])[..|h|] == h;
  }

  lemma {:induction false} RecentOfOld(h: seq<real>, cutoff: real)
    requires AtMost(h, cutoff)
    ensures Recent(h, cutoff) == []
  {
    if h != [] {
      RecentOfOld(h[..|h| - 1], cutoff);
    }
  }

  /** On a sorted list the recent entries are a suffix. */
  lemma {:induction false} RecentIsSuffix(h: seq<real>, cutoff: real)
    requires Sorted(h)
    ensures |Recent(h, cutoff)| <= |h|
    ensures var k := |h| - |Recent(h, cutoff)|;
            && Recent(h, cutoff) == h[k..]
            && (forall i :: 0 <= i < k ==> h[i] <= cutoff)
            && (forall i :: k <= i < |h| ==> h[i] > cutoff)
  {
    if h != [] {
      var front, t := h[..|h| - 1], h[|h| - 1];
      RecentIsSuffix(front, cutoff);
      if t <= cutoff {
        assert AtMost(h, cutoff);
        RecentOfOld(front, cutoff);
      } else {
        assert h == front + [t];
      }
    }
  }

  lemma {:induction false} RecentOfRecent(h: seq<real>, a: real, b: real)
    requires a <= b
    ensures Recent(Recent(h, a), b) == Recent(h, b)
  {
    if h != [] {
      var front, t := h[..|h| - 1], h[|h| - 1];
      RecentOfRecent(front, a, b);
      if t <= a {
        assert Recent(h, a) == Recent(front, a) + [] == Recent(front, a);
      } else {
        assert (Recent(front, a) + [t])[..|Recent(front, a)|] == Recent(front, a);
      }
    }
  }

  /** The comprehension as a loop. */
  method Prune(v: seq<real>, cutoff: real) returns (r: seq<real>)
    ensures r == Recent(v, cutoff)
  {
    r := [];
    for i := 0 to |v|
      invariant r == Recent(v[..i], cutoff)
    {
      assert v[..i + 1][..i] == v[..i];
      if v[i] > cutoff {
        r := r + [v[i]];
      }
    }
    assert v[..|v|] == v;
  }
}
