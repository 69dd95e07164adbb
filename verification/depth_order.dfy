/** Depth ordering: the `(box index, depth)` pairs, stably sorted ascending by depth
    (Python's `sorted` with `key=itemgetter(1)`). */
module DepthOrder {

  datatype Entry = Entry(index: nat, depth: real)

  /** `[(i, d) for i, d in enumerate(depths)]`. */
  function Enumerate(ds: seq<real>): (es: seq<Entry>)
    ensures |es| == |ds|
    ensures forall k :: 0 <= k < |ds| ==> es[k] == Entry(k, ds[k])
  {
    seq(|ds|, k requires 0 <= k < |ds| => Entry(k, ds[k]))
  }

  predicate SortedByDepth(s: seq<Entry>) {
    forall i, j :: 0 <= i < j < |s| ==> s[i].depth <= s[j].depth
  }

  /** a comes before b in a stable ascending sort of an enumerated list:
      shallower first, and among equal depths the smaller original index first. */
  predicate Precedes(a: Entry, b: Entry) {
    a.depth < b.depth || (a.depth == b.depth && a.index < b.index)
  }

  predicate StablySorted(s: seq<Entry>) {
    forall i, j :: 0 <= i < j < |s| ==> Precedes(s[i], s[j])
  }

  /** The original indices increase along s, as they do along an enumerated list. */
  predicate IndicesAscending(s: seq<Entry>) {
    forall i, j :: 0 <= i < j < |s| ==> s[i].index < s[j].index
  }

  /** Insert e after every entry of s whose depth is at most e's. */
  function InsertByDepth(s: seq<Entry>, e: Entry): (r: seq<Entry>)
    ensures multiset(r) == multiset(s) + multiset{e}
    decreases |s|
  {
    if |s| == 0 || s[|s| - 1].depth <= e.depth then
      s + [e]
    else
      assert s == s[..|s| - 1] + [s[|s| - 1]];
      InsertByDepth(s[..|s| - 1], e) + [s[|s| - 1]]
  }

  /** Every entry of r is an entry of s or e itself. */
  lemma InsertMembers(s: seq<Entry>, e: Entry, r: seq<Entry>)
    requires multiset(r) == multiset(s) + multiset{e}
    ensures forall i :: 0 <= i < |r| ==> r[i] == e || exists k :: 0 <= k < |s| && s[k] == r[i]
  {
    forall i | 0 <= i < |r|
      ensures r[i] == e || exists k :: 0 <= k < |s| && s[k] == r[i]
    {
      assert r[i] in multiset(r);
      if r[i] != e {
        assert r[i] in multiset(s);
      }
    }
  }

  /** Inserting into a depth-sorted list keeps it depth-sorted. */
  lemma {:induction false} InsertSorted(s: seq<Entry>, e: Entry)
    requires SortedByDepth(s)
    ensures SortedByDepth(InsertByDepth(s, e))
    decreases |s|
  {
    if |s| > 0 && s[|s| - 1].depth > e.depth {
      var prefix, last := s[..|s| - 1], s[|s| - 1];
      var r' := InsertByDepth(prefix, e);
      InsertSorted(prefix, e);
      InsertMembers(prefix, e, r');
      assert forall i :: 0 <= i < |r'| ==> r'[i].depth <= last.depth;
    }
  }

  /** Inserting an entry whose index exceeds every index already present keeps a
      stably sorted list stably sorted: it lands after all entries of equal depth. */
  lemma {:induction false} InsertStable(s: seq<Entry>, e: Entry)
    requires StablySorted(s)
    requires forall k :: 0 <= k < |s| ==> s[k].index < e.index
    ensures StablySorted(InsertByDepth(s, e))
    decreases |s|
  {
    if |s| > 0 && s[|s| - 1].depth > e.depth {
      var prefix, last := s[..|s| - 1], s[|s| - 1];
      var r' := InsertByDepth(prefix, e);
      InsertStable(prefix, e);
      InsertMembers(prefix, e, r');
      assert forall i :: 0 <= i < |r'| ==> Precedes(r'[i], last);
    }
  }

  /** `sorted(pairs, key=itemgetter(1))`, as an insertion sort that places each
      entry after the already sorted entries of equal depth. */
  function SortByDepth(es: seq<Entry>): (r: seq<Entry>)
    ensures multiset(r) == multiset(es)
    decreases |es|
  {
    if |es| == 0 then
      []
    else
      assert es == es[..|es| - 1] + [es[|es| - 1]];
      InsertByDepth(SortByDepth(es[..|es| - 1]), es[|es| - 1])
  }

  /** The sorted list is non-decreasing in depth. */
  lemma {:induction false} SortSorted(es: seq<Entry>)
    ensures SortedByDepth(SortByDepth(es))
    decreases |es|
  {
    if |es| > 0 {
      SortSorted(es[..|es| - 1]);
      InsertSorted(SortByDepth(es[..|es| - 1]), es[|es| - 1]);
    }
  }

  /** The sort is stable: when the original indices ascend along the input, equal
      depths come out in ascending index order. */
  lemma {:induction false} SortStable(es: seq<Entry>)
    requires IndicesAscending(es)
    ensures StablySorted(SortByDepth(es))
    decreases |es|
  {
    if |es| > 0 {
      var prefix, last := es[..|es| - 1], es[|es| - 1];
      var r' := SortByDepth(prefix);
      SortStable(prefix);
      forall k | 0 <= k < |r'|
        ensures r'[k].index < last.index
      {
        assert r'[k] in multiset(prefix);
      }
      InsertStable(r', last);
    }
  }

  /** Sorting an enumerated list keeps exactly the pairs (k, ds[k]), once each,
      in (depth, index) order: non-decreasing depth, ties in ascending index. */
  lemma SortEnumerated(ds: seq<real>)
    ensures multiset(SortByDepth(Enumerate(ds))) == multiset(Enumerate(ds))
    ensures |SortByDepth(Enumerate(ds))| == |ds|
    ensures StablySorted(SortByDepth(Enumerate(ds)))
    ensures forall p :: 0 <= p < |ds| ==>
              var e := SortByDepth(Enumerate(ds))[p]; e.index < |ds| && e.depth == ds[e.index]
    ensures forall k :: 0 <= k < |ds| ==> Entry(k, ds[k]) in SortByDepth(Enumerate(ds))
  {
    var es := Enumerate(ds);
    var r := SortByDepth(es);
    SortStable(es);
    assert |r| == |multiset(r)| == |multiset(es)| == |es|;
    forall p | 0 <= p < |ds|
      ensures r[p].index < |ds| && r[p].depth == ds[r[p].index]
    {
      assert r[p] in multiset(es);
    }
    forall k | 0 <= k < |ds|
      ensures Entry(k, ds[k]) in r
    {
      assert es[k] in multiset(r);
    }
  }

  /** Two stably sorted arrangements of the same entries are identical: the sorted
      order is fully determined by the pairs, independent of how it was produced. */
  lemma {:induction false} StablySortedUnique(a: seq<Entry>, b: seq<Entry>)
    requires StablySorted(a) && StablySorted(b) && multiset(a) == multiset(b)
    ensures a == b
    decreases |a|
  {
    assert |a| == |multiset(a)| == |multiset(b)| == |b|;
    if |a| > 0 {
      assert a[0] in multiset(b) && b[0] in multiset(a);
      var q :| 0 <= q < |b| && b[q] == a[0];
      var p :| 0 <= p < |a| && a[p] == b[0];
      assert a[0] == b[0];
      assert a == [a[0]] + a[1..] && b == [b[0]] + b[1..];
      assert multiset(a) == multiset{a[0]} + multiset(a[1..]);
      assert multiset(b) == multiset{b[0]} + multiset(b[1..]);
      assert forall y :: multiset(a[1..])[y] == multiset(a)[y] - multiset{a[0]}[y];
      assert multiset(a[1..]) == multiset(b[1..]);
      StablySortedUnique(a[1..], b[1..]);
    }
  }
}
