/**
 * The root's merge: every gathered record is unpacked, in buffer order, and
 * the list is then sorted in place by `(octave, scale, i, j)`. The sort the
 * root uses is not stable, so all that is promised of the result is that it
 * is sorted by the key and a permutation of the unpacked records; the lemmas
 * show that this already fixes the sequence of keys.
 */
module Merge {
  import opened Keypoints
  import opened Codec

  /** No keypoint comes after one that precedes it. */
  predicate Sorted(s: seq<Keypoint>) {
    forall p, q :: 0 <= p < q < |s| ==> !Precedes(s[q], s[p])
  }

  /** The keys of a list, in list order. */
  function Keys(s: seq<Keypoint>): seq<Key> {
    seq(|s|, t requires 0 <= t < |s| => KeyOf(s[t]))
  }

  /** The unpacking loop over the gathered buffer (`push_back(unpack_keypoint(pkp))`). */
  method UnpackGathered(packedGlobal: seq<PackedKeypoint>) returns (kps: seq<Keypoint>)
    ensures kps == UnpackAll(packedGlobal)
    ensures PackAll(kps) == packedGlobal
  {
    kps := [];
    var n := 0;
    while n < |packedGlobal|
      invariant 0 <= n <= |packedGlobal|
      invariant kps == UnpackAll(packedGlobal[..n])
    {
      kps := kps + [Unpack(packedGlobal[n])];
      n := n + 1;
    }
    assert packedGlobal[..n] == packedGlobal;
    forall t | 0 <= t < |kps|
      ensures PackAll(kps)[t] == packedGlobal[t]
    {
      PackUnpack(packedGlobal[t]);
    }
  }

  /** Exchange two entries of the list being sorted. */
  method Swap(a: array<Keypoint>, p: int, q: int)
    requires 0 <= p < q < a.Length
    modifies a
    ensures a[..] == old(a[..])[p := old(a[q])][q := old(a[p])]
    ensures multiset(a[..]) == old(multiset(a[..]))
  {
    a[p], a[q] := a[q], a[p];
  }

  /**
   * The inner loop's invariant: the first `n + 1` entries are sorted except
   * for the one at `m`, which precedes nothing to its right.
   */
  predicate SiftingAt(s: seq<Keypoint>, m: nat, n: nat)
    requires m <= n < |s|
  {
    && (forall p, q :: 0 <= p < q <= n && p != m && q != m ==> !Precedes(s[q], s[p]))
    && (forall q :: m < q <= n ==> !Precedes(s[q], s[m]))
  }

  /** Swapping the entry at `m` with a left neighbour it precedes moves the gap one step left. */
  lemma SiftStep(s: seq<Keypoint>, m: nat, n: nat)
    requires 0 < m <= n < |s| && SiftingAt(s, m, n) && Precedes(s[m], s[m - 1])
    ensures SiftingAt(s[m - 1 := s[m]][m := s[m - 1]], m - 1, n)
  {
    var t := s[m - 1 := s[m]][m := s[m - 1]];
    KeyOrderTrichotomy(KeyOf(s[m]), KeyOf(s[m - 1]));
    forall q | m - 1 < q <= n
      ensures !Precedes(t[q], t[m - 1])
    {
    }
    forall p, q | 0 <= p < q <= n && p != m - 1 && q != m - 1
      ensures !Precedes(t[q], t[p])
    {
      if q == m {
        assert t[q] == s[m - 1] && t[p] == s[p];
      } else if p == m {
        assert t[p] == s[m - 1] && t[q] == s[q];
      } else {
        assert t[p] == s[p] && t[q] == s[q];
      }
    }
  }

  /** Once the entry at `m` no longer precedes its left neighbour, the first `n + 1` entries are sorted. */
  lemma SiftDone(s: seq<Keypoint>, m: nat, n: nat)
    requires m <= n < |s| && SiftingAt(s, m, n)
    requires m == 0 || !Precedes(s[m], s[m - 1])
    ensures forall p, q :: 0 <= p < q <= n ==> !Precedes(s[q], s[p])
  {
    forall p, q | 0 <= p < q <= n
      ensures !Precedes(s[q], s[p])
    {
      if q == m && p < m {
        NotAfterTransitive(KeyOf(s[p]), KeyOf(s[m - 1]), KeyOf(s[m]));
      }
    }
  }

  /**
   * Sort in place by the key. Insertion sort stands for the library sort:
   * both leave the range sorted and a permutation of what it was.
   */
  method SortByKey(a: array<Keypoint>)
    modifies a
    ensures Sorted(a[..])
    ensures multiset(a[..]) == old(multiset(a[..]))
  {
    var n := 0;
    while n < a.Length
      invariant 0 <= n <= a.Length
      invariant forall p, q :: 0 <= p < q < n ==> !Precedes(a[..][q], a[..][p])
      invariant multiset(a[..]) == old(multiset(a[..]))
    {
      var m := n;
      while m > 0 && Precedes(a[m], a[m - 1])
        invariant 0 <= m <= n
        invariant SiftingAt(a[..], m, n)
        invariant multiset(a[..]) == old(multiset(a[..]))
      {
        SiftStep(a[..], m, n);
        Swap(a, m - 1, m);
        m := m - 1;
      }
      SiftDone(a[..], m, n);
      n := n + 1;
    }
  }

  /**
   * Merge and canonicalise: unpack every gathered record and sort by key.
   * An empty buffer gives an empty list.
   */
  method Canonicalise(packedGlobal: seq<PackedKeypoint>) returns (kps: seq<Keypoint>)
    ensures Sorted(kps)
    ensures multiset(kps) == multiset(UnpackAll(packedGlobal))
    ensures |kps| == |packedGlobal|
    ensures packedGlobal == [] ==> kps == []
  {
    kps := [];
    if packedGlobal != [] {
      var unpacked := UnpackGathered(packedGlobal);
      var a := new Keypoint[|unpacked|](t requires 0 <= t < |unpacked| => unpacked[t]);
      assert a[..] == unpacked;
      SortByKey(a);
      kps := a[..];
      assert |multiset(kps)| == |multiset(unpacked)|;
    }
  }

  /** The first entry of a sorted list carries the least key among its entries. */
  lemma SortedHeadIsLeast(s: seq<Keypoint>, x: Keypoint)
    requires Sorted(s) && x in multiset(s)
    ensures !Precedes(x, s[0])
  {
    var p :| 0 <= p < |s| && s[p] == x;
    if p > 0 {
      assert !Precedes(s[p], s[0]);
    } else {
      KeyOrderTrichotomy(KeyOf(x), KeyOf(x));
    }
  }

  /** Removing one entry removes one occurrence of it from the multiset. */
  lemma MultisetRemoveAt<X>(s: seq<X>, p: nat)
    requires p < |s|
    ensures multiset(s[..p] + s[p + 1..]) == multiset(s) - multiset{s[p]}
  {
    assert s == s[..p] + [s[p]] + s[p + 1..];
  }

  /** Dropping the head removes one occurrence of it from the multiset. */
  lemma MultisetTail<X>(s: seq<X>)
    requires |s| > 0
    ensures multiset(s[1..]) == multiset(s) - multiset{s[0]}
  {
    assert s == [s[0]] + s[1..];
  }

  /** An element of a list's multiset sits at some position of the list. */
  lemma PositionOf<X>(s: seq<X>, x: X) returns (p: nat)
    requires x in multiset(s)
    ensures p < |s| && s[p] == x
  {
    p :| 0 <= p < |s| && s[p] == x;
  }

  /** Removing one entry keeps a list sorted. */
  lemma SortedRemove(s: seq<Keypoint>, p: nat)
    requires Sorted(s) && p < |s|
    ensures Sorted(s[..p] + s[p + 1..])
  {
    var rest := s[..p] + s[p + 1..];
    forall x, y | 0 <= x < y < |rest|
      ensures !Precedes(rest[y], rest[x])
    {
      var x' := if x < p then x else x + 1;
      var y' := if y < p then y else y + 1;
      assert rest[x] == s[x'] && rest[y] == s[y'] && x' < y';
    }
  }

  /** Dropping the head keeps a list sorted. */
  lemma SortedTail(s: seq<Keypoint>)
    requires Sorted(s) && |s| > 0
    ensures Sorted(s[1..])
  {
    forall x, y | 0 <= x < y < |s| - 1
      ensures !Precedes(s[1..][y], s[1..][x])
    {
      assert s[1..][x] == s[x + 1] && s[1..][y] == s[y + 1];
    }
  }

  /** In a sorted list, everything between two entries of equal key has that key. */
  lemma SortedBlockKeys(s: seq<Keypoint>, p: nat, t: nat)
    requires Sorted(s) && t <= p < |s| && KeyOf(s[0]) == KeyOf(s[p])
    ensures KeyOf(s[t]) == KeyOf(s[0])
  {
    if 0 < t < p {
      assert !Precedes(s[t], s[0]) && !Precedes(s[p], s[t]);
      KeyOrderTrichotomy(KeyOf(s[0]), KeyOf(s[t]));
    }
  }

  /**
   * Putting back, at the front, an entry whose key equals that of the first
   * `p + 1` entries of a sorted list: the keys line up position by position.
   */
  lemma KeysAfterRemoval(a: seq<Keypoint>, p: nat, b: seq<Keypoint>)
    requires Sorted(a) && p < |a| && |b| == |a|
    requires KeyOf(a[0]) == KeyOf(a[p]) && KeyOf(b[0]) == KeyOf(a[0])
    requires Keys(a[..p] + a[p + 1..]) == Keys(b[1..])
    ensures Keys(a) == Keys(b)
  {
    var rest := a[..p] + a[p + 1..];
    var tail := b[1..];
    forall t | 0 < t < |a|
      ensures KeyOf(a[t]) == KeyOf(b[t])
    {
      assert Keys(rest)[t - 1] == Keys(tail)[t - 1];
      assert tail[t - 1] == b[t];
      if t <= p {
        SortedBlockKeys(a, p, t);
        SortedBlockKeys(a, p, t - 1);
        assert rest[t - 1] == a[t - 1];
      } else {
        assert rest[t - 1] == a[t];
      }
    }
  }

  /** Two sorted lists with the same multiset start with the same key. */
  lemma HeadsShareKey(a: seq<Keypoint>, b: seq<Keypoint>)
    requires Sorted(a) && Sorted(b) && multiset(a) == multiset(b) && |a| > 0
    ensures |b| == |a| && KeyOf(a[0]) == KeyOf(b[0])
  {
    assert |a| == |multiset(a)| == |multiset(b)| == |b|;
    assert a[0] in multiset(a) && b[0] in multiset(b);
    SortedHeadIsLeast(a, b[0]);
    SortedHeadIsLeast(b, a[0]);
    KeyOrderTrichotomy(KeyOf(a[0]), KeyOf(b[0]));
  }

  /** Taking the head of `b` out of `a`, and out of `b`, leaves equal multisets. */
  lemma RemoveOtherHead<X>(a: seq<X>, b: seq<X>) returns (p: nat)
    requires multiset(a) == multiset(b) && |b| > 0
    ensures p < |a| && a[p] == b[0]
    ensures multiset(a[..p] + a[p + 1..]) == multiset(b[1..])
  {
    assert b[0] in multiset(b);
    p := PositionOf(a, b[0]);
    MultisetRemoveAt(a, p);
    MultisetTail(b);
  }

  /** A sorted list with the multiset of a sorted list has the same key at every position. */
  lemma {:induction false} SortedPermutationsHaveEqualKeys(a: seq<Keypoint>, b: seq<Keypoint>)
    requires Sorted(a) && Sorted(b)
    requires multiset(a) == multiset(b)
    ensures Keys(a) == Keys(b)
    decreases |a|
  {
    if |a| == 0 {
      assert |b| == |multiset(b)| == 0;
    } else {
      HeadsShareKey(a, b);
      var p := RemoveOtherHead(a, b);
      var rest := a[..p] + a[p + 1..];
      SortedRemove(a, p);
      SortedTail(b);
      SortedPermutationsHaveEqualKeys(rest, b[1..]);
      KeysAfterRemoval(a, p, b);
    }
  }

  /**
   * What the key order leaves open: two entries with equal keys are sorted
   * in either order, so the sort may put them either way round.
   */
  lemma TiesMayComeOutEitherWay(a: Keypoint, b: Keypoint)
    requires KeyOf(a) == KeyOf(b)
    ensures Sorted([a, b]) && Sorted([b, a])
    ensures multiset([a, b]) == multiset([b, a])
  {
    KeyOrderTrichotomy(KeyOf(a), KeyOf(a));
  }

  /**
   * Canonicalising is idempotent up to ties: re-sorting a canonical list
   * (or sorting any reordering of it) gives the same key sequence.
   */
  lemma CanonicalKeysUnique(unpacked: seq<Keypoint>, first: seq<Keypoint>, second: seq<Keypoint>)
    requires Sorted(first) && multiset(first) == multiset(unpacked)
    requires Sorted(second) && multiset(second) == multiset(unpacked)
    ensures Keys(first) == Keys(second)
    ensures |first| == |second| == |unpacked|
  {
    SortedPermutationsHaveEqualKeys(first, second);
    assert |first| == |multiset(first)| && |unpacked| == |multiset(unpacked)|;
  }

  /** A list that is already sorted has exactly the keys of any sorted reordering of it. */
  lemma SortingSortedKeepsKeys(s: seq<Keypoint>, resorted: seq<Keypoint>)
    requires Sorted(s)
    requires Sorted(resorted) && multiset(resorted) == multiset(s)
    ensures Keys(resorted) == Keys(s)
  {
    SortedPermutationsHaveEqualKeys(resorted, s);
  }
}
