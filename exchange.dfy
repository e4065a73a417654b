/**
 * The two-phase exchange seen from the root: every worker's byte count is
 * gathered into `recvCounts` in rank order, the root turns the counts into
 * displacements and a total, sizes its receive buffer, and the data gather
 * places each worker's records at its displacement. The collectives
 * themselves are modelled as functions over a rank-indexed sequence.
 */
module Exchange {
  import opened Keypoints
  import opened Codec

  /** Sum of a sequence of byte counts. */
  function Sum(s: seq<nat>): nat {
    if s == [] then 0 else Sum(s[..|s| - 1]) + s[|s| - 1]
  }

  /** Adding one more count to a prefix adds that count to its sum. */
  lemma {:induction false} SumPrefixStep(s: seq<nat>, r: nat)
    requires r < |s|
    ensures Sum(s[..r + 1]) == Sum(s[..r]) + s[r]
  {
    assert s[..r + 1][..r] == s[..r];
  }

  /** Sums of prefixes never decrease. */
  lemma {:induction false} SumPrefixMonotone(s: seq<nat>, a: nat, b: nat)
    requires a <= b <= |s|
    ensures Sum(s[..a]) <= Sum(s[..b])
    decreases b - a
  {
    if a < b {
      SumPrefixStep(s, a);
      SumPrefixMonotone(s, a + 1, b);
    }
  }

  /** Number of bytes a worker sends: its record count times the record size. */
  function LocalBytes(packedLocal: seq<PackedKeypoint>, recordSize: nat): (bytes: nat)
    ensures recordSize > 0 ==> (bytes == 0 <==> packedLocal == [])
  {
    |packedLocal| * recordSize
  }

  /**
   * The size gather: the root receives one `LocalBytes` per worker, in rank
   * order.
   */
  function GatherCounts(perRank: seq<seq<PackedKeypoint>>, recordSize: nat): seq<nat> {
    seq(|perRank|, r requires 0 <= r < |perRank| => LocalBytes(perRank[r], recordSize))
  }

  /**
   * The root's displacement loop: `displs[r]` is the running total before
   * rank `r` is added, and `totalBytes` the final total.
   */
  method ComputeDisplacements(recvCounts: seq<nat>) returns (displs: array<nat>, totalBytes: nat)
    ensures fresh(displs)
    ensures displs.Length == |recvCounts|
    ensures forall r :: 0 <= r < |recvCounts| ==> displs[r] == Sum(recvCounts[..r])
    ensures totalBytes == Sum(recvCounts)
  {
    displs := new nat[|recvCounts|](_ => 0);
    totalBytes := 0;
    var idx := 0;
    while idx < |recvCounts|
      invariant 0 <= idx <= |recvCounts|
      invariant displs.Length == |recvCounts|
      invariant totalBytes == Sum(recvCounts[..idx])
      invariant forall r :: 0 <= r < idx ==> displs[r] == Sum(recvCounts[..r])
    {
      displs[idx] := totalBytes;
      SumPrefixStep(recvCounts, idx);
      totalBytes := totalBytes + recvCounts[idx];
      idx := idx + 1;
    }
    assert recvCounts[..idx] == recvCounts;
  }

  /**
   * After the loop, `displs` is the exclusive prefix sum of the counts:
   * it starts at zero, each step adds the previous count, and the last
   * segment ends at the total.
   */
  lemma DisplacementsArePrefixSums(recvCounts: seq<nat>, r: nat)
    requires r < |recvCounts|
    ensures Sum(recvCounts[..0]) == 0
    ensures r + 1 < |recvCounts| ==>
      Sum(recvCounts[..r + 1]) == Sum(recvCounts[..r]) + recvCounts[r]
    ensures r + 1 == |recvCounts| ==>
      Sum(recvCounts[..r]) + recvCounts[r] == Sum(recvCounts)
  {
    SumPrefixStep(recvCounts, r);
    assert recvCounts[..|recvCounts|] == recvCounts;
  }

  /**
   * A worker that sends nothing gets the displacement of the next worker
   * (or the total, when it is the last): its empty contribution leaves no
   * gap and shifts nothing after it.
   */
  lemma ZeroContributionLeavesNoGap(recvCounts: seq<nat>, r: nat)
    requires r < |recvCounts| && recvCounts[r] == 0
    ensures r + 1 < |recvCounts| ==> Sum(recvCounts[..r + 1]) == Sum(recvCounts[..r])
    ensures r + 1 == |recvCounts| ==> Sum(recvCounts[..r]) == Sum(recvCounts)
  {
    DisplacementsArePrefixSums(recvCounts, r);
  }

  /** The segments of two different ranks do not overlap. */
  lemma SegmentsDisjoint(recvCounts: seq<nat>, r: nat, q: nat)
    requires r < q < |recvCounts|
    ensures Sum(recvCounts[..r]) + recvCounts[r] <= Sum(recvCounts[..q])
  {
    SumPrefixStep(recvCounts, r);
    SumPrefixMonotone(recvCounts, r + 1, q);
  }

  /** Every segment lies inside `[0, totalBytes)`. */
  lemma SegmentWithinTotal(recvCounts: seq<nat>, r: nat)
    requires r < |recvCounts|
    ensures Sum(recvCounts[..r]) + recvCounts[r] <= Sum(recvCounts)
  {
    SumPrefixStep(recvCounts, r);
    SumPrefixMonotone(recvCounts, r + 1, |recvCounts|);
    assert recvCounts[..|recvCounts|] == recvCounts;
  }

  /** Byte `b` lies in the segment of rank `r`. */
  predicate InSegment(recvCounts: seq<nat>, r: nat, b: nat)
    requires r < |recvCounts|
  {
    Sum(recvCounts[..r]) <= b < Sum(recvCounts[..r]) + recvCounts[r]
  }

  /** Every byte of `[0, totalBytes)` lies in the segment of exactly one rank. */
  lemma SegmentsCover(recvCounts: seq<nat>, b: nat)
    requires b < Sum(recvCounts)
    ensures exists r :: 0 <= r < |recvCounts| && InSegment(recvCounts, r, b)
    ensures forall r, q ::
      (0 <= r < |recvCounts| && 0 <= q < |recvCounts| &&
       InSegment(recvCounts, r, b) && InSegment(recvCounts, q, b)) ==> r == q
  {
    var owner := SegmentOf(recvCounts, b);
    forall r, q | 0 <= r < |recvCounts| && 0 <= q < |recvCounts| &&
      InSegment(recvCounts, r, b) && InSegment(recvCounts, q, b)
      ensures r == q
    {
      SegmentUnique(recvCounts, r, q, b);
    }
  }

  /** The rank whose segment holds byte `b`. */
  lemma {:induction false} SegmentOf(recvCounts: seq<nat>, b: nat) returns (r: nat)
    requires b < Sum(recvCounts)
    ensures r < |recvCounts| && InSegment(recvCounts, r, b)
  {
    var n := |recvCounts|;
    var init := recvCounts[..n - 1];
    assert Sum(recvCounts) == Sum(init) + recvCounts[n - 1];
    if b < Sum(init) {
      r := SegmentOf(init, b);
      assert init[..r] == recvCounts[..r];
    } else {
      r := n - 1;
    }
  }

  /** No byte lies in the segments of two ranks. */
  lemma SegmentUnique(recvCounts: seq<nat>, r: nat, q: nat, b: nat)
    requires r < |recvCounts| && q < |recvCounts|
    requires InSegment(recvCounts, r, b) && InSegment(recvCounts, q, b)
    ensures r == q
  {
    if r < q {
      SegmentsDisjoint(recvCounts, r, q);
    } else if q < r {
      SegmentsDisjoint(recvCounts, q, r);
    }
  }

  /**
   * The receive buffer, in records: `totalBytes / recordSize` when anything
   * arrives, otherwise no buffer at all.
   */
  function ReceiveCapacity(totalBytes: nat, recordSize: nat): (records: nat)
    requires recordSize > 0
    ensures records * recordSize <= totalBytes
    ensures totalBytes == 0 ==> records == 0
  {
    if totalBytes > 0 then totalBytes / recordSize else 0
  }

  /** The data gather: the root's buffer holds every worker's records, in rank order. */
  function GatherRecords(perRank: seq<seq<PackedKeypoint>>): seq<PackedKeypoint> {
    if perRank == [] then []
    else GatherRecords(perRank[..|perRank| - 1]) + perRank[|perRank| - 1]
  }

  /** Total number of records over all workers. */
  function TotalRecords(perRank: seq<seq<PackedKeypoint>>): nat {
    if perRank == [] then 0
    else TotalRecords(perRank[..|perRank| - 1]) + |perRank[|perRank| - 1]|
  }

  lemma {:induction false} GatherRecordsLength(perRank: seq<seq<PackedKeypoint>>)
    ensures |GatherRecords(perRank)| == TotalRecords(perRank)
  {
    if perRank != [] {
      GatherRecordsLength(perRank[..|perRank| - 1]);
    }
  }

  /** The byte counts add up to the record total times the record size. */
  lemma {:induction false} GatheredBytes(perRank: seq<seq<PackedKeypoint>>, recordSize: nat)
    ensures Sum(GatherCounts(perRank, recordSize)) == TotalRecords(perRank) * recordSize
  {
    if perRank != [] {
      var n := |perRank|;
      var init := perRank[..n - 1];
      var counts := GatherCounts(perRank, recordSize);
      assert Sum(counts) == Sum(counts[..n - 1]) + counts[n - 1];
      assert counts[..n - 1] == GatherCounts(init, recordSize);
      GatheredBytes(init, recordSize);
      assert TotalRecords(perRank) == TotalRecords(init) + |perRank[n - 1]|;
      MulDistributes(TotalRecords(init), |perRank[n - 1]|, recordSize);
    }
  }

  lemma MulDistributes(a: nat, b: nat, k: nat)
    ensures (a + b) * k == a * k + b * k
  {
  }

  lemma {:induction false} MulAtLeast(a: int, k: nat)
    requires a >= 1
    ensures a * k >= k
    decreases a
  {
    if a > 1 {
      MulAtLeast(a - 1, k);
      assert a * k == (a - 1) * k + k;
    }
  }

  lemma ExactDivision(n: nat, k: nat)
    requires k > 0
    ensures (n * k) / k == n
    ensures (n * k) % k == 0
  {
    var q := (n * k) / k;
    var m := (n * k) % k;
    assert 0 <= m < k;
    assert (n - q) * k == m;
    if n - q >= 1 {
      MulAtLeast(n - q, k);
      assert false;
    } else if q - n >= 1 {
      MulAtLeast(q - n, k);
      assert false;
    }
  }

  /**
   * Exchange conservation: the receive buffer the root allocates holds
   * exactly as many records as all workers together send, and exactly as
   * many as the gather delivers.
   */
  lemma ExchangeConservation(perRank: seq<seq<PackedKeypoint>>, recordSize: nat)
    requires recordSize > 0
    ensures ReceiveCapacity(Sum(GatherCounts(perRank, recordSize)), recordSize) == TotalRecords(perRank)
    ensures |GatherRecords(perRank)| == TotalRecords(perRank)
  {
    GatheredBytes(perRank, recordSize);
    ExactDivision(TotalRecords(perRank), recordSize);
    GatherRecordsLength(perRank);
  }

  /** Records before rank `r`'s segment. */
  lemma {:induction false} PrefixBytes(perRank: seq<seq<PackedKeypoint>>, recordSize: nat, r: nat)
    requires r <= |perRank|
    ensures Sum(GatherCounts(perRank, recordSize)[..r]) == |GatherRecords(perRank[..r])| * recordSize
  {
    assert GatherCounts(perRank, recordSize)[..r] == GatherCounts(perRank[..r], recordSize);
    GatheredBytes(perRank[..r], recordSize);
    GatherRecordsLength(perRank[..r]);
  }

  /** Concatenating one more rank extends the gathered prefix by that rank's records. */
  lemma GatherPrefixStep(perRank: seq<seq<PackedKeypoint>>, r: nat)
    requires r < |perRank|
    ensures GatherRecords(perRank[..r + 1]) == GatherRecords(perRank[..r]) + perRank[r]
  {
    assert perRank[..r + 1][..r] == perRank[..r];
  }

  /** The gathered prefix up to some rank is a prefix of the whole buffer. */
  lemma {:induction false} GatherPrefixIsPrefix(perRank: seq<seq<PackedKeypoint>>, r: nat)
    requires r <= |perRank|
    ensures GatherRecords(perRank[..r]) <= GatherRecords(perRank)
    decreases |perRank| - r
  {
    if r == |perRank| {
      assert perRank[..r] == perRank;
    } else {
      GatherPrefixStep(perRank, r);
      GatherPrefixIsPrefix(perRank, r + 1);
    }
  }

  /**
   * The bytes `[displ, displ + |records| * recordSize)` of a buffer hold
   * exactly `records`: the displacement is a whole number of records and
   * the segment lies inside the buffer.
   */
  predicate SegmentHolds(buffer: seq<PackedKeypoint>, recordSize: nat, displ: nat, records: seq<PackedKeypoint>)
    requires recordSize > 0
  {
    && displ % recordSize == 0
    && displ / recordSize + |records| <= |buffer|
    && buffer[displ / recordSize .. displ / recordSize + |records|] == records
  }

  /**
   * Gather placement: the root buffer holds rank `r`'s records at byte
   * displacement `displs[r]`, whether the rank sent anything or not.
   */
  lemma GatherPlacement(perRank: seq<seq<PackedKeypoint>>, recordSize: nat, r: nat)
    requires recordSize > 0
    requires r < |perRank|
    ensures SegmentHolds(GatherRecords(perRank), recordSize,
                         Sum(GatherCounts(perRank, recordSize)[..r]), perRank[r])
  {
    var displ := Sum(GatherCounts(perRank, recordSize)[..r]);
    var before := |GatherRecords(perRank[..r])|;
    DisplacementInRecords(perRank, recordSize, r);
    RankSegment(perRank, r);
    assert displ / recordSize == before;
  }

  /** Rank `r`'s displacement, in records, is the number of records of the ranks before it. */
  lemma DisplacementInRecords(perRank: seq<seq<PackedKeypoint>>, recordSize: nat, r: nat)
    requires recordSize > 0
    requires r <= |perRank|
    ensures Sum(GatherCounts(perRank, recordSize)[..r]) / recordSize == |GatherRecords(perRank[..r])|
    ensures Sum(GatherCounts(perRank, recordSize)[..r]) % recordSize == 0
  {
    PrefixBytes(perRank, recordSize, r);
    ExactDivision(|GatherRecords(perRank[..r])|, recordSize);
  }

  /** Right after the records of the ranks before `r` come rank `r`'s records. */
  lemma RankSegment(perRank: seq<seq<PackedKeypoint>>, r: nat)
    requires r < |perRank|
    ensures |GatherRecords(perRank[..r])| + |perRank[r]| <= |GatherRecords(perRank)|
    ensures GatherRecords(perRank)[|GatherRecords(perRank[..r])| .. |GatherRecords(perRank[..r])| + |perRank[r]|]
      == perRank[r]
  {
    var before := GatherRecords(perRank[..r]);
    var upTo := GatherRecords(perRank[..r + 1]);
    GatherPrefixStep(perRank, r);
    GatherPrefixIsPrefix(perRank, r + 1);
    assert upTo[|before| .. |before| + |perRank[r]|] == perRank[r];
    SliceOfPrefix(upTo, GatherRecords(perRank), |before|, |before| + |perRank[r]|);
  }

  /** A slice of a prefix is the same slice of the whole sequence. */
  lemma SliceOfPrefix(prefix: seq<PackedKeypoint>, whole: seq<PackedKeypoint>, lo: nat, hi: nat)
    requires prefix <= whole && lo <= hi <= |prefix|
    ensures hi <= |whole| && whole[lo..hi] == prefix[lo..hi]
  {
    assert whole[..|prefix|] == prefix;
  }
}
