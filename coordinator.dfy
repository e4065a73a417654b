/**
 * The coordination layer end to end, as the root sees it: every rank packs
 * its local keypoints and reports its byte count, the root computes
 * displacements, sizes its receive buffer, gathers the records and
 * canonicalises them. The ranks' local keypoint lists are the input, one per
 * rank in rank order; the detector that produces them is not modelled.
 */
module Coordinator {
  import opened Keypoints
  import opened Codec
  import opened Exchange
  import opened Merge
  import opened Report

  /** Every rank's keypoints, in rank order. */
  function Flatten(perRank: seq<seq<Keypoint>>): seq<Keypoint> {
    if perRank == [] then []
    else Flatten(perRank[..|perRank| - 1]) + perRank[|perRank| - 1]
  }

  /** Unpacking the gathered buffer gives every rank's keypoints, in rank order. */
  lemma {:induction false} GatherUnpacks(perRankKps: seq<seq<Keypoint>>, packed: seq<seq<PackedKeypoint>>)
    requires |packed| == |perRankKps|
    requires forall q :: 0 <= q < |packed| ==> packed[q] == PackAll(perRankKps[q])
    ensures UnpackAll(GatherRecords(packed)) == Flatten(perRankKps)
  {
    if packed != [] {
      var n := |packed|;
      GatherUnpacks(perRankKps[..n - 1], packed[..n - 1]);
      UnpackAllAppend(GatherRecords(packed[..n - 1]), packed[n - 1]);
      UnpackAllPackAll(perRankKps[n - 1]);
    }
  }

  /** What every rank hands to the data gather: its packed list, in rank order. */
  function PackedRanks(perRankKps: seq<seq<Keypoint>>): seq<seq<PackedKeypoint>> {
    seq(|perRankKps|, q requires 0 <= q < |perRankKps| => PackAll(perRankKps[q]))
  }

  /**
   * Lines 91-139 of the program, for all ranks: the packing loop of every
   * rank, the size gather, the displacement loop, the buffer sizing, the
   * data gather and the merge.
   */
  method Coordinate(perRankKps: seq<seq<Keypoint>>, recordSize: nat)
    returns (displs: seq<nat>, packedGlobal: seq<PackedKeypoint>, kps: seq<Keypoint>)
    requires recordSize > 0
    ensures |displs| == |perRankKps|
    ensures forall r :: 0 <= r < |perRankKps| ==>
      displs[r] == Sum(GatherCounts(PackedRanks(perRankKps), recordSize)[..r])
    ensures packedGlobal == GatherRecords(PackedRanks(perRankKps))
    ensures UnpackAll(packedGlobal) == Flatten(perRankKps)
    ensures |packedGlobal| == |Flatten(perRankKps)|
    ensures forall r :: 0 <= r < |perRankKps| ==>
      RankAt(packedGlobal, recordSize, displs[r], perRankKps[r])
    ensures Sorted(kps)
    ensures multiset(kps) == multiset(Flatten(perRankKps))
    ensures |kps| == |Flatten(perRankKps)|
  {
    // Each rank runs its own packing loop; here the ranks take their turns.
    var packed: seq<seq<PackedKeypoint>> := [];
    var r := 0;
    while r < |perRankKps|
      invariant 0 <= r <= |perRankKps|
      invariant |packed| == r
      invariant forall q :: 0 <= q < r ==> packed[q] == PackAll(perRankKps[q])
    {
      var packedLocal := PackLocal(perRankKps[r]);
      packed := packed + [packedLocal];
      r := r + 1;
    }
    var recvCounts := GatherCounts(packed, recordSize);
    var displsArray, totalBytes := ComputeDisplacements(recvCounts);
    displs := displsArray[..];
    var capacity := ReceiveCapacity(totalBytes, recordSize);
    packedGlobal := GatherRecords(packed);
    GatheredBuffer(perRankKps, packed, recordSize);
    RankPlacement(perRankKps, packed, recordSize, displs);
    assert |packedGlobal| == capacity;
    assert packed == PackedRanks(perRankKps);
    kps := Canonicalise(packedGlobal);
  }

  /**
   * What the exchange leaves on the root: a buffer of exactly the size it
   * allocated, holding every rank's keypoints in rank order.
   */
  lemma GatheredBuffer(perRankKps: seq<seq<Keypoint>>, packed: seq<seq<PackedKeypoint>>, recordSize: nat)
    requires recordSize > 0
    requires |packed| == |perRankKps|
    requires forall q :: 0 <= q < |packed| ==> packed[q] == PackAll(perRankKps[q])
    ensures ReceiveCapacity(Sum(GatherCounts(packed, recordSize)), recordSize) == |GatherRecords(packed)|
    ensures |GatherRecords(packed)| == |Flatten(perRankKps)|
    ensures UnpackAll(GatherRecords(packed)) == Flatten(perRankKps)
  {
    ExchangeConservation(packed, recordSize);
    GatherUnpacks(perRankKps, packed);
  }

  /** Every rank's keypoints sit in the root buffer at that rank's displacement. */
  lemma RankPlacement(perRankKps: seq<seq<Keypoint>>, packed: seq<seq<PackedKeypoint>>,
                      recordSize: nat, displs: seq<nat>)
    requires recordSize > 0
    requires |packed| == |perRankKps|
    requires forall q :: 0 <= q < |packed| ==> packed[q] == PackAll(perRankKps[q])
    requires |displs| == |packed|
    requires forall q :: 0 <= q < |packed| ==> displs[q] == Sum(GatherCounts(packed, recordSize)[..q])
    ensures forall r :: 0 <= r < |perRankKps| ==>
      RankAt(GatherRecords(packed), recordSize, displs[r], perRankKps[r])
  {
    forall r | 0 <= r < |perRankKps|
      ensures RankAt(GatherRecords(packed), recordSize, displs[r], perRankKps[r])
    {
      GatherPlacement(packed, recordSize, r);
      assert packed[r] == PackAll(perRankKps[r]);
      SegmentUnpacks(GatherRecords(packed), recordSize, displs[r], perRankKps[r]);
    }
  }

  /** A segment holding the packed form of `kps` unpacks to `kps`. */
  lemma SegmentUnpacks(buffer: seq<PackedKeypoint>, recordSize: nat, displ: nat, kps: seq<Keypoint>)
    requires recordSize > 0
    requires SegmentHolds(buffer, recordSize, displ, PackAll(kps))
    ensures RankAt(buffer, recordSize, displ, kps)
  {
    UnpackAllPackAll(kps);
  }

  /** The records at byte displacement `displ` of the buffer unpack to `kps`. */
  predicate RankAt(buffer: seq<PackedKeypoint>, recordSize: nat, displ: nat, kps: seq<Keypoint>)
    requires recordSize > 0
  {
    && displ % recordSize == 0
    && displ / recordSize + |kps| <= |buffer|
    && UnpackAll(buffer[displ / recordSize .. displ / recordSize + |kps|]) == kps
  }

  /**
   * Worker-count invariance: however the same keypoints are spread over the
   * ranks, and in whatever order each rank lists them, the canonical lists
   * the root can produce agree on their length and on the key at every
   * position. Only entries whose keys tie may come out in a different order.
   */
  lemma CanonicalKeysIndependentOfRanks(
    first: seq<seq<Keypoint>>, second: seq<seq<Keypoint>>,
    firstKps: seq<Keypoint>, secondKps: seq<Keypoint>)
    requires multiset(Flatten(first)) == multiset(Flatten(second))
    requires Sorted(firstKps) && multiset(firstKps) == multiset(Flatten(first))
    requires Sorted(secondKps) && multiset(secondKps) == multiset(Flatten(second))
    ensures |firstKps| == |secondKps|
    ensures Keys(firstKps) == Keys(secondKps)
  {
    CanonicalKeysUnique(Flatten(first), firstKps, secondKps);
  }

  /**
   * Two canonical lists with the same keys give reports with the same
   * count line, the same number of lines, and the same four leading
   * tokens `i j octave scale` on every keypoint line.
   */
  lemma ReportsAgreeOnKeys(a: seq<Keypoint>, b: seq<Keypoint>)
    requires Keys(a) == Keys(b)
    ensures |ReportLines(a)| == |ReportLines(b)|
    ensures ReportLines(a)[0] == ReportLines(b)[0]
    ensures forall k :: 0 <= k < |a| ==>
      LeadingTokens(KeypointLine(a[k])) == LeadingTokens(KeypointLine(b[k]))
  {
    forall k | 0 <= k < |a|
      ensures LeadingTokens(KeypointLine(a[k])) == LeadingTokens(KeypointLine(b[k]))
    {
      assert KeyOf(a[k]) == KeyOf(b[k]) by {
        assert Keys(a)[k] == Keys(b)[k];
      }
      KeypointLineLeadingTokens(a[k]);
      KeypointLineLeadingTokens(b[k]);
    }
  }

  /**
   * Three ranks holding 2, 0 and 1 keypoints: the gathered buffer holds
   * three records, and the empty rank 1 leaves rank 2 right after rank 0.
   */
  lemma ThreeRanksOneEmpty(a: Keypoint, b: Keypoint, c: Keypoint, recordSize: nat)
    requires recordSize > 0
    ensures var perRank := [PackAll([a, b]), PackAll([]), PackAll([c])];
      var counts := GatherCounts(perRank, recordSize);
      && Sum(counts[..0]) == 0
      && Sum(counts[..1]) == 2 * recordSize
      && Sum(counts[..2]) == 2 * recordSize
      && ReceiveCapacity(Sum(counts), recordSize) == 3
      && GatherRecords(perRank) == [Pack(a), Pack(b), Pack(c)]
  {
    var perRank := [PackAll([a, b]), PackAll([]), PackAll([c])];
    var counts := GatherCounts(perRank, recordSize);
    assert counts == [2 * recordSize, 0, recordSize] by {
      assert LocalBytes(perRank[0], recordSize) == 2 * recordSize;
      assert LocalBytes(perRank[1], recordSize) == 0;
      assert LocalBytes(perRank[2], recordSize) == recordSize;
    }
    CountsTwoZeroOne(counts, recordSize);
    ThreeRanksGathered(a, b, c);
  }

  /** Byte counts `2s, 0, s`: displacements `0, 2s, 2s` and a buffer of three records. */
  lemma CountsTwoZeroOne(counts: seq<nat>, recordSize: nat)
    requires recordSize > 0 && counts == [2 * recordSize, 0, recordSize]
    ensures Sum(counts[..0]) == 0
    ensures Sum(counts[..1]) == 2 * recordSize
    ensures Sum(counts[..2]) == 2 * recordSize
    ensures ReceiveCapacity(Sum(counts), recordSize) == 3
  {
    SumPrefixStep(counts, 0);
    SumPrefixStep(counts, 1);
    SumPrefixStep(counts, 2);
    assert counts[..3] == counts;
    assert Sum(counts) == 3 * recordSize;
    ExactDivision(3, recordSize);
  }

  /** The gather of ranks holding `[a, b]`, `[]` and `[c]` is the three records in rank order. */
  lemma ThreeRanksGathered(a: Keypoint, b: Keypoint, c: Keypoint)
    ensures GatherRecords([PackAll([a, b]), PackAll([]), PackAll([c])]) == [Pack(a), Pack(b), Pack(c)]
  {
    var perRank := [PackAll([a, b]), PackAll([]), PackAll([c])];
    assert perRank[..2][..1] == perRank[..1];
    assert perRank[..3][..2] == perRank[..2];
    assert GatherRecords(perRank[..1]) == PackAll([a, b]) by {
      assert perRank[..1][..0] == [];
    }
  }
}
