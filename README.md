# SIFT keypoint coordination layer, in Dafny

This project models the coordination layer of the distributed SIFT keypoint
detector `hw2.cpp`. That is everything in `main` between the detector and
the image output:

- **Packing.** Each worker packs its local keypoints into fixed-shape
  `PackedKeypoint` records, with the 128-byte descriptor stored inline.
- **Size exchange.** Each worker reports its byte count, `count * sizeof(PackedKeypoint)`.
- **Displacements.** The root turns the gathered counts into byte
  displacements and a total.
- **Receive buffer.** The root sizes its receive buffer as `total_bytes / sizeof(PackedKeypoint)`.
- **Data gather.** The gather places every worker's records at that worker's displacement.
- **Merge.** The root unpacks every record and sorts the list in place by
  the key `(octave, scale, i, j)`.
- **Report.** The root writes the text report, a count line followed by one line per keypoint.

Each module follows one part of that code:

- `Keypoints` (keypoints.dfy): the keypoint record, the sort key and its lexicographic order.
- `Codec` (codec.dfy): `PackedKeypoint`, `pack_keypoint`, `unpack_keypoint` and the per-worker packing loop.
- `Exchange` (exchange.dfy): the byte counts, the displacement loop, the buffer sizing and the gather.
  - The gather is a concatenation in rank order.
  - The lemmas show where each rank's records land.
- `Merge` (merge.dfy): the unpacking loop and an in-place sort on an array.
  - The sort promises only "sorted by the key, and a permutation", because `std::sort` is not stable.
  - The lemmas show that this still fixes the sequence of keys.
- `Report` (report.dfy): the report as a sequence of lines, and a reader that parses the lines back.
- `Coordinator` (coordinator.dfy): the whole root-side pipeline for any number of ranks, plus whole-system properties.

Modelling choices:

- C++ `int` is the newtype `int32`, and `uint8_t` is `uint8`.
- A `float` is its 32-bit pattern (`bv32`), because the layer only ever copies floats.
- `sizeof(PackedKeypoint)` is a parameter `recordSize > 0`. Byte counts are unbounded naturals.
- The collectives are functions over a sequence with one entry per rank.
  - The size gather is `GatherCounts`.
  - The data gather is `GatherRecords`.
- The workers' packing loops run one after another in `Coordinator.Coordinate`.

The root sorts with `std::sort`, which is not stable:

- So the model promises only that the merged list is sorted by the key and is a permutation of the gathered records.
- It proves that any two such lists for the same keypoint multiset agree on their length and on the key at every position (`Merge.SortedPermutationsHaveEqualKeys`, `Coordinator.CanonicalKeysIndependentOfRanks`).
- Entries whose keys tie may come out in either order (`Merge.TiesMayComeOutEitherWay`).

## Model

| member | source | states |
|---|---|---|
| `Keypoints.KeyOf` | hw2.cpp:136-137 | definition: the tuple `std::tie(octave, scale, i, j)` of a keypoint; `Keypoints.PrecedesIsTieOrder` gives the order it is compared in |
| `Keypoints.KeyLess` | hw2.cpp:136-137 | definition: lexicographic `<` on key tuples; its properties are `Keypoints.KeyOrderTrichotomy`, `Keypoints.KeyLessTransitive` and `Keypoints.NotAfterTransitive` |
| `Keypoints.Precedes` | hw2.cpp:135-137 | definition: the comparator lambda passed to `std::sort`; `Keypoints.PrecedesIsTieOrder` states it field by field |
| `Keypoints.PrecedesIsTieOrder` | hw2.cpp:135-137 | the comparator orders by `octave` first, then `scale`, then `i`, then `j`, exactly like `<` on the `std::tie` tuples |
| `Keypoints.KeyOrderTrichotomy` | hw2.cpp:136-137 | the comparator is a strict total order on keys: irreflexive, asymmetric, and any two keys are equal or ordered |
| `Keypoints.KeyLessTransitive` | hw2.cpp:136-137 | the comparator is transitive |
| `Keypoints.NotAfterTransitive` | hw2.cpp:136-137 | "not after" is transitive |
| `Codec.CopyDescriptor` | hw2.cpp:39 | `std::copy` of the descriptor gives back every one of the 128 entries, unchanged and in order |
| `Codec.Pack` | hw2.cpp:28-41 | the packed record's descriptor holds the keypoint's descriptor element by element |
| `Codec.Unpack` | hw2.cpp:43-56 | the unpacked keypoint's descriptor holds the record's descriptor element by element |
| `Codec.UnpackPack` | hw2.cpp:28-56 | unpacking a packed keypoint gives back every field, all 128 descriptor entries included |
| `Codec.PackUnpack` | hw2.cpp:28-56 | packing an unpacked record gives back the record, so the codec is a bijection |
| `Codec.PackInjective` | hw2.cpp:28-41 | distinct keypoints pack to distinct records |
| `Codec.PackAll` | hw2.cpp:91-95 | the packed list has one record per keypoint, and record `t` unpacks to keypoint `t` |
| `Codec.UnpackAll` | hw2.cpp:129-134 | the unpacked list has one keypoint per record, and keypoint `t` packs to record `t` |
| `Codec.UnpackAllPackAll` | hw2.cpp:91-95 | unpacking a worker's packed buffer gives back its keypoint list exactly |
| `Codec.UnpackAllAppend` | hw2.cpp:129-134 | unpacking a concatenation of buffers gives the concatenation of the unpacked lists |
| `Codec.PackLocal` | hw2.cpp:91-95 | the `push_back` loop leaves the packed list of all local keypoints in order, and it unpacks back to them |
| `Exchange.LocalBytes` | hw2.cpp:97 | a worker reports zero bytes exactly when it has no records |
| `Exchange.GatherCounts` | hw2.cpp:98-105 | definition: the size gather, one `LocalBytes` per rank in rank order; its properties are `Exchange.GatheredBytes` and `Exchange.ExchangeConservation` |
| `Exchange.ComputeDisplacements` | hw2.cpp:107-115 | after the loop, `displs` is a new array whose entry `r` is the sum of the counts of ranks `< r`, with one displacement per rank, and `total_bytes` is the sum of all counts |
| `Exchange.DisplacementsArePrefixSums` | hw2.cpp:111-114 | the first displacement is 0, each next one adds the previous rank's count, and the last segment ends at the total |
| `Exchange.ZeroContributionLeavesNoGap` | hw2.cpp:111-114 | a rank that sends nothing has the displacement of the next rank (or the total, if it is last) |
| `Exchange.SegmentsDisjoint` | hw2.cpp:107-115 | the byte segment of an earlier rank ends at or before the segment of any later rank begins |
| `Exchange.SegmentWithinTotal` | hw2.cpp:107-115 | every rank's segment lies inside `[0, total_bytes)` |
| `Exchange.SegmentsCover` | hw2.cpp:107-115 | each byte of `[0, total_bytes)` lies in the segment of some rank, and of only one |
| `Exchange.SegmentOf` | hw2.cpp:107-115 | for a byte inside the total, it finds a rank whose segment holds that byte |
| `Exchange.SegmentUnique` | hw2.cpp:107-115 | no byte lies in the segments of two different ranks |
| `Exchange.ReceiveCapacity` | hw2.cpp:117-121 | the buffer never has more records than fit in `total_bytes`, and no buffer is allocated when nothing arrives |
| `Exchange.GatherRecords` | hw2.cpp:123-127 | definition: the `MPI_Gatherv` buffer as the concatenation of every rank's records in rank order; its properties are `Exchange.GatherRecordsLength`, `Exchange.GatherPlacement` and `Coordinator.GatherUnpacks` |
| `Exchange.GatherRecordsLength` | hw2.cpp:123-127 | the gathered buffer holds as many records as all ranks send together |
| `Exchange.GatheredBytes` | hw2.cpp:97-105 | the gathered byte counts add up to the total record count times the record size |
| `Exchange.ExchangeConservation` | hw2.cpp:97-121 | the root allocates exactly as many records as the workers send in total, and the gather delivers exactly that many |
| `Exchange.PrefixBytes` | hw2.cpp:107-115 | the displacement of rank `r` is the number of records of the ranks before it times the record size |
| `Exchange.GatherPrefixStep` | hw2.cpp:123-127 | adding a rank to the gathered ranks appends that rank's records |
| `Exchange.GatherPrefixIsPrefix` | hw2.cpp:123-127 | what the first `r` ranks send is a prefix of the gathered buffer |
| `Exchange.DisplacementInRecords` | hw2.cpp:107-119 | every displacement is a whole number of records, namely the records of the ranks before it |
| `Exchange.RankSegment` | hw2.cpp:123-127 | rank `r`'s records come right after those of the ranks before it |
| `Exchange.GatherPlacement` | hw2.cpp:107-127 | the gathered buffer holds rank `r`'s records at byte displacement `displs[r]`, whether or not the rank sent anything |
| `Merge.Keys` | hw2.cpp:135-138 | definition: the key of every entry, in list order; its property is `Merge.SortedPermutationsHaveEqualKeys` |
| `Merge.UnpackGathered` | hw2.cpp:129-134 | the unpacking loop yields every record of the buffer unpacked, in buffer order, and it packs back to the buffer |
| `Merge.Swap` | hw2.cpp:135 | exchanging two entries changes only those two and keeps the multiset |
| `Merge.SiftStep` | hw2.cpp:135-138 | swapping an entry with a left neighbour it precedes moves the unsorted gap one step left |
| `Merge.SiftDone` | hw2.cpp:135-138 | once the entry no longer precedes its left neighbour, the prefix is sorted |
| `Merge.SortByKey` | hw2.cpp:135-138 | sorting in place leaves the array sorted non-decreasing by `(octave, scale, i, j)` and a permutation of its old contents |
| `Merge.Canonicalise` | hw2.cpp:129-139 | the canonical list is sorted by the key, is a permutation of the unpacked buffer, has one entry per record, and is empty when the buffer is |
| `Merge.SortedHeadIsLeast` | hw2.cpp:135-138 | no entry of a sorted list precedes its first entry |
| `Merge.SortedRemove` | hw2.cpp:135-138 | removing one entry keeps a list sorted |
| `Merge.SortedTail` | hw2.cpp:135-138 | dropping the first entry keeps a list sorted |
| `Merge.SortedBlockKeys` | hw2.cpp:135-138 | in a sorted list, every entry between two entries of equal key has that key |
| `Merge.KeysAfterRemoval` | hw2.cpp:135-138 | putting an entry of the leading key back at the front lines the keys up position by position |
| `Merge.HeadsShareKey` | hw2.cpp:135-138 | two sorted lists with the same multiset start with the same key |
| `Merge.RemoveOtherHead` | hw2.cpp:135-138 | taking the head of one list out of a list with the same multiset leaves equal multisets |
| `Merge.SortedPermutationsHaveEqualKeys` | hw2.cpp:129-139 | any two sorted permutations of the same multiset have the same key at every position, so the unstable sort fixes the key sequence |
| `Merge.TiesMayComeOutEitherWay` | hw2.cpp:135-138 | two entries with equal keys are sorted in either order, so the sort leaves their order open |
| `Merge.CanonicalKeysUnique` | hw2.cpp:129-139 | merging the same buffer twice gives lists of the same length with the same keys (idempotence up to ties) |
| `Merge.SortingSortedKeepsKeys` | hw2.cpp:135-138 | re-sorting a canonical list changes no key at any position |
| `Report.DigitChar` | hw2.cpp:151 | a digit becomes a character from `'0'` to `'9'` |
| `Report.DigitValue` | hw2.cpp:151 | reading a digit character gives the digit that prints as that character |
| `Report.NatToDecimal` | hw2.cpp:151 | a count prints as a non-empty run of digits without a leading zero |
| `Report.IntToDecimal` | hw2.cpp:153 | an `int` field prints as a non-empty token without spaces |
| `Report.NatToDecimalRoundTrip` | hw2.cpp:151 | the count line reads back as the count |
| `Report.IntToDecimalRoundTrip` | hw2.cpp:153-155 | every printed `int` field and descriptor value is an integer token that reads back as itself, sign included |
| `Report.DescriptorText` | hw2.cpp:154-156 | definition: the `" " + value` loop over the 128 descriptor entries; `Report.DescriptorTextIsJoin` gives its tokens |
| `Report.KeypointLine` | hw2.cpp:153-156 | definition: `i j octave scale `, then the descriptor text; its properties are `Report.KeypointLineTokens` and `Report.ParseKeypointLineRoundTrip` |
| `Report.KeypointLines` | hw2.cpp:152-157 | there is one line per keypoint, and line `k` is the line of keypoint `k` |
| `Report.ReportLines` | hw2.cpp:151-157 | the report has `kps.size() + 1` lines: the count first, then keypoint `k` on line `k + 1` |
| `Report.Split` | hw2.cpp:153-155 | splitting at single spaces always yields at least one token |
| `Report.SplitToken` | hw2.cpp:153-155 | a space-free prefix becomes part of the first token |
| `Report.JoinCons` | hw2.cpp:153-155 | joining a token in front of others adds that token and a single space |
| `Report.SplitJoin` | hw2.cpp:153-155 | splitting space-free tokens joined by single spaces gives the tokens back |
| `Report.DescriptorTokens` | hw2.cpp:154-156 | there is one token per descriptor entry, in descriptor order |
| `Report.DescriptorTextIsJoin` | hw2.cpp:154-156 | the `" " + value` loop appends the descriptor tokens, each after a single space |
| `Report.KeypointLineIsJoin` | hw2.cpp:153-156 | a keypoint line is its four key fields, an empty token and the 128 values, joined by single spaces |
| `Report.LineTokensHaveNoSpaces` | hw2.cpp:153-156 | no token of a keypoint line contains a space |
| `Report.KeypointLineTokens` | hw2.cpp:153-156 | a keypoint line splits into 133 tokens, and the fifth is empty; that empty token is the double space after `scale` |
| `Report.LeadingTokens` | hw2.cpp:153 | at most four leading tokens, and they are a prefix of the line's tokens |
| `Report.KeypointLineLeadingTokens` | hw2.cpp:153 | the first four tokens of a keypoint line are `i j octave scale` |
| `Report.ParseKeypointLine` | hw2.cpp:153-156 | a line that is read as an entry gives exactly 128 descriptor values |
| `Report.ParseLineTokens` | hw2.cpp:153-156 | a token list that is read as an entry gives exactly 128 descriptor values |
| `Report.DescriptorTokensRoundTrip` | hw2.cpp:155 | each descriptor token reads back as its byte value |
| `Report.DescriptorTokensParse` | hw2.cpp:154-156 | all descriptor tokens read back as their values |
| `Report.ParseLineTokensOf` | hw2.cpp:153-156 | four key tokens, an empty token and 128 value tokens, each reading back as a field of an entry, are read as that entry |
| `Report.LineTokensParse` | hw2.cpp:153-156 | a keypoint line's tokens are read as that keypoint's key fields and descriptor |
| `Report.ParseKeypointLineRoundTrip` | hw2.cpp:153-156 | every keypoint line reads back as its keypoint's `i`, `j`, `octave`, `scale` and all 128 descriptor values |
| `Report.ReportReadsBack` | hw2.cpp:151-157 | the whole report reads back: the count on line 0, and keypoint `k`'s fields on line `k + 1` |
| `Coordinator.GatherUnpacks` | hw2.cpp:123-134 | unpacking the gathered buffer gives every rank's keypoints, in rank order |
| `Coordinator.PackedRanks` | hw2.cpp:91-95 | definition: every rank's packed list, in rank order |
| `Coordinator.Flatten` | hw2.cpp:123-134 | definition: every rank's keypoints, in rank order |
| `Coordinator.Coordinate` | hw2.cpp:91-139 | end to end, over all ranks: <br>- displacement `r` is the sum of the byte counts of the ranks before `r`; <br>- the buffer is the concatenation of the ranks' packed lists in rank order, unpacks to all ranks' keypoints in rank order, and holds each rank's keypoints at that rank's displacement; <br>- a canonical list that is sorted and a permutation of all ranks' keypoints |
| `Coordinator.GatheredBuffer` | hw2.cpp:117-127 | the allocated receive buffer is exactly as large as what the gather delivers, and it unpacks to every rank's keypoints in rank order |
| `Coordinator.RankPlacement` | hw2.cpp:107-127 | every rank's keypoints unpack from the buffer at that rank's displacement |
| `Coordinator.SegmentUnpacks` | hw2.cpp:123-134 | a segment holding a packed list unpacks to that list |
| `Coordinator.CanonicalKeysIndependentOfRanks` | hw2.cpp:88-139 | however the same keypoints are spread over the ranks, the canonical lists have the same length and the same key at every position |
| `Coordinator.ReportsAgreeOnKeys` | hw2.cpp:151-157 | lists with equal keys give reports with the same line count, the same count line, and the same `i j octave scale` on every line |
| `Coordinator.CountsTwoZeroOne` | hw2.cpp:107-121 | byte counts `2s, 0, s` give displacements `0, 2s, 2s` and a receive buffer of 3 records |
| `Coordinator.ThreeRanksGathered` | hw2.cpp:123-127 | ranks holding `[a, b]`, `[]` and `[c]` gather to the three records in rank order |
| `Coordinator.ThreeRanksOneEmpty` | hw2.cpp:107-127 | with ranks holding 2, 0 and 1 keypoints: <br>- the displacements are `0`, `2*size` and `2*size`; <br>- the buffer holds 3 records; <br>- the buffer is the three packed keypoints in rank order |

## Left out

- The MPI calls (`MPI_Init`, `MPI_Barrier`, `MPI_Gather`, `MPI_Gatherv`, `MPI_Finalize`) are not modelled.
  - They are message passing between concurrent processes.
  - The two gathers become functions over a sequence indexed by rank.
  - The ranks' packing loops run one after another.
- The detector `find_keypoints_and_descriptors`, `rgb_to_grayscale`, `Image`, `draw_keypoints` and `result.save` are not part of this model.
  - They are external code and image I/O.
  - The ranks' keypoint lists are inputs to `Coordinator.Coordinate`.
  - How the unseen detector partitions work between ranks is therefore not modelled either.
- Argument-count checking, timing (`std::chrono`) and console output are not modelled.
  - They are I/O and clocks with no effect on the data.
- Opening and writing the output file is not modelled: the report is a sequence of lines without their `"\n"` terminators.
  - The code opens the file on every rank, so the non-root ranks also write their own empty report (`0`) to the same path.
  - That race between processes is I/O and concurrency, and is out of scope.
- Float semantics are not modelled: `x`, `y`, `sigma` and `extremum_val` are copied as 32-bit patterns and never computed with.
- The byte layout and padding of `PackedKeypoint` are not modelled: a record is its fields, and `sizeof(PackedKeypoint)` is the parameter `recordSize > 0`.
- `Exchange.LocalBytes`: does not model the `static_cast<int>` of `size * sizeof(PackedKeypoint)`.
  - That cast, and the `int` sums in the displacement loop, can overflow for very large outputs.
  - Byte counts here are unbounded naturals.
- `Merge.SortByKey`: insertion sort stands in for `std::sort`.
  - Both are promised only to leave the list sorted by the key and a permutation.
  - The model does not say how `std::sort` orders entries whose keys tie.
