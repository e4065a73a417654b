/**
 * The record codec: `PackedKeypoint` is the fixed-shape record that travels
 * through the byte-level gather, with the 128-byte descriptor stored inline.
 * Packing and unpacking are field-for-field copies.
 */
module Codec {
  import opened Keypoints

  /** The wire record. Its byte layout is not modelled, only its fields. */
  datatype PackedKeypoint = PackedKeypoint(
    i: int32,
    j: int32,
    octave: int32,
    scale: int32,
    x: Float32,
    y: Float32,
    sigma: Float32,
    extremumVal: Float32,
    descriptor: Descriptor)

  /** `std::copy` of a descriptor into a 128-entry array: element by element, in order. */
  function CopyDescriptor(src: Descriptor): (dst: Descriptor)
    ensures dst == src
  {
    seq(DescriptorLength, t requires 0 <= t < DescriptorLength => src[t])
  }

  function Pack(kp: Keypoint): (p: PackedKeypoint)
    ensures forall t :: 0 <= t < DescriptorLength ==> p.descriptor[t] == kp.descriptor[t]
  {
    PackedKeypoint(kp.i, kp.j, kp.octave, kp.scale,
                   kp.x, kp.y, kp.sigma, kp.extremumVal,
                   CopyDescriptor(kp.descriptor))
  }

  function Unpack(p: PackedKeypoint): (kp: Keypoint)
    ensures forall t :: 0 <= t < DescriptorLength ==> kp.descriptor[t] == p.descriptor[t]
  {
    Keypoint(p.i, p.j, p.octave, p.scale,
             p.x, p.y, p.sigma, p.extremumVal,
             CopyDescriptor(p.descriptor))
  }

  /** Decoding an encoded keypoint gives back every field, all 128 descriptor entries included. */
  lemma UnpackPack(kp: Keypoint)
    ensures Unpack(Pack(kp)) == kp
  {
  }

  /** The codec is a bijection: encoding a decoded record gives back the record. */
  lemma PackUnpack(p: PackedKeypoint)
    ensures Pack(Unpack(p)) == p
  {
  }

  /** Distinct keypoints give distinct records: packing loses nothing. */
  lemma PackInjective(a: Keypoint, b: Keypoint)
    requires Pack(a) == Pack(b)
    ensures a == b
  {
    UnpackPack(a);
    UnpackPack(b);
  }

  /** The packed form of a whole list, record by record. */
  function PackAll(kps: seq<Keypoint>): (ps: seq<PackedKeypoint>)
    ensures |ps| == |kps|
    ensures forall t :: 0 <= t < |kps| ==> Unpack(ps[t]) == kps[t]
  {
    seq(|kps|, t requires 0 <= t < |kps| => Pack(kps[t]))
  }

  /** The unpacked form of a whole buffer, record by record. */
  function UnpackAll(ps: seq<PackedKeypoint>): (kps: seq<Keypoint>)
    ensures |kps| == |ps|
    ensures forall t :: 0 <= t < |ps| ==> Pack(kps[t]) == ps[t]
  {
    seq(|ps|, t requires 0 <= t < |ps| => Unpack(ps[t]))
  }

  lemma {:induction false} UnpackAllPackAll(kps: seq<Keypoint>)
    ensures UnpackAll(PackAll(kps)) == kps
  {
    var back := UnpackAll(PackAll(kps));
    forall t | 0 <= t < |kps|
      ensures back[t] == kps[t]
    {
      UnpackPack(kps[t]);
    }
  }

  /** Unpacking a concatenation is the concatenation of the unpacked parts. */
  lemma UnpackAllAppend(a: seq<PackedKeypoint>, b: seq<PackedKeypoint>)
    ensures UnpackAll(a + b) == UnpackAll(a) + UnpackAll(b)
  {
    assert forall t :: 0 <= t < |a + b| ==>
      UnpackAll(a + b)[t] == (UnpackAll(a) + UnpackAll(b))[t];
  }

  /**
   * The packing loop each worker runs over its local keypoints
   * (`push_back(pack_keypoint(kp))` for every `kp`, in order).
   */
  method PackLocal(localKps: seq<Keypoint>) returns (packedLocal: seq<PackedKeypoint>)
    ensures packedLocal == PackAll(localKps)
    ensures UnpackAll(packedLocal) == localKps
  {
    packedLocal := [];
    var n := 0;
    while n < |localKps|
      invariant 0 <= n <= |localKps|
      invariant packedLocal == PackAll(localKps[..n])
    {
      packedLocal := packedLocal + [Pack(localKps[n])];
      n := n + 1;
    }
    assert localKps[..n] == localKps;
    UnpackAllPackAll(localKps);
  }
}
