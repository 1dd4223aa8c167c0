/** The compressed form of a tree proof: siblings that are empty subtrees become bits. */
module ProofCodec {
  import opened Bytes
  import opened Hashing
  import opened SumTree
  import opened TreeProof
  import Tlv

  datatype CompressedProof = CompressedProof(bits: seq<bool>, nodes: seq<Node>)

  /** The empty subtree that stands beside position `idx` of a proof. */
  function EmptySibling(idx: nat): Node
    requires idx < DEPTH
  {
    EmptyNode(DEPTH - idx)
  }

  function CompressFrom(p: Proof, idx: nat): (c: CompressedProof)
    requires idx <= DEPTH
    ensures |c.bits| == DEPTH - idx && |c.nodes| <= DEPTH - idx
    decreases DEPTH - idx
  {
    if idx == DEPTH then CompressedProof([], []) else
    var rest := CompressFrom(p, idx + 1);
    if p[idx].hash == EmptySibling(idx).hash then CompressedProof([true] + rest.bits, rest.nodes)
    else CompressedProof([false] + rest.bits, [p[idx]] + rest.nodes)
  }

  function CountFalse(bits: seq<bool>): nat {
    if bits == [] then 0 else (if bits[0] then 0 else 1) + CountFalse(bits[1..])
  }

  function ExpandFrom(bits: seq<bool>, nodes: seq<Node>, idx: nat): (r: seq<Node>)
    requires |bits| == DEPTH - idx && idx <= DEPTH
    requires |nodes| == CountFalse(bits)
    ensures |r| == |bits|
    decreases |bits|
  {
    if bits == [] then []
    else if bits[0] then [EmptySibling(idx)] + ExpandFrom(bits[1..], nodes, idx + 1)
    else [nodes[0]] + ExpandFrom(bits[1..], nodes[1..], idx + 1)
  }

  function Decompress(c: CompressedProof): Option<Proof>
    requires |c.bits| == DEPTH
  {
    if |c.nodes| != CountFalse(c.bits) then None else Some(ExpandFrom(c.bits, c.nodes, 0))
  }

  /** A node that has the hash of the empty subtree at its level is that subtree. */
  ghost predicate NoForgedEmpty(p: Proof) {
    forall i :: 0 <= i < DEPTH && p[i].hash == EmptySibling(i).hash ==> p[i] == EmptySibling(i)
  }

  lemma {:induction false} CompressCounts(p: Proof, idx: nat)
    requires idx <= DEPTH
    ensures |CompressFrom(p, idx).nodes| == CountFalse(CompressFrom(p, idx).bits)
    decreases DEPTH - idx
  {
    hide EmptySibling;
    if idx < DEPTH {
      CompressCounts(p, idx + 1);
      assert CompressFrom(p, idx).bits[1..] == CompressFrom(p, idx + 1).bits;
    }
  }

  /** What a sibling comes back as. */
  function Restored(p: Proof, i: nat): Node
    requires i < DEPTH
  {
    if p[i].hash == EmptySibling(i).hash then EmptySibling(i) else p[i]
  }

  /** One position is expanded to what it is restored as, the rest as if it were compressed alone. */
  lemma ExpandOne(p: Proof, idx: nat)
    requires idx < DEPTH
    requires |CompressFrom(p, idx).nodes| == CountFalse(CompressFrom(p, idx).bits)
    requires |CompressFrom(p, idx + 1).nodes| == CountFalse(CompressFrom(p, idx + 1).bits)
    ensures var c, d := CompressFrom(p, idx), CompressFrom(p, idx + 1);
            ExpandFrom(c.bits, c.nodes, idx) == [Restored(p, idx)] + ExpandFrom(d.bits, d.nodes, idx + 1)
  {
    hide EmptySibling, CountFalse;
    var c, d := CompressFrom(p, idx), CompressFrom(p, idx + 1);
    assert c.bits[1..] == d.bits;
    if !c.bits[0] { assert c.nodes[1..] == d.nodes; }
  }

  lemma {:induction false} ExpandCompressed(p: Proof, idx: nat, i: nat)
    requires idx <= i < DEPTH
    requires |CompressFrom(p, idx).nodes| == CountFalse(CompressFrom(p, idx).bits)
    ensures var c := CompressFrom(p, idx);
            ExpandFrom(c.bits, c.nodes, idx)[i - idx] == Restored(p, i)
    decreases DEPTH - idx
  {
    hide CompressFrom, ExpandFrom, CountFalse, Restored;
    CompressCounts(p, idx + 1);
    ExpandOne(p, idx);
    if idx < i { ExpandCompressed(p, idx + 1, i); }
  }

  /** Compression loses nothing exactly when no sibling poses as an empty subtree with another sum. */
  lemma CompressionLossless(p: Proof)
    ensures Decompress(CompressFrom(p, 0)).Some?
    ensures Decompress(CompressFrom(p, 0)).value == p <==> NoForgedEmpty(p)
  {
    hide EmptySibling;
    CompressCounts(p, 0);
    var c := CompressFrom(p, 0);
    var r := ExpandFrom(c.bits, c.nodes, 0);
    forall i | 0 <= i < DEPTH
      ensures r[i] == Restored(p, i)
    {
      ExpandCompressed(p, 0, i);
    }
    if NoForgedEmpty(p) {
      assert forall i :: 0 <= i < DEPTH ==> r[i] == p[i];
    } else {
      var i :| 0 <= i < DEPTH && p[i].hash == EmptySibling(i).hash && p[i] != EmptySibling(i);
      assert r[i] != p[i];
    }
  }

  // ----- Bit vectors -----

  function PackByte(bits: seq<bool>): (x: nat)
    requires |bits| <= 8
    ensures x < Pow2(|bits|)
  {
    if bits == [] then 0 else (if bits[0] then 1 else 0) + 2 * PackByte(bits[1..])
  }

  function PackBits(bits: seq<bool>): (r: bytes)
    requires |bits| % 8 == 0
    ensures |r| == |bits| / 8
  {
    if bits == [] then [] else
    assert Pow2(8) == 256;
    [PackByte(bits[..8])] + PackBits(bits[8..])
  }

  function UnpackBits(b: bytes): seq<bool> {
    seq(8 * |b|, i requires 0 <= i < 8 * |b| => ShiftedBit(b[i / 8], i % 8))
  }

  /** The bits of `2 * x`, with the lowest one set or not. */
  lemma DoubledBits(low: nat, x: nat, j: nat)
    requires low < 2
    ensures ShiftedBit(low + 2 * x, j) == if j == 0 then low == 1 else ShiftedBit(x, j - 1)
  {
    assert (low + 2 * x) % 2 == low && (low + 2 * x) / 2 == x;
  }

  lemma {:induction false} PackByteBit(bits: seq<bool>, j: nat)
    requires j < |bits| <= 8
    ensures ShiftedBit(PackByte(bits), j) == bits[j]
  {
    hide ShiftedBit;
    DoubledBits(if bits[0] then 1 else 0, PackByte(bits[1..]), j);
    if j > 0 { PackByteBit(bits[1..], j - 1); }
  }

  lemma {:induction false} PackBitsBit(bits: seq<bool>, i: nat)
    requires |bits| % 8 == 0 && i < |bits|
    ensures ShiftedBit(PackBits(bits)[i / 8], i % 8) == bits[i]
  {
    hide ShiftedBit, PackByte;
    if i < 8 {
      PackByteBit(bits[..8], i);
    } else {
      assert (i - 8) / 8 == i / 8 - 1 && (i - 8) % 8 == i % 8;
      PackBitsBit(bits[8..], i - 8);
    }
  }

  lemma BitsRoundTrip(bits: seq<bool>)
    requires |bits| % 8 == 0
    ensures UnpackBits(PackBits(bits)) == bits
  {
    forall i | 0 <= i < |bits| ensures UnpackBits(PackBits(bits))[i] == bits[i] {
      PackBitsBit(bits, i);
    }
  }

  // ----- Bytes -----

  function EncodeNode(n: Node): (r: bytes)
    ensures |r| == 40
  {
    n.hash + BigEndian(n.sum, 8)
  }

  function EncodeNodes(nodes: seq<Node>): (r: bytes)
    ensures |r| == 40 * |nodes|
  {
    if nodes == [] then [] else EncodeNode(nodes[0]) + EncodeNodes(nodes[1..])
  }

  function ReadNode(b: bytes): Option<(Node, bytes)> {
    if |b| < 40 then None else Some((Node(b[..32], FromBigEndian(b[32..40])), b[40..]))
  }

  function ReadNodes(b: bytes, n: nat): Option<(seq<Node>, bytes)>
    decreases n
  {
    if n == 0 then Some(([], b)) else
    var (node, after) :- ReadNode(b);
    var (rest, tail) :- ReadNodes(after, n - 1);
    Some(([node] + rest, tail))
  }

  function EncodeProof(p: Proof): bytes {
    var c := CompressFrom(p, 0);
    BigEndian(|c.nodes|, 2) + EncodeNodes(c.nodes) + PackBits(c.bits)
  }

  function DecodeProof(b: bytes): Option<Proof> {
    var (n, rest) :- Tlv.ReadFixed(b, 2);
    var (nodes, bits) :- ReadNodes(rest, n);
    if bits == [] then None else
    Decompress(CompressedProof(UnpackBits(Filled(bits)), nodes))
  }

  /** The buffer for the bit vector after a read that took what was there: short input leaves zeroes. */
  function Filled(b: bytes): (r: bytes)
    ensures |r| == DEPTH / 8
  {
    if |b| < DEPTH / 8 then b + Zeros(DEPTH / 8 - |b|) else b[..DEPTH / 8]
  }

  ghost predicate SumsFit(nodes: seq<Node>) {
    forall i :: 0 <= i < |nodes| ==> nodes[i].sum < U64_LIMIT
  }

  lemma NodeRoundTrip(n: Node, tail: bytes)
    requires n.sum < U64_LIMIT
    ensures ReadNode(EncodeNode(n) + tail) == Some((n, tail))
  {
    var b := EncodeNode(n) + tail;
    assert b[..32] == n.hash && b[32..40] == BigEndian(n.sum, 8) && b[40..] == tail;
    Pow256Values();
    BigEndianRoundTrip(n.sum, 8);
  }

  lemma {:induction false} NodesRoundTrip(nodes: seq<Node>, tail: bytes)
    requires SumsFit(nodes)
    ensures ReadNodes(EncodeNodes(nodes) + tail, |nodes|) == Some((nodes, tail))
  {
    hide ReadNode, EncodeNode;
    if nodes == [] {
      assert EncodeNodes(nodes) + tail == tail;
    } else {
      var after := EncodeNodes(nodes[1..]) + tail;
      assert EncodeNodes(nodes) + tail == EncodeNode(nodes[0]) + after;
      NodeRoundTrip(nodes[0], after);
      NodesRoundTrip(nodes[1..], tail);
      assert nodes == [nodes[0]] + nodes[1..];
    }
  }

  lemma {:induction false} CompressedSumsFit(p: Proof, idx: nat)
    requires idx <= DEPTH && SumsFit(p)
    ensures SumsFit(CompressFrom(p, idx).nodes)
    decreases DEPTH - idx
  {
    if idx < DEPTH { CompressedSumsFit(p, idx + 1); }
  }

  /** Whatever follows the bit vector: a proof is decoded from the front of a string. */
  lemma DecodeFront(p: Proof, tail: bytes)
    requires SumsFit(p) && tail != []
    ensures var c := CompressFrom(p, 0);
            DecodeProof(BigEndian(|c.nodes|, 2) + EncodeNodes(c.nodes) + tail)
            == Decompress(CompressedProof(UnpackBits(Filled(tail)), c.nodes))
  {
    hide CompressFrom, Decompress, UnpackBits, ReadNodes, EncodeNodes, Filled;
    var c := CompressFrom(p, 0);
    Pow256Values();
    var count, nodes := BigEndian(|c.nodes|, 2), EncodeNodes(c.nodes);
    assert count + nodes + tail == count + (nodes + tail);
    Tlv.FixedRoundTrip(|c.nodes|, 2, EncodeNodes(c.nodes) + tail);
    CompressedSumsFit(p, 0);
    NodesRoundTrip(c.nodes, tail);
  }

  /** A proof survives its encoding unless a sibling poses as an empty subtree; trailing bytes are ignored. */
  lemma ProofRoundTrip(p: Proof, tail: bytes)
    requires SumsFit(p) && NoForgedEmpty(p)
    ensures DecodeProof(EncodeProof(p) + tail) == Some(p)
  {
    hide CompressFrom, Decompress, UnpackBits, PackBits, ReadNodes, EncodeNodes, DecodeProof;
    var c := CompressFrom(p, 0);
    var bits := PackBits(c.bits);
    assert EncodeProof(p) + tail == BigEndian(|c.nodes|, 2) + EncodeNodes(c.nodes) + (bits + tail);
    DecodeFront(p, bits + tail);
    assert Filled(bits + tail) == bits;
    BitsRoundTrip(c.bits);
    CompressionLossless(p);
  }

  // ----- Proofs cut short -----

  lemma {:induction false} CompressedBit(p: Proof, idx: nat, i: nat)
    requires idx <= i < DEPTH
    ensures CompressFrom(p, idx).bits[i - idx] <==> p[i].hash == EmptyNode(DEPTH - i).hash
    decreases i - idx
  {
    hide EmptyNode;
    if idx < i { CompressedBit(p, idx + 1, i); }
  }

  /** Clearing bits adds to the count of cleared ones, unless they were clear already. */
  lemma {:induction false} ClearingCounts(bits: seq<bool>, cleared: seq<bool>)
    requires |bits| == |cleared| && forall i :: 0 <= i < |bits| && cleared[i] ==> bits[i]
    ensures CountFalse(cleared) >= CountFalse(bits)
    ensures CountFalse(cleared) == CountFalse(bits) <==> cleared == bits
  {
    if bits != [] {
      ClearingCounts(bits[1..], cleared[1..]);
      assert bits == [bits[0]] + bits[1..] && cleared == [cleared[0]] + cleared[1..];
    }
  }

  lemma {:induction false} ZeroHasNoBits(j: nat)
    ensures !ShiftedBit(0, j)
  {
    if j > 0 { ZeroHasNoBits(j - 1); }
  }

  /** Without its last bytes a packed bit vector reads as if they were zero. */
  lemma CutBits(bits: seq<bool>, n: nat)
    requires |bits| == DEPTH && n < DEPTH / 8
    ensures UnpackBits(Filled(PackBits(bits)[..DEPTH / 8 - n]))
            == seq(DEPTH, i requires 0 <= i < DEPTH => i < DEPTH - 8 * n && bits[i])
  {
    hide ShiftedBit, PackBits;
    var cut := Filled(PackBits(bits)[..DEPTH / 8 - n]);
    forall i | 0 <= i < DEPTH ensures UnpackBits(cut)[i] == (i < DEPTH - 8 * n && bits[i]) {
      if i < DEPTH - 8 * n { PackBitsBit(bits, i); } else { ZeroHasNoBits(i % 8); }
    }
  }

  /** A proof that has lost fewer than 32 bytes is accepted, as itself, exactly if they stood for stored siblings. */
  lemma CutProofIff(p: Proof, n: nat)
    requires SumsFit(p) && NoForgedEmpty(p) && n < 32
    ensures var b := EncodeProof(p);
            DecodeProof(b[..|b| - n])
            == if forall i :: DEPTH - 8 * n <= i < DEPTH ==> p[i].hash != EmptyNode(DEPTH - i).hash
               then Some(p) else None
  {
    hide CompressFrom, UnpackBits, PackBits, EncodeNodes, DecodeProof, Filled, EmptyNode, CountFalse, ExpandFrom;
    var c := CompressFrom(p, 0);
    var kept := PackBits(c.bits)[..32 - n];
    var b := EncodeProof(p);
    assert b[..|b| - n] == BigEndian(|c.nodes|, 2) + EncodeNodes(c.nodes) + kept;
    DecodeFront(p, kept);
    CutBits(c.bits, n);
    var cleared := UnpackBits(Filled(kept));
    ClearingCounts(c.bits, cleared);
    CompressCounts(p, 0);
    CompressionLossless(p);
    forall i | 0 <= i < DEPTH ensures c.bits[i] <==> p[i].hash == EmptyNode(DEPTH - i).hash { CompressedBit(p, 0, i); }
    if cleared == c.bits {
      assert forall i :: DEPTH - 8 * n <= i < DEPTH ==> !c.bits[i];
    } else {
      var i :| 0 <= i < DEPTH && cleared[i] != c.bits[i];
    }
  }
}
