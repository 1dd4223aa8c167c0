/** Where every byte of the hashed and encoded strings stands, in the numbers the formats give. */
module Layouts {
  import opened Bytes
  import opened Hashing
  import opened SumTree
  import opened TreeProof
  import opened Tlv
  import opened ProofCodec
  import opened Assets
  import opened AssetCodec
  import AssetKeys
  import Commitment
  import CommitmentProof
  import Tapscript
  import GroupKey
  import Split
  import BackupState
  import AltLeaves
  import AltLeafCodec

  // ----- Integers and bits -----

  /** Four bytes, the most significant first. */
  lemma FourBytes(n: nat)
    ensures BigEndian(n, 4) == [n / 0x100_0000 % 256, n / 0x1_0000 % 256, n / 0x100 % 256, n % 256]
  {
    assert BigEndian(n / 0x100_0000, 1) == [n / 0x100_0000 % 256] by { assert BigEndian(n / 0x1_0000_0000, 0) == []; }
    assert n / 256 / 256 / 256 == n / 0x100_0000 && n / 256 / 256 == n / 0x1_0000;
    assert BigEndian(n / 0x1_0000, 2) == BigEndian(n / 0x100_0000, 1) + [n / 0x1_0000 % 256];
    assert BigEndian(n / 0x100, 3) == BigEndian(n / 0x1_0000, 2) + [n / 0x100 % 256];
  }

  /** The values of the bits of a byte. */
  function Weight(j: nat): nat
    requires j < 8
  {
    [1, 2, 4, 8, 16, 32, 64, 128][j]
  }

  lemma {:induction false} ShiftedBitIs(x: nat, j: nat)
    requires j < 8
    ensures ShiftedBit(x, j) <==> x / Weight(j) % 2 == 1
  {
    if j > 0 {
      ShiftedBitIs(x / 2, j - 1);
      HalfWeight(x, j);
    }
  }

  lemma HalfWeight(x: nat, j: nat)
    requires 0 < j < 8
    ensures x / 2 / Weight(j - 1) == x / Weight(j)
  {
    assert x / 2 / 2 == x / 4 && x / 2 / 4 == x / 8 && x / 2 / 8 == x / 16 && x / 2 / 16 == x / 32;
    assert x / 2 / 32 == x / 64 && x / 2 / 64 == x / 128;
  }

  /** A key turns right at height `i` where bit `i` is set, the lowest bit of its first byte being bit 0. */
  lemma PathOfKey(key: Digest, i: nat, node: Node, sibling: Node)
    requires i < DEPTH
    ensures Step(key, i, node, sibling)
            == if key[i / 8] / Weight(i % 8) % 2 == 1 then Branch(sibling, node) else Branch(node, sibling)
  {
    ShiftedBitIs(key[i / 8], i % 8);
  }

  // ----- Trees and commitments -----

  /** A leaf hashes its value and then its sum; a branch its left hash, its right hash and its sum. */
  lemma TreeHashes(leaf: LeafNode, l: Node, r: Node)
    ensures exists b: bytes :: LeafAsNode(leaf).hash == Sha256(b) && |b| == |leaf.value| + 8
                               && b[..|leaf.value|] == leaf.value && b[|leaf.value|..] == BigEndian(leaf.sum, 8)
    ensures exists b: bytes :: Branch(l, r).hash == Sha256(b) && |b| == 72
                               && b[..32] == l.hash && b[32..64] == r.hash && b[64..] == BigEndian(l.sum + r.sum, 8)
  {
    hide BigEndian;
    var b, c := LeafPreimage(leaf), BranchPreimage(l, r);
    assert b[..|leaf.value|] == leaf.value && b[|leaf.value|..] == BigEndian(leaf.sum, 8);
    assert c[..32] == l.hash && c[32..64] == r.hash && c[64..] == BigEndian(l.sum + r.sum, 8);
  }

  /** The outer leaf: version, then the hash of tap key, both child hashes and sum, then the sum again. */
  lemma OuterLeafLayout(version: byte, tapKey: Digest, root: Root)
    requires root.Sum() < U64_LIMIT
    ensures var v := Commitment.CommitmentLeaf(version, tapKey, root).value;
            |v| == 41 && v[0] == version && v[33..] == BigEndian(root.Sum(), 8)
    ensures var v := Commitment.CommitmentLeaf(version, tapKey, root).value;
            exists b: bytes :: v[1..33] == Sha256(b) && |b| == 104 && b[..32] == tapKey && b[32..64] == root.left.hash
                               && b[64..96] == root.right.hash && b[96..] == BigEndian(root.Sum(), 8)
  {
    hide BigEndian;
    var v := Commitment.CommitmentLeaf(version, tapKey, root).value;
    var b := Commitment.CommitmentRootPreimage(tapKey, root);
    assert v[1..33] == Sha256(b);
    assert b[..32] == tapKey && b[32..64] == root.left.hash && b[64..96] == root.right.hash;
  }

  function Ascii(s: string): (r: bytes)
    requires forall i :: 0 <= i < |s| ==> s[i] < 128 as char
  {
    seq(|s|, i requires 0 <= i < |s| => s[i] as int)
  }

  /** The strings whose hashes mark commitments and tag tapscript hashes. */
  lemma Tags()
    ensures CommitmentProof.MARKER_TAG == Ascii("taproot-assets")
    ensures CommitmentProof.MARKER_TAG_V2 == Ascii("taproot-assets:194243")
    ensures Tapscript.TAG_TAP_LEAF == Ascii("TapLeaf") && Tapscript.TAG_TAP_BRANCH == Ascii("TapBranch")
  {
  }

  /** Versions 0 and 1 come before the marker, version 2 after its own; then root hash and sum. */
  lemma CommitmentScriptLayout(c: CommitmentProof.TapRoot)
    requires c.version <= 2
    ensures var s := CommitmentProof.TapLeafScript(c);
            && |s| == 73 && s[33..65] == c.root.AsNode().hash && s[65..] == BigEndian(c.root.Sum(), 8)
            && (c.version < 2 ==> s[0] == c.version && s[1..33] == Sha256(CommitmentProof.MARKER_TAG))
            && (c.version == 2 ==> s[..32] == Sha256(CommitmentProof.MARKER_TAG_V2) && s[32] == 2)
  {
    hide BigEndian, Branch;
  }

  /** Whatever is recognised as a commitment carries one of the two markers. */
  lemma RecognisedCarriesMarker(script: bytes)
    requires CommitmentProof.IsCommitmentScript(script)
    ensures |script| == 73
    ensures if script[0] <= 1 then script[1..33] == Sha256(CommitmentProof.MARKER_TAG)
            else script[..32] == Sha256(CommitmentProof.MARKER_TAG_V2)
  {
  }

  /** A tapscript leaf: the tag twice, version 0xc0, the script with its length. A branch: the smaller hash first. */
  lemma TapscriptLayout(script: bytes, l: Digest, r: Digest)
    requires |script| < 0xfd
    ensures var b := Tapscript.TapLeafPreimage(script);
            && Tapscript.TapLeafHash(script) == Sha256(b) && |b| == 66 + |script|
            && b[..32] == b[32..64] == Sha256(Tapscript.TAG_TAP_LEAF) && b[64] == 0xc0 && b[65] == |script|
            && b[66..] == script
    ensures var b := Tapscript.TapBranchPreimage(l, r);
            && Tapscript.TapBranchHash(l, r) == Sha256(b) && |b| == 128
            && b[..32] == b[32..64] == Sha256(Tapscript.TAG_TAP_BRANCH)
            && (if Tapscript.LexLess(r, l) then b[64..96] == r && b[96..] == l else b[64..96] == l && b[96..] == r)
  {
    hide Tapscript.LexLess;
  }

  /** The order in which hashes are sorted: by the first byte in which they differ. */
  lemma {:induction false} FirstDifferenceDecides(a: bytes, b: bytes, i: nat)
    requires i < |a| && i < |b| && a[..i] == b[..i] && a[i] != b[i]
    ensures Tapscript.LexLess(a, b) <==> a[i] < b[i]
  {
    if i > 0 {
      assert a[0] == a[..i][0] && b[0] == b[..i][0];
      assert a[1..][..i - 1] == a[..i][1..] && b[1..][..i - 1] == b[..i][1..];
      FirstDifferenceDecides(a[1..], b[1..], i - 1);
    }
  }

  // ----- Identifiers -----

  /** An asset ID hashes outpoint (its index little-endian), tag hash, metadata hash, output index and type. */
  lemma AssetIdLayout(g: Genesis)
    ensures var b, i := IdPreimage(g), g.firstPrevOut.index;
            && AssetId(g) == Sha256(b) && |b| == 105 && b[..32] == g.firstPrevOut.hash
            && b[32..36] == [i % 256, i / 0x100 % 256, i / 0x1_0000 % 256, i / 0x100_0000 % 256]
            && b[36..68] == Sha256(g.tag) && b[68..100] == g.metaHash
            && b[100..104] == BigEndian(g.outputIndex, 4) && b[104] == g.assetType
  {
    hide BigEndian, Reversed;
    LittleEndian(g.firstPrevOut.index);
    var b := IdPreimage(g);
    assert b[32..36] == Reversed(BigEndian(g.firstPrevOut.index, 4));
  }

  lemma LittleEndian(i: nat)
    ensures Reversed(BigEndian(i, 4)) == [i % 256, i / 0x100 % 256, i / 0x1_0000 % 256, i / 0x100_0000 % 256]
  {
    FourBytes(i);
    hide BigEndian;
    var r := Reversed(BigEndian(i, 4));
    assert |r| == 4 && r[0] == i % 256 && r[1] == i / 0x100 % 256;
    assert r[2] == i / 0x1_0000 % 256 && r[3] == i / 0x100_0000 % 256;
  }

  /** Within a group an asset is placed by its ID and script key, without a group by its script key alone. */
  lemma PlaceLayout(a: Asset)
    ensures TapCommitmentKey(a) == if a.groupKey.Some? then Sha256(a.groupKey.value[1..]) else AssetId(a.genesis)
    ensures exists b: bytes :: AssetCommitmentKey(a) == Sha256(b)
              && if a.groupKey.Some? then |b| == 64 && b[..32] == AssetId(a.genesis) && b[32..] == a.scriptKey[1..]
                 else b == a.scriptKey[1..]
  {
    hide AssetId;
    var b := AssetKeys.AssetKeyPreimage(a);
    assert a.groupKey.Some? ==> b[..32] == AssetId(a.genesis) && b[32..] == a.scriptKey[1..];
    assert AssetCommitmentKey(a) == Sha256(b);
  }

  lemma LocatorLayout(l: Split.Locator)
    ensures var b := Split.LocatorPreimage(l);
            && Split.LocatorHash(l) == Sha256(b) && |b| == 68
            && b[..4] == BigEndian(l.outputIndex, 4) && b[4..36] == l.assetId && b[36..] == l.scriptKey[1..]
  {
    hide BigEndian;
  }

  lemma EntryKeyLayout(k: BackupState.EntryKey)
    ensures var b := BackupState.KeyBytes(k);
            && |b| == 101 && b[..32] == k.assetId && b[32..65] == k.scriptKey
            && b[65..97] == k.outPoint.hash && b[97..] == BigEndian(k.outPoint.index, 4)
  {
    hide BigEndian;
  }

  // ----- Group keys -----

  /** Version 1: OP_RETURN and the ID. Version 2: the key nobody can sign for, and OP_CHECKSIG. No other version. */
  lemma NonSpendLayout(version: byte, id: Digest)
    ensures GroupKey.NonSpendScript(version, Some(id)).Some? <==> version == 1 || version == 2
    ensures version == 1 ==>
              var s := GroupKey.NonSpendScript(1, Some(id)).value;
              s[0] == 0x6a && s[1] == 32 && s[2..] == id && GroupKey.NonSpendScript(1, None) == Some([0x6a])
    ensures version == 2 ==>
              var s := GroupKey.NonSpendScript(2, Some(id)).value;
              && s[0] == 32 && s[1..33] == GroupKey.UnsignableKey(id) && s[33..] == [0xac]
              && GroupKey.NonSpendScript(2, None) == GroupKey.NonSpendScript(2, Some(Zeros(32)))
  {
  }

  /** The records of a reveal. */
  lemma RevealRecords(g: GroupKey.RevealV1)
    ensures ParseFields(GroupKey.EncodeReveal(GroupKey.V1(g))).Some?
    ensures var m := ParseFields(GroupKey.EncodeReveal(GroupKey.V1(g))).value;
            && m.Keys == {0, 2, 4} + (if g.customRoot.Some? then {7} else {})
            && m[0] == [g.version] && m[2] == g.internalKey && m[4] == g.root
            && (g.customRoot.Some? ==> m[7] == g.customRoot.value)
  {
    hide EncodeFields, ParseFields;
    FieldsRoundTrip(GroupKey.RevealFields(g));
  }

  // ----- Assets -----

  lemma OutPointLayout(o: OutPoint, p: PrevId)
    ensures var b := EncodeOutPoint(o); b[..32] == o.hash && b[32..] == BigEndian(o.index, 4)
    ensures var b := EncodePrevId(p);
            && |b| == 101 && b[..32] == p.outPoint.hash && b[32..36] == BigEndian(p.outPoint.index, 4)
            && b[36..68] == p.id && b[68..] == p.scriptKey
  {
    hide BigEndian;
  }

  lemma GenesisLayout(g: Genesis)
    requires |g.tag| <= 64
    ensures var b, n := EncodeGenesis(g), |g.tag|;
            && |b| == 74 + n && b[..36] == EncodeOutPoint(g.firstPrevOut) && b[36] == n && b[37..37 + n] == g.tag
            && b[37 + n..69 + n] == g.metaHash && b[69 + n..73 + n] == BigEndian(g.outputIndex, 4)
            && b[73 + n] == g.assetType
  {
    hide BigEndian;
  }

  /** Record by record what an asset is encoded to; a record that is left out has its default value. */
  ghost predicate RecordsOf(m: Fields, a: Asset) {
    && {0, 2, 4, 6, 14, 16} <= m.Keys && m[0] == [a.version] && m[2] == EncodeGenesis(a.genesis)
    && m[4] == [a.genesis.assetType] && m[6] == BigSize(a.amount)
    && m[14] == BigEndian(a.scriptVersion, 2) && m[16] == a.scriptKey
    && (if a.lockTime > 0 then 7 in m && m[7] == BigSize(a.lockTime) else 7 !in m)
    && (if a.relativeLockTime > 0 then 9 in m && m[9] == BigSize(a.relativeLockTime) else 9 !in m)
    && (11 in m <==> a.prevWitnesses != [])
    && (if a.splitRoot.Some? then 13 in m && m[13] == EncodeNode(a.splitRoot.value) else 13 !in m)
    && (if a.groupKey.Some? then 17 in m && m[17] == a.groupKey.value else 17 !in m)
    && forall t :: t in a.unknownOddTypes ==> t in m && m[t] == a.unknownOddTypes[t]
  }

  lemma FieldsAreRecords(a: Asset, witnesses: bytes)
    requires UnknownOdd(a.unknownOddTypes)
    ensures RecordsOf(AssetFields(a, witnesses, KNOWN_LEAF_TYPES) + a.unknownOddTypes, a)
  {
    hide BigSize, BigEndian, EncodeGenesis, EncodeNode;
    var m := AssetFields(a, witnesses, KNOWN_LEAF_TYPES) + a.unknownOddTypes;
    assert {0, 2, 4, 6, 14, 16} <= m.Keys;
  }

  lemma AssetRecords(a: Asset, segwit: bool)
    requires DecodableAsset(a, segwit)
    ensures EncodeAsset(a, segwit).Some? && ParseFields(EncodeAsset(a, segwit).value).Some?
    ensures RecordsOf(ParseFields(EncodeAsset(a, segwit).value).value, a)
  {
    hide EncodeWitnessList, EncodeFields, ParseFields, DecodableWitness, AssetFields, DecodeAsset, RecordsOf;
    AssetRoundTrip(a, segwit, KNOWN_LEAF_TYPES);
    var witnesses := EncodeWitnessList(a.prevWitnesses, segwit).value;
    EncodedFieldsParse(a, segwit, witnesses, KNOWN_LEAF_TYPES);
    FieldsAreRecords(a, witnesses);
  }

  lemma EncodedFieldsParse(a: Asset, segwit: bool, witnesses: bytes, types: set<nat>)
    requires DecodableAsset(a, segwit) && EncodeWitnessList(a.prevWitnesses, segwit) == Some(witnesses)
    ensures var m := AssetFields(a, witnesses, types) + a.unknownOddTypes;
            ParseFields(EncodeFields(m)) == Some(m)
  {
    hide EncodeWitnessList, EncodeFields, ParseFields, DecodableWitness, AssetFields, UnknownOdd, ReadWitnesses;
    WitnessListRoundTrip(a.prevWitnesses, segwit, []);
    FieldsParse(a, witnesses, types);
  }

  lemma FieldsParse(a: Asset, witnesses: bytes, types: set<nat>)
    requires |a.genesis.tag| <= MAX_TAG && |a.prevWitnesses| <= MAX_ITEMS && UnknownOdd(a.unknownOddTypes)
    requires |witnesses| <= WITNESS_STEP * MAX_ITEMS
    ensures var m := AssetFields(a, witnesses, types) + a.unknownOddTypes;
            ParseFields(EncodeFields(m)) == Some(m)
  {
    hide EncodeFields, ParseFields, AssetField;
    var m := AssetFields(a, witnesses, types) + a.unknownOddTypes;
    forall t | t in m ensures t < U64_LIMIT && |m[t]| < U64_LIMIT {
      if t !in a.unknownOddTypes {
        AssetFieldSize(a, witnesses, t);
        KnownTypesAreSmall(a, witnesses, t);
      }
    }
    FieldsRoundTrip(m);
  }

  lemma KnownTypesAreSmall(a: Asset, witnesses: bytes, t: nat)
    requires AssetField(a, witnesses, t).Some?
    ensures t <= 17
  {
  }

  /** An alternative leaf has records for witnesses, script version and script key only. */
  lemma AltLeafRecords(a: Asset)
    requires AltLeafCodec.DecodableLeaf(a)
    ensures EncodeAltLeaf(a).Some? && ParseFields(EncodeAltLeaf(a).value).Some?
    ensures var m := ParseFields(EncodeAltLeaf(a).value).value;
            && m.Keys == {14, 16} + (if a.prevWitnesses != [] then {11} else {}) + a.unknownOddTypes.Keys
            && m[14] == BigEndian(a.scriptVersion, 2) && m[16] == a.scriptKey
  {
    hide EncodeWitnessList, EncodeFields, ParseFields, DecodableWitness, BigSize, BigEndian, EncodeGenesis, DecodeAsset;
    AssetRoundTrip(a, false, ALT_LEAF_TYPES);
    var witnesses := EncodeWitnessList(a.prevWitnesses, false).value;
    var m := AssetFields(a, witnesses, ALT_LEAF_TYPES) + a.unknownOddTypes;
    EncodedFieldsParse(a, false, witnesses, ALT_LEAF_TYPES);
    assert ParseFields(EncodeAltLeaf(a).value) == Some(m);
  }

  /** The records of a witness; the segwit form has no transaction witness. */
  ghost predicate RecordsOfWitness(m: Fields, w: Witness, segwit: bool) {
    && (if w.prevId.Some? then 1 in m && m[1] == EncodePrevId(w.prevId.value) else 1 !in m)
    && (if w.txWitness != [] && !segwit then 3 in m && m[3] == EncodeTxWitness(w.txWitness) else 3 !in m)
    && (if w.split.Some? then 5 in m && Some(m[5]) == EncodeSplit(w.split.value) else 5 !in m)
    && m.Keys <= {1, 3, 5}
  }

  lemma FieldsAreWitnessRecords(w: Witness, segwit: bool, split: bytes)
    requires w.split.Some? ==> EncodeSplit(w.split.value) == Some(split)
    ensures RecordsOfWitness(WitnessFields(w, segwit, split), w, segwit)
  {
    hide EncodePrevId, EncodeTxWitness, EncodeSplit;
  }

  lemma WitnessRecords(w: Witness, segwit: bool)
    requires DecodableWitness(w, segwit)
    ensures EncodeWitness(w, segwit).Some? && ParseFields(EncodeWitness(w, segwit).value).Some?
    ensures RecordsOfWitness(ParseFields(EncodeWitness(w, segwit).value).value, w, segwit)
  {
    hide EncodeFields, ParseFields, EncodePrevId, EncodeTxWitness, EncodeSplit, DecodeSplit, DecodableAsset,
         NoForgedEmpty, SumsFit, RecordsOfWitness;
    if w.split.Some? { SplitRoundTrip(w.split.value); }
    var split := if w.split.Some? then EncodeSplit(w.split.value).value else [];
    WitnessFieldsRoundTrip(w, segwit, split);
    FieldsAreWitnessRecords(w, segwit, split);
    assert EncodeWitness(w, segwit) == Some(EncodeFields(WitnessFields(w, segwit, split)));
  }

  /** An alternative leaf is valid exactly when it has a key and what its encoding leaves out is zero or absent. */
  lemma ValidAltLeafIff(a: Asset)
    ensures AltLeaves.ValidAltLeaf(a) <==>
              && a.scriptKey != Zeros(33) && a.version == 0 && a.amount == 0 && a.lockTime == 0
              && a.relativeLockTime == 0 && a.splitRoot == None && a.groupKey == None
              && a.genesis.firstPrevOut == OutPoint(Zeros(32), 0) && a.genesis.tag == []
              && a.genesis.metaHash == Zeros(32) && a.genesis.outputIndex == 0 && a.genesis.assetType == 0
    ensures AltLeaves.ValidAltLeaf(a) <==> OmittedAreDefault(a, ALT_LEAF_TYPES) && a.scriptKey != Zeros(33)
  {
  }

  /** A list of alternative leaves has at most 65535 bytes, and at least 40 for each leaf. */
  lemma AltLeavesWithinLimits(b: bytes)
    requires AltLeafCodec.Decoded(b).Some?
    ensures 40 * |AltLeafCodec.Decoded(b).value| <= |b| <= 65535
  {
    hide ReadBigSize, AltLeafCodec.ReadLeaves;
    var (n, rest) := ReadBigSize(b).value;
    LeavesCounted(rest, n);
  }

  lemma {:induction false} LeavesCounted(b: bytes, n: nat)
    requires AltLeafCodec.ReadLeaves(b, n).Some?
    ensures |AltLeafCodec.ReadLeaves(b, n).value.0| == n
  {
    hide DecodeAsset, ReadInline;
    if n > 0 { LeavesCounted(b, n - 1); }
  }

  /** A compressed proof: the number of stored nodes, the nodes, and a bit for every level. */
  lemma ProofLayout(p: Proof)
    ensures var b, c := EncodeProof(p), CompressFrom(p, 0);
            && |b| == 2 + 40 * |c.nodes| + 32 && b[..2] == BigEndian(|c.nodes|, 2)
            && b[2..2 + 40 * |c.nodes|] == EncodeNodes(c.nodes) && b[2 + 40 * |c.nodes|..] == PackBits(c.bits)
            && forall i :: 0 <= i < DEPTH ==> (c.bits[i] <==> p[i].hash == EmptyNode(DEPTH - i).hash)
  {
    hide BigEndian, EncodeNodes, PackBits, EmptyNode, CompressFrom;
    forall i | 0 <= i < DEPTH ensures CompressFrom(p, 0).bits[i] <==> p[i].hash == EmptyNode(DEPTH - i).hash {
      CompressedBit(p, 0, i);
    }
  }
}
