/** Assets, the keys that place them in commitments, and their nested TLV encoding. */
module Assets {
  import opened Bytes
  import opened Hashing
  import opened SumTree
  import opened TreeProof
  import opened Tlv
  import opened ProofCodec

  /** A public key in its compressed serialization; all zeroes stands for an absent key. */
  type PubKey = k: bytes | |k| == 33 witness Zeros(33)

  const NIL_KEY: PubKey := Zeros(33)

  /** What the zero-value public key, which the decoder makes of 33 zero bytes, serializes to. */
  const BLANK_KEY: PubKey := [2] + Zeros(32)

  /** Whether a serialization is a point on the curve. */
  const ParsesAsKey: PubKey -> bool

  const MAX_TAG: nat := 64
  const MAX_ITEMS: nat := 0xffff
  const MAX_ITEM_SIZE: nat := 0xffff

  datatype OutPoint = OutPoint(hash: Digest, index: u32)

  datatype Genesis = Genesis(firstPrevOut: OutPoint, tag: bytes, metaHash: Digest, outputIndex: u32, assetType: byte)

  datatype PrevId = PrevId(outPoint: OutPoint, id: Digest, scriptKey: PubKey)

  datatype SplitCommitment = SplitCommitment(proof: Proof, rootAsset: Asset)

  datatype Witness = Witness(prevId: Option<PrevId>, txWitness: seq<bytes>, split: Option<SplitCommitment>)

  datatype Asset = Asset(
    version: byte,
    genesis: Genesis,
    amount: u64,
    lockTime: u64,
    relativeLockTime: u64,
    prevWitnesses: seq<Witness>,
    splitRoot: Option<Node>,
    scriptVersion: u16,
    scriptKey: PubKey,
    groupKey: Option<PubKey>,
    unknownOddTypes: Fields)

  const EMPTY_GENESIS := Genesis(OutPoint(Zeros(32), 0), [], Zeros(32), 0, 0)

  // ----- Identifiers -----

  function Reversed(b: bytes): (r: bytes)
    ensures |r| == |b|
  {
    seq(|b|, i requires 0 <= i < |b| => b[|b| - 1 - i])
  }

  /** The Bitcoin serialization of an outpoint, whose index is little-endian. */
  function WireOutPoint(o: OutPoint): (r: bytes)
    ensures |r| == 36
  {
    o.hash + Reversed(BigEndian(o.index, 4))
  }

  function XOnly(k: PubKey): (r: bytes)
    ensures |r| == 32
  {
    k[1..]
  }

  function IdPreimage(g: Genesis): bytes {
    WireOutPoint(g.firstPrevOut) + Sha256(g.tag) + g.metaHash + BigEndian(g.outputIndex, 4) + [g.assetType]
  }

  function AssetId(g: Genesis): Digest {
    Sha256(IdPreimage(g))
  }

  function TapCommitmentKey(a: Asset): Digest {
    match a.groupKey
    case Some(k) => Sha256(XOnly(k))
    case None => AssetId(a.genesis)
  }

  function AssetCommitmentKey(a: Asset): Digest {
    match a.groupKey
    case Some(_) => Sha256(AssetId(a.genesis) + XOnly(a.scriptKey))
    case None => Sha256(XOnly(a.scriptKey))
  }

  // ----- Record types -----

  const LEAF_VERSION: nat := 0
  const LEAF_GENESIS: nat := 2
  const LEAF_TYPE: nat := 4
  const LEAF_AMOUNT: nat := 6
  const LEAF_LOCK_TIME: nat := 7
  const LEAF_RELATIVE_LOCK_TIME: nat := 9
  const LEAF_PREV_WITNESS: nat := 11
  const LEAF_SPLIT_COMMITMENT_ROOT: nat := 13
  const LEAF_SCRIPT_VERSION: nat := 14
  const LEAF_SCRIPT_KEY: nat := 16
  const LEAF_GROUP_KEY: nat := 17

  const KNOWN_LEAF_TYPES: set<nat> := {0, 2, 4, 6, 7, 9, 11, 13, 14, 16, 17}

  const ALT_LEAF_TYPES: set<nat> := {LEAF_PREV_WITNESS, LEAF_SCRIPT_VERSION, LEAF_SCRIPT_KEY}

  const WITNESS_PREV_ID: nat := 1
  const WITNESS_TX_WITNESS: nat := 3
  const WITNESS_SPLIT: nat := 5

  // ----- Encoding -----

  function EncodeOutPoint(o: OutPoint): (r: bytes)
    ensures |r| == 36
  {
    o.hash + BigEndian(o.index, 4)
  }

  function EncodeGenesis(g: Genesis): bytes {
    EncodeOutPoint(g.firstPrevOut) + Inline(g.tag) + g.metaHash + BigEndian(g.outputIndex, 4) + [g.assetType]
  }

  function EncodePrevId(p: PrevId): bytes {
    EncodeOutPoint(p.outPoint) + p.id + p.scriptKey
  }

  function EncodeItems(items: seq<bytes>): bytes {
    if items == [] then [] else Inline(items[0]) + EncodeItems(items[1..])
  }

  function EncodeTxWitness(items: seq<bytes>): bytes {
    BigSize(|items|) + EncodeItems(items)
  }

  function OptionalField(present: bool, typ: nat, value: bytes): Fields {
    if present then map[typ := value] else map[]
  }

  function EncodeSplit(s: SplitCommitment): Option<bytes>
    decreases s, 3
  {
    var root :- EncodeAsset(s.rootAsset, false);
    Some(Inline(EncodeProof(s.proof)) + Inline(root))
  }

  /** With `segwit`, the transaction witness is left out. */
  function EncodeWitness(w: Witness, segwit: bool): Option<bytes>
    decreases w, 3
  {
    var split :- if w.split.Some? then EncodeSplit(w.split.value) else Some([]);
    Some(EncodeFields(
      OptionalField(w.prevId.Some?, WITNESS_PREV_ID, if w.prevId.Some? then EncodePrevId(w.prevId.value) else [])
      + OptionalField(w.txWitness != [] && !segwit, WITNESS_TX_WITNESS, EncodeTxWitness(w.txWitness))
      + OptionalField(w.split.Some?, WITNESS_SPLIT, split)))
  }

  function EncodeWitnessList(ws: seq<Witness>, segwit: bool): Option<bytes>
    decreases ws, 3
  {
    if ws == [] then Some([]) else
    var w :- EncodeWitness(ws[0], segwit);
    var rest :- EncodeWitnessList(ws[1..], segwit);
    Some(Inline(w) + rest)
  }

  /** The value of each record, given the encoded witnesses; None where the record is left out. */
  function AssetField(a: Asset, witnesses: bytes, typ: nat): Option<bytes> {
    if typ == LEAF_VERSION then Some([a.version])
    else if typ == LEAF_GENESIS then Some(EncodeGenesis(a.genesis))
    else if typ == LEAF_TYPE then Some([a.genesis.assetType])
    else if typ == LEAF_AMOUNT then Some(BigSize(a.amount))
    else if typ == LEAF_LOCK_TIME && a.lockTime > 0 then Some(BigSize(a.lockTime))
    else if typ == LEAF_RELATIVE_LOCK_TIME && a.relativeLockTime > 0 then Some(BigSize(a.relativeLockTime))
    else if typ == LEAF_PREV_WITNESS && a.prevWitnesses != [] then Some(BigSize(|a.prevWitnesses|) + witnesses)
    else if typ == LEAF_SPLIT_COMMITMENT_ROOT && a.splitRoot.Some? then Some(EncodeNode(a.splitRoot.value))
    else if typ == LEAF_SCRIPT_VERSION then Some(BigEndian(a.scriptVersion, 2))
    else if typ == LEAF_SCRIPT_KEY then Some(a.scriptKey)
    else if typ == LEAF_GROUP_KEY && a.groupKey.Some? then Some(a.groupKey.value)
    else None
  }

  function AssetFields(a: Asset, witnesses: bytes, types: set<nat>): Fields {
    map t | t in types && AssetField(a, witnesses, t).Some? :: AssetField(a, witnesses, t).value
  }

  /** Encodes the records of the given types and the preserved unknown ones. */
  function EncodeTypes(a: Asset, segwit: bool, types: set<nat>): Option<bytes>
    decreases a, 1
  {
    var witnesses :- EncodeWitnessList(a.prevWitnesses, segwit);
    if a.scriptKey == NIL_KEY || !(a.unknownOddTypes.Keys !! types) then None
    else Some(EncodeFields(AssetFields(a, witnesses, types) + a.unknownOddTypes))
  }

  /** Fails for an absent script key, and for unknown records that clash with known ones. */
  function EncodeAsset(a: Asset, segwit: bool): Option<bytes>
    decreases a, 2
  {
    EncodeTypes(a, segwit, KNOWN_LEAF_TYPES)
  }

  /** An alternative leaf leaves out the fields that are fixed for it. */
  function EncodeAltLeaf(a: Asset): Option<bytes> {
    EncodeTypes(a, false, ALT_LEAF_TYPES)
  }

  // ----- Decoding -----

  function DecodeU8(m: Fields, typ: nat): Option<byte> {
    if typ !in m then Some(0) else if |m[typ]| == 1 then Some(m[typ][0]) else None
  }

  function DecodeVarInt(m: Fields, typ: nat): Option<u64> {
    if typ !in m then Some(0) else
    var (n, rest) :- ReadBigSize(m[typ]);
    if rest == [] && n < U64_LIMIT then Some(n) else None
  }

  function DecodeU16(m: Fields, typ: nat): Option<u16> {
    if typ !in m then Some(0) else
    var (n, rest) :- ReadFixed(m[typ], 2);
    if rest == [] && n < U16_LIMIT then Some(n) else None
  }

  function ReadOutPoint(b: bytes): Option<(OutPoint, bytes)> {
    if |b| < 36 then None else
    var n := FromBigEndian(b[32..36]);
    if n >= U32_LIMIT then None else Some((OutPoint(b[..32], n), b[36..]))
  }

  function DecodeGenesis(b: bytes): Option<Genesis> {
    var (prevOut, b1) :- ReadOutPoint(b);
    var (tag, b2) :- ReadInline(b1, MAX_TAG);
    if |b2| != 37 then None else
    var n := FromBigEndian(b2[32..36]);
    if n >= U32_LIMIT then None else Some(Genesis(prevOut, tag, b2[..32], n, b2[36]))
  }

  function DecodeKey(k: bytes): Option<PubKey> {
    if |k| != 33 then None
    else if k == NIL_KEY then Some(BLANK_KEY)
    else if ParsesAsKey(k) then Some(k)
    else None
  }

  function DecodePrevId(b: bytes): Option<PrevId> {
    var (op, rest) :- ReadOutPoint(b);
    if |rest| != 65 then None
    else if rest[32..] == NIL_KEY || ParsesAsKey(rest[32..]) then Some(PrevId(op, rest[..32], rest[32..]))
    else None
  }

  function ReadItems(b: bytes, n: nat): Option<(seq<bytes>, bytes)>
    decreases n
  {
    if n == 0 then Some(([], b)) else
    var (item, after) :- ReadInline(b, MAX_ITEM_SIZE);
    var (items, rest) :- ReadItems(after, n - 1);
    Some(([item] + items, rest))
  }

  function DecodeTxWitness(b: bytes): Option<seq<bytes>> {
    var (n, b1) :- ReadBigSize(b);
    if n > MAX_ITEMS then None else
    var (items, rest) :- ReadItems(b1, n);
    if rest == [] then Some(items) else None
  }

  function DecodeSplit(b: bytes): Option<SplitCommitment>
    decreases |b|, 0
  {
    if |b| > MAX_ITEM_SIZE then None else
    var (proofBytes, b1) :- ReadInline(b, |b|);
    var (rootBytes, rest) :- ReadInline(b1, |b|);
    var proof :- DecodeProof(proofBytes);
    var root :- DecodeAsset(rootBytes);
    if rest == [] then Some(SplitCommitment(proof, root)) else None
  }

  function DecodeWitness(b: bytes): Option<Witness>
    decreases |b|, 0
  {
    var m :- ParseFields(b);
    var prevId :- if WITNESS_PREV_ID in m then var p :- DecodePrevId(m[WITNESS_PREV_ID]); Some(Some(p)) else Some(None);
    var tx :- if WITNESS_TX_WITNESS in m then DecodeTxWitness(m[WITNESS_TX_WITNESS]) else Some([]);
    var split :- if WITNESS_SPLIT in m then var s :- DecodeSplit(m[WITNESS_SPLIT]); Some(Some(s)) else Some(None);
    Some(Witness(prevId, tx, split))
  }

  function ReadWitnesses(b: bytes, n: nat): Option<(seq<Witness>, bytes)>
    decreases |b|, 0
  {
    if n == 0 then Some(([], b)) else
    var (wb, after) :- ReadInline(b, MAX_ITEM_SIZE);
    var w :- DecodeWitness(wb);
    var (ws, rest) :- ReadWitnesses(after, n - 1);
    Some(([w] + ws, rest))
  }

  function DecodeWitnessList(b: bytes): Option<seq<Witness>>
    decreases |b|, 0
  {
    var (n, b1) :- ReadBigSize(b);
    if n > MAX_ITEMS then None else
    var (ws, rest) :- ReadWitnesses(b1, n);
    if rest == [] then Some(ws) else None
  }

  function DecodeNode(b: bytes): Option<Node> {
    var (n, rest) :- ReadNode(b);
    if rest == [] then Some(n) else None
  }

  function UnknownTypes(m: Fields): Fields {
    map t | t in m && t !in KNOWN_LEAF_TYPES :: m[t]
  }

  /** An unknown even type is an error; unknown odd types are kept. */
  function DecodeAssetFields(m: Fields, bound: nat): Option<Asset>
    requires forall t :: t in m ==> |m[t]| < bound
    decreases bound, 0
  {
    if exists t :: t in m && t !in KNOWN_LEAF_TYPES && t % 2 == 0 then None else
    var version :- DecodeU8(m, LEAF_VERSION);
    var genesis :- if LEAF_GENESIS in m then DecodeGenesis(m[LEAF_GENESIS]) else Some(EMPTY_GENESIS);
    var assetType :- if LEAF_TYPE in m then DecodeU8(m, LEAF_TYPE) else Some(genesis.assetType);
    var amount :- DecodeVarInt(m, LEAF_AMOUNT);
    var lockTime :- DecodeVarInt(m, LEAF_LOCK_TIME);
    var relativeLockTime :- DecodeVarInt(m, LEAF_RELATIVE_LOCK_TIME);
    var ws :- if LEAF_PREV_WITNESS in m then DecodeWitnessList(m[LEAF_PREV_WITNESS]) else Some([]);
    var splitRoot :- if LEAF_SPLIT_COMMITMENT_ROOT in m
                     then var n :- DecodeNode(m[LEAF_SPLIT_COMMITMENT_ROOT]); Some(Some(n)) else Some(None);
    var scriptVersion :- DecodeU16(m, LEAF_SCRIPT_VERSION);
    var scriptKey :- if LEAF_SCRIPT_KEY in m then DecodeKey(m[LEAF_SCRIPT_KEY]) else Some(NIL_KEY);
    var groupKey :- if LEAF_GROUP_KEY in m then var k :- DecodeKey(m[LEAF_GROUP_KEY]); Some(Some(k)) else Some(None);
    Some(Asset(version, genesis.(assetType := assetType), amount, lockTime, relativeLockTime, ws, splitRoot,
               scriptVersion, scriptKey, groupKey, UnknownTypes(m)))
  }

  function DecodeAsset(b: bytes): Option<Asset>
    decreases |b|, 1
  {
    var m :- ParseFields(b);
    DecodeAssetFields(m, |b|)
  }

  // ----- Leaves -----

  /** An asset as a tree leaf: version 1 leaves out the transaction witnesses. */
  function Leaf(a: Asset): Option<LeafNode> {
    if a.version > 1 then None else
    var b :- EncodeAsset(a, a.version == 1);
    Some(LeafNode(b, a.amount))
  }

  lemma EncodedNotEmpty(a: Asset, segwit: bool)
    requires EncodeAsset(a, segwit).Some?
    ensures EncodeAsset(a, segwit).value != []
  {
    hide EncodeFields, AssetField, EncodeWitnessList;
    var witnesses := EncodeWitnessList(a.prevWitnesses, segwit).value;
    VersionIsEncoded(a, witnesses);
    var m := AssetFields(a, witnesses, KNOWN_LEAF_TYPES) + a.unknownOddTypes;
    assert LEAF_VERSION in m;
    FieldsNotEmpty(m);
  }

  lemma LeafNotEmpty(a: Asset)
    requires Leaf(a).Some?
    ensures Leaf(a).value.value != [] && Leaf(a).value != EMPTY_LEAF && Leaf(a).value.sum == a.amount
  {
    hide EncodeAsset;
    EncodedNotEmpty(a, a.version == 1);
  }

  lemma VersionIsEncoded(a: Asset, witnesses: bytes)
    ensures AssetField(a, witnesses, LEAF_VERSION).Some?
  {
  }
}
