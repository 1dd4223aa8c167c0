/**
 * What exactly the decoders accept. Streams and single values have one encoding each: whatever is parsed encodes to
 * the very bytes it was parsed from. Assets and witnesses are read record by record.
 */
module Canonical {
  import opened Bytes
  import opened Tlv
  import opened Records
  import opened SumTree
  import opened ProofCodec
  import opened Assets
  import opened AssetCodec

  lemma {:induction false} DigitsAreBytes(b: bytes)
    ensures FromBigEndian(b) < Pow256(|b|) && BigEndian(FromBigEndian(b), |b|) == b
  {
    if b != [] {
      var front, last := b[..|b| - 1], b[|b| - 1];
      DigitsAreBytes(front);
      var n := FromBigEndian(b);
      assert n / 256 == FromBigEndian(front) && n % 256 == last;
      assert b == front + [last];
    }
  }

  lemma FixedIsCanonical(b: bytes, width: nat)
    requires ReadFixed(b, width).Some?
    ensures var (n, rest) := ReadFixed(b, width).value;
            n < Pow256(width) && BigEndian(n, width) + rest == b
  {
    DigitsAreBytes(b[..width]);
    assert b == b[..width] + b[width..];
  }

  lemma BigSizeIsCanonical(b: bytes)
    requires ReadBigSize(b).Some?
    ensures var (n, rest) := ReadBigSize(b).value;
            n < U64_LIMIT && BigSize(n) + rest == b
  {
    hide BigEndian, FromBigEndian, ReadFixed;
    Pow256Values();
    assert b == [b[0]] + b[1..];
    if b[0] >= 0xfd {
      var width := if b[0] == 0xfd then 2 else if b[0] == 0xfe then 4 else 8;
      FixedIsCanonical(b[1..], width);
      var (n, rest) := ReadFixed(b[1..], width).value;
      assert [b[0]] + (BigEndian(n, width) + rest) == ([b[0]] + BigEndian(n, width)) + rest;
    }
  }

  lemma InlineIsCanonical(b: bytes, limit: nat)
    requires ReadInline(b, limit).Some?
    ensures var (v, rest) := ReadInline(b, limit).value;
            |v| <= limit && |v| < U64_LIMIT && Inline(v) + rest == b
  {
    hide BigSize, ReadBigSize;
    BigSizeIsCanonical(b);
    var (n, rest) := ReadBigSize(b).value;
    assert rest == rest[..n] + rest[n..];
    assert BigSize(n) + rest == (BigSize(n) + rest[..n]) + rest[n..];
  }

  lemma {:induction false} StreamIsCanonical(b: bytes, least: nat)
    requires ParseStream(b, least).Some?
    ensures var rs := ParseStream(b, least).value;
            Tlv.Increasing(rs, least) && EncodeStream(rs) == b
    decreases |b|
  {
    hide BigSize, ReadBigSize, Inline, ReadInline;
    if b != [] {
      BigSizeIsCanonical(b);
      var (typ, rest) := ReadBigSize(b).value;
      InlineIsCanonical(rest, |rest|);
      var (v, tail) := ReadInline(rest, |rest|).value;
      StreamIsCanonical(tail, typ + 1);
      var rs := ParseStream(b, least).value;
      assert rs[1..] == ParseStream(tail, typ + 1).value;
      assert BigSize(typ) + (Inline(v) + tail) == (BigSize(typ) + Inline(v)) + tail;
    }
  }

  lemma {:induction false} IncreasingIsSorted(rs: seq<Record>, least: nat)
    requires Tlv.Increasing(rs, least)
    ensures Sorted(rs) && DistinctTypes(rs) && forall i :: 0 <= i < |rs| ==> least <= rs[i].typ
  {
    if rs != [] {
      IncreasingIsSorted(rs[1..], rs[0].typ + 1);
      assert rs == [rs[0]] + rs[1..];
    }
  }

  /** A map of records is parsed from its own encoding and from nothing else. */
  lemma FieldsAreCanonical(b: bytes, m: Fields)
    requires forall t :: t in m ==> t < U64_LIMIT && |m[t]| < U64_LIMIT
    ensures ParseFields(b) == Some(m) <==> b == EncodeFields(m)
  {
    hide ParseStream, EncodeStream, SortedRecords, AsFields;
    FieldsRoundTrip(m);
    if ParseFields(b) == Some(m) {
      var rs := ParseStream(b, 0).value;
      StreamIsCanonical(b, 0);
      IncreasingIsSorted(rs, 0);
      SortedIsCanonical(rs);
    }
  }

  // ----- Lists of items -----

  lemma {:induction false} ItemsKeepLimits(b: bytes, n: nat)
    requires ReadItems(b, n).Some?
    ensures var items := ReadItems(b, n).value.0;
            |items| == n && forall i :: 0 <= i < n ==> |items[i]| <= 65535
    decreases n
  {
    hide ReadBigSize;
    if n > 0 { ItemsKeepLimits(ReadInline(b, MAX_ITEM_SIZE).value.1, n - 1); }
  }

  lemma {:induction false} WitnessesAreCounted(b: bytes, n: nat)
    requires ReadWitnesses(b, n).Some?
    ensures |ReadWitnesses(b, n).value.0| == n
    decreases n
  {
    hide ReadInline, DecodeWitness;
    if n > 0 { WitnessesAreCounted(ReadInline(b, MAX_ITEM_SIZE).value.1, n - 1); }
  }

  // ----- What the decoders of single values accept -----

  /** A missing integer is 0; one that is there is read from its own encoding and from nothing else. */
  lemma IntegersAreCanonical(m: Fields, typ: nat, n: nat)
    ensures n < 256 ==> (DecodeU8(m, typ) == Some(n) <==> if typ in m then m[typ] == [n] else n == 0)
    ensures n < U64_LIMIT ==> (DecodeVarInt(m, typ) == Some(n) <==> if typ in m then m[typ] == BigSize(n) else n == 0)
    ensures n < U16_LIMIT ==> (DecodeU16(m, typ) == Some(n) <==> if typ in m then m[typ] == BigEndian(n, 2) else n == 0)
  {
    hide BigSize, ReadBigSize, BigEndian, ReadFixed;
    Pow256Values();
    if typ in m {
      if ReadBigSize(m[typ]).Some? { BigSizeIsCanonical(m[typ]); }
      if n < U64_LIMIT { BigSizeRoundTrip(n, []); }
      if ReadFixed(m[typ], 2).Some? { FixedIsCanonical(m[typ], 2); }
      if n < U16_LIMIT { FixedRoundTrip(n, 2, []); }
      assert BigSize(n) + [] == BigSize(n) && BigEndian(n, 2) + [] == BigEndian(n, 2);
    }
  }

  /** A key is read from the bytes of a point, and the blank key from zeroes. */
  lemma KeysAreCanonical(b: bytes, k: PubKey)
    ensures DecodeKey(b) == Some(k) <==>
              (b == k && k != Zeros(33) && ParsesAsKey(k)) || (b == Zeros(33) && k == [2] + Zeros(32))
  {
  }

  lemma NodesAreCanonical(b: bytes, n: Node)
    ensures DecodeNode(b) == Some(n) <==> n.sum < U64_LIMIT && b == EncodeNode(n)
  {
    hide BigEndian, FromBigEndian;
    Pow256Values();
    if DecodeNode(b) == Some(n) {
      DigitsAreBytes(b[32..40]);
      assert b == b[..32] + b[32..40];
    }
    if n.sum < U64_LIMIT && b == EncodeNode(n) {
      NodeRoundTrip(n, []);
      assert EncodeNode(n) + [] == EncodeNode(n);
    }
  }

  lemma OutPointsAreCanonical(b: bytes, o: OutPoint, rest: bytes)
    ensures ReadOutPoint(b) == Some((o, rest)) <==> b == EncodeOutPoint(o) + rest
  {
    hide BigEndian, FromBigEndian;
    Pow256Values();
    if ReadOutPoint(b) == Some((o, rest)) {
      DigitsAreBytes(b[32..36]);
      assert b == b[..32] + b[32..36] + b[36..];
    }
    OutPointRoundTrip(o, rest);
  }

  lemma PrevIdsAreCanonical(b: bytes, p: PrevId)
    ensures DecodePrevId(b) == Some(p) <==>
              b == EncodePrevId(p) && (p.scriptKey == Zeros(33) || ParsesAsKey(p.scriptKey))
  {
    hide EncodeOutPoint, ReadOutPoint;
    if DecodePrevId(b) == Some(p) {
      var (op, rest) := ReadOutPoint(b).value;
      OutPointsAreCanonical(b, op, rest);
      assert rest == rest[..32] + rest[32..];
      assert EncodeOutPoint(op) + (p.id + p.scriptKey) == EncodePrevId(p);
    }
    if p.scriptKey == NIL_KEY || ParsesAsKey(p.scriptKey) { PrevIdRoundTrip(p); }
  }

  lemma GenesesAreCanonical(b: bytes, g: Genesis)
    ensures DecodeGenesis(b) == Some(g) <==> b == EncodeGenesis(g) && |g.tag| <= 64
  {
    hide EncodeOutPoint, ReadOutPoint, Inline, ReadInline, BigEndian, FromBigEndian;
    Pow256Values();
    if DecodeGenesis(b) == Some(g) {
      var (op, b1) := ReadOutPoint(b).value;
      OutPointsAreCanonical(b, op, b1);
      InlineIsCanonical(b1, MAX_TAG);
      var (tag, b2) := ReadInline(b1, MAX_TAG).value;
      DigitsAreBytes(b2[32..36]);
      assert b2 == b2[..32] + b2[32..36] + [b2[36]];
      assert EncodeOutPoint(op) + (Inline(tag) + (b2[..32] + b2[32..36] + [b2[36]])) == EncodeGenesis(g);
    }
    if |g.tag| <= MAX_TAG { GenesisRoundTrip(g); }
  }

  lemma {:induction false} ItemsAreCanonical(b: bytes, n: nat)
    requires ReadItems(b, n).Some?
    ensures var (items, rest) := ReadItems(b, n).value;
            b == EncodeItems(items) + rest
    decreases n
  {
    hide Inline, ReadInline;
    if n > 0 {
      InlineIsCanonical(b, MAX_ITEM_SIZE);
      var (item, after) := ReadInline(b, MAX_ITEM_SIZE).value;
      ItemsAreCanonical(after, n - 1);
      var (items, rest) := ReadItems(after, n - 1).value;
      assert ([item] + items)[1..] == items;
      assert Inline(item) + (EncodeItems(items) + rest) == Inline(item) + EncodeItems(items) + rest;
    }
  }

  ghost predicate WithinLimits(items: seq<bytes>) {
    |items| <= 65535 && forall i :: 0 <= i < |items| ==> |items[i]| <= 65535
  }

  lemma TxWitnessesAreCanonical(b: bytes, items: seq<bytes>)
    ensures DecodeTxWitness(b) == Some(items) <==> b == EncodeTxWitness(items) && WithinLimits(items)
  {
    hide BigSize, ReadBigSize, ReadItems, EncodeItems;
    if DecodeTxWitness(b) == Some(items) {
      BigSizeIsCanonical(b);
      var (n, rest) := ReadBigSize(b).value;
      ItemsAreCanonical(rest, n);
      ItemsKeepLimits(rest, n);
      assert EncodeItems(items) + [] == EncodeItems(items);
    }
    if WithinLimits(items) { TxWitnessRoundTrip(items); }
  }

  // ----- What the nested decoders accept -----

  /** A proof and a root asset, each with its length, and nothing after them. */
  ghost predicate ReadAsSplit(b: bytes, proof: bytes, root: bytes, s: SplitCommitment) {
    b == Inline(proof) + Inline(root) && DecodeProof(proof) == Some(s.proof) && DecodeAsset(root) == Some(s.rootAsset)
  }

  lemma PartsOfSplit(b: bytes, s: SplitCommitment) returns (proof: bytes, root: bytes)
    requires DecodeSplit(b) == Some(s)
    ensures |b| <= 65535 && ReadAsSplit(b, proof, root, s)
  {
    hide Inline, ReadInline, DecodeProof, DecodeAsset;
    InlineIsCanonical(b, |b|);
    proof := ReadInline(b, |b|).value.0;
    var b1 := ReadInline(b, |b|).value.1;
    InlineIsCanonical(b1, |b|);
    root := ReadInline(b1, |b|).value.0;
    assert Inline(root) + [] == Inline(root);
  }

  lemma SplitOfParts(b: bytes, proof: bytes, root: bytes, s: SplitCommitment)
    requires |b| <= 65535 && ReadAsSplit(b, proof, root, s)
    ensures DecodeSplit(b) == Some(s)
  {
    hide Inline, ReadInline, DecodeProof, DecodeAsset;
    InlineRoundTrip(proof, |b|, Inline(root));
    InlineRoundTrip(root, |b|, []);
    assert Inline(root) + [] == Inline(root);
  }

  lemma SplitIff(b: bytes, s: SplitCommitment)
    ensures DecodeSplit(b) == Some(s) <==> |b| <= 65535 && exists proof, root :: ReadAsSplit(b, proof, root, s)
  {
    hide DecodeSplit, ReadAsSplit;
    if DecodeSplit(b) == Some(s) { var proof, root := PartsOfSplit(b, s); }
    if proof, root :| |b| <= 65535 && ReadAsSplit(b, proof, root, s) { SplitOfParts(b, proof, root, s); }
  }

  /** The record map of a witness; records of other types are skipped. */
  ghost predicate ReadAsWitness(m: Fields, w: Witness) {
    && (if 1 in m then w.prevId.Some? && DecodePrevId(m[1]) == w.prevId else w.prevId == None)
    && (if 3 in m then m[3] == EncodeTxWitness(w.txWitness) && WithinLimits(w.txWitness) else w.txWitness == [])
    && (if 5 in m then w.split.Some? && DecodeSplit(m[5]) == w.split else w.split == None)
  }

  lemma WitnessIff(b: bytes, w: Witness)
    ensures DecodeWitness(b) == Some(w) <==> ParseFields(b).Some? && ReadAsWitness(ParseFields(b).value, w)
  {
    hide ParseFields, DecodePrevId, DecodeSplit, DecodeTxWitness, EncodeTxWitness, WithinLimits;
    if ParseFields(b).Some? {
      var m := ParseFields(b).value;
      if 3 in m {
        TxWitnessesAreCanonical(m[3], w.txWitness);
        if DecodeTxWitness(m[3]).Some? { TxWitnessesAreCanonical(m[3], DecodeTxWitness(m[3]).value); }
      }
    }
  }

  ghost predicate ReadAsWitnesses(parts: seq<bytes>, ws: seq<Witness>) {
    && |parts| == |ws|
    && forall i :: 0 <= i < |ws| ==> |parts[i]| <= 65535 && DecodeWitness(parts[i]) == Some(ws[i])
  }

  lemma {:induction false} PartsOfList(b: bytes, n: nat) returns (parts: seq<bytes>)
    requires ReadWitnesses(b, n).Some?
    ensures var (ws, rest) := ReadWitnesses(b, n).value;
            ReadAsWitnesses(parts, ws) && b == EncodeItems(parts) + rest
    decreases n
  {
    hide Inline, ReadInline, DecodeWitness;
    if n == 0 { return []; }
    InlineIsCanonical(b, MAX_ITEM_SIZE);
    var (part, after) := ReadInline(b, MAX_ITEM_SIZE).value;
    var more := PartsOfList(after, n - 1);
    parts := [part] + more;
    assert parts[1..] == more;
    var rest := ReadWitnesses(after, n - 1).value.1;
    assert Inline(part) + (EncodeItems(more) + rest) == Inline(part) + EncodeItems(more) + rest;
  }

  lemma {:induction false} ListOfParts(parts: seq<bytes>, ws: seq<Witness>)
    requires ReadAsWitnesses(parts, ws)
    ensures ReadWitnesses(EncodeItems(parts), |ws|) == Some((ws, []))
    decreases parts
  {
    hide Inline, ReadInline, DecodeWitness;
    if ws != [] {
      ListOfParts(parts[1..], ws[1..]);
      InlineRoundTrip(parts[0], MAX_ITEM_SIZE, EncodeItems(parts[1..]));
      assert ws == [ws[0]] + ws[1..];
    }
  }

  /** A list of witnesses is read from its length and the witnesses, each with its own length. */
  lemma WitnessListIff(b: bytes, ws: seq<Witness>)
    ensures DecodeWitnessList(b) == Some(ws) <==>
              |ws| <= 65535 && exists parts :: ReadAsWitnesses(parts, ws) && b == BigSize(|ws|) + EncodeItems(parts)
  {
    hide BigSize, ReadBigSize, ReadWitnesses, EncodeItems, DecodeWitness, ReadAsWitnesses;
    if DecodeWitnessList(b) == Some(ws) {
      BigSizeIsCanonical(b);
      var (n, rest) := ReadBigSize(b).value;
      var parts := PartsOfList(rest, n);
      WitnessesAreCounted(rest, n);
      assert EncodeItems(parts) + [] == EncodeItems(parts);
    }
    if parts :| |ws| <= 65535 && ReadAsWitnesses(parts, ws) && b == BigSize(|ws|) + EncodeItems(parts) {
      BigSizeRoundTrip(|ws|, EncodeItems(parts));
      ListOfParts(parts, ws);
    }
  }

  ghost predicate ReadAsKey(b: bytes, k: PubKey) {
    (b == k && k != Zeros(33) && ParsesAsKey(k)) || (b == Zeros(33) && k == [2] + Zeros(32))
  }

  ghost predicate ReadAsGenesis(m: Fields, g: Genesis) {
    && (if 2 in m
        then exists typ: byte :: m[2] == EncodeGenesis(g.(assetType := typ)) && (4 !in m ==> typ == g.assetType)
        else g == Genesis(OutPoint(Zeros(32), 0), [], Zeros(32), 0, g.assetType) && (4 !in m ==> g.assetType == 0))
    && |g.tag| <= 64
    && (4 in m ==> m[4] == [g.assetType])
  }

  ghost predicate ReadAsIntegers(m: Fields, a: Asset) {
    && (if 0 in m then m[0] == [a.version] else a.version == 0)
    && (if 6 in m then m[6] == BigSize(a.amount) else a.amount == 0)
    && (if 7 in m then m[7] == BigSize(a.lockTime) else a.lockTime == 0)
    && (if 9 in m then m[9] == BigSize(a.relativeLockTime) else a.relativeLockTime == 0)
    && (if 14 in m then m[14] == BigEndian(a.scriptVersion, 2) else a.scriptVersion == 0)
  }

  ghost predicate ReadAsKeys(m: Fields, a: Asset) {
    && (if 13 in m then a.splitRoot.Some? && a.splitRoot.value.sum < U64_LIMIT && m[13] == EncodeNode(a.splitRoot.value)
        else a.splitRoot == None)
    && (if 16 in m then ReadAsKey(m[16], a.scriptKey) else a.scriptKey == Zeros(33))
    && (if 17 in m then a.groupKey.Some? && ReadAsKey(m[17], a.groupKey.value) else a.groupKey == None)
  }

  /** Unknown records are odd, and are kept. */
  ghost predicate KeepsUnknown(m: Fields, a: Asset) {
    && (forall t :: t in a.unknownOddTypes <==> t in m && t !in {0, 2, 4, 6, 7, 9, 11, 13, 14, 16, 17})
    && (forall t :: t in a.unknownOddTypes ==> t % 2 == 1 && a.unknownOddTypes[t] == m[t])
  }

  /** The record map of an asset. */
  ghost predicate ReadAs(m: Fields, a: Asset) {
    && ReadAsIntegers(m, a) && ReadAsGenesis(m, a.genesis) && ReadAsKeys(m, a) && KeepsUnknown(m, a)
    && (if 11 in m then DecodeWitnessList(m[11]) == Some(a.prevWitnesses) else a.prevWitnesses == [])
  }

  lemma GenesisIff(m: Fields, g: Genesis)
    ensures ReadAsGenesis(m, g) <==>
              var read := if 2 in m then DecodeGenesis(m[2]) else Some(EMPTY_GENESIS);
              && read.Some?
              && var typ := if 4 in m then DecodeU8(m, 4) else Some(read.value.assetType);
                 typ.Some? && g == read.value.(assetType := typ.value)
  {
    hide DecodeGenesis, EncodeGenesis;
    IntegersAreCanonical(m, 4, g.assetType);
    if 2 in m {
      if DecodeGenesis(m[2]).Some? {
        var read := DecodeGenesis(m[2]).value;
        GenesesAreCanonical(m[2], read);
        if g == read.(assetType := g.assetType) { assert m[2] == EncodeGenesis(g.(assetType := read.assetType)); }
      }
      if ReadAsGenesis(m, g) {
        var typ: byte :| m[2] == EncodeGenesis(g.(assetType := typ)) && (4 !in m ==> typ == g.assetType);
        GenesesAreCanonical(m[2], g.(assetType := typ));
      }
    }
  }

  ghost function OptionalNode(m: Fields): Option<Option<Node>> {
    if 13 in m then (if DecodeNode(m[13]).Some? then Some(DecodeNode(m[13])) else None) else Some(None)
  }

  ghost function OptionalKey(m: Fields): Option<Option<PubKey>> {
    if 17 in m then (if DecodeKey(m[17]).Some? then Some(DecodeKey(m[17])) else None) else Some(None)
  }

  /** The decoders of the single records, one by one. */
  ghost predicate FieldsReadAs(m: Fields, a: Asset) {
    && DecodeU8(m, 0) == Some(a.version) && DecodeVarInt(m, 6) == Some(a.amount)
    && DecodeVarInt(m, 7) == Some(a.lockTime) && DecodeVarInt(m, 9) == Some(a.relativeLockTime)
    && DecodeU16(m, 14) == Some(a.scriptVersion) && ReadAsGenesis(m, a.genesis)
    && (if 11 in m then DecodeWitnessList(m[11]) == Some(a.prevWitnesses) else a.prevWitnesses == [])
    && (if 16 in m then DecodeKey(m[16]) == Some(a.scriptKey) else a.scriptKey == Zeros(33))
    && OptionalNode(m) == Some(a.splitRoot) && OptionalKey(m) == Some(a.groupKey)
    && UnknownTypes(m) == a.unknownOddTypes && forall t :: t in m && t !in KNOWN_LEAF_TYPES ==> t % 2 == 1
  }

  lemma DecodeIsFieldwise(m: Fields, bound: nat, a: Asset)
    requires forall t :: t in m ==> |m[t]| < bound
    ensures DecodeAssetFields(m, bound) == Some(a) <==> FieldsReadAs(m, a)
  {
    hide DecodeGenesis, DecodeU8, DecodeVarInt, DecodeU16, DecodeKey, DecodeNode, DecodeWitnessList, ReadAsGenesis,
         UnknownTypes;
    GenesisIff(m, a.genesis);
  }

  lemma IntegersIff(m: Fields, a: Asset)
    ensures ReadAsIntegers(m, a) <==>
              && DecodeU8(m, 0) == Some(a.version) && DecodeVarInt(m, 6) == Some(a.amount)
              && DecodeVarInt(m, 7) == Some(a.lockTime) && DecodeVarInt(m, 9) == Some(a.relativeLockTime)
              && DecodeU16(m, 14) == Some(a.scriptVersion)
  {
    hide DecodeU8, DecodeVarInt, DecodeU16, BigSize, BigEndian;
    IntegersAreCanonical(m, 0, a.version);
    IntegersAreCanonical(m, 6, a.amount);
    IntegersAreCanonical(m, 7, a.lockTime);
    IntegersAreCanonical(m, 9, a.relativeLockTime);
    IntegersAreCanonical(m, 14, a.scriptVersion);
  }

  lemma KeysIff(m: Fields, a: Asset)
    ensures ReadAsKeys(m, a) <==>
              && (if 16 in m then DecodeKey(m[16]) == Some(a.scriptKey) else a.scriptKey == Zeros(33))
              && OptionalNode(m) == Some(a.splitRoot) && OptionalKey(m) == Some(a.groupKey)
  {
    hide DecodeKey, DecodeNode, EncodeNode;
    if 13 in m && a.splitRoot.Some? { NodesAreCanonical(m[13], a.splitRoot.value); }
    if 16 in m { KeysAreCanonical(m[16], a.scriptKey); }
    if 17 in m && a.groupKey.Some? { KeysAreCanonical(m[17], a.groupKey.value); }
  }

  lemma UnknownIff(m: Fields, a: Asset)
    ensures KeepsUnknown(m, a) <==>
              UnknownTypes(m) == a.unknownOddTypes && forall t :: t in m && t !in KNOWN_LEAF_TYPES ==> t % 2 == 1
  {
    assert KeepsUnknown(m, a) ==> UnknownTypes(m) == a.unknownOddTypes;
  }

  /** An asset is read exactly from a stream of records that says what it is, record by record. */
  lemma AssetIff(b: bytes, a: Asset)
    ensures DecodeAsset(b) == Some(a) <==> ParseFields(b).Some? && ReadAs(ParseFields(b).value, a)
  {
    hide ParseFields, DecodeAssetFields, ReadAsIntegers, ReadAsGenesis, ReadAsKeys, KeepsUnknown, UnknownTypes,
         OptionalNode, OptionalKey, DecodeU8, DecodeVarInt, DecodeU16, DecodeKey, DecodeWitnessList;
    if ParseFields(b).Some? {
      var m := ParseFields(b).value;
      DecodeIsFieldwise(m, |b|, a);
      IntegersIff(m, a);
      KeysIff(m, a);
      UnknownIff(m, a);
    }
  }

  // ----- What has no encoding -----

  /** Without a script key, or with an unknown record of a known type, there is no encoding and no leaf. */
  lemma UnencodableIff(a: Asset, segwit: bool)
    ensures EncodeAsset(a, segwit) == None <==>
              || a.scriptKey == Zeros(33)
              || !(a.unknownOddTypes.Keys !! {0, 2, 4, 6, 7, 9, 11, 13, 14, 16, 17})
              || EncodeWitnessList(a.prevWitnesses, segwit) == None
    ensures EncodeAltLeaf(a) == None <==>
              || a.scriptKey == Zeros(33)
              || !(a.unknownOddTypes.Keys !! {11, 14, 16})
              || EncodeWitnessList(a.prevWitnesses, false) == None
    ensures Leaf(a) == None <==> a.version > 1 || EncodeAsset(a, a.version == 1) == None
  {
    hide EncodeWitnessList, EncodeFields, AssetFields;
  }
}
