/** Decoding an encoded asset gives the asset back, through every level of nesting. */
module AssetCodec {
  import opened Bytes
  import opened SumTree
  import opened Tlv
  import opened ProofCodec
  import opened Assets

  // ----- What the decoders accept -----

  ghost predicate ValidKey(k: PubKey) {
    k != NIL_KEY && ParsesAsKey(k)
  }

  ghost predicate SmallEnough(b: Option<bytes>) {
    b.Some? ==> |b.value| <= MAX_ITEM_SIZE
  }

  /** Witnesses within the decoder's limits. */
  ghost predicate DecodableWitness(w: Witness, segwit: bool)
    decreases w
  {
    && (w.prevId.Some? ==> w.prevId.value.scriptKey == NIL_KEY || ParsesAsKey(w.prevId.value.scriptKey))
    && |w.txWitness| <= MAX_ITEMS
    && (forall i :: 0 <= i < |w.txWitness| ==> |w.txWitness[i]| <= MAX_ITEM_SIZE)
    && (w.split.Some? ==>
          && SumsFit(w.split.value.proof) && NoForgedEmpty(w.split.value.proof)
          && DecodableAsset(w.split.value.rootAsset, false)
          && SmallEnough(EncodeSplit(w.split.value)))
    && SmallEnough(EncodeWitness(w, segwit))
  }

  /** Assets within the decoder's limits, with valid keys and genuinely unknown odd records. */
  ghost predicate DecodableAsset(a: Asset, segwit: bool)
    decreases a
  {
    && |a.genesis.tag| <= MAX_TAG
    && ValidKey(a.scriptKey)
    && (a.groupKey.Some? ==> ValidKey(a.groupKey.value))
    && (a.splitRoot.Some? ==> a.splitRoot.value.sum < U64_LIMIT)
    && |a.prevWitnesses| <= MAX_ITEMS
    && (forall i :: 0 <= i < |a.prevWitnesses| ==> DecodableWitness(a.prevWitnesses[i], segwit))
    && UnknownOdd(a.unknownOddTypes)
  }

  ghost predicate UnknownOdd(m: Fields) {
    forall t :: t in m ==> t % 2 == 1 && t !in KNOWN_LEAF_TYPES && t < U64_LIMIT && |m[t]| < U64_LIMIT
  }

  // ----- Flat parts -----

  lemma OutPointRoundTrip(o: OutPoint, rest: bytes)
    ensures ReadOutPoint(EncodeOutPoint(o) + rest) == Some((o, rest))
  {
    var b := EncodeOutPoint(o) + rest;
    assert b[..32] == o.hash && b[32..36] == BigEndian(o.index, 4) && b[36..] == rest;
    Pow256Values();
    BigEndianRoundTrip(o.index, 4);
  }

  lemma GenesisRoundTrip(g: Genesis)
    requires |g.tag| <= MAX_TAG
    ensures DecodeGenesis(EncodeGenesis(g)) == Some(g)
  {
    hide BigEndian, FromBigEndian, EncodeOutPoint, ReadOutPoint, Inline, ReadInline;
    var tail := g.metaHash + BigEndian(g.outputIndex, 4) + [g.assetType];
    assert EncodeGenesis(g) == EncodeOutPoint(g.firstPrevOut) + (Inline(g.tag) + tail);
    OutPointRoundTrip(g.firstPrevOut, Inline(g.tag) + tail);
    InlineRoundTrip(g.tag, MAX_TAG, tail);
    assert tail[..32] == g.metaHash && tail[32..36] == BigEndian(g.outputIndex, 4) && tail[36] == g.assetType;
    Pow256Values();
    BigEndianRoundTrip(g.outputIndex, 4);
  }

  lemma PrevIdRoundTrip(p: PrevId)
    requires p.scriptKey == NIL_KEY || ParsesAsKey(p.scriptKey)
    ensures DecodePrevId(EncodePrevId(p)) == Some(p)
  {
    hide EncodeOutPoint, ReadOutPoint;
    var tail := p.id + p.scriptKey;
    assert EncodePrevId(p) == EncodeOutPoint(p.outPoint) + tail;
    OutPointRoundTrip(p.outPoint, tail);
    assert tail[..32] == p.id && tail[32..] == p.scriptKey;
  }

  lemma {:induction false} ItemsRoundTrip(items: seq<bytes>, rest: bytes)
    requires forall i :: 0 <= i < |items| ==> |items[i]| <= MAX_ITEM_SIZE
    ensures ReadItems(EncodeItems(items) + rest, |items|) == Some((items, rest))
  {
    hide Inline, ReadInline, ReadItems, EncodeItems;
    if items == [] {
      NoItems(rest);
    } else {
      ItemsRoundTrip(items[1..], rest);
      OneMoreItem(items, rest);
    }
  }

  lemma NoItems(rest: bytes)
    ensures ReadItems(EncodeItems([]) + rest, 0) == Some(([], rest))
  {
    assert EncodeItems([]) + rest == rest;
  }

  lemma OneMoreItem(items: seq<bytes>, rest: bytes)
    requires items != [] && |items[0]| <= MAX_ITEM_SIZE
    requires ReadItems(EncodeItems(items[1..]) + rest, |items| - 1) == Some((items[1..], rest))
    ensures ReadItems(EncodeItems(items) + rest, |items|) == Some((items, rest))
  {
    hide Inline, ReadInline;
    var after := EncodeItems(items[1..]) + rest;
    assert EncodeItems(items) + rest == Inline(items[0]) + after;
    InlineRoundTrip(items[0], MAX_ITEM_SIZE, after);
    assert items == [items[0]] + items[1..];
  }

  lemma TxWitnessRoundTrip(items: seq<bytes>)
    requires |items| <= MAX_ITEMS
    requires forall i :: 0 <= i < |items| ==> |items[i]| <= MAX_ITEM_SIZE
    ensures DecodeTxWitness(EncodeTxWitness(items)) == Some(items)
  {
    hide BigSize, ReadBigSize, ReadItems, EncodeItems;
    BigSizeRoundTrip(|items|, EncodeItems(items));
    ItemsRoundTrip(items, []);
    assert EncodeItems(items) + [] == EncodeItems(items);
  }

  /** The transaction witness decoder reads its items one after the other. */
  method ReadTxWitness(b: bytes) returns (r: Option<seq<bytes>>)
    ensures r == DecodeTxWitness(b)
  {
    hide ReadInline, ReadBigSize;
    var head := ReadBigSize(b);
    if head == None { return None; }
    var (n, b1) := head.value;
    if n > MAX_ITEMS { return None; }
    var items: seq<bytes>, rest, i := [], b1, 0;
    assert forall s: seq<bytes> :: items + s == s;
    while i < n
      invariant 0 <= i <= n
      invariant ReadItems(b1, n) ==
        match ReadItems(rest, n - i)
        case None => None
        case Some(pair) => Some((items + pair.0, pair.1))
    {
      var next := ReadInline(rest, MAX_ITEM_SIZE);
      if next == None { return None; }
      ghost var more := ReadItems(next.value.1, n - i - 1);
      assert more.Some? ==> items + ([next.value.0] + more.value.0) == items + [next.value.0] + more.value.0;
      items, rest, i := items + [next.value.0], next.value.1, i + 1;
    }
    assert items + [] == items;
    r := if rest == [] then Some(items) else None;
  }

  // ----- The record map of an asset -----

  lemma VarIntField(m: Fields, typ: nat, n: u64)
    requires if typ in m then m[typ] == BigSize(n) else n == 0
    ensures DecodeVarInt(m, typ) == Some(n)
  {
    hide BigSize, ReadBigSize;
    BigSizeRoundTrip(n, []);
    assert BigSize(n) + [] == BigSize(n);
  }

  lemma U16Field(m: Fields, typ: nat, n: u16)
    requires if typ in m then m[typ] == BigEndian(n, 2) else n == 0
    ensures DecodeU16(m, typ) == Some(n)
  {
    hide BigEndian, ReadFixed;
    Pow256Values();
    FixedRoundTrip(n, 2, []);
    assert BigEndian(n, 2) + [] == BigEndian(n, 2);
  }

  lemma NodeField(n: Node)
    requires n.sum < U64_LIMIT
    ensures DecodeNode(EncodeNode(n)) == Some(n)
  {
    NodeRoundTrip(n, []);
    assert EncodeNode(n) + [] == EncodeNode(n);
  }

  /** The fields left out of an encoding have the values the decoder gives to absent records. */
  ghost predicate OmittedAreDefault(a: Asset, types: set<nat>) {
    && (types == KNOWN_LEAF_TYPES || types == ALT_LEAF_TYPES)
    && (types == ALT_LEAF_TYPES ==>
          && a.version == 0 && a.genesis == EMPTY_GENESIS && a.amount == 0 && a.lockTime == 0
          && a.relativeLockTime == 0 && a.splitRoot == None && a.groupKey == None)
  }

  /** Which records the map holds, stated record by record. */
  ghost predicate HoldsFields(m: Fields, a: Asset, witnesses: bytes, types: set<nat>) {
    && (forall t :: t in KNOWN_LEAF_TYPES ==>
          (t in m <==> t in types && AssetField(a, witnesses, t).Some?)
          && (t in m ==> m[t] == AssetField(a, witnesses, t).value))
    && UnknownTypes(m) == a.unknownOddTypes
  }

  lemma EncodedMapHoldsFields(a: Asset, witnesses: bytes, types: set<nat>)
    requires OmittedAreDefault(a, types) && UnknownOdd(a.unknownOddTypes)
    ensures HoldsFields(AssetFields(a, witnesses, types) + a.unknownOddTypes, a, witnesses, types)
  {
    hide AssetField;
    var m := AssetFields(a, witnesses, types) + a.unknownOddTypes;
    assert UnknownTypes(m) == a.unknownOddTypes;
  }

  lemma NoUnknownEven(m: Fields, a: Asset, witnesses: bytes, types: set<nat>)
    requires HoldsFields(m, a, witnesses, types) && UnknownOdd(a.unknownOddTypes)
    ensures !exists t :: t in m && t !in KNOWN_LEAF_TYPES && t % 2 == 0
  {
    hide AssetField;
    forall t | t in m && t !in KNOWN_LEAF_TYPES ensures t % 2 == 1 { assert t in UnknownTypes(m); }
  }

  /** The integers of an asset, as they are read from its records. */
  ghost predicate IntegersDecode(m: Fields, a: Asset) {
    && DecodeU8(m, LEAF_VERSION) == Some(a.version)
    && DecodeVarInt(m, LEAF_AMOUNT) == Some(a.amount)
    && DecodeVarInt(m, LEAF_LOCK_TIME) == Some(a.lockTime)
    && DecodeVarInt(m, LEAF_RELATIVE_LOCK_TIME) == Some(a.relativeLockTime)
    && DecodeU16(m, LEAF_SCRIPT_VERSION) == Some(a.scriptVersion)
    && (LEAF_TYPE in m ==> DecodeU8(m, LEAF_TYPE) == Some(a.genesis.assetType))
  }

  lemma HoldsIntegers(m: Fields, a: Asset, witnesses: bytes, types: set<nat>)
    requires HoldsFields(m, a, witnesses, types) && OmittedAreDefault(a, types)
    ensures IntegersDecode(m, a)
  {
    hide BigSize, DecodeVarInt, DecodeU16, EncodeGenesis, BigEndian;
    VarIntField(m, LEAF_AMOUNT, a.amount);
    VarIntField(m, LEAF_LOCK_TIME, a.lockTime);
    VarIntField(m, LEAF_RELATIVE_LOCK_TIME, a.relativeLockTime);
    U16Field(m, LEAF_SCRIPT_VERSION, a.scriptVersion);
  }

  /** The other records but the witnesses. */
  ghost predicate PartsDecode(m: Fields, a: Asset) {
    && (if LEAF_GENESIS in m then DecodeGenesis(m[LEAF_GENESIS]) == Some(a.genesis) else a.genesis == EMPTY_GENESIS)
    && (if LEAF_SPLIT_COMMITMENT_ROOT in m
        then a.splitRoot.Some? && DecodeNode(m[LEAF_SPLIT_COMMITMENT_ROOT]) == a.splitRoot
        else a.splitRoot == None)
    && LEAF_SCRIPT_KEY in m && DecodeKey(m[LEAF_SCRIPT_KEY]) == Some(a.scriptKey)
    && (if LEAF_GROUP_KEY in m then a.groupKey.Some? && DecodeKey(m[LEAF_GROUP_KEY]) == a.groupKey
        else a.groupKey == None)
  }

  lemma HoldsParts(m: Fields, a: Asset, witnesses: bytes, types: set<nat>)
    requires HoldsFields(m, a, witnesses, types) && OmittedAreDefault(a, types)
    requires |a.genesis.tag| <= MAX_TAG && ValidKey(a.scriptKey)
    requires a.groupKey.Some? ==> ValidKey(a.groupKey.value)
    requires a.splitRoot.Some? ==> a.splitRoot.value.sum < U64_LIMIT
    ensures PartsDecode(m, a)
  {
    hide BigSize, EncodeGenesis, DecodeGenesis, EncodeNode, DecodeNode, BigEndian;
    GenesisRoundTrip(a.genesis);
    if a.splitRoot.Some? { NodeField(a.splitRoot.value); }
  }

  lemma HoldsWitnesses(m: Fields, a: Asset, witnesses: bytes, types: set<nat>)
    requires HoldsFields(m, a, witnesses, types) && OmittedAreDefault(a, types)
    ensures if a.prevWitnesses == [] then LEAF_PREV_WITNESS !in m
            else LEAF_PREV_WITNESS in m && m[LEAF_PREV_WITNESS] == BigSize(|a.prevWitnesses|) + witnesses
    ensures UnknownTypes(m) == a.unknownOddTypes
  {
    hide BigSize, EncodeGenesis, EncodeNode, BigEndian;
  }

  /** A record map holding the fields of an asset decodes to it, with the witnesses it encodes. */
  lemma FieldsDecode(m: Fields, bound: nat, a: Asset, witnesses: bytes, ws: seq<Witness>, types: set<nat>)
    requires forall t :: t in m ==> |m[t]| < bound
    requires HoldsFields(m, a, witnesses, types) && OmittedAreDefault(a, types)
    requires UnknownOdd(a.unknownOddTypes) && |a.genesis.tag| <= MAX_TAG && ValidKey(a.scriptKey)
    requires a.groupKey.Some? ==> ValidKey(a.groupKey.value)
    requires a.splitRoot.Some? ==> a.splitRoot.value.sum < U64_LIMIT
    requires if a.prevWitnesses == [] then ws == []
             else DecodeWitnessList(BigSize(|a.prevWitnesses|) + witnesses) == Some(ws)
    ensures DecodeAssetFields(m, bound) == Some(a.(prevWitnesses := ws))
  {
    hide HoldsFields, OmittedAreDefault, BigSize, DecodeU8, DecodeVarInt, DecodeU16, DecodeGenesis, DecodeNode,
         DecodeKey, DecodeWitnessList, UnknownTypes, UnknownOdd;
    NoUnknownEven(m, a, witnesses, types);
    HoldsIntegers(m, a, witnesses, types);
    HoldsParts(m, a, witnesses, types);
    HoldsWitnesses(m, a, witnesses, types);
  }

  // ----- Sizes -----

  const WITNESS_STEP: nat := MAX_ITEM_SIZE + 9

  lemma AssetFieldSize(a: Asset, witnesses: bytes, t: nat)
    requires |a.genesis.tag| <= MAX_TAG && |a.prevWitnesses| <= MAX_ITEMS
    requires |witnesses| <= WITNESS_STEP * MAX_ITEMS
    requires AssetField(a, witnesses, t).Some?
    ensures |AssetField(a, witnesses, t).value| < U64_LIMIT
  {
    hide BigSize, BigEndian;
    assert |Inline(a.genesis.tag)| <= 9 + MAX_TAG;
  }

  lemma {:induction false} ItemsSize(items: seq<bytes>)
    requires forall i :: 0 <= i < |items| ==> |items[i]| <= MAX_ITEM_SIZE
    ensures |EncodeItems(items)| <= WITNESS_STEP * |items|
  {
    hide Inline;
    if items != [] {
      InlineSize(items[0]);
      ItemsSize(items[1..]);
    }
  }

  // ----- The nested round trip -----

  function Strip(w: Witness, segwit: bool): Witness {
    if segwit then w.(txWitness := []) else w
  }

  function StripAll(ws: seq<Witness>, segwit: bool): seq<Witness> {
    seq(|ws|, i requires 0 <= i < |ws| => Strip(ws[i], segwit))
  }

  function Stripped(a: Asset, segwit: bool): Asset {
    a.(prevWitnesses := StripAll(a.prevWitnesses, segwit))
  }

  lemma {:induction false} SplitRoundTrip(s: SplitCommitment)
    requires SumsFit(s.proof) && NoForgedEmpty(s.proof) && DecodableAsset(s.rootAsset, false)
    requires SmallEnough(EncodeSplit(s))
    ensures EncodeSplit(s).Some? && DecodeSplit(EncodeSplit(s).value) == Some(s)
    decreases s, 3
  {
    hide EncodeProof, DecodeProof, Inline, ReadInline, DecodeAsset, EncodeTypes, DecodableAsset;
    AssetRoundTrip(s.rootAsset, false, KNOWN_LEAF_TYPES);
    var proof, root := EncodeProof(s.proof), EncodeAsset(s.rootAsset, false).value;
    var b := EncodeSplit(s).value;
    assert b == Inline(proof) + Inline(root);
    InlineRoundTrip(proof, |b|, Inline(root));
    InlineRoundTrip(root, |b|, []);
    assert Inline(root) + [] == Inline(root);
    ProofRoundTrip(s.proof, []);
    assert proof + [] == proof;
    assert Stripped(s.rootAsset, false) == s.rootAsset by {
      assert StripAll(s.rootAsset.prevWitnesses, false) == s.rootAsset.prevWitnesses;
    }
  }

  ghost function WitnessFields(w: Witness, segwit: bool, split: bytes): Fields {
    OptionalField(w.prevId.Some?, WITNESS_PREV_ID, if w.prevId.Some? then EncodePrevId(w.prevId.value) else [])
    + OptionalField(w.txWitness != [] && !segwit, WITNESS_TX_WITNESS, EncodeTxWitness(w.txWitness))
    + OptionalField(w.split.Some?, WITNESS_SPLIT, split)
  }

  lemma WitnessFieldsRoundTrip(w: Witness, segwit: bool, split: bytes)
    requires |w.txWitness| <= MAX_ITEMS && |split| <= MAX_ITEM_SIZE
    requires forall i :: 0 <= i < |w.txWitness| ==> |w.txWitness[i]| <= MAX_ITEM_SIZE
    ensures ParseFields(EncodeFields(WitnessFields(w, segwit, split))) == Some(WitnessFields(w, segwit, split))
  {
    hide EncodeItems, EncodeFields, ParseFields, BigSize;
    ItemsSize(w.txWitness);
    FieldsRoundTrip(WitnessFields(w, segwit, split));
  }

  lemma {:induction false} WitnessRoundTrip(w: Witness, segwit: bool)
    requires DecodableWitness(w, segwit)
    ensures EncodeWitness(w, segwit).Some?
    ensures DecodeWitness(EncodeWitness(w, segwit).value) == Some(Strip(w, segwit))
    decreases w, 3
  {
    hide EncodeFields, ParseFields, EncodePrevId, DecodePrevId, EncodeTxWitness, DecodeTxWitness, EncodeSplit,
         DecodeSplit, DecodableAsset, NoForgedEmpty, SumsFit;
    if w.split.Some? { SplitRoundTrip(w.split.value); }
    if w.prevId.Some? { PrevIdRoundTrip(w.prevId.value); }
    TxWitnessRoundTrip(w.txWitness);
    var split := if w.split.Some? then EncodeSplit(w.split.value).value else [];
    WitnessFieldsRoundTrip(w, segwit, split);
    assert EncodeWitness(w, segwit) == Some(EncodeFields(WitnessFields(w, segwit, split)));
  }

  lemma {:induction false} WitnessListRoundTrip(ws: seq<Witness>, segwit: bool, rest: bytes)
    requires forall i :: 0 <= i < |ws| ==> DecodableWitness(ws[i], segwit)
    ensures EncodeWitnessList(ws, segwit).Some?
    ensures var b := EncodeWitnessList(ws, segwit).value;
            && |b| <= WITNESS_STEP * |ws|
            && ReadWitnesses(b + rest, |ws|) == Some((StripAll(ws, segwit), rest))
    decreases ws, 3
  {
    hide Inline, ReadInline, EncodeWitness, DecodeWitness;
    if ws == [] {
      assert [] + rest == rest;
    } else {
      WitnessRoundTrip(ws[0], segwit);
      WitnessListRoundTrip(ws[1..], segwit, rest);
      var w := EncodeWitness(ws[0], segwit).value;
      var after := EncodeWitnessList(ws[1..], segwit).value + rest;
      assert EncodeWitnessList(ws, segwit).value + rest == Inline(w) + after;
      InlineRoundTrip(w, MAX_ITEM_SIZE, after);
      InlineSize(w);
      assert StripAll(ws, segwit) == [Strip(ws[0], segwit)] + StripAll(ws[1..], segwit);
    }
  }

  lemma InlineSize(b: bytes)
    ensures |Inline(b)| <= |b| + 9
  {
  }

  /** Encoding within the decoder's limits succeeds, and decoding restores every encoded field. */
  lemma {:induction false} AssetRoundTrip(a: Asset, segwit: bool, types: set<nat>)
    requires DecodableAsset(a, segwit) && OmittedAreDefault(a, types)
    ensures EncodeTypes(a, segwit, types).Some?
    ensures DecodeAsset(EncodeTypes(a, segwit, types).value) == Some(Stripped(a, segwit))
    decreases a, 3
  {
    hide EncodeWitnessList, DecodeWitnessList, ReadWitnesses, EncodeFields, ParseFields, DecodeAssetFields,
         DecodableWitness, AssetField, BigSize, ReadBigSize, StripAll;
    WitnessListRoundTrip(a.prevWitnesses, segwit, []);
    var witnesses := EncodeWitnessList(a.prevWitnesses, segwit).value;
    assert witnesses + [] == witnesses;
    BigSizeRoundTrip(|a.prevWitnesses|, witnesses);
    var m := AssetFields(a, witnesses, types) + a.unknownOddTypes;
    forall t | t in m ensures t < U64_LIMIT && |m[t]| < U64_LIMIT {
      if t !in a.unknownOddTypes { AssetFieldSize(a, witnesses, t); }
    }
    FieldsRoundTrip(m);
    EncodedMapHoldsFields(a, witnesses, types);
    var ws := StripAll(a.prevWitnesses, segwit);
    WitnessListDecodes(a.prevWitnesses, segwit, witnesses);
    FieldsDecode(m, |EncodeFields(m)|, a, witnesses, ws, types);
  }

  lemma WitnessListDecodes(ws: seq<Witness>, segwit: bool, witnesses: bytes)
    requires |ws| <= MAX_ITEMS
    requires ReadWitnesses(witnesses, |ws|) == Some((StripAll(ws, segwit), []))
    ensures DecodeWitnessList(BigSize(|ws|) + witnesses) == Some(StripAll(ws, segwit))
    ensures ws == [] ==> StripAll(ws, segwit) == []
  {
    hide BigSize, ReadBigSize, ReadWitnesses;
    BigSizeRoundTrip(|ws|, witnesses);
  }

  /** An asset survives its encoding. */
  lemma AssetSurvives(a: Asset)
    requires DecodableAsset(a, false)
    ensures EncodeAsset(a, false).Some? && DecodeAsset(EncodeAsset(a, false).value) == Some(a)
  {
    hide EncodeTypes, DecodeAsset, DecodableAsset;
    AssetRoundTrip(a, false, KNOWN_LEAF_TYPES);
    assert StripAll(a.prevWitnesses, false) == a.prevWitnesses;
  }

  /** Two assets committed by one leaf are the same asset, up to the witnesses version 1 leaves out. */
  lemma LeafBindsAsset(a: Asset, b: Asset)
    requires Leaf(a).Some? && Leaf(a) == Leaf(b)
    requires DecodableAsset(a, a.version == 1) && DecodableAsset(b, b.version == 1)
    ensures a.version == b.version && Stripped(a, a.version == 1) == Stripped(b, b.version == 1)
  {
    hide EncodeTypes, DecodeAsset, DecodableAsset, Stripped;
    AssetRoundTrip(a, a.version == 1, KNOWN_LEAF_TYPES);
    AssetRoundTrip(b, b.version == 1, KNOWN_LEAF_TYPES);
    assert Stripped(a, a.version == 1).version == a.version by { StrippedVersion(a); }
    assert Stripped(b, b.version == 1).version == b.version by { StrippedVersion(b); }
  }

  lemma StrippedVersion(a: Asset)
    ensures forall segwit :: Stripped(a, segwit).version == a.version
  {
  }
}
