/** The list of alternative leaves as one record: counted, each leaf with its length, script keys unique. */
module AltLeafCodec {
  import opened Bytes
  import opened Tlv
  import opened Assets
  import opened AssetCodec

  const MAX_RECORD: nat := 0xffff

  /** The smallest leaf, with its length prefix. */
  const MIN_LEAF: nat := 40

  ghost predicate DistinctScriptKeys(ls: seq<Asset>) {
    forall i, j :: 0 <= i < j < |ls| ==> ls[i].scriptKey != ls[j].scriptKey
  }

  ghost function WriteLeaves(ls: seq<Asset>): Option<bytes> {
    if ls == [] then Some([]) else
    var front :- WriteLeaves(ls[..|ls| - 1]);
    var leaf :- EncodeAltLeaf(ls[|ls| - 1]);
    Some(front + Inline(leaf))
  }

  ghost function Encoded(ls: seq<Asset>): Option<bytes> {
    if !DistinctScriptKeys(ls) then None else
    var leaves :- WriteLeaves(ls);
    Some(BigSize(|ls|) + leaves)
  }

  lemma WriteStep(ls: seq<Asset>, i: nat)
    requires i < |ls|
    ensures WriteLeaves(ls[..0]) == Some([])
    ensures WriteLeaves(ls[..i + 1]) ==
              match (WriteLeaves(ls[..i]), EncodeAltLeaf(ls[i]))
              case (Some(front), Some(leaf)) => Some(front + Inline(leaf))
              case _ => None
  {
    hide EncodeAltLeaf;
    assert ls[..i + 1][..i] == ls[..i];
  }

  lemma {:induction false} WriteFails(ls: seq<Asset>, i: nat)
    requires i <= |ls| && WriteLeaves(ls[..i]) == None
    ensures WriteLeaves(ls) == None
    decreases |ls| - i
  {
    hide EncodeAltLeaf;
    if i < |ls| {
      WriteStep(ls, i);
      WriteFails(ls, i + 1);
    } else {
      assert ls[..i] == ls;
    }
  }

  /** Writes the leaves one after the other; fails on a repeated script key. */
  method EncodeAltLeaves(ls: seq<Asset>) returns (r: Option<bytes>)
    ensures r == Encoded(ls)
  {
    hide EncodeAltLeaf, WriteLeaves;
    var out := BigSize(|ls|);
    ghost var leaves: bytes := [];
    var keys: set<PubKey> := {};
    var i := 0;
    assert ls[..0] == [];
    assert WriteLeaves([]) == Some([]) by { NothingToWrite(); }
    while i < |ls|
      invariant 0 <= i <= |ls| && DistinctScriptKeys(ls[..i])
      invariant keys == set l | l in ls[..i] :: l.scriptKey
      invariant WriteLeaves(ls[..i]) == Some(leaves) && out == BigSize(|ls|) + leaves
    {
      var l := ls[i];
      assert ls[..i + 1] == ls[..i] + [l];
      if l.scriptKey in keys {
        assert !DistinctScriptKeys(ls);
        return None;
      }
      WriteStep(ls, i);
      var leaf := EncodeAltLeaf(l);
      if leaf == None {
        WriteFails(ls, i + 1);
        return None;
      }
      keys := keys + {l.scriptKey};
      out := out + Inline(leaf.value);
      leaves := leaves + Inline(leaf.value);
      i := i + 1;
    }
    assert ls[..i] == ls;
    return Some(out);
  }

  lemma NothingToWrite()
    ensures WriteLeaves([]) == Some([])
  {
  }

  ghost function ReadLeaves(b: bytes, n: nat): Option<(seq<Asset>, bytes)> {
    if n == 0 then Some(([], b)) else
    var (front, rest) :- ReadLeaves(b, n - 1);
    var (leaf, after) :- ReadInline(rest, MAX_RECORD);
    var a :- DecodeAsset(leaf);
    Some((front + [a], after))
  }

  ghost function Decoded(b: bytes): Option<seq<Asset>> {
    if |b| > MAX_RECORD then None else
    var (n, rest) :- ReadBigSize(b);
    if n > |b| / MIN_LEAF then None else
    var (ls, after) :- ReadLeaves(rest, n);
    if DistinctScriptKeys(ls) && after == [] then Some(ls) else None
  }

  lemma {:induction false} ReadFails(b: bytes, i: nat, n: nat)
    requires i <= n
    ensures ReadLeaves(b, i) == None ==> ReadLeaves(b, n) == None
    ensures ReadLeaves(b, i).Some? && !DistinctScriptKeys(ReadLeaves(b, i).value.0) && ReadLeaves(b, n).Some? ==>
              !DistinctScriptKeys(ReadLeaves(b, n).value.0)
    decreases n - i
  {
    hide DecodeAsset, ReadInline;
    if i < n {
      ReadFails(b, i, n - 1);
      if ReadLeaves(b, n).Some? {
        var ls := ReadLeaves(b, n).value.0;
        assert ls == ls[..|ls| - 1] + [ls[|ls| - 1]];
        StillRepeated(ls[..|ls| - 1], ls[|ls| - 1]);
      }
    }
  }

  lemma StillRepeated(ls: seq<Asset>, a: Asset)
    ensures !DistinctScriptKeys(ls) ==> !DistinctScriptKeys(ls + [a])
    ensures (exists l :: l in ls && l.scriptKey == a.scriptKey) ==> !DistinctScriptKeys(ls + [a])
  {
    var all := ls + [a];
    if DistinctScriptKeys(all) {
      forall i, j | 0 <= i < j < |ls| ensures ls[i].scriptKey != ls[j].scriptKey {
        assert all[i] == ls[i] && all[j] == ls[j];
      }
      forall i | 0 <= i < |ls| ensures ls[i].scriptKey != a.scriptKey { assert all[i] == ls[i] && all[|ls|] == a; }
    }
  }

  /** Reads the announced number of leaves, which the length of the record bounds. */
  method DecodeAltLeaves(b: bytes) returns (r: Option<seq<Asset>>)
    ensures r == Decoded(b)
  {
    hide DecodeAsset, ReadInline, ReadBigSize;
    if |b| > MAX_RECORD { return None; }
    var head := ReadBigSize(b);
    if head == None { return None; }
    var (n, start) := head.value;
    if n > |b| / MIN_LEAF { return None; }
    var ls: seq<Asset>, rest := [], start;
    var keys: set<PubKey> := {};
    var i := 0;
    while i < n
      invariant 0 <= i <= n && ReadLeaves(start, i) == Some((ls, rest))
      invariant DistinctScriptKeys(ls) && keys == set l | l in ls :: l.scriptKey
    {
      ReadFails(start, i + 1, n);
      var next := ReadInline(rest, MAX_RECORD);
      if next == None { return None; }
      var a := DecodeAsset(next.value.0);
      if a == None { return None; }
      var all := ls + [a.value];
      if a.value.scriptKey in keys {
        StillRepeated(ls, a.value);
        return None;
      }
      keys := keys + {a.value.scriptKey};
      ls, rest := all, next.value.1;
      i := i + 1;
    }
    if rest != [] { return None; }
    return Some(ls);
  }

  // ----- Round trip -----

  /** A leaf that fits the decoder's limits and leaves out only default values. */
  ghost predicate DecodableLeaf(a: Asset) {
    DecodableAsset(a, false) && OmittedAreDefault(a, ALT_LEAF_TYPES)
  }

  lemma LeafRoundTrip(a: Asset)
    requires DecodableLeaf(a)
    ensures EncodeAltLeaf(a).Some? && DecodeAsset(EncodeAltLeaf(a).value) == Some(a)
    ensures |EncodeAltLeaf(a).value| >= MIN_LEAF - 1
  {
    hide DecodeAsset, DecodableAsset, EncodeFields, EncodeWitnessList, AssetField;
    AssetRoundTrip(a, false, ALT_LEAF_TYPES);
    assert Stripped(a, false) == a by { assert StripAll(a.prevWitnesses, false) == a.prevWitnesses; }
    LeafLength(a, EncodeWitnessList(a.prevWitnesses, false).value);
  }

  lemma LeafLength(a: Asset, witnesses: bytes)
    requires a.unknownOddTypes.Keys !! ALT_LEAF_TYPES
    ensures |EncodeFields(AssetFields(a, witnesses, ALT_LEAF_TYPES) + a.unknownOddTypes)| >= MIN_LEAF - 1
  {
    hide EncodeFields, BigEndian;
    var m := AssetFields(a, witnesses, ALT_LEAF_TYPES) + a.unknownOddTypes;
    assert m[LEAF_SCRIPT_VERSION] == BigEndian(a.scriptVersion, 2) && m[LEAF_SCRIPT_KEY] == a.scriptKey;
    FieldsLength(m, LEAF_SCRIPT_VERSION);
    FieldsLength(m - {LEAF_SCRIPT_VERSION}, LEAF_SCRIPT_KEY);
  }

  lemma {:induction false} LeavesRoundTrip(ls: seq<Asset>, rest: bytes)
    requires forall i :: 0 <= i < |ls| ==> DecodableLeaf(ls[i])
    ensures WriteLeaves(ls).Some? && |WriteLeaves(ls).value| >= MIN_LEAF * |ls|
    ensures |WriteLeaves(ls).value| <= MAX_RECORD ==> ReadLeaves(WriteLeaves(ls).value + rest, |ls|) == Some((ls, rest))
  {
    hide EncodeAltLeaf, DecodeAsset, Inline, ReadInline, DecodableLeaf;
    if ls == [] {
      assert [] + rest == rest;
    } else {
      var front, last := ls[..|ls| - 1], ls[|ls| - 1];
      LeafRoundTrip(last);
      var leaf := EncodeAltLeaf(last).value;
      LeavesRoundTrip(front, Inline(leaf) + rest);
      assert WriteLeaves(front).value + (Inline(leaf) + rest) == WriteLeaves(ls).value + rest;
      if |WriteLeaves(ls).value| <= MAX_RECORD { InlineRoundTrip(leaf, MAX_RECORD, rest); }
      assert ls == front + [last];
    }
  }

  /** A list of decodable leaves with distinct script keys survives exactly when its encoding fits one record. */
  lemma AltLeavesRoundTripIff(ls: seq<Asset>)
    requires (forall i :: 0 <= i < |ls| ==> DecodableLeaf(ls[i])) && DistinctScriptKeys(ls)
    ensures Encoded(ls).Some?
    ensures Decoded(Encoded(ls).value) == Some(ls) <==> |Encoded(ls).value| <= MAX_RECORD
  {
    hide BigSize, ReadBigSize, WriteLeaves, ReadLeaves, DecodableLeaf;
    LeavesRoundTrip(ls, []);
    var leaves := WriteLeaves(ls).value;
    assert leaves + [] == leaves;
    if |Encoded(ls).value| <= MAX_RECORD { BigSizeRoundTrip(|ls|, leaves); }
  }
}
