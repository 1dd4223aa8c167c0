/** The tapscript tree of a group key, which pins down one genesis asset, and the reveal that carries it. */
module GroupKey {
  import opened Bytes
  import opened Hashing
  import opened Tlv
  import opened Assets
  import opened Tapscript

  const OP_RETURN_VERSION: byte := 1
  const PEDERSEN_VERSION: byte := 2

  const OP_RETURN: byte := 0x6a
  const OP_CHECKSIG: byte := 0xac

  /** The x-only child key derived from the Pedersen commitment to a message, which nobody can sign for. */
  const UnsignableKey: Digest -> Digest

  /** A script that cannot be satisfied, with optional data. The data is an asset ID wherever it is given. */
  function NonSpendScript(version: byte, data: Option<Digest>): (r: Option<bytes>)
    ensures r.Some? ==> |r.value| <= 34
    ensures r.Some? && data.Some? ==> |r.value| == 34
  {
    if version == OP_RETURN_VERSION then
      Some(match data
           case None => [OP_RETURN]
           case Some(d) => [OP_RETURN] + [32] + d)
    else if version == PEDERSEN_VERSION then
      Some([32] + UnsignableKey(match data case None => Zeros(32) case Some(d) => d) + [OP_CHECKSIG])
    else None
  }

  function LeafHash(version: byte, data: Option<Digest>): Option<Digest> {
    var script :- NonSpendScript(version, data);
    Some(TapLeafHash(script))
  }

  datatype RevealTree = RevealTree(version: byte, root: Digest, customRoot: Option<Digest>)

  /** The tree, and the path from the custom root to its root; None for an unknown version. */
  function NewTapscriptRoot(version: byte, assetId: Digest, customRoot: Option<Digest>)
    : Option<(RevealTree, seq<Digest>)>
  {
    var empty :- LeafHash(version, None);
    var id :- LeafHash(version, Some(assetId));
    var root := match customRoot
                case None => id
                case Some(c) => TapBranchHash(id, TapBranchHash(empty, c));
    Some((RevealTree(version, root, customRoot), [empty, id]))
  }

  predicate Validate(t: RevealTree, assetId: Digest) {
    var made := NewTapscriptRoot(t.version, assetId, t.customRoot);
    made.Some? && made.value.0.root == t.root
  }

  // ----- The root pins down what it was made from -----

  /** What is hashed to make the root. */
  ghost function Hashed(version: byte, assetId: Digest, customRoot: Option<Digest>): set<bytes>
    requires NonSpendScript(version, Some(assetId)).Some?
  {
    var empty := LeafHash(version, None).value;
    var id := LeafHash(version, Some(assetId)).value;
    {TapLeafPreimage(NonSpendScript(version, Some(assetId)).value)}
    + match customRoot
      case None => {}
      case Some(c) => {TapBranchPreimage(empty, c), TapBranchPreimage(id, TapBranchHash(empty, c))}
  }

  /** Under one version the script of an asset ID determines it, and versions cannot be confused. */
  lemma ScriptPinsId(v: byte, id: Digest, v': byte, id': Digest)
    requires NonSpendScript(v, Some(id)).Some? && NonSpendScript(v, Some(id)) == NonSpendScript(v', Some(id'))
    requires UnsignableKey(id) == UnsignableKey(id') ==> id == id'
    ensures v == v' && id == id'
  {
    var s, s' := NonSpendScript(v, Some(id)).value, NonSpendScript(v', Some(id')).value;
    assert s[0] == s'[0];
    if v == OP_RETURN_VERSION {
      assert s[2..] == id && s'[2..] == id';
    } else {
      assert s[1..33] == UnsignableKey(id) && s'[1..33] == UnsignableKey(id');
    }
  }

  lemma LeavesPinId(v: byte, id: Digest, v': byte, id': Digest, hashed: set<bytes>)
    requires NonSpendScript(v, Some(id)).Some? && NonSpendScript(v', Some(id')).Some?
    requires LeafHash(v, Some(id)) == LeafHash(v', Some(id'))
    requires TapLeafPreimage(NonSpendScript(v, Some(id)).value) in hashed
    requires TapLeafPreimage(NonSpendScript(v', Some(id')).value) in hashed
    requires CollisionFree(hashed)
    requires UnsignableKey(id) == UnsignableKey(id') ==> id == id'
    ensures v == v' && id == id'
  {
    hide NonSpendScript;
    LeafPreimagePinsScript(NonSpendScript(v, Some(id)).value, NonSpendScript(v', Some(id')).value);
    ScriptPinsId(v, id, v', id');
  }

  lemma LeafHashIsNotBranchHash(v: byte, id: Digest, l: Digest, r: Digest, hashed: set<bytes>)
    requires NonSpendScript(v, Some(id)).Some? && CollisionFree(hashed)
    requires TapLeafPreimage(NonSpendScript(v, Some(id)).value) in hashed && TapBranchPreimage(l, r) in hashed
    ensures LeafHash(v, Some(id)).value != TapBranchHash(l, r)
  {
    hide NonSpendScript, LexLess, BranchData, LeafData;
    LeafIsNotBranch(NonSpendScript(v, Some(id)).value, l, r);
  }

  lemma CustomTreesPinned(v: byte, id: Digest, c: Digest, v': byte, id': Digest, c': Digest)
    requires NewTapscriptRoot(v, id, Some(c)).Some? && NewTapscriptRoot(v', id', Some(c')).Some?
    requires CollisionFree(Hashed(v, id, Some(c)) + Hashed(v', id', Some(c')))
    requires UnsignableKey(id) == UnsignableKey(id') ==> id == id'
    requires NewTapscriptRoot(v, id, Some(c)).value.0.root == NewTapscriptRoot(v', id', Some(c')).value.0.root
    ensures v == v' && id == id' && c == c'
  {
    hide NonSpendScript, TapLeafPreimage, TapBranchPreimage, TapLeafHash, TapBranchHash;
    var hashed := Hashed(v, id, Some(c)) + Hashed(v', id', Some(c'));
    var leaf, leaf' := LeafHash(v, Some(id)).value, LeafHash(v', Some(id')).value;
    var empty, empty' := LeafHash(v, None).value, LeafHash(v', None).value;
    BranchesFromPreimages(leaf, TapBranchHash(empty, c), leaf', TapBranchHash(empty', c'), hashed);
    LeafHashIsNotBranchHash(v, id, empty', c', hashed);
    LeavesPinId(v, id, v', id', hashed);
    BranchesFromPreimages(empty, c, empty', c', hashed);
  }

  lemma PlainTreeIsNotCustomTree(v: byte, id: Digest, v': byte, id': Digest, c': Digest)
    requires NewTapscriptRoot(v, id, None).Some? && NewTapscriptRoot(v', id', Some(c')).Some?
    requires CollisionFree(Hashed(v, id, None) + Hashed(v', id', Some(c')))
    ensures NewTapscriptRoot(v, id, None).value.0.root != NewTapscriptRoot(v', id', Some(c')).value.0.root
  {
    hide NonSpendScript, TapLeafPreimage, TapBranchPreimage, TapLeafHash, TapBranchHash;
    var leaf', empty' := LeafHash(v', Some(id')).value, LeafHash(v', None).value;
    LeafHashIsNotBranchHash(v, id, leaf', TapBranchHash(empty', c'), Hashed(v, id, None) + Hashed(v', id', Some(c')));
  }

  /** Two trees have one root exactly when leaf version, asset ID and custom root all agree. */
  lemma RootPinsTree(v: byte, id: Digest, c: Option<Digest>, v': byte, id': Digest, c': Option<Digest>)
    requires NewTapscriptRoot(v, id, c).Some? && NewTapscriptRoot(v', id', c').Some?
    requires CollisionFree(Hashed(v, id, c) + Hashed(v', id', c'))
    requires UnsignableKey(id) == UnsignableKey(id') ==> id == id'
    ensures NewTapscriptRoot(v, id, c).value.0.root == NewTapscriptRoot(v', id', c').value.0.root
            <==> v == v' && id == id' && c == c'
  {
    hide NonSpendScript, TapLeafPreimage, TapBranchPreimage, TapLeafHash, TapBranchHash;
    if NewTapscriptRoot(v, id, c).value.0.root == NewTapscriptRoot(v', id', c').value.0.root {
      var hashed := Hashed(v, id, c) + Hashed(v', id', c');
      if c == None && c' == None {
        LeavesPinId(v, id, v', id', hashed);
      } else if c == None {
        PlainTreeIsNotCustomTree(v, id, v', id', c'.value);
      } else if c' == None {
        assert hashed == Hashed(v', id', None) + Hashed(v, id, c);
        PlainTreeIsNotCustomTree(v', id', v, id, c.value);
      } else {
        CustomTreesPinned(v, id, c.value, v', id', c'.value);
      }
    }
  }

  /** A tree that validates for one asset ID validates for no other. */
  lemma ValidForOneId(t: RevealTree, id: Digest, id': Digest)
    requires Validate(t, id) && Validate(t, id')
    requires CollisionFree(Hashed(t.version, id, t.customRoot) + Hashed(t.version, id', t.customRoot))
    requires UnsignableKey(id) == UnsignableKey(id') ==> id == id'
    ensures id == id'
  {
    hide NewTapscriptRoot, Hashed;
    RootPinsTree(t.version, id, t.customRoot, t.version, id', t.customRoot);
  }

  // ----- Spending under the custom root -----

  /** Climbing a path as the script validation rules of BIP 341 do: k becomes the branch of k and the next hash. */
  function Fold(k: Digest, path: seq<Digest>): Digest
    decreases path
  {
    if path == [] then k else Fold(TapBranchHash(k, path[0]), path[1..])
  }

  lemma {:induction false} FoldAppend(k: Digest, path: seq<Digest>, more: seq<Digest>)
    ensures Fold(k, path + more) == Fold(Fold(k, path), more)
    decreases path
  {
    hide TapBranchHash;
    if path == [] {
      assert path + more == more;
    } else {
      assert (path + more)[1..] == path[1..] + more;
      FoldAppend(TapBranchHash(k, path[0]), path[1..], more);
    }
  }

  /** Whatever leads to the custom root leads, through the inclusion proof, to the root of the tree. */
  lemma InclusionProofReachesRoot(version: byte, id: Digest, custom: Digest, leaf: Digest, path: seq<Digest>)
    requires NewTapscriptRoot(version, id, Some(custom)).Some?
    requires Fold(leaf, path) == custom
    ensures var (tree, proof) := NewTapscriptRoot(version, id, Some(custom)).value;
            Fold(leaf, path + proof) == tree.root
  {
    hide TapBranchHash, NonSpendScript;
    var (tree, proof) := NewTapscriptRoot(version, id, Some(custom)).value;
    FoldAppend(leaf, path, proof);
    var empty, idLeaf := proof[0], proof[1];
    assert proof[1..] == [idLeaf] && proof[1..][1..] == [];
    assert Fold(custom, proof) == Fold(TapBranchHash(custom, empty), [idLeaf]);
    assert Fold(TapBranchHash(custom, empty), [idLeaf]) == TapBranchHash(TapBranchHash(custom, empty), idLeaf);
    BranchCommutes(custom, empty);
    BranchCommutes(TapBranchHash(empty, custom), idLeaf);
  }

  /** The key an internal key and a script root are tweaked into, as BIP 341 defines it. */
  const TaprootOutputKey: (PubKey, Digest) -> PubKey

  datatype ControlBlock = ControlBlock(internalKey: PubKey, outputKeyIsOdd: bool, leafVersion: byte, proof: seq<Digest>)

  datatype RevealV1 = RevealV1(version: byte, internalKey: PubKey, root: Digest, customRoot: Option<Digest>) {
    function Tree(): RevealTree {
      RevealTree(version, root, customRoot)
    }
  }

  function ScriptSpendControlBlock(g: RevealV1, assetId: Digest): Option<ControlBlock> {
    if !ParsesAsKey(g.internalKey) then None else
    var odd := TaprootOutputKey(g.internalKey, g.root)[0] == 3;
    var (tree, proof) :- NewTapscriptRoot(g.version, assetId, g.customRoot);
    if tree.root != g.root then None
    else Some(ControlBlock(g.internalKey, odd, BASE_LEAF_VERSION, proof))
  }

  /**
   * A control block is given out exactly for a valid reveal, and a spend that extends its proof with
   * a path below the custom root commits to the very output key, parity included.
   */
  lemma ControlBlockSpends(g: RevealV1, assetId: Digest, script: bytes, path: seq<Digest>)
    requires |script| < 0xfd
    ensures ScriptSpendControlBlock(g, assetId).Some? <==> ParsesAsKey(g.internalKey) && Validate(g.Tree(), assetId)
    ensures ScriptSpendControlBlock(g, assetId).Some? && g.customRoot == Some(Fold(TapLeafHash(script), path)) ==>
              var cb := ScriptSpendControlBlock(g, assetId).value;
              var q := TaprootOutputKey(cb.internalKey, Fold(TapLeafHash(script), path + cb.proof));
              q == TaprootOutputKey(g.internalKey, g.root) && cb.outputKeyIsOdd == (q[0] == 3)
    ensures ScriptSpendControlBlock(g, assetId).Some? ==>
              var cb := ScriptSpendControlBlock(g, assetId).value;
              cb.internalKey == g.internalKey && cb.leafVersion == 0xc0
  {
    hide Fold, TapLeafHash, TapBranchHash, NonSpendScript;
    if ScriptSpendControlBlock(g, assetId).Some? && g.customRoot == Some(Fold(TapLeafHash(script), path)) {
      InclusionProofReachesRoot(g.version, assetId, g.customRoot.value, TapLeafHash(script), path);
    }
  }

  // ----- Encoding a reveal -----

  datatype Reveal = V0(rawKey: PubKey, tapscriptRoot: bytes) | V1(body: RevealV1)

  const GKR_VERSION: nat := 0
  const GKR_INTERNAL_KEY: nat := 2
  const GKR_TAPSCRIPT_ROOT: nat := 4
  const GKR_CUSTOM_SUBTREE_ROOT: nat := 7

  function RevealFields(g: RevealV1): Fields {
    map[GKR_VERSION := [g.version], GKR_INTERNAL_KEY := g.internalKey, GKR_TAPSCRIPT_ROOT := g.root]
    + match g.customRoot
      case None => map[]
      case Some(c) => map[GKR_CUSTOM_SUBTREE_ROOT := c]
  }

  function EncodeReveal(g: Reveal): bytes {
    match g
    case V0(key, root) => key + root
    case V1(v1) => EncodeFields(RevealFields(v1))
  }

  const MAX_V0: nat := 33 + 32

  function DecodeV0(b: bytes): Option<Reveal> {
    if |b| > MAX_V0 || |b| < 33 then None
    else if b[..33] == NIL_KEY || ParsesAsKey(b[..33]) then Some(V0(b[..33], b[33..]))
    else None
  }

  /** A record of a fixed length, or zeroes where it is missing. */
  function FixedField(m: Fields, typ: nat, width: nat): (r: Option<bytes>)
    ensures r.Some? ==> |r.value| == width
  {
    if typ !in m then Some(Zeros(width)) else if |m[typ]| == width then Some(m[typ]) else None
  }

  /** Records of other types are skipped. A custom root of zeroes counts as none. */
  function DecodeV1(b: bytes): Option<Reveal> {
    var m :- ParseFields(b);
    var version :- FixedField(m, GKR_VERSION, 1);
    var key :- FixedField(m, GKR_INTERNAL_KEY, 33);
    var root :- FixedField(m, GKR_TAPSCRIPT_ROOT, 32);
    var custom :- FixedField(m, GKR_CUSTOM_SUBTREE_ROOT, 32);
    Some(V1(RevealV1(version[0], key, root, if custom == Zeros(32) then None else Some(custom))))
  }

  /** The length alone decides how a reveal is read. */
  function DecodeReveal(b: bytes): Option<Reveal> {
    if |b| <= MAX_V0 then DecodeV0(b) else DecodeV1(b)
  }

  /** A version 1 reveal is always too long to be read as a version 0 one. */
  lemma V1IsNotReadAsV0(g: RevealV1)
    ensures |EncodeReveal(V1(g))| == if g.customRoot == None then 72 else 106
    ensures DecodeV0(EncodeReveal(V1(g))) == None && DecodeReveal(EncodeReveal(V1(g))) == DecodeV1(EncodeReveal(V1(g)))
  {
    hide EncodeFields, DecodeV1;
    var m := RevealFields(g);
    FieldsLength(m, GKR_VERSION);
    var m1 := m - {GKR_VERSION};
    FieldsLength(m1, GKR_INTERNAL_KEY);
    var m2 := m1 - {GKR_INTERNAL_KEY};
    FieldsLength(m2, GKR_TAPSCRIPT_ROOT);
    var m3 := m2 - {GKR_TAPSCRIPT_ROOT};
    if g.customRoot.Some? {
      FieldsLength(m3, GKR_CUSTOM_SUBTREE_ROOT);
      assert m3 - {GKR_CUSTOM_SUBTREE_ROOT} == map[];
    } else {
      assert m3 == map[];
    }
    NoFields();
  }

  lemma NoFields()
    ensures EncodeFields(map[]) == []
  {
  }

  /** A version 1 reveal survives exactly when its custom root is not the zero hash. */
  lemma V1RoundTripIff(g: RevealV1)
    ensures DecodeReveal(EncodeReveal(V1(g))) == Some(V1(g)) <==> g.customRoot != Some(Zeros(32))
  {
    hide EncodeFields, ParseFields;
    V1IsNotReadAsV0(g);
    FieldsRoundTrip(RevealFields(g));
    assert [g.version][0] == g.version;
  }

  /** A version 0 reveal survives exactly when its root is short enough and its key is absent or a point. */
  lemma V0RoundTripIff(key: PubKey, root: bytes)
    ensures DecodeReveal(EncodeReveal(V0(key, root))) == Some(V0(key, root))
            <==> |root| <= 32 && (key == NIL_KEY || ParsesAsKey(key))
  {
    hide ParseFields;
    assert (key + root)[..33] == key && (key + root)[33..] == root;
  }
}
