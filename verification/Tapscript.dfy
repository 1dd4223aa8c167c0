/** Tapscript hashes as BIP 341 defines them: tagged, with sorted branches. */
module Tapscript {
  import opened Bytes
  import opened Hashing

  function TaggedPreimage(tag: bytes, data: bytes): bytes {
    Sha256(tag) + Sha256(tag) + data
  }

  function TaggedHash(tag: bytes, data: bytes): Digest {
    Sha256(TaggedPreimage(tag, data))
  }

  // "TapLeaf" and "TapBranch"
  const TAG_TAP_LEAF: bytes := [0x54, 0x61, 0x70, 0x4c, 0x65, 0x61, 0x66]
  const TAG_TAP_BRANCH: bytes := [0x54, 0x61, 0x70, 0x42, 0x72, 0x61, 0x6e, 0x63, 0x68]

  const BASE_LEAF_VERSION: byte := 0xc0

  /** Leaf version and script, whose length prefix is one byte for every script built here. */
  function LeafData(script: bytes): bytes
    requires |script| < 0xfd
  {
    [BASE_LEAF_VERSION] + [|script|] + script
  }

  function TapLeafHash(script: bytes): Digest
    requires |script| < 0xfd
  {
    TaggedHash(TAG_TAP_LEAF, LeafData(script))
  }

  /** Lexicographic order on byte strings. */
  predicate LexLess(a: bytes, b: bytes) {
    b != [] && (a == [] || a[0] < b[0] || (a[0] == b[0] && LexLess(a[1..], b[1..])))
  }

  function BranchData(l: Digest, r: Digest): bytes {
    if LexLess(r, l) then r + l else l + r
  }

  function TapBranchHash(l: Digest, r: Digest): Digest {
    TaggedHash(TAG_TAP_BRANCH, BranchData(l, r))
  }

  lemma {:induction false} LexTotal(a: bytes, b: bytes)
    requires a != b
    ensures LexLess(a, b) || LexLess(b, a)
    ensures !(LexLess(a, b) && LexLess(b, a))
  {
    if a != [] && b != [] && a[0] == b[0] {
      assert a == [a[0]] + a[1..] && b == [b[0]] + b[1..];
      LexTotal(a[1..], b[1..]);
    }
  }

  lemma {:induction false} LexIrreflexive(a: bytes)
    ensures !LexLess(a, a)
  {
    if a != [] { LexIrreflexive(a[1..]); }
  }

  lemma {:induction false} LexTransitive(a: bytes, b: bytes, c: bytes)
    requires LexLess(a, b) && LexLess(b, c)
    ensures LexLess(a, c)
  {
    if a != [] && a[0] == b[0] == c[0] { LexTransitive(a[1..], b[1..], c[1..]); }
  }

  /** The order of the two children does not matter. */
  lemma BranchCommutes(l: Digest, r: Digest)
    ensures TapBranchHash(l, r) == TapBranchHash(r, l)
  {
    if l != r { LexTotal(l, r); }
  }

  // ----- What is hashed, and what it pins down -----

  function TapBranchPreimage(l: Digest, r: Digest): bytes {
    TaggedPreimage(TAG_TAP_BRANCH, BranchData(l, r))
  }

  function TapLeafPreimage(script: bytes): bytes
    requires |script| < 0xfd
  {
    TaggedPreimage(TAG_TAP_LEAF, LeafData(script))
  }

  lemma BranchDataPairs(l: Digest, r: Digest, l': Digest, r': Digest)
    requires TapBranchPreimage(l, r) == TapBranchPreimage(l', r')
    ensures (l == l' && r == r') || (l == r' && r == l')
  {
    hide LexLess;
    var tag := Sha256(TAG_TAP_BRANCH) + Sha256(TAG_TAP_BRANCH);
    ConcatInjective(tag, BranchData(l, r), tag, BranchData(l', r'));
    var a, b := if LexLess(r, l) then r else l, if LexLess(r, l) then l else r;
    var c, d := if LexLess(r', l') then r' else l', if LexLess(r', l') then l' else r';
    ConcatInjective(a, b, c, d);
  }

  lemma LeafPreimagePinsScript(s: bytes, s': bytes)
    requires |s| == |s'| < 0xfd && TapLeafPreimage(s) == TapLeafPreimage(s')
    ensures s == s'
  {
    var tag := Sha256(TAG_TAP_LEAF) + Sha256(TAG_TAP_LEAF);
    ConcatInjective(tag, LeafData(s), tag, LeafData(s'));
    ConcatInjective([BASE_LEAF_VERSION] + [|s|], s, [BASE_LEAF_VERSION] + [|s'|], s');
  }

  /** A leaf and a branch hash strings of different lengths, unless the script has 62 bytes. */
  lemma LeafIsNotBranch(s: bytes, l: Digest, r: Digest)
    requires |s| < 0xfd && |s| != 62
    ensures TapLeafPreimage(s) != TapBranchPreimage(l, r)
  {
    assert |TapLeafPreimage(s)| == 66 + |s| && |TapBranchPreimage(l, r)| == 128;
  }

  lemma BranchesFromPreimages(l: Digest, r: Digest, l': Digest, r': Digest, hashed: set<bytes>)
    requires TapBranchHash(l, r) == TapBranchHash(l', r') && CollisionFree(hashed)
    requires TapBranchPreimage(l, r) in hashed && TapBranchPreimage(l', r') in hashed
    ensures (l == l' && r == r') || (l == r' && r == l')
  {
    BranchDataPairs(l, r, l', r');
  }
}
