/** SHA-256 as an arbitrary function from byte strings to 32-byte digests. */
module Hashing {
  import opened Bytes

  type Digest = d: bytes | |d| == 32 witness Zeros(32)

  /** Nothing is known of this function; whatever is proved holds for every hash function. */
  const Sha256: bytes -> Digest

  /** No two different members of this finite set of hashed strings collide. */
  ghost predicate CollisionFree(hashed: set<bytes>) {
    forall x, y :: x in hashed && y in hashed && Sha256(x) == Sha256(y) ==> x == y
  }

  lemma CollisionFreeSubset(small: set<bytes>, big: set<bytes>)
    requires CollisionFree(big) && small <= big
    ensures CollisionFree(small)
  {
  }

  /** The number of levels of a sparse tree keyed by digests. */
  const DEPTH: nat := 256

  /** Bit `i` of a key: the least significant bit of each byte comes first. */
  predicate Bit(key: Digest, i: nat)
    requires i < DEPTH
  {
    ShiftedBit(key[i / 8], i % 8)
  }

  /** `(x >> j) & 1` */
  predicate ShiftedBit(x: nat, j: nat) {
    if j == 0 then x % 2 == 1 else ShiftedBit(x / 2, j - 1)
  }

  /** The keys share their first `h` bits. */
  ghost predicate Agree(k1: Digest, k2: Digest, h: nat)
    requires h <= DEPTH
  {
    forall i: nat :: i < h ==> Bit(k1, i) == Bit(k2, i)
  }

  lemma {:induction false} EqualByBits(x: nat, y: nat, width: nat)
    requires x < Pow2(width) && y < Pow2(width)
    requires forall j: nat :: j < width ==> ShiftedBit(x, j) == ShiftedBit(y, j)
    ensures x == y
  {
    if width > 0 {
      forall j: nat | j < width - 1 ensures ShiftedBit(x / 2, j) == ShiftedBit(y / 2, j) {
        assert ShiftedBit(x, j + 1) == ShiftedBit(y, j + 1);
      }
      EqualByBits(x / 2, y / 2, width - 1);
      assert ShiftedBit(x, 0) == ShiftedBit(y, 0);
    }
  }

  function Pow2(n: nat): nat {
    if n == 0 then 1 else 2 * Pow2(n - 1)
  }

  /** Keys that share all their bits are equal. */
  lemma AgreeOnAllBits(k1: Digest, k2: Digest)
    requires Agree(k1, k2, DEPTH)
    ensures k1 == k2
  {
    forall b | 0 <= b < 32 ensures k1[b] == k2[b] {
      forall j: nat | j < 8 ensures ShiftedBit(k1[b], j) == ShiftedBit(k2[b], j) {
        var i := 8 * b + j;
        assert i / 8 == b && i % 8 == j;
        assert Bit(k1, i) == Bit(k2, i);
      }
      assert Pow2(8) == 256;
      EqualByBits(k1[b], k2[b], 8);
    }
  }
}
