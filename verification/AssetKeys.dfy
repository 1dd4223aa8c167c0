/** What the identifiers of an asset determine, short of a hash collision. */
module AssetKeys {
  import opened Bytes
  import opened Hashing
  import opened Assets

  lemma WireOutPointInjective(o: OutPoint, p: OutPoint)
    requires WireOutPoint(o) == WireOutPoint(p)
    ensures o == p
  {
    hide BigEndian;
    var i, j := BigEndian(o.index, 4), BigEndian(p.index, 4);
    ConcatInjective(o.hash, Reversed(i), p.hash, Reversed(j));
    assert i == j by {
      forall n | 0 <= n < 4 ensures i[n] == j[n] { assert Reversed(i)[3 - n] == Reversed(j)[3 - n]; }
    }
    Pow256Values();
    BigEndianInjective(o.index, p.index, 4);
  }

  lemma IdPreimageParts(g: Genesis, h: Genesis)
    requires IdPreimage(g) == IdPreimage(h)
    ensures g.firstPrevOut == h.firstPrevOut && Sha256(g.tag) == Sha256(h.tag) && g.metaHash == h.metaHash
    ensures g.outputIndex == h.outputIndex && g.assetType == h.assetType
  {
    hide BigEndian, WireOutPoint;
    var o, p := WireOutPoint(g.firstPrevOut), WireOutPoint(h.firstPrevOut);
    var i, j := BigEndian(g.outputIndex, 4), BigEndian(h.outputIndex, 4);
    ConcatInjective(o + Sha256(g.tag) + g.metaHash + i, [g.assetType],
                    p + Sha256(h.tag) + h.metaHash + j, [h.assetType]);
    ConcatInjective(o + Sha256(g.tag) + g.metaHash, i, p + Sha256(h.tag) + h.metaHash, j);
    ConcatInjective(o + Sha256(g.tag), g.metaHash, p + Sha256(h.tag), h.metaHash);
    ConcatInjective(o, Sha256(g.tag), p, Sha256(h.tag));
    WireOutPointInjective(g.firstPrevOut, h.firstPrevOut);
    Pow256Values();
    BigEndianInjective(g.outputIndex, h.outputIndex, 4);
  }

  /** An asset ID is that of one genesis only. */
  lemma AssetIdBinds(g: Genesis, h: Genesis)
    requires CollisionFree({IdPreimage(g), g.tag, IdPreimage(h), h.tag})
    ensures AssetId(g) == AssetId(h) <==> g == h
  {
    if AssetId(g) == AssetId(h) {
      assert IdPreimage(g) == IdPreimage(h);
      IdPreimageParts(g, h);
    }
  }

  function TapKeyPreimage(a: Asset): bytes {
    match a.groupKey
    case Some(k) => XOnly(k)
    case None => IdPreimage(a.genesis)
  }

  function AssetKeyPreimage(a: Asset): bytes {
    match a.groupKey
    case Some(_) => AssetId(a.genesis) + XOnly(a.scriptKey)
    case None => XOnly(a.scriptKey)
  }

  /** The same group or none, the same asset ID and the same script key, up to parity of the keys. */
  ghost predicate SameSlot(a: Asset, b: Asset) {
    && a.groupKey.Some? == b.groupKey.Some?
    && (a.groupKey.Some? ==> XOnly(a.groupKey.value) == XOnly(b.groupKey.value))
    && AssetId(a.genesis) == AssetId(b.genesis)
    && XOnly(a.scriptKey) == XOnly(b.scriptKey)
  }

  /** Two assets meet in one place of a commitment exactly when group, asset ID and script key agree. */
  lemma PlaceBinds(a: Asset, b: Asset)
    requires CollisionFree({TapKeyPreimage(a), AssetKeyPreimage(a), TapKeyPreimage(b), AssetKeyPreimage(b)})
    ensures TapCommitmentKey(a) == TapCommitmentKey(b) && AssetCommitmentKey(a) == AssetCommitmentKey(b)
            <==> SameSlot(a, b)
  {
    hide BigEndian, WireOutPoint;
    if TapCommitmentKey(a) == TapCommitmentKey(b) && AssetCommitmentKey(a) == AssetCommitmentKey(b) {
      assert TapKeyPreimage(a) == TapKeyPreimage(b) && AssetKeyPreimage(a) == AssetKeyPreimage(b);
      assert |IdPreimage(a.genesis)| == |IdPreimage(b.genesis)| == 105;
      if a.groupKey.Some? && b.groupKey.Some? {
        ConcatInjective(AssetId(a.genesis), XOnly(a.scriptKey), AssetId(b.genesis), XOnly(b.scriptKey));
      }
    }
  }
}
