/**
 * The type-length-value stream of the "Type-Length-Value Format" section of BOLT 1: minimally
 * encoded BigSize types and lengths, types strictly increasing.
 */
module Tlv {
  import opened Bytes

  datatype Record = Record(typ: nat, value: bytes)

  type Fields = map<nat, bytes>

  // ----- BigSize integers -----

  function BigSize(n: nat): (r: bytes)
    ensures 1 <= |r| <= 9
  {
    if n < 0xfd then [n]
    else if n < U16_LIMIT then [0xfd] + BigEndian(n, 2)
    else if n < U32_LIMIT then [0xfe] + BigEndian(n, 4)
    else [0xff] + BigEndian(n, 8)
  }

  function ReadFixed(b: bytes, width: nat): Option<(nat, bytes)> {
    if |b| < width then None else Some((FromBigEndian(b[..width]), b[width..]))
  }

  /** Refuses an encoding longer than the value needs. */
  function ReadBigSize(b: bytes): (r: Option<(nat, bytes)>)
    ensures r.Some? ==> |r.value.1| < |b|
  {
    if b == [] then None
    else if b[0] < 0xfd then Some((b[0], b[1..]))
    else
      var width := if b[0] == 0xfd then 2 else if b[0] == 0xfe then 4 else 8;
      var floor := if b[0] == 0xfd then 0xfd else if b[0] == 0xfe then U16_LIMIT else U32_LIMIT;
      var (n, rest) :- ReadFixed(b[1..], width);
      if n < floor then None else Some((n, rest))
  }

  lemma FixedRoundTrip(n: nat, width: nat, rest: bytes)
    requires n < Pow256(width)
    ensures ReadFixed(BigEndian(n, width) + rest, width) == Some((n, rest))
  {
    BigEndianRoundTrip(n, width);
    assert (BigEndian(n, width) + rest)[..width] == BigEndian(n, width);
    assert (BigEndian(n, width) + rest)[width..] == rest;
  }

  lemma BigSizeRoundTrip(n: nat, rest: bytes)
    requires n < U64_LIMIT
    ensures ReadBigSize(BigSize(n) + rest) == Some((n, rest))
  {
    hide BigEndian, ReadFixed;
    Pow256Values();
    var b := BigSize(n) + rest;
    if n < 0xfd {
      assert b[1..] == rest;
    } else {
      var width := if n < U16_LIMIT then 2 else if n < U32_LIMIT then 4 else 8;
      assert b[1..] == BigEndian(n, width) + rest;
      FixedRoundTrip(n, width, rest);
    }
  }

  // ----- Length-prefixed byte strings -----

  function Inline(v: bytes): (r: bytes)
    ensures |r| >= |v| + 1
  {
    BigSize(|v|) + v
  }

  function ReadInline(b: bytes, limit: nat): (r: Option<(bytes, bytes)>)
    ensures r.Some? ==> |r.value.0| + |r.value.1| < |b|
  {
    var (n, rest) :- ReadBigSize(b);
    if n > limit || n > |rest| then None else Some((rest[..n], rest[n..]))
  }

  lemma InlineRoundTrip(v: bytes, limit: nat, rest: bytes)
    requires |v| <= limit && |v| < U64_LIMIT
    ensures ReadInline(Inline(v) + rest, limit) == Some((v, rest))
  {
    hide BigSize, ReadBigSize;
    BigSizeRoundTrip(|v|, v + rest);
    assert Inline(v) + rest == BigSize(|v|) + (v + rest);
    assert (v + rest)[..|v|] == v && (v + rest)[|v|..] == rest;
  }

  // ----- Streams -----

  function EncodeRecord(r: Record): bytes {
    BigSize(r.typ) + Inline(r.value)
  }

  function EncodeStream(rs: seq<Record>): bytes {
    if rs == [] then [] else EncodeRecord(rs[0]) + EncodeStream(rs[1..])
  }

  /** `least` is one above the last type seen. */
  function ParseStream(b: bytes, least: nat): (r: Option<seq<Record>>)
    ensures r.Some? ==> forall i :: 0 <= i < |r.value| ==> |r.value[i].value| + 2 <= |b|
    decreases |b|
  {
    if b == [] then Some([]) else
    var (typ, rest) :- ReadBigSize(b);
    if typ < least then None else
    var (v, rest') :- ReadInline(rest, |rest|);
    var tail :- ParseStream(rest', typ + 1);
    Some([Record(typ, v)] + tail)
  }

  ghost predicate Increasing(rs: seq<Record>, least: nat) {
    rs != [] ==> least <= rs[0].typ && Increasing(rs[1..], rs[0].typ + 1)
  }

  ghost predicate Encodable(r: Record) {
    r.typ < U64_LIMIT && |r.value| < U64_LIMIT
  }

  lemma {:induction false} StreamRoundTrip(rs: seq<Record>, least: nat)
    requires Increasing(rs, least)
    requires forall i :: 0 <= i < |rs| ==> Encodable(rs[i])
    ensures ParseStream(EncodeStream(rs), least) == Some(rs)
  {
    hide BigSize, ReadBigSize, Inline, ReadInline;
    if rs != [] {
      var r, tail := rs[0], EncodeStream(rs[1..]);
      var b := EncodeStream(rs);
      assert b == BigSize(r.typ) + (Inline(r.value) + tail);
      BigSizeRoundTrip(r.typ, Inline(r.value) + tail);
      InlineRoundTrip(r.value, |Inline(r.value) + tail|, tail);
      StreamRoundTrip(rs[1..], r.typ + 1);
      assert rs == [r] + rs[1..];
    }
  }

  // ----- Records as a map from types -----

  function AsFields(rs: seq<Record>): (m: Fields)
    ensures forall t :: t in m ==> exists i :: 0 <= i < |rs| && rs[i] == Record(t, m[t])
  {
    if rs == [] then map[] else AsFields(rs[..|rs| - 1])[rs[|rs| - 1].typ := rs[|rs| - 1].value]
  }

  predicate IsLeast(s: set<nat>, k: nat) {
    k in s && forall j :: j in s ==> k <= j
  }

  lemma {:induction false} LeastExists(s: set<nat>)
    requires s != {}
    ensures exists k :: IsLeast(s, k)
  {
    var x :| x in s;
    if s == {x} {
      assert IsLeast(s, x);
    } else {
      assert s - {x} != {};
      LeastExists(s - {x});
      var y :| IsLeast(s - {x}, y);
      assert forall j :: j in s ==> j == x || j in s - {x};
      assert IsLeast(s, if x < y then x else y);
    }
  }

  function Least(s: set<nat>): (k: nat)
    requires s != {}
    ensures IsLeast(s, k)
  {
    LeastExists(s);
    var k :| IsLeast(s, k);
    k
  }

  /** The records of a map in increasing order of type, which is the only order a stream has. */
  function SortedRecords(m: Fields): (rs: seq<Record>)
    ensures |rs| == |m|
    ensures forall i :: 0 <= i < |rs| ==> rs[i].typ in m && m[rs[i].typ] == rs[i].value
    decreases m.Keys
  {
    if m == map[] then [] else
    assert m.Keys != {};
    var k := Least(m.Keys);
    assert |m - {k}| == |m| - 1 by {
      assert (m - {k}).Keys == m.Keys - {k};
      assert |m.Keys - {k}| == |m.Keys| - 1;
    }
    [Record(k, m[k])] + SortedRecords(m - {k})
  }

  lemma {:induction false} SortedIncreasing(m: Fields, least: nat)
    requires forall t :: t in m ==> least <= t
    ensures Increasing(SortedRecords(m), least)
    decreases m.Keys
  {
    if m != map[] {
      var k := Least(m.Keys);
      SortedIncreasing(m - {k}, k + 1);
      assert SortedRecords(m)[1..] == SortedRecords(m - {k});
    }
  }

  lemma AsFieldsLast(rs: seq<Record>, r: Record)
    ensures AsFields(rs + [r]) == AsFields(rs)[r.typ := r.value]
  {
    assert (rs + [r])[..|rs|] == rs;
  }

  lemma SwapUpdates(m: Fields, a: Record, b: Record)
    requires a.typ != b.typ
    ensures m[a.typ := a.value][b.typ := b.value] == m[b.typ := b.value][a.typ := a.value]
  {
  }

  lemma {:induction false} AsFieldsCons(r: Record, rs: seq<Record>)
    requires forall i :: 0 <= i < |rs| ==> rs[i].typ != r.typ
    ensures AsFields([r] + rs) == AsFields(rs)[r.typ := r.value]
  {
    hide AsFields;
    if rs == [] {
      assert [r] + rs == [] + [r] && rs == [];
      AsFieldsLast([], r);
    } else {
      var n := |rs| - 1;
      var front, last := rs[..n], rs[n];
      assert rs == front + [last] && [r] + rs == ([r] + front) + [last];
      AsFieldsCons(r, front);
      AsFieldsLast([r] + front, last);
      AsFieldsLast(front, last);
      SwapUpdates(AsFields(front), r, last);
    }
  }

  lemma {:induction false} AsFieldsSorted(m: Fields)
    ensures AsFields(SortedRecords(m)) == m
    decreases m.Keys
  {
    if m != map[] {
      var k := Least(m.Keys);
      AsFieldsSorted(m - {k});
      AsFieldsCons(Record(k, m[k]), SortedRecords(m - {k}));
      assert (m - {k})[k := m[k]] == m;
    }
  }

  function EncodeFields(m: Fields): bytes {
    EncodeStream(SortedRecords(m))
  }

  lemma FieldsNotEmpty(m: Fields)
    requires m != map[]
    ensures EncodeFields(m) != []
  {
  }

  function ParseFields(b: bytes): (r: Option<Fields>)
    ensures r.Some? ==> forall t :: t in r.value ==> |r.value[t]| + 2 <= |b|
  {
    var rs :- ParseStream(b, 0);
    Some(AsFields(rs))
  }

  /** Any set of fields survives being written as a stream and read back. */
  lemma FieldsRoundTrip(m: Fields)
    requires forall t :: t in m ==> t < U64_LIMIT && |m[t]| < U64_LIMIT
    ensures ParseFields(EncodeFields(m)) == Some(m)
  {
    SortedIncreasing(m, 0);
    StreamRoundTrip(SortedRecords(m), 0);
    AsFieldsSorted(m);
  }

  lemma FirstIsLeast(m: Fields, k: nat)
    requires IsLeast(m.Keys, k)
    ensures SortedRecords(m) == [Record(k, m[k])] + SortedRecords(m - {k})
  {
    assert Least(m.Keys) == k;
  }

  /** The length of an encoding is the sum of its records' lengths. */
  lemma {:induction false} FieldsLength(m: Fields, k: nat)
    requires k in m
    ensures |EncodeFields(m)| == |EncodeRecord(Record(k, m[k]))| + |EncodeFields(m - {k})|
    decreases m.Keys
  {
    hide EncodeRecord;
    var j := Least(m.Keys);
    FirstRecord(m, j);
    if j != k {
      FirstRecord(m - {k}, j);
      FieldsLength(m - {j}, k);
      assert m - {j} - {k} == m - {k} - {j};
    }
  }

  lemma FirstRecord(m: Fields, k: nat)
    requires IsLeast(m.Keys, k)
    ensures |EncodeFields(m)| == |EncodeRecord(Record(k, m[k]))| + |EncodeFields(m - {k})|
  {
    hide EncodeRecord;
    FirstIsLeast(m, k);
    var rs := SortedRecords(m);
    assert rs[0] == Record(k, m[k]) && rs[1..] == SortedRecords(m - {k});
  }
}
