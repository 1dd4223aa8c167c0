/** Keeping unknown records: filtered out of a parsed stream, sorted back into an encoded one. */
module Records {
  import opened Bytes
  import opened Tlv
  import opened Assets

  ghost predicate UnknownEven(parsed: Fields, known: set<nat>, t: nat) {
    t in parsed && t !in known && t % 2 == 0
  }

  /** The first unknown even type met, in any order; none if all are known or odd. */
  method FindUnknownEvenType(parsed: Fields, known: set<nat>) returns (bad: Option<nat>)
    ensures bad.Some? ==> UnknownEven(parsed, known, bad.value)
    ensures bad.None? ==> forall t :: !UnknownEven(parsed, known, t)
  {
    var todo := parsed.Keys;
    while todo != {}
      invariant todo <= parsed.Keys
      invariant forall t :: t in parsed && t !in todo ==> !UnknownEven(parsed, known, t)
      decreases todo
    {
      var t :| t in todo;
      if t % 2 == 0 && t !in known { return Some(t); }
      todo := todo - {t};
    }
    return None;
  }

  method FilterUnknownTypes(parsed: Fields, known: set<nat>) returns (r: Fields)
    ensures r == map t | t in parsed && t !in known :: parsed[t]
  {
    r := map[];
    var todo := parsed.Keys;
    while todo != {}
      invariant todo <= parsed.Keys
      invariant r == map t | t in parsed && t !in todo && t !in known :: parsed[t]
      decreases todo
    {
      var t :| t in todo;
      if t !in known { r := r[t := parsed[t]]; }
      todo := todo - {t};
    }
  }

  /** Decoding an asset strictly: unknown even records are refused, unknown odd ones kept. */
  method StrictDecode(b: bytes) returns (r: Option<Asset>)
    ensures r == DecodeAsset(b)
    ensures r.Some? ==> ParseFields(b).Some? && r.value.unknownOddTypes == UnknownTypes(ParseFields(b).value)
    ensures (exists t :: ParseFields(b).Some? && UnknownEven(ParseFields(b).value, KNOWN_LEAF_TYPES, t)) ==> r == None
  {
    hide ParseFields, DecodeAssetFields;
    var parsed := ParseFields(b);
    if parsed == None { return None; }
    var bad := FindUnknownEvenType(parsed.value, KNOWN_LEAF_TYPES);
    if bad.Some? {
      RefusesUnknownEven(parsed.value, |b|, bad.value);
      return None;
    }
    var unknown := FilterUnknownTypes(parsed.value, KNOWN_LEAF_TYPES);
    assert unknown == UnknownTypes(parsed.value);
    var decoded := DecodeAssetFields(parsed.value, |b|);
    KeepsUnknown(parsed.value, |b|);
    if decoded == None { return None; }
    r := Some(decoded.value.(unknownOddTypes := unknown));
  }

  lemma RefusesUnknownEven(m: Fields, bound: nat, t: nat)
    requires forall u :: u in m ==> |m[u]| < bound
    requires UnknownEven(m, KNOWN_LEAF_TYPES, t)
    ensures DecodeAssetFields(m, bound) == None
  {
  }

  lemma KeepsUnknown(m: Fields, bound: nat)
    requires forall u :: u in m ==> |m[u]| < bound
    ensures DecodeAssetFields(m, bound).Some? ==>
              DecodeAssetFields(m, bound).value.unknownOddTypes == UnknownTypes(m)
  {
    hide DecodeGenesis, DecodeWitnessList, DecodeNode, DecodeKey;
  }

  // ----- Combining -----

  predicate Sorted(rs: seq<Record>) {
    forall i, j :: 0 <= i < j < |rs| ==> rs[i].typ <= rs[j].typ
  }

  /** Puts a record in front of the first one of a larger type. */
  function InsertRecord(rs: seq<Record>, r: Record): seq<Record> {
    if rs == [] || r.typ < rs[0].typ then [r] + rs else [rs[0]] + InsertRecord(rs[1..], r)
  }

  lemma {:induction false} InsertAdds(rs: seq<Record>, r: Record)
    ensures multiset(InsertRecord(rs, r)) == multiset(rs) + multiset{r}
  {
    if rs != [] && r.typ >= rs[0].typ {
      InsertAdds(rs[1..], r);
      assert rs == [rs[0]] + rs[1..];
    }
  }

  lemma {:induction false} InsertBound(rs: seq<Record>, r: Record, least: nat)
    requires least <= r.typ && forall i :: 0 <= i < |rs| ==> least <= rs[i].typ
    ensures forall i :: 0 <= i < |InsertRecord(rs, r)| ==> least <= InsertRecord(rs, r)[i].typ
  {
    if rs != [] && r.typ >= rs[0].typ { InsertBound(rs[1..], r, least); }
  }

  lemma {:induction false} InsertSorts(rs: seq<Record>, r: Record)
    requires Sorted(rs)
    ensures Sorted(InsertRecord(rs, r))
  {
    if rs != [] && r.typ >= rs[0].typ {
      InsertSorts(rs[1..], r);
      InsertBound(rs[1..], r, rs[0].typ);
    }
  }

  lemma NoRecords()
    ensures Sorted([])
  {
  }

  /** The given records and the unparsed ones, sorted by type. */
  method CombineRecords(records: seq<Record>, unparsed: Fields) returns (r: seq<Record>)
    ensures Sorted(r)
    ensures multiset(r) == multiset(records) + multiset(SortedRecords(unparsed))
  {
    hide SortedRecords, InsertRecord, Sorted;
    r := [];
    assert Sorted([]) by { NoRecords(); }
    var i := 0;
    while i < |records|
      invariant 0 <= i <= |records| && Sorted(r) && multiset(r) == multiset(records[..i])
    {
      assert records[..i + 1] == records[..i] + [records[i]];
      InsertAdds(r, records[i]);
      InsertSorts(r, records[i]);
      r := InsertRecord(r, records[i]);
      i := i + 1;
    }
    assert records[..i] == records;
    var stubs := SortedRecords(unparsed);
    i := 0;
    while i < |stubs|
      invariant 0 <= i <= |stubs| && Sorted(r) && multiset(r) == multiset(records) + multiset(stubs[..i])
    {
      assert stubs[..i + 1] == stubs[..i] + [stubs[i]];
      InsertAdds(r, stubs[i]);
      InsertSorts(r, stubs[i]);
      r := InsertRecord(r, stubs[i]);
      i := i + 1;
    }
    assert stubs[..i] == stubs;
  }

  ghost predicate DistinctTypes(rs: seq<Record>) {
    forall i, j :: 0 <= i < j < |rs| ==> rs[i].typ != rs[j].typ
  }

  lemma {:induction false} FieldsAt(rs: seq<Record>, t: nat)
    requires DistinctTypes(rs)
    ensures forall i :: 0 <= i < |rs| && rs[i].typ == t ==> t in AsFields(rs) && AsFields(rs)[t] == rs[i].value
  {
    if rs != [] { FieldsAt(rs[..|rs| - 1], t); }
  }

  lemma HeadIsLeast(rs: seq<Record>)
    requires rs != [] && Sorted(rs) && DistinctTypes(rs)
    ensures IsLeast(AsFields(rs).Keys, rs[0].typ) && AsFields(rs)[rs[0].typ] == rs[0].value
    ensures AsFields(rs) - {rs[0].typ} == AsFields(rs[1..])
  {
    hide AsFields, Sorted, DistinctTypes;
    var r, rest := rs[0], rs[1..];
    TailIsLarger(rs);
    assert rs == [r] + rest;
    AsFieldsCons(r, rest);
    var tail := AsFields(rest);
    forall t | t in tail ensures r.typ < t { var i :| 0 <= i < |rest| && rest[i] == Record(t, tail[t]); }
    WithAndWithout(tail, r.typ, r.value);
  }

  lemma TailIsLarger(rs: seq<Record>)
    requires rs != [] && Sorted(rs) && DistinctTypes(rs)
    ensures forall i :: 0 <= i < |rs[1..]| ==> rs[0].typ < rs[1..][i].typ
  {
    forall i | 0 <= i < |rs[1..]| ensures rs[0].typ < rs[1..][i].typ { assert rs[1..][i] == rs[i + 1]; }
  }

  lemma WithAndWithout(m: Fields, t: nat, v: bytes)
    requires t !in m
    ensures m[t := v] - {t} == m
  {
  }

  /** Records in strictly increasing order are the sorted records of the map they stand for. */
  lemma {:induction false} SortedIsCanonical(rs: seq<Record>)
    requires Sorted(rs) && DistinctTypes(rs)
    ensures rs == SortedRecords(AsFields(rs))
  {
    hide AsFields, SortedRecords;
    if rs != [] {
      TailSorted(rs);
      hide Sorted, DistinctTypes, IsLeast;
      SortedIsCanonical(rs[1..]);
      HeadThenTail(rs);
    } else {
      NothingSorted();
    }
  }

  lemma HeadThenTail(rs: seq<Record>)
    requires rs != [] && Sorted(rs) && DistinctTypes(rs) && rs[1..] == SortedRecords(AsFields(rs[1..]))
    ensures rs == SortedRecords(AsFields(rs))
  {
    hide AsFields, SortedRecords, Sorted, DistinctTypes, IsLeast;
    HeadIsLeast(rs);
    var m, r := AsFields(rs), rs[0];
    FirstIsLeast(m, r.typ);
    assert SortedRecords(m) == [r] + rs[1..];
    assert rs == [r] + rs[1..];
  }

  lemma TailSorted(rs: seq<Record>)
    requires rs != [] && Sorted(rs) && DistinctTypes(rs)
    ensures Sorted(rs[1..]) && DistinctTypes(rs[1..])
  {
  }

  lemma NothingSorted()
    ensures SortedRecords(AsFields([])) == []
  {
  }

  lemma SortedRecordsDistinct(m: Fields)
    ensures DistinctTypes(SortedRecords(m)) && AsFields(SortedRecords(m)) == m
  {
    hide SortedRecords;
    SortedIncreasing(m, 0);
    IncreasingDistinct(SortedRecords(m), 0);
    AsFieldsSorted(m);
  }

  lemma {:induction false} IncreasingDistinct(rs: seq<Record>, least: nat)
    requires Tlv.Increasing(rs, least)
    ensures DistinctTypes(rs) && forall i :: 0 <= i < |rs| ==> least <= rs[i].typ
  {
    if rs != [] {
      IncreasingDistinct(rs[1..], rs[0].typ + 1);
      assert rs == [rs[0]] + rs[1..];
    }
  }

  lemma {:induction false} DistinctPermutation(rs: seq<Record>, ss: seq<Record>)
    requires multiset(rs) == multiset(ss) && DistinctTypes(ss)
    ensures DistinctTypes(rs)
  {
    forall i, j | 0 <= i < j < |rs| ensures rs[i].typ != rs[j].typ {
      assert rs[i] in multiset(rs) && rs[j] in multiset(rs);
      if rs[i] == rs[j] {
        TwiceInMultiset(rs, i, j);
        OnceInMultiset(ss, rs[i]);
      } else {
        assert rs[i] in ss && rs[j] in ss;
      }
    }
  }

  lemma TwiceInMultiset(rs: seq<Record>, i: nat, j: nat)
    requires i < j < |rs| && rs[i] == rs[j]
    ensures multiset(rs)[rs[i]] >= 2
  {
    assert rs == rs[..j] + [rs[j]] + rs[j + 1..];
    assert rs[i] in rs[..j];
    assert rs[i] in multiset(rs[..j]);
  }

  lemma {:induction false} OnceInMultiset(rs: seq<Record>, r: Record)
    requires DistinctTypes(rs)
    ensures multiset(rs)[r] <= 1
  {
    if rs != [] {
      var front, last := rs[..|rs| - 1], rs[|rs| - 1];
      assert rs == front + [last];
      OnceInMultiset(front, r);
      if r == last { assert r !in front; assert multiset(front)[r] == 0; }
    }
  }

  lemma SameFields(rs: seq<Record>, ss: seq<Record>)
    requires multiset(rs) == multiset(ss) && DistinctTypes(rs) && DistinctTypes(ss)
    ensures AsFields(rs) == AsFields(ss)
  {
    hide AsFields;
    forall t ensures t in AsFields(rs) ==> t in AsFields(ss) && AsFields(ss)[t] == AsFields(rs)[t] {
      CarriedOver(rs, ss, t);
    }
    forall t ensures t in AsFields(ss) ==> t in AsFields(rs) {
      CarriedOver(ss, rs, t);
    }
  }

  lemma CarriedOver(rs: seq<Record>, ss: seq<Record>, t: nat)
    requires multiset(rs) == multiset(ss) && DistinctTypes(rs) && DistinctTypes(ss)
    ensures t in AsFields(rs) ==> t in AsFields(ss) && AsFields(ss)[t] == AsFields(rs)[t]
  {
    hide AsFields;
    if t in AsFields(rs) {
      var i :| 0 <= i < |rs| && rs[i] == Record(t, AsFields(rs)[t]);
      assert rs[i] in multiset(rs);
      assert rs[i] in ss;
      FieldsAt(ss, t);
    }
  }

  /** The stream of the combined records is the encoding of all the fields, whatever order they came in. */
  lemma CombinedIsEncoding(records: seq<Record>, unparsed: Fields, combined: seq<Record>)
    requires DistinctTypes(records + SortedRecords(unparsed)) && Sorted(combined)
    requires multiset(combined) == multiset(records) + multiset(SortedRecords(unparsed))
    ensures EncodeStream(combined) == EncodeFields(AsFields(records + SortedRecords(unparsed)))
    ensures var m := AsFields(records + SortedRecords(unparsed));
            forall t :: t in unparsed ==> t in m && m[t] == unparsed[t]
  {
    hide SortedRecords, AsFields, EncodeStream, Sorted, DistinctTypes;
    var all := records + SortedRecords(unparsed);
    DistinctPermutation(combined, all);
    SortedIsCanonical(combined);
    SameFields(combined, all);
    forall t | t in unparsed ensures t in AsFields(all) && AsFields(all)[t] == unparsed[t] {
      UnparsedIsThere(records, unparsed, t);
    }
  }

  lemma UnparsedIsThere(records: seq<Record>, unparsed: Fields, t: nat)
    requires DistinctTypes(records + SortedRecords(unparsed)) && t in unparsed
    ensures var m := AsFields(records + SortedRecords(unparsed));
            t in m && m[t] == unparsed[t]
  {
    hide SortedRecords, AsFields;
    var all, stubs := records + SortedRecords(unparsed), SortedRecords(unparsed);
    SortedRecordsDistinct(unparsed);
    assert t in AsFields(stubs);
    var i :| 0 <= i < |stubs| && stubs[i] == Record(t, unparsed[t]);
    FieldsAt(all, t);
    assert all[|records| + i] == stubs[i];
  }
}
