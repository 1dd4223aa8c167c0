/** Paging through a table while deleting from it. */
module Cleanup {
  import opened Bytes
  import opened Assets

  type int32 = x: int | -0x8000_0000 <= x < 0x8000_0000

  const BATCH_SIZE: int32 := 1000

  ghost predicate Distinct(s: seq<OutPoint>) {
    forall i, j :: 0 <= i < j < |s| ==> s[i] != s[j]
  }

  /** The rows that are not in `gone`, in their order. */
  function Minus(s: seq<OutPoint>, gone: set<OutPoint>): seq<OutPoint> {
    if s == [] then [] else
    Minus(s[..|s| - 1], gone) + if s[|s| - 1] in gone then [] else [s[|s| - 1]]
  }

  lemma {:induction false} MinusConcat(s: seq<OutPoint>, t: seq<OutPoint>, gone: set<OutPoint>)
    ensures Minus(s + t, gone) == Minus(s, gone) + Minus(t, gone)
  {
    if t == [] {
      assert s + t == s;
    } else {
      assert (s + t)[..|s + t| - 1] == s + t[..|t| - 1];
      MinusConcat(s, t[..|t| - 1], gone);
    }
  }

  lemma {:induction false} MinusTwice(s: seq<OutPoint>, gone: set<OutPoint>, more: set<OutPoint>)
    ensures Minus(Minus(s, gone), more) == Minus(s, gone + more)
  {
    if s != [] {
      var front, last := s[..|s| - 1], s[|s| - 1];
      MinusTwice(front, gone, more);
      if last !in gone {
        MinusConcat(Minus(front, gone), [last], more);
        assert Minus([last], more) == if last in more then [] else [last] by { MinusOne(last, more); }
      } else {
        assert Minus(s, gone) == Minus(front, gone);
      }
    }
  }

  lemma MinusOne(x: OutPoint, gone: set<OutPoint>)
    ensures Minus([x], gone) == if x in gone then [] else [x]
  {
    assert [x][..0] == [];
  }

  lemma {:induction false} MinusNothing(s: seq<OutPoint>, gone: set<OutPoint>)
    requires forall x :: x in s ==> x !in gone
    ensures Minus(s, gone) == s
  {
    if s != [] { MinusNothing(s[..|s| - 1], gone); }
  }

  lemma {:induction false} MinusLength(s: seq<OutPoint>, gone: set<OutPoint>)
    requires Distinct(s) && forall x :: x in gone ==> x in s
    ensures |Minus(s, gone)| == |s| - |gone|
  {
    if s == [] {
      assert gone == {};
    } else {
      var front, last := s[..|s| - 1], s[|s| - 1];
      assert s == front + [last];
      assert last !in front;
      MinusIgnores(front, gone, last);
      MinusLength(front, gone - {last});
    }
  }

  lemma {:induction false} MinusIgnores(s: seq<OutPoint>, gone: set<OutPoint>, x: OutPoint)
    requires x !in s
    ensures Minus(s, gone) == Minus(s, gone - {x})
  {
    if s != [] { MinusIgnores(s[..|s| - 1], gone, x); }
  }

  /** Nothing else is lost. */
  lemma {:induction false} MinusMembers(s: seq<OutPoint>, gone: set<OutPoint>, x: OutPoint)
    ensures x in Minus(s, gone) <==> x in s && x !in gone
  {
    if s != [] {
      MinusMembers(s[..|s| - 1], gone, x);
      assert s == s[..|s| - 1] + [s[|s| - 1]];
    }
  }

  // ----- The store and the outside world -----

  /** Claimed outpoints in the store's own order. */
  class Store {
    var rows: seq<OutPoint>

    method List(limit: int32, offset: int32) returns (page: seq<OutPoint>)
      requires 0 <= limit && 0 <= offset <= |rows|
      ensures page == rows[offset..][..Min(limit, |rows| - offset)]
    {
      page := rows[offset..][..Min(limit, |rows| - offset)];
    }

    method Delete(op: OutPoint)
      modifies this
      ensures rows == Minus(old(rows), {op})
    {
      rows := Minus(rows, {op});
    }
  }

  function Min(a: int, b: int): int {
    if a < b then a else b
  }

  datatype Env = Env(
    listFails: nat -> bool,              // by page
    check: OutPoint -> Option<bool>,     // None: the check failed
    deleteFails: OutPoint -> bool)       // a failed delete leaves the row

  predicate Deletable(env: Env, op: OutPoint) {
    env.check(op) == Some(true) && !env.deleteFails(op)
  }

  ghost function Deleted(env: Env, s: seq<OutPoint>): set<OutPoint> {
    set op | op in s && Deletable(env, op)
  }

  lemma DeletedIn(env: Env, page: seq<OutPoint>)
    ensures forall op :: op in Deleted(env, page) ==> op in page
  {
  }

  lemma OneLess(all: set<OutPoint>, todo: set<OutPoint>, x: OutPoint)
    requires x in todo
    ensures all - (todo - {x}) == if x in all then all - todo + {x} else all - todo
    ensures |all - (todo - {x})| == if x in all then |all - todo| + 1 else |all - todo|
  {
    assert all - (todo - {x}) == if x in all then all - todo + {x} else all - todo;
  }

  /** One page: the results come in any order, and each spent outpoint is deleted if that succeeds. */
  method DeleteSpent(store: Store, env: Env, page: seq<OutPoint>) returns (batchDeleted: nat)
    modifies store
    ensures store.rows == Minus(old(store.rows), Deleted(env, page))
    ensures batchDeleted == |Deleted(env, page)|
  {
    hide Minus, Deleted, Deletable;
    batchDeleted := 0;
    var todo := set op | op in page;
    ghost var all, start := Deleted(env, page), store.rows;
    MinusNothing(start, {});
    DeletedIn(env, page);
    assert all - todo == {};
    while todo != {}
      invariant batchDeleted == |all - todo|
      invariant store.rows == Minus(start, all - todo)
      invariant forall op :: op in todo ==> op in page
      decreases todo
    {
      var op :| op in todo;
      OneLess(all, todo, op);
      assert op in all <==> Deletable(env, op) by { DeletedOne(env, page, op); }
      var spent := env.check(op);
      if spent.Some? && spent.value && !env.deleteFails(op) {
        assert Deletable(env, op) by { SpentIsDeletable(env, op); }
        MinusTwice(start, all - todo, {op});
        store.Delete(op);
        batchDeleted := batchDeleted + 1;
      } else {
        assert !Deletable(env, op) by { SpentIsDeletable(env, op); }
      }
      todo := todo - {op};
    }
    assert all - {} == all;
  }

  lemma SpentIsDeletable(env: Env, op: OutPoint)
    ensures Deletable(env, op) <==> env.check(op).Some? && env.check(op).value && !env.deleteFails(op)
  {
  }

  lemma DeletedOne(env: Env, page: seq<OutPoint>, op: OutPoint)
    requires op in page
    ensures op in Deleted(env, page) <==> Deletable(env, op)
  {
  }

  /** After `k` rows have been looked at: where the pages stand. */
  ghost predicate Paging(env: Env, start: seq<OutPoint>, k: nat, rows: seq<OutPoint>, offset: int) {
    && k <= |start|
    && rows == Minus(start, Deleted(env, start[..k]))
    && offset == k - |Deleted(env, start[..k])| >= 0
  }

  /** The next page starts at the first row not yet looked at. */
  lemma NextPage(env: Env, start: seq<OutPoint>, k: nat, rows: seq<OutPoint>, offset: int)
    requires Distinct(start) && Paging(env, start, k, rows, offset)
    ensures offset <= |rows| && rows[offset..] == start[k..]
  {
    var seen, rest, gone := start[..k], start[k..], Deleted(env, start[..k]);
    assert start == seen + rest;
    assert Distinct(seen);
    MinusConcat(seen, rest, gone);
    MinusLength(seen, gone);
    MinusNothing(rest, gone);
  }

  lemma PageDone(env: Env, start: seq<OutPoint>, k: nat, rows: seq<OutPoint>, offset: int, page: seq<OutPoint>,
                 rows': seq<OutPoint>)
    requires Distinct(start) && Paging(env, start, k, rows, offset)
    requires k + |page| <= |start| && page == start[k..k + |page|]
    requires rows' == Minus(rows, Deleted(env, page))
    ensures |Deleted(env, page)| <= |page|
    ensures Paging(env, start, k + |page|, rows', offset + |page| - |Deleted(env, page)|)
  {
    hide Minus;
    assert start[..k + |page|] == start[..k] + page;
    DeletedConcat(env, start[..k], page);
    MinusTwice(start, Deleted(env, start[..k]), Deleted(env, page));
    MinusLength(page, Deleted(env, page));
  }

  lemma DeletedConcat(env: Env, s: seq<OutPoint>, t: seq<OutPoint>)
    requires Distinct(s + t)
    ensures Deleted(env, s + t) == Deleted(env, s) + Deleted(env, t)
    ensures |Deleted(env, s + t)| == |Deleted(env, s)| + |Deleted(env, t)|
    ensures Distinct(t)
  {
    var u := s + t;
    forall i, j | 0 <= i < j < |t| ensures t[i] != t[j] { assert u[|s| + i] != u[|s| + j]; }
    forall i, j | 0 <= i < |s| && 0 <= j < |t| ensures s[i] != t[j] { assert u[i] == s[i] && u[|s| + j] == t[j]; }
    assert Deleted(env, s) !! Deleted(env, t);
  }

  /**
   * Checks every claimed outpoint and deletes the spent ones. `checked` is the list of outpoints
   * checked, page by page; `ok` is false if a page could not be listed.
   */
  method CleanupSpentOutpoints(store: Store, env: Env)
    returns (ok: bool, checked: seq<OutPoint>, totalChecked: nat, totalDeleted: nat)
    requires Distinct(store.rows) && |store.rows| < 0x8000_0000
    modifies store
    ensures |checked| <= |old(store.rows)| && checked == old(store.rows)[..|checked|]
    ensures ok ==> checked == old(store.rows)
    ensures !ok ==> exists page :: env.listFails(page)
    ensures store.rows == Minus(old(store.rows), Deleted(env, checked))
    ensures totalChecked == |checked| && totalDeleted == |Deleted(env, checked)|
  {
    hide Minus, Distinct;
    ghost var start := store.rows;
    checked, totalChecked, totalDeleted := [], 0, 0;
    var offset: int32 := 0;
    var pages := 0;
    assert start[..0] == [] && Deleted(env, []) == {};
    MinusNothing(start, {});
    while true
      invariant |checked| <= |start| && checked == start[..|checked|]
      invariant Paging(env, start, |checked|, store.rows, offset)
      invariant totalChecked == |checked| && totalDeleted == |Deleted(env, checked)|
      decreases |start| - |checked|
    {
      if env.listFails(pages) { return false, checked, totalChecked, totalDeleted; }
      NextPage(env, start, |checked|, store.rows, offset);
      ghost var k := |checked|;
      var page := store.List(BATCH_SIZE, offset);
      assert page == start[k..k + |page|];
      if page == [] {
        assert start[k..] == [];
        break;
      }
      ghost var rows := store.rows;
      var batchDeleted := DeleteSpent(store, env, page);
      PageDone(env, start, k, rows, offset, page, store.rows);
      assert start[..k + |page|] == checked + page;
      checked := checked + page;
      totalChecked := totalChecked + |page|;
      totalDeleted := totalDeleted + batchDeleted;
      offset := offset + |page| - batchDeleted;
      pages := pages + 1;
      if |page| < BATCH_SIZE { break; }
    }
    ok := true;
  }
}
