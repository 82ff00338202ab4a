/** An ordered bucket: a finite map from numeric keys, walked by a cursor in
    ascending key order. Keys are 64-bit big-endian on disk. */
module Bucket {
  import opened Wrappers

  const TWO_64 := 0x1_0000_0000_0000_0000

  /** The key a scan strictly after `after` seeks to, in 64-bit arithmetic. */
  function SeekFrom(after: nat): nat {
    (after + 1) % TWO_64
  }

  predicate Ascending(keys: seq<nat>) {
    forall i, j :: 0 <= i < j < |keys| ==> keys[i] < keys[j]
  }

  /** One page of the keys >= from: the least ones, in order and without gaps, at most
      `limit` of them, `more` when and only when some key is left over. */
  ghost predicate IsPage(all: set<nat>, from: nat, limit: nat, page: seq<nat>, more: bool) {
    && Ascending(page)
    && |page| <= limit
    && (forall k <- page :: k in all && from <= k)
    && (more ==> |page| == limit && exists k <- all :: from <= k && k !in page)
    && (forall k <- all :: from <= k && k !in page ==> more && forall p <- page :: p < k)
  }

  ghost function Above(all: set<nat>, from: nat): set<nat> {
    set x | x in all && x >= from
  }

  /** Cursor.Seek: the least key >= from, if there is one. */
  method Seek(all: set<nat>, from: nat) returns (k: Option<nat>)
    ensures k.None? ==> forall x <- all :: x < from
    ensures k.Some? ==> k.value in all && from <= k.value && forall x <- all :: from <= x ==> k.value <= x
  {
    k := None;
    var rest := all;
    while rest != {}
      invariant rest <= all
      invariant k.None? ==> forall x :: x in all && x !in rest ==> x < from
      invariant k.Some? ==> k.value in all && from <= k.value
      invariant k.Some? ==> forall x :: x in all && x !in rest && from <= x ==> k.value <= x
      decreases rest
    {
      var x :| x in rest;
      if from <= x && (k.None? || x < k.value) {
        k := Some(x);
      }
      rest := rest - {x};
    }
  }

  /** The greatest key, 0 when there is none. */
  ghost predicate IsLast(all: set<nat>, k: nat) {
    (k in all || (all == {} && k == 0)) && forall x <- all :: x <= k
  }

  /** Cursor.Last. */
  method Last(all: set<nat>) returns (k: nat)
    ensures IsLast(all, k)
  {
    k := 0;
    var rest := all;
    while rest != {}
      invariant rest <= all && IsLast(all - rest, k)
      decreases rest
    {
      var x :| x in rest;
      if x > k || rest == all {
        k := x;
      }
      assert all - (rest - {x}) == (all - rest) + {x};
      rest := rest - {x};
    }
    assert all - rest == all;
  }

  /** The page loop shared by the list handlers: walk the cursor from `from`, stop
      with `more` set once `limit` entries are out and another one shows up. */
  method ReadPage(all: set<nat>, from: nat, limit: nat) returns (page: seq<nat>, more: bool)
    ensures IsPage(all, from, limit, page, more)
  {
    page, more := [], false;
    var k := Seek(all, from);
    ghost var next := from;
    while k.Some?
      invariant Ascending(page) && |page| <= limit && !more && from <= next
      invariant forall i :: 0 <= i < |page| ==> page[i] in all && from <= page[i] < next
      invariant forall x <- all :: from <= x < next ==> x in page
      invariant k.None? ==> forall x <- all :: x < next
      invariant k.Some? ==> k.value in all && next <= k.value && forall x <- all :: next <= x ==> k.value <= x
      decreases Above(all, next)
    {
      if |page| == limit {
        more := true;
        break;
      }
      assert k.value in Above(all, next);
      page := page + [k.value];
      next := k.value + 1;
      k := Seek(all, k.value + 1);
    }
  }
}
