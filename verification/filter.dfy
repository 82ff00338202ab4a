/** Search-as-you-type: the incremental filter with its two swapped buffers. */
module SearchFilter {
  import opened Match

  /** The rows among `rows` that match, in the given order. */
  ghost function Keep(u: Unicode, query: Query, cmds: seq<string>, rows: seq<int>): seq<int>
    requires forall i :: 0 <= i < |rows| ==> 0 <= rows[i] < |cmds|
  {
    if rows == [] then []
    else
      var init, last := rows[..|rows| - 1], rows[|rows| - 1];
      Keep(u, query, cmds, init) + if Matches(u, query, cmds[last]) then [last] else []
  }

  /** The reference: every row in [lo, hi) that matches, in ascending order. */
  ghost function Scan(u: Unicode, query: Query, cmds: seq<string>, lo: nat, hi: nat): seq<int>
    requires lo <= hi <= |cmds|
    decreases hi
  {
    if lo == hi then []
    else Scan(u, query, cmds, lo, hi - 1) + if Matches(u, query, cmds[hi - 1]) then [hi - 1] else []
  }

  ghost function FullScan(u: Unicode, q: string, cmds: seq<string>): seq<int> {
    Scan(u, Parse(u, q), cmds, 0, |cmds|)
  }

  /** Ascending indices of matching rows. */
  ghost predicate Sound(u: Unicode, query: Query, cmds: seq<string>, rows: seq<int>) {
    && (forall i :: 0 <= i < |rows| ==> 0 <= rows[i] < |cmds| && Matches(u, query, cmds[rows[i]]))
    && (forall i, j :: 0 <= i < j < |rows| ==> rows[i] < rows[j])
  }

  lemma {:induction false} ScanExact(u: Unicode, query: Query, cmds: seq<string>, lo: nat, hi: nat)
    requires lo <= hi <= |cmds|
    ensures var r := Scan(u, query, cmds, lo, hi);
      && Sound(u, query, cmds, r)
      && (forall i :: 0 <= i < |r| ==> lo <= r[i] < hi)
      && (forall x :: lo <= x < hi && Matches(u, query, cmds[x]) ==> x in r)
  {
    hide Matches;
    if lo < hi {
      ScanExact(u, query, cmds, lo, hi - 1);
      var init, r := Scan(u, query, cmds, lo, hi - 1), Scan(u, query, cmds, lo, hi);
      assert forall i :: 0 <= i < |init| ==> r[i] == init[i];
      forall x | lo <= x < hi && Matches(u, query, cmds[x]) ensures x in r {
        if x < hi - 1 {
          assert x in init;
        } else {
          assert r[|init|] == x;
        }
      }
    }
  }

  /** The full scan is the set of matching rows in ascending order, and nothing else is. */
  lemma FullScanExact(u: Unicode, q: string, cmds: seq<string>)
    ensures Sound(u, Parse(u, q), cmds, FullScan(u, q, cmds))
    ensures forall x :: 0 <= x < |cmds| ==> (x in FullScan(u, q, cmds) <==> Matches(u, Parse(u, q), cmds[x]))
  {
    ScanExact(u, Parse(u, q), cmds, 0, |cmds|);
  }

  lemma {:induction false} ScanSplit(u: Unicode, query: Query, cmds: seq<string>, lo: nat, mid: nat, hi: nat)
    requires lo <= mid <= hi <= |cmds|
    ensures Scan(u, query, cmds, lo, hi) == Scan(u, query, cmds, lo, mid) + Scan(u, query, cmds, mid, hi)
    decreases hi
  {
    if mid < hi {
      ScanSplit(u, query, cmds, lo, mid, hi - 1);
    }
  }

  lemma {:induction false} KeepSound(u: Unicode, query: Query, cmds: seq<string>, rows: seq<int>)
    requires forall i :: 0 <= i < |rows| ==> 0 <= rows[i] < |cmds|
    requires forall i, j :: 0 <= i < j < |rows| ==> rows[i] < rows[j]
    ensures var r := Keep(u, query, cmds, rows);
      Sound(u, query, cmds, r) && forall i :: 0 <= i < |r| ==> r[i] in rows
  {
    if rows != [] {
      var init := rows[..|rows| - 1];
      KeepSound(u, query, cmds, init);
      var r := Keep(u, query, cmds, init);
      forall i | 0 <= i < |r| ensures r[i] < rows[|rows| - 1] {
        assert r[i] in init;
      }
    }
  }

  /** Filtering what matched a weaker query, over the same rows, is the scan itself. */
  lemma {:induction false} KeepOfScan(u: Unicode, weak: Query, strong: Query, before: seq<string>, cmds: seq<string>, n: nat)
    requires before <= cmds && n <= |before|
    requires forall x :: 0 <= x < n && Matches(u, strong, cmds[x]) ==> Matches(u, weak, cmds[x])
    ensures var r := Scan(u, weak, before, 0, n);
      && (forall i :: 0 <= i < |r| ==> 0 <= r[i] < |cmds|)
      && Keep(u, strong, cmds, r) == Scan(u, strong, cmds, 0, n)
  {
    if n > 0 {
      KeepOfScan(u, weak, strong, before, cmds, n - 1);
      var r0, r := Scan(u, weak, before, 0, n - 1), Scan(u, weak, before, 0, n);
      if Matches(u, weak, before[n - 1]) {
        assert r == r0 + [n - 1] && r[..|r| - 1] == r0;
      } else {
        assert r == r0;
      }
    }
  }

  /** An incremental answer over rows that were only appended to is the full scan. */
  lemma IncrementalIsFull(u: Unicode, p: string, q: string, before: seq<string>, cmds: seq<string>)
    requires p <= q && IsAscii(q) && before <= cmds
    ensures var r := FullScan(u, p, before);
      && (forall i :: 0 <= i < |r| ==> 0 <= r[i] < |cmds|)
      && Keep(u, Parse(u, q), cmds, r) + Scan(u, Parse(u, q), cmds, |before|, |cmds|) == FullScan(u, q, cmds)
  {
    var weak, strong := Parse(u, p), Parse(u, q);
    forall x | 0 <= x < |before| && Matches(u, strong, cmds[x]) ensures Matches(u, weak, cmds[x]) {
      PrefixNarrows(u, p, q, cmds[x]);
    }
    KeepOfScan(u, weak, strong, before, cmds, |before|);
    ScanSplit(u, strong, cmds, 0, |before|, |cmds|);
  }

  /** What is kept of the old rows followed by a scan of the new ones is in order. */
  lemma JoinSound(u: Unicode, query: Query, cmds: seq<string>, rows: seq<int>, from: nat)
    requires from <= |cmds|
    requires forall i :: 0 <= i < |rows| ==> 0 <= rows[i] < from
    requires forall i, j :: 0 <= i < j < |rows| ==> rows[i] < rows[j]
    ensures Sound(u, query, cmds, Keep(u, query, cmds, rows) + Scan(u, query, cmds, from, |cmds|))
  {
    KeepSound(u, query, cmds, rows);
    ScanExact(u, query, cmds, from, |cmds|);
    var keep := Keep(u, query, cmds, rows);
    forall i | 0 <= i < |keep| ensures keep[i] < from {
      assert keep[i] in rows;
    }
  }

  /** Go's append on a slice of length n: in place while the buffer has room. */
  method Append(a: array<int>, n: nat, x: int) returns (b: array<int>)
    requires n <= a.Length
    modifies a
    ensures n < b.Length && b[..n + 1] == old(a[..n]) + [x]
    ensures if n < a.Length then b == a else fresh(b)
  {
    ghost var before := a[..n];
    if n < a.Length {
      b := a;
    } else {
      b := new int[2 * n + 1];
      for i := 0 to n
        invariant b[..i] == a[..i] && a[..n] == before
      {
        b[i] := a[i];
      }
      assert b[..n] == a[..n];
    }
    assert b[..n] == before;
    b[n] := x;
    assert b[..n] == before;
    assert b[..n + 1] == b[..n] + [x];
  }

  /** Re-test the rows that matched before, building into the other buffer. */
  method Retest(u: Unicode, query: Query, cmds: seq<string>, src: array<int>, srcLen: nat, dst0: array<int>)
    returns (dst: array<int>, n: nat)
    requires src != dst0 && srcLen <= src.Length && forall i :: 0 <= i < srcLen ==> 0 <= src[i] < |cmds|
    modifies dst0
    ensures n <= dst.Length && (dst == dst0 || fresh(dst))
    ensures dst[..n] == Keep(u, query, cmds, src[..srcLen])
  {
    dst, n := dst0, 0;
    for k := 0 to srcLen
      invariant n <= dst.Length && (dst == dst0 || fresh(dst))
      invariant src[..] == old(src[..])
      invariant dst[..n] == Keep(u, query, cmds, src[..k])
    {
      var idx := src[k];
      assert src[..k + 1][..k] == src[..k];
      var m := MatchQuery(u, query, cmds[idx]);
      if m {
        dst := Append(dst, n, idx);
        n := n + 1;
      }
    }
  }

  /** Test the rows from `from` on, appending to what is already built. */
  method ScanFrom(u: Unicode, query: Query, cmds: seq<string>, from: nat, dst0: array<int>, n0: nat)
    returns (dst: array<int>, n: nat)
    requires n0 <= dst0.Length && from <= |cmds|
    modifies dst0
    ensures n <= dst.Length && (dst == dst0 || fresh(dst))
    ensures dst[..n] == old(dst0[..n0]) + Scan(u, query, cmds, from, |cmds|)
  {
    dst, n := dst0, n0;
    for i := from to |cmds|
      invariant n <= dst.Length && (dst == dst0 || fresh(dst))
      invariant dst[..n] == old(dst0[..n0]) + Scan(u, query, cmds, from, i)
    {
      var m := MatchQuery(u, query, cmds[i]);
      if m {
        dst := Append(dst, n, i);
        n := n + 1;
      }
    }
  }

  /** What Apply answers from the match set of the previous call. */
  ghost function Answer(u: Unicode, prev: string, prevLen: nat, rows: seq<int>, q: string, cmds: seq<string>): seq<int>
    requires forall i :: 0 <= i < |rows| ==> 0 <= rows[i] < prevLen
  {
    if prev <= q && |cmds| >= prevLen
    then Keep(u, Parse(u, q), cmds, rows) + Scan(u, Parse(u, q), cmds, prevLen, |cmds|)
    else FullScan(u, q, cmds)
  }

  lemma AnswerIsRight(u: Unicode, prev: string, seen: seq<string>, rows: seq<int>, q: string, cmds: seq<string>)
    requires forall i :: 0 <= i < |rows| ==> 0 <= rows[i] < |seen|
    requires forall i, j :: 0 <= i < j < |rows| ==> rows[i] < rows[j]
    ensures var r := Answer(u, prev, |seen|, rows, q, cmds);
      && Sound(u, Parse(u, q), cmds, r)
      && (forall i :: 0 <= i < |r| ==> 0 <= r[i] < |cmds|)
      && (forall i, j :: 0 <= i < j < |r| ==> r[i] < r[j])
      && (!(prev <= q) || |cmds| < |seen| ==> r == FullScan(u, q, cmds) == Scan(u, Parse(u, q), cmds, 0, |cmds|))
      && (prev <= q && |cmds| >= |seen|
          ==> r == Keep(u, Parse(u, q), cmds, rows) + Scan(u, Parse(u, q), cmds, |seen|, |cmds|))
      && (rows == FullScan(u, prev, seen) && IsAscii(q) && seen <= cmds ==> r == FullScan(u, q, cmds))
  {
    if prev <= q && |cmds| >= |seen| {
      JoinSound(u, Parse(u, q), cmds, rows, |seen|);
      if rows == FullScan(u, prev, seen) && IsAscii(q) && seen <= cmds {
        IncrementalIsFull(u, prev, q, seen, cmds);
      }
    } else {
      FullScanExact(u, q, cmds);
    }
  }

  /** A copy the caller may keep or overwrite. */
  method Copy(a: array<int>, n: nat) returns (out: array<int>)
    requires n <= a.Length
    ensures fresh(out) && out[..] == a[..n]
  {
    out := new int[n];
    for i := 0 to n
      invariant out[..i] == a[..i]
    {
      out[i] := a[i];
    }
  }

  class Filter {
    const u: Unicode
    var prevQuery: string
    var prevLen: nat
    var matched: array<int>  // buffer behind the current match set
    var matchedLen: nat
    var scratch: array<int>  // the other buffer
    ghost var seen: seq<string>  // the rows given to the last Apply

    /** Two buffers that never alias, and indices that are in range of the last rows. */
    ghost predicate Valid()
      reads this, matched
    {
      && matched != scratch
      && matchedLen <= matched.Length
      && prevLen == |seen|
      && (forall i :: 0 <= i < matchedLen ==> 0 <= matched[i] < prevLen)
      && (forall i, j :: 0 <= i < j < matchedLen ==> matched[i] < matched[j])
    }

    /** The match set is the whole one for the last query. */
    ghost predicate Exact()
      reads this, matched
      requires Valid()
    {
      matched[..matchedLen] == FullScan(u, prevQuery, seen)
    }

    constructor (u: Unicode)
      ensures Valid() && Exact() && this.u == u && prevQuery == "" && seen == []
      ensures fresh(matched) && fresh(scratch)
    {
      this.u := u;
      prevQuery, prevLen, matchedLen, seen := "", 0, 0, [];
      matched := new int[0];
      scratch := new int[0];
    }

    /** Whatever the caller did in between, the answer is in range, ascending and matching.
        It is the full scan whenever the query cannot be the previous one typed further, or
        is ASCII over rows that were only appended to since an exact answer. */
    method Apply(q: string, cmds: seq<string>) returns (out: array<int>)
      requires Valid()
      modifies this, matched, scratch
      ensures Valid() && seen == cmds && prevQuery == q
      ensures fresh(out) && out != matched && out != scratch
      ensures scratch == old(matched) && (matched == old(scratch) || fresh(matched))
      ensures out[..] == matched[..matchedLen]
      ensures Sound(u, Parse(u, q), cmds, out[..])
      ensures !(old(prevQuery) <= q) || |cmds| < |old(seen)| ==> out[..] == FullScan(u, q, cmds)
      ensures old(Exact()) && IsAscii(q) && old(seen) <= cmds ==> out[..] == FullScan(u, q, cmds)
      ensures old(prevQuery) <= q && |cmds| >= |old(seen)| ==>
        out[..] == Keep(u, Parse(u, q), cmds, old(matched[..matchedLen])) + Scan(u, Parse(u, q), cmds, |old(seen)|, |cmds|)
    {
      hide Parse, Matches, Sound, Scan, Keep, FullScan, Answer, IsAscii;
      ghost var rows := matched[..matchedLen];
      ghost var answer := Answer(u, prevQuery, prevLen, rows, q, cmds);
      AnswerIsRight(u, prevQuery, seen, rows, q, cmds);
      var dst, n := Build(q, cmds);
      out := Copy(dst, n);
      assert out[..] == answer;
      scratch := matched;
      matched, matchedLen := dst, n;
      prevQuery, prevLen, seen := q, |cmds|, cmds;
      assert forall i :: 0 <= i < matchedLen ==> matched[i] == out[i] == answer[i];
    }

    /** The new match set, built in the scratch buffer (or a larger one). */
    method Build(q: string, cmds: seq<string>) returns (dst: array<int>, n: nat)
      requires Valid()
      modifies scratch
      ensures n <= dst.Length && (dst == scratch || fresh(dst))
      ensures dst[..n] == Answer(u, prevQuery, prevLen, old(matched[..matchedLen]), q, cmds)
    {
      var query := Parse(u, q);
      dst, n := scratch, 0;
      if prevQuery <= q && |cmds| >= prevLen {
        dst, n := Retest(u, query, cmds, matched, matchedLen, dst);
        dst, n := ScanFrom(u, query, cmds, prevLen, dst, n);
      } else {
        dst, n := ScanFrom(u, query, cmds, 0, dst, n);
      }
    }

    /** The next Apply scans everything. */
    method Reset()
      requires Valid()
      modifies this
      ensures Valid() && Exact() && prevQuery == "" && seen == []
      ensures matched == old(matched) && scratch == old(scratch)
    {
      prevQuery, prevLen, matchedLen, seen := "", 0, 0, [];
    }
  }

  /** A session: any sequence of ASCII queries over rows that only grow is answered, each
      time, with the full scan. */
  method Session(u: Unicode, queries: seq<string>, rows: seq<seq<string>>) returns (answers: seq<seq<int>>)
    requires |queries| == |rows|
    requires forall i :: 0 <= i < |queries| ==> IsAscii(queries[i])
    requires forall i :: 0 <= i < |rows| - 1 ==> rows[i] <= rows[i + 1] || |rows[i + 1]| < |rows[i]|
    ensures |answers| == |queries|
    ensures forall i :: 0 <= i < |queries| ==> answers[i] == FullScan(u, queries[i], rows[i])
  {
    hide Parse, Matches, Scan, FullScan, IsAscii, Sound;
    var f := new Filter(u);
    answers := [];
    assert f.Exact();
    for i := 0 to |queries|
      invariant fresh(f) && fresh(f.matched) && fresh(f.scratch)
      invariant f.u == u && f.Valid() && f.Exact() && f.seen == if i == 0 then [] else rows[i - 1]
      invariant |answers| == i && forall k :: 0 <= k < i ==> answers[k] == FullScan(u, queries[k], rows[k])
    {
      var out := f.Apply(queries[i], rows[i]);
      answers := answers + [out[..]];
    }
  }
}
