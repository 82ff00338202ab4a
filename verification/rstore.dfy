/** The on-disk cache of other hosts' sealed records: each host's stream is kept to its newest
    entries, and its record count is maintained beside it rather than counted. */
module CipherStore {
  import opened Wrappers
  import opened Wire
  import opened Bucket
  import opened Pull
  import Tx = ServerTx

  /** The stream with a batch put over it; a position already there is overwritten. */
  function Union(s: Tx.Stream, recs: seq<Pulled>): (u: Tx.Stream)
    ensures forall q :: q in u <==> q in s || exists i :: 0 <= i < |recs| && recs[i].seqNo == q
  {
    if recs == [] then s
    else
      var last := recs[|recs| - 1];
      assert recs[..|recs| - 1] + [last] == recs;
      var u := Union(s, recs[..|recs| - 1])[last.seqNo := last.record];
      assert forall i :: 0 <= i < |recs| - 1 ==> recs[i] == recs[..|recs| - 1][i];
      u
  }

  /** kept is the newest `keep` entries of all; everything when keep is not positive. */
  ghost predicate IsNewest(all: Tx.Stream, kept: Tx.Stream, keep: int) {
    && (forall q <- kept :: q in all && kept[q] == all[q])
    && (forall q, p :: q in all && q !in kept && p in kept ==> q < p)
    && (if keep <= 0 || |all| <= keep then kept == all else |kept| == keep)
  }

  lemma SubsetSize(a: set<nat>, b: set<nat>)
    requires a <= b
    ensures |a| <= |b| && (|a| == |b| ==> a == b)
  {
    assert b == a + (b - a);
  }

  lemma MapSize(m: Tx.Stream)
    ensures |m| == |m.Keys|
  {
  }

  /** There is only one such selection. */
  lemma NewestUnique(all: Tx.Stream, a: Tx.Stream, b: Tx.Stream, keep: int)
    requires IsNewest(all, a, keep) && IsNewest(all, b, keep)
    ensures a == b
  {
    MapSize(a);
    MapSize(b);
    if q :| q in a && q !in b {
      assert b.Keys <= a.Keys;
      SubsetSize(b.Keys, a.Keys);
    } else if q :| q in b && q !in a {
      assert a.Keys <= b.Keys;
      SubsetSize(a.Keys, b.Keys);
    }
  }

  lemma {:induction false} UnionOver(a: Tx.Stream, b: Tx.Stream, recs: seq<Pulled>)
    requires forall q <- a :: q in b && a[q] == b[q]
    ensures forall q <- Union(a, recs) :: q in Union(b, recs) && Union(a, recs)[q] == Union(b, recs)[q]
  {
    if recs != [] {
      UnionOver(a, b, recs[..|recs| - 1]);
    }
  }

  /** Evicting before a batch arrives changes nothing about what is kept after it. */
  lemma NewestComposes(all: Tx.Stream, kept: Tx.Stream, recs: seq<Pulled>, after: Tx.Stream, keep: int)
    requires IsNewest(all, kept, keep) && IsNewest(Union(kept, recs), after, keep)
    ensures IsNewest(Union(all, recs), after, keep)
  {
    hide Union;
    var u, v := Union(all, recs), Union(kept, recs);
    UnionOver(kept, all, recs);
    MapSize(u);
    MapSize(v);
    MapSize(kept);
    MapSize(after);
    SubsetSize(v.Keys, u.Keys);
    SubsetSize(kept.Keys, v.Keys);
    if kept != all {
      forall q, p | q in u && q !in after && p in after ensures q < p {
        if q !in v {
          NewerThanEvicted(all, kept, v, after, keep, q, p);
        }
      }
    }
  }

  /** What is kept afterwards is newer than anything evicted before. */
  lemma NewerThanEvicted(all: Tx.Stream, kept: Tx.Stream, v: Tx.Stream, after: Tx.Stream, keep: int, q: nat, p: nat)
    requires IsNewest(all, kept, keep) && kept.Keys <= v.Keys && IsNewest(v, after, keep)
    requires q in all && q !in v && p in after
    ensures q < p
  {
    if p <= q {
      assert p !in kept;
      forall k <- kept ensures k in after {
        assert q < k;
      }
      MapSize(kept);
      MapSize(after);
      MapSize(v);
      SubsetSize(kept.Keys, v.Keys);
      SubsetSize(kept.Keys + {p}, after.Keys);
      assert false;
    }
  }

  function UnionAll(batches: seq<seq<Pulled>>): Tx.Stream {
    if batches == [] then map[] else Union(UnionAll(batches[..|batches| - 1]), batches[|batches| - 1])
  }

  /** The states one host's stream goes through, a batch at a time. */
  ghost predicate IsCacheRun(states: seq<Tx.Stream>, batches: seq<seq<Pulled>>, keep: int) {
    && |states| == |batches| + 1 && states[0] == map[]
    && forall i :: 0 <= i < |batches| ==> IsNewest(Union(states[i], batches[i]), states[i + 1], keep)
  }

  /** After any batches, repeated positions included, the cache is the newest of all that ever
      came. */
  lemma {:induction false} RunKeepsNewest(states: seq<Tx.Stream>, batches: seq<seq<Pulled>>, keep: int)
    requires IsCacheRun(states, batches, keep)
    ensures IsNewest(UnionAll(batches), states[|batches|], keep)
  {
    if batches != [] {
      var n := |batches| - 1;
      assert forall i :: 0 <= i < n ==> batches[..n][i] == batches[i];
      RunKeepsNewest(states[..n + 1], batches[..n], keep);
      NewestComposes(UnionAll(batches[..n]), states[n], batches[n], states[n + 1], keep);
    }
  }

  class Cache {
    var streams: map<HostId, Tx.Stream>
    var counts: map<HostId, nat>
    var cursors: map<HostId, nat>

    function Stream(host: HostId): Tx.Stream
      reads this
    {
      if host in streams then streams[host] else map[]
    }

    function Count(host: HostId): nat
      reads this
    {
      if host in counts then counts[host] else 0
    }

    /** The count beside each stream is the number of its records. */
    ghost predicate Valid()
      reads this
    {
      forall h :: Count(h) == |Stream(h)|
    }

    constructor ()
      ensures Valid() && forall h :: Stream(h) == map[]
    {
      streams, counts, cursors := map[], map[], map[];
    }

    /** Delete from the front until at most `keep` remain; the cursor starts over each time. */
    static method Trim(b: Tx.Stream, count: nat, keep: int) returns (b': Tx.Stream, deleted: nat)
      requires count == |b|
      ensures IsNewest(b, b', keep) && deleted == |b| - |b'|
    {
      b', deleted := b, 0;
      if keep <= 0 || count <= keep { return; }
      var excess := count - keep;
      while deleted < excess
        invariant deleted <= excess && |b'| == |b| - deleted
        invariant forall q <- b' :: q in b && b'[q] == b[q]
        invariant forall q, p :: q in b && q !in b' && p in b' ==> q < p
      {
        MapSize(b');
        var k := Seek(b'.Keys, 0);
        if k.None? { break; }
        assert |b'.Keys - {k.value}| == |b'.Keys| - 1;
        b' := b' - {k.value};
        MapSize(b');
        deleted := deleted + 1;
      }
    }

    static method PutAll(s: Tx.Stream, n: nat, recs: seq<Pulled>) returns (b: Tx.Stream, count: nat)
      requires n == |s|
      ensures b == Union(s, recs) && count == |b|
    {
      b, count := s, n;
      for i := 0 to |recs|
        invariant b == Union(s, recs[..i]) && count == |b|
      {
        assert recs[..i + 1][..i] == recs[..i];
        var isNew := recs[i].seqNo !in b;
        b := b[recs[i].seqNo := recs[i].record];
        if isNew {
          count := count + 1;
        }
      }
      assert recs[..|recs|] == recs;
    }

    method Put(host: HostId, b: Tx.Stream, count: nat, cursor: nat)
      requires Valid() && count == |b|
      modifies this
      ensures Valid() && Stream(host) == b && streams == old(streams)[host := b] && cursors == old(cursors)[host := cursor]
    {
      streams := streams[host := b];
      counts := counts[host := count];
      cursors := cursors[host := cursor];
      forall h ensures Count(h) == |Stream(h)| {
        if h != host {
          assert old(Count(h)) == |old(Stream(h))|;
          assert Stream(h) == old(Stream(h)) && Count(h) == old(Count(h));
        }
      }
    }

    /** One batch for one host: stored, trimmed and counted in one transaction. */
    method Append(host: HostId, recs: seq<Pulled>, cursor: nat, keep: int) returns (trimmed: nat, ok: bool)
      requires Valid()
      modifies this
      ensures Valid() && (ok <==> host != "")
      ensures !ok ==> streams == old(streams) && counts == old(counts) && cursors == old(cursors) && trimmed == 0
      ensures ok ==> IsNewest(Union(old(Stream(host)), recs), Stream(host), keep)
      ensures ok ==> trimmed == |Union(old(Stream(host)), recs)| - |Stream(host)|
      ensures ok ==> cursors == old(cursors)[host := cursor] && streams == old(streams)[host := Stream(host)]
    {
      hide IsNewest, Union;
      if host == "" { return 0, false; }
      var b, count := PutAll(Stream(host), Count(host), recs);
      b, trimmed := Trim(b, count, keep);
      Put(host, b, count - trimmed, cursor);
      ok := true;
    }

    /** One host's records in ascending order. */
    method Records(host: HostId) returns (rs: seq<Pulled>)
      ensures AscendingPulled(rs) && forall p :: p in rs <==> p.seqNo in Stream(host) && Stream(host)[p.seqNo] == p.record
    {
      var s := Stream(host);
      rs := [];
      ghost var next := 0;
      var k := Seek(s.Keys, 0);
      while k.Some?
        invariant AscendingPulled(rs) && forall i :: 0 <= i < |rs| ==> rs[i].seqNo < next
        invariant forall p :: p in rs <==> p.seqNo in s && s[p.seqNo] == p.record && p.seqNo < next
        invariant k.None? ==> forall q <- s :: q < next
        invariant k.Some? ==> k.value in s && next <= k.value && forall q <- s :: next <= q ==> k.value <= q
        decreases Above(s.Keys, next)
      {
        assert k.value in Above(s.Keys, next);
        rs := rs + [Pulled(k.value, s[k.value])];
        next := k.value + 1;
        k := Seek(s.Keys, k.value + 1);
      }
    }

    method Reset()
      modifies this
      ensures Valid() && cursors == map[] && forall h :: Stream(h) == map[]
    {
      streams, counts, cursors := map[], map[], map[];
    }
  }
}
