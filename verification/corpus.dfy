/** The search corpus the daemon keeps in memory, folded from the log batch by batch, against
    the corpus read straight from the store. */
module Corpus {
  import opened Wrappers
  import opened Wire
  import opened Store
  import opened Tags

  function Targets(rows: seq<Record>): set<string> {
    set i | 0 <= i < |rows| && rows[i].kind == TYPE_DELETE && rows[i].targetId != "" :: rows[i].targetId
  }

  function Without(rows: seq<Record>, ids: set<string>): seq<Record> {
    if rows == [] then []
    else Without(rows[..|rows| - 1], ids) + if rows[|rows| - 1].id in ids then [] else [rows[|rows| - 1]]
  }

  /** The live rows join the corpus, and whatever the rows' tombstones name leaves it. */
  function Folded(corpus: seq<Record>, rows: seq<Record>): seq<Record> {
    Without(corpus + Live(rows), Targets(rows))
  }

  /** A live command comes after a tombstone for it among the same rows. */
  ghost predicate EarlyTombstone(rows: seq<Record>) {
    exists i, j :: 0 <= j < i < |rows| && Deletes(rows[j], rows[i].id) && IsCommand(rows[i])
  }

  /** Every tombstone comes after the record it names. */
  ghost predicate TombstonesFollow(log: seq<Record>) {
    forall i, j :: 0 <= j < i < |log| ==> !Deletes(log[j], log[i].id)
  }

  // ---- dropping rows ----

  lemma {:induction false} WithoutConcat(a: seq<Record>, b: seq<Record>, ids: set<string>)
    ensures Without(a + b, ids) == Without(a, ids) + Without(b, ids)
  {
    if b == [] {
      assert a + b == a;
    } else {
      assert (a + b)[..|a + b| - 1] == a + b[..|b| - 1];
      WithoutConcat(a, b[..|b| - 1], ids);
    }
  }

  lemma {:induction false} WithoutHolds(rows: seq<Record>, ids: set<string>, r: Record)
    ensures r in Without(rows, ids) <==> r in rows && r.id !in ids
  {
    if rows != [] {
      WithoutHolds(rows[..|rows| - 1], ids, r);
      assert rows == rows[..|rows| - 1] + [rows[|rows| - 1]];
    }
  }

  /** Dropping changes nothing exactly when there is nothing to drop. */
  lemma {:induction false} WithoutNone(rows: seq<Record>, ids: set<string>)
    ensures Without(rows, ids) == rows <==> forall r <- rows :: r.id !in ids
  {
    if r :| r in rows && r.id in ids {
      WithoutHolds(rows, ids, r);
    } else if rows != [] {
      assert rows == rows[..|rows| - 1] + [rows[|rows| - 1]];
      WithoutNone(rows[..|rows| - 1], ids);
    }
  }

  lemma TargetsAre(rows: seq<Record>, id: string)
    ensures id in Targets(rows) <==> Targeted(rows, id)
  {
    if j :| 0 <= j < |rows| && Deletes(rows[j], id) {
      assert rows[j].targetId == id;
    }
  }

  // ---- what a fold computes ----

  /** Of the records already there, the live ones afterwards are those no new tombstone names. */
  lemma {:induction false} LiveAfter(a: seq<Record>, b: seq<Record>, k: nat)
    requires Grew(a, b) && k <= |a|
    ensures Live(b[..k]) == Without(Live(a[..k]), Targets(b[|a|..]))
  {
    hide Live, Without, Targets;
    if k > 0 {
      var gone := Targets(b[|a|..]);
      LiveAfter(a, b, k - 1);
      assert b[..k] == b[..k - 1] + [b[k - 1]] && a[..k] == a[..k - 1] + [a[k - 1]];
      LiveConcat(a[..k - 1], [a[k - 1]]);
      LiveConcat(b[..k - 1], [b[k - 1]]);
      LiveOne(a[k - 1]);
      LiveOne(b[k - 1]);
      TargetsAre(b[|a|..], a[k - 1].id);
      WithoutConcat(Live(a[..k - 1]), Live([a[k - 1]]), gone);
      WithoutOne(a[k - 1], gone);
      WithoutNone([], gone);
    } else {
      assert b[..0] == [] && a[..0] == [];
      NothingLive(Targets(b[|a|..]));
    }
  }

  lemma DropsLive(rows: seq<Record>)
    requires forall i, j :: 0 <= i < j < |rows| && Deletes(rows[j], rows[i].id) ==> rows[i].deletedMs != 0
    ensures (forall r <- Live(rows) :: r.id !in Targets(rows)) <==> !EarlyTombstone(rows)
  {
    if EarlyTombstone(rows) {
      var i, j :| 0 <= j < i < |rows| && Deletes(rows[j], rows[i].id) && IsCommand(rows[i]);
      LiveHolds(rows, rows[i]);
      TargetsAre(rows, rows[i].id);
    } else {
      forall r <- Live(rows) ensures r.id !in Targets(rows) {
        LiveHolds(rows, r);
        TargetsAre(rows, r.id);
        var i :| 0 <= i < |rows| && rows[i] == r;
        if j :| 0 <= j < |rows| && Deletes(rows[j], r.id) {
          assert j != i;
        }
      }
    }
  }

  /** Folding what was appended into an exact corpus gives the exact corpus again, unless one
      of the new live commands had its tombstone before it in the same fold. The earlier corpus
      may be the one in memory, for a refresh, or the one in a snapshot, for a warm start. */
  lemma FoldIsExact(a: seq<Record>, b: seq<Record>)
    requires IsLog(b) && Grew(a, b)
    ensures Folded(Live(a), b[|a|..]) == Live(b) <==> !EarlyTombstone(b[|a|..])
  {
    hide EarlyTombstone, Targeted, Deletes, Live, Without, Targets, IsLog;
    var rows, gone := b[|a|..], Targets(b[|a|..]);
    LiveAfter(a, b, |a|);
    assert a[..|a|] == a && b == b[..|a|] + rows;
    LiveConcat(b[..|a|], rows);
    WithoutConcat(Live(a), Live(rows), gone);
    var kept := Without(Live(a), gone);
    assert Folded(Live(a), rows) == kept + Without(Live(rows), gone);
    assert Live(b) == kept + Live(rows);
    SameRest(kept, Without(Live(rows), gone), Live(rows));
    WithoutNone(Live(rows), gone);
    TailMarked(b, |a|);
    DropsLive(rows);
  }

  lemma SameRest(kept: seq<Record>, xs: seq<Record>, ys: seq<Record>)
    ensures kept + xs == kept + ys <==> xs == ys
  {
    assert (kept + xs)[|kept|..] == xs;
    assert (kept + ys)[|kept|..] == ys;
  }

  lemma TailMarked(b: seq<Record>, k: nat)
    requires IsLog(b) && k <= |b|
    ensures var rows := b[k..]; forall i, j :: 0 <= i < j < |rows| && Deletes(rows[j], rows[i].id) ==> rows[i].deletedMs != 0
  {
  }

  lemma FollowTail(b: seq<Record>, k: nat)
    requires TombstonesFollow(b) && k <= |b|
    ensures !EarlyTombstone(b[k..])
  {
  }

  lemma FollowEarlier(a: seq<Record>, b: seq<Record>)
    requires Grew(a, b) && TombstonesFollow(b)
    ensures TombstonesFollow(a)
  {
    forall i, j | 0 <= j < i < |a| ensures !Deletes(a[j], a[i].id) {
      assert !Deletes(b[j], b[i].id);
    }
  }

  // ---- every batch split ----

  function AppendedBatches(log: seq<Record>, batches: seq<seq<Draft>>, hostId: HostId, hostname: string): seq<Record>
    decreases |batches|
  {
    if batches == [] then log
    else AppendedBatches(AppendedAll(log, batches[0], hostId, hostname), batches[1..], hostId, hostname)
  }

  predicate BatchesDrawn(log: seq<Record>, batches: seq<seq<Draft>>, hostId: HostId, hostname: string)
    decreases |batches|
  {
    batches == [] || (AllDrawn(log, batches[0], hostId, hostname)
                      && BatchesDrawn(AppendedAll(log, batches[0], hostId, hostname), batches[1..], hostId, hostname))
  }

  /** The corpus after ingesting and folding one batch after the other. */
  function FoldedBatches(corpus: seq<Record>, log: seq<Record>, batches: seq<seq<Draft>>, hostId: HostId, hostname: string): seq<Record>
    requires IsLog(log) && BatchesDrawn(log, batches, hostId, hostname)
    decreases |batches|
  {
    if batches == [] then corpus
    else
      var log' := AppendedAll(log, batches[0], hostId, hostname);
      BatchGrows(log, batches[0], hostId, hostname);
      FoldedBatches(Folded(corpus, log'[|log|..]), log', batches[1..], hostId, hostname)
  }

  lemma {:induction false} BatchesGrow(log: seq<Record>, batches: seq<seq<Draft>>, hostId: HostId, hostname: string)
    requires IsLog(log) && BatchesDrawn(log, batches, hostId, hostname)
    ensures var end := AppendedBatches(log, batches, hostId, hostname); IsLog(end) && Grew(log, end)
    decreases |batches|
  {
    hide IsLog, Grew;
    if batches == [] {
      GrewReflexive(log);
    } else {
      var mid := AppendedAll(log, batches[0], hostId, hostname);
      BatchGrows(log, batches[0], hostId, hostname);
      BatchesGrow(mid, batches[1..], hostId, hostname);
      GrewTransitive(log, mid, AppendedBatches(log, batches, hostId, hostname));
    }
  }

  /** However the appends are split into folds, the corpus in memory is the store's own. */
  lemma {:induction false} SplitsDoNotMatter(log: seq<Record>, batches: seq<seq<Draft>>, hostId: HostId, hostname: string)
    requires IsLog(log) && BatchesDrawn(log, batches, hostId, hostname)
    requires TombstonesFollow(AppendedBatches(log, batches, hostId, hostname))
    ensures FoldedBatches(Live(log), log, batches, hostId, hostname) == Live(AppendedBatches(log, batches, hostId, hostname))
    decreases |batches|
  {
    hide IsLog, Grew, Folded, EarlyTombstone, TombstonesFollow;
    if batches != [] {
      var mid := AppendedAll(log, batches[0], hostId, hostname);
      BatchGrows(log, batches[0], hostId, hostname);
      BatchesGrow(mid, batches[1..], hostId, hostname);
      FollowEarlier(mid, AppendedBatches(log, batches, hostId, hostname));
      Tail(log, mid);
      FollowTail(mid, |log|);
      FoldIsExact(log, mid);
      SplitsDoNotMatter(mid, batches[1..], hostId, hostname);
    }
  }

  lemma Tail(a: seq<Record>, b: seq<Record>)
    requires Grew(a, b)
    ensures |a| <= |b|
  {
  }

  /** A tombstone that comes before its target is where splits do matter: folded together the
      command is dropped, folded apart it stays, and the store has it. */
  lemma EarlyTombstoneSplits(t: Record, c: Record)
    requires t.kind == TYPE_DELETE && t.targetId != "" && t.targetId == c.id && IsCommand(c)
    ensures Folded([], [t, c]) == [] && Folded(Folded([], [t]), [c]) == [c] == Live([t, c])
  {
    hide Live, Without, Targets;
    LiveOne(t);
    LiveOne(c);
    LiveConcat([t], [c]);
    assert [t] + [c] == [t, c];
    assert Deletes([t, c][0], c.id);
    TargetsAre([t, c], c.id);
    TargetsAre([c], c.id);
    WithoutOne(c, Targets([t, c]));
    WithoutOne(c, Targets([c]));
    WithoutNone([], Targets([t]));
    assert [] + [c] == [c] && [] + Live([t]) == [];
  }

  lemma LiveOne(r: Record)
    ensures Live([r]) == if IsCommand(r) then [r] else []
  {
    assert [r][..0] == [];
  }

  lemma WithoutOne(r: Record, ids: set<string>)
    ensures Without([r], ids) == if r.id in ids then [] else [r]
  {
    assert [r][..0] == [];
  }

  // ---- tags ----

  /** Marks on tag records do not change the index. */
  lemma {:induction false} ReplayIgnoresMarks(x: Index, a: seq<Record>, b: seq<Record>, norm: string -> string)
    requires |a| == |b| && forall i :: 0 <= i < |a| ==> b[i] == a[i].(deletedMs := b[i].deletedMs)
    ensures Replay(x, a, norm) == Replay(x, b, norm)
  {
    if a != [] {
      ReplayIgnoresMarks(x, a[..|a| - 1], b[..|a| - 1], norm);
    }
  }

  /** Folding the new rows into the index keeps it the index of the whole log. */
  lemma TagsGrow(a: seq<Record>, b: seq<Record>, norm: string -> string)
    requires Grew(a, b)
    ensures Replay(Replay(Tags.EMPTY, a, norm), b[|a|..], norm) == Replay(Tags.EMPTY, b, norm)
  {
    assert b == b[..|a|] + b[|a|..];
    ReplayConcat(Tags.EMPTY, b[..|a|], b[|a|..], norm);
    ReplayIgnoresMarks(Tags.EMPTY, a, b[..|a|], norm);
  }

  // ---- the daemon ----

  datatype Snapshot = Snapshot(lastSeq: nat, records: seq<Record>)

  ghost predicate Alongside(corpus: seq<Record>, cmds: seq<string>) {
    |cmds| == |corpus| && forall i :: 0 <= i < |corpus| ==> cmds[i] == corpus[i].cmd
  }

  function Latest(seqNo: nat, rows: seq<Record>): nat {
    if rows == [] then seqNo
    else
      var n := Latest(seqNo, rows[..|rows| - 1]);
      if rows[|rows| - 1].seqNo > n then rows[|rows| - 1].seqNo else n
  }

  lemma {:induction false} LatestOfTail(b: seq<Record>, k: nat, n: nat)
    requires IsLog(b) && k <= n <= |b|
    ensures Latest(k, b[k..n]) == n
  {
    if k < n {
      LatestOfTail(b, k, n - 1);
      assert b[k..n][..n - k - 1] == b[k..n - 1];
    }
  }

  /** Rebuild rows and texts without some ids. */
  method Dropped(rows: seq<Record>, cmds: seq<string>, ids: set<string>) returns (kept: seq<Record>, keptCmds: seq<string>)
    requires Alongside(rows, cmds)
    ensures Alongside(kept, keptCmds) && kept == Without(rows, ids)
  {
    kept, keptCmds := [], [];
    for i := 0 to |rows|
      invariant Alongside(kept, keptCmds) && kept == Without(rows[..i], ids)
    {
      assert rows[..i + 1][..i] == rows[..i];
      if rows[i].id in ids { continue; }
      kept := kept + [rows[i]];
      keptCmds := keptCmds + [rows[i].cmd];
    }
    assert rows[..|rows|] == rows;
  }

  /** The second pass of a fold: the live rows that no tombstone of the batch names. */
  method AddLive(corpus: seq<Record>, cmds: seq<string>, rows: seq<Record>, deleted: set<string>)
    returns (corpus': seq<Record>, cmds': seq<string>)
    requires Alongside(corpus, cmds)
    ensures Alongside(corpus', cmds') && corpus' == corpus + Without(Live(rows), deleted)
  {
    hide Live, Without;
    corpus', cmds' := corpus, cmds;
    NothingLive(deleted);
    assert rows[..0] == [];
    for i := 0 to |rows|
      invariant Alongside(corpus', cmds') && corpus' == corpus + Without(Live(rows[..i]), deleted)
    {
      LiveStep(rows, i, deleted);
      if !IsCommand(rows[i]) { continue; }
      if rows[i].id in deleted { continue; }
      corpus' := corpus' + [rows[i]];
      cmds' := cmds' + [rows[i].cmd];
    }
    assert rows[..|rows|] == rows;
  }

  lemma NothingLive(ids: set<string>)
    ensures Live([]) == [] && Without(Live([]), ids) == []
  {
  }

  /** What can happen to the daemon, one step at a time. */
  datatype Op = Ingest(ds: seq<Draft>) | Delete(id: string, newId: string, now: int) | Save | Restart(ds: seq<Draft>)

  function LogAfter(log: seq<Record>, op: Op, hostId: HostId, hostname: string): seq<Record> {
    match op
    case Ingest(ds) => AppendedAll(log, ds, hostId, hostname)
    case Delete(id, newId, now) => Appended(log, Tombstone(id, newId, now), hostId, hostname)
    case Save => log
    case Restart(ds) => AppendedAll(log, ds, hostId, hostname)
  }

  predicate OpDrawn(log: seq<Record>, op: Op, hostId: HostId, hostname: string) {
    match op
    case Ingest(ds) => AllDrawn(log, ds, hostId, hostname)
    case Delete(id, newId, now) => newId != "" && !Known(log, newId) && now != 0
    case Save => true
    case Restart(ds) => AllDrawn(log, ds, hostId, hostname)
  }

  function LogAfterAll(log: seq<Record>, ops: seq<Op>, hostId: HostId, hostname: string): seq<Record>
    decreases |ops|
  {
    if ops == [] then log else LogAfterAll(LogAfter(log, ops[0], hostId, hostname), ops[1..], hostId, hostname)
  }

  predicate OpsDrawn(log: seq<Record>, ops: seq<Op>, hostId: HostId, hostname: string)
    decreases |ops|
  {
    ops == [] || (OpDrawn(log, ops[0], hostId, hostname)
                  && OpsDrawn(LogAfter(log, ops[0], hostId, hostname), ops[1..], hostId, hostname))
  }

  lemma OpGrows(log: seq<Record>, op: Op, hostId: HostId, hostname: string)
    requires IsLog(log) && OpDrawn(log, op, hostId, hostname)
    ensures IsLog(LogAfter(log, op, hostId, hostname)) && Grew(log, LogAfter(log, op, hostId, hostname))
  {
    hide IsLog, Grew, AppendedAll, Appended;
    match op
    case Ingest(ds) => BatchGrows(log, ds, hostId, hostname);
    case Delete(id, newId, now) => AppendGrows(log, Tombstone(id, newId, now), hostId, hostname);
    case Save => GrewReflexive(log);
    case Restart(ds) => BatchGrows(log, ds, hostId, hostname);
  }

  lemma {:induction false} OpsGrow(log: seq<Record>, ops: seq<Op>, hostId: HostId, hostname: string)
    requires IsLog(log) && OpsDrawn(log, ops, hostId, hostname)
    ensures IsLog(LogAfterAll(log, ops, hostId, hostname)) && Grew(log, LogAfterAll(log, ops, hostId, hostname))
    decreases |ops|
  {
    hide IsLog, Grew, LogAfter, OpDrawn;
    if ops == [] {
      GrewReflexive(log);
    } else {
      var mid := LogAfter(log, ops[0], hostId, hostname);
      OpGrows(log, ops[0], hostId, hostname);
      OpsGrow(mid, ops[1..], hostId, hostname);
      GrewTransitive(log, mid, LogAfterAll(log, ops, hostId, hostname));
    }
  }

  class Daemon {
    const store: Database
    const norm: string -> string
    var tags: TagIndex
    var corpus: seq<Record>
    var cmds: seq<string>
    var lastSeq: nat
    var snap: Option<Snapshot>       // the file on disk
    ghost var snapLog: seq<Record>   // the log when it was written

    ghost predicate Valid()
      reads this, store, tags
    {
      && store.Valid() && tags.norm == norm
      && (snap.Some? ==> Grew(snapLog, store.Log()) && snap.value == Snapshot(|snapLog|, Live(snapLog)))
    }

    /** Memory agrees with the store. */
    ghost predicate Exact()
      reads this, store, tags
    {
      && Alongside(corpus, cmds)
      && lastSeq == store.sequence
      && corpus == Live(store.Log())
      && tags.State() == Replay(Tags.EMPTY, store.Log(), norm)
    }

    constructor (store: Database, norm: string -> string)
      requires store.Valid() && store.Log() == []
      ensures Valid() && Exact() && this.store == store && this.norm == norm && snap == None
    {
      this.store, this.norm := store, norm;
      tags := new TagIndex(norm);
      corpus, cmds, lastSeq, snap, snapLog := [], [], 0, None, [];
    }

    method DropFromCorpus(ids: set<string>)
      requires Alongside(corpus, cmds)
      modifies this`corpus, this`cmds
      ensures Alongside(corpus, cmds) && corpus == Without(old(corpus), ids)
      ensures forall r :: r in corpus <==> r in old(corpus) && r.id !in ids
    {
      forall r ensures r in Without(corpus, ids) <==> r in corpus && r.id !in ids {
        WithoutHolds(corpus, ids, r);
      }
      corpus, cmds := Dropped(corpus, cmds, ids);
    }

    /** The first pass: positions, tombstones and tags. */
    method ScanRows(rows: seq<Record>) returns (deleted: set<string>)
      requires tags.norm == norm
      modifies this`lastSeq, tags
      ensures deleted == Targets(rows) && lastSeq == Latest(old(lastSeq), rows)
      ensures tags.State() == Replay(old(tags.State()), rows, norm)
    {
      deleted := {};
      for i := 0 to |rows|
        invariant deleted == Targets(rows[..i]) && lastSeq == Latest(old(lastSeq), rows[..i])
        invariant tags.State() == Replay(old(tags.State()), rows[..i], norm)
      {
        TargetsStep(rows, i);
        assert rows[..i + 1][..i] == rows[..i];
        if rows[i].seqNo > lastSeq {
          lastSeq := rows[i].seqNo;
        }
        if rows[i].kind == TYPE_DELETE && rows[i].targetId != "" {
          deleted := deleted + {rows[i].targetId};
        }
        if rows[i].kind == TYPE_TAG {
          tags.Apply(rows[i]);
        }
      }
      assert rows[..|rows|] == rows;
    }

    method FoldRows(rows: seq<Record>)
      requires Alongside(corpus, cmds) && tags.norm == norm
      modifies this`corpus, this`cmds, this`lastSeq, tags
      ensures Alongside(corpus, cmds)
      ensures corpus == Folded(old(corpus), rows)
      ensures lastSeq == Latest(old(lastSeq), rows)
      ensures tags.State() == Replay(old(tags.State()), rows, norm)
    {
      hide Alongside, Live, Without, Targets, Latest, Replay, TagIndex.State;
      var deleted := ScanRows(rows);
      corpus, cmds := AddLive(corpus, cmds, rows, deleted);
      DropTwice(old(corpus), Live(rows), deleted);
      if deleted != {} {
        DropFromCorpus(deleted);
      }
    }

    /** Fold in whatever the log holds past the last position. */
    method RefreshCorpus(ghost before: seq<Record>)
      requires Valid() && Alongside(corpus, cmds)
      requires Grew(before, store.Log()) && lastSeq == |before| && corpus == Live(before)
      requires tags.State() == Replay(Tags.EMPTY, before, norm)
      modifies this`corpus, this`cmds, this`lastSeq, tags
      ensures Valid() && (Exact() <==> !EarlyTombstone(store.Log()[|before|..]))
    {
      hide Grew, IsLog, Folded, Replay, EarlyTombstone, Live, TagIndex.State, Alongside;
      ghost var log := store.Log();
      var rows := store.Since(lastSeq, 0);
      FoldIsExact(before, log);
      Tail(before, log);
      assert log[..|log|] == log;
      LatestOfTail(log, |before|, |log|);
      TagsGrow(before, log, norm);
      assert rows == log[|before|..];
      if rows == [] {
        NothingNew(before, log);
        NoEarlyTombstone(log[|before|..]);
        return;
      }
      FoldRows(rows);
    }

    /** Drain the spool and fold: the two steps run with no delete in between. */
    method DoIngest(ds: seq<Draft>)
      requires Valid() && Exact() && AllDrawn(store.Log(), ds, store.hostId, store.hostname)
      modifies this`corpus, this`cmds, this`lastSeq, store, tags
      ensures Valid() && store.Log() == AppendedAll(old(store.Log()), ds, store.hostId, store.hostname)
      ensures old(store.sequence) <= store.sequence
      ensures Exact() <==> !EarlyTombstone(store.Log()[old(store.sequence)..])
    {
      hide IsLog, Grew, EarlyTombstone, Live;
      ghost var before := store.Log();
      BatchGrows(before, ds, store.hostId, store.hostname);
      var n := store.AppendBatch(ds);
      if snap.Some? {
        GrewTransitive(snapLog, before, store.Log());
      }
      Tail(before, store.Log());
      if n == 0 {
        NothingNew(before, store.Log());
        NoEarlyTombstone(store.Log()[|before|..]);
        return;
      }
      RefreshCorpus(before);
    }

    method AppendTombstone(id: string, newId: string, now: int)
      requires store.Valid() && newId != "" && !Known(store.Log(), newId) && now != 0
      modifies store
      ensures store.Valid() && store.Log() == Appended(old(store.Log()), Tombstone(id, newId, now), store.hostId, store.hostname)
      ensures store.sequence == old(store.sequence) + 1 && IsTombstone(store.Log()[store.sequence - 1], id, newId, now)
    {
      hide IsLog, Known, Appended, Database.Inverse, IsTombstone, StoredAs, Remarked;
      var row, _ := store.AppendOne(Tombstone(id, newId, now));
      TombstoneStored(row, id, newId, now, store.sequence, store.hostId, store.hostname);
    }

    /** Write a tombstone and drop its target; no ingest runs in between. */
    method DeleteRecord(id: string, newId: string, now: int)
      requires Valid() && Exact() && newId != "" && !Known(store.Log(), newId) && now != 0
      modifies this`corpus, this`cmds, this`lastSeq, store
      ensures Valid() && Exact()
      ensures store.Log() == Appended(old(store.Log()), Tombstone(id, newId, now), store.hostId, store.hostname)
      ensures forall r :: r in corpus <==> r in old(corpus) && r.id != id
      ensures store.sequence == old(store.sequence) + 1 && IsTombstone(store.Log()[store.sequence - 1], id, newId, now)
    {
      hide IsLog, Grew, Live, Without, Replay, Known, Marked, Alongside, Database.Inverse, TagIndex.State, IsTombstone;
      ghost var before := store.Log();
      AppendGrows(before, Tombstone(id, newId, now), store.hostId, store.hostname);
      AppendTombstone(id, newId, now);
      if snap.Some? {
        GrewTransitive(snapLog, before, store.Log());
      }
      if store.sequence > lastSeq {
        lastSeq := store.sequence;
      }
      DropFromCorpus({id});
      TombstoneDrops(before, store.Log(), id);
      TagsGrow(before, store.Log(), norm);
      assert store.Log()[|before|..] == [store.Log()[|before|]];
      NotATag(Replay(Tags.EMPTY, before, norm), store.Log()[|before|], norm);
    }

    method SnapshotNow()
      requires Valid() && Exact()
      modifies this`snap, this`snapLog
      ensures Valid() && Exact() && snap == Some(Snapshot(store.sequence, Live(store.Log())))
    {
      snap := Some(Snapshot(lastSeq, corpus));
      snapLog := store.Log();
      GrewReflexive(store.Log());
    }

    /** Fill memory for a fresh process: from the snapshot and the rows after it if there is
        one the store has reached, from the whole store otherwise. */
    method LoadCorpus()
      requires store.Valid() && tags.norm == norm && tags.State() == Tags.EMPTY
      requires snap.Some? && snap.value.lastSeq <= store.sequence
               ==> Grew(snapLog, store.Log()) && snap.value == Snapshot(|snapLog|, Live(snapLog))
      modifies this`corpus, this`cmds, this`lastSeq, tags
      ensures Alongside(corpus, cmds) && lastSeq == store.sequence
      ensures var log := store.Log(); if snap.Some? && snap.value.lastSeq <= |log|
        then (corpus == Live(log) <==> !EarlyTombstone(log[snap.value.lastSeq..]))
             && tags.State() == Replay(Tags.EMPTY, log[snap.value.lastSeq..], norm)
        else corpus == Live(log) && tags.State() == Tags.EMPTY
    {
      hide IsLog, Grew, Folded, Live, EarlyTombstone;
      ghost var log := store.Log();
      assert log[..|log|] == log;
      if snap.Some? {
        var s := snap.value;
        if s.lastSeq <= store.sequence {
          corpus := s.records;
          cmds := Commands(s.records);
          lastSeq := s.lastSeq;
          var tail := store.Since(s.lastSeq, 0);
          assert tail == log[s.lastSeq..];
          FoldIsExact(snapLog, log);
          LatestOfTail(log, s.lastSeq, |log|);
          FoldRows(tail);
          return;
        }
      }
      corpus := store.All();
      cmds := Commands(corpus);
      lastSeq := store.sequence;
    }

    /** A fresh process over the same store and disk: drain, load, seed the tags. */
    method Start(ds: seq<Draft>)
      requires Valid() && AllDrawn(store.Log(), ds, store.hostId, store.hostname)
      modifies this, store
      ensures Valid() && store.Log() == AppendedAll(old(store.Log()), ds, store.hostId, store.hostname)
      ensures snap == old(snap) && snapLog == old(snapLog) && fresh(tags)
      ensures if snap.None? then Exact() else Exact() <==> !EarlyTombstone(store.Log()[snap.value.lastSeq..])
    {
      hide IsLog, Grew, EarlyTombstone, Live, Alongside, Replay, TagIndex.State, AllDrawn, AppendedAll, Database.Inverse;
      ghost var before := store.Log();
      BatchGrows(before, ds, store.hostId, store.hostname);
      tags := new TagIndex(norm);
      var _ := store.AppendBatch(ds);
      if snap.Some? {
        GrewTransitive(snapLog, before, store.Log());
        Tail(snapLog, store.Log());
      }
      LoadCorpus();
      ghost var early := if snap.Some? then store.Log()[snap.value.lastSeq..] else [];
      ReplayNothing(Tags.EMPTY, norm);
      SeedTags(early);
    }

    /** Fold every tag record of the store, from a scan of its own. */
    method SeedTags(ghost early: seq<Record>)
      requires store.Valid() && tags.norm == norm
      requires (forall r <- early :: r in store.Log()) && tags.State() == Replay(Tags.EMPTY, early, norm)
      modifies tags
      ensures tags.State() == Replay(Tags.EMPTY, store.Log(), norm)
    {
      ghost var x := tags.State();
      ghost var log := store.Log();
      for q := 0 to store.sequence
        invariant tags.State() == Replay(x, log[..q], norm)
      {
        var r := store.history[q + 1];
        assert log[..q + 1][..q] == log[..q] && log[..q + 1][q] == r;
        if r.kind == TYPE_TAG {
          tags.Apply(r);
        }
      }
      assert log[..|log|] == log;
      ReplayAbsorbs(early, log, norm);
    }
  }

  /** One step of a daemon whose memory is exact leaves it exact. */
  method Perform(d: Daemon, op: Op)
    requires d.Valid() && d.Exact() && OpDrawn(d.store.Log(), op, d.store.hostId, d.store.hostname)
    requires TombstonesFollow(LogAfter(d.store.Log(), op, d.store.hostId, d.store.hostname))
    modifies d, d.store, d.tags
    ensures d.Valid() && d.Exact() && (d.tags == old(d.tags) || fresh(d.tags))
    ensures d.store.Log() == LogAfter(old(d.store.Log()), op, d.store.hostId, d.store.hostname)
  {
    hide IsLog, Grew, TombstonesFollow, EarlyTombstone, Live, Replay, Alongside, Database.Inverse, AppendedAll, Appended, AllDrawn, TagIndex.State;
    ghost var log := LogAfter(d.store.Log(), op, d.store.hostId, d.store.hostname);
    OpGrows(d.store.Log(), op, d.store.hostId, d.store.hostname);
    Tail(d.store.Log(), log);
    FollowTail(log, d.store.sequence);
    match op {
      case Ingest(ds) => d.DoIngest(ds);
      case Delete(id, newId, now) => d.DeleteRecord(id, newId, now);
      case Save => d.SnapshotNow();
      case Restart(ds) =>
        if d.snap.Some? {
          Tail(d.snapLog, d.store.Log());
          FollowTail(log, d.snap.value.lastSeq);
        }
        d.Start(ds);
    }
  }

  /** Any run: ingests, deletes, snapshots and restarts in any order, each restart warm from
      the latest snapshot. When tombstones follow their targets, memory always ends exact. */
  method Life(d: Daemon, ops: seq<Op>)
    requires d.Valid() && d.Exact() && OpsDrawn(d.store.Log(), ops, d.store.hostId, d.store.hostname)
    requires TombstonesFollow(LogAfterAll(d.store.Log(), ops, d.store.hostId, d.store.hostname))
    modifies d, d.store, d.tags
    ensures d.Valid() && d.Exact()
    ensures d.store.Log() == LogAfterAll(old(d.store.Log()), ops, d.store.hostId, d.store.hostname)
  {
    hide IsLog, Grew, TombstonesFollow, LogAfter, OpDrawn, Daemon.Exact, Database.Inverse, Live;
    for i := 0 to |ops|
      invariant d.Valid() && d.Exact() && (d.tags == old(d.tags) || fresh(d.tags))
      invariant OpsDrawn(d.store.Log(), ops[i..], d.store.hostId, d.store.hostname)
      invariant LogAfterAll(d.store.Log(), ops[i..], d.store.hostId, d.store.hostname)
                == LogAfterAll(old(d.store.Log()), ops, d.store.hostId, d.store.hostname)
    {
      assert ops[i..][0] == ops[i] && ops[i..][1..] == ops[i + 1..];
      OpGrows(d.store.Log(), ops[i], d.store.hostId, d.store.hostname);
      OpsGrow(LogAfter(d.store.Log(), ops[i], d.store.hostId, d.store.hostname), ops[i + 1..], d.store.hostId, d.store.hostname);
      FollowEarlier(LogAfter(d.store.Log(), ops[i], d.store.hostId, d.store.hostname),
                    LogAfterAll(d.store.Log(), ops[i..], d.store.hostId, d.store.hostname));
      Perform(d, ops[i]);
    }
  }

  function Commands(rows: seq<Record>): (cmds: seq<string>)
    ensures Alongside(rows, cmds)
  {
    seq(|rows|, i requires 0 <= i < |rows| => rows[i].cmd)
  }

  /** A record that says nothing but which one to delete, and when. */
  predicate IsTombstone(r: Record, id: string, newId: string, now: int) {
    && r.kind == "delete" && r.targetId == id && r.id == newId && r.startMs == now && r.deletedMs == 0
    && r.cmd == "" && r.cwd == "" && r.session == "" && r.prompt == "" && r.tagName == ""
  }

  lemma TombstoneStored(r: Record, id: string, newId: string, now: int, seqNo: nat, hostId: HostId, hostname: string)
    requires StoredAs(r, Tombstone(id, newId, now), seqNo, hostId, hostname)
    ensures IsTombstone(r, id, newId, now)
  {
  }

  function Tombstone(id: string, newId: string, now: int): Draft {
    Draft(EMPTY_RECORD.(kind := TYPE_DELETE, targetId := id, startMs := now), newId, now)
  }

  lemma TargetsStep(rows: seq<Record>, i: nat)
    requires i < |rows|
    ensures Targets(rows[..i + 1]) == Targets(rows[..i])
      + if rows[i].kind == TYPE_DELETE && rows[i].targetId != "" then {rows[i].targetId} else {}
  {
    var a, b := rows[..i], rows[..i + 1];
    forall id ensures id in Targets(b) <==> id in Targets(a) || Deletes(rows[i], id) {
      assert b == a + [rows[i]];
      TargetsAre(a, id);
      TargetsAre(b, id);
      TargetedSplit(a, [rows[i]], id);
      assert Targeted([rows[i]], id) <==> Deletes(rows[i], id) by {
        assert Deletes(rows[i], id) ==> Deletes([rows[i]][0], id);
      }
    }
  }

  lemma NotATag(x: Index, r: Record, norm: string -> string)
    requires r.kind != TYPE_TAG
    ensures Replay(x, [r], norm) == x
  {
    assert [r][..0] == [];
  }

  lemma ReplayNothing(x: Index, norm: string -> string)
    ensures Replay(x, [], norm) == x
  {
  }

  lemma LiveStep(rows: seq<Record>, i: nat, ids: set<string>)
    requires i < |rows|
    ensures Without(Live(rows[..i + 1]), ids)
            == Without(Live(rows[..i]), ids) + if IsCommand(rows[i]) && rows[i].id !in ids then [rows[i]] else []
  {
    assert rows[..i + 1] == rows[..i] + [rows[i]];
    LiveConcat(rows[..i], [rows[i]]);
    LiveOne(rows[i]);
    WithoutConcat(Live(rows[..i]), Live([rows[i]]), ids);
    WithoutOne(rows[i], ids);
  }

  lemma DropTwice(corpus: seq<Record>, rows: seq<Record>, ids: set<string>)
    ensures Without(corpus + Without(rows, ids), ids) == Without(corpus + rows, ids)
    ensures ids == {} ==> corpus + Without(rows, ids) == Without(corpus + rows, ids)
  {
    WithoutConcat(corpus, Without(rows, ids), ids);
    WithoutConcat(corpus, rows, ids);
    forall r <- Without(rows, ids) ensures r.id !in ids {
      WithoutHolds(rows, ids, r);
    }
    WithoutNone(Without(rows, ids), ids);
    if ids == {} {
      WithoutNone(corpus, ids);
      WithoutNone(rows, ids);
    }
  }

  lemma NothingNew(a: seq<Record>, b: seq<Record>)
    requires Grew(a, b) && |a| == |b|
    ensures a == b
  {
    assert b[|a|..] == [];
  }

  lemma NoEarlyTombstone(rows: seq<Record>)
    requires |rows| <= 1
    ensures !EarlyTombstone(rows)
  {
  }

  /** Deleting one record takes exactly it out of the live commands. */
  lemma TombstoneDrops(a: seq<Record>, b: seq<Record>, id: string)
    requires Grew(a, b) && IsLog(b) && |b| == |a| + 1 && b[|a|].kind == TYPE_DELETE && b[|a|].targetId == id
    ensures Live(b) == Without(Live(a), {id})
  {
    hide IsLog, Grew, Live, Without;
    var t := b[|a|];
    LiveAfter(a, b, |a|);
    assert a[..|a|] == a && b == b[..|a|] + [t] && b[|a|..] == [t];
    LiveConcat(b[..|a|], [t]);
    LiveOne(t);
    assert Live(b) == Without(Live(a), Targets([t]));
    if id == "" {
      assert Targets([t]) == {};
      WithoutNone(Live(a), {});
      NoEmptyIds(a, b);
      WithoutNone(Live(a), {id});
    } else {
      assert [t][0].targetId == id;
      assert Targets([t]) == {id};
    }
  }

  lemma NoEmptyIds(a: seq<Record>, b: seq<Record>)
    requires Grew(a, b) && IsLog(b)
    ensures forall r <- Live(a) :: r.id != ""
  {
    forall r <- Live(a) ensures r.id != "" {
      LiveHolds(a, r);
      var i :| 0 <= i < |a| && a[i] == r;
      assert b[i].id == r.id;
    }
  }
}
