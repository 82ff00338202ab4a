/** The local history database: an append-only log with an id index, where a tombstone
    marks the record it names. */
module Store {
  import opened Wrappers
  import opened Wire

  const EMPTY_RECORD: Record :=
    Record("", "", "", "", "", 0, "", "", "", None, None, 0, "", "", "", "", "", "", [], 0, 0)

  /** A record on its way in, with the id it would be given and the clock at that moment. */
  datatype Draft = Draft(rec: Record, newId: string, now: int)

  predicate IsCommand(r: Record) {
    r.kind != TYPE_DELETE && r.kind != TYPE_TAG && r.kind != TYPE_PROMPT && r.deletedMs == 0
  }

  /** The live commands of a log, in order. */
  function Live(log: seq<Record>): seq<Record> {
    if log == [] then []
    else Live(log[..|log| - 1]) + if IsCommand(log[|log| - 1]) then [log[|log| - 1]] else []
  }

  predicate Deletes(t: Record, id: string) {
    t.kind == TYPE_DELETE && t.targetId != "" && t.targetId == id
  }

  predicate Known(log: seq<Record>, id: string) {
    exists i :: 0 <= i < |log| && log[i].id == id
  }

  function Stamp(t: Record, now: int): int {
    if t.startMs == 0 then now else t.startMs
  }

  function Mark(r: Record, t: Record, now: int): Record {
    if Deletes(t, r.id) then r.(deletedMs := Stamp(t, now)) else r
  }

  function Marked(log: seq<Record>, t: Record, now: int): (out: seq<Record>)
    ensures |out| == |log|
  {
    seq(|log|, i requires 0 <= i < |log| => Mark(log[i], t, now))
  }

  /** The record as stored: the store numbers it, names its host and gives it an id if it has none. */
  function Canonical(d: Draft, seqNo: nat, hostId: HostId, hostname: string): Record {
    d.rec.(seqNo := seqNo, hostId := hostId, hostname := hostname, id := if d.rec.id == "" then d.newId else d.rec.id)
  }

  /** A record whose id is already there changes nothing. */
  function Appended(log: seq<Record>, d: Draft, hostId: HostId, hostname: string): seq<Record> {
    if d.rec.id != "" && Known(log, d.rec.id) then log
    else Marked(log, d.rec, d.now) + [Canonical(d, |log| + 1, hostId, hostname)]
  }

  function AppendedAll(log: seq<Record>, ds: seq<Draft>, hostId: HostId, hostname: string): seq<Record>
    decreases |ds|
  {
    if ds == [] then log else AppendedAll(Appended(log, ds[0], hostId, hostname), ds[1..], hostId, hostname)
  }

  /** A generated id has never been used, and the clock has left zero. */
  predicate Drawn(log: seq<Record>, d: Draft) {
    d.now != 0 && (d.rec.id == "" ==> d.newId != "" && !Known(log, d.newId))
  }

  predicate AllDrawn(log: seq<Record>, ds: seq<Draft>, hostId: HostId, hostname: string)
    decreases |ds|
  {
    ds == [] || (Drawn(log, ds[0]) && AllDrawn(Appended(log, ds[0], hostId, hostname), ds[1..], hostId, hostname))
  }

  /** Numbered from one without gaps, one record an id, and every record that a later
      tombstone names is marked. */
  ghost predicate IsLog(log: seq<Record>) {
    && (forall i :: 0 <= i < |log| ==> log[i].seqNo == i + 1 && log[i].id != "")
    && (forall i, j :: 0 <= i < j < |log| ==> log[i].id != log[j].id)
    && (forall i, j :: 0 <= i < j < |log| && Deletes(log[j], log[i].id) ==> log[i].deletedMs != 0)
  }

  ghost predicate Targeted(rows: seq<Record>, id: string) {
    exists j :: 0 <= j < |rows| && Deletes(rows[j], id)
  }

  /** b is a after further appends: nothing moves, and a record is marked exactly when one of
      the new rows is a tombstone for it. */
  ghost predicate Grew(a: seq<Record>, b: seq<Record>) {
    && |a| <= |b|
    && (forall i :: 0 <= i < |a| ==> b[i] == a[i].(deletedMs := b[i].deletedMs))
    && (forall i :: 0 <= i < |a| ==> if Targeted(b[|a|..], a[i].id) then b[i].deletedMs != 0 else b[i] == a[i])
  }

  lemma GrewReflexive(a: seq<Record>)
    ensures Grew(a, a)
  {
    assert a[|a|..] == [];
  }

  lemma TargetedSplit(xs: seq<Record>, ys: seq<Record>, id: string)
    ensures Targeted(xs + ys, id) <==> Targeted(xs, id) || Targeted(ys, id)
  {
    var zs := xs + ys;
    if j :| 0 <= j < |xs| && Deletes(xs[j], id) {
      assert Deletes(zs[j], id);
    }
    if j :| 0 <= j < |ys| && Deletes(ys[j], id) {
      assert Deletes(zs[|xs| + j], id);
    }
    if j :| 0 <= j < |zs| && Deletes(zs[j], id) {
      assert j < |xs| ==> Deletes(xs[j], id);
      assert j >= |xs| ==> Deletes(ys[j - |xs|], id);
    }
  }

  /** Marks do not change which records a row deletes. */
  lemma TargetedSame(xs: seq<Record>, ys: seq<Record>, id: string)
    requires |xs| == |ys| && forall i :: 0 <= i < |xs| ==> ys[i] == xs[i].(deletedMs := ys[i].deletedMs)
    ensures Targeted(xs, id) <==> Targeted(ys, id)
  {
    if j :| 0 <= j < |xs| && Deletes(xs[j], id) {
      assert Deletes(ys[j], id);
    }
    if j :| 0 <= j < |ys| && Deletes(ys[j], id) {
      assert Deletes(xs[j], id);
    }
  }

  lemma GrewTransitive(a: seq<Record>, b: seq<Record>, c: seq<Record>)
    requires Grew(a, b) && Grew(b, c)
    ensures Grew(a, c)
  {
    assert c[|a|..] == c[|a|..|b|] + c[|b|..];
    forall i | 0 <= i < |a| ensures if Targeted(c[|a|..], a[i].id) then c[i].deletedMs != 0 else c[i] == a[i] {
      TargetedSplit(c[|a|..|b|], c[|b|..], a[i].id);
      assert forall k :: 0 <= k < |b| - |a| ==> b[|a|..][k] == b[|a| + k] && c[|a|..|b|][k] == c[|a| + k];
      TargetedSame(b[|a|..], c[|a|..|b|], a[i].id);
    }
  }

  /** Marking and adding one new record keeps a log a log. */
  lemma StaysLog(log: seq<Record>, t: Record, now: int)
    requires IsLog(log) && now != 0 && t.seqNo == |log| + 1 && t.id != "" && !Known(log, t.id)
    ensures IsLog(Marked(log, t, now) + [t])
  {
    var log' := Marked(log, t, now) + [t];
    assert forall i :: 0 <= i < |log| ==> log'[i] == Mark(log[i], t, now);
    assert log'[|log|] == t;
    forall i, j | 0 <= i < j < |log'| && Deletes(log'[j], log'[i].id) ensures log'[i].deletedMs != 0 {
      if j < |log| {
        assert Deletes(log[j], log[i].id);
      }
    }
  }

  lemma OneMore(log: seq<Record>, t: Record, now: int)
    requires now != 0
    ensures Grew(log, Marked(log, t, now) + [t])
  {
    var log' := Marked(log, t, now) + [t];
    assert log'[|log|..] == [t];
    forall i | 0 <= i < |log| ensures Targeted(log'[|log|..], log[i].id) <==> Deletes(t, log[i].id) {
      assert log'[|log|..][0] == t;
    }
    assert forall i :: 0 <= i < |log| ==> log'[i] == Mark(log[i], t, now);
  }

  /** One append grows the log and keeps it one. */
  lemma AppendGrows(log: seq<Record>, d: Draft, hostId: HostId, hostname: string)
    requires IsLog(log) && Drawn(log, d)
    ensures IsLog(Appended(log, d, hostId, hostname)) && Grew(log, Appended(log, d, hostId, hostname))
    ensures d.rec.id != "" ==> Known(Appended(log, d, hostId, hostname), d.rec.id)
  {
    hide IsLog, Grew;
    var log' := Appended(log, d, hostId, hostname);
    if log' == log {
      GrewReflexive(log);
    } else {
      var t := Canonical(d, |log| + 1, hostId, hostname);
      assert Marked(log, d.rec, d.now) == Marked(log, t, d.now);
      StaysLog(log, t, d.now);
      OneMore(log, t, d.now);
      assert log'[|log|].id == t.id;
    }
  }

  /** Any batch grows the log, holds each id once, and leaves every id it brought in it. */
  lemma {:induction false} BatchGrows(log: seq<Record>, ds: seq<Draft>, hostId: HostId, hostname: string)
    requires IsLog(log) && AllDrawn(log, ds, hostId, hostname)
    ensures var log' := AppendedAll(log, ds, hostId, hostname);
      && IsLog(log') && Grew(log, log')
      && forall d <- ds :: d.rec.id != "" ==> Known(log', d.rec.id)
    decreases |ds|
  {
    hide IsLog, Grew, Drawn, Known;
    if ds == [] {
      GrewReflexive(log);
    } else {
      var mid := Appended(log, ds[0], hostId, hostname);
      var log' := AppendedAll(log, ds, hostId, hostname);
      AppendGrows(log, ds[0], hostId, hostname);
      BatchGrows(mid, ds[1..], hostId, hostname);
      GrewTransitive(log, mid, log');
      if ds[0].rec.id != "" {
        StaysKnown(mid, log', ds[0].rec.id);
      }
    }
  }

  // ---- what a stored record says ----

  /** The row holds the draft under the next number, in this host's name, with the id it came
      with or else a generated one; everything else is as it came. */
  predicate StoredAs(r: Record, d: Draft, seqNo: nat, hostId: HostId, hostname: string) {
    && r.seqNo == seqNo && r.hostId == hostId && r.hostname == hostname
    && (if d.rec.id == "" then r.id == d.newId else r.id == d.rec.id)
    && r.(id := d.rec.id, seqNo := d.rec.seqNo, hostId := d.rec.hostId, hostname := d.rec.hostname) == d.rec
  }

  /** The same, but for a deletion mark that a later row of the log put on it. */
  ghost predicate Holds(log: seq<Record>, i: nat, d: Draft, hostId: HostId, hostname: string)
    requires i < |log|
  {
    && StoredAs(log[i].(deletedMs := d.rec.deletedMs), d, i + 1, hostId, hostname)
    && (log[i].deletedMs == d.rec.deletedMs || Targeted(log[i + 1..], log[i].id))
  }

  /** The rows from n on hold these drafts of the batch, in order, and the others were known. */
  ghost predicate HoldsBatch(log: seq<Record>, n: nat, ds: seq<Draft>, src: seq<nat>, hostId: HostId, hostname: string) {
    && n + |src| == |log|
    && (forall k :: 0 <= k < |src| ==> src[k] < |ds| && Holds(log, n + k, ds[src[k]], hostId, hostname))
    && (forall k, l :: 0 <= k < l < |src| ==> src[k] < src[l])
    && (forall j :: 0 <= j < |ds| && ds[j].rec.id == "" ==> j in src)
  }

  lemma HoldsLater(a: seq<Record>, b: seq<Record>, i: nat, d: Draft, hostId: HostId, hostname: string)
    requires Grew(a, b) && i < |a| && Holds(a, i, d, hostId, hostname)
    ensures Holds(b, i, d, hostId, hostname)
  {
    assert b[i] == a[i].(deletedMs := b[i].deletedMs);
    var xs, ys := a[i + 1..], b[i + 1..|a|];
    assert b[i + 1..] == ys + b[|a|..];
    TargetedSplit(ys, b[|a|..], a[i].id);
    forall k | 0 <= k < |xs| ensures ys[k] == xs[k].(deletedMs := ys[k].deletedMs) {
      assert xs[k] == a[i + 1 + k] && ys[k] == b[i + 1 + k];
    }
    TargetedSame(xs, ys, a[i].id);
  }

  /** What an append stores is what came in. */
  lemma AppendHolds(log: seq<Record>, d: Draft, hostId: HostId, hostname: string)
    ensures var log' := Appended(log, d, hostId, hostname);
      if d.rec.id != "" && Known(log, d.rec.id) then log' == log
      else |log'| == |log| + 1 && StoredAs(log'[|log|], d, |log| + 1, hostId, hostname)
  {
  }

  /** A tombstone that is stored marks its target with its own time, or with the clock if it has
      none; no other record changes. */
  predicate Remarked(a: Record, b: Record, d: Draft) {
    if d.rec.kind == TYPE_DELETE && d.rec.targetId != "" && d.rec.targetId == a.id
    then b == a.(deletedMs := if d.rec.startMs == 0 then d.now else d.rec.startMs)
    else b == a
  }

  lemma AppendMarks(log: seq<Record>, d: Draft, hostId: HostId, hostname: string)
    ensures var log' := Appended(log, d, hostId, hostname);
      |log| < |log'| ==> forall i :: 0 <= i < |log| ==> Remarked(log[i], log'[i], d)
  {
  }

  lemma AppendIs(log: seq<Record>, d: Draft, hostId: HostId, hostname: string)
    ensures Appended(log, d, hostId, hostname) ==
      if d.rec.id != "" && Known(log, d.rec.id) then log else Marked(log, d.rec, d.now) + [Canonical(d, |log| + 1, hostId, hostname)]
  {
  }

  /** Whatever a batch brings is stored as it came: its records in order, but for those already
      there. */
  lemma {:induction false} BatchHolds(log: seq<Record>, ds: seq<Draft>, hostId: HostId, hostname: string) returns (src: seq<nat>)
    requires IsLog(log) && AllDrawn(log, ds, hostId, hostname)
    ensures HoldsBatch(AppendedAll(log, ds, hostId, hostname), |log|, ds, src, hostId, hostname)
    decreases |ds|
  {
    if ds == [] {
      return [];
    }
    hide IsLog, Drawn, Appended, HoldsBatch, Grew;
    var mid := Appended(log, ds[0], hostId, hostname);
    AppendGrows(log, ds[0], hostId, hostname);
    BatchGrows(mid, ds[1..], hostId, hostname);
    var later := BatchHolds(mid, ds[1..], hostId, hostname);
    src := OneDraftMore(log, mid, AppendedAll(mid, ds[1..], hostId, hostname), ds, later, hostId, hostname);
  }

  lemma OneDraftMore(log: seq<Record>, mid: seq<Record>, log': seq<Record>, ds: seq<Draft>, later: seq<nat>, hostId: HostId, hostname: string)
    returns (src: seq<nat>)
    requires ds != [] && mid == Appended(log, ds[0], hostId, hostname) && Grew(mid, log')
    requires HoldsBatch(log', |mid|, ds[1..], later, hostId, hostname)
    ensures HoldsBatch(log', |log|, ds, src, hostId, hostname)
  {
    hide HoldsBatch, Holds, StoredAs, Appended, Known, Grew;
    AppendHolds(log, ds[0], hostId, hostname);
    src := seq(|later|, k requires 0 <= k < |later| => later[k] + 1);
    if |mid| == |log| {
      Shifted(log', |log|, ds, later, src, hostId, hostname);
    } else {
      HeldNow(mid, ds[0], hostId, hostname);
      HoldsLater(mid, log', |log|, ds[0], hostId, hostname);
      src := [0] + src;
      ShiftedMore(log', |log|, ds, later, src, hostId, hostname);
    }
  }

  lemma HeldNow(log: seq<Record>, d: Draft, hostId: HostId, hostname: string)
    requires log != [] && StoredAs(log[|log| - 1], d, |log|, hostId, hostname)
    ensures Holds(log, |log| - 1, d, hostId, hostname)
  {
  }

  lemma Shifted(log: seq<Record>, n: nat, ds: seq<Draft>, later: seq<nat>, src: seq<nat>, hostId: HostId, hostname: string)
    requires ds != [] && HoldsBatch(log, n, ds[1..], later, hostId, hostname) && ds[0].rec.id != ""
    requires |src| == |later| && forall k :: 0 <= k < |src| ==> src[k] == later[k] + 1
    ensures HoldsBatch(log, n, ds, src, hostId, hostname)
  {
    hide Holds;
    assert forall k :: 0 <= k < |src| ==> ds[src[k]] == ds[1..][later[k]];
    forall j | 0 < j < |ds| && ds[j].rec.id == "" ensures j in src {
      assert ds[1..][j - 1] == ds[j];
      var k :| 0 <= k < |later| && later[k] == j - 1;
      assert src[k] == j;
    }
  }

  lemma ShiftedMore(log: seq<Record>, n: nat, ds: seq<Draft>, later: seq<nat>, src: seq<nat>, hostId: HostId, hostname: string)
    requires ds != [] && HoldsBatch(log, n + 1, ds[1..], later, hostId, hostname) && Holds(log, n, ds[0], hostId, hostname)
    requires |src| == |later| + 1 && src[0] == 0 && forall k :: 0 < k < |src| ==> src[k] == later[k - 1] + 1
    ensures HoldsBatch(log, n, ds, src, hostId, hostname)
  {
    hide Holds;
    forall k | 0 <= k < |src| ensures src[k] < |ds| && Holds(log, n + k, ds[src[k]], hostId, hostname) {
      if k > 0 {
        assert Holds(log, n + 1 + (k - 1), ds[1..][later[k - 1]], hostId, hostname);
      }
    }
    forall j | 0 < j < |ds| && ds[j].rec.id == "" ensures j in src {
      assert ds[1..][j - 1] == ds[j];
      var k :| 0 <= k < |later| && later[k] == j - 1;
      assert src[k + 1] == j;
    }
  }

  /** A generator of ids never repeats one. */
  ghost predicate NeverRepeats(newId: seq<Record> -> string) {
    forall log :: newId(log) != "" && !Known(log, newId(log))
  }

  /** The drafts of a batch, each with the id it would be given when its turn comes. */
  function Drafts(log: seq<Record>, recs: seq<Record>, newId: seq<Record> -> string, now: int, hostId: HostId, hostname: string): (ds: seq<Draft>)
    ensures |ds| == |recs| && forall i :: 0 <= i < |recs| ==> ds[i].rec == recs[i]
    decreases |recs|
  {
    if recs == [] then []
    else
      var d := Draft(recs[0], newId(log), now);
      [d] + Drafts(Appended(log, d, hostId, hostname), recs[1..], newId, now, hostId, hostname)
  }

  lemma {:induction false} DraftsDrawn(log: seq<Record>, recs: seq<Record>, newId: seq<Record> -> string, now: int, hostId: HostId, hostname: string)
    requires NeverRepeats(newId) && now != 0
    ensures AllDrawn(log, Drafts(log, recs, newId, now, hostId, hostname), hostId, hostname)
    decreases |recs|
  {
    if recs != [] {
      var d := Draft(recs[0], newId(log), now);
      var ds := Drafts(log, recs, newId, now, hostId, hostname);
      DraftsDrawn(Appended(log, d, hostId, hostname), recs[1..], newId, now, hostId, hostname);
      assert ds[0] == d && ds[1..] == Drafts(Appended(log, d, hostId, hostname), recs[1..], newId, now, hostId, hostname);
    }
  }

  lemma StaysKnown(a: seq<Record>, b: seq<Record>, id: string)
    requires Grew(a, b) && Known(a, id)
    ensures Known(b, id)
  {
    var i :| 0 <= i < |a| && a[i].id == id;
    assert b[i].id == id;
  }

  lemma {:induction false} LiveConcat(a: seq<Record>, b: seq<Record>)
    ensures Live(a + b) == Live(a) + Live(b)
  {
    if b == [] {
      assert a + b == a;
    } else {
      assert (a + b)[..|a + b| - 1] == a + b[..|b| - 1];
      LiveConcat(a, b[..|b| - 1]);
    }
  }

  lemma {:induction false} LiveHolds(log: seq<Record>, r: Record)
    ensures r in Live(log) <==> r in log && IsCommand(r)
  {
    if log != [] {
      LiveHolds(log[..|log| - 1], r);
      assert log == log[..|log| - 1] + [log[|log| - 1]];
    }
  }

  /** Live commands are the records that are no tombstone, tag or prompt and have not been deleted. */
  lemma LiveAre(log: seq<Record>)
    ensures forall r :: r in Live(log) <==> r in log && r.kind !in {"delete", "tag", "prompt"} && r.deletedMs == 0
  {
    forall r ensures r in Live(log) <==> r in log && r.kind !in {"delete", "tag", "prompt"} && r.deletedMs == 0 {
      LiveHolds(log, r);
    }
  }

  // ---- the database ----

  function Entries(history: map<nat, Record>, n: nat): (log: seq<Record>)
    ensures |log| == n && forall i :: 0 <= i < n && i + 1 in history ==> log[i] == history[i + 1]
  {
    seq(n, i requires 0 <= i < n => if i + 1 in history then history[i + 1] else EMPTY_RECORD)
  }

  lemma DrawnMeans(log: seq<Record>, d: Draft)
    requires Drawn(log, d)
    ensures d.rec.id == "" ==> d.newId != "" && !Known(log, d.newId)
  {
  }

  lemma EntriesMarked(before: map<nat, Record>, after: map<nat, Record>, log: seq<Record>, t: Record, now: int, r: Record)
    requires log == Entries(before, |log|) && forall q :: q in before <==> 1 <= q <= |log|
    requires after.Keys == before.Keys + {|log| + 1} && after[|log| + 1] == r
    requires forall q <- before :: after[q] == Mark(before[q], t, now)
    ensures Entries(after, |log| + 1) == Marked(log, t, now) + [r]
  {
    forall i | 0 <= i < |log| ensures Entries(after, |log| + 1)[i] == Mark(log[i], t, now) {
      assert i + 1 in before;
    }
  }

  class Database {
    const hostId: HostId
    const hostname: string
    var history: map<nat, Record>
    var ids: map<string, nat>
    var sequence: nat

    /** The keys are 1..sequence, and the two buckets are each other's inverse. */
    ghost predicate Valid()
      reads this
    {
      && (forall q :: q in history <==> 1 <= q <= sequence)
      && Inverse()
      && IsLog(Log())
    }

    /** The raw stream in key order. */
    function Log(): (log: seq<Record>)
      reads this
      ensures |log| == sequence
    {
      Entries(history, sequence)
    }

    constructor (hostId: HostId, hostname: string)
      ensures Valid() && Log() == [] && this.hostId == hostId && this.hostname == hostname
    {
      this.hostId, this.hostname := hostId, hostname;
      history, ids, sequence := map[], map[], 0;
    }

    /** What the id index says is what the log says. */
    lemma IndexFinds(id: string)
      requires Valid()
      ensures id in ids <==> Known(Log(), id)
      ensures id in ids ==> 1 <= ids[id] <= sequence && Log()[ids[id] - 1].id == id && Log()[ids[id] - 1] == history[ids[id]]
    {
      if i :| 0 <= i < sequence && Log()[i].id == id {
        assert i + 1 in history;
      }
      if id in ids {
        assert Log()[ids[id] - 1].id == id;
      }
    }

    /** The two buckets are each other's inverse. */
    ghost predicate Inverse()
      reads this`history, this`ids
    {
      && (forall q <- history :: history[q].id in ids && ids[history[q].id] == q)
      && (forall id <- ids :: ids[id] in history && history[ids[id]].id == id)
    }

    /** A tombstone marks its target, if the target is here. */
    method MarkTarget(t: Record, now: int)
      requires Inverse()
      modifies this`history
      ensures Inverse() && history.Keys == old(history.Keys)
      ensures forall q <- history :: history[q] == Mark(old(history)[q], t, now)
    {
      if t.kind == TYPE_DELETE && t.targetId != "" {
        if t.targetId in ids {
          var key := ids[t.targetId];
          var ts := t.startMs;
          if ts == 0 {
            ts := now;
          }
          history := history[key := history[key].(deletedMs := ts)];
        }
      }
    }

    method PutRecord(r: Record)
      requires Inverse() && sequence !in history && r.id !in ids
      modifies this`history, this`ids
      ensures Inverse() && history == old(history)[sequence := r] && ids == old(ids)[r.id := sequence]
    {
      history := history[sequence := r];
      ids := ids[r.id := sequence];
    }

    /** The fields only the store assigns. */
    method Stamped(d: Draft) returns (r: Record)
      ensures r == Canonical(d, sequence, hostId, hostname)
    {
      r := d.rec.(seqNo := sequence, hostId := hostId, hostname := hostname);
      if r.id == "" {
        r := r.(id := d.newId);
      }
    }

    /** One record, inside a transaction. */
    method AppendOne(d: Draft) returns (stored: Record, added: bool)
      requires Valid() && Drawn(Log(), d)
      modifies this
      ensures Valid() && Log() == Appended(old(Log()), d, hostId, hostname)
      ensures added <==> !(d.rec.id != "" && Known(old(Log()), d.rec.id))
      ensures stored in Log() && (d.rec.id != "" ==> stored.id == d.rec.id)
      ensures added ==> sequence == old(sequence) + 1 && Log()[sequence - 1] == stored && StoredAs(stored, d, sequence, hostId, hostname)
      ensures !added ==> Log() == old(Log())
      ensures added ==> forall i :: 0 <= i < old(sequence) ==> Remarked(old(Log())[i], Log()[i], d)
    {
      hide IsLog, Mark, Marked, Grew, Inverse, Entries, Drawn, Known, Remarked, StoredAs, Appended;
      ghost var log := Log();
      DrawnMeans(log, d);
      IndexFinds(d.rec.id);
      IndexFinds(d.newId);
      AppendGrows(log, d, hostId, hostname);
      AppendHolds(log, d, hostId, hostname);
      AppendMarks(log, d, hostId, hostname);
      AppendIs(log, d, hostId, hostname);
      if d.rec.id != "" && d.rec.id in ids {
        stored := history[ids[d.rec.id]];
        return stored, false;
      }
      stored := AddRow(d);
      assert Log()[sequence - 1] == stored;
      return stored, true;
    }

    /** A record that is not there yet: numbered, its target marked, and put in both buckets. */
    method AddRow(d: Draft) returns (r: Record)
      requires (forall q :: q in history <==> 1 <= q <= sequence) && Inverse()
      requires (if d.rec.id == "" then d.newId else d.rec.id) !in ids
      modifies this
      ensures (forall q :: q in history <==> 1 <= q <= sequence) && Inverse()
      ensures sequence == old(sequence) + 1 && r == Canonical(d, sequence, hostId, hostname)
      ensures Log() == Marked(old(Log()), d.rec, d.now) + [r]
    {
      hide Mark, Marked, Inverse, Entries;
      ghost var log := Log();
      sequence := sequence + 1;
      r := Stamped(d);
      MarkTarget(d.rec, d.now);
      PutRecord(r);
      EntriesMarked(old(history), history, log, d.rec, d.now, r);
    }

    /** A batch in one transaction. */
    method AppendBatch(ds: seq<Draft>) returns (added: nat)
      requires Valid() && AllDrawn(Log(), ds, hostId, hostname)
      modifies this
      ensures Valid() && Log() == AppendedAll(old(Log()), ds, hostId, hostname)
      ensures added == sequence - old(sequence)
      ensures exists src :: HoldsBatch(Log(), old(sequence), ds, src, hostId, hostname)
    {
      hide IsLog, Drawn;
      ghost var src := BatchHolds(Log(), ds, hostId, hostname);
      added := 0;
      for i := 0 to |ds|
        invariant Valid()
        invariant AllDrawn(Log(), ds[i..], hostId, hostname)
        invariant AppendedAll(Log(), ds[i..], hostId, hostname) == AppendedAll(old(Log()), ds, hostId, hostname)
        invariant added == sequence - old(sequence)
      {
        assert ds[i..][0] == ds[i] && ds[i..][1..] == ds[i + 1..];
        var _, ok := AppendOne(ds[i]);
        if ok {
          added := added + 1;
        }
      }
    }

    /** The search corpus, by a cursor over the whole bucket. */
    method All() returns (out: seq<Record>)
      requires Valid()
      ensures out == Live(Log())
    {
      out := [];
      for q := 0 to sequence
        invariant out == Live(Log()[..q])
      {
        var r := history[q + 1];
        assert Log()[..q + 1][..q] == Log()[..q] && Log()[..q + 1][q] == r;
        if !IsCommand(r) { continue; }
        out := out + [r];
      }
      assert Log()[..sequence] == Log();
    }

    /** The raw stream after a position; no limit when it is not positive. */
    method Since(after: nat, limit: int) returns (out: seq<Record>)
      requires Valid()
      ensures after >= sequence ==> out == []
      ensures after < sequence ==>
        out == Log()[after..if 0 < limit < sequence - after then after + limit else sequence]
    {
      out := [];
      if after >= sequence { return; }
      var q := after + 1;
      while q <= sequence
        invariant after + 1 <= q <= sequence + 1
        invariant out == Log()[after..q - 1] && (limit > 0 ==> |out| < limit)
      {
        out := out + [history[q]];
        q := q + 1;
        if limit > 0 && |out| >= limit { break; }
      }
    }
  }

}
