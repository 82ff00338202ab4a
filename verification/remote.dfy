/** The daemon's cache of other hosts' history: sync cycles, the retention bound, and what a
    revocation does to it. Cycles and configuration changes never overlap. */
module Remote {
  import opened Wrappers
  import opened Wire
  import opened Store
  import opened Tags
  import opened Corpus
  import opened Pull
  import opened CipherStore
  import Tx = ServerTx

  datatype Condition = Off | Unavailable | Syncing | Fine | RevokedHere

  /** The outcome of asking the server for something. */
  datatype Answer<T> = Good(value: T) | Refused | Failed  // Refused: revoked by the server

  datatype Cycle = Synced | NotConfigured | RefusedAsRevoked | TryAgain

  /** Opening one host's sealed records needs keys, which may have to be fetched. */
  type Opener = (HostId, seq<Pulled>) -> Answer<seq<Record>>

  type Batches = seq<(HostId, seq<Pulled>)>

  /** All hosts' records opened, or the first failure. */
  function OpenAll(batches: Batches, open: Opener): Answer<seq<Record>> {
    if batches == [] then Good([])
    else
      var init := OpenAll(batches[..|batches| - 1], open);
      if !init.Good? then init
      else
        var last := open(batches[|batches| - 1].0, batches[|batches| - 1].1);
        if last.Good? then Good(init.value + last.value) else last
  }

  // ---- retention ----

  function CountOf(rs: seq<Record>, host: HostId): nat {
    if rs == [] then 0 else (if rs[0].hostId == host then 1 else 0) + CountOf(rs[1..], host)
  }

  function OfHost(rs: seq<Record>, host: HostId): seq<Record> {
    if rs == [] then [] else (if rs[0].hostId == host then [rs[0]] else []) + OfHost(rs[1..], host)
  }

  function NotOf(rs: seq<Record>, hosts: set<HostId>): seq<Record> {
    if rs == [] then [] else (if rs[0].hostId in hosts then [] else [rs[0]]) + NotOf(rs[1..], hosts)
  }

  /** A record stays while fewer than `keep` of its host's come after it. */
  function NewestOfEach(rs: seq<Record>, keep: nat): seq<Record> {
    if rs == [] then []
    else (if CountOf(rs[1..], rs[0].hostId) < keep then [rs[0]] else []) + NewestOfEach(rs[1..], keep)
  }

  function Pruned(rs: seq<Record>, keep: int): seq<Record> {
    if keep <= 0 then rs else NewestOfEach(rs, keep)
  }

  lemma {:induction false} CountIsLength(rs: seq<Record>, host: HostId)
    ensures |OfHost(rs, host)| == CountOf(rs, host)
  {
    if rs != [] {
      CountIsLength(rs[1..], host);
    }
  }

  lemma OfHostCons(r: Record, rest: seq<Record>, host: HostId)
    ensures OfHost([r] + rest, host) == if r.hostId == host then [r] + OfHost(rest, host) else OfHost(rest, host)
    ensures CountOf([r] + rest, host) == CountOf(rest, host) + if r.hostId == host then 1 else 0
  {
    assert ([r] + rest)[1..] == rest;
  }

  lemma NewestCons(r: Record, rest: seq<Record>, keep: nat)
    ensures NewestOfEach([r] + rest, keep) ==
      if CountOf(rest, r.hostId) < keep then [r] + NewestOfEach(rest, keep) else NewestOfEach(rest, keep)
  {
    assert ([r] + rest)[1..] == rest;
  }

  /** The last `keep` of a list, or all of it if there are no more. */
  function Last(rs: seq<Record>, keep: nat): seq<Record> {
    if |rs| <= keep then rs else rs[|rs| - keep..]
  }

  lemma LastCons(r: Record, all: seq<Record>, keep: nat)
    ensures Last([r] + all, keep) == if |all| < keep then [r] + Last(all, keep) else Last(all, keep)
  {
    if |all| >= keep {
      assert ([r] + all)[|all| + 1 - keep..] == all[|all| - keep..];
    }
  }

  /** Of every host exactly the last `keep` records are left. */
  lemma {:induction false} EachHostKeepsNewest(rs: seq<Record>, keep: nat, host: HostId)
    requires keep > 0
    ensures OfHost(NewestOfEach(rs, keep), host) == Last(OfHost(rs, host), keep)
    decreases |rs|
  {
    hide OfHost, CountOf, NewestOfEach, Last;
    if rs == [] {
      NoneOfHost(host, keep);
    } else {
      var r, rest := rs[0], rs[1..];
      assert rs == [r] + rest;
      EachHostKeepsNewest(rest, keep, host);
      CountIsLength(rest, host);
      OfHostCons(r, rest, host);
      NewestCons(r, rest, keep);
      OfHostCons(r, NewestOfEach(rest, keep), host);
      LastCons(r, OfHost(rest, host), keep);
    }
  }

  lemma NoneOfHost(host: HostId, keep: nat)
    ensures OfHost([], host) == [] && NewestOfEach([], keep) == [] && Last([], keep) == []
  {
  }

  /** Hosts within the bound keep all their records, in the order they had among each other. */
  lemma {:induction false} OthersUntouched(rs: seq<Record>, keep: nat, over: set<HostId>)
    requires keep > 0 && forall h :: h !in over ==> CountOf(rs, h) <= keep
    ensures NotOf(NewestOfEach(rs, keep), over) == NotOf(rs, over)
  {
    if rs != [] {
      var rest := rs[1..];
      forall h | h !in over ensures CountOf(rest, h) <= keep {
        assert CountOf(rs, h) <= keep;
      }
      OthersUntouched(rest, keep, over);
      var kept := NewestOfEach(rest, keep);
      if CountOf(rest, rs[0].hostId) < keep {
        assert NewestOfEach(rs, keep) == [rs[0]] + kept;
        assert ([rs[0]] + kept)[1..] == kept;
      } else {
        assert NewestOfEach(rs, keep) == kept;
        assert CountOf(rs, rs[0].hostId) > keep;
      }
    }
  }

  lemma {:induction false} NothingOver(rs: seq<Record>, keep: nat)
    requires keep > 0 && forall h :: CountOf(rs, h) <= keep
    ensures NewestOfEach(rs, keep) == rs
  {
    if rs != [] {
      forall h ensures CountOf(rs[1..], h) <= keep {
        assert CountOf(rs, h) <= keep;
      }
      NothingOver(rs[1..], keep);
      assert CountOf(rs, rs[0].hostId) <= keep;
    }
  }

  lemma {:induction false} CountConcat(xs: seq<Record>, ys: seq<Record>, host: HostId)
    ensures CountOf(xs + ys, host) == CountOf(xs, host) + CountOf(ys, host)
  {
    if xs == [] {
      assert xs + ys == ys;
    } else {
      assert (xs + ys)[1..] == xs[1..] + ys;
      CountConcat(xs[1..], ys, host);
    }
  }

  lemma CountNewest(rs: seq<Record>, keep: nat, host: HostId)
    requires keep > 0
    ensures CountOf(NewestOfEach(rs, keep), host) == if CountOf(rs, host) < keep then CountOf(rs, host) else keep
  {
    EachHostKeepsNewest(rs, keep, host);
    CountIsLength(rs, host);
    CountIsLength(NewestOfEach(rs, keep), host);
  }

  /** Pruning as records come leaves what pruning once, at the end, would leave. */
  lemma {:induction false} PruningComposes(xs: seq<Record>, ys: seq<Record>, keep: nat)
    requires keep > 0
    ensures NewestOfEach(NewestOfEach(xs, keep) + ys, keep) == NewestOfEach(xs + ys, keep)
    decreases |xs|
  {
    hide CountOf, NewestOfEach;
    if xs == [] {
      NoneOfHost("", keep);
      assert [] + ys == ys == xs + ys;
    } else {
      var r, rest := xs[0], xs[1..];
      var kept := NewestOfEach(rest, keep);
      assert xs == [r] + rest && xs + ys == [r] + (rest + ys);
      PruningComposes(rest, ys, keep);
      NewestCons(r, rest, keep);
      NewestCons(r, rest + ys, keep);
      CountConcat(rest, ys, r.hostId);
      if CountOf(rest, r.hostId) < keep {
        assert ([r] + kept) + ys == [r] + (kept + ys);
        NewestCons(r, kept + ys, keep);
        CountNewest(rest, keep, r.hostId);
        CountConcat(kept, ys, r.hostId);
      }
    }
  }

  lemma PrunedComposes(xs: seq<Record>, ys: seq<Record>, keep: int)
    ensures Pruned(Pruned(xs, keep) + ys, keep) == Pruned(xs + ys, keep)
  {
    if keep > 0 {
      PruningComposes(xs, ys, keep);
    }
  }

  lemma {:induction false} CountMore(rs: seq<Record>, r: Record, host: HostId)
    ensures CountOf(rs + [r], host) == CountOf(rs, host) + if r.hostId == host then 1 else 0
  {
    if rs == [] {
      assert [r][1..] == [] && rs + [r] == [r];
    } else {
      assert (rs + [r])[1..] == rs[1..] + [r];
      CountMore(rs[1..], r, host);
    }
  }

  function At(m: map<HostId, nat>, host: HostId): nat {
    if host in m then m[host] else 0
  }

  function Over(rs: seq<Record>, host: HostId, keep: nat): nat {
    if CountOf(rs, host) > keep then CountOf(rs, host) - keep else 0
  }

  /** The first pass: how many are too many of each host. */
  method CountExcess(rs: seq<Record>, keep: nat) returns (excess: map<HostId, nat>)
    requires keep > 0
    ensures forall h :: At(excess, h) == Over(rs, h, keep)
    ensures excess == map[] ==> forall h :: CountOf(rs, h) <= keep
  {
    var counts := CountAll(rs);
    excess := map h | h in counts && counts[h] > keep :: counts[h] - keep;
    forall h ensures At(excess, h) == Over(rs, h, keep) {
      assert At(counts, h) == CountOf(rs, h);
    }
    if excess == map[] {
      forall h ensures CountOf(rs, h) <= keep {
        assert At(excess, h) == Over(rs, h, keep);
      }
    }
  }

  /** Passing one record: its host's excess is used up first. */
  lemma OverStep(rs: seq<Record>, i: nat, keep: nat)
    requires i < |rs| && keep > 0
    ensures var r := rs[i];
      && (forall h :: Over(rs[i..], h, keep) == Over(rs[i + 1..], h, keep) + if h == r.hostId && Over(rs[i..], h, keep) > 0 then 1 else 0)
      && NewestOfEach(rs[i..], keep) == (if Over(rs[i..], r.hostId, keep) > 0 then [] else [r]) + NewestOfEach(rs[i + 1..], keep)
  {
    hide CountOf, NewestOfEach;
    var r, rest := rs[i], rs[i + 1..];
    assert rs[i..] == [r] + rest;
    NewestCons(r, rest, keep);
    forall h ensures Over(rs[i..], h, keep) == Over(rest, h, keep) + if h == r.hostId && Over(rs[i..], h, keep) > 0 then 1 else 0 {
      OfHostCons(r, rest, h);
    }
    OfHostCons(r, rest, r.hostId);
  }

  /** Evict the oldest records of every host that has too many. */
  method Prune(rs: seq<Record>, cmds: seq<string>, keep: int) returns (kept: seq<Record>, keptCmds: seq<string>)
    requires Alongside(rs, cmds)
    ensures kept == Pruned(rs, keep) && Alongside(kept, keptCmds)
  {
    hide NewestOfEach, CountOf, Over;
    if keep <= 0 { return rs, cmds; }
    var excess := CountExcess(rs, keep);
    if excess == map[] {
      NothingOver(rs, keep);
      return rs, cmds;
    }
    kept, keptCmds := [], [];
    assert rs[0..] == rs;
    for i := 0 to |rs|
      invariant Alongside(kept, keptCmds)
      invariant kept + NewestOfEach(rs[i..], keep) == NewestOfEach(rs, keep)
      invariant forall h :: At(excess, h) == Over(rs[i..], h, keep)
    {
      var r := rs[i];
      OverStep(rs, i, keep);
      ghost var before := excess;
      assert At(excess, r.hostId) == Over(rs[i..], r.hostId, keep);
      if r.hostId in excess && excess[r.hostId] > 0 {
        excess := excess[r.hostId := excess[r.hostId] - 1];
      } else {
        assert kept + ([r] + NewestOfEach(rs[i + 1..], keep)) == (kept + [r]) + NewestOfEach(rs[i + 1..], keep);
        kept := kept + [r];
        keptCmds := keptCmds + [r.cmd];
      }
      forall h ensures At(excess, h) == Over(rs[i + 1..], h, keep) {
        assert At(before, h) == Over(rs[i..], h, keep);
      }
    }
    assert rs[|rs|..] == [];
    NoneOfHost("", keep);
  }

  method CountAll(rs: seq<Record>) returns (counts: map<HostId, nat>)
    ensures forall h :: At(counts, h) == CountOf(rs, h)
  {
    hide CountOf;
    counts := map[];
    CountNone();
    assert rs[..0] == [];
    for i := 0 to |rs|
      invariant forall h :: At(counts, h) == CountOf(rs[..i], h)
    {
      ghost var before := counts;
      counts := counts[rs[i].hostId := At(counts, rs[i].hostId) + 1];
      assert rs[..i + 1] == rs[..i] + [rs[i]];
      forall h ensures At(counts, h) == CountOf(rs[..i + 1], h) {
        CountMore(rs[..i], rs[i], h);
        assert At(before, h) == CountOf(rs[..i], h);
      }
    }
    assert rs[..|rs|] == rs;
  }

  lemma CountNone()
    ensures forall h :: CountOf([], h) == 0
  {
  }

  // ---- what is on disk ----

  datatype OnDisk = OnDisk(streams: map<HostId, Tx.Stream>, cursors: map<HostId, nat>)

  /** One host's batch went in: the newest of its stream and the batch, with the cursor. */
  ghost predicate StoredOne(a: OnDisk, b: OnDisk, host: HostId, prs: seq<Pulled>, cursor: nat, keep: int) {
    if host == "" then b == a
    else
      && host in b.streams && b == OnDisk(a.streams[host := b.streams[host]], a.cursors[host := cursor])
      && IsNewest(Union(if host in a.streams then a.streams[host] else map[], prs), b.streams[host], keep)
  }

  /** The batches went in one after another. */
  ghost predicate StoredRun(states: seq<OnDisk>, batches: Batches, next: map<HostId, nat>, keep: int) {
    && |states| == |batches| + 1
    && forall i :: 0 <= i < |batches| ==>
         StoredOne(states[i], states[i + 1], batches[i].0, batches[i].1, CursorFor(next, batches[i].0), keep)
  }

  ghost predicate StoresTo(a: OnDisk, b: OnDisk, batches: Batches, next: map<HostId, nat>, keep: int) {
    exists states :: StoredRun(states, batches, next, keep) && states[0] == a && states[|batches|] == b
  }

  lemma StoresNothing(a: OnDisk, next: map<HostId, nat>, keep: int)
    ensures StoresTo(a, a, [], next, keep)
  {
    assert StoredRun([a], [], next, keep);
  }

  lemma StoresMore(a: OnDisk, b: OnDisk, c: OnDisk, batches: Batches, last: (HostId, seq<Pulled>), next: map<HostId, nat>, keep: int)
    requires StoresTo(a, b, batches, next, keep) && StoredOne(b, c, last.0, last.1, CursorFor(next, last.0), keep)
    ensures StoresTo(a, c, batches + [last], next, keep)
  {
    hide StoredOne;
    var states :| StoredRun(states, batches, next, keep) && states[0] == a && states[|batches|] == b;
    var all := batches + [last];
    var states' := states + [c];
    forall i | 0 <= i < |all|
      ensures StoredOne(states'[i], states'[i + 1], all[i].0, all[i].1, CursorFor(next, all[i].0), keep)
    {
      if i < |batches| {
        assert StoredOne(states[i], states[i + 1], batches[i].0, batches[i].1, CursorFor(next, batches[i].0), keep);
      }
    }
    assert StoredRun(states', all, next, keep);
  }

  // ---- the cache ----

  class RemoteCache {
    const disk: Cache        // the ciphertext cache file
    const tags: TagIndex
    var configured: bool     // a syncer is attached
    var records: seq<Record>
    var cmds: seq<string>
    var cursors: map<HostId, nat>
    var state: Condition
    var lastMs: int
    var attached: bool       // the file is open
    var keep: int
    var revokedMeta: bool    // what the last run recorded
    var latched: bool
    var hydrated: bool

    /** Texts beside records; once refused, no cursor and no open file. */
    ghost predicate Valid()
      reads this, disk
    {
      && Alongside(records, cmds) && disk.Valid()
      && (latched ==> cursors == map[] && !attached && (state == RevokedHere || state == Off))
    }

    ghost function Kept(): OnDisk
      reads disk
    {
      OnDisk(disk.streams, disk.cursors)
    }

    /** A fresh process: what an earlier run recorded takes the file off the disk before it is
        plain, but does not keep this run from asking again. */
    constructor (disk: Cache, tags: TagIndex, configured: bool, keep: int, revokedMeta: bool)
      requires disk.Valid()
      modifies disk
      ensures Valid() && !latched && !hydrated && records == [] && cursors == map[]
      ensures this.disk == disk && this.tags == tags && this.keep == keep && this.configured == configured
      ensures configured && revokedMeta ==> state == RevokedHere && disk.cursors == map[] && forall h :: disk.Stream(h) == map[]
    {
      this.disk, this.tags, this.configured, this.keep, this.revokedMeta := disk, tags, configured, keep, revokedMeta;
      records, cmds, cursors, lastMs := [], [], map[], 0;
      latched, hydrated := false, false;
      state := if !configured then Off else if revokedMeta then RevokedHere else Unavailable;
      attached := configured;
      new;
      if configured && revokedMeta {
        disk.Reset();
      }
    }

    /** Fold pulled records in: tombstones take their targets out and are not kept. */
    method FoldRemote(rs: seq<Record>)
      requires Alongside(records, cmds)
      modifies this`records, this`cmds, tags
      ensures Alongside(records, cmds) && records == Folded(old(records), rs)
      ensures tags.State() == Replay(old(tags.State()), rs, tags.norm)
    {
      var deleted: set<string> := {};
      for i := 0 to |rs|
        invariant deleted == Targets(rs[..i]) && records == old(records) && cmds == old(cmds)
        invariant tags.State() == Replay(old(tags.State()), rs[..i], tags.norm)
      {
        TargetsStep(rs, i);
        assert rs[..i + 1][..i] == rs[..i];
        if rs[i].kind == TYPE_DELETE && rs[i].targetId != "" {
          deleted := deleted + {rs[i].targetId};
        }
        if rs[i].kind == TYPE_TAG {
          tags.Apply(rs[i]);
        }
      }
      assert rs[..|rs|] == rs;
      records, cmds := AddLive(records, cmds, rs, deleted);
      DropTwice(old(records), Live(rs), deleted);
      if deleted != {} {
        records, cmds := Dropped(records, cmds, deleted);
      }
    }

    /** The server refused this device: stop, forget the cursors, take the file away. The
        decrypted records in memory stay. */
    method OnRevoked()
      requires Valid()
      modifies this`revokedMeta, this`attached, this`cursors, this`state, this`latched, disk
      ensures Valid() && latched && revokedMeta && state == RevokedHere
      ensures disk.cursors == map[] && forall h :: disk.Stream(h) == map[]
    {
      revokedMeta := true;
      attached := false;
      cursors := map[];
      state := RevokedHere;
      latched := true;
      disk.Reset();
    }

    /** Install another configuration. Only a different server throws the cache away, and only
        that lifts a refusal. */
    method Attach(syncer: bool, keep: int, sameServer: bool)
      requires Valid()
      modifies this, disk
      ensures Valid() && configured == syncer && this.keep == keep
      ensures sameServer ==> latched == old(latched) && records == old(records) && cursors == old(cursors)
      ensures sameServer ==> revokedMeta == old(revokedMeta) && disk.streams == old(disk.streams) && disk.cursors == old(disk.cursors)
      ensures sameServer && old(latched) && syncer ==> state == RevokedHere && !attached
      ensures !sameServer ==> !latched && !revokedMeta && records == [] && cursors == map[] && !hydrated
      ensures !sameServer && old(attached) ==> disk.cursors == map[] && forall h :: disk.Stream(h) == map[]
      ensures syncer && !latched ==> state == Unavailable && attached
    {
      hide Alongside, Cache.Valid;
      configured := syncer;
      this.keep := keep;
      if !sameServer {
        NoTexts();
        records, cmds, cursors, lastMs := [], [], map[], 0;
        hydrated := false;
        if attached {
          disk.Reset();
        }
        latched := false;
        revokedMeta := false;
      }
      if !syncer {
        state := Off;
        return;
      }
      if latched {
        state := RevokedHere;
        return;
      }
      state := Unavailable;
      attached := true;
    }

    /** Decrypt the file into memory, once. One that does not open outlived its group and is
        thrown away, cursors and all. */
    method Hydrate(hosts: seq<HostId>, open: Opener) returns (ghost warmed: seq<Record>, ghost pages: Batches)
      requires Valid() && !latched
      modifies this`records, this`cmds, this`cursors, this`hydrated, disk, tags
      ensures Valid() && hydrated && records == Folded(old(records), warmed)
      ensures old(hydrated) || !attached ==> warmed == [] && cursors == old(cursors) && Kept() == old(Kept())
      ensures !old(hydrated) && attached ==>
        if OpenAll(pages, open).Good?
        then Kept() == old(Kept()) && FilePages(pages, hosts, old(disk.streams)) && warmed == OpenAll(pages, open).value && cursors == old(disk.cursors)
        else warmed == [] && cursors == map[] && disk.cursors == map[] && forall h :: disk.Stream(h) == map[]
    {
      hide Alongside, Replay, TagIndex.State, Folded, AscendingPulled;
      warmed, pages := [], [];
      FoldNothing(records);
      if hydrated { return; }
      if !attached {
        hydrated := true;
        return;
      }
      var found := disk.cursors;
      var recs: seq<Record> := [];
      for i := 0 to |hosts|
        invariant Valid() && !latched && records == old(records) && attached
        invariant disk.cursors == found && disk.streams == old(disk.streams)
        invariant FilePages(pages, hosts[..i], disk.streams) && OpenAll(pages, open) == Good(recs)
      {
        var prs := disk.Records(hosts[i]);
        var plain := open(hosts[i], prs);
        OpenOneMore(pages, (hosts[i], prs), open);
        OnePageMore(pages, hosts, i, prs, disk.streams);
        pages := pages + [(hosts[i], prs)];
        if !plain.Good? {
          disk.Reset();
          hydrated := true;
          cursors := map[];
          return;
        }
        recs := recs + plain.value;
      }
      assert hosts[..|hosts|] == hosts;
      FoldRemote(recs);
      warmed := recs;
      cursors := found;
      hydrated := true;
    }

    /** Store freshly pulled ciphertext, if there is a file to store it in. */
    method CacheCiphertext(host: HostId, prs: seq<Pulled>, cursor: nat)
      requires Valid()
      modifies disk
      ensures Valid()
      ensures if attached then StoredOne(old(Kept()), Kept(), host, prs, cursor, keep) else Kept() == old(Kept())
    {
      if !attached { return; }
      var _, _ := disk.Append(host, prs, cursor, keep);
    }

    method Fail(refused: bool) returns (outcome: Cycle)
      requires Valid() && !latched
      modifies this`revokedMeta, this`attached, this`cursors, this`state, this`latched, disk
      ensures Valid() && outcome == (if refused then RefusedAsRevoked else TryAgain) && (latched <==> refused)
      ensures !refused ==> state == Unavailable && cursors == old(cursors) && attached == old(attached) && revokedMeta == old(revokedMeta)
      ensures refused ==> revokedMeta && disk.cursors == map[] && forall h :: disk.Stream(h) == map[]
    {
      if refused {
        OnRevoked();
        return RefusedAsRevoked;
      }
      state := Unavailable;
      return TryAgain;
    }

    /** Cache each host's ciphertext before opening it; the first failure ends it. */
    method OpenPulled(batches: Batches, next: map<HostId, nat>, open: Opener) returns (plain: Answer<seq<Record>>)
      requires Valid()
      modifies disk
      ensures Valid() && plain == OpenAll(batches, open)
      ensures !attached ==> Kept() == old(Kept())
      ensures attached && plain.Good? ==> StoresTo(old(Kept()), Kept(), batches, next, keep)
    {
      hide StoresTo, StoredOne;
      var got: seq<Record> := [];
      StoresNothing(Kept(), next, keep);
      assert batches[..0] == [];
      for i := 0 to |batches|
        invariant Valid() && OpenAll(batches[..i], open) == Good(got)
        invariant if attached then StoresTo(old(Kept()), Kept(), batches[..i], next, keep) else Kept() == old(Kept())
      {
        assert batches[..i + 1][..i] == batches[..i] && batches[..i + 1] == batches[..i] + [batches[i]];
        ghost var before := Kept();
        CacheCiphertext(batches[i].0, batches[i].1, CursorFor(next, batches[i].0));
        if attached {
          StoresMore(old(Kept()), before, Kept(), batches[..i], batches[i], next, keep);
        }
        var one := open(batches[i].0, batches[i].1);
        if !one.Good? {
          FailsEarly(batches, i + 1, open);
          return one;
        }
        got := got + one.value;
      }
      assert batches[..|batches|] == batches;
      return Good(got);
    }

    /** One cycle: push, warm up, pull, fold, evict. A cycle that fails leaves the records it
        had, and one that is refused is the last. */
    method SyncOnce(pushed: Answer<nat>, hosts: seq<HostId>, openOld: Opener,
                    pulled: Answer<(Batches, map<HostId, nat>)>, open: Opener, now: int)
      returns (outcome: Cycle, ghost warmed: seq<Record>)
      requires Valid()
      modifies this, disk, tags
      ensures Valid() && configured == old(configured) && keep == old(keep)
      ensures old(latched) ==> outcome in {NotConfigured, RefusedAsRevoked} && latched && records == old(records)
      ensures old(latched) ==> state == old(state) && disk.streams == old(disk.streams) && tags.State() == old(tags.State())
      ensures !old(latched) ==> (latched <==> outcome == RefusedAsRevoked) && (outcome == NotConfigured <==> !configured)
      ensures outcome == Synced ==>
        && pushed.Good? && pulled.Good? && OpenAll(pulled.value.0, open).Good?
        && records == Pruned(Folded(Folded(old(records), warmed), OpenAll(pulled.value.0, open).value), keep)
        && cursors == pulled.value.1 && state == Fine && lastMs == now && !revokedMeta
      ensures outcome == TryAgain ==> state == Unavailable
      ensures !old(latched) && outcome in {TryAgain, RefusedAsRevoked} ==> records == Folded(old(records), warmed)
      ensures outcome == NotConfigured ==> records == old(records)
      ensures old(hydrated) ==> hydrated && warmed == []
      ensures outcome == Synced ==> attached == old(attached) && (!attached ==> Kept() == old(Kept()))
      ensures outcome == Synced && attached && old(hydrated) ==> StoresTo(old(Kept()), Kept(), pulled.value.0, pulled.value.1, keep)
    {
      hide StoresTo, Folded, OpenAll, Pruned, Alongside, Cache.Valid, TagIndex.State, Replay;
      warmed := [];
      FoldNothing(records);
      if !configured { return NotConfigured, warmed; }
      if latched { return RefusedAsRevoked, warmed; }
      state := Syncing;
      if !pushed.Good? {
        outcome := Fail(pushed.Refused?);
        return;
      }
      ghost var pages;
      warmed, pages := Hydrate(hosts, openOld);
      if !pulled.Good? {
        outcome := Fail(pulled.Refused?);
        return;
      }
      outcome := Absorb(pulled.value.0, pulled.value.1, open, now);
    }

    /** What a cycle does with what it pulled. */
    method Absorb(batches: Batches, next: map<HostId, nat>, open: Opener, now: int) returns (outcome: Cycle)
      requires Valid() && !latched && configured
      modifies this`records, this`cmds, this`cursors, this`state, this`lastMs, this`revokedMeta, this`attached, this`latched, disk, tags
      ensures Valid() && outcome in {Synced, TryAgain, RefusedAsRevoked} && (latched <==> outcome == RefusedAsRevoked)
      ensures outcome == Synced <==> OpenAll(batches, open).Good?
      ensures outcome == Synced ==>
        && records == Pruned(Folded(old(records), OpenAll(batches, open).value), keep)
        && cursors == next && state == Fine && lastMs == now && !revokedMeta && attached == old(attached)
      ensures outcome == Synced ==> if attached then StoresTo(old(Kept()), Kept(), batches, next, keep) else Kept() == old(Kept())
      ensures outcome != Synced ==> records == old(records)
      ensures outcome == TryAgain ==> state == Unavailable
    {
      hide StoresTo, Folded, OpenAll, Pruned, Alongside, Cache.Valid, TagIndex.State, Replay;
      var plain := OpenPulled(batches, next, open);
      if !plain.Good? {
        outcome := Fail(plain.Refused?);
        return;
      }
      Finish(plain.value, next, now);
      return Synced;
    }

    method Finish(plain: seq<Record>, next: map<HostId, nat>, now: int)
      requires Valid() && !latched
      modifies this`records, this`cmds, this`cursors, this`state, this`lastMs, this`revokedMeta, tags
      ensures Valid() && records == Pruned(Folded(old(records), plain), keep)
      ensures cursors == next && state == Fine && lastMs == now && !revokedMeta
    {
      hide Folded, Pruned, Alongside, Cache.Valid, TagIndex.State, Replay;
      FoldRemote(plain);
      records, cmds := Prune(records, cmds, keep);
      cursors := next;
      state := Fine;
      lastMs := now;
      revokedMeta := false;
    }
  }

  /** The file's streams, host by host, each in ascending order. */
  ghost predicate FilePages(pages: Batches, hosts: seq<HostId>, streams: map<HostId, Tx.Stream>) {
    && |pages| == |hosts|
    && forall i :: 0 <= i < |hosts| ==> pages[i].0 == hosts[i] && WholeStream(pages[i].1, if hosts[i] in streams then streams[hosts[i]] else map[])
  }

  ghost predicate WholeStream(rs: seq<Pulled>, s: Tx.Stream) {
    AscendingPulled(rs) && forall p :: p in rs <==> p.seqNo in s && s[p.seqNo] == p.record
  }

  lemma OnePageMore(pages: Batches, hosts: seq<HostId>, i: nat, prs: seq<Pulled>, streams: map<HostId, Tx.Stream>)
    requires i < |hosts| && FilePages(pages, hosts[..i], streams)
    requires WholeStream(prs, if hosts[i] in streams then streams[hosts[i]] else map[])
    ensures FilePages(pages + [(hosts[i], prs)], hosts[..i + 1], streams)
  {
    hide WholeStream;
    assert forall k :: 0 <= k < i ==> hosts[..i + 1][k] == hosts[..i][k];
  }

  lemma OpenOneMore(batches: Batches, last: (HostId, seq<Pulled>), open: Opener)
    requires OpenAll(batches, open).Good?
    ensures OpenAll(batches + [last], open) ==
      if open(last.0, last.1).Good? then Good(OpenAll(batches, open).value + open(last.0, last.1).value) else open(last.0, last.1)
    ensures OpenAll([], open) == Good([])
  {
    assert (batches + [last])[..|batches|] == batches;
  }

  lemma NoTexts()
    ensures Alongside([], [])
  {
  }

  lemma FoldNothing(rs: seq<Record>)
    ensures Folded(rs, []) == rs
  {
    assert rs + Live([]) == rs;
    WithoutNone(rs, Targets([]));
  }

  lemma {:induction false} FailsEarly(batches: Batches, k: nat, open: Opener)
    requires k <= |batches| && !OpenAll(batches[..k], open).Good?
    ensures OpenAll(batches, open) == OpenAll(batches[..k], open)
    decreases |batches| - k
  {
    if k == |batches| {
      assert batches[..k] == batches;
    } else {
      assert batches[..k + 1][..k] == batches[..k];
      FailsEarly(batches, k + 1, open);
    }
  }

  // ---- runs ----

  datatype Event =
    | Reconfigure(syncer: bool, keep: int, sameServer: bool)
    | SyncCycle(pushed: Answer<nat>, hosts: seq<HostId>, openOld: Opener,
                pulled: Answer<(Batches, map<HostId, nat>)>, open: Opener, now: int)

  /** Once refused, only moving to another server lets a cycle run again: until then nothing
      is asked for, no cursor comes back, and no file is plain or written. */
  method StaysOut(rc: RemoteCache, events: seq<Event>)
    requires rc.Valid() && rc.latched
    requires forall e <- events :: e.Reconfigure? ==> e.sameServer
    modifies rc, rc.disk, rc.tags
    ensures rc.Valid() && rc.latched && rc.cursors == map[] && !rc.attached
    ensures rc.records == old(rc.records) && rc.disk.streams == old(rc.disk.streams) && rc.tags.State() == old(rc.tags.State())
  {
    hide Folded, OpenAll, Pruned, Alongside, Cache.Valid;
    for i := 0 to |events|
      invariant rc.Valid() && rc.latched && rc.records == old(rc.records)
      invariant rc.disk.streams == old(rc.disk.streams) && rc.tags.State() == old(rc.tags.State())
    {
      assert events[i] in events;
      match events[i] {
        case Reconfigure(syncer, keep, sameServer) => rc.Attach(syncer, keep, sameServer);
        case SyncCycle(pushed, hosts, openOld, pulled, open, now) =>
          var _, _ := rc.SyncOnce(pushed, hosts, openOld, pulled, open, now);
      }
    }
  }

  /** What a cycle would add: the records its pull brought, opened. */
  function PlainOf(e: Event): seq<Record> {
    if e.SyncCycle? && e.pulled.Good? && OpenAll(e.pulled.value.0, e.open).Good? then OpenAll(e.pulled.value.0, e.open).value else []
  }

  /** The live records of the cycles that went through. */
  function Gathered(events: seq<Event>, outcomes: seq<Cycle>): seq<Record>
    requires |events| == |outcomes|
  {
    if events == [] then []
    else
      var n := |events| - 1;
      Gathered(events[..n], outcomes[..n]) + if outcomes[n] == Synced then Live(PlainOf(events[n])) else []
  }

  /** Cycle after cycle, some failing, some after a refusal: as long as no deletion comes in,
      memory is what was there and everything the successful cycles pulled, pruned once. */
  method KeepSyncing(rc: RemoteCache, events: seq<Event>) returns (outcomes: seq<Cycle>)
    requires rc.Valid() && rc.hydrated && rc.records == Pruned(rc.records, rc.keep)
    requires forall e <- events :: e.SyncCycle? && Targets(PlainOf(e)) == {}
    modifies rc, rc.disk, rc.tags
    ensures rc.Valid() && rc.keep == old(rc.keep) && |outcomes| == |events|
    ensures rc.records == Pruned(old(rc.records) + Gathered(events, outcomes), rc.keep)
  {
    hide Folded, OpenAll, Pruned, Live, Targets, Alongside, Cache.Valid, TagIndex.State, PlainOf, Replay, StoresTo, RemoteCache.Kept, Gathered;
    outcomes := [];
    GatherNone(old(rc.records));
    assert events[..0] == [];
    for i := 0 to |events|
      invariant rc.Valid() && rc.hydrated && rc.keep == old(rc.keep) && |outcomes| == i
      invariant rc.records == Pruned(old(rc.records) + Gathered(events[..i], outcomes), rc.keep)
    {
      var e := events[i];
      assert e in events;
      ghost var before := rc.records;
      var outcome, warmed := rc.SyncOnce(e.pushed, e.hosts, e.openOld, e.pulled, e.open, e.now);
      GatherOne(events, outcomes, i, outcome);
      FoldNothing(before);
      if outcome == Synced {
        SyncedPlain(e);
        FoldLive(before, PlainOf(e));
        PrunedOnwards(old(rc.records), Gathered(events[..i], outcomes), Live(PlainOf(e)), rc.keep);
      }
      outcomes := outcomes + [outcome];
    }
    assert events[..|events|] == events;
  }

  lemma GatherNone(rs: seq<Record>)
    ensures rs + Gathered([], []) == rs
  {
  }

  lemma PrunedOnwards(start: seq<Record>, got: seq<Record>, more: seq<Record>, keep: int)
    ensures Pruned(Pruned(start + got, keep) + more, keep) == Pruned(start + (got + more), keep)
  {
    hide Pruned;
    PrunedComposes(start + got, more, keep);
    assert (start + got) + more == start + (got + more);
  }

  lemma GatherOne(events: seq<Event>, outcomes: seq<Cycle>, i: nat, o: Cycle)
    requires i == |outcomes| < |events|
    ensures Gathered(events[..i + 1], outcomes + [o]) ==
      if o == Synced then Gathered(events[..i], outcomes) + Live(PlainOf(events[i])) else Gathered(events[..i], outcomes)
  {
    hide Live, PlainOf;
    assert events[..i + 1][..i] == events[..i] && (outcomes + [o])[..i] == outcomes;
  }

  lemma SyncedPlain(e: Event)
    requires e.SyncCycle? && e.pulled.Good? && OpenAll(e.pulled.value.0, e.open).Good?
    ensures PlainOf(e) == OpenAll(e.pulled.value.0, e.open).value
  {
  }

  lemma FoldLive(rs: seq<Record>, more: seq<Record>)
    requires Targets(more) == {}
    ensures Folded(rs, more) == rs + Live(more)
  {
    WithoutNone(rs + Live(more), {});
  }
}
