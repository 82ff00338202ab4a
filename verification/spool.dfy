/** The spool directory: writers that publish a record by renaming a finished file, and the
    one drainer that collects published files, in any interleaving. */
module Spool {
  import opened Wrappers
  import opened Wire
  import opened Bucket
  import opened Store

  type Name = nat  // file names sort by time, and none is given out twice

  datatype Line = Whole(rec: Record) | Torn

  datatype Tmp = Tmp(lines: seq<Line>, modified: int)

  /** A call to Append on its way: what it writes, where, and how far it is. */
  datatype Writer = Writer(name: Name, rec: Record, written: bool)

  /** One step of one writer; GiveUp is any failure it cleans up after, Die one it does not. */
  datatype Step = Create(w: nat, name: Name, rec: Record, now: int) | Write(w: nat, now: int) | Publish(w: nat) | GiveUp(w: nat) | Die(w: nat)

  const TMP_TTL := 3600 * 1000

  /** A file is read up to its first torn line. */
  function Readable(lines: seq<Line>): seq<Record> {
    if lines == [] || lines[0].Torn? then [] else [lines[0].rec] + Readable(lines[1..])
  }

  /** The records of some files, file by file. */
  function Contents(files: map<Name, seq<Line>>, names: seq<Name>): seq<Record>
    requires forall n <- names :: n in files
  {
    if names == [] then [] else Contents(files, names[..|names| - 1]) + Readable(files[names[|names| - 1]])
  }

  lemma {:induction false} ContentsHold(files: map<Name, seq<Line>>, names: seq<Name>, n: Name, r: Record)
    requires (forall m <- names :: m in files) && n in names && files[n] == [Whole(r)]
    ensures r in Contents(files, names)
  {
    if names[|names| - 1] == n {
      assert Readable(files[n]) == [r] + Readable(files[n][1..]);
    } else {
      assert names == names[..|names| - 1] + [names[|names| - 1]];
      ContentsHold(files, names[..|names| - 1], n, r);
    }
  }

  function Wholes(xs: seq<Record>): seq<Line> {
    seq(|xs|, i requires 0 <= i < |xs| => Whole(xs[i]))
  }

  /** A file of whole lines is read whole; one with a torn line up to that line. */
  lemma {:induction false} ReadableIs(xs: seq<Record>, rest: seq<Line>)
    ensures Readable(Wholes(xs)) == xs && Readable(Wholes(xs) + ([Torn] + rest)) == xs
  {
    if xs != [] {
      ReadableIs(xs[1..], rest);
      assert Wholes(xs)[1..] == Wholes(xs[1..]);
      assert (Wholes(xs) + ([Torn] + rest))[1..] == Wholes(xs[1..]) + ([Torn] + rest);
      assert xs == [xs[0]] + xs[1..];
    }
  }

  /** Published records are handed over in the order of their files' names. */
  lemma {:induction false} ContentsInOrder(files: map<Name, seq<Line>>, published: map<Name, Record>, names: seq<Name>)
    requires forall n <- names :: n in files && n in published && files[n] == [Whole(published[n])]
    ensures |Contents(files, names)| == |names| && forall i :: 0 <= i < |names| ==> Contents(files, names)[i] == published[names[i]]
  {
    if names != [] {
      var init, n := names[..|names| - 1], names[|names| - 1];
      ContentsInOrder(files, published, init);
      assert n in names && Readable(files[n]) == [published[n]] + Readable([Whole(published[n])][1..]);
      assert forall i :: 0 <= i < |init| ==> names[i] == init[i];
    }
  }

  /** What the drainer and the writers share. */
  datatype Shared = Shared(files: map<Name, seq<Line>>, published: map<Name, Record>, taken: seq<Name>)

  /** The drainer took these files; the writers only added to the rest. */
  ghost predicate Advanced(a: Shared, b: Shared, gone: seq<Name>) {
    && b.taken == a.taken + gone
    && (forall n <- a.files :: n !in gone ==> n in b.files && b.files[n] == a.files[n])
    && (forall n <- a.published :: n in b.published && b.published[n] == a.published[n])
    && (forall n <- b.published :: n !in a.published ==> n in b.files && n !in a.files && n !in b.taken)
  }

  lemma AdvancedFurther(a: Shared, b: Shared, c: Shared, gone: seq<Name>, next: Name)
    requires Advanced(a, b, gone) && Advanced(b, c, [next]) && next in a.files
    ensures Advanced(a, c, gone + [next])
  {
  }

  lemma AdvancedIdle(a: Shared, b: Shared, c: Shared, gone: seq<Name>)
    requires Advanced(a, b, gone) && Advanced(b, c, [])
    ensures Advanced(a, c, gone)
  {
  }

  class Dir {
    var tmps: map<Name, Tmp>
    var files: map<Name, seq<Line>>     // the published ones
    var writers: map<nat, Writer>
    var used: set<Name>
    ghost var published: map<Name, Record>  // every record whose Append succeeded, by its file
    ghost var taken: seq<Name>              // files the drainer has removed, in order

    ghost function Shares(): Shared
      reads this
    {
      Shared(files, published, taken)
    }

    /** Every published record is in exactly one file or was taken exactly once. */
    ghost predicate Conserved()
      reads this
    {
      && (forall n <- published :: n in files <==> n !in taken)
      && (forall n <- published :: n in files ==> files[n] == [Whole(published[n])])
      && (forall i, j :: 0 <= i < j < |taken| ==> taken[i] != taken[j])
      && (forall n <- taken :: n !in files)
    }

    ghost predicate WritersApart()
      reads this
    {
      && (forall w <- writers :: writers[w].name in used && writers[w].name !in published && writers[w].name !in files && writers[w].name !in taken)
      && (forall v, w :: v in writers && w in writers && v != w ==> writers[v].name != writers[w].name)
      && (forall w <- writers :: writers[w].written && writers[w].name in tmps ==> tmps[writers[w].name].lines == [Whole(writers[w].rec)])
    }

    ghost predicate Valid()
      reads this
    {
      && Conserved() && WritersApart()
      && tmps.Keys <= used && files.Keys <= used && published.Keys <= used && forall n <- taken :: n in used
    }

    constructor ()
      ensures Valid() && files == map[] && published == map[] && taken == [] && writers == map[] && tmps == map[] && used == {}
    {
      tmps, files, writers, used, published, taken := map[], map[], map[], {}, map[], [];
    }

    method CreateTmp(w: nat, name: Name, rec: Record, now: int)
      requires Valid() && w !in writers && name !in used
      modifies this`tmps, this`writers, this`used
      ensures Valid() && tmps == old(tmps)[name := Tmp([], now)]
      ensures writers == old(writers)[w := Writer(name, rec, false)] && used == old(used) + {name}
    {
      tmps := tmps[name := Tmp([], now)];
      writers := writers[w := Writer(name, rec, false)];
      used := used + {name};
    }

    /** The whole line in one write; if the file was swept away meanwhile it goes nowhere. */
    method WriteLine(w: nat, now: int)
      requires Valid() && w in writers && !writers[w].written
      modifies this`tmps, this`writers
      ensures Valid() && writers == old(writers)[w := old(writers)[w].(written := true)]
      ensures var n := writers[w].name;
        tmps == if n in old(tmps) then old(tmps)[n := Tmp([Whole(writers[w].rec)], now)] else old(tmps)
    {
      var me := writers[w];
      if me.name in tmps {
        tmps := tmps[me.name := Tmp([Whole(me.rec)], now)];
      }
      writers := writers[w := me.(written := true)];
    }

    /** The rename: it succeeds exactly when the file is still there, and only then is the
        record published. */
    method Rename(w: nat) returns (ok: bool)
      requires Valid() && w in writers && writers[w].written
      modifies this`tmps, this`files, this`writers, this`published
      ensures Valid() && writers == old(writers) - {w} && (ok <==> old(writers)[w].name in old(tmps))
      ensures var me := old(writers)[w]; if ok
        then files == old(files)[me.name := [Whole(me.rec)]] && published == old(published)[me.name := me.rec] && tmps == old(tmps) - {me.name}
        else files == old(files) && published == old(published) && tmps == old(tmps)
    {
      var me := writers[w];
      ok := me.name in tmps;
      if ok {
        files := files[me.name := tmps[me.name].lines];
        published := published[me.name := me.rec];
      }
      tmps := tmps - {me.name};
      writers := writers - {w};
    }

    method CleanUp(w: nat)
      requires Valid() && w in writers
      modifies this`tmps, this`writers
      ensures Valid() && writers == old(writers) - {w} && tmps == old(tmps) - {old(writers)[w].name}
    {
      tmps := tmps - {writers[w].name};
      writers := writers - {w};
    }

    /** One writer step; one that cannot happen now does nothing. */
    method Act(s: Step)
      requires Valid()
      modifies this`tmps, this`files, this`writers, this`used, this`published
      ensures Valid() && Advanced(old(Shares()), Shares(), []) && taken == old(taken)
      ensures s.Create? && s.w !in old(writers) && s.name !in old(used) ==>
        && writers == old(writers)[s.w := Writer(s.name, s.rec, false)] && tmps == old(tmps)[s.name := Tmp([], s.now)]
        && used == old(used) + {s.name} && files == old(files) && published == old(published)
      ensures s.Write? && s.w in old(writers) && !old(writers)[s.w].written ==>
        var me := old(writers)[s.w];
        && writers == old(writers)[s.w := me.(written := true)] && used == old(used) && files == old(files) && published == old(published)
        && tmps == if me.name in old(tmps) then old(tmps)[me.name := Tmp([Whole(me.rec)], s.now)] else old(tmps)
      ensures s.Publish? && s.w in old(writers) && old(writers)[s.w].written && old(writers)[s.w].name in old(tmps) ==>
        var me := old(writers)[s.w];
        && writers == old(writers) - {s.w} && tmps == old(tmps) - {me.name} && used == old(used)
        && files == old(files)[me.name := [Whole(me.rec)]] && published == old(published)[me.name := me.rec]
      ensures (s.GiveUp? || s.Die?) ==> s.w !in writers
      ensures s.GiveUp? && s.w in old(writers) ==> tmps == old(tmps) - {old(writers)[s.w].name}
    {
      match s {
        case Create(w, name, rec, now) =>
          if w !in writers && name !in used { CreateTmp(w, name, rec, now); }
        case Write(w, now) =>
          if w in writers && !writers[w].written { WriteLine(w, now); }
        case Publish(w) =>
          if w in writers && writers[w].written { var _ := Rename(w); }
        case GiveUp(w) =>
          if w in writers { CleanUp(w); }
        case Die(w) =>
          writers := writers - {w};
      }
    }

    /** Any steps of the writers: they publish new files and touch nothing published. */
    method Others(steps: seq<Step>)
      requires Valid()
      modifies this`tmps, this`files, this`writers, this`used, this`published
      ensures Valid() && Advanced(old(Shares()), Shares(), [])
    {
      hide Valid;
      assert taken + [] == taken;
      for i := 0 to |steps|
        invariant Valid() && Advanced(old(Shares()), Shares(), [])
      {
        ghost var mid := Shares();
        Act(steps[i]);
        AdvancedIdle(old(Shares()), mid, Shares(), []);
      }
    }

    /** The published files, in name order. */
    method Glob() returns (names: seq<Name>)
      ensures Ascending(names) && (forall n :: n in names <==> n in files)
    {
      names := [];
      ghost var next := 0;
      var k := Seek(files.Keys, 0);
      while k.Some?
        invariant Ascending(names) && forall i :: 0 <= i < |names| ==> names[i] in files && names[i] < next
        invariant forall n <- files :: n < next ==> n in names
        invariant k.None? ==> forall n <- files :: n < next
        invariant k.Some? ==> k.value in files && next <= k.value && forall n <- files :: next <= n ==> k.value <= n
        decreases Above(files.Keys, next)
      {
        assert k.value in Above(files.Keys, next);
        names := names + [k.value];
        next := k.value + 1;
        k := Seek(files.Keys, k.value + 1);
      }
    }

    /** Hand one file's records over, in order, up to a torn line. */
    method DrainFile(name: Name) returns (got: seq<Record>)
      requires name in files
      ensures got == Readable(files[name])
    {
      var lines := files[name];
      got := [];
      var i := 0;
      while i < |lines|
        invariant 0 <= i <= |lines| && got + Readable(lines[i..]) == Readable(lines)
      {
        if lines[i].Torn? { break; }
        got := got + [lines[i].rec];
        i := i + 1;
      }
    }

    method Remove(name: Name)
      requires Valid() && name in files
      modifies this`files, this`taken
      ensures Valid() && files == old(files) - {name} && taken == old(taken) + [name]
    {
      files := files - {name};
      taken := taken + [name];
    }

    /** Temporary files nobody has touched for an hour go; a writer this overtakes fails. */
    method SweepTmp(now: int)
      requires Valid()
      modifies this`tmps
      ensures Valid() && tmps == map n | n in old(tmps) && now < old(tmps)[n].modified + 3_600_000 :: old(tmps)[n]
    {
      tmps := map n | n in tmps && tmps[n].modified > now - TMP_TTL :: tmps[n];
    }

    /** Read and remove one file, the writers moving before and in between. */
    method Take(name: Name, before: seq<Step>, between: seq<Step>, stuck: set<Name>) returns (got: seq<Record>, ok: bool)
      requires Valid() && name in files
      modifies this
      ensures Valid() && (ok <==> name !in stuck) && got == Readable(old(files)[name])
      ensures Advanced(old(Shares()), Shares(), if ok then [name] else [])
    {
      hide Conserved, WritersApart, Readable;
      Others(before);
      ghost var mid := Shares();
      got := DrainFile(name);
      Others(between);
      AdvancedIdle(old(Shares()), mid, Shares(), []);
      ok := name !in stuck;
      if ok {
        Remove(name);
      }
    }

    /** One drain, the writers taking any steps before and between its own. The removal of a
        file may fail, which ends the drain; nothing published is ever touched otherwise. */
    method Drain(before: seq<seq<Step>>, between: seq<seq<Step>>, stuck: set<Name>, now: int)
      returns (got: seq<Record>, ok: bool, ghost names: seq<Name>, ghost k: nat)
      requires Valid()
      modifies this
      ensures Valid() && Ascending(names) && (forall n :: n in names <==> n in old(files)) && k <= |names|
      ensures Advanced(old(Shares()), Shares(), names[..k]) && (ok <==> forall n <- names :: n !in stuck)
      ensures ok ==> k == |names| && got == Contents(old(files), names)
      ensures !ok ==> k < |names| && names[k] in stuck && forall n <- names[..k] :: n !in stuck
    {
      hide Valid, Readable, Advanced, Contents, Ascending;
      var todo := Glob();
      names, got, k := todo, [], 0;
      ghost var start := Shares();
      AdvancedNowhere(start);
      NoNames(files);
      for i := 0 to |todo|
        invariant Valid() && k == i && Advanced(start, Shares(), names[..k]) && got == Contents(old(files), names[..k])
        invariant forall n <- names[..k] :: n !in stuck
      {
        NextName(old(files), todo, i);
        ghost var mid := Shares();
        StillThere(start, mid, names[..i], todo[i]);
        var rs, taken := Take(todo[i], if i < |before| then before[i] else [], if i < |between| then between[i] else [], stuck);
        if !taken {
          AdvancedIdle(start, mid, Shares(), names[..i]);
          return got, false, names, k;
        }
        AdvancedFurther(start, mid, Shares(), names[..i], todo[i]);
        got := got + rs;
        k := k + 1;
      }
      assert names[..|names|] == names;
      SweepTmp(now);
      ok := true;
    }
  }

  lemma NextName(files: map<Name, seq<Line>>, names: seq<Name>, i: nat)
    requires i < |names| && Ascending(names) && forall n <- names :: n in files
    ensures names[i] in files && names[i] !in names[..i] && names[..i + 1] == names[..i] + [names[i]]
    ensures Contents(files, names[..i + 1]) == Contents(files, names[..i]) + Readable(files[names[i]])
  {
    assert names[..i + 1][..i] == names[..i];
  }

  lemma NoNames(files: map<Name, seq<Line>>)
    ensures Contents(files, []) == []
  {
  }

  lemma AdvancedNowhere(a: Shared)
    ensures Advanced(a, a, [])
  {
  }

  lemma StillThere(a: Shared, b: Shared, gone: seq<Name>, n: Name)
    requires Advanced(a, b, gone) && n in a.files && n !in gone
    ensures n in b.files && b.files[n] == a.files[n]
  {
  }

  /** Every record whose Append succeeded is still in its file or already in the log. */
  ghost predicate NothingLost(files: map<Name, seq<Line>>, published: map<Name, Record>, log: seq<Record>) {
    forall n <- published :: n !in files && published[n].id != "" ==> Known(log, published[n].id)
  }

  /** Once everything handed over is in the log, what left its file is in the log. */
  lemma HandedOver(a: Shared, b: Shared, names: seq<Name>, got: seq<Record>, log: seq<Record>, log': seq<Record>)
    requires Advanced(a, b, names) && NothingLost(a.files, a.published, log) && Grew(log, log')
    requires forall n :: n in names <==> n in a.files
    requires forall n <- a.published :: n in a.files ==> a.files[n] == [Whole(a.published[n])]
    requires got == Contents(a.files, names) && forall r <- got :: r.id != "" ==> Known(log', r.id)
    ensures NothingLost(b.files, b.published, log')
  {
    hide Grew, Known;
    forall n <- b.published | n !in b.files && b.published[n].id != "" ensures Known(log', b.published[n].id) {
      var r := b.published[n];
      assert n in a.published && a.published[n] == r;
      if n in a.files {
        ContentsHold(a.files, names, n, r);
      } else {
        StaysKnown(log, log', r.id);
      }
    }
  }

  /** The published records in the files that were taken are in the log, where they have an id. */
  ghost predicate TakenAreKnown(published: map<Name, Record>, gone: seq<Name>, log: seq<Record>) {
    forall n <- gone :: n in published && published[n].id != "" ==> Known(log, published[n].id)
  }

  /** After a drain whose batch was dropped nothing is lost exactly when what it took was in
      the log before. */
  lemma DroppedBatch(a: Shared, b: Shared, gone: seq<Name>, log: seq<Record>)
    requires Advanced(a, b, gone) && NothingLost(a.files, a.published, log)
    requires forall n <- gone :: n !in b.files
    ensures NothingLost(b.files, b.published, log) <==> TakenAreKnown(a.published, gone, log)
  {
    hide Known;
    if NothingLost(b.files, b.published, log) {
      forall n <- gone | n in a.published && a.published[n].id != "" ensures Known(log, a.published[n].id) {
        assert n in b.published && b.published[n] == a.published[n];
      }
    }
    if TakenAreKnown(a.published, gone, log) {
      forall n <- b.published | n !in b.files && b.published[n].id != "" ensures Known(log, b.published[n].id) {
        assert n in a.published && b.published[n] == a.published[n];
        assert n in a.files ==> n in gone;
      }
    }
  }

  /** Draining into the database in one batch loses nothing, whatever the writers do meanwhile.
      When a file cannot be removed the batch is dropped; then a record is lost exactly when
      some file taken before the stuck one held a record the log did not have. */
  method IngestSpool(dir: Dir, db: Database, before: seq<seq<Step>>, between: seq<seq<Step>>, stuck: set<Name>,
                     newId: seq<Record> -> string, now: int)
    returns (added: nat, ok: bool, ghost names: seq<Name>, ghost k: nat)
    requires dir.Valid() && db.Valid() && NeverRepeats(newId) && now != 0
    requires NothingLost(dir.files, dir.published, db.Log())
    modifies dir, db
    ensures dir.Valid() && db.Valid() && Grew(old(db.Log()), db.Log()) && added == db.sequence - old(db.sequence)
    ensures Ascending(names) && (forall n :: n in names <==> n in old(dir.files)) && k <= |names|
    ensures Advanced(old(dir.Shares()), dir.Shares(), names[..k]) && (ok <==> forall n <- names :: n !in stuck)
    ensures ok ==> k == |names|
    ensures !ok ==> k < |names| && names[k] in stuck && (forall n <- names[..k] :: n !in stuck) && db.Log() == old(db.Log())
    ensures NothingLost(dir.files, dir.published, db.Log()) <==> ok || TakenAreKnown(old(dir.published), names[..k], old(db.Log()))
  {
    hide IsLog, Grew, Advanced, NothingLost, TakenAreKnown, NeverRepeats, AllDrawn, AppendedAll, Database.Inverse, Dir.WritersApart;
    ghost var log, start := db.Log(), dir.Shares();
    GrewReflexive(log);
    var got;
    got, ok, names, k := dir.Drain(before, between, stuck, now);
    added := 0;
    if !ok {
      TakenAreGone(dir, start, names[..k]);
      DroppedBatch(start, dir.Shares(), names[..k], log);
      return;
    }
    assert names[..k] == names;
    if got != [] {
      var ds := Drafts(db.Log(), got, newId, now, db.hostId, db.hostname);
      DraftsDrawn(log, got, newId, now, db.hostId, db.hostname);
      BatchGrows(log, ds, db.hostId, db.hostname);
      added := db.AppendBatch(ds);
      DraftsKnown(ds, got, db.Log());
    }
    HandedOver(start, dir.Shares(), names, got, log, db.Log());
  }

  lemma TakenAreGone(dir: Dir, start: Shared, gone: seq<Name>)
    requires dir.Valid() && Advanced(start, dir.Shares(), gone)
    ensures forall n <- gone :: n !in dir.files
  {
    forall n <- gone ensures n in dir.taken {
      assert n in start.taken + gone;
    }
  }

  /** One Append, start to end. */
  method AppendNow(dir: Dir, w: nat, name: Name, rec: Record, now: int)
    requires dir.Valid() && w !in dir.writers && name !in dir.used && name !in dir.tmps
    modifies dir
    ensures dir.Valid() && dir.files == old(dir.files)[name := [Whole(rec)]] && dir.published == old(dir.published)[name := rec]
    ensures dir.writers == old(dir.writers) - {w} && dir.used == old(dir.used) + {name} && dir.tmps == old(dir.tmps) - {name}
    ensures dir.taken == old(dir.taken)
  {
    hide Dir.Valid, Advanced;
    dir.Act(Create(w, name, rec, now));
    dir.Act(Write(w, now));
    dir.Act(Publish(w));
  }

  lemma TwoNames(names: seq<Name>)
    requires Ascending(names) && forall n :: n in names <==> n == 1 || n == 2
    ensures names == [1, 2]
  {
    assert forall k :: 0 <= k < |names| ==> names[k] in names;
    assert 1 in names && 2 in names;
    Spread(names, |names| - 1);
  }

  lemma {:induction false} Spread(names: seq<Name>, i: nat)
    requires Ascending(names) && i < |names|
    ensures names[i] >= names[0] + i
  {
    if i > 0 {
      Spread(names, i - 1);
    }
  }

  /** The loss is real: two records are spooled into an empty store and the second file cannot
      be removed; the first record is then in no file and not in the log. */
  method StuckFileLosesRecord(newId: seq<Record> -> string) returns (dir: Dir, db: Database)
    requires NeverRepeats(newId)
    ensures dir.Valid() && db.Valid() && db.Log() == []
    ensures 1 in dir.published && dir.published[1].id == "a" && 1 !in dir.files && !Known(db.Log(), "a")
    ensures !NothingLost(dir.files, dir.published, db.Log())
  {
    hide Advanced, Grew, IsLog, NothingLost, Dir.Conserved, Dir.WritersApart, Database.Inverse, NeverRepeats, TakenAreKnown;
    dir := new Dir();
    db := new Database("host", "name");
    AppendNow(dir, 0, 1, EMPTY_RECORD.(id := "a"), 1);
    AppendNow(dir, 0, 2, EMPTY_RECORD.(id := "b"), 1);
    ghost var start := dir.Shares();
    NothingGone(start, db.Log());
    var added, ok, names, k := IngestSpool(dir, db, [], [], {2}, newId, 1);
    TwoNames(names);
    assert 2 in names;
    SecondIsStuck(names, k);
    TakenAreGone(dir, start, [1]);
    FirstIsLost(start, dir.Shares());
  }

  lemma NothingGone(a: Shared, log: seq<Record>)
    requires forall n <- a.published :: n in a.files
    ensures NothingLost(a.files, a.published, log)
  {
  }

  lemma SecondIsStuck(names: seq<Name>, k: nat)
    requires names == [1, 2] && k < 2 && names[k] == 2
    ensures names[..k] == [1]
  {
  }

  lemma FirstIsLost(a: Shared, b: Shared)
    requires Advanced(a, b, [1]) && 1 in a.published && a.published[1].id == "a" && 1 !in b.files
    ensures 1 in b.published && b.published[1].id == "a" && !Known([], "a")
    ensures !NothingLost(b.files, b.published, [])
  {
  }

  lemma DraftsKnown(ds: seq<Draft>, recs: seq<Record>, log': seq<Record>)
    requires |ds| == |recs| && forall i :: 0 <= i < |recs| ==> ds[i].rec == recs[i]
    requires forall d <- ds :: d.rec.id != "" ==> Known(log', d.rec.id)
    ensures forall r <- recs :: r.id != "" ==> Known(log', r.id)
  {
    forall r <- recs | r.id != "" ensures Known(log', r.id) {
      var i :| 0 <= i < |recs| && recs[i] == r;
      assert ds[i] in ds;
    }
  }
}
