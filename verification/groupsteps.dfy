/** Every step of the group-key protocol keeps the invariant. */
module GroupSteps {
  import opened Wrappers
  import opened Crypto
  import opened Wire
  import Tx = ServerTx
  import opened Group
  import opened GroupInvariant

  // ---- the log ----

  lemma LogFrame(w: World, w': World)
    requires LogInv(w) && Grows(w, w') && w'.ledger.log == w.ledger.log
    requires forall d :: Tx.IsActive(w'.srv.devices, d) ==> Tx.IsActive(w.srv.devices, d)
    requires forall d <- w'.srv.hkWraps :: d in w.srv.hkWraps && w'.srv.hkWraps[d] == w.srv.hkWraps[d]
    ensures LogInv(w')
  {
    forall i | 0 <= i < |w.ledger.log| && GrantedKey(w.ledger.log[i]).Some?
      ensures IsInstalled(w'.ledger, GrantedKey(w.ledger.log[i]).value)
    {
      InstalledFrame(w, w', GrantedKey(w.ledger.log[i]).value);
    }
  }

  lemma InstalledFrame(w: World, w': World, k: Key)
    requires Grows(w, w') && IsInstalled(w.ledger, k)
    ensures IsInstalled(w'.ledger, k)
  {
    var v :| v in w.ledger.keys && w.ledger.keys[v] == k;
    assert v in w'.ledger.keys && w'.ledger.keys[v] == k;
  }

  /** Appending one event: its key is installed by now, an installation is of a key nobody
      had before and reaches active devices only, an activation admits its device. */
  lemma StillLogged(log: seq<Event>, e: Event, b: Blob, d: DeviceId)
    requires Logged(log, b, d)
    ensures Logged(log + [e], b, d)
  {
    var g :| 0 <= g < |log| && Grants(log[g], Boxed(b).value, d);
    assert (log + [e])[g] == log[g];
  }

  lemma NowLogged(log: seq<Event>, e: Event, b: Blob, d: DeviceId)
    requires Boxed(b).Some? && Grants(e, Boxed(b).value, d)
    ensures Logged(log + [e], b, d)
  {
    assert (log + [e])[|log|] == e;
  }

  lemma StillReadmitted(log: seq<Event>, e: Event, i: nat, j: nat, j': nat, d: DeviceId)
    requires Readmitted(log, i, j, d) && j <= j'
    ensures Readmitted(log + [e], i, j', d)
  {
    var m :| i < m < j && 0 <= m < |log| && log[m].Activated? && log[m].device == d;
    assert (log + [e])[m] == log[m];
  }

  lemma JustReadmitted(log: seq<Event>, e: Event, i: nat, d: DeviceId)
    requires i < |log| && e.Activated? && e.device == d
    ensures Readmitted(log + [e], i, |log| + 1, d)
  {
    assert (log + [e])[|log|] == e;
  }

  lemma LogAppend(w: World, w': World, e: Event)
    requires LogInv(w) && Grows(w, w') && w'.ledger.log == w.ledger.log + [e]
    requires GrantedKey(e).Some? ==> IsInstalled(w'.ledger, GrantedKey(e).value)
    requires e.Installed? ==> !IsInstalled(w.ledger, e.hk) && forall d <- e.devices :: Tx.IsActive(w.srv.devices, d)
    requires forall d :: Tx.IsActive(w'.srv.devices, d) ==>
      (Tx.IsActive(w.srv.devices, d) && e != RevokedDevice(d)) || (e.Activated? && e.device == d)
    requires forall d <- w'.srv.hkWraps ::
      || (d in w.srv.hkWraps && w'.srv.hkWraps[d] == w.srv.hkWraps[d])
      || (Boxed(w'.srv.hkWraps[d].blob).Some? && Grants(e, Boxed(w'.srv.hkWraps[d].blob).value, d))
    ensures LogInv(w')
  {
    hide Readmitted, Logged;
    var log, log' := w.ledger.log, w'.ledger.log;
    var n := |log|;
    assert log'[n] == e;
    forall d <- w'.srv.hkWraps ensures Logged(log', w'.srv.hkWraps[d].blob, d) {
      if d in w.srv.hkWraps && w'.srv.hkWraps[d] == w.srv.hkWraps[d] {
        assert Logged(log, w.srv.hkWraps[d].blob, d);
        StillLogged(log, e, w.srv.hkWraps[d].blob, d);
      } else {
        NowLogged(log, e, w'.srv.hkWraps[d].blob, d);
      }
    }
    forall i | 0 <= i < |log'| && GrantedKey(log'[i]).Some?
      ensures IsInstalled(w'.ledger, GrantedKey(log'[i]).value)
    {
      if i < n {
        InstalledFrame(w, w', GrantedKey(log[i]).value);
      }
    }
    forall i | 0 <= i < |log'| && log'[i].RevokedDevice? && Tx.IsActive(w'.srv.devices, log'[i].device)
      ensures Readmitted(log', i, |log'|, log'[i].device)
    {
      var d := log'[i].device;
      if e.Activated? && e.device == d {
        JustReadmitted(log, e, i, d);
      } else {
        assert i < n && log'[i] == log[i] && Readmitted(log, i, n, d);
        StillReadmitted(log, e, i, n, n + 1, d);
      }
    }
    forall i, j | 0 <= i < j < |log'| && log'[i].RevokedDevice? && log'[j].Installed? && log'[i].device in log'[j].devices
      ensures Readmitted(log', i, j, log'[i].device)
    {
      var d := log'[i].device;
      assert log'[i] == log[i] && Readmitted(log, i, j, d);
      StillReadmitted(log, e, i, j, j, d);
    }
  }

  // ---- steps that leave the server alone ----

  /** A step that touches one task only. */
  lemma LocalStep(w: World, w': World, t: TaskId)
    requires Inv(w)
    requires w'.srv == w.srv && w'.syncers == w.syncers
    requires w'.ledger == w.ledger
    requires w'.tasks - {t} == w.tasks - {t}
    requires t in w'.tasks ==> TaskOk(w'.srv, w'.ledger, w'.tasks[t])
    requires t in w'.tasks && Unborn(w'.tasks[t]).Some? ==> t in w.tasks && Unborn(w'.tasks[t]) == Unborn(w.tasks[t])
    ensures Inv(w') && Grows(w, w')
  {
    TasksFrame(w, w', t);
    SyncersFrame(w, w');
    RecordsFrame(w, w');
    LogFrame(w, w');
  }

  lemma SetTaskOthers(w: World, t: TaskId, k: Task)
    ensures SetTask(w, t, k).tasks - {t} == w.tasks - {t}
    ensures EndTask(w, t).tasks - {t} == w.tasks - {t}
  {
  }

  lemma HoldsKnown(w: World, sid: SyncerId, h: Held)
    requires Inv(w) && Holds(w, sid, h)
    ensures Known(w.ledger, h)
  {
    assert SyncerOk(w.srv, w.ledger, w.syncers[sid]);
    if w.syncers[sid].hk != Some(h) {
      var t :| t in w.tasks && w.tasks[t].Holding? && w.tasks[t].sid == sid && w.tasks[t].held == h;
      assert TaskOk(w.srv, w.ledger, w.tasks[t]);
    }
  }

  /** A step that changes nothing but the caches of one syncer. */
  lemma CacheStep(w: World, w': World, sid: SyncerId)
    requires Inv(w) && w'.srv == w.srv && w'.tasks == w.tasks && w'.ledger == w.ledger
    requires sid in w'.syncers && w'.syncers == w.syncers[sid := w'.syncers[sid]]
    requires SyncerOk(w.srv, w.ledger, w'.syncers[sid])
    ensures Inv(w') && Grows(w, w')
  {
    hide LogInv, RecordsInv, TaskOk, CachedWrapOk, IsInstalled;
    RecordsFrame(w, w');
    LogFrame(w, w');
  }

  lemma FetchStep(w: World, sid: SyncerId, t: TaskId)
    requires Inv(w) && Enabled(w, FetchHK(sid, t))
    ensures var w' := After(w, FetchHK(sid, t)); Inv(w') && Grows(w, w')
  {
    hide LogInv, RecordsInv, SyncersInv, RecoveryInv, DekWrapsInv, TasksInv, Grows;
    var w' := After(w, FetchHK(sid, t));
    LocalStep(w, w', t);
  }

  lemma StoreStep(w: World, t: TaskId)
    requires Inv(w) && Enabled(w, StoreHK(t))
    ensures var w' := After(w, StoreHK(t)); Inv(w') && Grows(w, w')
  {
    hide LogInv, RecordsInv, HKWrapsInv, RecoveryInv, DekWrapsInv, VersionsInv, Grows;
    assert TaskOk(w.srv, w.ledger, w.tasks[t]);
    assert SyncerOk(w.srv, w.ledger, w.syncers[w.tasks[t].sid]);
    CacheStep(w, After(w, StoreHK(t)), w.tasks[t].sid);
  }

  lemma StartStep(w: World, sid: SyncerId, id: DeviceId, priv: PubKey)
    requires Inv(w) && Enabled(w, StartSyncer(sid, id, priv))
    ensures var w' := After(w, StartSyncer(sid, id, priv)); Inv(w') && Grows(w, w')
  {
    hide LogInv, RecordsInv, SyncersInv, HKWrapsInv, RecoveryInv, DekWrapsInv, VersionsInv, TasksInv, Grows;
    CacheStep(w, After(w, StartSyncer(sid, id, priv)), sid);
  }

  lemma RefreshStep(w: World, sid: SyncerId, page: seq<KeyId>)
    requires Inv(w) && Enabled(w, RefreshWraps(sid, page))
    ensures var w' := After(w, RefreshWraps(sid, page)); Inv(w') && Grows(w, w')
  {
    hide LogInv, RecordsInv, HKWrapsInv, RecoveryInv, TasksInv, Grows;
    assert SyncerOk(w.srv, w.ledger, w.syncers[sid]);
    CacheStep(w, After(w, RefreshWraps(sid, page)), sid);
  }

  /** What a cached wrap opens to is the DEK of its id. */
  lemma OpenedDek(w: World, sid: SyncerId, h: Held, keyId: KeyId)
    requires sid in w.syncers && keyId in w.syncers[sid].dekWraps && SyncerOk(w.srv, w.ledger, w.syncers[sid])
    ensures var w' := CacheDek(w, sid, h, keyId);
      && w'.srv == w.srv && w'.tasks == w.tasks && w'.ledger == w.ledger
      && sid in w'.syncers && w'.syncers == w.syncers[sid := w'.syncers[sid]]
      && SyncerOk(w.srv, w.ledger, w'.syncers[sid])
  {
    assert CachedWrapOk(w.ledger, keyId, w.syncers[sid].dekWraps[keyId]);
  }

  lemma OpenDekStep(w: World, sid: SyncerId, h: Held, keyId: KeyId)
    requires Inv(w) && Enabled(w, OpenDek(sid, h, keyId))
    ensures var w' := After(w, OpenDek(sid, h, keyId)); Inv(w') && Grows(w, w')
  {
    hide LogInv, RecordsInv, HKWrapsInv, RecoveryInv, DekWrapsInv, VersionsInv, TasksInv, Grows, SyncerOk;
    assert SyncerOk(w.srv, w.ledger, w.syncers[sid]);
    OpenedDek(w, sid, h, keyId);
    hide Inv, SyncersInv, CacheDek, Holds;
    CacheStep(w, CacheDek(w, sid, h, keyId), sid);
  }

  lemma RecoverStep(w: World, sid: SyncerId, t: TaskId, priv: PubKey)
    requires Inv(w) && Enabled(w, BeginRecovery(sid, t, priv))
    ensures var w' := After(w, BeginRecovery(sid, t, priv)); Inv(w') && Grows(w, w')
  {
    hide LogInv, RecordsInv, SyncersInv, HKWrapsInv, DekWrapsInv, TasksInv, Grows;
    LocalStep(w, After(w, BeginRecovery(sid, t, priv)), t);
  }

  /** One re-wrapped DEK: same plaintext, sealed under the new key. */
  lemma ReWrapOk(w: World, x: DEKWrap, h: Held, hkNew: Key)
    requires CachedWrapOk(w.ledger, x.keyId, x) && OpenOld(x, h).Some?
    ensures var y := ReWrap(x, h, hkNew);
      y.keyId == x.keyId && y.hkVersion == h.version + 1 && SealsDek(y, hkNew, w.ledger.deks[x.keyId])
  {
  }

  lemma SweepOut(w: World, t: TaskId, page: seq<KeyId>, more: bool)
    requires DekWrapsInv(w) && Enabled(w, SweepPage(t, page, more)) && OutOk(w.ledger, w.tasks[t].out, w.tasks[t].hkNew, w.tasks[t].held.version + 1)
    requires forall id <- page :: OpenOld(w.srv.dekWraps[id], w.tasks[t].held).Some?
    ensures t in SweepOne(w, t, page, more).tasks
    ensures OutOk(w.ledger, SweepOne(w, t, page, more).tasks[t].out, w.tasks[t].hkNew, w.tasks[t].held.version + 1)
  {
    var k := w.tasks[t];
    var out := SweepOne(w, t, page, more).tasks[t].out;
    forall i | 0 <= i < |out|
      ensures out[i].hkVersion == k.held.version + 1 && out[i].keyId in w.ledger.deks
        && SealsDek(out[i], k.hkNew, w.ledger.deks[out[i].keyId])
    {
      if i < |k.out| {
        assert out[i] == k.out[i] && out[i] in k.out;
      } else {
        var x := w.srv.dekWraps[page[i - |k.out|]];
        assert out[i] == ReWrap(x, k.held, k.hkNew);
        ReWrapOk(w, x, k.held, k.hkNew);
      }
    }
  }

  /** The task after one page: its other parts as they were, its output still good. */
  lemma SweptPage(w: World, t: TaskId, page: seq<KeyId>, more: bool)
    requires DekWrapsInv(w) && Enabled(w, SweepPage(t, page, more)) && TaskOk(w.srv, w.ledger, w.tasks[t])
    ensures var w' := SweepOne(w, t, page, more);
      && w' == w.(tasks := w'.tasks) && w'.tasks - {t} == w.tasks - {t}
      && (t in w'.tasks ==> TaskOk(w.srv, w.ledger, w'.tasks[t]) && Unborn(w'.tasks[t]) == Unborn(w.tasks[t]))
  {
    hide OpenOld, ReWrap, DekWrapsInv, SealsDek;
    var k := w.tasks[t];
    var w' := SweepOne(w, t, page, more);
    if exists id <- page :: OpenOld(w.srv.dekWraps[id], k.held).None? {
      SetTaskOthers(w, t, k);
    } else {
      SweepOut(w, t, page, more);
      SetTaskOthers(w, t, w'.tasks[t]);
    }
  }

  lemma SweepStep(w: World, t: TaskId, page: seq<KeyId>, more: bool)
    requires Inv(w) && Enabled(w, SweepPage(t, page, more))
    ensures var w' := After(w, SweepPage(t, page, more)); Inv(w') && Grows(w, w')
  {
    hide LogInv, RecordsInv, SyncersInv, HKWrapsInv, RecoveryInv, DekWrapsInv, VersionsInv, Grows, SweepOne, TaskOk;
    SweptPage(w, t, page, more);
    LocalStep(w, SweepOne(w, t, page, more), t);
  }

  lemma BuiltReq(w: World, t: TaskId, ids: seq<DeviceId>)
    requires t in w.tasks && w.tasks[t].Swept? && TaskOk(w.srv, w.ledger, w.tasks[t])
    requires Enabled(w, WrapForActive(t, ids))
    ensures TaskOk(w.srv, w.ledger, BuildRotate(w, t, ids).tasks[t])
  {
    var k := w.tasks[t];
    var req := BuildRotate(w, t, ids).tasks[t].req;
    forall x <- req.hkWraps ensures x.hkVersion == req.hkVersion && Boxed(x.blob) == Some(k.hkNew) {
      var i :| 0 <= i < |ids| && x == HKWrapFor(k.hkNew, k.held.version + 1, ids[i], w.srv.devices[ids[i]].pub);
    }
  }

  lemma BuildStep(w: World, t: TaskId, ids: seq<DeviceId>)
    requires Inv(w) && Enabled(w, WrapForActive(t, ids))
    ensures var w' := After(w, WrapForActive(t, ids)); Inv(w') && Grows(w, w')
  {
    hide LogInv, RecordsInv, SyncersInv, HKWrapsInv, RecoveryInv, DekWrapsInv, VersionsInv, Grows;
    BuiltReq(w, t, ids);
    var w' := BuildRotate(w, t, ids);
    SetTaskOthers(w, t, w'.tasks[t]);
    LocalStep(w, w', t);
  }

  // ---- steps that commit on the server ----

  /** Tokens and registration: no key, no wrap, and nobody becomes active. */
  lemma QuietRequest(s: Tx.State, req: Tx.Request, now: int)
    requires req.ReqMint? || req.ReqRevokeToken? || req.ReqRegister?
    ensures var s' := Tx.Handle(s, req, now);
      s' == s.(tokens := s'.tokens, devices := s'.devices)
      && forall d :: Tx.IsActive(s'.devices, d) <==> Tx.IsActive(s.devices, d)
  {
  }

  lemma ServedServer(w: World, req: Tx.Request, now: int)
    requires VersionsInv(w) && HKWrapsInv(w) && RecoveryInv(w) && DekWrapsInv(w) && Enabled(w, Serve(req, now))
    ensures var w' := w.(srv := Tx.Handle(w.srv, req, now));
      && Grows(w, w') && VersionsInv(w') && HKWrapsInv(w') && RecoveryInv(w') && DekWrapsInv(w')
      && w'.srv.hkWraps == w.srv.hkWraps && w'.srv.records == w.srv.records
      && forall d :: Tx.IsActive(w'.srv.devices, d) ==> Tx.IsActive(w.srv.devices, d)
  {
    QuietRequest(w.srv, req, now);
    hide CachedWrapOk, UnwrapHK, Tx.Handle, Tx.IsActive, Boxed;
  }

  lemma ServeStep(w: World, req: Tx.Request, now: int)
    requires Inv(w) && Enabled(w, Serve(req, now))
    ensures var w' := After(w, Serve(req, now)); Inv(w') && Grows(w, w')
  {
    hide LogInv, RecordsInv, SyncersInv, HKWrapsInv, RecoveryInv, DekWrapsInv, VersionsInv, Grows, Tx.Handle;
    var w' := w.(srv := Tx.Handle(w.srv, req, now));
    ServedServer(w, req, now);
    forall t <- w'.tasks ensures TaskOk(w'.srv, w'.ledger, w'.tasks[t]) {
      TaskFrame(w, w', w.tasks[t]);
    }
    SyncersFrame(w, w');
    RecordsFrame(w, w');
    LogFrame(w, w');
  }

  lemma BootstrappedTask(w: World, sid: SyncerId, t: TaskId, hk: Key, salt: nat, recPub: PubKey)
    requires VersionsInv(w) && RecoveryInv(w) && sid in w.syncers && t !in w.tasks && hk !in w.ledger.minted
    ensures var w' := Bootstrap(w, sid, t, hk, salt, recPub);
      && Grows(w, w') && VersionsInv(w') && RecoveryInv(w') && (HKWrapsInv(w) ==> HKWrapsInv(w')) && (DekWrapsInv(w) ==> DekWrapsInv(w'))
      && (t in w'.tasks ==> TaskOk(w'.srv, w'.ledger, w'.tasks[t]) && Unborn(w'.tasks[t]).None?)
      && forall x :: IsInstalled(w'.ledger, x) ==> x == hk || IsInstalled(w.ledger, x)
  {
    var w' := Bootstrap(w, sid, t, hk, salt, recPub);
    assert w.srv.recovery.None? ==> forall v :: v !in w.ledger.keys;
    forall x | IsInstalled(w'.ledger, x) ensures x == hk || IsInstalled(w.ledger, x) {
      var v :| v in w'.ledger.keys && w'.ledger.keys[v] == x;
      assert x == hk || (v in w.ledger.keys && w.ledger.keys[v] == x);
    }
  }

  /** A bootstrap against an untouched server: the only key is the one just generated, and the
      recovery key opens to it. */
  predicate FirstKey(w: World, hk: Key) {
    && w.ledger.keys == map[BOOTSTRAP_HK_VERSION := hk]
    && w.srv.recovery.Some? && w.srv.hkVersion == 0
    && UnwrapHK(w.srv.recovery.value.wrap.blob, w.srv.recovery.value.pub) == Some(hk)
  }

  lemma BootstrapStep(w: World, sid: SyncerId, t: TaskId, hk: Key, salt: nat, recPub: PubKey)
    requires Inv(w) && Enabled(w, BeginBootstrap(sid, t, hk, salt, recPub))
    ensures var w' := After(w, BeginBootstrap(sid, t, hk, salt, recPub)); Inv(w') && Grows(w, w')
  {
    hide LogInv, RecordsInv, SyncersInv, HKWrapsInv, RecoveryInv, DekWrapsInv, VersionsInv, Grows;
    var w' := Bootstrap(w, sid, t, hk, salt, recPub);
    BootstrappedTask(w, sid, t, hk, salt, recPub);
    TasksFrame(w, w', t);
    SyncersFrame(w, w');
    RecordsFrame(w, w');
    LogFrame(w, w');
  }

  /** The first bootstrap fixes the group's only key; any other changes nothing. */
  lemma FirstBootstrap(w: World, sid: SyncerId, t: TaskId, hk: Key, salt: nat, recPub: PubKey)
    requires Inv(w) && Enabled(w, BeginBootstrap(sid, t, hk, salt, recPub))
    ensures var w' := After(w, BeginBootstrap(sid, t, hk, salt, recPub));
      if w.srv.recovery.Some? then w'.srv == w.srv && w'.syncers == w.syncers && w'.tasks == w.tasks && w'.ledger.keys == w.ledger.keys
      else FirstKey(w', hk) && t in w'.tasks && w'.tasks[t] == Forming(sid, hk)
  {
    if w.srv.recovery.None? {
      assert forall v :: v !in w.ledger.keys;
      assert w.ledger.keys == map[];
    }
  }

  /** The server after an accepted activation: d holds key h and is active. */
  ghost predicate ActivatedTo(w: World, w': World, h: Held, d: DeviceId, pub: PubKey) {
    && d in w.srv.devices
    && (w.srv.hkVersion == 0 ==> w'.srv.hkVersion == h.version)
    && (w.srv.hkVersion >= 1 ==> w'.srv.hkVersion == w.srv.hkVersion == h.version)
    && w'.srv == w.srv.(hkVersion := w'.srv.hkVersion, hkWraps := w.srv.hkWraps[d := HKWrapFor(h.hk, h.version, d, pub)],
                        devices := w.srv.devices[d := w.srv.devices[d].(status := Active)])
    && w'.syncers == w.syncers && w'.tasks == w.tasks
    && w'.ledger == w.ledger.(log := w.ledger.log + [Activated(d, h.hk)])
  }

  lemma ActivatedServer(w: World, w': World, h: Held, d: DeviceId, pub: PubKey)
    requires VersionsInv(w) && HKWrapsInv(w) && RecoveryInv(w) && DekWrapsInv(w) && Known(w.ledger, h)
    requires ActivatedTo(w, w', h, d, pub)
    ensures VersionsInv(w') && HKWrapsInv(w') && RecoveryInv(w') && DekWrapsInv(w') && Grows(w, w')
  {
    assert TopVersion(w') == TopVersion(w);
  }

  lemma ActivatedLog(w: World, w': World, h: Held, d: DeviceId, pub: PubKey)
    requires LogInv(w) && Known(w.ledger, h) && Grows(w, w')
    requires ActivatedTo(w, w', h, d, pub)
    ensures LogInv(w')
  {
    LogAppend(w, w', Activated(d, h.hk));
  }

  /** An activation, ordinary or by the recovery key, that is accepted with a known key. */
  lemma ActivatedInv(w: World, w': World, h: Held, d: DeviceId, pub: PubKey)
    requires Inv(w) && Known(w.ledger, h) && ActivatedTo(w, w', h, d, pub)
    ensures Inv(w') && Grows(w, w')
  {
    ActivatedServer(w, w', h, d, pub);
    ActivatedLog(w, w', h, d, pub);
    forall t <- w'.tasks ensures TaskOk(w'.srv, w'.ledger, w'.tasks[t]) {
      TaskFrame(w, w', w.tasks[t]);
    }
    SyncersFrame(w, w');
    RecordsFrame(w, w');
  }

  lemma ActivateKnown(w: World, h: Held, d: DeviceId, pub: PubKey)
    requires Inv(w) && Known(w.ledger, h)
    requires w.srv.hkVersion >= 1 && w.srv.hkWraps == map[] && h.version != w.srv.hkVersion
      ==> Tx.ActivateReply(w.srv, d, HKWrapFor(h.hk, h.version, d, pub)) != Tx.Done
    ensures var w' := Activate(w, h, d, pub);
      Inv(w') && Grows(w, w') && w'.tasks == w.tasks && w'.ledger.keys == w.ledger.keys
  {
    var wrap := HKWrapFor(h.hk, h.version, d, pub);
    if Tx.ActivateReply(w.srv, d, wrap) == Tx.Done {
      ActivatedInv(w, Activate(w, h, d, pub), h, d, pub);
    }
  }

  lemma ActivateSelfStep(w: World, t: TaskId)
    requires Inv(w) && Enabled(w, ActivateSelf(t)) && !Regresses(w, ActivateSelf(t))
    ensures var w' := After(w, ActivateSelf(t)); Inv(w') && Grows(w, w')
  {
    hide LogInv, RecordsInv, SyncersInv, HKWrapsInv, RecoveryInv, DekWrapsInv, VersionsInv;
    var k := w.tasks[t];
    var s := w.syncers[k.sid];
    var h := Held(k.hkNew, BOOTSTRAP_HK_VERSION);
    assert TaskOk(w.srv, w.ledger, k);
    ActivateKnown(w, h, s.deviceId, s.priv);
    var w1 := Activate(w, h, s.deviceId, s.priv);
    SetTaskOthers(w1, t, Holding(k.sid, h, true));
    LocalStep(w1, After(w, ActivateSelf(t)), t);
  }

  lemma ActivateTargetStep(w: World, t: TaskId)
    requires Inv(w) && Enabled(w, ActivateTarget(t)) && !Regresses(w, ActivateTarget(t))
    ensures var w' := After(w, ActivateTarget(t)); Inv(w') && Grows(w, w')
  {
    hide LogInv, RecordsInv, SyncersInv, HKWrapsInv, RecoveryInv, DekWrapsInv, VersionsInv;
    var k := w.tasks[t];
    assert TaskOk(w.srv, w.ledger, k);
    ActivateKnown(w, k.held, k.target, k.pub);
    var w1 := Activate(w, k.held, k.target, k.pub);
    SetTaskOthers(w1, t, k);
    LocalStep(w1, After(w, ActivateTarget(t)), t);
  }

  lemma AdmitStep(w: World, t: TaskId)
    requires Inv(w) && Enabled(w, SendAdmit(t))
    ensures var w' := After(w, SendAdmit(t)); Inv(w') && Grows(w, w')
  {
    hide LogInv, RecordsInv, SyncersInv, HKWrapsInv, DekWrapsInv;
    var k := w.tasks[t];
    assert TaskOk(w.srv, w.ledger, k);
    var wrap := HKWrapFor(k.held.hk, k.held.version, k.device, k.pub);
    var w1 := if Tx.RecoveryActivateReply(w.srv, k.device, wrap) != Tx.Done then w
              else Log(w.(srv := Tx.RecoveryActivate(w.srv, k.device, wrap)), Activated(k.device, k.held.hk));
    if Tx.RecoveryActivateReply(w.srv, k.device, wrap) == Tx.Done {
      ActivatedInv(w, w1, k.held, k.device, k.pub);
    }
    SetTaskOthers(w1, t, k);
    LocalStep(w1, After(w, SendAdmit(t)), t);
  }

  /** Revocation takes the device's wrap with it. */
  lemma RevokedWraps(w: World, t: TaskId, hk: Key)
    requires HKWrapsInv(w) && t in w.tasks && w.tasks[t].Revoking? && w.tasks[t].sid in w.syncers
    ensures HKWrapsInv(RevokeThenSweep(w, t, hk))
  {
    var w' := RevokeThenSweep(w, t, hk);
    forall d <- w'.srv.hkWraps ensures Tx.IsActive(w'.srv.devices, d) {
      assert Tx.IsActive(w.srv.devices, d);
    }
  }

  /** Of what the server stores, only this device's status and wrap changed. */
  predicate OnlyRevokes(a: Tx.State, b: Tx.State, d: DeviceId) {
    && d in a.devices && d in b.devices && b.devices[d] == Device(a.devices[d].pub, Revoked) && d !in b.hkWraps
    && b.devices - {d} == a.devices - {d} && b.hkWraps == a.hkWraps - {d}
    && b == a.(devices := b.devices, hkWraps := b.hkWraps)
  }

  lemma RevokeStep(w: World, t: TaskId, hk: Key)
    requires Inv(w) && Enabled(w, RevokeTarget(t, hk))
    ensures var w' := After(w, RevokeTarget(t, hk)); Inv(w') && Grows(w, w') && w'.syncers == w.syncers
    ensures var w', d := After(w, RevokeTarget(t, hk)), w.tasks[t].target;
      if d in w.srv.devices then OnlyRevokes(w.srv, w'.srv, d) else w'.srv == w.srv && w'.ledger == w.ledger
  {
    hide LogInv, RecordsInv, SyncersInv, RecoveryInv, DekWrapsInv, VersionsInv, Grows;
    var w' := RevokeThenSweep(w, t, hk);
    var k := w.tasks[t];
    assert TaskOk(w.srv, w.ledger, k);
    SetTaskOthers(w, t, if t in w'.tasks then w'.tasks[t] else k);
    if Tx.RevokeReply(w.srv, k.target) != Tx.Done {
      LocalStep(w, w', t);
    } else {
      RevokedWraps(w, t, hk);
      RevokedRest(w, w', t, hk);
    }
  }

  lemma RevokedRest(w: World, w': World, t: TaskId, hk: Key)
    requires Inv(w) && Enabled(w, RevokeTarget(t, hk)) && w' == RevokeThenSweep(w, t, hk)
    requires Tx.RevokeReply(w.srv, w.tasks[t].target) == Tx.Done && HKWrapsInv(w')
    requires w'.tasks - {t} == w.tasks - {t} && TaskOk(w.srv, w.ledger, w.tasks[t])
    ensures Inv(w') && Grows(w, w')
  {
    hide RecordsInv, SyncersInv, LogInv, HKWrapsInv, SealsDek, UnwrapHK, OutOk, ReqOk;
    assert Grows(w, w');
    assert !IsInstalled(w.ledger, hk);
    TasksFrame(w, w', t);
    SyncersFrame(w, w');
    RecordsFrame(w, w');
    LogAppend(w, w', RevokedDevice(w.tasks[t].target));
  }

  ghost predicate RotateAccepted(w: World, t: TaskId) {
    && t in w.tasks && w.tasks[t].Rotating? && w.tasks[t].sid in w.syncers
    && Tx.RotateAccepts(w.srv, w.tasks[t].req)
  }

  /** Only a formed group rotates, and it rotates to the next version. */
  lemma RotateVersion(w: World, t: TaskId)
    requires VersionsInv(w) && RecoveryInv(w) && RotateAccepted(w, t) && TaskOk(w.srv, w.ledger, w.tasks[t])
    ensures w.srv.hkVersion >= 1 && w.srv.recovery.Some?
    ensures w.tasks[t].req.hkVersion == w.srv.hkVersion + 1 && w.srv.hkVersion + 1 !in w.ledger.keys
    ensures Grows(w, Rotate(w, t)) && VersionsInv(Rotate(w, t)) && RecoveryInv(Rotate(w, t))
  {
    Tx.PutDeksHolds(w.srv.dekWraps, w.tasks[t].req.dekWraps);
  }

  lemma RotatedHKWraps(w: World, t: TaskId)
    requires RotateAccepted(w, t) && TaskOk(w.srv, w.ledger, w.tasks[t])
    ensures HKWrapsInv(Rotate(w, t))
  {
    Tx.PutHKsHolds(map[], w.tasks[t].req.hkWraps);
  }

  lemma RotatedDeks(w: World, t: TaskId)
    requires RotateAccepted(w, t) && TaskOk(w.srv, w.ledger, w.tasks[t])
    requires DekWrapsInv(w) && w.tasks[t].req.hkVersion !in w.ledger.keys
    ensures DekWrapsInv(Rotate(w, t))
  {
    var req, w' := w.tasks[t].req, Rotate(w, t);
    Tx.PutDeksHolds(w.srv.dekWraps, req.dekWraps);
    forall id <- w'.srv.dekWraps
      ensures w'.srv.dekWraps[id].keyId == id && w'.srv.dekWraps[id].hkVersion == req.hkVersion
        && CachedWrapOk(w'.ledger, id, w'.srv.dekWraps[id])
    {
      if id in w.srv.dekWraps {
        var x :| x in req.dekWraps && x.keyId == id;
      }
    }
  }

  lemma RotatedLog(w: World, t: TaskId)
    requires RotateAccepted(w, t) && TaskOk(w.srv, w.ledger, w.tasks[t])
    requires LogInv(w) && Grows(w, Rotate(w, t))
    ensures LogInv(Rotate(w, t))
  {
    var k := w.tasks[t];
    var w' := Rotate(w, t);
    var e := Installed(k.hkNew, set x <- k.req.hkWraps :: x.deviceId);
    assert k.req.hkVersion in w'.ledger.keys && w'.ledger.keys[k.req.hkVersion] == k.hkNew;
    Tx.PutHKsHolds(map[], k.req.hkWraps);
    forall d <- e.devices ensures Tx.IsActive(w.srv.devices, d) {
      var x :| x in k.req.hkWraps && x.deviceId == d;
    }
    LogAppend(w, w', e);
  }

  /** The heart of the protocol: an accepted rotation replaces the key everywhere at once. */
  lemma RotateStep(w: World, t: TaskId)
    requires Inv(w) && Enabled(w, SendRotate(t))
    ensures var w' := After(w, SendRotate(t)); Inv(w') && Grows(w, w')
  {
    hide LogInv, RecordsInv, SyncersInv, HKWrapsInv, RecoveryInv, DekWrapsInv, VersionsInv, Grows;
    var w' := Rotate(w, t);
    var k := w.tasks[t];
    assert TaskOk(w.srv, w.ledger, k);
    SetTaskOthers(w, t, if t in w'.tasks then w'.tasks[t] else k);
    if !Tx.RotateAccepts(w.srv, k.req) {
      LocalStep(w, w', t);
    } else {
      RotateVersion(w, t);
      RotatedHKWraps(w, t);
      RotatedDeks(w, t);
      RotatedLog(w, t);
      forall x | IsInstalled(w'.ledger, x) ensures IsInstalled(w.ledger, x) || x == k.hkNew {
        var v :| v in w'.ledger.keys && w'.ledger.keys[v] == x;
        if v in w.ledger.keys && v != k.req.hkVersion {
          assert w.ledger.keys[v] == x;
        }
      }
      RotatedTasks(w, w', t);
      SyncersFrame(w, w');
      RecordsFrame(w, w');
    }
  }

  /** Installing one task's key leaves every other unborn key unborn. */
  lemma RotatedTasks(w: World, w': World, t: TaskId)
    requires Inv(w) && Grows(w, w') && t in w.tasks && Unborn(w.tasks[t]).Some?
    requires w'.tasks - {t} == w.tasks - {t} && t in w'.tasks
    requires Unborn(w'.tasks[t]).None? && TaskOk(w'.srv, w'.ledger, w'.tasks[t])
    requires forall k :: IsInstalled(w'.ledger, k) ==> IsInstalled(w.ledger, k) || k == Unborn(w.tasks[t]).value
    ensures TasksInv(w')
  {
    forall u <- w'.tasks
      ensures TaskOk(w'.srv, w'.ledger, w'.tasks[u])
    {
      if u != t {
        assert u in w'.tasks - {t};
        assert w.tasks[u] == w'.tasks[u];
        assert Unborn(w.tasks[u]) != Unborn(w.tasks[t]);
        TaskFrame(w, w', w.tasks[u]);
      }
    }
    forall a, b | a in w'.tasks && b in w'.tasks && a != b && Unborn(w'.tasks[a]).Some?
      ensures Unborn(w'.tasks[a]) != Unborn(w'.tasks[b])
    {
      assert a in w'.tasks - {t};
      assert b != t ==> b in w'.tasks - {t};
    }
  }

  lemma MintedTask(w: World, sid: SyncerId, t: TaskId, h: Held, epoch: int, keyId: KeyId, dek: Key)
    requires sid in w.syncers && w.syncers[sid].deviceId != "" && Known(w.ledger, h)
    requires keyId !in w.ledger.deks && keyId != 0
    ensures var w' := MintDek(w, sid, t, h, epoch, keyId, dek);
      && Grows(w, w') && t in w'.tasks && TaskOk(w'.srv, w'.ledger, w'.tasks[t]) && Unborn(w'.tasks[t]).None?
      && w'.tasks - {t} == w.tasks - {t} && w' == w.(tasks := w'.tasks, ledger := w'.ledger)
      && w'.ledger == w.ledger.(deks := w'.ledger.deks)
  {
  }

  /** A DEK id nobody knew does not disturb what the server holds. */
  lemma MintedServer(w: World, w': World)
    requires VersionsInv(w) && HKWrapsInv(w) && RecoveryInv(w) && DekWrapsInv(w) && Grows(w, w')
    requires w'.srv == w.srv && w'.ledger == w.ledger.(deks := w'.ledger.deks)
    ensures VersionsInv(w') && HKWrapsInv(w') && RecoveryInv(w') && DekWrapsInv(w')
  {
    hide SealsDek;
  }

  lemma MintStep(w: World, sid: SyncerId, t: TaskId, h: Held, epoch: int, keyId: KeyId, dek: Key)
    requires Inv(w) && Enabled(w, BeginUpload(sid, t, h, epoch, keyId, dek))
    ensures var w' := After(w, BeginUpload(sid, t, h, epoch, keyId, dek)); Inv(w') && Grows(w, w')
  {
    hide LogInv, RecordsInv, HKWrapsInv, RecoveryInv, DekWrapsInv, VersionsInv, Grows, MintDek;
    HoldsKnown(w, sid, h);
    assert SyncerOk(w.srv, w.ledger, w.syncers[sid]);
    MintedTask(w, sid, t, h, epoch, keyId, dek);
    var w' := MintDek(w, sid, t, h, epoch, keyId, dek);
    MintedServer(w, w');
    TasksFrame(w, w', t);
    SyncersFrame(w, w');
    RecordsFrame(w, w');
    LogFrame(w, w');
  }

  ghost predicate UploadAccepted(w: World, t: TaskId) {
    && t in w.tasks && w.tasks[t].Uploading? && w.tasks[t].sid in w.syncers
    && Tx.PostDEKReply(w.srv, [w.tasks[t].wrap]) == Tx.Done && TaskOk(w.srv, w.ledger, w.tasks[t])
  }

  lemma UploadedServer(w: World, t: TaskId)
    requires VersionsInv(w) && HKWrapsInv(w) && RecoveryInv(w) && DekWrapsInv(w) && UploadAccepted(w, t)
    ensures var w' := Upload(w, t);
      && Grows(w, w') && VersionsInv(w') && HKWrapsInv(w') && RecoveryInv(w') && DekWrapsInv(w')
      && w.tasks[t].wrap.keyId in w'.srv.dekWraps
  {
    hide UnwrapDEK;
    var w' := Upload(w, t);
    var x := w.tasks[t].wrap;
    Tx.PutNewDeksHolds(w.srv.dekWraps, [x]);
    assert x in [x] && Tx.DekPostable(x, w.srv.hkVersion);
    forall id <- w'.srv.dekWraps
      ensures w'.srv.dekWraps[id].keyId == id && w'.srv.dekWraps[id].hkVersion == w'.srv.hkVersion
        && CachedWrapOk(w'.ledger, id, w'.srv.dekWraps[id])
    {
      if id !in w.srv.dekWraps {
        assert w'.srv.dekWraps[id] == x;
      }
    }
  }

  /** The uploader's caches gain the entry just stored. */
  lemma UploadedSyncers(w: World, t: TaskId)
    requires SyncersInv(w) && UploadAccepted(w, t) && Grows(w, Upload(w, t))
    requires w.tasks[t].wrap.keyId in Upload(w, t).srv.dekWraps
    ensures SyncersInv(Upload(w, t))
  {
    hide SealsDek, Tx.PostDEK;
    var w' := Upload(w, t);
    forall s <- w'.syncers ensures SyncerOk(w'.srv, w'.ledger, w'.syncers[s]) {
      SyncerFrame(w, w', w.syncers[s]);
    }
  }

  lemma UploadStep(w: World, t: TaskId)
    requires Inv(w) && Enabled(w, SendUpload(t))
    ensures var w' := After(w, SendUpload(t)); Inv(w') && Grows(w, w')
  {
    hide LogInv, RecordsInv, SyncersInv, HKWrapsInv, RecoveryInv, DekWrapsInv, VersionsInv, Grows;
    var w' := Upload(w, t);
    var k := w.tasks[t];
    assert TaskOk(w.srv, w.ledger, k);
    SetTaskOthers(w, t, k);
    if Tx.PostDEKReply(w.srv, [k.wrap]) != Tx.Done {
      LocalStep(w, w', t);
      return;
    }
    UploadedServer(w, t);
    UploadedSyncers(w, t);
    TasksFrame(w, w', t);
    RecordsFrame(w, w');
    LogFrame(w, w');
  }

  /** An upload is accepted exactly when the key it was prepared under is still the current
      one; then what is stored under its id opens to that id's DEK, otherwise nothing changes. */
  lemma UploadDecided(w: World, t: TaskId)
    requires Inv(w) && Enabled(w, SendUpload(t))
    ensures var w', x := After(w, SendUpload(t)), w.tasks[t].wrap;
      if x.hkVersion == w.srv.hkVersion
      then && x.keyId in w'.srv.dekWraps && w'.srv.dekWraps[x.keyId].hkVersion == w'.srv.hkVersion
           && CachedWrapOk(w'.ledger, x.keyId, w'.srv.dekWraps[x.keyId])
      else w'.srv == w.srv && w'.syncers == w.syncers && w'.ledger == w.ledger
  {
    hide LogInv, RecordsInv, SyncersInv, HKWrapsInv, RecoveryInv, VersionsInv, Grows, SealsDek;
    var k := w.tasks[t];
    assert TaskOk(w.srv, w.ledger, k);
    assert k.wrap in [k.wrap];
    assert Tx.DekPostable(k.wrap, w.srv.hkVersion) <==> k.wrap.hkVersion == w.srv.hkVersion;
    if k.wrap.hkVersion == w.srv.hkVersion {
      Tx.PutNewDeksHolds(w.srv.dekWraps, [k.wrap]);
    }
  }

  lemma AscendingSeqs(recs: seq<PushRecord>, i: nat, j: nat)
    requires forall k :: 0 <= k < |recs| - 1 ==> recs[k].seqNo < recs[k + 1].seqNo
    requires i < j < |recs|
    ensures recs[i].seqNo < recs[j].seqNo
    decreases j - i
  {
    if i + 1 < j {
      AscendingSeqs(recs, i + 1, j);
    }
  }

  /** The record sealed by item i opens to that item. */
  lemma SealedItem(w: World, s: Syncer, items: seq<(Record, int)>, i: nat, now: int)
    requires SyncerOk(w.srv, w.ledger, s) && CanSeal(s, items) && i < |items|
    ensures var x := Tx.Stored(SealAll(s, items)[i], now);
      var r := items[i].0;
      && SealAll(s, items)[i].seqNo == r.seqNo
      && x.keyId in w.srv.dekWraps && x.keyId in w.ledger.deks && x.id == r.id && r.hostId == s.deviceId
      && OpenRecord(x.blob, w.ledger.deks[x.keyId], RecordAAD(x.id, s.deviceId, r.seqNo, x.keyId)) == Some(MarshalPayload(r))
  {
    assert items[i] in items;
    var e := items[i].1;
    assert e in s.deksByEpoch && EntryOk(w.srv, w.ledger, s.deksByEpoch[e]);
  }

  /** An accepted push names each position once. */
  lemma DistinctItems(s: Syncer, items: seq<(Record, int)>, a: nat, b: nat)
    requires CanSeal(s, items) && a < b < |items|
    requires Tx.PushReply(s.deviceId, SealAll(s, items)) == Tx.Done
    ensures items[a].0.seqNo != items[b].0.seqNo
  {
    var recs := SealAll(s, items);
    AscendingSeqs(recs, a, b);
    assert recs[a].seqNo == items[a].0.seqNo && recs[b].seqNo == items[b].0.seqNo;
  }

  /** What is newly stored at a position is what was newly pushed there. */
  lemma NewlyPushedAt(w: World, s: Syncer, items: seq<(Record, int)>, i: nat)
    requires CanSeal(s, items) && i < |items|
    requires Tx.PushReply(s.deviceId, SealAll(s, items)) == Tx.Done
    requires items[i].0.seqNo !in Tx.StreamOf(w.srv, s.deviceId)
    ensures var added := NewlyPushed(w.srv, s.deviceId, items);
      (s.deviceId, items[i].0.seqNo) in added && added[(s.deviceId, items[i].0.seqNo)] == items[i].0
  {
    forall a, b | 0 <= a < b < |items| ensures items[a].0.seqNo != items[b].0.seqNo {
      DistinctItems(s, items, a, b);
    }
    hide CanSeal, SealAll, Tx.PushReply, Tx.StreamOf;
  }

  /** A position that was free now holds the sealed form of the item pushed there. */
  lemma FreshRecord(w: World, sid: SyncerId, items: seq<(Record, int)>, now: int, q: nat)
    requires Enabled(w, PushBatch(sid, items, now)) && SyncerOk(w.srv, w.ledger, w.syncers[sid])
    requires Tx.PushReply(w.syncers[sid].deviceId, SealAll(w.syncers[sid], items)) == Tx.Done
    requires var s := w.syncers[sid];
      q !in Tx.StreamOf(w.srv, s.deviceId) && q in Tx.PutNewRecords(Tx.StreamOf(w.srv, s.deviceId), SealAll(s, items), now)
    ensures var w' := PushItems(w, sid, items, now); var host := w.syncers[sid].deviceId;
      RecordOk(w', host, q, w'.srv.records[host][q])
  {
    var s := w.syncers[sid];
    var recs := SealAll(s, items);
    var before := Tx.StreamOf(w.srv, s.deviceId);
    var after := Tx.PutNewRecords(before, recs, now);
    Tx.PutNewRecordsHolds(before, recs, now);
    hide OpenRecord, SealAll, SyncerOk, MarshalPayload, NewlyPushed, Tx.PutNewRecords;
    var r :| r in recs && r.seqNo == q && after[q] == Tx.Stored(r, now);
    var i :| 0 <= i < |recs| && recs[i] == r;
    SealedItem(w, s, items, i, now);
    NewlyPushedAt(w, s, items, i);
  }

  lemma PushedRecord(w: World, sid: SyncerId, items: seq<(Record, int)>, now: int, host: HostId, q: nat)
    requires RecordsInv(w) && Enabled(w, PushBatch(sid, items, now)) && SyncerOk(w.srv, w.ledger, w.syncers[sid])
    requires Tx.PushReply(w.syncers[sid].deviceId, SealAll(w.syncers[sid], items)) == Tx.Done
    requires var w' := PushItems(w, sid, items, now); host in w'.srv.records && q in w'.srv.records[host]
    ensures var w' := PushItems(w, sid, items, now); RecordOk(w', host, q, w'.srv.records[host][q])
  {
    hide SyncerOk, MarshalPayload, OpenRecord, Tx.PutNewRecords, NewlyPushed, SealAll, RecordOk;
    var s := w.syncers[sid];
    var before := Tx.StreamOf(w.srv, s.deviceId);
    if host != s.deviceId || q in before {
      Tx.PutNewRecordsHolds(before, SealAll(s, items), now);
      assert RecordOk(w, host, q, w.srv.records[host][q]);
      NotNew(w.srv, s.deviceId, items, host, q);
      WasPushed(w, host, q, w.srv.records[host][q]);
      RecordStays(w, PushItems(w, sid, items, now), host, q, w.srv.records[host][q]);
    } else {
      FreshRecord(w, sid, items, now, q);
    }
  }

  lemma NotNew(srv: Tx.State, pusher: HostId, items: seq<(Record, int)>, host: HostId, q: nat)
    requires host != pusher || q in Tx.StreamOf(srv, pusher)
    ensures (host, q) !in NewlyPushed(srv, pusher, items)
  {
  }

  lemma WasPushed(w: World, host: HostId, q: nat, x: StoredRecord)
    requires RecordOk(w, host, q, x)
    ensures (host, q) in w.ledger.pushed
  {
  }

  lemma RecordStays(w: World, w': World, host: HostId, q: nat, x: StoredRecord)
    requires RecordOk(w, host, q, x) && (host, q) in w.ledger.pushed
    requires w'.srv.dekWraps == w.srv.dekWraps && w'.ledger.deks == w.ledger.deks
    requires (host, q) in w'.ledger.pushed && w'.ledger.pushed[(host, q)] == w.ledger.pushed[(host, q)]
    ensures RecordOk(w', host, q, x)
  {
  }

  lemma NewlyPushedFrom(srv: Tx.State, host: HostId, items: seq<(Record, int)>, p: (HostId, nat)) returns (i: nat)
    requires p in NewlyPushed(srv, host, items)
    ensures i < |items| && p == (host, items[i].0.seqNo)
  {
    i :| 0 <= i < |items| && p == (host, items[i].0.seqNo);
  }

  lemma PushedIsStored(w: World, sid: SyncerId, items: seq<(Record, int)>, now: int, p: (HostId, nat))
    requires RecordsInv(w) && sid in w.syncers && CanSeal(w.syncers[sid], items)
    requires p in PushItems(w, sid, items, now).ledger.pushed
    ensures var w' := PushItems(w, sid, items, now); p.0 in w'.srv.records && p.1 in w'.srv.records[p.0]
  {
    var s := w.syncers[sid];
    var recs := SealAll(s, items);
    var before := Tx.StreamOf(w.srv, s.deviceId);
    Tx.PutNewRecordsHolds(before, recs, now);
    if p in w.ledger.pushed {
      assert p.0 in w.srv.records && p.1 in w.srv.records[p.0];
    } else {
      var i := NewlyPushedFrom(w.srv, s.deviceId, items, p);
      var r := recs[i];
      assert r in recs && r.seqNo == p.1;
      assert p.1 in Tx.PutNewRecords(before, recs, now);
    }
  }

  lemma PushKeepsRecords(w: World, sid: SyncerId, items: seq<(Record, int)>, now: int)
    requires RecordsInv(w) && Enabled(w, PushBatch(sid, items, now)) && SyncerOk(w.srv, w.ledger, w.syncers[sid])
    ensures RecordsInv(PushItems(w, sid, items, now))
  {
    var w' := PushItems(w, sid, items, now);
    forall p <- w'.ledger.pushed ensures p.0 in w'.srv.records && p.1 in w'.srv.records[p.0] {
      PushedIsStored(w, sid, items, now, p);
    }
    if w' != w {
      forall host <- w'.srv.records, q | q in w'.srv.records[host]
        ensures RecordOk(w', host, q, w'.srv.records[host][q])
      {
        PushedRecord(w, sid, items, now, host, q);
      }
    }
  }

  /** A position already pushed keeps the record first pushed there. */
  lemma PushGrows(w: World, sid: SyncerId, items: seq<(Record, int)>, now: int)
    requires RecordsInv(w) && Enabled(w, PushBatch(sid, items, now))
    ensures Grows(w, PushItems(w, sid, items, now))
  {
    var added := NewlyPushed(w.srv, w.syncers[sid].deviceId, items);
    forall p <- w.ledger.pushed ensures p !in added {
      assert p.0 in w.srv.records && p.1 in w.srv.records[p.0];
      if p in added {
        var i := NewlyPushedFrom(w.srv, w.syncers[sid].deviceId, items, p);
      }
    }
  }

  /** A step that only adds records. */
  lemma RecordsStep(w: World, w': World)
    requires Inv(w) && w' == w.(srv := w.srv.(records := w'.srv.records), ledger := w.ledger.(pushed := w'.ledger.pushed))
    requires RecordsInv(w') && Grows(w, w')
    ensures Inv(w')
  {
    forall t <- w'.tasks ensures TaskOk(w'.srv, w'.ledger, w'.tasks[t]) {
      TaskFrame(w, w', w.tasks[t]);
    }
    SyncersFrame(w, w');
    LogFrame(w, w');
  }

  lemma PushStep(w: World, sid: SyncerId, items: seq<(Record, int)>, now: int)
    requires Inv(w) && Enabled(w, PushBatch(sid, items, now))
    ensures var w' := After(w, PushBatch(sid, items, now)); Inv(w') && Grows(w, w')
  {
    hide LogInv, RecordsInv, HKWrapsInv, RecoveryInv, DekWrapsInv, VersionsInv, TasksInv, Grows;
    assert SyncerOk(w.srv, w.ledger, w.syncers[sid]);
    PushKeepsRecords(w, sid, items, now);
    PushGrows(w, sid, items, now);
    RecordsStep(w, PushItems(w, sid, items, now));
  }

  // ---- all steps ----

  lemma ApproveStep(w: World, sid: SyncerId, t: TaskId, h: Held, target: DeviceId)
    requires Inv(w) && Enabled(w, BeginApprove(sid, t, h, target))
    ensures var w' := After(w, BeginApprove(sid, t, h, target)); Inv(w') && Grows(w, w')
  {
    hide LogInv, RecordsInv, SyncersInv, HKWrapsInv, RecoveryInv, DekWrapsInv, VersionsInv, TasksInv, Grows;
    HoldsKnown(w, sid, h);
    var k := Approving(sid, h, target, w.srv.devices[target].pub);
    SetTaskOthers(w, t, k);
    LocalStep(w, SetTask(w, t, k), t);
  }

  lemma BeginRevokeStep(w: World, sid: SyncerId, t: TaskId, h: Held, target: DeviceId)
    requires Inv(w) && Enabled(w, BeginRevoke(sid, t, h, target))
    ensures var w' := After(w, BeginRevoke(sid, t, h, target)); Inv(w') && Grows(w, w')
  {
    hide LogInv, RecordsInv, SyncersInv, HKWrapsInv, RecoveryInv, DekWrapsInv, VersionsInv, TasksInv, Grows;
    HoldsKnown(w, sid, h);
    var k := Revoking(sid, h, target, RecoveryPub(w.srv));
    SetTaskOthers(w, t, k);
    LocalStep(w, SetTask(w, t, k), t);
  }

  lemma BeginAdmitStep(w: World, t: TaskId)
    requires Inv(w) && Enabled(w, BeginAdmit(t))
    ensures var w' := After(w, BeginAdmit(t)); Inv(w') && Grows(w, w')
  {
    hide LogInv, RecordsInv, SyncersInv, HKWrapsInv, RecoveryInv, DekWrapsInv, VersionsInv, Grows;
    var k := w.tasks[t];
    assert TaskOk(w.srv, w.ledger, k);
    var k' := Admitting(k.sid, k.held, w.syncers[k.sid].deviceId, w.syncers[k.sid].priv);
    SetTaskOthers(w, t, k');
    LocalStep(w, SetTask(w, t, k'), t);
  }

  lemma AbandonStep(w: World, t: TaskId)
    requires Inv(w) && Enabled(w, Abandon(t))
    ensures Inv(After(w, Abandon(t))) && Grows(w, After(w, Abandon(t)))
  {
    hide LogInv, RecordsInv, SyncersInv, HKWrapsInv, RecoveryInv, DekWrapsInv, VersionsInv, TasksInv, Grows;
    SetTaskOthers(w, t, w.tasks[t]);
    LocalStep(w, EndTask(w, t), t);
  }

  lemma StepKeepsInv(w: World, step: Step)
    requires Inv(w) && Enabled(w, step) && !Regresses(w, step)
    ensures Inv(After(w, step)) && Grows(w, After(w, step))
  {
    hide Inv, Grows, After, Enabled, Regresses;
    match step
    case Serve(req, now) => ServeStep(w, req, now);
    case StartSyncer(sid, id, priv) => StartStep(w, sid, id, priv);
    case FetchHK(sid, t) => FetchStep(w, sid, t);
    case StoreHK(t) => StoreStep(w, t);
    case BeginBootstrap(sid, t, hk, salt, recPub) => BootstrapStep(w, sid, t, hk, salt, recPub);
    case ActivateSelf(t) => ActivateSelfStep(w, t);
    case BeginApprove(sid, t, h, target) => ApproveStep(w, sid, t, h, target);
    case ActivateTarget(t) => ActivateTargetStep(w, t);
    case BeginRevoke(sid, t, h, target) => BeginRevokeStep(w, sid, t, h, target);
    case RevokeTarget(t, hk) => RevokeStep(w, t, hk);
    case SweepPage(t, page, more) => SweepStep(w, t, page, more);
    case WrapForActive(t, ids) => BuildStep(w, t, ids);
    case SendRotate(t) => RotateStep(w, t);
    case BeginUpload(sid, t, h, epoch, keyId, dek) => MintStep(w, sid, t, h, epoch, keyId, dek);
    case SendUpload(t) => UploadStep(w, t);
    case PushBatch(sid, items, now) => PushStep(w, sid, items, now);
    case RefreshWraps(sid, page) => RefreshStep(w, sid, page);
    case OpenDek(sid, h, keyId) => OpenDekStep(w, sid, h, keyId);
    case BeginRecovery(sid, t, priv) => RecoverStep(w, sid, t, priv);
    case BeginAdmit(t) => BeginAdmitStep(w, t);
    case SendAdmit(t) => AdmitStep(w, t);
    case Abandon(t) => AbandonStep(w, t);
  }
}
