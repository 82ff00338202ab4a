/** What the operations of the group-key protocol achieve: safety says what no interleaving can
    break, this says that each chain of steps gets where it is meant to get. */
module GroupProgress {
  import opened Wrappers
  import opened Crypto
  import opened Wire
  import opened Bucket
  import Tx = ServerTx
  import opened Group
  import opened GroupInvariant
  import opened GroupSafety
  import GroupSteps
  import opened Enroll

  // ---- one step at a time ----

  /** The step can be taken, regresses nothing, and leads to w'. */
  ghost predicate Takes(w: World, step: Step, w': World) {
    Next(w, step, w') && !Regresses(w, step)
  }

  /** A key the device's own wrap gives is the current one. */
  ghost predicate OwnWrapOpens(w: World, s: Syncer) {
    s.deviceId in w.srv.hkWraps && UnwrapHK(w.srv.hkWraps[s.deviceId].blob, s.priv).Some?
  }

  ghost function Current(w: World): Held
    requires w.srv.hkVersion in w.ledger.keys
  {
    Held(w.ledger.keys[w.srv.hkVersion], w.srv.hkVersion)
  }

  /** resolveHK on an empty cache: the device's wrap gives the group's current key. */
  lemma FetchGives(w: World, sid: SyncerId, t: TaskId) returns (w': World)
    requires Inv(w) && sid in w.syncers && t !in w.tasks && OwnWrapOpens(w, w.syncers[sid])
    ensures w.srv.hkVersion in w.ledger.keys
    ensures Takes(w, FetchHK(sid, t), w') && w' == SetTask(w, t, Holding(sid, Current(w), false))
  {
    hide LogInv, RecordsInv, SyncersInv, TasksInv, DekWrapsInv, RecoveryInv;
    assert Boxed(w.srv.hkWraps[w.syncers[sid].deviceId].blob) == Some(w.ledger.keys[w.srv.hkVersion]);
    w' := Fetch(w, sid, t);
  }

  /** Caching the key in hand; after a rotation or a bootstrap the cached DEK wraps go. */
  lemma StoreGives(w: World, t: TaskId) returns (w': World)
    requires t in w.tasks && w.tasks[t].Holding? && w.tasks[t].sid in w.syncers
    ensures Takes(w, StoreHK(t), w') && w'.srv == w.srv && w'.ledger == w.ledger && w'.tasks == w.tasks
    ensures var k := w.tasks[t];
      && k.sid in w'.syncers && w'.syncers == w.syncers[k.sid := w'.syncers[k.sid]]
      && w'.syncers[k.sid] == w.syncers[k.sid].(hk := Some(k.held), dekWraps := w'.syncers[k.sid].dekWraps)
      && w'.syncers[k.sid].dekWraps == (if k.rotated then map[] else w.syncers[k.sid].dekWraps)
  {
    w' := Store(w, t);
  }

  lemma RefreshGives(w: World, sid: SyncerId, id: KeyId) returns (w': World)
    requires sid in w.syncers && id in w.srv.dekWraps
    ensures Takes(w, RefreshWraps(sid, [id]), w') && w'.srv == w.srv && w'.ledger == w.ledger && w'.tasks == w.tasks
    ensures sid in w'.syncers && id in w'.syncers[sid].dekWraps
    ensures w'.syncers[sid] == w.syncers[sid].(dekWraps := w'.syncers[sid].dekWraps)
    ensures w'.syncers[sid].dekWraps[id] == if id in w.syncers[sid].dekWraps then w.syncers[sid].dekWraps[id] else w.srv.dekWraps[id]
  {
    w' := CacheWraps(w, sid, [id]);
  }

  /** Opening a cached wrap of the version in hand yields the DEK as it was generated. */
  lemma OpenGives(w: World, sid: SyncerId, h: Held, id: KeyId) returns (w': World)
    requires sid in w.syncers && SyncerOk(w.srv, w.ledger, w.syncers[sid]) && Known(w.ledger, h) && Holds(w, sid, h)
    requires id in w.syncers[sid].dekWraps && w.syncers[sid].dekWraps[id].hkVersion == h.version
    ensures Takes(w, OpenDek(sid, h, id), w') && w'.srv == w.srv && w'.ledger == w.ledger
    ensures sid in w'.syncers && id in w'.syncers[sid].deksByKeyId && id in w.ledger.deks
    ensures w'.syncers[sid].deksByKeyId[id] == w.ledger.deks[id]
  {
    assert CachedWrapOk(w.ledger, id, w.syncers[sid].dekWraps[id]);
    w' := CacheDek(w, sid, h, id);
  }

  // ---- reading ----

  /** Right after a rotation or a bootstrap of its own a syncer reads every stored DEK, whatever
      wraps it had cached before. */
  lemma RotatedReads(w: World, t: TaskId, id: KeyId) returns (w1: World, w2: World, w3: World)
    requires Inv(w) && t in w.tasks && w.tasks[t].Holding? && w.tasks[t].rotated && w.tasks[t].sid in w.syncers
    requires w.tasks[t].held.version == w.srv.hkVersion && id in w.srv.dekWraps
    ensures var sid, h := w.tasks[t].sid, w.tasks[t].held;
      && Takes(w, StoreHK(t), w1) && Takes(w1, RefreshWraps(sid, [id]), w2) && Takes(w2, OpenDek(sid, h, id), w3)
      && sid in w3.syncers && id in w3.syncers[sid].deksByKeyId && id in w.ledger.deks
      && w3.syncers[sid].deksByKeyId[id] == w.ledger.deks[id]
  {
    hide Next, Regresses, Takes, Grows;
    var sid, h := w.tasks[t].sid, w.tasks[t].held;
    assert TaskOk(w.srv, w.ledger, w.tasks[t]);
    w1 := StoreGives(w, t);
    w2 := RefreshGives(w1, sid, id);
    KeepsInv2(w, StoreHK(t), w1, RefreshWraps(sid, [id]), w2);
    w3 := OpenGives(w2, sid, h, id);
  }

  lemma KeepsInv2(w: World, a: Step, w1: World, b: Step, w2: World)
    requires Inv(w) && Takes(w, a, w1) && Takes(w1, b, w2)
    ensures Inv(w1) && Inv(w2)
  {
    hide Inv, Regresses;
    GroupSteps.StepKeepsInv(w, a);
    GroupSteps.StepKeepsInv(w1, b);
  }

  /** From nothing cached, or nothing cached for this DEK: an enrolled device fetches the current
      key, and the DEK it opens under it opens the stored record to what was pushed. */
  lemma EnrolledReads(w: World, sid: SyncerId, t: TaskId, host: HostId, q: nat)
    returns (w1: World, w2: World, w3: World, w4: World)
    requires Inv(w) && sid in w.syncers && t !in w.tasks && OwnWrapOpens(w, w.syncers[sid])
    requires host in w.srv.records && q in w.srv.records[host]
    requires w.srv.records[host][q].keyId !in w.syncers[sid].dekWraps
    ensures w.srv.hkVersion in w.ledger.keys && (host, q) in w.ledger.pushed
    ensures var x := w.srv.records[host][q];
      && Takes(w, FetchHK(sid, t), w1) && Takes(w1, StoreHK(t), w2) && Takes(w2, RefreshWraps(sid, [x.keyId]), w3)
      && Takes(w3, OpenDek(sid, Current(w), x.keyId), w4)
      && sid in w4.syncers && x.keyId in w4.syncers[sid].deksByKeyId
      && OpenRecord(x.blob, w4.syncers[sid].deksByKeyId[x.keyId], RecordAAD(x.id, host, q, x.keyId))
         == Some(MarshalPayload(w.ledger.pushed[(host, q)]))
  {
    hide Next, Regresses, Takes, Grows;
    var id := w.srv.records[host][q].keyId;
    StoredOpens(w, host, q);
    w1 := FetchGives(w, sid, t);
    KeepsInv(w, FetchHK(sid, t), w1);
    assert TaskOk(w1.srv, w1.ledger, w1.tasks[t]);
    w2 := StoreGives(w1, t);
    w3 := RefreshGives(w2, sid, id);
    KeepsInv2(w1, StoreHK(t), w2, RefreshWraps(sid, [id]), w3);
    w4 := OpenGives(w3, sid, Current(w), id);
  }

  lemma KeepsInv(w: World, a: Step, w1: World)
    requires Inv(w) && Takes(w, a, w1)
    ensures Inv(w1)
  {
    hide Inv, Regresses;
    GroupSteps.StepKeepsInv(w, a);
  }

  /** A stored record's DEK is stored at the current version and opens the record. */
  lemma StoredOpens(w: World, host: HostId, q: nat)
    requires Inv(w) && host in w.srv.records && q in w.srv.records[host]
    ensures var x := w.srv.records[host][q];
      && x.keyId in w.srv.dekWraps && w.srv.dekWraps[x.keyId].hkVersion == w.srv.hkVersion && x.keyId in w.ledger.deks
      && (host, q) in w.ledger.pushed
      && OpenRecord(x.blob, w.ledger.deks[x.keyId], RecordAAD(x.id, host, q, x.keyId)) == Some(MarshalPayload(w.ledger.pushed[(host, q)]))
  {
    hide TasksInv, SyncersInv, LogInv, HKWrapsInv, RecoveryInv, VersionsInv;
    assert RecordOk(w, host, q, w.srv.records[host][q]);
  }

  // ---- writing ----

  /** A fresh DEK prepared and sent under the current key is stored, and the syncer seals the
      epoch's records with it from then on. */
  lemma UploadGives(w: World, sid: SyncerId, t: TaskId, h: Held, epoch: int, id: KeyId, dek: Key) returns (w1: World, w2: World)
    requires Inv(w) && Enabled(w, BeginUpload(sid, t, h, epoch, id, dek)) && h.version == w.srv.hkVersion
    ensures Takes(w, BeginUpload(sid, t, h, epoch, id, dek), w1) && Takes(w1, SendUpload(t), w2)
    ensures id in w2.srv.dekWraps && sid in w2.syncers && t !in w2.tasks && w2.ledger.deks == w.ledger.deks[id := dek]
    ensures var s := w2.syncers[sid];
      && epoch in s.deksByEpoch && s.deksByEpoch[epoch] == DekEntry(id, dek)
      && id in s.deksByKeyId && s.deksByKeyId[id] == dek && id in s.dekWraps && s.dekWraps[id] == w2.srv.dekWraps[id]
      && s.hk == w.syncers[sid].hk
  {
    hide Next, Takes, LogInv, RecordsInv, HKWrapsInv, RecoveryInv, TasksInv;
    assert id !in w.srv.dekWraps;
    assert SyncerOk(w.srv, w.ledger, w.syncers[sid]);
    hide Inv, Enabled;
    w1 := MintGives(w, sid, t, h, epoch, id, dek);
    w2 := SendGives(w1, t);
  }

  lemma MintGives(w: World, sid: SyncerId, t: TaskId, h: Held, epoch: int, id: KeyId, dek: Key) returns (w1: World)
    requires Enabled(w, BeginUpload(sid, t, h, epoch, id, dek))
    ensures Takes(w, BeginUpload(sid, t, h, epoch, id, dek), w1) && sid in w.syncers
    ensures w1.srv == w.srv && w1.syncers == w.syncers && w1.ledger.deks == w.ledger.deks[id := dek]
    ensures t in w1.tasks && w1.tasks[t].Uploading? && w1.tasks[t].sid == sid && w1.tasks[t].dek == dek
    ensures var x := w1.tasks[t].wrap;
      x.keyId == id != 0 && x.deviceId == w.syncers[sid].deviceId && x.epoch == epoch && x.hkVersion == h.version
  {
    w1 := MintDek(w, sid, t, h, epoch, id, dek);
  }

  lemma SendGives(w: World, t: TaskId) returns (w': World)
    requires t in w.tasks && w.tasks[t].Uploading? && w.tasks[t].sid in w.syncers && Tx.DekPostable(w.tasks[t].wrap, w.srv.hkVersion)
    requires w.tasks[t].wrap.keyId !in w.srv.dekWraps
    ensures Takes(w, SendUpload(t), w') && t !in w'.tasks && w'.ledger == w.ledger
    ensures var k := w.tasks[t]; var x := k.wrap;
      && x.keyId in w'.srv.dekWraps && w'.srv.dekWraps[x.keyId] == x && k.sid in w'.syncers
      && w'.syncers[k.sid] == w.syncers[k.sid].(
           deksByEpoch := w.syncers[k.sid].deksByEpoch[x.epoch := DekEntry(x.keyId, k.dek)],
           deksByKeyId := w.syncers[k.sid].deksByKeyId[x.keyId := k.dek],
           dekWraps := w.syncers[k.sid].dekWraps[x.keyId := x])
  {
    var x := w.tasks[t].wrap;
    Tx.PutNewDeksHolds(w.srv.dekWraps, [x]);
    w' := Upload(w, t);
  }

  // ---- joining ----

  /** The first device forms the group: recovery, then its own activation, then its cache. */
  lemma BootstrapGives(w: World, sid: SyncerId, t: TaskId, hk: Key, salt: nat, recPub: PubKey) returns (w1: World, w2: World, w3: World)
    requires Inv(w) && Enabled(w, BeginBootstrap(sid, t, hk, salt, recPub)) && w.srv.recovery.None?
    requires var d := w.syncers[sid].deviceId; d in w.srv.devices && w.srv.devices[d].status != Revoked
    ensures Takes(w, BeginBootstrap(sid, t, hk, salt, recPub), w1) && Takes(w1, ActivateSelf(t), w2) && Takes(w2, StoreHK(t), w3)
    ensures w3.srv.hkVersion == BOOTSTRAP_HK_VERSION && IsGroupKey(w3, hk)
    ensures sid in w3.syncers && w3.syncers[sid].hk == Some(Held(hk, BOOTSTRAP_HK_VERSION)) && w3.syncers[sid].dekWraps == map[]
    ensures OwnWrapOpens(w3, w3.syncers[sid]) && Tx.IsActive(w3.srv.devices, w3.syncers[sid].deviceId)
  {
    hide LogInv, RecordsInv, SyncersInv, HKWrapsInv, TasksInv, DekWrapsInv, IsGroupKey, Takes;
    assert w.srv.hkVersion == 0 && w.srv.hkWraps == map[];
    w1 := FormGives(w, sid, t, hk, salt, recPub);
    w2 := SelfGives(w1, t);
    w3 := StoreGives(w2, t);
    hide Inv, RecoveryInv, VersionsInv, Enabled;
    KeepsInv(w, BeginBootstrap(sid, t, hk, salt, recPub), w1);
    KeepsInv2(w1, ActivateSelf(t), w2, StoreHK(t), w3);
    IsCurrent(w3, w3.syncers[sid].deviceId, hk);
  }

  lemma FormGives(w: World, sid: SyncerId, t: TaskId, hk: Key, salt: nat, recPub: PubKey) returns (w1: World)
    requires Enabled(w, BeginBootstrap(sid, t, hk, salt, recPub)) && w.srv.recovery.None?
    ensures Takes(w, BeginBootstrap(sid, t, hk, salt, recPub), w1) && w1.syncers == w.syncers
    ensures w1.srv == w.srv.(recovery := w1.srv.recovery) && t in w1.tasks && w1.tasks[t] == Forming(sid, hk)
  {
    w1 := Bootstrap(w, sid, t, hk, salt, recPub);
  }

  lemma SelfGives(w: World, t: TaskId) returns (w': World)
    requires t in w.tasks && w.tasks[t].Forming? && w.tasks[t].sid in w.syncers && w.srv.hkVersion == 0 && w.srv.hkWraps == map[]
    requires var d := w.syncers[w.tasks[t].sid].deviceId; d in w.srv.devices && w.srv.devices[d].status != Revoked
    ensures Takes(w, ActivateSelf(t), w') && w'.syncers == w.syncers && w'.srv.hkVersion == BOOTSTRAP_HK_VERSION
    ensures var k := w.tasks[t]; var s := w.syncers[k.sid];
      && t in w'.tasks && w'.tasks[t] == Holding(k.sid, Held(k.hkNew, BOOTSTRAP_HK_VERSION), true)
      && Tx.IsActive(w'.srv.devices, s.deviceId) && s.deviceId in w'.srv.hkWraps
      && w'.srv.hkWraps[s.deviceId].blob == WrapHK(k.hkNew, s.priv)
  {
    w' := ActivateForming(w, t);
  }

  /** The key in any device's wrap is the group's. */
  lemma IsCurrent(w: World, d: DeviceId, hk: Key)
    requires Inv(w) && w.srv.hkVersion >= 1 && d in w.srv.hkWraps && Boxed(w.srv.hkWraps[d].blob) == Some(hk)
    ensures IsGroupKey(w, hk)
  {
    CurrentKey(w);
  }

  /** Approval under the current key lets a known, unrevoked device in under its registered key. */
  lemma ApprovalGives(w: World, sid: SyncerId, t: TaskId, h: Held, target: DeviceId) returns (w1: World, w2: World)
    requires Inv(w) && Enabled(w, BeginApprove(sid, t, h, target)) && w.srv.hkWraps != map[] && h.version == w.srv.hkVersion
    requires w.srv.devices[target].status != Revoked
    ensures Takes(w, BeginApprove(sid, t, h, target), w1) && Takes(w1, ActivateTarget(t), w2)
    ensures Tx.IsActive(w2.srv.devices, target) && target in w2.srv.hkWraps && w2.srv.hkVersion == w.srv.hkVersion
    ensures UnwrapHK(w2.srv.hkWraps[target].blob, w.srv.devices[target].pub) == Some(h.hk) && t !in w2.tasks
  {
    hide Inv;
    w1 := SetTask(w, t, Approving(sid, h, target, w.srv.devices[target].pub));
    w2 := EndTask(Activate(w1, h, target, w.srv.devices[target].pub), t);
  }

  /** The recovery passphrase lets a registered device in when nobody is left to approve it. */
  lemma RecoveryGives(w: World, sid: SyncerId, t: TaskId, priv: PubKey) returns (w1: World, w2: World, w3: World)
    requires Inv(w) && Enabled(w, BeginRecovery(sid, t, priv)) && w.srv.hkVersion >= 1 && priv == w.srv.recovery.value.pub
    requires var d := w.syncers[sid].deviceId; d in w.srv.devices && w.srv.devices[d].status != Revoked
    ensures Takes(w, BeginRecovery(sid, t, priv), w1) && Takes(w1, BeginAdmit(t), w2) && Takes(w2, SendAdmit(t), w3)
    ensures sid in w3.syncers && Tx.IsActive(w3.srv.devices, w3.syncers[sid].deviceId) && OwnWrapOpens(w3, w3.syncers[sid])
    ensures w3.srv.hkVersion == w.srv.hkVersion && t !in w3.tasks && w3.syncers == w.syncers
  {
    hide Takes, Next;
    RecoveryCurrent(w);
    hide Inv, Enabled;
    w1 := RecoverGives(w, sid, t, priv);
    w2 := BeginAdmitGives(w1, t);
    w3 := AdmitGives(w2, t);
  }

  /** What the recovery wrap holds is a key at the current version. */
  lemma RecoveryCurrent(w: World)
    requires Inv(w) && w.srv.recovery.Some? && w.srv.hkVersion >= 1
    ensures var r := w.srv.recovery.value; UnwrapHK(r.wrap.blob, r.pub).Some? && r.wrap.hkVersion == w.srv.hkVersion
  {
    hide LogInv, RecordsInv, SyncersInv, HKWrapsInv, TasksInv, DekWrapsInv;
  }

  lemma RecoverGives(w: World, sid: SyncerId, t: TaskId, priv: PubKey) returns (w1: World)
    requires sid in w.syncers && t !in w.tasks && w.srv.recovery.Some? && UnwrapHK(w.srv.recovery.value.wrap.blob, priv).Some?
    ensures Takes(w, BeginRecovery(sid, t, priv), w1) && w1.srv == w.srv && w1.syncers == w.syncers
    ensures t in w1.tasks && w1.tasks[t].Recovering? && w1.tasks[t].sid == sid
    ensures w1.tasks[t].held.version == w.srv.recovery.value.wrap.hkVersion
  {
    w1 := Recover(w, sid, t, priv);
  }

  lemma BeginAdmitGives(w: World, t: TaskId) returns (w': World)
    requires t in w.tasks && w.tasks[t].Recovering? && w.tasks[t].sid in w.syncers
    ensures Takes(w, BeginAdmit(t), w') && w'.srv == w.srv && w'.syncers == w.syncers
    ensures var k := w.tasks[t];
      t in w'.tasks && w'.tasks[t] == Admitting(k.sid, k.held, w.syncers[k.sid].deviceId, w.syncers[k.sid].priv)
  {
    var k := w.tasks[t];
    w' := SetTask(w, t, Admitting(k.sid, k.held, w.syncers[k.sid].deviceId, w.syncers[k.sid].priv));
  }

  lemma AdmitGives(w: World, t: TaskId) returns (w': World)
    requires t in w.tasks && w.tasks[t].Admitting? && w.tasks[t].sid in w.syncers
    requires w.srv.recovery.Some? && w.tasks[t].device in w.srv.devices && w.srv.devices[w.tasks[t].device].status != Revoked
    requires w.tasks[t].held.version == w.srv.hkVersion
    ensures Takes(w, SendAdmit(t), w') && w'.syncers == w.syncers && t !in w'.tasks && w'.srv.hkVersion == w.srv.hkVersion
    ensures var k := w.tasks[t];
      Tx.IsActive(w'.srv.devices, k.device) && k.device in w'.srv.hkWraps && UnwrapHK(w'.srv.hkWraps[k.device].blob, k.pub) == Some(k.held.hk)
  {
    w' := Admit(w, t);
  }

  // ---- revoking ----

  /** The steps a revocation takes once it has begun. */
  predicate OfTask(step: Step, t: TaskId) {
    match step
    case RevokeTarget(x, _) => x == t
    case SweepPage(x, _, _) => x == t
    case WrapForActive(x, _) => x == t
    case SendRotate(x) => x == t
    case StoreHK(x) => x == t
    case _ => false
  }

  /** Only task t moves, by these steps. */
  ghost predicate Alone(w: World, steps: seq<Step>, t: TaskId, w': World)
    decreases |steps|
  {
    if steps == [] then w' == w
    else OfTask(steps[0], t) && Enabled(w, steps[0]) && !Regresses(w, steps[0]) && Alone(After(w, steps[0]), steps[1..], t, w')
  }

  lemma First(w: World, step: Step, w1: World, rest: seq<Step>, t: TaskId, w2: World)
    requires OfTask(step, t) && Takes(w, step, w1) && Alone(w1, rest, t, w2)
    ensures Alone(w, [step] + rest, t, w2)
  {
    hide After, Enabled, Regresses, OfTask;
    assert ([step] + rest)[1..] == rest;
  }

  /** There is always a next page. */
  lemma {:induction false} PageExists(all: set<nat>, from: nat, limit: nat) returns (page: seq<nat>, more: bool)
    ensures IsPage(all, from, limit, page, more)
    decreases limit
  {
    if forall k <- all :: k < from {
      return [], false;
    }
    if limit == 0 {
      return [], true;
    }
    var k :| k in all && k >= from;
    assert k in Above(all, from);
    var m := Least(Above(all, from));
    page, more := PageExists(all, m + 1, limit - 1);
    PageAfter(all, from, limit, m, page, more);
    page := [m] + page;
  }

  lemma {:induction false} Least(s: set<nat>) returns (m: nat)
    requires s != {}
    ensures m in s && forall x <- s :: m <= x
    decreases |s|
  {
    var k :| k in s;
    var rest := s - {k};
    m := k;
    if rest != {} {
      var n := Least(rest);
      m := if n < k then n else k;
    }
    forall x <- s ensures m <= x {
      if x != k {
        assert x in rest;
      }
    }
  }

  lemma PageAfter(all: set<nat>, from: nat, limit: nat, m: nat, page: seq<nat>, more: bool)
    requires limit > 0 && m in Above(all, from) && (forall x <- Above(all, from) :: m <= x)
    requires IsPage(all, m + 1, limit - 1, page, more)
    ensures IsPage(all, from, limit, [m] + page, more)
  {
    var page' := [m] + page;
    forall i, j | 0 <= i < j < |page'| ensures page'[i] < page'[j] {
      assert page[j - 1] in page;
    }
    forall k <- all | from <= k && k !in page' ensures more && forall p <- page' :: p < k {
      assert k in Above(all, from) && k != m;
      assert k !in page;
    }
    if more {
      var k :| k in all && m + 1 <= k && k !in page;
      assert k !in page';
    }
  }

  /** A sweep so far: the wraps in hand re-wrap exactly the ids before the cursor. */
  ghost predicate SweptSo(w: World, t: TaskId, upTo: nat) {
    && t in w.tasks && w.tasks[t].Sweeping? && w.tasks[t].sid in w.syncers
    && Filed(w.srv.dekWraps) && (forall id <- w.srv.dekWraps :: OpenOld(w.srv.dekWraps[id], w.tasks[t].held).Some?)
    && upTo == PageStart(w.tasks[t].cursor)
    && Rewrapped(w.srv.dekWraps, w.tasks[t].out, w.tasks[t].held, w.tasks[t].hkNew, upTo)
  }

  /** The first n ids of a page, re-wrapped. */
  ghost function PageWraps(w: World, h: Held, hkNew: Key, page: seq<KeyId>, n: nat): seq<DEKWrap>
    requires n <= |page|
    requires forall k <- page :: k in w.srv.dekWraps && OpenOld(w.srv.dekWraps[k], h).Some?
  {
    seq(n, i requires 0 <= i < n => assert page[i] in page; ReWrap(w.srv.dekWraps[page[i]], h, hkNew))
  }

  lemma {:induction false} PageSwept(w: World, h: Held, hkNew: Key, out: seq<DEKWrap>, from: nat, page: seq<KeyId>, more: bool, n: nat)
    requires Filed(w.srv.dekWraps) && Rewrapped(w.srv.dekWraps, out, h, hkNew, from)
    requires forall k <- w.srv.dekWraps :: OpenOld(w.srv.dekWraps[k], h).Some?
    requires IsPage(w.srv.dekWraps.Keys, from, DEK_PAGE_LIMIT, page, more) && n <= |page|
    requires forall k <- page :: k in w.srv.dekWraps
    ensures Rewrapped(w.srv.dekWraps, out + PageWraps(w, h, hkNew, page, n), h, hkNew, if n == 0 then from else page[n - 1] + 1)
    decreases n
  {
    hide Rewrapped, Filed, OpenOld, ReWrap;
    if n == 0 {
      assert out + PageWraps(w, h, hkNew, page, 0) == out;
    } else {
      var m := n - 1;
      PageSwept(w, h, hkNew, out, from, page, more, m);
      assert page[m] in page;
      PageGap(w.srv.dekWraps.Keys, from, page, more, m);
      var upTo := if m == 0 then from else page[m - 1] + 1;
      NextRewrap(w.srv.dekWraps, out + PageWraps(w, h, hkNew, page, m), h, hkNew, upTo, page[m]);
      assert out + PageWraps(w, h, hkNew, page, n)
          == (out + PageWraps(w, h, hkNew, page, m)) + [ReWrap(w.srv.dekWraps[page[m]], h, hkNew)];
    }
  }

  /** One page of the sweep. */
  lemma SweepGives(w: World, t: TaskId, upTo: nat, page: seq<KeyId>, more: bool) returns (w': World, upTo': nat)
    requires SweptSo(w, t, upTo) && IsPage(w.srv.dekWraps.Keys, upTo, DEK_PAGE_LIMIT, page, more)
    ensures Takes(w, SweepPage(t, page, more), w') && w'.srv == w.srv && w'.syncers == w.syncers && w'.ledger == w.ledger
    ensures upTo' == if page == [] then upTo else page[|page| - 1] + 1
    ensures var k := w.tasks[t]; var out := w'.tasks[t].out;
      t in w'.tasks && w'.tasks[t] == if more then k.(out := out, cursor := w'.tasks[t].cursor) else Swept(k.sid, k.held, k.recPub, k.hkNew, out)
    ensures more ==> SweptSo(w', t, upTo')
    ensures !more ==> Rewrapped(w.srv.dekWraps, w'.tasks[t].out, w.tasks[t].held, w.tasks[t].hkNew, upTo')
  {
    var k := w.tasks[t];
    hide Rewrapped, Filed, Takes;
    w' := SweepTaken(w, t, upTo, page, more);
    upTo' := if page == [] then upTo else page[|page| - 1] + 1;
    PageSwept(w, k.held, k.hkNew, k.out, upTo, page, more, |page|);
  }

  lemma SweepTaken(w: World, t: TaskId, upTo: nat, page: seq<KeyId>, more: bool) returns (w': World)
    requires t in w.tasks && w.tasks[t].Sweeping? && w.tasks[t].sid in w.syncers && upTo == PageStart(w.tasks[t].cursor)
    requires forall id <- w.srv.dekWraps :: OpenOld(w.srv.dekWraps[id], w.tasks[t].held).Some?
    requires IsPage(w.srv.dekWraps.Keys, upTo, DEK_PAGE_LIMIT, page, more)
    ensures Takes(w, SweepPage(t, page, more), w') && (forall k <- page :: k in w.srv.dekWraps) && (more ==> page != [])
    ensures var k := w.tasks[t]; var out := k.out + PageWraps(w, k.held, k.hkNew, page, |page|);
      w' == SetTask(w, t, if more then k.(out := out, cursor := page[|page| - 1]) else Swept(k.sid, k.held, k.recPub, k.hkNew, out))
  {
    hide ReWrap, OpenOld;
    var k := w.tasks[t];
    w' := SweepOne(w, t, page, more);
    assert w'.tasks[t].out == k.out + PageWraps(w, k.held, k.hkNew, page, |page|);
  }

  /** However many pages it takes, the sweep gets to the end with every DEK re-wrapped once. */
  lemma {:induction false} SweepsAll(w: World, t: TaskId, upTo: nat) returns (steps: seq<Step>, w': World, end: nat)
    requires SweptSo(w, t, upTo)
    ensures var k := w.tasks[t];
      && t in w'.tasks && w'.tasks[t].Swept? && w'.tasks[t] == Swept(k.sid, k.held, k.recPub, k.hkNew, w'.tasks[t].out)
      && Alone(w, steps, t, w') && w'.srv == w.srv && w'.syncers == w.syncers && w'.ledger == w.ledger
      && Rewrapped(w.srv.dekWraps, w'.tasks[t].out, k.held, k.hkNew, end) && forall id <- w.srv.dekWraps :: id < end
    decreases Above(w.srv.dekWraps.Keys, upTo)
  {
    assert t in w.tasks;
    hide Rewrapped, Takes, Alone, SweptSo;
    var keys := w.srv.dekWraps.Keys;
    var page, more := PageExists(keys, upTo, DEK_PAGE_LIMIT);
    var w1, next := SweepGives(w, t, upTo, page, more);
    if !more {
      NothingAlone(w1, t);
      steps, w', end := [SweepPage(t, page, more)] + [], w1, next;
      First(w, SweepPage(t, page, more), w1, [], t, w1);
      assert forall i :: 0 <= i < |page| ==> page[i] in page;
      LastPage(keys, upTo, page, next);
    } else {
      assert page[0] in page && page[|page| - 1] in page;
      assert page[0] in Above(keys, upTo) && page[0] !in Above(keys, next);
      steps, w', end := SweepsAll(w1, t, next);
      First(w, SweepPage(t, page, more), w1, steps, t, w');
      steps := [SweepPage(t, page, more)] + steps;
    }
  }

  lemma NothingAlone(w: World, t: TaskId)
    ensures Alone(w, [], t, w)
  {
  }

  /** Every active device once, and every device. */
  lemma {:induction false} Listing(devices: map<DeviceId, Device>, some: set<DeviceId>) returns (ids: seq<DeviceId>)
    requires some <= devices.Keys
    ensures (forall d :: d in ids <==> d in some) && (forall i, j :: 0 <= i < j < |ids| ==> ids[i] != ids[j])
    decreases some
  {
    ids := [];
    if some != {} {
      var d :| d in some;
      var rest := Listing(devices, some - {d});
      ids := [d] + rest;
      forall x ensures x in ids <==> x in some {
        assert x in ids <==> x == d || x in rest;
      }
    }
  }

  lemma Listings(srv: Tx.State) returns (ids: seq<DeviceId>, all: seq<DeviceId>)
    requires exists d <- srv.devices :: Tx.IsActive(srv.devices, d)
    ensures ListsActive(srv, ids) && ids != [] && forall d <- srv.devices :: d in all
  {
    var active := set d | d in srv.devices && Tx.IsActive(srv.devices, d);
    ids := Listing(srv.devices, active);
    all := Listing(srv.devices, srv.devices.Keys);
    var d :| d in srv.devices && Tx.IsActive(srv.devices, d);
    assert d in ids;
  }

  lemma RevokeBegins(w: World, sid: SyncerId, t: TaskId, h: Held, target: DeviceId, hk: Key) returns (w1: World, w2: World)
    requires Holds(w, sid, h) && t !in w.tasks && target in w.srv.devices && hk !in w.ledger.minted
    ensures Takes(w, BeginRevoke(sid, t, h, target), w1) && Takes(w1, RevokeTarget(t, hk), w2)
    ensures w2.srv == Tx.Revoke(w.srv, target) && w2.syncers == w.syncers && sid in w.syncers
    ensures t in w2.tasks && w2.tasks[t] == Sweeping(sid, h, RecoveryPub(w.srv), hk, [], 0)
  {
    w1 := SetTask(w, t, Revoking(sid, h, target, RecoveryPub(w.srv)));
    w2 := RevokeThenSweep(w1, t, hk);
  }

  /** The wraps built for the active devices among a listing. */
  lemma BuildGives(w: World, t: TaskId, ids: seq<DeviceId>, all: seq<DeviceId>) returns (w': World)
    requires t in w.tasks && w.tasks[t].Swept? && w.tasks[t].sid in w.syncers && ListsActive(w.srv, ids) && ids != []
    ensures Takes(w, WrapForActive(t, ids), w') && w'.srv == w.srv && w'.syncers == w.syncers && t in w'.tasks
    ensures var k := w.tasks[t]; var v := k.held.version + 1;
      && w'.tasks[t].Rotating? && w'.tasks[t].sid == k.sid && w'.tasks[t].hkNew == k.hkNew
      && var req := w'.tasks[t].req;
         && req.hkVersion == v && req.hkWraps != [] && req.dekWraps == k.out && req.recoveryWrap == RecoveryWrap(k.recPub, k.hkNew, v)
         && WrapsFor(w.srv.devices, all, |all|, req.hkWraps, k.hkNew, v)
  {
    w' := BuildRotate(w, t, ids);
    var k, wraps := w.tasks[t], w'.tasks[t].req.hkWraps;
    forall i | 0 <= i < |all| && Tx.IsActive(w.srv.devices, all[i]) ensures exists x <- wraps :: x.deviceId == all[i] {
      var j :| 0 <= j < |ids| && ids[j] == all[i];
      assert wraps[j] in wraps;
    }
  }

  lemma RotateGives(w: World, t: TaskId) returns (w': World)
    requires t in w.tasks && w.tasks[t].Rotating? && w.tasks[t].sid in w.syncers && Tx.RotateAccepts(w.srv, w.tasks[t].req)
    ensures Takes(w, SendRotate(t), w') && w'.srv == Tx.Rotate(w.srv, w.tasks[t].req) && w'.syncers == w.syncers
    ensures var k := w.tasks[t]; t in w'.tasks && w'.tasks[t] == Holding(k.sid, Held(k.hkNew, k.req.hkVersion), true)
  {
    w' := Rotate(w, t);
  }

  /** Wrapping, sending and caching: the end of a revocation. */
  lemma RevokeEnds(w: World, t: TaskId, end: nat) returns (steps: seq<Step>, w': World)
    requires t in w.tasks && w.tasks[t].Swept? && w.tasks[t].sid in w.syncers && Filed(w.srv.dekWraps)
    requires var k := w.tasks[t];
      && k.recPub == RecoveryPub(w.srv) && w.srv.hkVersion == k.held.version
      && Rewrapped(w.srv.dekWraps, k.out, k.held, k.hkNew, end) && forall id <- w.srv.dekWraps :: id < end
    requires exists d <- w.srv.devices :: Tx.IsActive(w.srv.devices, d)
    ensures Alone(w, steps, t, w') && w'.srv.devices == w.srv.devices && w'.srv.records == w.srv.records
    ensures var k := w.tasks[t]; var h := Held(k.hkNew, k.held.version + 1);
      && On(w'.srv, h) && SameDeks(w.srv.dekWraps, k.held, w'.srv.dekWraps, h)
      && k.sid in w'.syncers && w'.syncers[k.sid].hk == Some(h) && w'.syncers[k.sid].dekWraps == map[]
  {
    hide Alone, Takes, Rewrapped, Filed, On, SameDeks, WrapsFor, Tx.Rotate, Tx.RotateAccepts;
    var k := w.tasks[t];
    var ids, all := Listings(w.srv);
    var w1 := BuildGives(w, t, ids, all);
    var req := w1.tasks[t].req;
    RotationMoves(w1.srv, k.held, k.hkNew, all, req.hkWraps, req.dekWraps, end, req.recoveryWrap);
    var w2 := RotateGives(w1, t);
    Rotated(w1.srv, req);
    w' := StoreGives(w2, t);
    steps := Three(w, WrapForActive(t, ids), w1, SendRotate(t), w2, StoreHK(t), w', t);
  }

  lemma Three(w: World, a: Step, w1: World, b: Step, w2: World, c: Step, w3: World, t: TaskId) returns (steps: seq<Step>)
    requires Takes(w, a, w1) && Takes(w1, b, w2) && Takes(w2, c, w3) && OfTask(a, t) && OfTask(b, t) && OfTask(c, t)
    ensures Alone(w, steps, t, w3)
  {
    hide Takes, Alone;
    NothingAlone(w3, t);
    First(w2, c, w3, [], t, w3);
    First(w1, b, w2, [c] + [], t, w3);
    First(w, a, w1, [b] + ([c] + []), t, w3);
    steps := [a] + ([b] + ([c] + []));
  }

  /** With the current key every stored DEK opens. */
  lemma CurrentOpens(w: World, sid: SyncerId, h: Held)
    requires Inv(w) && Holds(w, sid, h) && h.version == w.srv.hkVersion
    ensures Filed(w.srv.dekWraps) && forall id <- w.srv.dekWraps :: OpenOld(w.srv.dekWraps[id], h).Some?
  {
    GroupSteps.HoldsKnown(w, sid, h);
    forall id <- w.srv.dekWraps ensures OpenOld(w.srv.dekWraps[id], h).Some? {
      assert CachedWrapOk(w.ledger, id, w.srv.dekWraps[id]);
    }
  }

  /** A revocation begun under the current key, with another device staying, goes through by its
      own steps: the group is on the new key, the target holds nothing, every DEK is what it
      was, and the revoker caches the new key and no stale wrap. */
  lemma RevocationGives(w: World, sid: SyncerId, t: TaskId, h: Held, target: DeviceId, hk: Key)
    returns (w1: World, steps: seq<Step>, w': World)
    requires Inv(w) && Holds(w, sid, h) && h.version == w.srv.hkVersion && t !in w.tasks && hk !in w.ledger.minted
    requires target in w.srv.devices && SomeoneElse(w.srv.devices, target)
    ensures Takes(w, BeginRevoke(sid, t, h, target), w1) && Alone(w1, steps, t, w')
    ensures w'.srv.devices == Tx.Revoke(w.srv, target).devices && target !in w'.srv.hkWraps && w'.srv.records == w.srv.records
    ensures var h' := Held(hk, h.version + 1);
      && On(w'.srv, h') && SameDeks(w.srv.dekWraps, h, w'.srv.dekWraps, h')
      && sid in w'.syncers && w'.syncers[sid].hk == Some(h') && w'.syncers[sid].dekWraps == map[]
  {
    CurrentOpens(w, sid, h);
    hide Inv, Takes, Alone, On, SameDeks, Holds, Rewrapped, Filed, OpenOld;
    StillActive(w.srv, target);
    var w2;
    w1, w2 := RevokeBegins(w, sid, t, h, target, hk);
    steps, w' := RevokeRuns(w2, t);
    First(w1, RevokeTarget(t, hk), w2, steps, t, w');
    steps := [RevokeTarget(t, hk)] + steps;
    TargetOut(w'.srv, target, Held(hk, h.version + 1));
  }

  lemma RevokeRuns(w: World, t: TaskId) returns (steps: seq<Step>, w': World)
    requires t in w.tasks && w.tasks[t].Sweeping? && w.tasks[t].sid in w.syncers && w.tasks[t].out == [] && w.tasks[t].cursor == 0
    requires Filed(w.srv.dekWraps) && forall id <- w.srv.dekWraps :: OpenOld(w.srv.dekWraps[id], w.tasks[t].held).Some?
    requires w.tasks[t].recPub == RecoveryPub(w.srv) && w.srv.hkVersion == w.tasks[t].held.version
    requires exists d <- w.srv.devices :: Tx.IsActive(w.srv.devices, d)
    ensures Alone(w, steps, t, w') && w'.srv.devices == w.srv.devices && w'.srv.records == w.srv.records
    ensures var k := w.tasks[t]; var h := Held(k.hkNew, k.held.version + 1);
      && On(w'.srv, h) && SameDeks(w.srv.dekWraps, k.held, w'.srv.dekWraps, h)
      && k.sid in w'.syncers && w'.syncers[k.sid].hk == Some(h) && w'.syncers[k.sid].dekWraps == map[]
  {
    hide Alone, On, SameDeks, Rewrapped, Filed, OpenOld, SweptSo;
    NothingSwept(w, t);
    var sweep, w3, end := SweepsAll(w, t, 0);
    var last;
    last, w' := RevokeEnds(w3, t, end);
    Joined(w, sweep, w3, last, t, w');
    steps := sweep + last;
  }

  lemma NothingSwept(w: World, t: TaskId)
    requires t in w.tasks && w.tasks[t].Sweeping? && w.tasks[t].sid in w.syncers && w.tasks[t].out == [] && w.tasks[t].cursor == 0
    requires Filed(w.srv.dekWraps) && forall id <- w.srv.dekWraps :: OpenOld(w.srv.dekWraps[id], w.tasks[t].held).Some?
    ensures SweptSo(w, t, 0)
  {
    hide OpenOld;
  }

  lemma {:induction false} Joined(w: World, a: seq<Step>, w1: World, b: seq<Step>, t: TaskId, w2: World)
    requires Alone(w, a, t, w1) && Alone(w1, b, t, w2)
    ensures Alone(w, a + b, t, w2)
    decreases |a|
  {
    hide After, Enabled, Regresses, OfTask;
    if a == [] {
      assert a + b == b;
    } else {
      assert (a + b)[1..] == a[1..] + b;
      Joined(After(w, a[0]), a[1..], w1, b, t, w2);
    }
  }
}
