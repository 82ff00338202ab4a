/** What every run of the group-key protocol guarantees. */
module GroupSafety {
  import opened Wrappers
  import opened Crypto
  import opened Wire
  import opened Bucket
  import Tx = ServerTx
  import opened Group
  import opened GroupInvariant
  import opened GroupSteps

  lemma {:induction false} RunInv(ws: seq<World>, steps: seq<Step>, i: nat)
    requires IsRun(ws, steps) && i < |ws|
    ensures Inv(ws[i])
  {
    if i == 0 {
      InitInv();
    } else {
      RunInv(ws, steps, i - 1);
      assert Next(ws[i - 1], steps[i - 1], ws[i - 1 + 1]);
      StepKeepsInv(ws[i - 1], steps[i - 1]);
    }
  }

  lemma GrowsTransitive(a: World, b: World, c: World)
    requires Grows(a, b) && Grows(b, c)
    ensures Grows(a, c)
  {
  }

  lemma GrowsReflexive(a: World)
    ensures Grows(a, a)
  {
  }

  lemma RunStep(ws: seq<World>, steps: seq<Step>, i: nat)
    requires IsRun(ws, steps) && i < |steps|
    ensures Grows(ws[i], ws[i + 1])
  {
    RunInv(ws, steps, i);
    assert Next(ws[i], steps[i], ws[i + 1]);
    StepKeepsInv(ws[i], steps[i]);
  }

  lemma {:induction false} RunGrows(ws: seq<World>, steps: seq<Step>, i: nat, j: nat)
    requires IsRun(ws, steps) && i <= j < |ws|
    ensures Grows(ws[i], ws[j])
    decreases j
  {
    hide Grows, Next, Regresses;
    if i < j {
      RunGrows(ws, steps, i, j - 1);
      RunStep(ws, steps, j - 1);
      GrowsTransitive(ws[i], ws[j - 1], ws[j]);
    } else {
      GrowsReflexive(ws[i]);
    }
  }

  // ---- one current key ----

  /** k is the group's History Key, everywhere and at exactly the current version. */
  ghost predicate IsGroupKey(w: World, k: Key) {
    var v := w.srv.hkVersion;
    && (forall d <- w.srv.hkWraps :: w.srv.hkWraps[d].hkVersion == v && Boxed(w.srv.hkWraps[d].blob) == Some(k))
    && w.srv.recovery.Some? && w.srv.recovery.value.wrap.hkVersion == v
    && UnwrapHK(w.srv.recovery.value.wrap.blob, w.srv.recovery.value.pub) == Some(k)
    && (forall id <- w.srv.dekWraps :: w.srv.dekWraps[id].hkVersion == v
          && UnwrapDEK(w.srv.dekWraps[id].blob, k, w.srv.dekWraps[id].Aad()).Some?)
    && (forall s <- w.syncers :: w.syncers[s].hk.Some? && w.syncers[s].hk.value.version == v ==> w.syncers[s].hk.value.hk == k)
  }

  ghost predicate HasGroupKey(w: World) {
    exists k :: IsGroupKey(w, k)
  }

  lemma CurrentKey(w: World)
    requires Inv(w) && w.srv.hkVersion >= 1
    ensures w.srv.hkVersion in w.ledger.keys && IsGroupKey(w, w.ledger.keys[w.srv.hkVersion])
  {
    forall s <- w.syncers ensures SyncerOk(w.srv, w.ledger, w.syncers[s]) {
    }
  }

  /** Once the first activation has landed there is one History Key that every device
      wrap and the recovery wrap contain, every DEK is sealed under, and every syncer
      that believes in the current version caches. */
  lemma OneCurrentKey(ws: seq<World>, steps: seq<Step>, i: nat)
    requires IsRun(ws, steps) && i < |ws| && ws[i].srv.hkVersion >= 1
    ensures HasGroupKey(ws[i])
  {
    RunInv(ws, steps, i);
    CurrentKey(ws[i]);
  }

  lemma VersionNeverDecreases(ws: seq<World>, steps: seq<Step>, i: nat, j: nat)
    requires IsRun(ws, steps) && i <= j < |ws|
    ensures ws[i].srv.hkVersion <= ws[j].srv.hkVersion
  {
    RunGrows(ws, steps, i, j);
  }

  /** A key once current at some version is the only key ever current at it. */
  lemma VersionNamesOneKey(ws: seq<World>, steps: seq<Step>, i: nat, j: nat, k: Key, k': Key)
    requires IsRun(ws, steps) && i <= j < |ws| && 1 <= ws[i].srv.hkVersion == ws[j].srv.hkVersion
    requires IsGroupKey(ws[i], k) && IsGroupKey(ws[j], k')
    ensures k == k'
  {
    RunInv(ws, steps, i);
    RunInv(ws, steps, j);
    RunGrows(ws, steps, i, j);
    CurrentKey(ws[i]);
    CurrentKey(ws[j]);
  }

  /** Over the states the protocol reaches, an activation leaves the group with one current
      key if and only if it does not regress. */
  lemma ActivationSafeIff(ws: seq<World>, steps: seq<Step>, step: Step)
    requires IsRun(ws, steps)
    requires step.ActivateSelf? || step.ActivateTarget?
    requires ws[|ws| - 1].srv.hkVersion >= 1 && Enabled(ws[|ws| - 1], step)
    ensures HasGroupKey(After(ws[|ws| - 1], step)) <==> !Regresses(ws[|ws| - 1], step)
  {
    var w := ws[|ws| - 1];
    RunInv(ws, steps, |ws| - 1);
    if Regresses(w, step) {
      var (h, d, pub) := InFlight(w, step).value;
      assert After(w, step).srv.hkVersion == h.version != w.srv.recovery.value.wrap.hkVersion;
    } else {
      StepKeepsInv(w, step);
      CurrentKey(After(w, step));
    }
  }

  // ---- history is never lost ----

  /** The plaintext of a stored DEK under a given History Key. */
  function DekUnder(srv: Tx.State, id: KeyId, k: Key): Option<Key>
    requires id in srv.dekWraps
  {
    UnwrapDEK(srv.dekWraps[id].blob, k, srv.dekWraps[id].Aad())
  }

  lemma DekUnderCurrent(w: World, id: KeyId)
    requires Inv(w) && id in w.srv.dekWraps
    ensures w.srv.hkVersion >= 1 && w.srv.hkVersion in w.ledger.keys && id in w.ledger.deks
    ensures DekUnder(w.srv, id, w.ledger.keys[w.srv.hkVersion]) == Some(w.ledger.deks[id])
  {
  }

  /** No rotation, approval or recovery ever drops a DEK or changes what it is. */
  lemma DeksSurvive(ws: seq<World>, steps: seq<Step>, i: nat, j: nat, id: KeyId, k: Key, k': Key)
    requires IsRun(ws, steps) && i <= j < |ws| && id in ws[i].srv.dekWraps
    requires IsGroupKey(ws[i], k) && IsGroupKey(ws[j], k')
    ensures id in ws[j].srv.dekWraps
    ensures DekUnder(ws[i].srv, id, k).Some? && DekUnder(ws[j].srv, id, k') == DekUnder(ws[i].srv, id, k)
  {
    RunInv(ws, steps, i);
    RunInv(ws, steps, j);
    RunGrows(ws, steps, i, j);
    DekUnderCurrent(ws[i], id);
    DekUnderCurrent(ws[j], id);
    assert ws[i].srv.dekWraps[id].hkVersion == ws[i].srv.hkVersion;
    assert ws[j].srv.dekWraps[id].hkVersion == ws[j].srv.hkVersion;
    CurrentKey(ws[i]);
    CurrentKey(ws[j]);
    OpensUnderOneKey(ws[i], id, k);
    OpensUnderOneKey(ws[j], id, k');
  }

  lemma OpensUnderOneKey(w: World, id: KeyId, k: Key)
    requires Inv(w) && w.srv.hkVersion >= 1 && id in w.srv.dekWraps && DekUnder(w.srv, id, k).Some?
    ensures w.srv.hkVersion in w.ledger.keys && k == w.ledger.keys[w.srv.hkVersion]
  {
    DekUnderCurrent(w, id);
  }

  /** The whole chain: History Key, then DEK, then record, as a pulling device walks it. */
  function OpenChain(srv: Tx.State, k: Key, host: HostId, q: nat): Option<Record>
    requires host in srv.records && q in srv.records[host]
  {
    var x := srv.records[host][q];
    if x.keyId !in srv.dekWraps then None
    else
      match DekUnder(srv, x.keyId, k)
      case None => None
      case Some(dek) =>
        match OpenRecord(x.blob, dek, RecordAAD(x.id, host, q, x.keyId))
        case None => None
        case Some(pt) => Some(RecordFromPayload(pt, host, q, x.keyId))
  }

  /** What a reader sees of a pushed record: everything but the fields that are never
      sealed (resolved tags, the local deletion mark) or that name the DEK. */
  function AsRead(r: Record, keyId: KeyId): Record {
    r.(tags := [], deletedMs := 0, keyId := keyId)
  }

  lemma ChainOpens(w: World, host: HostId, q: nat)
    requires Inv(w) && host in w.srv.records && q in w.srv.records[host]
    ensures w.srv.hkVersion >= 1 && w.srv.hkVersion in w.ledger.keys && (host, q) in w.ledger.pushed
    ensures var x := w.srv.records[host][q];
      OpenChain(w.srv, w.ledger.keys[w.srv.hkVersion], host, q) == Some(AsRead(w.ledger.pushed[(host, q)], x.keyId))
  {
    assert RecordOk(w, host, q, w.srv.records[host][q]);
    DekUnderCurrent(w, w.srv.records[host][q].keyId);
  }

  /** A record pushed at any point of a run opens, at every later point, to the record that
      was pushed, on the right host and at the right position, however often the keys
      rotated in between. */
  lemma PushedHistoryStaysReadable(ws: seq<World>, steps: seq<Step>, i: nat, j: nat, m: nat)
    requires IsRun(ws, steps) && i < j < |ws| && steps[i].PushBatch? && m < |steps[i].items|
    requires Next(ws[i], steps[i], ws[i + 1])
    requires var s := ws[i].syncers[steps[i].sid];
      && Tx.PushReply(s.deviceId, SealAll(s, steps[i].items)) == Tx.Done
      && steps[i].items[m].0.seqNo !in Tx.StreamOf(ws[i].srv, s.deviceId)
    ensures var (host, r) := (ws[i].syncers[steps[i].sid].deviceId, steps[i].items[m].0);
      && host in ws[j].srv.records && r.seqNo in ws[j].srv.records[host]
      && exists k :: IsGroupKey(ws[j], k)
           && OpenChain(ws[j].srv, k, host, r.seqNo) == Some(AsRead(r, ws[j].srv.records[host][r.seqNo].keyId))
  {
    var step := steps[i];
    NewlyPushedAt(ws[i], ws[i].syncers[step.sid], step.items, m);
    RunInv(ws, steps, j);
    RunGrows(ws, steps, i + 1, j);
    var (host, r) := (ws[i].syncers[step.sid].deviceId, step.items[m].0);
    assert (host, r.seqNo) in ws[i + 1].ledger.pushed && ws[i + 1].ledger.pushed[(host, r.seqNo)] == r;
    assert (host, r.seqNo).0 in ws[j].srv.records && (host, r.seqNo).1 in ws[j].srv.records[host];
    ChainOpens(ws[j], host, r.seqNo);
    CurrentKey(ws[j]);
  }

  /** Whatever a syncer has cached, opening a stored record with its cached DEK yields the
      record that was pushed: stale caches can make an open fail, never lie. */
  lemma CachedKeysNeverLie(ws: seq<World>, steps: seq<Step>, i: nat, sid: SyncerId, host: HostId, q: nat)
    requires IsRun(ws, steps) && i < |ws| && sid in ws[i].syncers
    requires host in ws[i].srv.records && q in ws[i].srv.records[host]
    requires ws[i].srv.records[host][q].keyId in ws[i].syncers[sid].deksByKeyId
    ensures var x := ws[i].srv.records[host][q];
      && (host, q) in ws[i].ledger.pushed
      && OpenRecord(x.blob, ws[i].syncers[sid].deksByKeyId[x.keyId], RecordAAD(x.id, host, q, x.keyId))
         == Some(MarshalPayload(ws[i].ledger.pushed[(host, q)]))
  {
    RunInv(ws, steps, i);
    assert SyncerOk(ws[i].srv, ws[i].ledger, ws[i].syncers[sid]);
    assert RecordOk(ws[i], host, q, ws[i].srv.records[host][q]);
  }

  // ---- the revoked stay out ----

  /** A key installed by a rotation after a device's revocation is never granted to that
      device, before or after, unless the device has been activated again. */
  lemma RevokedStaysOut(ws: seq<World>, steps: seq<Step>, n: nat, i: nat, j: nat, g: nat, d: DeviceId)
    requires IsRun(ws, steps) && n < |ws|
    requires var log := ws[n].ledger.log;
      && i < j < |log| && g < |log| && log[i] == RevokedDevice(d) && log[j].Installed? && Grants(log[g], log[j].hk, d)
    ensures g >= j && Readmitted(ws[n].ledger.log, i, g + 1, d)
  {
    RunInv(ws, steps, n);
    var log := ws[n].ledger.log;
    assert GrantedKey(log[g]) == GrantedKey(log[j]);
    if log[g].Installed? {
      assert Readmitted(log, i, g, d);
      var m :| i < m < g && m < |log| && log[m].Activated? && log[m].device == d;
    }
  }

  /** The log is a faithful account: whoever holds a wrap was granted what it contains. */
  lemma WrapsAreLogged(ws: seq<World>, steps: seq<Step>, n: nat, d: DeviceId)
    requires IsRun(ws, steps) && n < |ws| && d in ws[n].srv.hkWraps
    ensures Logged(ws[n].ledger.log, ws[n].srv.hkWraps[d].blob, d)
  {
    RunInv(ws, steps, n);
  }
}
