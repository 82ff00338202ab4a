/** The inductive invariant of the group-key protocol, step by step. */
module GroupInvariant {
  import opened Wrappers
  import opened Crypto
  import opened Wire
  import Tx = ServerTx
  import opened Group

  // ---- what a blob says ----

  /** The key inside a sealed History Key, whoever can open it. */
  function Boxed(b: Blob): Option<Key> {
    match b
    case BoxedHK(_, _, hk) => Some(hk)
    case _ => None
  }

  /** A DEK wrap sealed under key k for exactly its own fields, holding `dek`. */
  predicate SealsDek(w: DEKWrap, k: Key, dek: Key) {
    UnwrapDEK(w.blob, k, w.Aad()) == Some(dek)
  }

  // ---- components of the invariant ----

  predicate Known(l: Ledger, h: Held) {
    h.version in l.keys && l.keys[h.version] == h.hk
  }

  /** Whether a key has been fixed for some version. */
  ghost predicate IsInstalled(l: Ledger, k: Key) {
    exists v :: v in l.keys && l.keys[v] == k
  }

  ghost predicate VersionsInv(w: World) {
    && w.srv.hkVersion >= 0
    && (w.srv.hkVersion == 0 ==> w.srv.hkWraps == map[] && w.srv.dekWraps == map[])
    && (forall v :: v in w.ledger.keys <==> 1 <= v <= TopVersion(w))
    && (forall v <- w.ledger.keys :: w.ledger.keys[v] in w.ledger.minted)
  }

  /** The newest version a key has been fixed for: 1 as soon as the recovery key is. */
  function TopVersion(w: World): int {
    if w.srv.recovery.None? then 0 else if w.srv.hkVersion < 1 then 1 else w.srv.hkVersion
  }

  ghost predicate HKWrapsInv(w: World) {
    forall d <- w.srv.hkWraps ::
      && Tx.IsActive(w.srv.devices, d)
      && w.srv.hkWraps[d].deviceId == d
      && w.srv.hkWraps[d].hkVersion == w.srv.hkVersion
      && w.srv.hkVersion in w.ledger.keys
      && Boxed(w.srv.hkWraps[d].blob) == Some(w.ledger.keys[w.srv.hkVersion])
  }

  ghost predicate RecoveryInv(w: World) {
    match w.srv.recovery
    case None => w.srv.hkVersion == 0
    case Some(r) =>
      && r.wrap.hkVersion == TopVersion(w)
      && r.wrap.hkVersion in w.ledger.keys
      && UnwrapHK(r.wrap.blob, r.pub) == Some(w.ledger.keys[r.wrap.hkVersion])
  }

  ghost predicate DekWrapsInv(w: World) {
    forall k <- w.srv.dekWraps ::
      && k != 0 && w.srv.dekWraps[k].keyId == k
      && w.srv.dekWraps[k].hkVersion == w.srv.hkVersion
      && CachedWrapOk(w.ledger, k, w.srv.dekWraps[k])
  }

  predicate CachedWrapOk(l: Ledger, k: KeyId, x: DEKWrap) {
    && x.keyId == k && k in l.deks
    && x.hkVersion in l.keys
    && SealsDek(x, l.keys[x.hkVersion], l.deks[k])
  }

  ghost predicate SyncerOk(srv: Tx.State, l: Ledger, s: Syncer) {
    && s.deviceId != ""
    && (s.hk.Some? ==> Known(l, s.hk.value))
    && (forall e <- s.deksByEpoch :: EntryOk(srv, l, s.deksByEpoch[e]))
    && (forall k <- s.deksByKeyId :: k in l.deks && l.deks[k] == s.deksByKeyId[k])
    && (forall k <- s.dekWraps :: CachedWrapOk(l, k, s.dekWraps[k]))
  }

  predicate EntryOk(srv: Tx.State, l: Ledger, e: DekEntry) {
    e.keyId in srv.dekWraps && e.keyId in l.deks && l.deks[e.keyId] == e.dek
  }

  /** The key a task has generated and not yet installed. */
  function Unborn(k: Task): Option<Key> {
    match k
    case Sweeping(_, _, _, hk, _, _) => Some(hk)
    case Swept(_, _, _, hk, _) => Some(hk)
    case Rotating(_, hk, _) => Some(hk)
    case _ => None
  }

  predicate RecPubOk(srv: Tx.State, p: Option<PubKey>) {
    p.Some? ==> srv.recovery.Some? && srv.recovery.value.pub == p.value
  }

  /** Re-wrapped DEKs: right plaintext, sealed under the new key. */
  ghost predicate OutOk(l: Ledger, out: seq<DEKWrap>, hkNew: Key, v: int) {
    forall x <- out :: x.hkVersion == v && x.keyId in l.deks && SealsDek(x, hkNew, l.deks[x.keyId])
  }

  ghost predicate ReqOk(srv: Tx.State, l: Ledger, req: RotateReq, hkNew: Key) {
    && req.hkVersion - 1 in l.keys
    && (forall x <- req.hkWraps :: x.hkVersion == req.hkVersion && Boxed(x.blob) == Some(hkNew))
    && OutOk(l, req.dekWraps, hkNew, req.hkVersion)
    && (req.recoveryWrap.Some? ==>
          && srv.recovery.Some?
          && UnwrapHK(req.recoveryWrap.value.blob, srv.recovery.value.pub) == Some(hkNew))
  }

  ghost predicate TaskOk(srv: Tx.State, l: Ledger, k: Task) {
    && (Unborn(k).Some? ==> Unborn(k).value in l.minted && !IsInstalled(l, Unborn(k).value))
    && match k
       case Holding(_, h, _) => Known(l, h)
       case Forming(_, hk) => Known(l, Held(hk, BOOTSTRAP_HK_VERSION))
       case Approving(_, h, _, _) => Known(l, h)
       case Revoking(_, h, _, p) => Known(l, h) && RecPubOk(srv, p)
       case Sweeping(_, h, p, hk, out, _) => Known(l, h) && RecPubOk(srv, p) && OutOk(l, out, hk, h.version + 1)
       case Swept(_, h, p, hk, out) => Known(l, h) && RecPubOk(srv, p) && OutOk(l, out, hk, h.version + 1)
       case Rotating(_, hk, req) => ReqOk(srv, l, req, hk)
       case Uploading(_, x, dek) => CachedWrapOk(l, x.keyId, x) && l.deks[x.keyId] == dek && x.deviceId != "" && x.keyId != 0
       case Recovering(_, h) => Known(l, h)
       case Admitting(_, h, _, _) => Known(l, h)
  }

  ghost predicate TasksInv(w: World) {
    && (forall t <- w.tasks :: TaskOk(w.srv, w.ledger, w.tasks[t]))
    && (forall t, u :: t in w.tasks && u in w.tasks && t != u && Unborn(w.tasks[t]).Some?
          ==> Unborn(w.tasks[t]) != Unborn(w.tasks[u]))
  }

  ghost predicate SyncersInv(w: World) {
    forall s <- w.syncers :: SyncerOk(w.srv, w.ledger, w.syncers[s])
  }

  /** Every stored record is the sealed form of the record pushed at its position. */
  ghost predicate RecordOk(w: World, host: HostId, q: nat, x: StoredRecord) {
    && x.keyId in w.srv.dekWraps && x.keyId in w.ledger.deks
    && (host, q) in w.ledger.pushed
    && var r := w.ledger.pushed[(host, q)];
    && x.id == r.id && r.hostId == host && r.seqNo == q
    && OpenRecord(x.blob, w.ledger.deks[x.keyId], RecordAAD(x.id, host, q, x.keyId)) == Some(MarshalPayload(r))
  }

  ghost predicate RecordsInv(w: World) {
    && (forall host <- w.srv.records :: forall q <- w.srv.records[host] :: RecordOk(w, host, q, w.srv.records[host][q]))
    && (forall p <- w.ledger.pushed :: p.0 in w.srv.records && p.1 in w.srv.records[p.0])
  }

  /** The History Keys granted so far, and to whom. */
  predicate Grants(e: Event, hk: Key, d: DeviceId) {
    match e
    case Activated(x, k) => x == d && k == hk
    case Installed(k, ds) => k == hk && d in ds
    case RevokedDevice(_) => false
  }

  function GrantedKey(e: Event): Option<Key> {
    match e
    case Activated(_, k) => Some(k)
    case Installed(k, _) => Some(k)
    case RevokedDevice(_) => None
  }

  /** Whether the device was let back in at some point after event i and before event j. */
  ghost predicate Readmitted(log: seq<Event>, i: nat, j: nat, d: DeviceId) {
    exists m :: i < m < j && m < |log| && log[m].Activated? && log[m].device == d
  }

  /** Somewhere in the log the device was granted the key the blob contains. */
  ghost predicate Logged(log: seq<Event>, b: Blob, d: DeviceId) {
    Boxed(b).Some? && exists g :: 0 <= g < |log| && Grants(log[g], Boxed(b).value, d)
  }

  ghost predicate LogInv(w: World) {
    var log := w.ledger.log;
    // the log accounts for every wrap held
    && (forall d <- w.srv.hkWraps :: Logged(log, w.srv.hkWraps[d].blob, d))
    // only installed keys are granted
    && (forall i :: 0 <= i < |log| && GrantedKey(log[i]).Some? ==> IsInstalled(w.ledger, GrantedKey(log[i]).value))
    // an installed key was granted to nobody before
    && (forall i, j :: 0 <= i < j < |log| && log[j].Installed? ==> GrantedKey(log[i]) != Some(log[j].hk))
    // whoever is active now was let in again after each of its revocations
    && (forall i :: 0 <= i < |log| && log[i].RevokedDevice? && Tx.IsActive(w.srv.devices, log[i].device)
          ==> Readmitted(log, i, |log|, log[i].device))
    // and so was whoever received an installed key
    && (forall i, j :: 0 <= i < j < |log| && log[i].RevokedDevice? && log[j].Installed? && log[i].device in log[j].devices
          ==> Readmitted(log, i, j, log[i].device))
  }

  ghost predicate Inv(w: World) {
    && VersionsInv(w) && HKWrapsInv(w) && RecoveryInv(w) && DekWrapsInv(w)
    && TasksInv(w) && SyncersInv(w) && RecordsInv(w) && LogInv(w)
  }

  lemma InitInv()
    ensures Inv(INIT)
  {
  }

  // ---- framing ----

  /** The version does not fall, the ledger only gains facts, the server keeps its DEK ids
      and its recovery key. */
  ghost predicate Grows(w: World, w': World) {
    && w.srv.hkVersion <= w'.srv.hkVersion
    && w.ledger.log <= w'.ledger.log
    && (forall p <- w.ledger.pushed :: p in w'.ledger.pushed && w'.ledger.pushed[p] == w.ledger.pushed[p])
    && (forall v <- w.ledger.keys :: v in w'.ledger.keys && w'.ledger.keys[v] == w.ledger.keys[v])
    && (forall k <- w.ledger.deks :: k in w'.ledger.deks && w'.ledger.deks[k] == w.ledger.deks[k])
    && w.ledger.minted <= w'.ledger.minted
    && (forall k <- w.srv.dekWraps :: k in w'.srv.dekWraps)
    && (w.srv.recovery.Some? ==> w'.srv.recovery.Some? && w'.srv.recovery.value.pub == w.srv.recovery.value.pub)
  }

  lemma SyncerFrame(w: World, w': World, s: Syncer)
    requires Grows(w, w') && SyncerOk(w.srv, w.ledger, s)
    ensures SyncerOk(w'.srv, w'.ledger, s)
  {
  }

  lemma TaskFrame(w: World, w': World, k: Task)
    requires Grows(w, w') && TaskOk(w.srv, w.ledger, k)
    requires Unborn(k).Some? ==> !IsInstalled(w'.ledger, Unborn(k).value)
    ensures TaskOk(w'.srv, w'.ledger, k)
  {
  }

  /** Tasks other than t carry over when the keys installed do not change. */
  lemma TasksFrame(w: World, w': World, t: TaskId)
    requires TasksInv(w) && Grows(w, w')
    requires w'.tasks - {t} == w.tasks - {t}
    requires forall u <- w.tasks :: u != t && Unborn(w.tasks[u]).Some? ==> !IsInstalled(w'.ledger, Unborn(w.tasks[u]).value)
    requires t in w'.tasks ==> TaskOk(w'.srv, w'.ledger, w'.tasks[t])
    requires t in w'.tasks && Unborn(w'.tasks[t]).Some? ==>
      Unborn(w'.tasks[t]).value !in w.ledger.minted || (t in w.tasks && Unborn(w'.tasks[t]) == Unborn(w.tasks[t]))
    ensures TasksInv(w')
  {
    forall u <- w'.tasks
      ensures TaskOk(w'.srv, w'.ledger, w'.tasks[u])
    {
      if u != t {
        assert u in w'.tasks - {t};
        assert w.tasks[u] == w'.tasks[u];
        TaskFrame(w, w', w.tasks[u]);
      }
    }
    forall a, b | a in w'.tasks && b in w'.tasks && a != b && Unborn(w'.tasks[a]).Some?
      ensures Unborn(w'.tasks[a]) != Unborn(w'.tasks[b])
    {
      assert a != t ==> a in w'.tasks - {t};
      assert b != t ==> b in w'.tasks - {t};
      assert a != t ==> a in w.tasks && w.tasks[a] == w'.tasks[a];
      assert b != t ==> b in w.tasks && w.tasks[b] == w'.tasks[b];
    }
  }

  lemma SyncersFrame(w: World, w': World)
    requires SyncersInv(w) && Grows(w, w') && w'.syncers == w.syncers
    ensures SyncersInv(w')
  {
    forall s <- w'.syncers ensures SyncerOk(w'.srv, w'.ledger, w'.syncers[s]) {
      SyncerFrame(w, w', w.syncers[s]);
    }
  }

  lemma RecordsFrame(w: World, w': World)
    requires RecordsInv(w) && Grows(w, w')
    requires w'.srv.records == w.srv.records && w'.ledger.pushed == w.ledger.pushed
    ensures RecordsInv(w')
  {
    forall host <- w'.srv.records, q | q in w'.srv.records[host]
      ensures RecordOk(w', host, q, w'.srv.records[host][q])
    {
      assert RecordOk(w, host, q, w.srv.records[host][q]);
    }
  }
}
