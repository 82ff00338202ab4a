/** The group-key protocol as a transition system. Every server transaction is one
    atomic step and every client operation is a task: a chain of steps between which
    any other task, of the same syncer or of another one, may run. A syncer may hold
    a stale key for as long as it likes. Any task may stop at any point, which also
    covers a request that committed but whose reply was lost. */
module Group {
  import opened Wrappers
  import opened Crypto
  import opened Wire
  import opened Bucket
  import Tx = ServerTx

  const BOOTSTRAP_HK_VERSION := 1
  const DEK_PAGE_LIMIT := 1000

  /** A History Key together with the version it is believed to have. */
  datatype Held = Held(hk: Key, version: int)

  datatype DekEntry = DekEntry(keyId: KeyId, dek: Key)

  datatype Syncer = Syncer(
    deviceId: DeviceId, priv: PubKey,
    hk: Option<Held>,
    deksByEpoch: map<int, DekEntry>,
    deksByKeyId: map<KeyId, Key>,
    dekWraps: map<KeyId, DEKWrap>)

  type SyncerId = nat
  type TaskId = nat

  datatype Task =
    | Holding(sid: SyncerId, held: Held, rotated: bool)  // a key in hand, about to be cached
    | Forming(sid: SyncerId, hkNew: Key)                 // recovery key installed, self-activation next
    | Approving(sid: SyncerId, held: Held, target: DeviceId, pub: PubKey)
    | Revoking(sid: SyncerId, held: Held, target: DeviceId, recPub: Option<PubKey>)
    | Sweeping(sid: SyncerId, held: Held, recPub: Option<PubKey>, hkNew: Key, out: seq<DEKWrap>, cursor: KeyId)
    | Swept(sid: SyncerId, held: Held, recPub: Option<PubKey>, hkNew: Key, out: seq<DEKWrap>)
    | Rotating(sid: SyncerId, hkNew: Key, req: RotateReq)
    | Uploading(sid: SyncerId, wrap: DEKWrap, dek: Key)
    | Recovering(sid: SyncerId, held: Held)
    | Admitting(sid: SyncerId, held: Held, device: DeviceId, pub: PubKey)

  /** What the server durably did with History Keys, in order. */
  datatype Event =
    | Activated(device: DeviceId, hk: Key)
    | RevokedDevice(device: DeviceId)
    | Installed(hk: Key, devices: set<DeviceId>)

  /** Bookkeeping no participant reads: every key generated, the key installed at each
      version, each DEK as generated, each record as pushed, and the event log. */
  datatype Ledger = Ledger(
    minted: set<Key>, keys: map<int, Key>, deks: map<KeyId, Key>,
    pushed: map<(HostId, nat), Record>, log: seq<Event>)

  datatype World = World(srv: Tx.State, syncers: map<SyncerId, Syncer>, tasks: map<TaskId, Task>, ledger: Ledger)

  const INIT: World := World(Tx.EMPTY, map[], map[], Ledger({}, map[], map[], map[], []))

  datatype Step =
    | Serve(req: Tx.Request, now: int)  // tokens, registration: requests that carry no key
    | StartSyncer(sid: SyncerId, deviceId: DeviceId, priv: PubKey)
    | FetchHK(sid: SyncerId, t: TaskId)
    | StoreHK(t: TaskId)
    | BeginBootstrap(sid: SyncerId, t: TaskId, hk: Key, salt: nat, recPub: PubKey)
    | ActivateSelf(t: TaskId)
    | BeginApprove(sid: SyncerId, t: TaskId, held: Held, target: DeviceId)
    | ActivateTarget(t: TaskId)
    | BeginRevoke(sid: SyncerId, t: TaskId, held: Held, target: DeviceId)
    | RevokeTarget(t: TaskId, hk: Key)
    | SweepPage(t: TaskId, page: seq<KeyId>, more: bool)
    | WrapForActive(t: TaskId, ids: seq<DeviceId>)
    | SendRotate(t: TaskId)
    | BeginUpload(sid: SyncerId, t: TaskId, held: Held, epoch: int, keyId: KeyId, dek: Key)
    | SendUpload(t: TaskId)
    | PushBatch(sid: SyncerId, items: seq<(Record, int)>, now: int)
    | RefreshWraps(sid: SyncerId, page: seq<KeyId>)
    | OpenDek(sid: SyncerId, held: Held, keyId: KeyId)
    | BeginRecovery(sid: SyncerId, t: TaskId, priv: PubKey)
    | BeginAdmit(t: TaskId)
    | SendAdmit(t: TaskId)
    | Abandon(t: TaskId)

  // ---- enabling conditions ----

  /** resolveHK's answer: the cached key, or one this syncer has just fetched. */
  ghost predicate Holds(w: World, sid: SyncerId, h: Held) {
    && sid in w.syncers
    && (w.syncers[sid].hk == Some(h)
        || exists t <- w.tasks :: w.tasks[t].Holding? && w.tasks[t].sid == sid && w.tasks[t].held == h)
  }

  predicate TaskIs(w: World, t: TaskId, p: Task -> bool) {
    t in w.tasks && p(w.tasks[t]) && w.tasks[t].sid in w.syncers
  }

  /** Every active device exactly once. */
  ghost predicate ListsActive(srv: Tx.State, ids: seq<DeviceId>) {
    && (forall d <- ids :: Tx.IsActive(srv.devices, d))
    && (forall d <- srv.devices :: Tx.IsActive(srv.devices, d) ==> d in ids)
    && (forall i, j :: 0 <= i < j < |ids| ==> ids[i] != ids[j])
  }

  ghost predicate Enabled(w: World, step: Step) {
    match step
    case Serve(req, _) => req.ReqMint? || req.ReqRevokeToken? || req.ReqRegister?
    case StartSyncer(sid, id, _) => sid !in w.syncers && id != ""
    case FetchHK(sid, t) => sid in w.syncers && t !in w.tasks
    case StoreHK(t) => TaskIs(w, t, (k: Task) => k.Holding?)
    case BeginBootstrap(sid, t, hk, _, _) => sid in w.syncers && t !in w.tasks && hk !in w.ledger.minted
    case ActivateSelf(t) => TaskIs(w, t, (k: Task) => k.Forming?)
    case BeginApprove(sid, t, h, target) => Holds(w, sid, h) && t !in w.tasks && target in w.srv.devices
    case ActivateTarget(t) => TaskIs(w, t, (k: Task) => k.Approving?)
    case BeginRevoke(sid, t, h, _) => Holds(w, sid, h) && t !in w.tasks
    case RevokeTarget(t, hk) => TaskIs(w, t, (k: Task) => k.Revoking?) && hk !in w.ledger.minted
    case SweepPage(t, page, more) =>
      && TaskIs(w, t, (k: Task) => k.Sweeping?)
      && IsPage(w.srv.dekWraps.Keys, PageStart(w.tasks[t].cursor), DEK_PAGE_LIMIT, page, more)
    case WrapForActive(t, ids) => TaskIs(w, t, (k: Task) => k.Swept?) && ListsActive(w.srv, ids) && ids != []
    case SendRotate(t) => TaskIs(w, t, (k: Task) => k.Rotating?)
    case BeginUpload(sid, t, h, epoch, keyId, _) =>
      && Holds(w, sid, h) && t !in w.tasks
      && epoch !in w.syncers[sid].deksByEpoch && keyId !in w.ledger.deks && keyId != 0
    case SendUpload(t) => TaskIs(w, t, (k: Task) => k.Uploading?)
    case PushBatch(sid, items, _) => sid in w.syncers && CanSeal(w.syncers[sid], items)
    case RefreshWraps(sid, page) => sid in w.syncers && forall k <- page :: k in w.srv.dekWraps
    case OpenDek(sid, h, keyId) => Holds(w, sid, h) && keyId in w.syncers[sid].dekWraps
    case BeginRecovery(sid, t, _) => sid in w.syncers && t !in w.tasks && w.srv.recovery.Some?
    case BeginAdmit(t) => TaskIs(w, t, (k: Task) => k.Recovering?)
    case SendAdmit(t) => TaskIs(w, t, (k: Task) => k.Admitting?)
    case Abandon(t) => t in w.tasks
  }

  function PageStart(cursor: KeyId): nat {
    if cursor == 0 then 0 else cursor + 1
  }

  /** A push seals records of this host's own log under epoch keys it has uploaded. */
  ghost predicate CanSeal(s: Syncer, items: seq<(Record, int)>) {
    forall it <- items :: it.0.hostId == s.deviceId && it.1 in s.deksByEpoch
  }

  // ---- effects ----

  function EndTask(w: World, t: TaskId): World {
    w.(tasks := w.tasks - {t})
  }

  function SetTask(w: World, t: TaskId, k: Task): World {
    w.(tasks := w.tasks[t := k])
  }

  function Log(w: World, e: Event): World {
    w.(ledger := w.ledger.(log := w.ledger.log + [e]))
  }

  function HKWrapFor(hk: Key, version: int, d: DeviceId, pub: PubKey): HKWrap {
    HKWrap(d, WrapHK(hk, pub), version)
  }

  function Fetch(w: World, sid: SyncerId, t: TaskId): World
    requires sid in w.syncers
  {
    var s := w.syncers[sid];
    if s.deviceId !in w.srv.hkWraps then w
    else
      var wrap := w.srv.hkWraps[s.deviceId];
      match UnwrapHK(wrap.blob, s.priv)
      case None => w
      case Some(hk) => SetTask(w, t, Holding(sid, Held(hk, wrap.hkVersion), false))
  }

  /** After a rotation or a bootstrap the DEK-wrap cache is dropped as well. */
  function Store(w: World, t: TaskId): World
    requires TaskIs(w, t, (k: Task) => k.Holding?)
  {
    var k := w.tasks[t];
    var s := w.syncers[k.sid];
    w.(syncers := w.syncers[k.sid := s.(hk := Some(k.held), dekWraps := if k.rotated then map[] else s.dekWraps)])
  }

  function Bootstrap(w: World, sid: SyncerId, t: TaskId, hk: Key, salt: nat, recPub: PubKey): World {
    var r := Recovery(salt, recPub, HKWrapFor(hk, BOOTSTRAP_HK_VERSION, RECOVERY_DEVICE_ID, recPub));
    var w' := w.(ledger := w.ledger.(minted := w.ledger.minted + {hk}), srv := Tx.InitRecovery(w.srv, r));
    if Tx.InitRecoveryReply(w.srv, r) != Tx.Done then w'
    else SetTask(w'.(ledger := w'.ledger.(keys := w'.ledger.keys[BOOTSTRAP_HK_VERSION := hk])), t, Forming(sid, hk))
  }

  /** An activation request for device d carrying key h, sealed to pub. */
  function Activate(w: World, h: Held, d: DeviceId, pub: PubKey): World {
    var wrap := HKWrapFor(h.hk, h.version, d, pub);
    if Tx.ActivateReply(w.srv, d, wrap) != Tx.Done then w
    else Log(w.(srv := Tx.Activate(w.srv, d, wrap)), Activated(d, h.hk))
  }

  function ActivateForming(w: World, t: TaskId): World
    requires TaskIs(w, t, (k: Task) => k.Forming?)
  {
    var k := w.tasks[t];
    var s := w.syncers[k.sid];
    var h := Held(k.hkNew, BOOTSTRAP_HK_VERSION);
    var ok := Tx.ActivateReply(w.srv, s.deviceId, HKWrapFor(h.hk, h.version, s.deviceId, s.priv)) == Tx.Done;
    var w' := Activate(w, h, s.deviceId, s.priv);
    if ok then SetTask(w', t, Holding(k.sid, h, true)) else EndTask(w', t)
  }

  function RevokeThenSweep(w: World, t: TaskId, hk: Key): World
    requires TaskIs(w, t, (k: Task) => k.Revoking?)
  {
    var k := w.tasks[t];
    if Tx.RevokeReply(w.srv, k.target) != Tx.Done then EndTask(w, t)
    else
      var w' := Log(w.(srv := Tx.Revoke(w.srv, k.target)), RevokedDevice(k.target));
      SetTask(w'.(ledger := w'.ledger.(minted := w'.ledger.minted + {hk})), t,
              Sweeping(k.sid, k.held, k.recPub, hk, [], 0))
  }

  /** A DEK wrap opened under the old key at the old version, as a rotation does. */
  function OpenOld(w: DEKWrap, h: Held): Option<Key> {
    UnwrapDEK(w.blob, h.hk, DekAAD(w.keyId, w.deviceId, w.epoch, h.version))
  }

  /** Same identity, same plaintext, new key and version. */
  function ReWrap(w: DEKWrap, h: Held, hkNew: Key): DEKWrap
    requires OpenOld(w, h).Some?
  {
    DEKWrap(w.keyId, w.deviceId, w.epoch,
            WrapDEK(OpenOld(w, h).value, hkNew, DekAAD(w.keyId, w.deviceId, w.epoch, h.version + 1)), h.version + 1)
  }

  function SweepOne(w: World, t: TaskId, page: seq<KeyId>, more: bool): World
    requires TaskIs(w, t, (k: Task) => k.Sweeping?)
    requires forall k <- page :: k in w.srv.dekWraps
    requires more ==> page != []
  {
    var k := w.tasks[t];
    if exists id <- page :: OpenOld(w.srv.dekWraps[id], k.held).None? then EndTask(w, t)
    else
      var out := k.out + seq(|page|, i requires 0 <= i < |page| && page[i] in w.srv.dekWraps && OpenOld(w.srv.dekWraps[page[i]], k.held).Some?
                                     => ReWrap(w.srv.dekWraps[page[i]], k.held, k.hkNew));
      SetTask(w, t, if more then k.(out := out, cursor := page[|page| - 1])
                    else Swept(k.sid, k.held, k.recPub, k.hkNew, out))
  }

  function BuildRotate(w: World, t: TaskId, ids: seq<DeviceId>): World
    requires TaskIs(w, t, (k: Task) => k.Swept?)
    requires forall d <- ids :: d in w.srv.devices
  {
    var k := w.tasks[t];
    var v := k.held.version + 1;
    var wraps := seq(|ids|, i requires 0 <= i < |ids| && ids[i] in w.srv.devices
                            => HKWrapFor(k.hkNew, v, ids[i], w.srv.devices[ids[i]].pub));
    var rec := match k.recPub
               case None => None
               case Some(p) => Some(HKWrapFor(k.hkNew, v, RECOVERY_DEVICE_ID, p));
    SetTask(w, t, Rotating(k.sid, k.hkNew, RotateReq(v, wraps, k.out, rec)))
  }

  function Rotate(w: World, t: TaskId): World
    requires TaskIs(w, t, (k: Task) => k.Rotating?)
  {
    var k := w.tasks[t];
    if !Tx.RotateAccepts(w.srv, k.req) then EndTask(w, t)
    else
      var w' := Log(w.(srv := Tx.Rotate(w.srv, k.req)), Installed(k.hkNew, set x <- k.req.hkWraps :: x.deviceId));
      SetTask(w'.(ledger := w'.ledger.(keys := w'.ledger.keys[k.req.hkVersion := k.hkNew])), t,
              Holding(k.sid, Held(k.hkNew, k.req.hkVersion), true))
  }

  function MintDek(w: World, sid: SyncerId, t: TaskId, h: Held, epoch: int, keyId: KeyId, dek: Key): World
    requires sid in w.syncers
  {
    var d := w.syncers[sid].deviceId;
    var wrap := DEKWrap(keyId, d, epoch, WrapDEK(dek, h.hk, DekAAD(keyId, d, epoch, h.version)), h.version);
    SetTask(w.(ledger := w.ledger.(deks := w.ledger.deks[keyId := dek])), t, Uploading(sid, wrap, dek))
  }

  /** The syncer's lock is held from the upload until its caches are filled. */
  function Upload(w: World, t: TaskId): World
    requires TaskIs(w, t, (k: Task) => k.Uploading?)
  {
    var k := w.tasks[t];
    if Tx.PostDEKReply(w.srv, [k.wrap]) != Tx.Done then EndTask(w, t)
    else
      var s := w.syncers[k.sid];
      EndTask(w.(srv := Tx.PostDEK(w.srv, [k.wrap]),
                 syncers := w.syncers[k.sid := s.(
                   deksByEpoch := s.deksByEpoch[k.wrap.epoch := DekEntry(k.wrap.keyId, k.dek)],
                   deksByKeyId := s.deksByKeyId[k.wrap.keyId := k.dek],
                   dekWraps := s.dekWraps[k.wrap.keyId := k.wrap])]), t)
  }

  function SealFor(s: Syncer, r: Record, epoch: int): PushRecord
    requires epoch in s.deksByEpoch
  {
    var e := s.deksByEpoch[epoch];
    PushRecord(r.seqNo, r.id, e.keyId, SealRecord(MarshalPayload(r), e.dek, RecordAAD(r.id, r.hostId, r.seqNo, e.keyId)))
  }

  function SealAll(s: Syncer, items: seq<(Record, int)>): (recs: seq<PushRecord>)
    requires forall it <- items :: it.1 in s.deksByEpoch
    ensures |recs| == |items|
  {
    seq(|items|, i requires 0 <= i < |items| && items[i].1 in s.deksByEpoch => SealFor(s, items[i].0, items[i].1))
  }

  /** Which of the items are new to the stream, by sequence number. */
  function NewlyPushed(srv: Tx.State, host: HostId, items: seq<(Record, int)>): map<(HostId, nat), Record> {
    map i | 0 <= i < |items| && items[i].0.seqNo !in Tx.StreamOf(srv, host)
          && (forall j :: 0 <= j < i ==> items[j].0.seqNo != items[i].0.seqNo) :: (host, items[i].0.seqNo) := items[i].0
  }

  function PushItems(w: World, sid: SyncerId, items: seq<(Record, int)>, now: int): World
    requires sid in w.syncers
    requires forall it <- items :: it.1 in w.syncers[sid].deksByEpoch
  {
    var s := w.syncers[sid];
    var recs := SealAll(s, items);
    if Tx.PushReply(s.deviceId, recs) != Tx.Done then w
    else w.(srv := Tx.Push(w.srv, s.deviceId, recs, now),
            ledger := w.ledger.(pushed := w.ledger.pushed + NewlyPushed(w.srv, s.deviceId, items)))
  }

  /** A wrap already cached is kept, however old. */
  function CacheWraps(w: World, sid: SyncerId, page: seq<KeyId>): World
    requires sid in w.syncers
    requires forall k <- page :: k in w.srv.dekWraps
  {
    var s := w.syncers[sid];
    w.(syncers := w.syncers[sid := s.(dekWraps := (map k | k in page :: w.srv.dekWraps[k]) + s.dekWraps)])
  }

  function CacheDek(w: World, sid: SyncerId, h: Held, keyId: KeyId): World
    requires sid in w.syncers && keyId in w.syncers[sid].dekWraps
  {
    var s := w.syncers[sid];
    match UnwrapDEK(s.dekWraps[keyId].blob, h.hk, s.dekWraps[keyId].Aad())
    case None => w
    case Some(dek) =>
      if keyId in s.deksByKeyId then w
      else w.(syncers := w.syncers[sid := s.(deksByKeyId := s.deksByKeyId[keyId := dek])])
  }

  function Recover(w: World, sid: SyncerId, t: TaskId, priv: PubKey): World
    requires w.srv.recovery.Some?
  {
    var wrap := w.srv.recovery.value.wrap;
    match UnwrapHK(wrap.blob, priv)
    case None => w
    case Some(hk) => SetTask(w, t, Recovering(sid, Held(hk, wrap.hkVersion)))
  }

  function Admit(w: World, t: TaskId): World
    requires TaskIs(w, t, (k: Task) => k.Admitting?)
  {
    var k := w.tasks[t];
    var wrap := HKWrapFor(k.held.hk, k.held.version, k.device, k.pub);
    if Tx.RecoveryActivateReply(w.srv, k.device, wrap) != Tx.Done then EndTask(w, t)
    else EndTask(Log(w.(srv := Tx.RecoveryActivate(w.srv, k.device, wrap)), Activated(k.device, k.held.hk)), t)
  }

  ghost function After(w: World, step: Step): World
    requires Enabled(w, step)
  {
    match step
    case Serve(req, now) => w.(srv := Tx.Handle(w.srv, req, now))
    case StartSyncer(sid, id, priv) => w.(syncers := w.syncers[sid := Syncer(id, priv, None, map[], map[], map[])])
    case FetchHK(sid, t) => Fetch(w, sid, t)
    case StoreHK(t) => Store(w, t)
    case BeginBootstrap(sid, t, hk, salt, recPub) => Bootstrap(w, sid, t, hk, salt, recPub)
    case ActivateSelf(t) => ActivateForming(w, t)
    case BeginApprove(sid, t, h, target) => SetTask(w, t, Approving(sid, h, target, w.srv.devices[target].pub))
    case ActivateTarget(t) => EndTask(Activate(w, w.tasks[t].held, w.tasks[t].target, w.tasks[t].pub), t)
    case BeginRevoke(sid, t, h, target) => SetTask(w, t, Revoking(sid, h, target, RecoveryPub(w.srv)))
    case RevokeTarget(t, hk) => RevokeThenSweep(w, t, hk)
    case SweepPage(t, page, more) => SweepOne(w, t, page, more)
    case WrapForActive(t, ids) => BuildRotate(w, t, ids)
    case SendRotate(t) => Rotate(w, t)
    case BeginUpload(sid, t, h, epoch, keyId, dek) => MintDek(w, sid, t, h, epoch, keyId, dek)
    case SendUpload(t) => Upload(w, t)
    case PushBatch(sid, items, now) => PushItems(w, sid, items, now)
    case RefreshWraps(sid, page) => CacheWraps(w, sid, page)
    case OpenDek(sid, h, keyId) => CacheDek(w, sid, h, keyId)
    case BeginRecovery(sid, t, priv) => Recover(w, sid, t, priv)
    case BeginAdmit(t) =>
      var k := w.tasks[t];
      SetTask(w, t, Admitting(k.sid, k.held, w.syncers[k.sid].deviceId, w.syncers[k.sid].priv))
    case SendAdmit(t) => Admit(w, t)
    case Abandon(t) => EndTask(w, t)
  }

  function RecoveryPub(srv: Tx.State): Option<PubKey> {
    match srv.recovery
    case None => None
    case Some(r) => Some(r.pub)
  }

  // ---- runs ----

  /** The key and version an ordinary activation step is about to send, and to whom. */
  function InFlight(w: World, step: Step): Option<(Held, DeviceId, PubKey)> {
    match step
    case ActivateSelf(t) =>
      if TaskIs(w, t, (k: Task) => k.Forming?) then
        var s := w.syncers[w.tasks[t].sid];
        Some((Held(w.tasks[t].hkNew, BOOTSTRAP_HK_VERSION), s.deviceId, s.priv))
      else None
    case ActivateTarget(t) =>
      if TaskIs(w, t, (k: Task) => k.Approving?) then Some((w.tasks[t].held, w.tasks[t].target, w.tasks[t].pub))
      else None
    case _ => None
  }

  /** An activation that arrives after the group has formed, finds no wrap stored at all,
      is accepted, and carries a version other than the current one. */
  predicate Regresses(w: World, step: Step) {
    match InFlight(w, step)
    case None => false
    case Some((h, d, pub)) =>
      && w.srv.hkVersion >= 1
      && w.srv.hkWraps == map[]
      && Tx.ActivateReply(w.srv, d, HKWrapFor(h.hk, h.version, d, pub)) == Tx.Done
      && h.version != w.srv.hkVersion
  }

  ghost predicate Next(w: World, step: Step, w': World) {
    Enabled(w, step) && w' == After(w, step)
  }

  /** A run: any interleaving of steps in which no activation regresses. */
  ghost predicate IsRun(ws: seq<World>, steps: seq<Step>) {
    && |ws| == |steps| + 1
    && ws[0] == INIT
    && forall i :: 0 <= i < |steps| ==> Next(ws[i], steps[i], ws[i + 1]) && !Regresses(ws[i], steps[i])
  }
}
