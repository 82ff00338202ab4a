/** The sync server's transactions as functions on the tenant's buckets. A
    transaction either commits or leaves the state as it was. */
module ServerTx {
  import opened Wrappers
  import opened Crypto
  import opened Wire

  const MAX_PUSH_RECORDS := 1000
  const TOKEN_TTL_MS := 30 * 60 * 1000
  const TOKEN_KEEP_MS := 7 * 24 * 3600 * 1000

  type Stream = map<nat, StoredRecord>

  datatype State = State(
    devices: map<DeviceId, Device>,
    hkWraps: map<DeviceId, HKWrap>,
    dekWraps: map<KeyId, DEKWrap>,
    hkVersion: int,
    recovery: Option<Recovery>,
    records: map<HostId, Stream>,
    tokens: map<TokenHash, Token>)

  const EMPTY: State := State(map[], map[], map[], 0, None, map[], map[])

  datatype Reply = Done | Fail(status: int)

  // ---- enrollment tokens ----

  datatype TokenState = Claimed | RevokedToken | Expired | Open

  function TokenStateAt(t: Token, now: int): TokenState {
    if t.claimedMs != 0 then Claimed
    else if t.revokedMs != 0 then RevokedToken
    else if now >= t.expiresMs then Expired
    else Open
  }

  predicate Usable(tokens: map<TokenHash, Token>, h: TokenHash, now: int) {
    h in tokens && TokenStateAt(tokens[h], now) == Open
  }

  predicate Prunable(t: Token, now: int) {
    t.claimedMs == 0 && t.expiresMs <= now - TOKEN_KEEP_MS
  }

  function PruneTokens(tokens: map<TokenHash, Token>, now: int): map<TokenHash, Token> {
    map h | h in tokens && !Prunable(tokens[h], now) :: tokens[h]
  }

  function MintToken(s: State, h: TokenHash, now: int): State {
    s.(tokens := PruneTokens(s.tokens, now)[h := Token(now, now + TOKEN_TTL_MS, 0, "", 0)])
  }

  function RevokeTokenReply(s: State, h: TokenHash): Reply {
    if h !in s.tokens then Fail(404)
    else if s.tokens[h].claimedMs != 0 then Fail(409)
    else Done
  }

  function RevokeToken(s: State, h: TokenHash, now: int): State {
    if RevokeTokenReply(s, h) != Done || s.tokens[h].revokedMs != 0 then s
    else s.(tokens := s.tokens[h := s.tokens[h].(revokedMs := now)])
  }

  // ---- devices ----

  function RegisterReply(s: State, id: DeviceId, h: TokenHash, bootstrap: bool, now: int): Reply {
    if id == "" then Fail(400)
    else if !bootstrap && !Usable(s.tokens, h, now) then Fail(401)
    else if id in s.devices && s.devices[id].status != Revoked then Fail(409)
    else Done
  }

  /** Redeeming the token and writing the device are one transaction. */
  function Register(s: State, id: DeviceId, pub: PubKey, h: TokenHash, bootstrap: bool, now: int): State {
    if RegisterReply(s, id, h, bootstrap, now) != Done then s
    else s.(tokens := if bootstrap then s.tokens
                      else s.tokens[h := s.tokens[h].(claimedMs := now, claimedBy := id)],
            devices := s.devices[id := Device(pub, Pending)])
  }

  function ActivateReply(s: State, id: DeviceId, wrap: HKWrap): Reply {
    if wrap.deviceId != id then Fail(400)
    else if id !in s.devices then Fail(404)
    else if s.devices[id].status == Revoked then Fail(409)
    else if s.hkWraps == map[] then if wrap.hkVersion < 1 then Fail(400) else Done
    else if wrap.hkVersion != s.hkVersion then Fail(400)
    else Done
  }

  /** With no wrap stored at all the request sets the version; otherwise it must match it. */
  function Activate(s: State, id: DeviceId, wrap: HKWrap): State {
    if ActivateReply(s, id, wrap) != Done then s
    else s.(hkVersion := if s.hkWraps == map[] then wrap.hkVersion else s.hkVersion,
            hkWraps := s.hkWraps[id := wrap],
            devices := s.devices[id := s.devices[id].(status := Active)])
  }

  function RecoveryActivateReply(s: State, id: DeviceId, wrap: HKWrap): Reply {
    if s.recovery.None? then Fail(404)
    else if wrap.deviceId != id then Fail(400)
    else if id !in s.devices then Fail(404)
    else if s.devices[id].status == Revoked then Fail(409)
    else if wrap.hkVersion != s.hkVersion then Fail(400)
    else Done
  }

  function RecoveryActivate(s: State, id: DeviceId, wrap: HKWrap): State {
    if RecoveryActivateReply(s, id, wrap) != Done then s
    else s.(hkWraps := s.hkWraps[id := wrap],
            devices := s.devices[id := s.devices[id].(status := Active)])
  }

  function RevokeReply(s: State, id: DeviceId): Reply {
    if id !in s.devices then Fail(404) else Done
  }

  function Revoke(s: State, id: DeviceId): State {
    if RevokeReply(s, id) != Done then s
    else s.(devices := s.devices[id := s.devices[id].(status := Revoked)],
            hkWraps := s.hkWraps - {id})
  }

  function InitRecoveryReply(s: State, r: Recovery): Reply {
    if r.wrap.blob == Bytes([]) then Fail(400)
    else if s.recovery.Some? then Fail(409)
    else Done
  }

  function InitRecovery(s: State, r: Recovery): State {
    if InitRecoveryReply(s, r) != Done then s else s.(recovery := Some(r))
  }

  // ---- keys ----

  predicate DekPostable(w: DEKWrap, current: int) {
    w.keyId != 0 && w.deviceId != "" && w.hkVersion == current
  }

  function PostDEKReply(s: State, ws: seq<DEKWrap>): Reply {
    if forall w <- ws :: DekPostable(w, s.hkVersion) then Done else Fail(400)
  }

  /** First write wins. */
  function PutNewDeks(m: map<KeyId, DEKWrap>, ws: seq<DEKWrap>): map<KeyId, DEKWrap> {
    if ws == [] then m
    else
      var m' := PutNewDeks(m, ws[..|ws| - 1]);
      var w := ws[|ws| - 1];
      if w.keyId in m' then m' else m'[w.keyId := w]
  }

  function PostDEK(s: State, ws: seq<DEKWrap>): State {
    if PostDEKReply(s, ws) != Done then s else s.(dekWraps := PutNewDeks(s.dekWraps, ws))
  }

  function PutHKs(m: map<DeviceId, HKWrap>, ws: seq<HKWrap>): map<DeviceId, HKWrap> {
    if ws == [] then m else PutHKs(m, ws[..|ws| - 1])[ws[|ws| - 1].deviceId := ws[|ws| - 1]]
  }

  function PutDeks(m: map<KeyId, DEKWrap>, ws: seq<DEKWrap>): map<KeyId, DEKWrap> {
    if ws == [] then m else PutDeks(m, ws[..|ws| - 1])[ws[|ws| - 1].keyId := ws[|ws| - 1]]
  }

  predicate IsActive(devices: map<DeviceId, Device>, d: DeviceId) {
    d in devices && devices[d].status == Active
  }

  /** The request re-wraps every stored DEK once and no other. */
  predicate CoversExactly(dekWraps: map<KeyId, DEKWrap>, ws: seq<DEKWrap>) {
    && (forall i, j :: 0 <= i < j < |ws| ==> ws[i].keyId != ws[j].keyId)
    && (forall w <- ws :: w.keyId in dekWraps)
    && (forall k <- dekWraps :: exists w <- ws :: w.keyId == k)
  }

  /** The recovery wrap rotates exactly when a recovery key is configured. */
  predicate RecoveryAccepts(s: State, req: RotateReq) {
    match s.recovery
    case None => req.recoveryWrap.None?
    case Some(_) =>
      && req.recoveryWrap.Some?
      && req.recoveryWrap.value.blob != Bytes([])
      && req.recoveryWrap.value.hkVersion == req.hkVersion
  }

  predicate RotateAccepts(s: State, req: RotateReq) {
    && req.hkVersion == s.hkVersion + 1
    && |req.hkWraps| > 0
    && (forall w <- req.hkWraps :: IsActive(s.devices, w.deviceId))
    && CoversExactly(s.dekWraps, req.dekWraps)
    && RecoveryAccepts(s, req)
  }

  /** The HK version carried by an individual wrap is never looked at. */
  function Rotate(s: State, req: RotateReq): State {
    if !RotateAccepts(s, req) then s
    else s.(recovery := match s.recovery
                        case None => None
                        case Some(r) => Some(r.(wrap := r.wrap.(blob := req.recoveryWrap.value.blob,
                                                                hkVersion := req.recoveryWrap.value.hkVersion))),
            hkWraps := PutHKs(map[], req.hkWraps),
            dekWraps := PutDeks(s.dekWraps, req.dekWraps),
            hkVersion := req.hkVersion)
  }

  // ---- records ----

  function PushReply(host: HostId, recs: seq<PushRecord>): Reply {
    if host == "" || |recs| > MAX_PUSH_RECORDS then Fail(400)
    else if exists i :: 0 <= i < |recs| - 1 && recs[i + 1].seqNo <= recs[i].seqNo then Fail(400)
    else Done
  }

  function StreamOf(s: State, host: HostId): Stream {
    if host in s.records then s.records[host] else map[]
  }

  function Stored(r: PushRecord, now: int): StoredRecord {
    StoredRecord(r.id, r.keyId, r.blob, now)
  }

  /** First write wins: a sequence number already stored is skipped. */
  function PutNewRecords(m: Stream, recs: seq<PushRecord>, now: int): Stream {
    if recs == [] then m
    else
      var m' := PutNewRecords(m, recs[..|recs| - 1], now);
      var r := recs[|recs| - 1];
      if r.seqNo in m' then m' else m'[r.seqNo := Stored(r, now)]
  }

  function Push(s: State, host: HostId, recs: seq<PushRecord>, now: int): State {
    if PushReply(host, recs) != Done then s
    else s.(records := s.records[host := PutNewRecords(StreamOf(s, host), recs, now)])
  }

  // ---- what arbitrary requests preserve ----

  /** Any request at all, well formed or not, authorized or not. */
  datatype Request =
    | ReqMint(h: TokenHash)
    | ReqRevokeToken(h: TokenHash)
    | ReqRegister(id: DeviceId, pub: PubKey, h: TokenHash, bootstrap: bool)
    | ReqActivate(id: DeviceId, wrap: HKWrap)
    | ReqRecoveryActivate(id: DeviceId, wrap: HKWrap)
    | ReqRevoke(id: DeviceId)
    | ReqInitRecovery(r: Recovery)
    | ReqPostDEK(deks: seq<DEKWrap>)
    | ReqRotate(rot: RotateReq)
    | ReqPush(host: HostId, recs: seq<PushRecord>)

  function Handle(s: State, req: Request, now: int): State {
    match req
    case ReqMint(h) => MintToken(s, h, now)
    case ReqRevokeToken(h) => RevokeToken(s, h, now)
    case ReqRegister(id, pub, h, b) => Register(s, id, pub, h, b, now)
    case ReqActivate(id, w) => Activate(s, id, w)
    case ReqRecoveryActivate(id, w) => RecoveryActivate(s, id, w)
    case ReqRevoke(id) => Revoke(s, id)
    case ReqInitRecovery(r) => InitRecovery(s, r)
    case ReqPostDEK(ws) => PostDEK(s, ws)
    case ReqRotate(r) => Rotate(s, r)
    case ReqPush(h, rs) => Push(s, h, rs, now)
  }

  /** The state after serving a whole log of timestamped requests. */
  function Serve(s: State, reqs: seq<(Request, int)>): State {
    if reqs == [] then s
    else Handle(Serve(s, reqs[..|reqs| - 1]), reqs[|reqs| - 1].0, reqs[|reqs| - 1].1)
  }

  /** Only active devices hold a wrap, and each wrap is filed under its own device. */
  ghost predicate WrapsOnlyActive(s: State) {
    forall d <- s.hkWraps :: IsActive(s.devices, d) && s.hkWraps[d].deviceId == d
  }

  lemma {:induction false} PutHKsHolds(m: map<DeviceId, HKWrap>, ws: seq<HKWrap>)
    ensures forall d <- PutHKs(m, ws) ::
      (d in m && PutHKs(m, ws)[d] == m[d]) || (exists w <- ws :: w.deviceId == d && PutHKs(m, ws)[d] == w)
    ensures forall w <- ws :: w.deviceId in PutHKs(m, ws)
  {
    if ws != [] {
      var init := ws[..|ws| - 1];
      PutHKsHolds(m, init);
      assert ws == init + [ws[|ws| - 1]];
      forall d <- PutHKs(m, ws)
        ensures (d in m && PutHKs(m, ws)[d] == m[d]) || (exists w <- ws :: w.deviceId == d && PutHKs(m, ws)[d] == w)
      {
        if d == ws[|ws| - 1].deviceId {
          assert ws[|ws| - 1] in ws;
        } else if !(d in m && PutHKs(m, init)[d] == m[d]) {
          var w :| w in init && w.deviceId == d && PutHKs(m, init)[d] == w;
          assert w in ws;
        }
      }
    }
  }

  lemma {:induction false} PutDeksHolds(m: map<KeyId, DEKWrap>, ws: seq<DEKWrap>)
    ensures forall k <- PutDeks(m, ws) ::
      (k in m && PutDeks(m, ws)[k] == m[k] && forall w <- ws :: w.keyId != k)
      || (exists w <- ws :: w.keyId == k && PutDeks(m, ws)[k] == w)
    ensures forall k <- m :: k in PutDeks(m, ws)
    ensures forall w <- ws :: w.keyId in PutDeks(m, ws)
  {
    if ws != [] {
      var init := ws[..|ws| - 1];
      var last := ws[|ws| - 1];
      PutDeksHolds(m, init);
      assert ws == init + [last];
      forall k <- PutDeks(m, ws)
        ensures (k in m && PutDeks(m, ws)[k] == m[k] && forall w <- ws :: w.keyId != k)
          || (exists w <- ws :: w.keyId == k && PutDeks(m, ws)[k] == w)
      {
        if k == last.keyId {
          assert last in ws;
        } else if !(k in m && PutDeks(m, init)[k] == m[k] && forall w <- init :: w.keyId != k) {
          var w :| w in init && w.keyId == k && PutDeks(m, init)[k] == w;
          assert w in ws;
        }
      }
    }
  }

  lemma {:induction false} PutNewDeksHolds(m: map<KeyId, DEKWrap>, ws: seq<DEKWrap>)
    ensures forall k <- PutNewDeks(m, ws) ::
      (k in m && PutNewDeks(m, ws)[k] == m[k])
      || (k !in m && exists w <- ws :: w.keyId == k && PutNewDeks(m, ws)[k] == w)
    ensures forall k <- m :: k in PutNewDeks(m, ws)
    ensures forall w <- ws :: w.keyId in PutNewDeks(m, ws)
  {
    if ws != [] {
      var init := ws[..|ws| - 1];
      var last := ws[|ws| - 1];
      PutNewDeksHolds(m, init);
      assert ws == init + [last];
      forall k <- PutNewDeks(m, ws)
        ensures (k in m && PutNewDeks(m, ws)[k] == m[k])
          || (k !in m && exists w <- ws :: w.keyId == k && PutNewDeks(m, ws)[k] == w)
      {
        if k in PutNewDeks(m, init) {
          if k !in m {
            var w :| w in init && w.keyId == k && PutNewDeks(m, init)[k] == w;
            assert w in ws;
          }
        } else {
          assert last in ws;
        }
      }
    }
  }

  lemma {:induction false} PutNewRecordsHolds(m: Stream, recs: seq<PushRecord>, now: int)
    ensures forall q <- PutNewRecords(m, recs, now) ::
      (q in m && PutNewRecords(m, recs, now)[q] == m[q])
      || (q !in m && exists r <- recs :: r.seqNo == q && PutNewRecords(m, recs, now)[q] == Stored(r, now))
    ensures forall q <- m :: q in PutNewRecords(m, recs, now)
    ensures forall r <- recs :: r.seqNo in PutNewRecords(m, recs, now)
  {
    if recs != [] {
      var init := recs[..|recs| - 1];
      var last := recs[|recs| - 1];
      PutNewRecordsHolds(m, init, now);
      assert recs == init + [last];
      forall q <- PutNewRecords(m, recs, now)
        ensures (q in m && PutNewRecords(m, recs, now)[q] == m[q])
          || (q !in m && exists r <- recs :: r.seqNo == q && PutNewRecords(m, recs, now)[q] == Stored(r, now))
      {
        if q in PutNewRecords(m, init, now) {
          if q !in m {
            var r :| r in init && r.seqNo == q && PutNewRecords(m, init, now)[q] == Stored(r, now);
            assert r in recs;
          }
        } else {
          assert last in recs;
        }
      }
    }
  }

  lemma HandleKeepsWrapsActive(s: State, req: Request, now: int)
    requires WrapsOnlyActive(s)
    ensures WrapsOnlyActive(Handle(s, req, now))
  {
    match req
    case ReqRotate(r) => PutHKsHolds(map[], r.hkWraps);
    case _ =>
  }

  /** Whatever is sent to the server, in any order, no wrap is ever held for a device
      that is not active. */
  lemma {:induction false} OnlyActiveDevicesHoldWraps(reqs: seq<(Request, int)>)
    ensures WrapsOnlyActive(Serve(EMPTY, reqs))
  {
    if reqs != [] {
      OnlyActiveDevicesHoldWraps(reqs[..|reqs| - 1]);
      HandleKeepsWrapsActive(Serve(EMPTY, reqs[..|reqs| - 1]), reqs[|reqs| - 1].0, reqs[|reqs| - 1].1);
    }
  }
}
