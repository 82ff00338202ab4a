/** The sync server of one tenant: the handlers as methods that update the buckets
    in place. Each is proved against the transaction function of ServerTx. */
module SyncServer {
  import opened Wrappers
  import opened Crypto
  import opened Wire
  import opened Bucket
  import Tx = ServerTx

  const MAX_LIMIT := 1000
  const KEY_LENGTH := 32

  function ParseLimit(n: int): nat {
    if n <= 0 || n > MAX_LIMIT then MAX_LIMIT else n
  }

  /** What is stored at a position was there before, or is what the request brought for it. */
  ghost predicate StoredOnce(before: Tx.Stream, recs: seq<PushRecord>, now: int, q: nat, x: StoredRecord) {
    if q in before then x == before[q]
    else exists r <- recs :: r.seqNo == q && x.id == r.id && x.keyId == r.keyId && x.blob == r.blob && x.createdMs == now
  }

  ghost predicate StoredEach(before: Tx.Stream, recs: seq<PushRecord>, now: int, after: Tx.Stream) {
    && (forall q <- after :: StoredOnce(before, recs, now, q, after[q]))
    && (forall q <- before :: q in after) && (forall r <- recs :: r.seqNo in after)
  }

  lemma PutStores(before: Tx.Stream, recs: seq<PushRecord>, now: int)
    ensures StoredEach(before, recs, now, Tx.PutNewRecords(before, recs, now))
  {
    Tx.PutNewRecordsHolds(before, recs, now);
  }

  /** A push is taken exactly when it names its host and brings at most a thousand records in strictly
      ascending order. */
  lemma PushTaken(host: HostId, recs: seq<PushRecord>)
    ensures Tx.PushReply(host, recs) ==
      if host != "" && |recs| <= 1000 && forall i, j :: 0 <= i < j < |recs| ==> recs[i].seqNo < recs[j].seqNo then Tx.Done else Tx.Fail(400)
  {
    if Tx.PushReply(host, recs) == Tx.Done {
      forall i, j | 0 <= i < j < |recs| ensures recs[i].seqNo < recs[j].seqNo {
        Climbs(recs, i, j);
      }
    }
  }

  lemma {:induction false} Climbs(recs: seq<PushRecord>, i: nat, j: nat)
    requires i < j < |recs| && forall k :: 0 <= k < |recs| - 1 ==> recs[k].seqNo < recs[k + 1].seqNo
    ensures recs[i].seqNo < recs[j].seqNo
    decreases j
  {
    assert recs[j - 1].seqNo < recs[j - 1 + 1].seqNo;
    if i < j - 1 {
      Climbs(recs, i, j - 1);
    }
  }

  /** A mint leaves a token alone when it was claimed, or ended less than a week ago. */
  predicate Outlives(t: Token, now: int) {
    t.claimedMs != 0 || now < t.expiresMs + 7 * 24 * 3600 * 1000
  }

  /** What putting a request's wraps leaves. */
  lemma RotateHolds(deks: map<KeyId, DEKWrap>, req: RotateReq)
    requires Tx.CoversExactly(deks, req.dekWraps)
    ensures var hks := Tx.PutHKs(map[], req.hkWraps);
      && (forall d <- hks :: hks[d] in req.hkWraps && hks[d].deviceId == d) && (forall w <- req.hkWraps :: w.deviceId in hks)
    ensures var after := Tx.PutDeks(deks, req.dekWraps);
      after.Keys == deks.Keys && forall k <- after :: after[k] in req.dekWraps && after[k].keyId == k
  {
    Tx.PutHKsHolds(map[], req.hkWraps);
    Tx.PutDeksHolds(deks, req.dekWraps);
  }

  /** The same recovery key under a new wrap. */
  predicate SameRecovery(a: Recovery, b: Recovery, wrap: HKWrap, version: int) {
    && b.pub == a.pub && b.salt == a.salt && b.wrap.deviceId == a.wrap.deviceId
    && b.wrap.blob == wrap.blob != Bytes([]) && b.wrap.hkVersion == wrap.hkVersion == version
  }

  class Server {
    var devices: map<DeviceId, Device>
    var hkWraps: map<DeviceId, HKWrap>
    var dekWraps: map<KeyId, DEKWrap>
    var hkVersion: int
    var recovery: Option<Recovery>
    var records: map<HostId, Tx.Stream>
    var tokens: map<TokenHash, Token>

    ghost function State(): Tx.State
      reads this
    {
      Tx.State(devices, hkWraps, dekWraps, hkVersion, recovery, records, tokens)
    }

    constructor ()
      ensures State() == Tx.EMPTY
    {
      devices, hkWraps, dekWraps, hkVersion := map[], map[], map[], 0;
      recovery, records, tokens := None, map[], map[];
    }

    method HandleMintToken(h: TokenHash, now: int)
      modifies this
      ensures State() == Tx.MintToken(old(State()), h, now)
      ensures h in tokens && tokens[h] == Token(now, now + 30 * 60 * 1000, 0, "", 0)
      ensures forall x :: x != h ==> (x in tokens <==> x in old(tokens) && Outlives(old(tokens)[x], now))
      ensures forall x :: x != h && x in tokens ==> tokens[x] == old(tokens)[x]
    {
      var dead: set<TokenHash> := {};
      var rest := tokens.Keys;
      while rest != {}
        invariant rest <= tokens.Keys
        invariant dead == set x | x in tokens.Keys - rest && Tx.Prunable(tokens[x], now)
        decreases rest
      {
        var x :| x in rest;
        if Tx.Prunable(tokens[x], now) {
          dead := dead + {x};
        }
        rest := rest - {x};
      }
      assert tokens - dead == Tx.PruneTokens(tokens, now);
      tokens := (tokens - dead)[h := Token(now, now + Tx.TOKEN_TTL_MS, 0, "", 0)];
    }

    method HandleRevokeToken(h: TokenHash, now: int) returns (reply: Tx.Reply)
      modifies this
      ensures reply == Tx.RevokeTokenReply(old(State()), h)
      ensures State() == Tx.RevokeToken(old(State()), h, now)
      ensures reply == (if h !in old(tokens) then Tx.Fail(404) else if old(tokens)[h].claimedMs != 0 then Tx.Fail(409) else Tx.Done)
      ensures reply != Tx.Done ==> State() == old(State())
      ensures tokens - {h} == old(tokens) - {h} && tokens.Keys == old(tokens.Keys)
      ensures reply == Tx.Done && now != 0 ==> h in tokens && forall t :: !Tx.Usable(tokens, h, t)
    {
      if h !in tokens { return Tx.Fail(404); }
      if tokens[h].claimedMs != 0 { return Tx.Fail(409); }
      if tokens[h].revokedMs == 0 {
        tokens := tokens[h := tokens[h].(revokedMs := now)];
      }
      return Tx.Done;
    }

    /** The token write is undone when the registration it would authorize is refused. */
    method HandleRegister(id: DeviceId, pub: PubKey, h: TokenHash, bootstrap: bool, now: int) returns (reply: Tx.Reply)
      modifies this
      ensures reply == Tx.RegisterReply(old(State()), id, h, bootstrap, now)
      ensures State() == Tx.Register(old(State()), id, pub, h, bootstrap, now)
      ensures reply != Tx.Done ==> State() == old(State())
      ensures id != "" && !bootstrap && !Tx.Usable(old(tokens), h, now) ==> reply == Tx.Fail(401)
      ensures id != "" && (bootstrap || Tx.Usable(old(tokens), h, now)) ==>
        reply == if id in old(devices) && old(devices)[id].status != Revoked then Tx.Fail(409) else Tx.Done
      ensures reply == Tx.Done ==> id in devices && devices[id] == Device(pub, Pending) && devices - {id} == old(devices) - {id}
      ensures reply == Tx.Done && !bootstrap && now != 0 ==> tokens[h].claimedBy == id && forall t :: !Tx.Usable(tokens, h, t)
    {
      if id == "" { return Tx.Fail(400); }
      var rollback := tokens;
      if !bootstrap {
        if !Tx.Usable(tokens, h, now) { return Tx.Fail(401); }
        tokens := tokens[h := tokens[h].(claimedMs := now, claimedBy := id)];
      }
      if id in devices && devices[id].status != Revoked {
        tokens := rollback;
        return Tx.Fail(409);
      }
      devices := devices[id := Device(pub, Pending)];
      return Tx.Done;
    }

    /** Only device id was touched, and it is active under exactly this wrap. */
    twostate predicate Admitted(id: DeviceId, wrap: HKWrap)
      reads this
    {
      && Tx.IsActive(devices, id) && id in old(devices) && devices[id].pub == old(devices)[id].pub
      && id in hkWraps && hkWraps[id] == wrap && wrap.deviceId == id && wrap.hkVersion == hkVersion
      && devices - {id} == old(devices) - {id} && hkWraps - {id} == old(hkWraps) - {id}
      && dekWraps == old(dekWraps) && recovery == old(recovery) && records == old(records) && tokens == old(tokens)
    }

    method HandleActivate(id: DeviceId, wrap: HKWrap) returns (reply: Tx.Reply)
      modifies this
      ensures reply == Tx.ActivateReply(old(State()), id, wrap)
      ensures State() == Tx.Activate(old(State()), id, wrap)
      ensures if reply == Tx.Done then Admitted(id, wrap) else State() == old(State())
      ensures old(hkWraps) != map[] ==> hkVersion == old(hkVersion)
      ensures reply == (if wrap.deviceId != id then Tx.Fail(400) else if id !in old(devices) then Tx.Fail(404)
                        else if old(devices)[id].status == Revoked then Tx.Fail(409)
                        else if (if old(hkWraps) == map[] then wrap.hkVersion >= 1 else wrap.hkVersion == old(hkVersion)) then Tx.Done
                        else Tx.Fail(400))
    {
      if wrap.deviceId != id { return Tx.Fail(400); }
      if id !in devices { return Tx.Fail(404); }
      var dev := devices[id];
      if dev.status == Revoked { return Tx.Fail(409); }
      if hkWraps == map[] {
        if wrap.hkVersion < 1 { return Tx.Fail(400); }
        hkVersion := wrap.hkVersion;
      } else if wrap.hkVersion != hkVersion {
        return Tx.Fail(400);
      }
      hkWraps := hkWraps[id := wrap];
      devices := devices[id := dev.(status := Active)];
      return Tx.Done;
    }

    method HandleRecoveryActivate(id: DeviceId, wrap: HKWrap) returns (reply: Tx.Reply)
      modifies this
      ensures reply == Tx.RecoveryActivateReply(old(State()), id, wrap)
      ensures State() == Tx.RecoveryActivate(old(State()), id, wrap)
      ensures if reply == Tx.Done then Admitted(id, wrap) else State() == old(State())
      ensures hkVersion == old(hkVersion)
      ensures reply == (if old(recovery).None? then Tx.Fail(404) else if wrap.deviceId != id then Tx.Fail(400)
                        else if id !in old(devices) then Tx.Fail(404) else if old(devices)[id].status == Revoked then Tx.Fail(409)
                        else if wrap.hkVersion == old(hkVersion) then Tx.Done else Tx.Fail(400))
    {
      if recovery.None? { return Tx.Fail(404); }
      if wrap.deviceId != id { return Tx.Fail(400); }
      if id !in devices { return Tx.Fail(404); }
      var dev := devices[id];
      if dev.status == Revoked { return Tx.Fail(409); }
      if wrap.hkVersion != hkVersion { return Tx.Fail(400); }
      hkWraps := hkWraps[id := wrap];
      devices := devices[id := dev.(status := Active)];
      return Tx.Done;
    }

    method HandleRevoke(id: DeviceId) returns (reply: Tx.Reply)
      modifies this
      ensures reply == Tx.RevokeReply(old(State()), id)
      ensures State() == Tx.Revoke(old(State()), id)
      ensures reply == Tx.Done ==> id in devices && devices[id].status == Revoked
      ensures reply == Tx.Done <==> id in old(devices)
      ensures devices.Keys == old(devices.Keys) && devices - {id} == old(devices) - {id}
      ensures hkWraps == if reply == Tx.Done then old(hkWraps) - {id} else old(hkWraps)
      ensures dekWraps == old(dekWraps) && hkVersion == old(hkVersion) && recovery == old(recovery)
      ensures records == old(records) && tokens == old(tokens)
    {
      if id !in devices { return Tx.Fail(404); }
      devices := devices[id := devices[id].(status := Revoked)];
      hkWraps := hkWraps - {id};
      return Tx.Done;
    }

    /** Written once: nothing a later request carries can replace it. The lengths are those
        of the salt, the public key and the signing key received. */
    method HandleInitRecovery(r: Recovery, saltLength: nat, pubLength: nat, signLength: nat) returns (reply: Tx.Reply)
      modifies this`recovery
      ensures reply == if saltLength == 0 || pubLength != KEY_LENGTH || signLength != KEY_LENGTH then Tx.Fail(400)
                       else Tx.InitRecoveryReply(old(State()), r)
      ensures State() == if reply == Tx.Done then Tx.InitRecovery(old(State()), r) else old(State())
      ensures old(recovery).Some? ==> reply != Tx.Done && recovery == old(recovery)
      ensures reply == Tx.Done ==> recovery == Some(r)
    {
      if saltLength == 0 || pubLength != KEY_LENGTH || signLength != KEY_LENGTH { return Tx.Fail(400); }
      if r.wrap.blob == Bytes([]) { return Tx.Fail(400); }
      if recovery.Some? { return Tx.Fail(409); }
      recovery := Some(r);
      return Tx.Done;
    }

    /** Every wrap is checked before any is written. */
    method HandlePostDEK(ws: seq<DEKWrap>) returns (reply: Tx.Reply, stored: nat)
      modifies this
      ensures reply == Tx.PostDEKReply(old(State()), ws)
      ensures State() == Tx.PostDEK(old(State()), ws)
      ensures |dekWraps| == |old(dekWraps)| + stored && forall k <- old(dekWraps) :: k in dekWraps && dekWraps[k] == old(dekWraps)[k]
      ensures reply == if forall w <- ws :: w.keyId != 0 && w.deviceId != "" && w.hkVersion == old(hkVersion) then Tx.Done else Tx.Fail(400)
      ensures reply == Tx.Done ==> forall w <- ws :: w.keyId in dekWraps
      ensures forall k <- dekWraps :: k !in old(dekWraps) ==> dekWraps[k] in ws && dekWraps[k].keyId == k
    {
      stored := 0;
      for i := 0 to |ws|
        invariant forall j :: 0 <= j < i ==> Tx.DekPostable(ws[j], hkVersion)
      {
        if ws[i].keyId == 0 || ws[i].deviceId == "" || ws[i].hkVersion != hkVersion {
          assert !Tx.DekPostable(ws[i], hkVersion);
          return Tx.Fail(400), 0;
        }
      }
      ghost var before := dekWraps;
      for i := 0 to |ws|
        invariant State() == old(State()).(dekWraps := Tx.PutNewDeks(before, ws[..i]))
        invariant |dekWraps| == |before| + stored && forall k <- before :: k in dekWraps && dekWraps[k] == before[k]
      {
        assert ws[..i + 1][..i] == ws[..i];
        if ws[i].keyId !in dekWraps {
          dekWraps := dekWraps[ws[i].keyId := ws[i]];
          stored := stored + 1;
        }
      }
      assert ws[..|ws|] == ws;
      Tx.PutNewDeksHolds(before, ws);
      return Tx.Done, stored;
    }

    /** The three checks over the request's wraps: which keys exist, which are provided. */
    method CheckDekCover(ws: seq<DEKWrap>) returns (ok: bool)
      ensures ok == Tx.CoversExactly(dekWraps, ws)
    {
      var provided: set<KeyId> := {};
      for i := 0 to |ws|
        invariant provided == set j | 0 <= j < i :: ws[j].keyId
        invariant forall a, b :: 0 <= a < b < i ==> ws[a].keyId != ws[b].keyId
        invariant forall j :: 0 <= j < i ==> ws[j].keyId in dekWraps
      {
        if ws[i].keyId in provided {
          var j :| 0 <= j < i && ws[j].keyId == ws[i].keyId;
          return false;
        }
        if ws[i].keyId !in dekWraps {
          return false;
        }
        provided := provided + {ws[i].keyId};
      }
      ok := dekWraps.Keys <= provided;
      if ok {
        forall k <- dekWraps ensures exists w <- ws :: w.keyId == k {
          assert k in provided;
          var j :| 0 <= j < |ws| && ws[j].keyId == k;
          assert ws[j] in ws;
        }
      } else {
        var k :| k in dekWraps && k !in provided;
        assert forall j :: 0 <= j < |ws| ==> ws[j].keyId in provided;
        assert forall w <- ws :: w.keyId != k;
      }
    }

    method ReplaceHKWraps(ws: seq<HKWrap>)
      modifies this`hkWraps
      ensures hkWraps == Tx.PutHKs(map[], ws)
    {
      hkWraps := map[];
      for i := 0 to |ws|
        invariant hkWraps == Tx.PutHKs(map[], ws[..i])
      {
        assert ws[..i + 1][..i] == ws[..i];
        hkWraps := hkWraps[ws[i].deviceId := ws[i]];
      }
      assert ws[..|ws|] == ws;
    }

    method PutDekWraps(ws: seq<DEKWrap>)
      modifies this`dekWraps
      ensures dekWraps == Tx.PutDeks(old(dekWraps), ws)
    {
      for i := 0 to |ws|
        invariant dekWraps == Tx.PutDeks(old(dekWraps), ws[..i])
      {
        assert ws[..i + 1][..i] == ws[..i];
        dekWraps := dekWraps[ws[i].keyId := ws[i]];
      }
      assert ws[..|ws|] == ws;
    }

    method CheckHKWraps(ws: seq<HKWrap>) returns (ok: bool)
      ensures ok <==> forall w <- ws :: Tx.IsActive(devices, w.deviceId)
    {
      for i := 0 to |ws|
        invariant forall j :: 0 <= j < i ==> Tx.IsActive(devices, ws[j].deviceId)
      {
        var d := ws[i].deviceId;
        if d !in devices || devices[d].status != Active {
          assert ws[i] in ws && !Tx.IsActive(devices, ws[i].deviceId);
          return false;
        }
      }
      return true;
    }

    /** The request's wraps are the only ones, its DEK wraps replace those of the same ids, and the
        recovery key keeps its identity under the new wrap. */
    twostate predicate Rotated(req: RotateReq)
      reads this
    {
      && hkVersion == req.hkVersion == old(hkVersion) + 1
      && (forall d <- hkWraps :: hkWraps[d] in req.hkWraps && hkWraps[d].deviceId == d && Tx.IsActive(devices, d))
      && (forall w <- req.hkWraps :: w.deviceId in hkWraps)
      && dekWraps.Keys == old(dekWraps.Keys) && (forall k <- dekWraps :: dekWraps[k] in req.dekWraps && dekWraps[k].keyId == k)
      && (recovery.Some? <==> old(recovery).Some?) && (recovery.Some? <==> req.recoveryWrap.Some?)
      && (recovery.Some? ==> SameRecovery(old(recovery).value, recovery.value, req.recoveryWrap.value, req.hkVersion))
      && devices == old(devices) && records == old(records) && tokens == old(tokens)
    }

    /** All or nothing: the checks run before the first write. */
    method HandleRotate(req: RotateReq) returns (reply: Tx.Reply)
      modifies this
      ensures reply == if Tx.RotateAccepts(old(State()), req) then Tx.Done else Tx.Fail(400)
      ensures State() == Tx.Rotate(old(State()), req)
      ensures reply != Tx.Done ==> State() == old(State())
      ensures reply == Tx.Done ==> Rotated(req)
    {
      if req.hkVersion != hkVersion + 1 || |req.hkWraps| == 0 { return Tx.Fail(400); }
      var active := CheckHKWraps(req.hkWraps);
      if !active { return Tx.Fail(400); }
      var covered := CheckDekCover(req.dekWraps);
      if !covered { return Tx.Fail(400); }
      if !Tx.RecoveryAccepts(Tx.State(devices, hkWraps, dekWraps, hkVersion, recovery, records, tokens), req) {
        return Tx.Fail(400);
      }
      WriteRotation(req);
      return Tx.Done;
    }

    method WriteRotation(req: RotateReq)
      requires Tx.RotateAccepts(State(), req)
      modifies this
      ensures State() == Tx.Rotate(old(State()), req) && Rotated(req)
    {
      RotateHolds(dekWraps, req);
      if recovery.Some? {
        var r, w := recovery.value, req.recoveryWrap.value;
        recovery := Some(r.(wrap := r.wrap.(blob := w.blob, hkVersion := w.hkVersion)));
      }
      ReplaceHKWraps(req.hkWraps);
      PutDekWraps(req.dekWraps);
      hkVersion := req.hkVersion;
    }

    /** The client sends a batch in ascending order. */
    static method InOrder(recs: seq<PushRecord>) returns (ok: bool)
      ensures ok <==> forall j :: 0 <= j < |recs| - 1 ==> recs[j].seqNo < recs[j + 1].seqNo
    {
      var i := 1;
      while i < |recs|
        invariant 1 <= i
        invariant forall j :: 0 <= j < i - 1 && j + 1 < |recs| ==> recs[j].seqNo < recs[j + 1].seqNo
      {
        if recs[i].seqNo <= recs[i - 1].seqNo {
          assert recs[i - 1 + 1].seqNo <= recs[i - 1].seqNo;
          return false;
        }
        i := i + 1;
      }
      return true;
    }

    /** A position already taken keeps its record. */
    static method PutNew(before: Tx.Stream, recs: seq<PushRecord>, now: int) returns (stream: Tx.Stream, stored: nat)
      ensures stream == Tx.PutNewRecords(before, recs, now) && |stream| == |before| + stored
      ensures StoredEach(before, recs, now, stream)
    {
      PutStores(before, recs, now);
      stream, stored := before, 0;
      for i := 0 to |recs|
        invariant stream == Tx.PutNewRecords(before, recs[..i], now) && |stream| == |before| + stored
      {
        assert recs[..i + 1][..i] == recs[..i];
        var r := recs[i];
        if r.seqNo !in stream {
          stream := stream[r.seqNo := Tx.Stored(r, now)];
          stored := stored + 1;
        }
      }
      assert recs[..|recs|] == recs;
    }

    /** Stores what is new and reports how many records that was and the largest position now
        stored. */
    method HandlePush(host: HostId, recs: seq<PushRecord>, now: int)
      returns (reply: Tx.Reply, stored: nat, maxSeq: nat)
      modifies this
      ensures reply == Tx.PushReply(host, recs)
      ensures State() == Tx.Push(old(State()), host, recs, now)
      ensures reply == Tx.Done ==> |Tx.StreamOf(State(), host)| == |Tx.StreamOf(old(State()), host)| + stored
      ensures reply == Tx.Done ==> IsLast(Tx.StreamOf(State(), host).Keys, maxSeq)
      ensures if reply == Tx.Done then StoredEach(Tx.StreamOf(old(State()), host), recs, now, Tx.StreamOf(State(), host))
              else State() == old(State())
      ensures records - {host} == old(records) - {host}
    {
      if host == "" || |recs| > Tx.MAX_PUSH_RECORDS { return Tx.Fail(400), 0, 0; }
      var ordered := InOrder(recs);
      if !ordered { return Tx.Fail(400), 0, 0; }
      var stream: Tx.Stream := map[];
      if host in records {
        stream := records[host];
      }
      hide StoredEach;
      stream, stored := PutNew(stream, recs, now);
      records := records[host := stream];
      maxSeq := Last(stream.Keys);
      return Tx.Done, stored, maxSeq;
    }

    /** One page of a host's stream after a cursor; an unknown host is an empty stream. */
    method HandlePull(host: HostId, after: nat, n: int) returns (page: seq<nat>, more: bool)
      ensures IsPage(Tx.StreamOf(State(), host).Keys, SeekFrom(after), if 1 <= n <= 1000 then n else 1000, page, more)
    {
      if host !in records { return [], false; }
      page, more := ReadPage(records[host].Keys, SeekFrom(after), ParseLimit(n));
    }

    /** One page of the DEK wraps, strictly after a cursor (0: from the start). */
    method HandleListDEK(cursor: KeyId, n: int) returns (page: seq<KeyId>, more: bool)
      ensures IsPage(dekWraps.Keys, if cursor == 0 then 0 else cursor + 1, if 1 <= n <= 1000 then n else 1000, page, more)
    {
      page, more := ReadPage(dekWraps.Keys, if cursor == 0 then 0 else cursor + 1, ParseLimit(n));
    }

    /** Every device once. */
    method HandleListDevices() returns (ids: seq<DeviceId>)
      ensures (forall d :: d in ids <==> d in devices) && (forall i, j :: 0 <= i < j < |ids| ==> ids[i] != ids[j])
    {
      ids := [];
      var rest := devices.Keys;
      while rest != {}
        invariant rest <= devices.Keys && forall d :: d in ids <==> d in devices.Keys - rest
        invariant forall i, j :: 0 <= i < j < |ids| ==> ids[i] != ids[j]
        decreases rest
      {
        var d :| d in rest;
        assert d !in ids;
        ids := ids + [d];
        rest := rest - {d};
      }
    }
  }
}
