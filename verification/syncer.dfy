/** The client's membership operations as they run when nothing else does: each a sequence of
    requests to the server that then replaces the cached key. What interleaving adds is the
    business of Group. */
module Enroll {
  import opened Wrappers
  import opened Crypto
  import opened Wire
  import opened Bucket
  import opened SyncServer
  import opened Group
  import Tx = ServerTx

  const SALT_LENGTH := 16

  /** The whole group is on one key: every active device can unwrap it, every DEK opens under
      it, and so does recovery. */
  ghost predicate On(s: Tx.State, h: Held) {
    && s.hkVersion == h.version
    && (forall d <- s.hkWraps :: d in s.devices && s.hkWraps[d] == HKWrapFor(h.hk, h.version, d, s.devices[d].pub))
    && (forall d <- s.devices :: Tx.IsActive(s.devices, d) <==> d in s.hkWraps)
    && (forall k <- s.dekWraps :: k != 0 && s.dekWraps[k].keyId == k && OpenOld(s.dekWraps[k], h).Some?)
    && (s.recovery.Some? ==> s.recovery.value.wrap.blob == WrapHK(h.hk, s.recovery.value.pub)
                             && s.recovery.value.wrap.hkVersion == h.version)
  }

  /** The same DEK identities with the same plaintexts. */
  ghost predicate SameDeks(a: map<KeyId, DEKWrap>, old': Held, b: map<KeyId, DEKWrap>, new': Held) {
    && a.Keys == b.Keys
    && forall k <- a :: OpenOld(b[k], new') == OpenOld(a[k], old') && b[k].deviceId == a[k].deviceId && b[k].epoch == a[k].epoch
  }

  predicate Filed(dekWraps: map<KeyId, DEKWrap>) {
    forall k <- dekWraps :: k != 0 && dekWraps[k].keyId == k
  }

  /** out re-wraps the first keys of the store, in key order, from the old key to the new. */
  ghost predicate Rewrapped(dekWraps: map<KeyId, DEKWrap>, out: seq<DEKWrap>, old': Held, hkNew: Key, upTo: nat) {
    && (forall i :: 0 <= i < |out| ==> out[i].keyId in dekWraps && out[i].keyId < upTo && IsRewrap(dekWraps[out[i].keyId], out[i], old', hkNew))
    && (forall i, j :: 0 <= i < j < |out| ==> out[i].keyId != out[j].keyId)
    && (forall k <- dekWraps :: k < upTo ==> exists i :: 0 <= i < |out| && out[i].keyId == k)
  }

  predicate IsRewrap(w: DEKWrap, w': DEKWrap, old': Held, hkNew: Key) {
    OpenOld(w, old').Some? && w' == ReWrap(w, old', hkNew)
  }

  lemma RewrapOpens(w: DEKWrap, w': DEKWrap, old': Held, hkNew: Key)
    requires IsRewrap(w, w', old', hkNew)
    ensures OpenOld(w', Held(hkNew, old'.version + 1)) == OpenOld(w, old')
    ensures OpenOld(w, old').Some? && w'.keyId == w.keyId && w'.deviceId == w.deviceId && w'.epoch == w.epoch && w'.hkVersion == old'.version + 1
  {
  }

  lemma CoversAll(dekWraps: map<KeyId, DEKWrap>, out: seq<DEKWrap>, old': Held, hkNew: Key, upTo: nat)
    requires Rewrapped(dekWraps, out, old', hkNew, upTo) && forall k <- dekWraps :: k < upTo
    ensures Tx.CoversExactly(dekWraps, out)
  {
    forall k <- dekWraps ensures exists w <- out :: w.keyId == k {
      var i :| 0 <= i < |out| && out[i].keyId == k;
      assert out[i] in out;
    }
  }

  lemma {:induction false} EachRewrapped(dekWraps: map<KeyId, DEKWrap>, out: seq<DEKWrap>, old': Held, hkNew: Key, upTo: nat)
    requires Rewrapped(dekWraps, out, old', hkNew, upTo) && forall k <- dekWraps :: k < upTo
    ensures var after := Tx.PutDeks(dekWraps, out);
      after.Keys == dekWraps.Keys && forall k <- dekWraps :: IsRewrap(dekWraps[k], after[k], old', hkNew)
  {
    hide IsRewrap;
    var after := Tx.PutDeks(dekWraps, out);
    Tx.PutDeksHolds(dekWraps, out);
    forall k <- after ensures k in dekWraps && IsRewrap(dekWraps[k], after[k], old', hkNew) {
      if k in dekWraps {
        var i :| 0 <= i < |out| && out[i].keyId == k;
        assert out[i] in out;
      }
      var w :| w in out && w.keyId == k && after[k] == w;
    }
  }

  /** What the store holds after the re-wrapped DEKs are put over it. */
  lemma RotatedDeks(dekWraps: map<KeyId, DEKWrap>, out: seq<DEKWrap>, old': Held, hkNew: Key, upTo: nat)
    requires Filed(dekWraps) && Rewrapped(dekWraps, out, old', hkNew, upTo) && forall k <- dekWraps :: k < upTo
    ensures var after := Tx.PutDeks(dekWraps, out);
      && SameDeks(dekWraps, old', after, Held(hkNew, old'.version + 1))
      && Filed(after) && (forall k <- after :: OpenOld(after[k], Held(hkNew, old'.version + 1)).Some?)
  {
    hide OpenOld, Rewrapped, IsRewrap;
    var after := Tx.PutDeks(dekWraps, out);
    EachRewrapped(dekWraps, out, old', hkNew, upTo);
    forall k <- dekWraps
      ensures OpenOld(after[k], Held(hkNew, old'.version + 1)) == OpenOld(dekWraps[k], old') && OpenOld(dekWraps[k], old').Some?
      ensures after[k].keyId == k && after[k].deviceId == dekWraps[k].deviceId && after[k].epoch == dekWraps[k].epoch
    {
      RewrapOpens(dekWraps[k], after[k], old', hkNew);
    }
  }

  /** wraps are one for each active device among ids[..n], sealed to its registered key. */
  ghost predicate WrapsFor(devices: map<DeviceId, Device>, ids: seq<DeviceId>, n: nat, wraps: seq<HKWrap>, hk: Key, version: int)
    requires n <= |ids|
  {
    && (forall w <- wraps :: Tx.IsActive(devices, w.deviceId) && w == HKWrapFor(hk, version, w.deviceId, devices[w.deviceId].pub))
    && (forall i :: 0 <= i < n && Tx.IsActive(devices, ids[i]) ==> exists w <- wraps :: w.deviceId == ids[i])
  }

  lemma OneMoreWrap(devices: map<DeviceId, Device>, ids: seq<DeviceId>, n: nat, wraps: seq<HKWrap>, hk: Key, version: int)
    requires n < |ids| && WrapsFor(devices, ids, n, wraps, hk, version) && Tx.IsActive(devices, ids[n])
    ensures WrapsFor(devices, ids, n + 1, wraps + [HKWrapFor(hk, version, ids[n], devices[ids[n]].pub)], hk, version)
  {
    var w := HKWrapFor(hk, version, ids[n], devices[ids[n]].pub);
    var all := wraps + [w];
    assert w in all;
    forall i | 0 <= i < n + 1 && Tx.IsActive(devices, ids[i]) ensures exists x <- all :: x.deviceId == ids[i] {
      if i < n {
        var x :| x in wraps && x.deviceId == ids[i];
        assert x in all;
      }
    }
  }

  /** The stored wraps after a rotation: exactly the active devices, each under its own key. */
  lemma RotatedWraps(devices: map<DeviceId, Device>, ids: seq<DeviceId>, wraps: seq<HKWrap>, hk: Key, version: int)
    requires WrapsFor(devices, ids, |ids|, wraps, hk, version) && forall d <- devices :: d in ids
    ensures var after := Tx.PutHKs(map[], wraps);
      && (forall d <- after :: d in devices && after[d] == HKWrapFor(hk, version, d, devices[d].pub))
      && (forall d <- devices :: Tx.IsActive(devices, d) <==> d in after)
  {
    var after := Tx.PutHKs(map[], wraps);
    Tx.PutHKsHolds(map[], wraps);
    forall d <- after ensures Tx.IsActive(devices, d) && after[d] == HKWrapFor(hk, version, d, devices[d].pub) {
      var w :| w in wraps && w.deviceId == d && after[d] == w;
    }
    forall d <- devices | Tx.IsActive(devices, d) ensures d in after {
      var i :| 0 <= i < |ids| && ids[i] == d;
      var w :| w in wraps && w.deviceId == ids[i];
    }
  }

  /** On the group's key, each active device unwraps that key and nothing else. */
  lemma ActiveDevicesResolve(s: Tx.State, h: Held, d: DeviceId)
    requires On(s, h) && Tx.IsActive(s.devices, d)
    ensures d in s.hkWraps && UnwrapHK(s.hkWraps[d].blob, s.devices[d].pub) == Some(h.hk) && s.hkWraps[d].hkVersion == h.version
  {
  }

  ghost predicate SomeoneElse(devices: map<DeviceId, Device>, target: DeviceId) {
    exists d <- devices :: d != target && Tx.IsActive(devices, d)
  }

  /** What an undisturbed revocation needs: the target is known, another device stays active,
      and the caller's key is the current one and opens every DEK. */
  ghost predicate CanRotate(s: Tx.State, h: Held, target: DeviceId) {
    && target in s.devices && SomeoneElse(s.devices, target)
    && s.hkVersion == h.version && forall k <- s.dekWraps :: OpenOld(s.dekWraps[k], h).Some?
  }

  /** The request of a revocation that is in order: accepted when the version is current, and
      then the group is on the new key with every DEK as it was. */
  lemma RotationMoves(s: Tx.State, h: Held, hkNew: Key, ids: seq<DeviceId>, wraps: seq<HKWrap>, out: seq<DEKWrap>, upTo: nat,
                      recWrap: Option<HKWrap>)
    requires Filed(s.dekWraps) && Rewrapped(s.dekWraps, out, h, hkNew, upTo) && forall k <- s.dekWraps :: k < upTo
    requires (forall d <- s.devices :: d in ids) && WrapsFor(s.devices, ids, |ids|, wraps, hkNew, h.version + 1) && wraps != []
    requires recWrap == RecoveryWrap(RecoveryPub(s), hkNew, h.version + 1)
    ensures var req := RotateReq(h.version + 1, wraps, out, recWrap); var new' := Held(hkNew, h.version + 1);
      && (Tx.RotateAccepts(s, req) <==> s.hkVersion == h.version)
      && (Tx.RotateAccepts(s, req) ==> On(Tx.Rotate(s, req), new') && SameDeks(s.dekWraps, h, Tx.Rotate(s, req).dekWraps, new'))
  {
    hide Rewrapped, OpenOld, SameDeks;
    CoversAll(s.dekWraps, out, h, hkNew, upTo);
    RotatedDeks(s.dekWraps, out, h, hkNew, upTo);
    RotatedWraps(s.devices, ids, wraps, hkNew, h.version + 1);
  }

  function RecoveryWrap(pub: Option<PubKey>, hkNew: Key, version: int): Option<HKWrap> {
    match pub
    case None => None
    case Some(p) => Some(HKWrapFor(hkNew, version, RECOVERY_DEVICE_ID, p))
  }

  lemma StillActive(s: Tx.State, target: DeviceId)
    requires target in s.devices
    ensures SomeoneElse(s.devices, target) <==> exists d <- Tx.Revoke(s, target).devices :: Tx.IsActive(Tx.Revoke(s, target).devices, d)
  {
    var s' := Tx.Revoke(s, target);
    if d :| d in s.devices && d != target && Tx.IsActive(s.devices, d) {
      assert Tx.IsActive(s'.devices, d);
    }
    if d :| d in s'.devices && Tx.IsActive(s'.devices, d) {
      assert d != target && Tx.IsActive(s.devices, d);
    }
  }

  lemma Refused(s: Tx.State, req: RotateReq)
    ensures !Tx.RotateAccepts(s, req) ==> Tx.Rotate(s, req) == s
  {
  }

  lemma Rotated(s: Tx.State, req: RotateReq)
    ensures Tx.Rotate(s, req).devices == s.devices && Tx.Rotate(s, req).records == s.records
  {
  }

  lemma TargetOut(s: Tx.State, target: DeviceId, h: Held)
    requires On(s, h) && target in s.devices && s.devices[target].status == Revoked
    ensures target !in s.hkWraps
  {
  }

  class Client {
    const deviceId: DeviceId
    const priv: PubKey
    var hk: Option<Held>
    var dekWraps: map<KeyId, DEKWrap>

    constructor (deviceId: DeviceId, priv: PubKey)
      ensures this.deviceId == deviceId && this.priv == priv && hk == None && dekWraps == map[]
    {
      this.deviceId, this.priv, hk, dekWraps := deviceId, priv, None, map[];
    }

    /** The key this client would use now: the cached one, or what its wrap holds. */
    function Resolved(srv: Server): Option<Held>
      reads this, srv
    {
      if hk.Some? then hk
      else if deviceId !in srv.hkWraps then None
      else match UnwrapHK(srv.hkWraps[deviceId].blob, priv)
        case None => None
        case Some(k) => Some(Held(k, srv.hkWraps[deviceId].hkVersion))
    }

    method ResolveHK(srv: Server) returns (h: Option<Held>)
      modifies this`hk
      ensures h == old(Resolved(srv)) && hk == h
    {
      if hk.Some? { return hk; }
      if deviceId !in srv.hkWraps { return None; }
      var wrap := srv.hkWraps[deviceId];
      match UnwrapHK(wrap.blob, priv) {
        case None => return None;
        case Some(k) =>
          hk := Some(Held(k, wrap.hkVersion));
          return hk;
      }
    }

    /** The cached DEK wraps are stale after a rotation. */
    method SetHK(k: Key, version: int)
      modifies this`hk, this`dekWraps
      ensures hk == Some(Held(k, version)) && dekWraps == map[]
    {
      hk := Some(Held(k, version));
      dekWraps := map[];
    }

    /** Form the group: install recovery first, then activate this device. */
    method Bootstrap(srv: Server, newHK: Key, salt: nat, recPub: PubKey) returns (ok: bool)
      requires deviceId in srv.devices ==> srv.devices[deviceId].pub == priv
      modifies srv, this`hk, this`dekWraps
      ensures ok <==> old(srv.recovery.None?) && old(deviceId in srv.devices && srv.devices[deviceId].status != Revoked)
                      && (old(srv.hkWraps) == map[] || old(srv.hkVersion) == BOOTSTRAP_HK_VERSION)
      ensures ok ==> hk == Some(Held(newHK, BOOTSTRAP_HK_VERSION))
      ensures !ok ==> hk == old(hk) && srv.hkWraps == old(srv.hkWraps) && srv.devices == old(srv.devices) && srv.hkVersion == old(srv.hkVersion)
      ensures ok && old(srv.hkWraps) == map[] && old(srv.dekWraps) == map[] && (forall d <- old(srv.devices) :: !Tx.IsActive(old(srv.devices), d))
              ==> On(srv.State(), Held(newHK, BOOTSTRAP_HK_VERSION)) && Tx.IsActive(srv.devices, deviceId)
    {
      var rec := Recovery(salt, recPub, HKWrapFor(newHK, BOOTSTRAP_HK_VERSION, RECOVERY_DEVICE_ID, recPub));
      var reply := srv.HandleInitRecovery(rec, SALT_LENGTH, KEY_LENGTH, KEY_LENGTH);
      if reply != Tx.Done { return false; }
      reply := srv.HandleActivate(deviceId, HKWrapFor(newHK, BOOTSTRAP_HK_VERSION, deviceId, priv));
      if reply != Tx.Done { return false; }
      SetHK(newHK, BOOTSTRAP_HK_VERSION);
      return true;
    }

    /** Admit a device under the key this client holds. */
    method Approve(srv: Server, target: DeviceId) returns (ok: bool)
      modifies srv, this`hk
      ensures ok ==> old(Resolved(srv)).Some? && target in old(srv.devices)
      ensures ok ==> srv.State() == Tx.Activate(old(srv.State()), target,
          HKWrapFor(old(Resolved(srv)).value.hk, old(Resolved(srv)).value.version, target, old(srv.devices)[target].pub))
      ensures !ok ==> srv.State() == old(srv.State())
      ensures old(Resolved(srv)).Some? && On(old(srv.State()), old(Resolved(srv)).value) && old(srv.hkWraps) != map[] ==>
          && (ok <==> target in old(srv.devices) && old(srv.devices)[target].status != Revoked)
          && On(srv.State(), old(Resolved(srv)).value) && (ok ==> Tx.IsActive(srv.devices, target))
    {
      var h := ResolveHK(srv);
      if h.None? { return false; }
      if target !in srv.devices { return false; }
      var pub := srv.devices[target].pub;
      var reply := srv.HandleActivate(target, HKWrapFor(h.value.hk, h.value.version, target, pub));
      return reply == Tx.Done;
    }

    /** Every stored DEK wrap, page by page, from the old key to the new one. */
    method ReWrapAllDEKs(srv: Server, held: Held, hkNew: Key) returns (out: Option<seq<DEKWrap>>, ghost upTo: nat)
      requires Filed(srv.dekWraps)
      ensures out.Some? <==> forall k <- srv.dekWraps :: OpenOld(srv.dekWraps[k], held).Some?
      ensures out.Some? ==> Rewrapped(srv.dekWraps, out.value, held, hkNew, upTo) && forall k <- srv.dekWraps :: k < upTo
    {
      hide OpenOld, ReWrap;
      var acc: seq<DEKWrap> := [];
      var cursor: KeyId := 0;
      upTo := 0;
      while true
        invariant upTo == PageStart(cursor)
        invariant Rewrapped(srv.dekWraps, acc, held, hkNew, upTo)
        decreases Above(srv.dekWraps.Keys, upTo)
      {
        var page, more := srv.HandleListDEK(cursor, DEK_PAGE_LIMIT);
        ghost var start := upTo;
        for i := 0 to |page|
          invariant upTo == (if i == 0 then start else page[i - 1] + 1)
          invariant Rewrapped(srv.dekWraps, acc, held, hkNew, upTo)
        {
          assert page[i] in page;
          var w := srv.dekWraps[page[i]];
          if OpenOld(w, held).None? { return None, upTo; }
          PageGap(srv.dekWraps.Keys, start, page, more, i);
          NextRewrap(srv.dekWraps, acc, held, hkNew, upTo, page[i]);
          acc := acc + [ReWrap(w, held, hkNew)];
          upTo := page[i] + 1;
        }
        if !more {
          assert forall i :: 0 <= i < |page| ==> page[i] in page;
          LastPage(srv.dekWraps.Keys, start, page, upTo);
          AllOpen(srv.dekWraps, acc, held, hkNew, upTo);
          return Some(acc), upTo;
        }
        assert |page| == DEK_PAGE_LIMIT;
        cursor := page[|page| - 1];
        assert page[0] in page && page[|page| - 1] in page;
        assert page[0] in Above(srv.dekWraps.Keys, start) && page[0] !in Above(srv.dekWraps.Keys, upTo);
      }
    }

    /** Take a device out and move the group to a new key: revoke, re-wrap every DEK, wrap the
        new key for the devices still active and for recovery, and rotate all of it at once. */
    method Revoke(srv: Server, target: DeviceId, hkNew: Key) returns (ok: bool)
      requires Filed(srv.dekWraps)
      modifies srv, this`hk, this`dekWraps
      ensures !ok ==> srv.State() == old(srv.State()) || srv.State() == Tx.Revoke(old(srv.State()), target)
      ensures ok ==> old(Resolved(srv)).Some? && hk == Some(Held(hkNew, old(Resolved(srv)).value.version + 1)) && dekWraps == map[]
      ensures ok <==> old(Resolved(srv)).Some? && CanRotate(old(srv.State()), old(Resolved(srv)).value, target)
      ensures ok ==> On(srv.State(), hk.value)
      ensures ok ==> srv.devices == Tx.Revoke(old(srv.State()), target).devices && target !in srv.hkWraps && srv.records == old(srv.records)
      ensures ok ==> SameDeks(old(srv.dekWraps), old(Resolved(srv)).value, srv.dekWraps, hk.value)
    {
      hide On, SameDeks, Filed, Rewrapped, WrapsFor, SomeoneElse, OpenOld, Tx.Rotate, Tx.RotateAccepts;
      var h := ResolveHK(srv);
      if h.None? { return false; }
      var recPub := if srv.recovery.Some? then Some(srv.recovery.value.pub) else None;
      var reply := srv.HandleRevoke(target);
      if reply != Tx.Done { return false; }
      StillActive(old(srv.State()), target);
      var out, upTo := ReWrapAllDEKs(srv, h.value, hkNew);
      if out.None? { return false; }
      var version := h.value.version + 1;
      var wraps, ids := WrapForActives(srv, hkNew, version);
      if |wraps| == 0 { return false; }
      var req := RotateReq(version, wraps, out.value, RecoveryWrap(recPub, hkNew, version));
      RotationMoves(srv.State(), h.value, hkNew, ids, wraps, out.value, upTo, req.recoveryWrap);
      ghost var revoked := srv.State();
      reply := srv.HandleRotate(req);
      if reply != Tx.Done {
        Refused(revoked, req);
        return false;
      }
      Rotated(revoked, req);
      SetHK(hkNew, version);
      TargetOut(srv.State(), target, hk.value);
      return true;
    }

    method WrapForActives(srv: Server, hkNew: Key, version: int) returns (wraps: seq<HKWrap>, ghost listed: seq<DeviceId>)
      ensures (forall d <- srv.devices :: d in listed) && WrapsFor(srv.devices, listed, |listed|, wraps, hkNew, version)
      ensures wraps != [] <==> exists d <- srv.devices :: Tx.IsActive(srv.devices, d)
    {
      var ids := srv.HandleListDevices();
      listed := ids;
      wraps := [];
      for i := 0 to |ids|
        invariant WrapsFor(srv.devices, ids, i, wraps, hkNew, version)
      {
        assert ids[i] in ids;
        if srv.devices[ids[i]].status != Active { continue; }
        OneMoreWrap(srv.devices, ids, i, wraps, hkNew, version);
        wraps := wraps + [HKWrapFor(hkNew, version, ids[i], srv.devices[ids[i]].pub)];
      }
      if d :| d in srv.devices && Tx.IsActive(srv.devices, d) {
        var i :| 0 <= i < |ids| && ids[i] == d;
        assert wraps != [];
      }
      assert wraps != [] ==> wraps[0] in wraps;
    }
  }

  /** Between neighbouring entries of a page there is no key. */
  lemma PageGap(all: set<nat>, from: nat, page: seq<nat>, more: bool, i: nat)
    requires IsPage(all, from, DEK_PAGE_LIMIT, page, more) && i < |page|
    ensures var lo := if i == 0 then from else page[i - 1] + 1;
      && lo <= page[i] && forall k <- all :: !(lo <= k < page[i])
  {
    var lo := if i == 0 then from else page[i - 1] + 1;
    assert page[i] in page;
    forall k <- all ensures !(lo <= k < page[i]) {
      if k in page {
        var j :| 0 <= j < |page| && page[j] == k;
        if j < i {
          assert j == i - 1 || page[j] < page[i - 1];
        } else {
          assert j == i || page[i] < page[j];
        }
      } else if from <= k {
        assert page[i] < k;
      } else if i > 0 {
        assert page[i - 1] in page;
      }
    }
  }

  lemma LastPage(all: set<nat>, from: nat, page: seq<nat>, upTo: nat)
    requires IsPage(all, from, DEK_PAGE_LIMIT, page, false) && upTo == (if page == [] then from else page[|page| - 1] + 1)
    requires forall i :: 0 <= i < |page| ==> page[i] >= from
    ensures forall k <- all :: k >= from ==> k < upTo
    ensures upTo >= from
  {
    forall k <- all | k >= from ensures k < upTo {
      assert k in page;
      var j :| 0 <= j < |page| && page[j] == k;
      assert j < |page| - 1 || j == |page| - 1;
    }
  }

  lemma NextRewrap(dekWraps: map<KeyId, DEKWrap>, out: seq<DEKWrap>, held: Held, hkNew: Key, upTo: nat, k: KeyId)
    requires Filed(dekWraps) && Rewrapped(dekWraps, out, held, hkNew, upTo)
    requires k in dekWraps && upTo <= k && (forall x <- dekWraps :: !(upTo <= x < k)) && OpenOld(dekWraps[k], held).Some?
    ensures Rewrapped(dekWraps, out + [ReWrap(dekWraps[k], held, hkNew)], held, hkNew, k + 1)
  {
    hide OpenOld;
    var w := ReWrap(dekWraps[k], held, hkNew);
    var out' := out + [w];
    assert w.keyId == k && out'[|out|] == w;
    forall x <- dekWraps | x < k + 1 ensures exists i :: 0 <= i < |out'| && out'[i].keyId == x {
      if x < k {
        var i :| 0 <= i < |out| && out[i].keyId == x;
        assert out'[i].keyId == x;
      }
    }
  }

  lemma AllOpen(dekWraps: map<KeyId, DEKWrap>, out: seq<DEKWrap>, held: Held, hkNew: Key, upTo: nat)
    requires Rewrapped(dekWraps, out, held, hkNew, upTo) && forall k <- dekWraps :: k < upTo
    ensures forall k <- dekWraps :: OpenOld(dekWraps[k], held).Some?
  {
    forall k <- dekWraps ensures OpenOld(dekWraps[k], held).Some? {
      var i :| 0 <= i < |out| && out[i].keyId == k;
    }
  }
}
