/** A concrete interleaving in which the current version goes backwards: an approval
    prepared before a rotation arrives when the last wrap has been revoked. */
module GroupRace {
  import opened Wrappers
  import opened Crypto
  import opened Wire
  import opened Bucket
  import Tx = ServerTx
  import opened Group

  /** The states some run ends in. */
  ghost predicate Reachable(w: World) {
    exists ws: seq<World>, steps: seq<Step> :: IsRun(ws, steps) && ws[|ws| - 1] == w
  }

  lemma Extend(w: World, step: Step)
    requires Reachable(w) && Enabled(w, step) && !Regresses(w, step)
    ensures Reachable(After(w, step))
  {
    var ws: seq<World>, steps: seq<Step> :| IsRun(ws, steps) && ws[|ws| - 1] == w;
    var ws', steps' := ws + [After(w, step)], steps + [step];
    forall i | 0 <= i < |steps'| ensures Next(ws'[i], steps'[i], ws'[i + 1]) && !Regresses(ws'[i], steps'[i]) {
      if i < |steps| {
        assert Next(ws[i], steps[i], ws[i + 1]) && !Regresses(ws[i], steps[i]);
      }
    }
    assert IsRun(ws', steps');
  }

  // One step at a time, with its effect spelled out.

  lemma Prepare(w: World, t: TaskId, h: Held, target: DeviceId) returns (w': World)
    requires Reachable(w) && Holds(w, 0, h) && t !in w.tasks && target in w.srv.devices
    ensures Reachable(w') && w' == SetTask(w, t, Approving(0, h, target, w.srv.devices[target].pub))
  {
    Extend(w, BeginApprove(0, t, h, target));
    w' := After(w, BeginApprove(0, t, h, target));
  }

  lemma Revoke(w: World, t: TaskId, h: Held, target: DeviceId, hk: Key) returns (w': World)
    requires Reachable(w) && Holds(w, 0, h) && t !in w.tasks && target in w.srv.devices && hk !in w.ledger.minted
    ensures Reachable(w') && w'.srv == Tx.Revoke(w.srv, target) && w'.syncers == w.syncers
    ensures w'.tasks == w.tasks[t := Sweeping(0, h, RecoveryPub(w.srv), hk, [], 0)]
    ensures w'.ledger.minted == w.ledger.minted + {hk}
  {
    Extend(w, BeginRevoke(0, t, h, target));
    w' := SetTask(w, t, Revoking(0, h, target, RecoveryPub(w.srv)));
    Extend(w', RevokeTarget(t, hk));
    w' := RevokeThenSweep(w', t, hk);
  }

  lemma SweepNothing(w: World, t: TaskId) returns (w': World)
    requires Reachable(w) && TaskIs(w, t, (k: Task) => k.Sweeping?) && w.srv.dekWraps == map[] && w.tasks[t].out == []
    ensures var k := w.tasks[t]; Reachable(w') && w' == SetTask(w, t, Swept(k.sid, k.held, k.recPub, k.hkNew, []))
  {
    Extend(w, SweepPage(t, [], false));
    w' := SweepOne(w, t, [], false);
    assert w'.tasks[t].out == [];
  }

  lemma WrapOne(w: World, t: TaskId, d: DeviceId) returns (w': World)
    requires Reachable(w) && TaskIs(w, t, (k: Task) => k.Swept?) && ListsActive(w.srv, [d])
    ensures Reachable(w') && w' == BuildRotate(w, t, [d])
  {
    Extend(w, WrapForActive(t, [d]));
    w' := BuildRotate(w, t, [d]);
  }

  lemma Land(w: World, t: TaskId) returns (w': World)
    requires Reachable(w) && TaskIs(w, t, (k: Task) => k.Rotating?)
    ensures Reachable(w') && w' == Rotate(w, t)
  {
    Extend(w, SendRotate(t));
    w' := Rotate(w, t);
  }

  const A := Syncer("a", 1, None, map[], map[], map[])
  const H1 := Held(10, 1)
  const H2 := Held(20, 2)

  /** Machine a has formed the group; b and c are pending. */
  lemma Formed() returns (w: World)
    ensures Reachable(w)
    ensures w.srv.devices == map["a" := Device(1, Active), "b" := Device(2, Pending), "c" := Device(3, Pending)]
    ensures w.srv.hkWraps == map["a" := HKWrapFor(10, 1, "a", 1)] && w.srv.dekWraps == map[] && w.srv.hkVersion == 1
    ensures w.srv.recovery.Some? && w.syncers == map[0 := A.(hk := Some(H1))]
    ensures w.tasks == map[0 := Holding(0, H1, true)] && w.ledger.minted == {10}
  {
    hide Reachable, After, Enabled, Regresses;
    w := Registered();
    w := Form(w, 0, 0, 10, 0, 9);
    w := ActivateSelfNow(w, 0);
    w := StoreNow(w, 0);
  }

  /** Three machines have registered and a's syncer runs. */
  lemma Registered() returns (w: World)
    ensures Reachable(w) && w.ledger.minted == {} && w.tasks == map[] && w.syncers == map[0 := A]
    ensures w.srv == Tx.EMPTY.(devices := map["a" := Device(1, Pending), "b" := Device(2, Pending), "c" := Device(3, Pending)])
  {
    Start();
    hide Reachable, After, Enabled, Regresses;
    w := Register(INIT, "a", 1);
    w := Register(w, "b", 2);
    w := Register(w, "c", 3);
    w := Launch(w, 0, "a", 1);
  }

  lemma Start()
    ensures Reachable(INIT)
  {
    assert IsRun([INIT], []);
  }

  lemma Launch(w: World, sid: SyncerId, id: DeviceId, priv: PubKey) returns (w': World)
    requires Reachable(w) && sid !in w.syncers && id != ""
    ensures Reachable(w') && w' == w.(syncers := w.syncers[sid := Syncer(id, priv, None, map[], map[], map[])])
  {
    Extend(w, StartSyncer(sid, id, priv));
    w' := After(w, StartSyncer(sid, id, priv));
  }

  lemma Form(w: World, sid: SyncerId, t: TaskId, hk: Key, salt: nat, recPub: PubKey) returns (w': World)
    requires Reachable(w) && sid in w.syncers && t !in w.tasks && hk !in w.ledger.minted
    ensures Reachable(w') && w' == Bootstrap(w, sid, t, hk, salt, recPub)
  {
    Extend(w, BeginBootstrap(sid, t, hk, salt, recPub));
    w' := Bootstrap(w, sid, t, hk, salt, recPub);
  }

  lemma ActivateSelfNow(w: World, t: TaskId) returns (w': World)
    requires Reachable(w) && TaskIs(w, t, (k: Task) => k.Forming?) && w.srv.hkVersion < 1
    ensures Reachable(w') && w' == ActivateForming(w, t)
  {
    Extend(w, ActivateSelf(t));
    w' := ActivateForming(w, t);
  }

  lemma StoreNow(w: World, t: TaskId) returns (w': World)
    requires Reachable(w) && TaskIs(w, t, (k: Task) => k.Holding?)
    ensures Reachable(w') && w' == Store(w, t)
  {
    Extend(w, StoreHK(t));
    w' := Store(w, t);
  }

  /** A machine registers with the tenant's bootstrap token. */
  lemma Register(w: World, id: DeviceId, pub: PubKey) returns (w': World)
    requires Reachable(w) && id != "" && id !in w.srv.devices
    ensures Reachable(w') && w' == w.(srv := w.srv.(devices := w.srv.devices[id := Device(pub, Pending)]))
  {
    var step := Serve(Tx.ReqRegister(id, pub, 0, true), 0);
    Extend(w, step);
    w' := After(w, step);
  }

  /** a prepares b's approval, then revokes c and re-wraps the (empty) DEK set. */
  lemma SweptForC() returns (w: World)
    ensures Reachable(w)
    ensures w.srv.devices == map["a" := Device(1, Active), "b" := Device(2, Pending), "c" := Device(3, Revoked)]
    ensures w.srv.hkWraps.Keys == {"a"} && w.srv.hkVersion == 1 && w.srv.recovery.Some? && w.srv.dekWraps == map[]
    ensures w.syncers == map[0 := A.(hk := Some(H1))]
    ensures 1 in w.tasks && w.tasks[1] == Approving(0, H1, "b", 2)
    ensures 2 in w.tasks && w.tasks[2] == Swept(0, H1, Some(w.srv.recovery.value.pub), 20, [])
    ensures 3 !in w.tasks && w.ledger.minted == {10, 20}
  {
    hide Reachable, After, Enabled, Regresses;
    w := Formed();
    w := Prepare(w, 1, H1, "b");
    w := Revoke(w, 2, H1, "c", 20);
    w := SweepNothing(w, 2);
  }

  /** The new key is wrapped for a alone. */
  lemma WrappedForA() returns (w: World)
    ensures Reachable(w)
    ensures w.srv.devices == map["a" := Device(1, Active), "b" := Device(2, Pending), "c" := Device(3, Revoked)]
    ensures w.srv.hkVersion == 1 && w.srv.recovery.Some? && w.srv.dekWraps == map[]
    ensures w.syncers == map[0 := A.(hk := Some(H1))]
    ensures 1 in w.tasks && w.tasks[1] == Approving(0, H1, "b", 2)
    ensures 2 in w.tasks && 3 !in w.tasks && w.ledger.minted == {10, 20}
    ensures w.tasks[2] == Rotating(0, 20, RotateReq(2, [HKWrapFor(20, 2, "a", 1)], [],
                                                    Some(HKWrapFor(20, 2, RECOVERY_DEVICE_ID, w.srv.recovery.value.pub))))
  {
    hide Reachable, After, Enabled, Regresses;
    w := SweptForC();
    w := WrapOne(w, 2, "a");
    assert w.tasks[2].req.hkWraps == [HKWrapFor(20, 2, "a", 1)];
  }

  /** The rotation lands: version 2, held by a alone. */
  lemma Rotated() returns (w: World)
    ensures Reachable(w)
    ensures w.srv.devices == map["a" := Device(1, Active), "b" := Device(2, Pending), "c" := Device(3, Revoked)]
    ensures w.srv.hkWraps.Keys == {"a"} && w.srv.hkVersion == 2 && w.srv.recovery.Some?
    ensures w.syncers == map[0 := A.(hk := Some(H1))]
    ensures 1 in w.tasks && w.tasks[1] == Approving(0, H1, "b", 2)
    ensures 2 in w.tasks && w.tasks[2] == Holding(0, H2, true) && 3 !in w.tasks && w.ledger.minted == {10, 20}
  {
    hide Reachable, After, Enabled, Regresses;
    w := WrappedForA();
    var req := w.tasks[2].req;
    assert Tx.PutHKs(map[], req.hkWraps) == map["a" := req.hkWraps[0]];
    w := Land(w, 2);
  }

  /** a revokes itself, which leaves no wrap, and only then does the old approval land:
      it is accepted, and the group is back at version 1. */
  lemma StaleApprovalRegresses() returns (w: World, step: Step)
    ensures Reachable(w) && Enabled(w, step) && Regresses(w, step)
    ensures After(w, step).srv.hkVersion < w.srv.hkVersion
  {
    w := Rotated();
    w := Revoke(w, 3, H2, "a", 30);
    assert w.srv.hkWraps == map[];
    step := ActivateTarget(1);
  }
}
