/** Entities stored by the sync server and carried by its requests, and the
    record as the client knows it. */
module Wire {
  import opened Wrappers
  import opened Crypto

  type DeviceId = string
  type HostId = string
  type TokenHash = nat

  const TYPE_DELETE := "delete"
  const TYPE_TAG := "tag"
  const TYPE_PROMPT := "prompt"

  const RECOVERY_DEVICE_ID: DeviceId := "recovery"

  datatype Status = Pending | Active | Revoked

  datatype Device = Device(pub: PubKey, status: Status)

  /** The History Key sealed to one device's public key. */
  datatype HKWrap = HKWrap(deviceId: DeviceId, blob: Blob, hkVersion: int)

  /** One DEK sealed under the History Key. */
  datatype DEKWrap = DEKWrap(keyId: KeyId, deviceId: DeviceId, epoch: int, blob: Blob, hkVersion: int) {
    /** The additional data an unwrap presents, taken from the wrap's own fields. */
    function Aad(): DekAAD { DekAAD(keyId, deviceId, epoch, hkVersion) }
  }

  /** Recovery material: the recovery public key and the History Key sealed to it. */
  datatype Recovery = Recovery(salt: nat, pub: PubKey, wrap: HKWrap)

  datatype RotateReq = RotateReq(hkVersion: int, hkWraps: seq<HKWrap>, dekWraps: seq<DEKWrap>,
                                 recoveryWrap: Option<HKWrap>)

  datatype PushRecord = PushRecord(seqNo: nat, id: string, keyId: KeyId, blob: Blob)

  datatype StoredRecord = StoredRecord(id: string, keyId: KeyId, blob: Blob, createdMs: int)

  /** A single-use enrollment token; only its hash is known to the server. */
  datatype Token = Token(createdMs: int, expiresMs: int, claimedMs: int, claimedBy: DeviceId, revokedMs: int)

  /** A history record as spooled, stored and synced. */
  datatype Record = Record(
    id: string, kind: string, targetId: string, hostId: HostId, hostname: string, seqNo: nat,
    session: string, cmd: string, cwd: string, exit: Option<int>, durMs: Option<int>, startMs: int,
    executor: string, promptId: string, prompt: string, tagName: string, tagDesc: string, tagOp: string,
    tags: seq<string>, deletedMs: int, keyId: KeyId)

  function MarshalPayload(r: Record): Payload {
    Payload(2, r.id, r.hostId, r.hostname, r.session, r.cmd, r.cwd, r.exit, r.durMs, r.startMs, r.executor,
            r.kind, r.targetId, r.promptId, r.prompt, r.tagName, r.tagDesc, r.tagOp)
  }

  function RecordFromPayload(p: Payload, hostId: HostId, seqNo: nat, keyId: KeyId): Record {
    Record(p.id, p.kind, p.targetId, hostId, p.hostname, seqNo, p.session, p.cmd, p.cwd, p.exit, p.durMs,
           p.startMs, p.executor, p.promptId, p.prompt, p.tagName, p.tagDesc, p.tagOp, [], 0, keyId)
  }
}
