/** Ideal cryptography. A sealed blob is a term: it opens only under the key (or
    key pair) it was sealed to and, for AEAD seals, only when the additional data
    presented is the additional data bound at seal time. Additional data stays
    structured. Every open tries the current domain separator first and then the
    legacy one; every seal uses the current one. */
module Crypto {
  import opened Wrappers

  /** A symmetric key: a History Key or a data encryption key (DEK). */
  type Key = nat

  /** An X25519 key pair, named by its public half. */
  type PubKey = nat

  /** A DEK identifier. Identifiers are ULIDs, whose byte order is the numeric
      order of the 128-bit value; 0 stands for the empty string. */
  type KeyId = nat

  datatype Domain = Current | Legacy

  datatype DekAAD = DekAAD(keyId: KeyId, deviceId: string, epoch: int, hkVersion: int)

  datatype RecordAAD = RecordAAD(recordId: string, hostId: string, seqNo: nat, keyId: KeyId)

  /** The plaintext of a sealed record: every meaningful field travels encrypted. */
  datatype Payload = Payload(
    v: int, id: string, hostId: string, hostname: string, session: string, cmd: string, cwd: string,
    exit: Option<int>, durMs: Option<int>, startMs: int, executor: string, kind: string,
    targetId: string, promptId: string, prompt: string, tagName: string, tagDesc: string, tagOp: string)

  datatype Blob =
    | BoxedHK(domain: Domain, recipient: PubKey, hk: Key)
    | SealedDek(domain: Domain, key: Key, dekAad: DekAAD, dek: Key)
    | SealedRecord(domain: Domain, key: Key, recAad: RecordAAD, payload: Payload)
    | Bytes(raw: seq<int>)  // anything that is not the output of a seal

  function WrapHK(hk: Key, recipient: PubKey): Blob {
    BoxedHK(Current, recipient, hk)
  }

  function OpenBox(domain: Domain, blob: Blob, k: PubKey): Option<Key> {
    match blob
    case BoxedHK(d, r, hk) => if d == domain && r == k then Some(hk) else None
    case _ => None
  }

  function UnwrapHK(blob: Blob, k: PubKey): Option<Key> {
    match OpenBox(Current, blob, k)
    case Some(hk) => Some(hk)
    case None => OpenBox(Legacy, blob, k)
  }

  function WrapDEK(dek: Key, hk: Key, aad: DekAAD): Blob {
    SealedDek(Current, hk, aad, dek)
  }

  function OpenDek(domain: Domain, blob: Blob, hk: Key, aad: DekAAD): Option<Key> {
    match blob
    case SealedDek(d, k, a, dek) => if d == domain && k == hk && a == aad then Some(dek) else None
    case _ => None
  }

  function UnwrapDEK(blob: Blob, hk: Key, aad: DekAAD): Option<Key> {
    match OpenDek(Current, blob, hk, aad)
    case Some(dek) => Some(dek)
    case None => OpenDek(Legacy, blob, hk, aad)
  }

  function SealRecord(pt: Payload, dek: Key, aad: RecordAAD): Blob {
    SealedRecord(Current, dek, aad, pt)
  }

  function OpenSealed(domain: Domain, blob: Blob, dek: Key, aad: RecordAAD): Option<Payload> {
    match blob
    case SealedRecord(d, k, a, pt) => if d == domain && k == dek && a == aad then Some(pt) else None
    case _ => None
  }

  function OpenRecord(blob: Blob, dek: Key, aad: RecordAAD): Option<Payload> {
    match OpenSealed(Current, blob, dek, aad)
    case Some(pt) => Some(pt)
    case None => OpenSealed(Legacy, blob, dek, aad)
  }

  // ---- what opens ----

  /** A sealed History Key opens under the key pair it was sealed to and no other, whichever of the
      two domains it was sealed in. */
  lemma BoxOpensIff(blob: Blob, k: PubKey, hk: Key)
    ensures UnwrapHK(blob, k) == Some(hk) <==> blob == BoxedHK(Current, k, hk) || blob == BoxedHK(Legacy, k, hk)
  {
  }

  /** A wrapped DEK opens under its History Key and for exactly the additional data it was sealed
      with, in either domain. */
  lemma DekOpensIff(blob: Blob, hk: Key, aad: DekAAD, dek: Key)
    ensures UnwrapDEK(blob, hk, aad) == Some(dek) <==> blob == SealedDek(Current, hk, aad, dek) || blob == SealedDek(Legacy, hk, aad, dek)
  {
  }

  /** A record opens under its DEK and only as the record, on the host and at the position it was
      sealed for. */
  lemma RecordOpensIff(blob: Blob, dek: Key, aad: RecordAAD, pt: Payload)
    ensures OpenRecord(blob, dek, aad) == Some(pt) <==> blob == SealedRecord(Current, dek, aad, pt) || blob == SealedRecord(Legacy, dek, aad, pt)
  {
  }

  /** Everything is sealed in the current domain, and opens with what it was sealed with. */
  lemma SealsAreCurrent(hk: Key, k: PubKey, dek: Key, aad: DekAAD, pt: Payload, at: RecordAAD)
    ensures WrapHK(hk, k) == BoxedHK(Current, k, hk) && UnwrapHK(WrapHK(hk, k), k) == Some(hk)
    ensures WrapDEK(dek, hk, aad) == SealedDek(Current, hk, aad, dek) && UnwrapDEK(WrapDEK(dek, hk, aad), hk, aad) == Some(dek)
    ensures SealRecord(pt, dek, at) == SealedRecord(Current, dek, at, pt) && OpenRecord(SealRecord(pt, dek, at), dek, at) == Some(pt)
  {
  }
}
