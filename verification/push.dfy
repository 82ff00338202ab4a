/** Uploading a host's own log: the watermark loop, the size-bounded batches and the
    halving retry, over a network that may lose an answer after the request committed and
    may deliver any request it was ever given again and late. */
module Push {
  import opened Wrappers
  import opened Crypto
  import opened Wire
  import Tx = ServerTx

  const PUSH_BATCH_LIMIT := 1000
  const MAX_PUSH_BYTES := 8 * 1024 * 1024
  const SCAFFOLDING := 64
  const KEY_ID_LENGTH := 26  // the text of a ULID

  /** What the client learns from one request. */
  datatype Outcome = Acked | Refused(status: int) | Unreachable

  predicate RetryableSmaller(o: Outcome) {
    o == Refused(413) || o == Refused(400)
  }

  /** Why an upload stopped: it did not, a DEK was not to be had, or a request of that many records
      came back like that. */
  datatype Failure = Went | NoDek | Sending(outcome: Outcome, size: nat)

  /** The bodies tried from n records down to `last`, each half of the one before. */
  function Tries(recs: seq<PushRecord>, n: nat, last: nat): seq<seq<PushRecord>> {
    if n > |recs| then []
    else [recs[..n]] + if n <= last || n <= 1 then [] else Tries(recs, n / 2, last)
  }

  predicate Pushable(r: Record, syncPrompts: bool) {
    r.kind != TYPE_PROMPT || syncPrompts
  }

  /** The record as sealed for the wire, under some DEK. */
  function Seal(r: Record, keyId: KeyId, dek: Key): PushRecord {
    PushRecord(r.seqNo, r.id, keyId, SealRecord(MarshalPayload(r), dek, RecordAAD(r.id, r.hostId, r.seqNo, keyId)))
  }

  /** x is r's sealed form, whichever DEK sealed it. */
  predicate Carries(x: StoredRecord, r: Record) {
    && x.id == r.id
    && x.blob.SealedRecord? && x.blob.payload == MarshalPayload(r)
    && x.blob.recAad == RecordAAD(r.id, r.hostId, r.seqNo, x.keyId)
  }

  predicate Ordered(rows: seq<Record>) {
    forall i, j :: 0 <= i < j < |rows| ==> rows[i].seqNo < rows[j].seqNo
  }

  /** The first row after the given position. */
  function FirstAfter(rows: seq<Record>, seqNo: nat): (n: nat)
    requires Ordered(rows)
    ensures n <= |rows|
    ensures forall i :: 0 <= i < |rows| ==> (i < n <==> rows[i].seqNo <= seqNo)
  {
    if rows == [] then 0
    else
      var n := FirstAfter(rows[..|rows| - 1], seqNo);
      assert forall i :: 0 <= i < |rows| - 1 ==> rows[i] == rows[..|rows| - 1][i];
      if n == |rows| - 1 && rows[|rows| - 1].seqNo <= seqNo then |rows| else n
  }

  /** store.Since with a limit. */
  function Since(rows: seq<Record>, seqNo: nat, limit: nat): seq<Record>
    requires Ordered(rows)
  {
    var n := FirstAfter(rows, seqNo);
    rows[n..if n + limit < |rows| then n + limit else |rows|]
  }

  /** The rows after a position, from the first on, as many as asked for. */
  lemma SinceIs(rows: seq<Record>, seqNo: nat, limit: nat)
    requires Ordered(rows)
    ensures var out := Since(rows, seqNo, limit);
      && (forall i :: 0 <= i < |out| ==> out[i] in rows && out[i].seqNo > seqNo)
      && |out| <= limit
      && (forall r <- rows :: r.seqNo > seqNo && r !in out ==> |out| == limit && forall x <- out :: x.seqNo < r.seqNo)
  {
    var n := FirstAfter(rows, seqNo);
    var e := if n + limit < |rows| then n + limit else |rows|;
    hide FirstAfter;
    Window(rows, n, e);
    forall r <- rows | r.seqNo > seqNo && r !in rows[n..e] ensures e - n == limit && forall x <- rows[n..e] :: x.seqNo < r.seqNo {
      var j :| 0 <= j < |rows| && rows[j] == r;
      assert j >= e;
    }
  }

  /** What lies in a window of the rows, and that it comes before what follows. */
  lemma Window(rows: seq<Record>, n: nat, e: nat)
    requires Ordered(rows) && n <= e <= |rows|
    ensures forall i :: 0 <= i < e - n ==> rows[n..e][i] in rows && rows[n..e][i] == rows[n + i]
    ensures forall j :: n <= j < e ==> rows[j] in rows[n..e]
    ensures forall j, x :: e <= j < |rows| && x in rows[n..e] ==> x.seqNo < rows[j].seqNo
  {
    forall j | n <= j < e ensures rows[j] in rows[n..e] {
      assert rows[n..e][j - n] == rows[j];
    }
    forall j, x | e <= j < |rows| && x in rows[n..e] ensures x.seqNo < rows[j].seqNo {
      var i :| 0 <= i < e - n && rows[n..e][i] == x;
      assert rows[n + i].seqNo < rows[j].seqNo;
    }
  }

  /** The stream holds exactly the pushable rows up to position m, each as pushed. */
  ghost predicate Exact(local: seq<Record>, stream: Tx.Stream, sync: bool, m: nat) {
    && (forall q <- stream :: exists i :: 0 <= i < |local| && Holds(local[i], q, stream[q], sync) && q <= m)
    && (forall i :: 0 <= i < |local| && Pushable(local[i], sync) && local[i].seqNo <= m ==> local[i].seqNo in stream)
  }

  predicate Holds(r: Record, q: nat, x: StoredRecord, sync: bool) {
    r.seqNo == q && Pushable(r, sync) && Carries(x, r)
  }

  /** Nothing stored is changed, and everything new comes after everything old. */
  ghost predicate Extends(a: Tx.Stream, b: Tx.Stream) {
    && (forall q <- a :: q in b && b[q] == a[q])
    && (forall q <- b :: q !in a ==> forall p <- a :: p < q)
  }

  /** recs are the sealed forms of the pushable rows of batch[..n], in order; src says which. */
  ghost predicate SealedPrefix(batch: seq<Record>, n: nat, recs: seq<PushRecord>, src: seq<nat>, sync: bool) {
    && n <= |batch| && |recs| == |src|
    && (forall k :: 0 <= k < |src| ==> src[k] < n && Pushable(batch[src[k]], sync))
    && (forall k :: 0 <= k < |src| ==> SealOf(recs[k], batch[src[k]]))
    && (forall k, l :: 0 <= k < l < |src| ==> src[k] < src[l])
    && (forall i :: 0 <= i < n && Pushable(batch[i], sync) ==> i in src)
  }

  predicate SealOf(p: PushRecord, r: Record) {
    p.seqNo == r.seqNo && Carries(StoredRecord(p.id, p.keyId, p.blob, 0), r)
  }

  // ---- what a commit does ----

  /** A batch taken after the watermark and a sealed prefix of it. */
  ghost predicate Sealed(local: seq<Record>, wm: nat, sync: bool, batch: seq<Record>, n: nat, recs: seq<PushRecord>, src: seq<nat>) {
    && Ordered(local) && batch == Since(local, wm, PUSH_BATCH_LIMIT) && SealedPrefix(batch, n, recs, src, sync)
  }

  /** Which local row a sealed record comes from. */
  lemma SealedRow(local: seq<Record>, wm: nat, sync: bool, batch: seq<Record>, n: nat, recs: seq<PushRecord>, src: seq<nat>, l: nat)
    returns (i: nat)
    requires Sealed(local, wm, sync, batch, n, recs, src) && l < |recs|
    ensures i == FirstAfter(local, wm) + src[l] < |local| && local[i].seqNo == recs[l].seqNo
    ensures Pushable(local[i], sync) && local[i].seqNo > wm && SealOf(recs[l], local[i]) && local[i] == batch[src[l]]
  {
    i := FirstAfter(local, wm) + src[l];
    assert SealOf(recs[l], batch[src[l]]);
  }

  /** Every pushable row of the prefix has been sealed. */
  lemma RowSealed(local: seq<Record>, wm: nat, sync: bool, batch: seq<Record>, n: nat, recs: seq<PushRecord>, src: seq<nat>, i: nat)
    returns (l: nat)
    requires Sealed(local, wm, sync, batch, n, recs, src) && n > 0
    requires i < |local| && Pushable(local[i], sync) && wm < local[i].seqNo <= batch[n - 1].seqNo
    ensures l < |recs| && recs[l].seqNo == local[i].seqNo
  {
    var f := FirstAfter(local, wm);
    assert batch[n - 1] == local[f + n - 1];
    assert f <= i <= f + n - 1;
    assert batch[i - f] == local[i];
    l :| 0 <= l < |src| && src[l] == i - f;
    assert SealOf(recs[l], batch[src[l]]);
  }

  lemma SealedOrder(local: seq<Record>, wm: nat, sync: bool, batch: seq<Record>, n: nat, recs: seq<PushRecord>, src: seq<nat>, a: nat, b: nat)
    requires Sealed(local, wm, sync, batch, n, recs, src) && a < |recs| && b < |recs|
    ensures recs[a].seqNo < recs[b].seqNo <==> a < b
    ensures n > 0 && recs[a].seqNo <= batch[n - 1].seqNo
  {
    hide SealOf, Carries, Pushable;
    var i := SealedRow(local, wm, sync, batch, n, recs, src, a);
    var j := SealedRow(local, wm, sync, batch, n, recs, src, b);
    var f := FirstAfter(local, wm);
    assert batch[n - 1] == local[f + n - 1];
    assert src[a] <= n - 1;
    if a < b {
      assert src[a] < src[b];
    } else if b < a {
      assert src[b] < src[a];
    }
  }

  // ---- requests on the wire ----

  /** A sealed record and the row after wm it comes from. */
  predicate SealedAfter(p: PushRecord, r: Record, wm: nat, sync: bool) {
    SealOf(p, r) && Pushable(r, sync) && r.seqNo > wm
  }

  /** A request body: the sealed pushable rows after wm, in order, none left out up to the last. */
  ghost predicate IsRun(local: seq<Record>, wm: nat, sync: bool, recs: seq<PushRecord>) {
    && recs != []
    && (forall l :: 0 <= l < |recs| ==> exists i :: 0 <= i < |local| && SealedAfter(recs[l], local[i], wm, sync))
    && (forall a, b :: 0 <= a < b < |recs| ==> recs[a].seqNo < recs[b].seqNo)
    && (forall i :: 0 <= i < |local| && Pushable(local[i], sync) && wm < local[i].seqNo <= recs[|recs| - 1].seqNo ==>
        exists l :: 0 <= l < |recs| && recs[l].seqNo == local[i].seqNo)
  }

  /** A body that starts no later than right after a point the stream covers. */
  ghost predicate Sendable(local: seq<Record>, m: nat, sync: bool, recs: seq<PushRecord>) {
    exists wm: nat :: wm <= m && IsRun(local, wm, sync, recs)
  }

  /** Any non-empty prefix of a sealed batch is a run. */
  lemma SealedIsRun(local: seq<Record>, wm: nat, sync: bool, batch: seq<Record>, n: nat, recs: seq<PushRecord>, src: seq<nat>, k: nat)
    requires Sealed(local, wm, sync, batch, n, recs, src) && 0 < k <= |recs|
    ensures IsRun(local, wm, sync, recs[..k])
  {
    hide Sealed, SealOf, Carries, Pushable, FirstAfter;
    var last := recs[k - 1].seqNo;
    forall l | 0 <= l < k ensures exists i :: 0 <= i < |local| && SealedAfter(recs[..k][l], local[i], wm, sync) {
      var i := SealedRow(local, wm, sync, batch, n, recs, src, l);
      assert SealedAfter(recs[..k][l], local[i], wm, sync);
    }
    forall a, b | 0 <= a < b < k ensures recs[..k][a].seqNo < recs[..k][b].seqNo {
      SealedOrder(local, wm, sync, batch, n, recs, src, a, b);
    }
    forall i | 0 <= i < |local| && Pushable(local[i], sync) && wm < local[i].seqNo <= last
      ensures exists l :: 0 <= l < k && recs[..k][l].seqNo == local[i].seqNo
    {
      SealedOrder(local, wm, sync, batch, n, recs, src, k - 1, k - 1);
      var l := RowSealed(local, wm, sync, batch, n, recs, src, i);
      SealedOrder(local, wm, sync, batch, n, recs, src, k - 1, l);
      assert recs[..k][l].seqNo == local[i].seqNo;
    }
  }

  lemma RunRow(local: seq<Record>, wm: nat, sync: bool, recs: seq<PushRecord>, l: nat) returns (i: nat)
    requires IsRun(local, wm, sync, recs) && l < |recs|
    ensures i < |local| && SealedAfter(recs[l], local[i], wm, sync)
    ensures recs != [] && recs[l].seqNo <= recs[|recs| - 1].seqNo
  {
    hide SealedAfter;
    assert l < |recs| - 1 ==> recs[l].seqNo < recs[|recs| - 1].seqNo;
    i :| 0 <= i < |local| && SealedAfter(recs[l], local[i], wm, sync);
  }

  lemma RunCovers(local: seq<Record>, wm: nat, sync: bool, recs: seq<PushRecord>, i: nat) returns (l: nat)
    requires IsRun(local, wm, sync, recs)
    requires i < |local| && Pushable(local[i], sync) && local[i].seqNo > wm
    requires recs != [] ==> local[i].seqNo <= recs[|recs| - 1].seqNo
    ensures l < |recs| && recs[l].seqNo == local[i].seqNo
  {
    hide SealedAfter, Pushable;
    l :| 0 <= l < |recs| && recs[l].seqNo == local[i].seqNo;
  }

  /** A run that starts right after a point the stream covers extends the stream, whatever
      part of it was already there and however late it arrives. */
  lemma RunKeepsExact(local: seq<Record>, stream: Tx.Stream, sync: bool, m: nat, wm: nat, recs: seq<PushRecord>, now: int)
    requires Exact(local, stream, sync, m) && wm <= m && IsRun(local, wm, sync, recs) && recs != []
    ensures var stream' := Tx.PutNewRecords(stream, recs, now);
      Exact(local, stream', sync, Later(recs[|recs| - 1].seqNo, m)) && Extends(stream, stream')
  {
    hide IsRun, SealOf, Carries, Pushable;
    var last := recs[|recs| - 1].seqNo;
    var stream' := Tx.PutNewRecords(stream, recs, now);
    Tx.PutNewRecordsHolds(stream, recs, now);
    forall q <- stream'
      ensures exists i :: 0 <= i < |local| && Holds(local[i], q, stream'[q], sync) && q <= Later(last, m)
      ensures q !in stream ==> q > m
    {
      if q in stream {
        var i :| 0 <= i < |local| && Holds(local[i], q, stream[q], sync) && q <= m;
      } else {
        var i := ArrivedRow(local, wm, sync, recs, q, stream'[q], now);
        assert local[i].seqNo == q && Pushable(local[i], sync);
      }
    }
    forall i | 0 <= i < |local| && Pushable(local[i], sync) && local[i].seqNo <= Later(last, m)
      ensures local[i].seqNo in stream'
    {
      if local[i].seqNo > m {
        var l := RunCovers(local, wm, sync, recs, i);
      }
    }
    forall q <- stream', p <- stream | q !in stream ensures p < q {
      assert exists i :: 0 <= i < |local| && Holds(local[i], p, stream[p], sync) && p <= m;
    }
  }

  lemma ArrivedRow(local: seq<Record>, wm: nat, sync: bool, recs: seq<PushRecord>, q: nat, x: StoredRecord, now: int) returns (i: nat)
    requires IsRun(local, wm, sync, recs) && recs != []
    requires exists p <- recs :: p.seqNo == q && x == Tx.Stored(p, now)
    ensures i < |local| && Holds(local[i], q, x, sync) && q <= recs[|recs| - 1].seqNo
  {
    var p :| p in recs && p.seqNo == q && x == Tx.Stored(p, now);
    var l :| 0 <= l < |recs| && recs[l] == p;
    hide IsRun;
    i := RunRow(local, wm, sync, recs, l);
  }

  /** The last record of a run is one of the rows. */
  lemma RunEnds(local: seq<Record>, wm: nat, sync: bool, recs: seq<PushRecord>)
    requires IsRun(local, wm, sync, recs)
    ensures recs != [] && exists i :: 0 <= i < |local| && local[i].seqNo == recs[|recs| - 1].seqNo
  {
    var i := RunRow(local, wm, sync, recs, |recs| - 1);
    assert local[i].seqNo == recs[|recs| - 1].seqNo;
  }

  /** A new row does not disturb a request still on the wire. */
  lemma SendableLater(local: seq<Record>, m: nat, sync: bool, recs: seq<PushRecord>, r: Record)
    requires Sendable(local, m, sync, recs) && forall i :: 0 <= i < |local| ==> local[i].seqNo < r.seqNo
    ensures Sendable(local + [r], m, sync, recs)
  {
    hide Pushable, SealOf;
    var wm: nat :| wm <= m && IsRun(local, wm, sync, recs);
    RunEnds(local, wm, sync, recs);
    var local' := local + [r];
    forall l | 0 <= l < |recs| ensures exists i :: 0 <= i < |local'| && SealedAfter(recs[l], local'[i], wm, sync) {
      var i := RunRow(local, wm, sync, recs, l);
      assert SealedAfter(recs[l], local'[i], wm, sync);
    }
    forall i | 0 <= i < |local'| && Pushable(local'[i], sync) && wm < local'[i].seqNo <= recs[|recs| - 1].seqNo
      ensures exists l :: 0 <= l < |recs| && recs[l].seqNo == local'[i].seqNo
    {
      assert i < |local| && local'[i] == local[i];
      var l := RunCovers(local, wm, sync, recs, i);
    }
    assert IsRun(local', wm, sync, recs);
  }

  // ---- what a stream has been ----

  /** Some point up to which the stream held exactly the pushable rows. */
  ghost predicate Reached(local: seq<Record>, s: Tx.Stream, sync: bool) {
    exists m: nat :: Within(local, m) && Exact(local, s, sync, m)
  }

  /** Every value the stream ever had: each a prefix of the pushable rows, each extended by
      all that came later. */
  ghost predicate Lived(local: seq<Record>, past: seq<Tx.Stream>, sync: bool) {
    && past != []
    && (forall i, j :: 0 <= i <= j < |past| ==> Extends(past[i], past[j]))
    && (forall i :: 0 <= i < |past| ==> Reached(local, past[i], sync))
  }

  lemma LivesOn(local: seq<Record>, past: seq<Tx.Stream>, sync: bool, s: Tx.Stream)
    requires Lived(local, past, sync) && Extends(past[|past| - 1], s) && Reached(local, s, sync)
    ensures Lived(local, past + [s], sync)
  {
    hide Reached, Extends;
    var past' := past + [s];
    forall i, j | 0 <= i <= j < |past'| ensures Extends(past'[i], past'[j]) {
      if j < |past| {
        assert Extends(past[i], past[j]);
      } else if i < |past| {
        ExtendsTransitive(past[i], past[|past| - 1], s);
      } else {
        ExtendsReflexive(s);
      }
    }
  }

  lemma ExactLater(local: seq<Record>, s: Tx.Stream, sync: bool, m: nat, r: Record)
    requires Exact(local, s, sync, m) && Within(local, m)
    requires r.seqNo > 0 && forall i :: 0 <= i < |local| ==> local[i].seqNo < r.seqNo
    ensures Exact(local + [r], s, sync, m) && Within(local + [r], m)
  {
    var local' := local + [r];
    forall q <- s ensures exists i :: 0 <= i < |local'| && Holds(local'[i], q, s[q], sync) && q <= m {
      var i :| 0 <= i < |local| && Holds(local[i], q, s[q], sync) && q <= m;
      assert local'[i] == local[i];
    }
    assert m < r.seqNo && local'[|local|] == r;
  }

  lemma ReachedLater(local: seq<Record>, s: Tx.Stream, sync: bool, r: Record)
    requires Reached(local, s, sync)
    requires r.seqNo > 0 && forall i :: 0 <= i < |local| ==> local[i].seqNo < r.seqNo
    ensures Reached(local + [r], s, sync)
  {
    hide Exact, Within;
    var m: nat :| Within(local, m) && Exact(local, s, sync, m);
    ExactLater(local, s, sync, m, r);
  }

  lemma LaterIs(a: nat, b: nat)
    ensures Later(a, b) >= a && Later(a, b) >= b
  {
  }

  function Later(a: nat, b: nat): nat {
    if a > b then a else b
  }

  /** A prefix of a sealed batch that starts right after a point the stream covers extends
      the stream, whatever part of it was already there. */
  lemma CommitKeepsExact(local: seq<Record>, stream: Tx.Stream, sync: bool, m: nat, wm: nat,
                         batch: seq<Record>, n: nat, recs: seq<PushRecord>, src: seq<nat>, k: nat, now: int)
    requires Exact(local, stream, sync, m) && wm <= m
    requires Sealed(local, wm, sync, batch, n, recs, src) && 0 < k <= |recs|
    ensures var stream' := Tx.PutNewRecords(stream, recs[..k], now);
      Exact(local, stream', sync, Later(recs[k - 1].seqNo, m)) && Extends(stream, stream')
  {
    hide IsRun, Exact, Extends, Sealed;
    SealedIsRun(local, wm, sync, batch, n, recs, src, k);
    RunKeepsExact(local, stream, sync, m, wm, recs[..k], now);
  }

  lemma ExtendsReflexive(a: Tx.Stream)
    ensures Extends(a, a)
  {
  }

  /** With nothing left after the watermark everything pushable is on the server. */
  lemma AllStored(local: seq<Record>, stream: Tx.Stream, sync: bool, m: nat, wm: nat)
    requires Ordered(local) && Exact(local, stream, sync, m) && wm <= m && Since(local, wm, PUSH_BATCH_LIMIT) == []
    ensures forall i :: 0 <= i < |local| && Pushable(local[i], sync) ==> local[i].seqNo in stream
  {
  }

  lemma ExtendsTransitive(a: Tx.Stream, b: Tx.Stream, c: Tx.Stream)
    requires Extends(a, b) && Extends(b, c)
    ensures Extends(a, c)
  {
  }

  /** Past the last sealed row there are only rows that are never pushed. */
  lemma SkipKeepsExact(local: seq<Record>, stream: Tx.Stream, sync: bool, m: nat, wm: nat,
                       batch: seq<Record>, n: nat, recs: seq<PushRecord>, src: seq<nat>)
    requires Exact(local, stream, sync, m) && wm <= m
    requires Sealed(local, wm, sync, batch, n, recs, src) && 0 < n <= |batch|
    requires recs == [] || recs[|recs| - 1].seqNo <= m
    ensures Exact(local, stream, sync, Later(batch[n - 1].seqNo, m))
  {
    hide Sealed, SealOf, Carries, Pushable;
    var w := batch[n - 1].seqNo;
    forall i | 0 <= i < |local| && Pushable(local[i], sync) && local[i].seqNo <= Later(w, m)
      ensures local[i].seqNo <= m
    {
      if wm < local[i].seqNo && local[i].seqNo <= w {
        var l := RowSealed(local, wm, sync, batch, n, recs, src, i);
        SealedOrder(local, wm, sync, batch, n, recs, src, l, |recs| - 1);
        SealedOrder(local, wm, sync, batch, n, recs, src, |recs| - 1, l);
      }
    }
    forall q <- stream ensures exists i :: 0 <= i < |local| && Holds(local[i], q, stream[q], sync) && q <= Later(w, m) {
      var i :| 0 <= i < |local| && Holds(local[i], q, stream[q], sync) && q <= m;
    }
  }

  /** The server never refuses a sealed batch, or any prefix of it, for its order or size. */
  lemma SealedBatchAccepted(batch: seq<Record>, n: nat, recs: seq<PushRecord>, src: seq<nat>, sync: bool, host: HostId)
    requires Ordered(batch) && SealedPrefix(batch, n, recs, src, sync) && |recs| <= Tx.MAX_PUSH_RECORDS && host != ""
    ensures forall k :: 0 <= k <= |recs| ==> Tx.PushReply(host, recs[..k]) == Tx.Done
  {
    forall k, i | 0 <= k <= |recs| && 0 <= i < k - 1 ensures recs[..k][i].seqNo < recs[..k][i + 1].seqNo {
      assert SealOf(recs[i], batch[src[i]]) && SealOf(recs[i + 1], batch[src[i + 1]]);
    }
  }

  /** A sealed record opens, under the DEK it was sealed with and at its own place in its host's
      stream, to what was recorded. */
  lemma SealsRow(r: Record, keyId: KeyId, dek: Key)
    ensures SealOf(Seal(r, keyId, dek), r) && Seal(r, keyId, dek).keyId == keyId
    ensures OpenRecord(Seal(r, keyId, dek).blob, dek, RecordAAD(r.id, r.hostId, r.seqNo, keyId)) == Some(MarshalPayload(r))
  {
  }

  lemma SealsNothing(batch: seq<Record>, sync: bool)
    ensures SealedPrefix(batch, 0, [], [], sync)
  {
  }

  lemma SealsSkip(batch: seq<Record>, n: nat, recs: seq<PushRecord>, src: seq<nat>, sync: bool)
    requires n < |batch| && SealedPrefix(batch, n, recs, src, sync) && !Pushable(batch[n], sync)
    ensures SealedPrefix(batch, n + 1, recs, src, sync)
  {
    hide SealOf;
  }

  lemma SealsTake(batch: seq<Record>, n: nat, recs: seq<PushRecord>, src: seq<nat>, sync: bool, pr: PushRecord)
    requires n < |batch| && SealedPrefix(batch, n, recs, src, sync) && Pushable(batch[n], sync) && SealOf(pr, batch[n])
    ensures SealedPrefix(batch, n + 1, recs + [pr], src + [n], sync)
  {
    hide SealOf, Pushable;
    var src' := src + [n];
    forall i | 0 <= i < n + 1 && Pushable(batch[i], sync) ensures i in src' {
      if i < n {
        assert i in src;
      } else {
        assert src'[|src|] == i;
      }
    }
  }

  /** The position is one some row has reached. */
  ghost predicate Within(local: seq<Record>, m: nat) {
    m == 0 || exists i :: 0 <= i < |local| && m <= local[i].seqNo
  }

  lemma LaterWithin(local: seq<Record>, a: nat, b: nat)
    requires Within(local, b) && exists i :: 0 <= i < |local| && local[i].seqNo == a
    ensures Within(local, Later(a, b))
  {
  }

  lemma SealedIsSendable(local: seq<Record>, wm: nat, m: nat, sync: bool, batch: seq<Record>, n: nat,
                         recs: seq<PushRecord>, src: seq<nat>, k: nat)
    requires Sealed(local, wm, sync, batch, n, recs, src) && 0 < k <= |recs| && wm <= m
    ensures Sendable(local, m, sync, recs[..k])
  {
    hide Sealed, IsRun;
    SealedIsRun(local, wm, sync, batch, n, recs, src, k);
  }

  lemma StillSendable(local: seq<Record>, m: nat, m': nat, sync: bool, recs: seq<PushRecord>)
    requires Sendable(local, m, sync, recs) && m <= m'
    ensures Sendable(local, m', sync, recs)
  {
  }

  /** What the arrival of one request leaves behind. */
  lemma Arrived(local: seq<Record>, stream: Tx.Stream, sync: bool, m: nat, wm: nat, recs: seq<PushRecord>, now: int,
                past: seq<Tx.Stream>)
    requires Exact(local, stream, sync, m) && Within(local, m) && wm <= m && IsRun(local, wm, sync, recs)
    requires Lived(local, past, sync) && past[|past| - 1] == stream
    ensures recs != []
    ensures var stream' := Tx.PutNewRecords(stream, recs, now);
      var m' := Later(recs[|recs| - 1].seqNo, m);
      && Exact(local, stream', sync, m') && Within(local, m') && Extends(stream, stream') && Lived(local, past + [stream'], sync)
  {
    hide Exact, Within, IsRun, Extends, Lived;
    RunEnds(local, wm, sync, recs);
    RunKeepsExact(local, stream, sync, m, wm, recs, now);
    LaterWithin(local, recs[|recs| - 1].seqNo, m);
    var stream' := Tx.PutNewRecords(stream, recs, now);
    assert Reached(local, stream', sync);
    LivesOn(local, past, sync, stream');
  }

  /** Where the server's copy is known to reach once the position has been banked. */
  lemma Banked(local: seq<Record>, stream: Tx.Stream, sync: bool, m: nat, wm: nat,
               batch: seq<Record>, n: nat, recs: seq<PushRecord>, src: seq<nat>, sent: nat) returns (m': nat)
    requires Exact(local, stream, sync, m) && wm <= m && Within(local, m)
    requires Sealed(local, wm, sync, batch, n, recs, src) && 0 < n <= |batch|
    requires sent <= |recs| && (sent == 0 ==> recs == []) && (sent > 0 ==> recs[sent - 1].seqNo <= m)
    ensures |recs| == |src| && forall k :: 0 <= k < |src| ==> src[k] < |batch|
    ensures var next := if sent == |recs| then batch[n - 1].seqNo else batch[src[sent - 1]].seqNo;
      wm < next <= m' && m <= m' && FirstAfter(local, next) > FirstAfter(local, wm)
    ensures Exact(local, stream, sync, m') && Within(local, m')
  {
    hide Exact, SealOf, Carries, Pushable, Holds, Within, Later;
    if sent == |recs| {
      var next := batch[n - 1].seqNo;
      SkipKeepsExact(local, stream, sync, m, wm, batch, n, recs, src);
      Advances(local, wm, batch, next);
      LaterWithin(local, next, m);
      LaterIs(next, m);
      m' := Later(next, m);
    } else {
      var i := SealedRow(local, wm, sync, batch, n, recs, src, sent - 1);
      Advances(local, wm, batch, batch[src[sent - 1]].seqNo);
      m' := m;
    }
  }

  // ---- how much was uploaded ----

  /** How many of rows[lo..hi] are pushed. */
  function CountPushable(rows: seq<Record>, lo: nat, hi: nat, sync: bool): nat
    requires lo <= hi <= |rows|
  {
    if lo == hi then 0 else CountPushable(rows, lo, hi - 1, sync) + if Pushable(rows[hi - 1], sync) then 1 else 0
  }

  lemma {:induction false} CountSplit(rows: seq<Record>, a: nat, b: nat, c: nat, sync: bool)
    requires a <= b <= c <= |rows|
    ensures CountPushable(rows, a, c, sync) == CountPushable(rows, a, b, sync) + CountPushable(rows, b, c, sync)
  {
    if b < c {
      CountSplit(rows, a, b, c - 1, sync);
    }
  }

  /** src lists, in order, which of the first n rows are pushed. */
  ghost predicate Selects(rows: seq<Record>, n: nat, src: seq<nat>, sync: bool) {
    && n <= |rows|
    && (forall k :: 0 <= k < |src| ==> src[k] < n && Pushable(rows[src[k]], sync))
    && (forall k, l :: 0 <= k < l < |src| ==> src[k] < src[l])
    && (forall i :: 0 <= i < n && Pushable(rows[i], sync) ==> i in src)
  }

  /** k of the selected rows are among the first m: that is how many of those are pushed. */
  lemma {:induction false} SelectedCount(rows: seq<Record>, n: nat, src: seq<nat>, sync: bool, k: nat, m: nat)
    requires Selects(rows, n, src, sync) && m <= n && k <= |src|
    requires (k > 0 ==> src[k - 1] < m) && (k < |src| ==> src[k] >= m)
    ensures CountPushable(rows, 0, m, sync) == k
  {
    hide Pushable;
    if m > 0 {
      if Pushable(rows[m - 1], sync) {
        var l :| 0 <= l < |src| && src[l] == m - 1;
        assert l == k - 1 || l < k - 1 || l >= k;
        SelectedCount(rows, n, src, sync, k - 1, m - 1);
      } else {
        assert k > 0 ==> src[k - 1] != m - 1;
        SelectedCount(rows, n, src, sync, k, m - 1);
      }
    }
  }

  lemma {:induction false} CountShift(rows: seq<Record>, from: nat, part: seq<Record>, m: nat, sync: bool)
    requires m <= |part| && from + |part| <= |rows| && part == rows[from..from + |part|]
    ensures CountPushable(rows, from, from + m, sync) == CountPushable(part, 0, m, sync)
  {
    if m > 0 {
      assert part[m - 1] == rows[from + m - 1];
      CountShift(rows, from, part, m - 1, sync);
    }
  }

  /** Where the batch lies in the log. */
  lemma SealedSelects(local: seq<Record>, wm: nat, sync: bool, batch: seq<Record>, n: nat, recs: seq<PushRecord>, src: seq<nat>)
    requires Sealed(local, wm, sync, batch, n, recs, src)
    ensures Selects(batch, n, src, sync) && Ordered(local)
    ensures FirstAfter(local, wm) + |batch| <= |local|
    ensures batch == local[FirstAfter(local, wm)..FirstAfter(local, wm) + |batch|]
  {
  }

  /** The rows the watermark passes hold as many pushed records as were acknowledged. */
  lemma BankedCount(local: seq<Record>, wm: nat, sync: bool, batch: seq<Record>, n: nat,
                    recs: seq<PushRecord>, src: seq<nat>, sent: nat)
    requires Sealed(local, wm, sync, batch, n, recs, src) && 0 < n <= |batch| && sent <= |recs| == |src| && (sent == 0 ==> recs == [])
    requires forall k :: 0 <= k < |src| ==> src[k] < |batch|
    ensures Ordered(local)
    ensures var next := if sent == |recs| then batch[n - 1].seqNo else batch[src[sent - 1]].seqNo;
      Passed(local, wm, next, sync) == sent
  {
    hide Sealed, CountPushable, FirstAfter, Selects, Ordered;
    SealedSelects(local, wm, sync, batch, n, recs, src);
    var f := FirstAfter(local, wm);
    var m := if sent == |recs| then n else src[sent - 1] + 1;
    SelectedSplit(batch, n, src, sync, sent);
    SelectedCount(batch, n, src, sync, sent, m);
    CountShift(local, f, batch, m, sync);
    assert batch[m - 1] == local[f + m - 1];
    RowReached(local, f + m - 1);
  }

  lemma SelectedSplit(rows: seq<Record>, n: nat, src: seq<nat>, sync: bool, sent: nat)
    requires Selects(rows, n, src, sync) && sent <= |src|
    ensures 0 < sent < |src| ==> src[sent - 1] + 1 <= src[sent]
    ensures sent > 0 ==> src[sent - 1] < n
  {
  }

  /** How many pushed records lie between two positions. */
  function Passed(local: seq<Record>, from: nat, to: nat, sync: bool): nat
    requires Ordered(local)
  {
    var a, b := FirstAfter(local, from), FirstAfter(local, to);
    if a <= b then CountPushable(local, a, b, sync) else 0
  }

  lemma NothingPassed(local: seq<Record>, at: nat, sync: bool)
    requires Ordered(local)
    ensures Passed(local, at, at, sync) == 0
  {
  }

  lemma PassedFurther(local: seq<Record>, a: nat, b: nat, c: nat, sync: bool)
    requires Ordered(local) && a <= b <= c
    ensures Passed(local, a, c, sync) == Passed(local, a, b, sync) + Passed(local, b, c, sync)
  {
    FirstAfterGrows(local, a, b);
    FirstAfterGrows(local, b, c);
    CountSplit(local, FirstAfter(local, a), FirstAfter(local, b), FirstAfter(local, c), sync);
  }

  lemma FirstAfterGrows(local: seq<Record>, a: nat, b: nat)
    requires Ordered(local) && a <= b
    ensures FirstAfter(local, a) <= FirstAfter(local, b)
  {
    var i := FirstAfter(local, a);
    assert i > 0 ==> local[i - 1].seqNo <= b;
  }

  lemma RowReached(local: seq<Record>, i: nat)
    requires Ordered(local) && i < |local|
    ensures FirstAfter(local, local[i].seqNo) == i + 1
  {
    assert i + 1 < |local| ==> local[i].seqNo < local[i + 1].seqNo;
  }

  /** The tries so far, with k records next. */
  ghost predicate TriedSo(recs: seq<PushRecord>, done: seq<seq<PushRecord>>, k: nat) {
    forall last: nat :: last <= k ==> Tries(recs, |recs|, last) == done + Tries(recs, k, last)
  }

  lemma EndsTries(recs: seq<PushRecord>, done: seq<seq<PushRecord>>, k: nat)
    requires TriedSo(recs, done, k) && 0 < k <= |recs|
    ensures Tries(recs, |recs|, k) == done + [recs[..k]]
  {
    assert Tries(recs, k, k) == [recs[..k]];
  }

  lemma HalvesTries(recs: seq<PushRecord>, done: seq<seq<PushRecord>>, k: nat)
    requires TriedSo(recs, done, k) && 1 < k <= |recs|
    ensures TriedSo(recs, done + [recs[..k]], k / 2)
  {
    hide Tries;
    forall last: nat | last <= k / 2 ensures Tries(recs, |recs|, last) == (done + [recs[..k]]) + Tries(recs, k / 2, last) {
      TriesStep(recs, done, k, last);
    }
  }

  lemma TriesStep(recs: seq<PushRecord>, done: seq<seq<PushRecord>>, k: nat, last: nat)
    requires 1 < k <= |recs| && last <= k / 2
    ensures done + Tries(recs, k, last) == (done + [recs[..k]]) + Tries(recs, k / 2, last)
  {
    var rest := Tries(recs, k / 2, last);
    assert last < k;
    assert Tries(recs, k, last) == [recs[..k]] + rest;
    hide Tries;
    assert done + ([recs[..k]] + rest) == (done + [recs[..k]]) + rest;
  }

  lemma PromptsOnly(local: seq<Record>, sync: bool)
    ensures forall i :: 0 <= i < |local| ==> (Pushable(local[i], sync) <==> local[i].kind != "prompt" || sync)
  {
  }

  /** With prompt sync off no prompt leaves the machine. */
  lemma PromptsStay(local: seq<Record>, stream: Tx.Stream, sync: bool, m: nat)
    requires Ordered(local) && Exact(local, stream, sync, m)
    ensures !sync ==> forall i :: 0 <= i < |local| && local[i].kind == "prompt" ==> local[i].seqNo !in stream
  {
    forall q <- stream, i | 0 <= i < |local| && local[i].seqNo == q ensures Pushable(local[i], sync) {
      OneRow(local, stream, sync, m, q, i);
    }
  }

  /** The row at a stored position is one that is pushed. */
  lemma OneRow(local: seq<Record>, stream: Tx.Stream, sync: bool, m: nat, q: nat, i: nat)
    requires Ordered(local) && Exact(local, stream, sync, m) && q in stream && i < |local| && local[i].seqNo == q
    ensures Pushable(local[i], sync)
  {
    hide Pushable, Carries;
    var j :| 0 <= j < |local| && Holds(local[j], q, stream[q], sync) && q <= m;
    assert j == i;
  }

  // ---- the machine ----

  /** One host: its local log, its persisted watermark, its stream on the server, and every
      request it ever sent. */
  class Host {
    const id: HostId
    const syncPrompts: bool
    const blobLen: Blob -> nat
    var local: seq<Record>
    var watermark: nat
    var stream: Tx.Stream
    var wire: seq<seq<PushRecord>>
    ghost var reach: nat  // how far the server's copy extends
    ghost var past: seq<Tx.Stream>  // every value of the stream so far

    /** The server holds exactly the pushable rows up to some point at or past the watermark,
        it has only ever grown at its end, and no request still on its way can change that. */
    ghost predicate Valid()
      reads this
    {
      && id != "" && Ordered(local)
      && (forall i :: 0 <= i < |local| ==> local[i].hostId == id)
      && watermark <= reach
      && Within(local, reach)
      && Exact(local, stream, syncPrompts, reach)
      && Lived(local, past, syncPrompts) && past[|past| - 1] == stream
      && (forall j :: 0 <= j < |wire| ==> Sendable(local, reach, syncPrompts, wire[j]))
    }

    constructor (id: HostId, syncPrompts: bool, blobLen: Blob -> nat)
      requires id != ""
      ensures Valid() && this.id == id && this.syncPrompts == syncPrompts && local == [] && watermark == 0
      ensures stream == map[] && past == [map[]] && wire == []
    {
      this.id, this.syncPrompts, this.blobLen := id, syncPrompts, blobLen;
      local, watermark, stream, wire, reach, past := [], 0, map[], [], 0, [map[]];
      new;
      assert Within(local, reach) && Exact(local, stream, syncPrompts, reach);
    }

    /** The store appends a row under the next sequence number. */
    method Ingest(r: Record)
      requires Valid() && r.hostId == id && r.seqNo > 0 && forall i :: 0 <= i < |local| ==> local[i].seqNo < r.seqNo
      modifies this
      ensures Valid() && local == old(local) + [r]
      ensures stream == old(stream) && watermark == old(watermark) && past == old(past) && wire == old(wire)
    {
      hide Within, Exact, Reached, Sendable, Extends;
      ghost var before := local;
      local := local + [r];
      ExactLater(before, stream, syncPrompts, reach, r);
      forall i | 0 <= i < |past| ensures Reached(local, past[i], syncPrompts) {
        ReachedLater(before, past[i], syncPrompts, r);
      }
      forall j | 0 <= j < |wire| ensures Sendable(local, reach, syncPrompts, wire[j]) {
        SendableLater(before, reach, syncPrompts, wire[j], r);
      }
    }

    /** The server commits one of the requests it was sent, now or ever before. */
    method Arrive(j: nat)
      requires Valid() && j < |wire|
      modifies this`stream, this`reach, this`past
      ensures Valid() && Extends(old(stream), stream) && old(past) <= past
      ensures wire[j] != [] && wire[j][|wire[j]| - 1].seqNo <= reach && reach >= old(reach)
    {
      hide Exact, Within, IsRun;
      ghost var wm: nat :| wm <= reach && IsRun(local, wm, syncPrompts, wire[j]);
      var now: int := *;
      stream := Tx.PutNewRecords(stream, wire[j], now);
      Arrived(local, old(stream), syncPrompts, reach, wm, wire[j], now, past);
      reach := Later(wire[j][|wire[j]| - 1].seqNo, reach);
      past := past + [stream];
      forall i | 0 <= i < |wire| ensures Sendable(local, reach, syncPrompts, wire[i]) {
        StillSendable(local, old(reach), reach, syncPrompts, wire[i]);
      }
    }

    /** Whatever the network still holds of this host's requests may arrive, in any order and
        any number of times. */
    method Arrivals()
      requires Valid()
      modifies this`stream, this`reach, this`past
      ensures Valid() && Extends(old(stream), stream) && old(past) <= past && reach >= old(reach)
    {
      hide Exact, Within, Sendable, Lived, Extends, Ordered;
      ExtendsReflexive(stream);
      var n: int := *;
      for i := 0 to if n > 0 then n else 0
        invariant Valid() && Extends(old(stream), stream) && old(past) <= past && reach >= old(reach)
      {
        var j: nat := *;
        if j < |wire| {
          ghost var before := stream;
          Arrive(j);
          ExtendsTransitive(old(stream), before, stream);
        }
      }
    }

    /** One request. Earlier ones may still arrive before and after it; it may commit and
        still fail, or fail and be committed later; only a committed one is acknowledged. */
    method PushRecords(ghost batch: seq<Record>, ghost n: nat, recs: seq<PushRecord>, ghost src: seq<nat>, k: nat)
      returns (o: Outcome)
      requires Valid() && Sealed(local, watermark, syncPrompts, batch, n, recs, src) && 0 < k <= |recs|
      modifies this`stream, this`reach, this`past, this`wire
      ensures Valid() && Extends(old(stream), stream) && old(past) <= past
      ensures wire == old(wire) + [recs[..k]]
      ensures o == Acked ==> recs[k - 1].seqNo <= reach
    {
      hide Exact, Within, Sendable, Lived, Extends, Sealed;
      SealedIsSendable(local, watermark, reach, syncPrompts, batch, n, recs, src, k);
      wire := wire + [recs[..k]];
      Arrivals();
      ghost var before := stream;
      var committed: bool := *;
      if committed {
        Arrive(|wire| - 1);
        ExtendsTransitive(old(stream), before, stream);
      }
      before := stream;
      Arrivals();
      ExtendsTransitive(old(stream), before, stream);
      var answered: bool := *;
      if committed && answered { return Acked; }
      var status: int := *;
      var reached: bool := *;
      return if reached then Refused(status) else Unreachable;
    }

    /** Halve and retry while a smaller body might help; how many leading records went in. It gives
        up only at a single record, or on an answer that a smaller body would not change. */
    method PushWithBackoff(ghost batch: seq<Record>, ghost n: nat, recs: seq<PushRecord>, ghost src: seq<nat>)
      returns (sent: nat, why: Failure, answers: seq<Outcome>)
      requires Valid() && Sealed(local, watermark, syncPrompts, batch, n, recs, src) && recs != []
      modifies this`stream, this`reach, this`past, this`wire
      ensures Valid() && Extends(old(stream), stream) && old(past) <= past
      ensures why.Sending? ==> sent == 0 && why.outcome != Acked && (why.size == 1 || !RetryableSmaller(why.outcome))
      ensures why == Went ==> 0 < sent <= |recs| && recs[sent - 1].seqNo <= reach
      ensures answers != [] && answers[|answers| - 1] == (if why.Sending? then why.outcome else Acked)
      ensures forall i :: 0 <= i < |answers| - 1 ==> answers[i] == Refused(413) || answers[i] == Refused(400)
      ensures why.Sending? && why.size > 1 ==> why.outcome != Refused(413) && why.outcome != Refused(400)
      ensures why != NoDek && wire == old(wire) + Tries(recs, |recs|, if why.Sending? then why.size else sent)
    {
      hide Exact, Within, Lived, Sendable, Extends, Sealed;
      ExtendsReflexive(stream);
      var k := |recs|;
      answers := [];
      assert wire == old(wire) + [];
      while true
        invariant forall i :: 0 <= i < |answers| ==> answers[i] == Refused(413) || answers[i] == Refused(400)
        invariant 0 < k <= |recs| && Valid() && Extends(old(stream), stream) && old(past) <= past
        invariant exists done :: wire == old(wire) + done && TriedSo(recs, done, k)
        decreases k
      {
        ghost var before, asked := stream, wire;
        var o := PushRecords(batch, n, recs, src, k);
        answers := answers + [o];
        ExtendsTransitive(old(stream), before, stream);
        ghost var done :| asked == old(wire) + done && TriedSo(recs, done, k);
        assert wire == old(wire) + (done + [recs[..k]]);
        EndsTries(recs, done, k);
        if o == Acked { return k, Went, answers; }
        if k <= 1 || !RetryableSmaller(o) { return 0, Sending(o, k), answers; }
        HalvesTries(recs, done, k);
        k := k / 2;
      }
    }

    /** The DEK of a record's epoch: cached, freshly uploaded, or not to be had just now. */
    method EnsureDek(r: Record) returns (ok: bool, keyId: KeyId, dek: Key)
    {
      ok, keyId, dek := *, *, *;
    }

    function PushRecordSize(p: PushRecord): nat {
      SCAFFOLDING + |p.id| + KEY_ID_LENGTH + (blobLen(p.blob) + 2) / 3 * 4
    }

    /** What a record is estimated to add to a request: 90 bytes of names, quotes and key id, its id, and
        its blob in base64, four bytes for every three begun. */
    lemma SizeIs(p: PushRecord)
      ensures var base64 := PushRecordSize(p) - 90 - |p.id|;
        base64 % 4 == 0 && 4 * blobLen(p.blob) <= 3 * base64 < 4 * blobLen(p.blob) + 12
    {
    }

    function BodySize(recs: seq<PushRecord>): nat {
      if recs == [] then 0 else BodySize(recs[..|recs| - 1]) + PushRecordSize(recs[|recs| - 1])
    }

    /** Seal the prefix of the batch that fits the size bound: at least one row is consumed,
        the body is over the bound only when it is a single record, and the batch is cut
        short only before a record that does not fit. */
    method SealBatch(batch: seq<Record>) returns (ok: bool, recs: seq<PushRecord>, src: seq<nat>, consumed: nat)
      requires batch != []
      ensures ok ==> consumed > 0 && SealedPrefix(batch, consumed, recs, src, syncPrompts)
      ensures |recs| <= |batch|
      ensures BodySize(recs) <= MAX_PUSH_BYTES || |recs| == 1
      ensures ok && consumed < |batch| ==>
        recs != [] && exists keyId, dek :: BodySize(recs) + PushRecordSize(Seal(batch[consumed], keyId, dek)) > MAX_PUSH_BYTES
    {
      hide SealedPrefix, Pushable, Seal, PushRecordSize;
      recs, src, consumed := [], [], 0;
      SealsNothing(batch, syncPrompts);
      var size := 0;
      for i := 0 to |batch|
        invariant consumed == i && SealedPrefix(batch, i, recs, src, syncPrompts) && |recs| <= i
        invariant size == BodySize(recs) && (size <= MAX_PUSH_BYTES || |recs| == 1)
      {
        var r := batch[i];
        if !Pushable(r, syncPrompts) {
          SealsSkip(batch, i, recs, src, syncPrompts);
          consumed := i + 1;
          continue;
        }
        var got, keyId, dek := EnsureDek(r);
        if !got { return false, recs, src, consumed; }
        var pr := Seal(r, keyId, dek);
        SealsRow(r, keyId, dek);
        var n := PushRecordSize(pr);
        if |recs| > 0 && size + n > MAX_PUSH_BYTES {
          return true, recs, src, consumed;
        }
        SealsTake(batch, i, recs, src, syncPrompts, pr);
        size := size + n;
        assert (recs + [pr])[..|recs|] == recs;
        recs, src := recs + [pr], src + [i];
        consumed := i + 1;
      }
      return true, recs, src, consumed;
    }

    /** One turn of the upload loop over a non-empty batch: seal, send, bank the position. */
    method PushWindow(batch: seq<Record>) returns (sent: nat, why: Failure)
      requires Valid() && batch == Since(local, watermark, PUSH_BATCH_LIMIT) && batch != []
      modifies this`stream, this`reach, this`past, this`wire, this`watermark
      ensures Valid() && Extends(old(stream), stream) && old(past) <= past && old(wire) <= wire
      ensures why == Went ==> FirstAfter(local, watermark) > FirstAfter(local, old(watermark)) && watermark > old(watermark)
      ensures why == Went ==> sent == Passed(local, old(watermark), watermark, syncPrompts)
      ensures why != Went ==> watermark == old(watermark)
      ensures why.Sending? ==> why.outcome != Acked && (why.size == 1 || !RetryableSmaller(why.outcome))
    {
      hide Exact, Within, Lived, Sendable, Extends, SealOf, Carries, Pushable, FirstAfter;
      ExtendsReflexive(stream);
      var sealed, recs, src, consumed := SealBatch(batch);
      if !sealed { return 0, NoDek; }
      sent, why := 0, Went;
      if |recs| > 0 {
        var answers: seq<Outcome>;
        sent, why, answers := PushWithBackoff(batch, consumed, recs, src);
        if why != Went { return 0, why; }
      }
      Bank(batch, consumed, recs, src, sent);
    }

    /** Move the watermark exactly as far as the server accepted, and past trailing rows that
        are never pushed. */
    method Bank(batch: seq<Record>, consumed: nat, recs: seq<PushRecord>, src: seq<nat>, sent: nat)
      requires Valid() && Sealed(local, watermark, syncPrompts, batch, consumed, recs, src) && 0 < consumed <= |batch|
      requires sent <= |recs| && (sent == 0 ==> recs == []) && (sent > 0 ==> recs[sent - 1].seqNo <= reach)
      requires |recs| == |src| && forall k :: 0 <= k < |src| ==> src[k] < |batch|
      modifies this`watermark, this`reach
      ensures Valid() && FirstAfter(local, watermark) > FirstAfter(local, old(watermark)) && watermark > old(watermark)
      ensures sent == Passed(local, old(watermark), watermark, syncPrompts)
    {
      hide Passed, Exact, Within, Lived, Sendable, FirstAfter, Since, SealedPrefix, Sealed, Ordered;
      BankedCount(local, watermark, syncPrompts, batch, consumed, recs, src, sent);
      ghost var reach' := Banked(local, stream, syncPrompts, reach, watermark, batch, consumed, recs, src, sent);
      watermark := if sent == |recs| then batch[consumed - 1].seqNo else batch[src[sent - 1]].seqNo;
      forall j | 0 <= j < |wire| ensures Sendable(local, reach', syncPrompts, wire[j]) {
        StillSendable(local, reach, reach', syncPrompts, wire[j]);
      }
      reach := reach';
    }

    /** Upload everything after the watermark. Success means the server holds every pushable
        row; failure leaves the invariant intact and the watermark where it is safe. */
    method Push() returns (pushed: nat, why: Failure)
      requires Valid()
      modifies this`stream, this`reach, this`past, this`wire, this`watermark
      ensures Valid() && watermark >= old(watermark) && Extends(old(stream), stream) && old(past) <= past && old(wire) <= wire
      ensures pushed == Passed(local, old(watermark), watermark, syncPrompts)
      ensures why.Sending? ==> why.outcome != Acked && (why.size == 1 || !RetryableSmaller(why.outcome))
      ensures why == Went ==> Since(local, watermark, PUSH_BATCH_LIMIT) == []
      ensures why == Went ==> forall i :: 0 <= i < |local| && Pushable(local[i], syncPrompts) ==> local[i].seqNo in stream
      ensures why == Went ==> forall i :: 0 <= i < |local| && (local[i].kind != "prompt" || syncPrompts) ==> local[i].seqNo in stream
      ensures !syncPrompts ==> forall i :: 0 <= i < |local| && local[i].kind == "prompt" ==> local[i].seqNo !in stream
    {
      hide Exact, Within, Lived, Sendable, Extends, Pushable, Passed;
      NothingPassed(local, watermark, syncPrompts);
      pushed, why := 0, Went;
      ExtendsReflexive(stream);
      while true
        invariant Valid() && watermark >= old(watermark) && Extends(old(stream), stream) && old(past) <= past && old(wire) <= wire
        invariant pushed == Passed(local, old(watermark), watermark, syncPrompts)
        decreases |local| - FirstAfter(local, watermark)
      {
        var batch := Since(local, watermark, PUSH_BATCH_LIMIT);
        if |batch| == 0 {
          PromptsOnly(local, syncPrompts);
          AllStored(local, stream, syncPrompts, reach, watermark);
          PromptsStay(local, stream, syncPrompts, reach);
          return pushed, Went;
        }
        ghost var before, from := stream, watermark;
        var sent, went := PushWindow(batch);
        ExtendsTransitive(old(stream), before, stream);
        PassedFurther(local, old(watermark), from, watermark, syncPrompts);
        if went != Went {
          PromptsStay(local, stream, syncPrompts, reach);
          return pushed, went;
        }
        pushed := pushed + sent;
      }
    }
  }

  /** Moving the watermark to any row of the batch passes at least one row. */
  lemma Advances(local: seq<Record>, wm: nat, batch: seq<Record>, next: nat)
    requires Ordered(local) && batch == Since(local, wm, PUSH_BATCH_LIMIT)
    requires exists i :: 0 <= i < |batch| && batch[i].seqNo == next
    ensures next > wm && FirstAfter(local, next) > FirstAfter(local, wm)
    ensures exists i :: 0 <= i < |local| && local[i].seqNo == next
  {
    var f := FirstAfter(local, wm);
    var i :| 0 <= i < |batch| && batch[i].seqNo == next;
    assert batch[i] == local[f + i] && local[f].seqNo <= local[f + i].seqNo;
  }

  /** In every state a host can be in, no pushable row at or below the watermark is missing
      from the server, and whatever is there is what was recorded. */
  lemma WatermarkIsSafe(local: seq<Record>, stream: Tx.Stream, sync: bool, m: nat, wm: nat, i: nat)
    requires Ordered(local) && Exact(local, stream, sync, m) && wm <= m
    requires i < |local| && local[i].seqNo <= wm && Pushable(local[i], sync)
    ensures local[i].seqNo in stream && Carries(stream[local[i].seqNo], local[i])
  {
    var q: nat := local[i].seqNo;
    assert q in stream;
    var j :| 0 <= j < |local| && Holds(local[j], q, stream[q], sync) && q <= m;
    assert j == i;
  }
}
