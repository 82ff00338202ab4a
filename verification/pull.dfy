/** Pulling other hosts' streams page by page while those streams keep growing. */
module Pull {
  import opened Wrappers
  import opened Wire
  import opened Bucket
  import opened SyncServer
  import Tx = ServerTx
  import opened Push

  type Streams = map<HostId, Tx.Stream>

  datatype Pulled = Pulled(seqNo: nat, record: StoredRecord)

  /** The server as successive requests find it; it stays at the last state for ever. */
  function View(history: seq<Streams>, t: nat): Streams
    requires history != []
  {
    if t < |history| then history[t] else history[|history| - 1]
  }

  function StreamAt(history: seq<Streams>, t: nat, host: HostId): Tx.Stream
    requires history != []
  {
    var v := View(history, t);
    if host in v then v[host] else map[]
  }

  /** Streams only grow, and only past what they already hold: what pushing guarantees. */
  ghost predicate Grows(history: seq<Streams>)
    requires history != []
  {
    && (forall i, j, h :: 0 <= i <= j ==> Extends(StreamAt(history, i, h), StreamAt(history, j, h)))
    && (forall i, h, q :: 0 <= i && q in StreamAt(history, i, h) ==> q + 1 < TWO_64)
  }

  ghost predicate AscendingPulled(rs: seq<Pulled>) {
    forall i, j :: 0 <= i < j < |rs| ==> rs[i].seqNo < rs[j].seqNo
  }

  /** rs is exactly the part of the stream in (from, to], in order, each record once. */
  ghost predicate IsSlice(rs: seq<Pulled>, s: Tx.Stream, from: nat, to: nat) {
    && AscendingPulled(rs)
    && (forall i :: 0 <= i < |rs| ==> from < rs[i].seqNo <= to && rs[i].seqNo in s && s[rs[i].seqNo] == rs[i].record)
    && (forall q <- s :: from < q <= to ==> exists i :: 0 <= i < |rs| && rs[i].seqNo == q)
  }

  /** A cursor is where an earlier pull stopped: nowhere, or at a record of the stream. */
  predicate CursorOf(c: nat, s: Tx.Stream) {
    c == 0 || c in s
  }

  // ---- slices of a growing stream ----

  /** What was pulled stays exactly right when the stream grows. */
  lemma SliceSurvives(rs: seq<Pulled>, a: Tx.Stream, b: Tx.Stream, from: nat, to: nat)
    requires IsSlice(rs, a, from, to) && Extends(a, b) && CursorOf(to, a)
    ensures IsSlice(rs, b, from, to)
  {
    forall q <- b | from < q <= to ensures exists i :: 0 <= i < |rs| && rs[i].seqNo == q {
      assert q in a;
    }
  }

  lemma SlicesJoin(xs: seq<Pulled>, ys: seq<Pulled>, s: Tx.Stream, a: nat, b: nat, c: nat)
    requires IsSlice(xs, s, a, b) && IsSlice(ys, s, b, c) && a <= b <= c
    ensures IsSlice(xs + ys, s, a, c)
  {
    var rs := xs + ys;
    forall q <- s | a < q <= c ensures exists i :: 0 <= i < |rs| && rs[i].seqNo == q {
      if q <= b {
        var i :| 0 <= i < |xs| && xs[i].seqNo == q;
        assert rs[i].seqNo == q;
      } else {
        var i :| 0 <= i < |ys| && ys[i].seqNo == q;
        assert rs[|xs| + i].seqNo == q;
      }
    }
  }

  /** A server page, as records, is the slice up to its last entry. */
  lemma PageIsSlice(s: Tx.Stream, after: nat, page: seq<nat>, more: bool, limit: nat, rs: seq<Pulled>)
    requires IsPage(s.Keys, after + 1, limit, page, more) && |rs| == |page|
    requires forall i :: 0 <= i < |page| ==> page[i] in s && rs[i] == Pulled(page[i], s[page[i]])
    ensures var to := if page == [] then after else page[|page| - 1];
      IsSlice(rs, s, after, to) && (!more ==> forall q <- s :: q <= to || q <= after)
  {
    var to := if page == [] then after else page[|page| - 1];
    forall i | 0 <= i < |page| ensures page[i] <= to {
      assert i < |page| - 1 ==> page[i] < page[|page| - 1];
    }
    forall q <- s | after < q <= to ensures exists i :: 0 <= i < |rs| && rs[i].seqNo == q {
      assert page != [] ==> page[|page| - 1] in page;
      var i :| 0 <= i < |page| && page[i] == q;
      assert rs[i].seqNo == q;
    }
    if !more {
      forall q <- s ensures q <= to || q <= after {
        if q > after {
          var i :| 0 <= i < |page| && page[i] == q;
        }
      }
    }
  }

  ghost predicate CaughtUp(s: Tx.Stream, cursor: nat) {
    forall q <- s :: q <= cursor
  }

  /** What a finished pull of one host delivers, judged against the stream as its last
      request found it: the slice between the cursors, with nothing left over. */
  ghost predicate Delivered(s: Tx.Stream, rs: seq<Pulled>, from: nat, to: nat) {
    IsSlice(rs, s, from, to) && CursorOf(to, s) && CaughtUp(s, to) && from <= to
  }

  ghost function Beyond(s: Tx.Stream, after: nat): set<nat> {
    set q | q in s && q > after
  }

  /** One request: the records after the cursor, and where the cursor moves. */
  method PullPage(s: Tx.Stream, cursor: nat) returns (got: seq<Pulled>, to: nat, more: bool)
    requires cursor + 1 < TWO_64 && CursorOf(cursor, s)
    ensures to >= cursor && IsSlice(got, s, cursor, to) && CursorOf(to, s)
    ensures more ==> to > cursor
    ensures !more ==> CaughtUp(s, to)
  {
    var page, m := ReadPage(s.Keys, SeekFrom(cursor), PUSH_BATCH_LIMIT);
    more := m;
    assert SeekFrom(cursor) == cursor + 1;
    assert forall i :: 0 <= i < |page| ==> page[i] in page;
    got := seq(|page|, i requires 0 <= i < |page| && page[i] in s => Pulled(page[i], s[page[i]]));
    PageIsSlice(s, cursor, page, more, PUSH_BATCH_LIMIT, got);
    to := if page == [] then cursor else page[|page| - 1];
  }

  /** The page loop for one host, from request number t0 on. */
  method PullHost(history: seq<Streams>, t0: nat, host: HostId, from: nat) returns (rs: seq<Pulled>, cursor: nat, t: nat)
    requires history != [] && Grows(history) && CursorOf(from, StreamAt(history, t0, host))
    ensures t > t0 && Delivered(StreamAt(history, t - 1, host), rs, from, cursor)
  {
    hide IsSlice, Extends, Grows, StreamAt;
    rs, cursor, t := [], from, t0;
    ghost var end := StreamAt(history, |history| + t0, host);
    EmptySlice(StreamAt(history, t0, host), from);
    while true
      invariant t >= t0 && cursor >= from
      invariant IsSlice(rs, StreamAt(history, t, host), from, cursor) && CursorOf(cursor, StreamAt(history, t, host))
      decreases Beyond(end, cursor)
    {
      var s := StreamAt(history, t, host);
      GrowsTo(history, t0, t, host, cursor);
      var got, to, more := PullPage(s, cursor);
      SlicesJoin(rs, got, s, from, cursor, to);
      ghost var before := cursor;
      rs, cursor, t := rs + got, to, t + 1;
      if !more { return; }
      CursorKept(s, StreamAt(history, t, host), cursor);
      SliceSurvives(rs, s, StreamAt(history, t, host), from, cursor);
      CursorKept(s, end, cursor);
      assert cursor in Beyond(end, before) && cursor !in Beyond(end, cursor);
    }
  }

  lemma EmptySlice(s: Tx.Stream, at: nat)
    ensures IsSlice([], s, at, at)
  {
  }

  /** From request t on the stream only grows, and its positions fit in 64 bits. */
  lemma GrowsTo(history: seq<Streams>, t0: nat, t: nat, host: HostId, cursor: nat)
    requires history != [] && Grows(history) && CursorOf(cursor, StreamAt(history, t, host))
    ensures Extends(StreamAt(history, t, host), StreamAt(history, t + 1, host))
    ensures Extends(StreamAt(history, t, host), StreamAt(history, |history| + t0, host))
    ensures cursor + 1 < TWO_64
  {
    if t > |history| + t0 {
      assert StreamAt(history, t, host) == StreamAt(history, |history| + t0, host);
      assert Extends(StreamAt(history, t, host), StreamAt(history, t, host));
    }
  }

  /** One pull over every host the server lists, except our own. */
  method PullCiphertext(self: HostId, hosts: seq<HostId>, cursors: map<HostId, nat>, history: seq<Streams>, t0: nat)
    returns (out: map<HostId, seq<Pulled>>, advanced: map<HostId, nat>, ghost at: map<HostId, nat>)
    requires history != [] && Grows(history)
    requires forall i, j :: 0 <= i < j < |hosts| ==> hosts[i] != hosts[j]
    requires forall h <- hosts :: CursorOf(CursorFor(cursors, h), StreamAt(history, t0, h))
    ensures out.Keys == at.Keys == set h | h in hosts && h != self
    ensures forall h <- out :: t0 <= at[h] && Delivered(StreamAt(history, at[h], h), out[h], CursorFor(cursors, h), CursorFor(advanced, h))
    ensures forall h <- out :: h in advanced && (h !in cursors ==> Delivered(StreamAt(history, at[h], h), out[h], 0, advanced[h]))
    ensures forall h :: h !in out ==> (h in advanced <==> h in cursors) && (h in cursors ==> advanced[h] == cursors[h])
    ensures forall h :: h !in out ==> CursorFor(advanced, h) == CursorFor(cursors, h)
  {
    hide Delivered, Grows, StreamAt;
    out, advanced, at := map[], cursors, map[];
    var t := t0;
    for k := 0 to |hosts|
      invariant t >= t0
      invariant out.Keys == at.Keys == set h | h in hosts[..k] && h != self
      invariant forall h <- out :: t0 <= at[h] && Delivered(StreamAt(history, at[h], h), out[h], CursorFor(cursors, h), CursorFor(advanced, h))
      invariant (forall h <- out :: h in advanced) && cursors.Keys <= advanced.Keys
      invariant forall h :: h !in out ==> (h in advanced <==> h in cursors) && (h in cursors ==> advanced[h] == cursors[h])
      invariant forall h :: h !in out ==> CursorFor(advanced, h) == CursorFor(cursors, h)
    {
      var h := hosts[k];
      assert hosts[..k + 1] == hosts[..k] + [h];
      if h == self { continue; }
      assert h !in hosts[..k];
      assert h in hosts;
      CursorLater(history, t0, t, h, CursorFor(cursors, h));
      var rs, cursor, t' := PullHost(history, t, h, CursorFor(advanced, h));
      out, advanced, at := out[h := rs], advanced[h := cursor], at[h := t' - 1];
      t := t';
    }
    assert hosts[..|hosts|] == hosts;
  }

  function CursorFor(cursors: map<HostId, nat>, h: HostId): nat {
    if h in cursors then cursors[h] else 0
  }

  lemma CursorKept(a: Tx.Stream, b: Tx.Stream, c: nat)
    requires Extends(a, b) && CursorOf(c, a)
    ensures CursorOf(c, b)
  {
  }

  lemma CursorLater(history: seq<Streams>, t0: nat, t: nat, host: HostId, c: nat)
    requires history != [] && Grows(history) && t0 <= t && CursorOf(c, StreamAt(history, t0, host))
    ensures CursorOf(c, StreamAt(history, t, host))
  {
    assert Extends(StreamAt(history, t0, host), StreamAt(history, t, host));
  }

  /** Nothing is ever stored at or below a cursor already handed out, so a stream pulled in
      any number of cycles has no gap: the slices of two successive pulls are one slice. */
  lemma PullsCompose(xs: seq<Pulled>, ys: seq<Pulled>, a: Tx.Stream, b: Tx.Stream, c0: nat, c1: nat, c2: nat)
    requires Extends(a, b) && c0 <= c1 <= c2
    requires IsSlice(xs, a, c0, c1) && CursorOf(c1, a) && IsSlice(ys, b, c1, c2)
    ensures IsSlice(xs + ys, b, c0, c2)
    ensures forall q <- b :: q !in a && c1 > 0 ==> q > c1
  {
    SliceSurvives(xs, a, b, c0, c1);
    SlicesJoin(xs, ys, b, c0, c1, c2);
  }

  // ---- the streams that pushing produces ----

  /** What successive requests find of one host: values its stream had, never an older one
      after a newer one. */
  ghost predicate Observes(history: seq<Streams>, host: HostId, past: seq<Tx.Stream>, when: seq<nat>)
    requires history != []
  {
    && |when| == |history|
    && (forall t :: 0 <= t < |when| ==> when[t] < |past| && StreamAt(history, t, host) == past[when[t]])
    && (forall t, u :: 0 <= t <= u < |when| ==> when[t] <= when[u])
  }

  /** Whatever ingesting, pushing and late arrivals made of the hosts, the histories a puller
      can see of them only grow at their end. */
  lemma PushingGrows(history: seq<Streams>, hosts: map<HostId, Host>, whens: map<HostId, seq<nat>>)
    requires history != [] && whens.Keys == hosts.Keys
    requires forall h <- hosts :: hosts[h].Valid() && Observes(history, h, hosts[h].past, whens[h])
    requires forall h <- hosts :: forall i :: 0 <= i < |hosts[h].local| ==> hosts[h].local[i].seqNo + 1 < TWO_64
    requires forall t, h :: 0 <= t && h !in hosts ==> StreamAt(history, t, h) == map[]
    ensures Grows(history)
  {
    hide StreamAt, Extends, Observes, Host.Valid;
    forall i, j, h | 0 <= i <= j ensures Extends(StreamAt(history, i, h), StreamAt(history, j, h)) {
      if h in hosts {
        ObservedGrows(history, h, hosts[h], whens[h], i, j);
      } else {
        ExtendsReflexive(map[]);
      }
    }
    forall i, h, q | 0 <= i && q in StreamAt(history, i, h) ensures q + 1 < TWO_64 {
      if h in hosts {
        var _ := ObservedRow(history, h, hosts[h], whens[h], i, q);
      }
    }
  }

  lemma ObservedAt(history: seq<Streams>, h: HostId, past: seq<Tx.Stream>, when: seq<nat>, t: nat) returns (k: nat)
    requires history != [] && Observes(history, h, past, when)
    ensures k == (if t < |history| then t else |history| - 1) < |when| == |history|
    ensures when[k] < |past| && StreamAt(history, t, h) == past[when[k]]
  {
    k := if t < |history| then t else |history| - 1;
    assert StreamAt(history, t, h) == StreamAt(history, k, h);
  }

  lemma ObservedGrows(history: seq<Streams>, h: HostId, host: Host, when: seq<nat>, i: nat, j: nat)
    requires history != [] && host.Valid() && Observes(history, h, host.past, when) && i <= j
    ensures Extends(StreamAt(history, i, h), StreamAt(history, j, h))
  {
    hide StreamAt, Extends, Reached, Within, Exact, Ordered;
    var k := ObservedAt(history, h, host.past, when, i);
    var l := ObservedAt(history, h, host.past, when, j);
    assert when[k] <= when[l];
  }

  lemma ObservedRow(history: seq<Streams>, h: HostId, host: Host, when: seq<nat>, t: nat, q: nat) returns (i: nat)
    requires history != [] && host.Valid() && Observes(history, h, host.past, when) && q in StreamAt(history, t, h)
    ensures i < |host.local| && host.local[i].seqNo == q
  {
    hide StreamAt, Extends, Carries, Pushable;
    var k := ObservedAt(history, h, host.past, when, t);
    var s := host.past[when[k]];
    assert Reached(host.local, s, host.syncPrompts);
    i :| 0 <= i < |host.local| && Holds(host.local[i], q, s[q], host.syncPrompts);
  }

  // ---- what was recorded is what is pulled ----

  /** The rows of a log in (from, to] that are pushed, in order. */
  function PushedRows(local: seq<Record>, sync: bool, from: nat, to: nat): seq<Record> {
    if local == [] then []
    else
      var r := local[|local| - 1];
      PushedRows(local[..|local| - 1], sync, from, to) + if Pushable(r, sync) && from < r.seqNo <= to then [r] else []
  }

  /** The pulled records are these rows, one for one, each as it was recorded. */
  ghost predicate Transcribes(rs: seq<Pulled>, rows: seq<Record>, sync: bool) {
    |rs| == |rows| && forall i :: 0 <= i < |rs| ==> Holds(rows[i], rs[i].seqNo, rs[i].record, sync)
  }

  /** The pulled record is some row of the log. */
  ghost predicate IsRowOf(p: Pulled, local: seq<Record>, sync: bool) {
    exists j :: 0 <= j < |local| && Holds(local[j], p.seqNo, p.record, sync)
  }

  ghost predicate Reaches(rs: seq<Pulled>, q: nat) {
    exists i :: 0 <= i < |rs| && rs[i].seqNo == q
  }

  ghost predicate Covers(rs: seq<Pulled>, local: seq<Record>, sync: bool, from: nat, to: nat) {
    && Ordered(local) && AscendingPulled(rs)
    && (forall i :: 0 <= i < |rs| ==> from < rs[i].seqNo <= to && IsRowOf(rs[i], local, sync))
    && (forall j :: 0 <= j < |local| && Pushable(local[j], sync) && from < local[j].seqNo <= to ==> Reaches(rs, local[j].seqNo))
  }

  lemma {:induction false} CoversTranscribes(rs: seq<Pulled>, local: seq<Record>, sync: bool, from: nat, to: nat)
    requires Covers(rs, local, sync, from, to)
    ensures Transcribes(rs, PushedRows(local, sync, from, to), sync)
    decreases local
  {
    if rs != [] {
      SomeRow(rs, local, sync, from, to);
    }
    if local == [] { return; }
    hide Covers, Transcribes, Pushable, Holds;
    var n, last := |local| - 1, |rs| - 1;
    var r := local[n];
    if Pushable(r, sync) && from < r.seqNo <= to {
      LastIsLast(rs, local, sync, from, to);
      CoversTranscribes(rs[..last], local[..n], sync, from, to);
      TranscribesMore(rs[..last], PushedRows(local[..n], sync, from, to), sync, rs[last], r);
      assert rs[..last] + [rs[last]] == rs;
    } else {
      LastIsOut(rs, local, sync, from, to);
      CoversTranscribes(rs, local[..n], sync, from, to);
      assert PushedRows(local, sync, from, to) == PushedRows(local[..n], sync, from, to);
    }
  }

  lemma SomeRow(rs: seq<Pulled>, local: seq<Record>, sync: bool, from: nat, to: nat)
    requires Covers(rs, local, sync, from, to) && rs != []
    ensures local != []
  {
    assert IsRowOf(rs[0], local, sync);
  }

  lemma TranscribesMore(rs: seq<Pulled>, rows: seq<Record>, sync: bool, p: Pulled, r: Record)
    requires Transcribes(rs, rows, sync) && Holds(r, p.seqNo, p.record, sync)
    ensures Transcribes(rs + [p], rows + [r], sync)
  {
    hide Holds;
  }

  /** A pulled record other than the last row is one of the rows before it. */
  lemma RowBefore(p: Pulled, local: seq<Record>, sync: bool)
    requires local != [] && IsRowOf(p, local, sync) && !Holds(local[|local| - 1], p.seqNo, p.record, sync)
    ensures IsRowOf(p, local[..|local| - 1], sync)
  {
    hide Holds;
    var j :| 0 <= j < |local| && Holds(local[j], p.seqNo, p.record, sync);
    assert local[..|local| - 1][j] == local[j];
  }

  lemma NoneAbove(p: Pulled, local: seq<Record>, sync: bool)
    requires Ordered(local) && local != [] && IsRowOf(p, local, sync)
    ensures p.seqNo <= local[|local| - 1].seqNo
    ensures p.seqNo == local[|local| - 1].seqNo ==> Holds(local[|local| - 1], p.seqNo, p.record, sync)
  {
    hide Pushable, Carries;
    var j :| 0 <= j < |local| && Holds(local[j], p.seqNo, p.record, sync);
  }

  lemma LastIsLast(rs: seq<Pulled>, local: seq<Record>, sync: bool, from: nat, to: nat)
    requires Covers(rs, local, sync, from, to) && local != []
    requires Pushable(local[|local| - 1], sync) && from < local[|local| - 1].seqNo <= to
    ensures rs != [] && Holds(local[|local| - 1], rs[|rs| - 1].seqNo, rs[|rs| - 1].record, sync)
    ensures Covers(rs[..|rs| - 1], local[..|local| - 1], sync, from, to)
  {
    hide Pushable, Carries, IsRowOf, Reaches;
    var n := |local| - 1;
    assert Reaches(rs, local[n].seqNo);
    var i := ReachedBy(rs, local[n].seqNo);
    var last := |rs| - 1;
    NoneAbove(rs[last], local, sync);
    assert i == last;
    forall k | 0 <= k < last ensures IsRowOf(rs[..last][k], local[..n], sync) {
      assert rs[k].seqNo < rs[last].seqNo;
      RowBefore(rs[k], local, sync);
    }
    forall j | 0 <= j < n && Pushable(local[..n][j], sync) && from < local[..n][j].seqNo <= to
      ensures Reaches(rs[..last], local[..n][j].seqNo)
    {
      assert local[..n][j] == local[j] && local[j].seqNo < local[n].seqNo;
      var k := ReachedBy(rs, local[j].seqNo);
      ReachesAt(rs[..last], k);
    }
  }

  lemma ReachedBy(rs: seq<Pulled>, q: nat) returns (i: nat)
    requires Reaches(rs, q)
    ensures i < |rs| && rs[i].seqNo == q
  {
    i :| 0 <= i < |rs| && rs[i].seqNo == q;
  }

  lemma ReachesAt(rs: seq<Pulled>, i: nat)
    requires i < |rs|
    ensures Reaches(rs, rs[i].seqNo)
  {
  }

  lemma LastIsOut(rs: seq<Pulled>, local: seq<Record>, sync: bool, from: nat, to: nat)
    requires Covers(rs, local, sync, from, to) && local != []
    requires !(Pushable(local[|local| - 1], sync) && from < local[|local| - 1].seqNo <= to)
    ensures Covers(rs, local[..|local| - 1], sync, from, to)
  {
    hide Pushable, Carries, IsRowOf, Reaches;
    var n := |local| - 1;
    forall k | 0 <= k < |rs| ensures IsRowOf(rs[k], local[..n], sync) {
      RowBefore(rs[k], local, sync);
    }
    assert forall j :: 0 <= j < n ==> local[..n][j] == local[j];
  }

  /** A pull delivers exactly the pushed rows between its cursors, each as recorded. */
  lemma DeliveredIsRecorded(local: seq<Record>, s: Tx.Stream, sync: bool, rs: seq<Pulled>, from: nat, to: nat)
    requires Ordered(local) && Reached(local, s, sync) && Delivered(s, rs, from, to)
    ensures Transcribes(rs, PushedRows(local, sync, from, to), sync)
  {
    hide Holds, Pushable, IsRowOf, Reaches;
    var m: nat :| Within(local, m) && Exact(local, s, sync, m);
    assert to <= m;
    forall i | 0 <= i < |rs| ensures IsRowOf(rs[i], local, sync) {
      StoredIsRow(local, s, sync, m, rs[i]);
    }
    forall j | 0 <= j < |local| && Pushable(local[j], sync) && from < local[j].seqNo <= to ensures Reaches(rs, local[j].seqNo) {
      SliceReaches(rs, s, from, to, local[j].seqNo);
    }
    CoversTranscribes(rs, local, sync, from, to);
  }

  lemma StoredIsRow(local: seq<Record>, s: Tx.Stream, sync: bool, m: nat, p: Pulled)
    requires Exact(local, s, sync, m) && p.seqNo in s && s[p.seqNo] == p.record
    ensures IsRowOf(p, local, sync)
  {
    hide Holds, Pushable;
  }

  lemma SliceReaches(rs: seq<Pulled>, s: Tx.Stream, from: nat, to: nat, q: nat)
    requires IsSlice(rs, s, from, to) && q in s && from < q <= to
    ensures Reaches(rs, q)
  {
  }

  // ---- cycle after cycle ----

  /** One finished pull of a host: which value of its stream the last request found, what it
      delivered, and the cursor it left. */
  datatype PullCycle = PullCycle(at: nat, got: seq<Pulled>, to: nat)

  function CursorBefore(cs: seq<PullCycle>, k: nat): nat
    requires k <= |cs|
  {
    if k == 0 then 0 else cs[k - 1].to
  }

  /** Successive pulls, each from the cursor the last one left. */
  ghost predicate Successive(past: seq<Tx.Stream>, cs: seq<PullCycle>) {
    && (forall k :: 0 <= k < |cs| ==> cs[k].at < |past| && Delivered(past[cs[k].at], cs[k].got, CursorBefore(cs, k), cs[k].to))
    && (forall k, l :: 0 <= k <= l < |cs| ==> cs[k].at <= cs[l].at)
  }

  function AllPulled(cs: seq<PullCycle>): seq<Pulled> {
    if cs == [] then [] else AllPulled(cs[..|cs| - 1]) + cs[|cs| - 1].got
  }

  lemma {:induction false} CyclesJoin(local: seq<Record>, past: seq<Tx.Stream>, sync: bool, cs: seq<PullCycle>)
    requires Lived(local, past, sync) && Successive(past, cs) && cs != []
    ensures cs[|cs| - 1].at < |past| && Delivered(past[cs[|cs| - 1].at], AllPulled(cs), 0, cs[|cs| - 1].to)
  {
    hide IsSlice, Extends, Reached, CursorOf, CaughtUp, Lived;
    var n := |cs| - 1;
    var c := cs[n];
    assert Delivered(past[c.at], c.got, CursorBefore(cs, n), c.to);
    if n == 0 {
      assert AllPulled(cs) == AllPulled([]) + c.got == c.got;
    } else {
      SuccessiveInit(past, cs);
      CyclesJoin(local, past, sync, cs[..n]);
      var b := cs[n - 1];
      assert b == cs[..n][n - 1];
      assert b.at <= c.at;
      LivedGrows(local, past, sync, b.at, c.at);
      PullsCompose(AllPulled(cs[..n]), c.got, past[b.at], past[c.at], 0, b.to, c.to);
    }
  }

  lemma SuccessiveInit(past: seq<Tx.Stream>, cs: seq<PullCycle>)
    requires Successive(past, cs) && cs != []
    ensures Successive(past, cs[..|cs| - 1])
  {
    hide Delivered;
    var init := cs[..|cs| - 1];
    assert forall k :: 0 <= k < |init| ==> init[k] == cs[k] && CursorBefore(init, k) == CursorBefore(cs, k);
  }

  lemma LivedGrows(local: seq<Record>, past: seq<Tx.Stream>, sync: bool, i: nat, j: nat)
    requires Lived(local, past, sync) && i <= j < |past|
    ensures Extends(past[i], past[j])
  {
    hide Extends, Reached;
  }

  /** However many times a host is pulled while it ingests, pushes, fails and has lost requests
      arrive late, what has been pulled of it is its pushed rows up to the cursor: every one,
      once, in order, as recorded. When the last pull found everything pushed, that is all. */
  lemma PulledIsRecorded(host: Host, cs: seq<PullCycle>)
    requires host.Valid() && Successive(host.past, cs) && cs != []
    ensures var to := cs[|cs| - 1].to;
      Transcribes(AllPulled(cs), PushedRows(host.local, host.syncPrompts, 0, to), host.syncPrompts)
    ensures cs[|cs| - 1].at < |host.past|
    ensures var to, s := cs[|cs| - 1].to, host.past[cs[|cs| - 1].at];
      forall i :: 0 <= i < |host.local| && Pushable(host.local[i], host.syncPrompts) && host.local[i].seqNo in s ==> host.local[i].seqNo <= to
  {
    hide Exact, Extends, Reached, IsSlice, Within;
    CyclesJoin(host.local, host.past, host.syncPrompts, cs);
    var c := cs[|cs| - 1];
    DeliveredIsRecorded(host.local, host.past[c.at], host.syncPrompts, AllPulled(cs), 0, c.to);
  }
}
