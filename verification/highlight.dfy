/** Which bytes of a row the search highlights: every occurrence of every term, sorted and
    merged. */
module Highlight {
  import opened ByteText
  import opened Match
  import opened Utf8
  import opened CaseFold
  import opened Redact

  type Range = r: Span | r.rule == "" witness Span(0, 0, "")

  function RangeOf(start: nat, end: nat): Range {
    Span(start, end, "")
  }

  /** A stretch of the row, cut between runes, that folds rune by rune to the needle. */
  predicate FoldedSlice(tb: Tables, s: string, needle: seq<Rune>, i: nat, j: nat) {
    i <= j <= |s| && Boundary(s, i) && Boundary(s, j) && LowerRunes(tb, Runes(s[i..j])) == needle
  }

  predicate IsOccurrence(tb: Tables, t: Term, s: string, r: Range) {
    && t.text != ""
    && if !t.fold then OccursAt(s, t.text, r.start) && r.end == r.start + |t.text|
       else if t.ascii then |t.lower| > 0 && FoldOccursAt(s, t.lower, r.start) && r.end == r.start + |t.lower|
       else FoldedSlice(tb, s, Runes(t.lower), r.start, r.end)
  }

  /** Folding to lower case keeps a term's bytes when it is ASCII, and never empties it. */
  predicate WellFormed(t: Term) {
    && (t.fold && t.ascii ==> |t.lower| == |t.text| && IsAscii(t.lower))
    && (t.fold && t.text != "" ==> t.lower != "")
  }

  /** strings.Index from a position on: the first occurrence, or -1. */
  method IndexFrom(s: string, x: string, from: nat) returns (i: int)
    requires from <= |s|
    ensures i < 0 ==> forall k: nat :: k >= from ==> !OccursAt(s, x, k)
    ensures i >= 0 ==> from <= i && OccursAt(s, x, i) && forall k: nat :: from <= k < i ==> !OccursAt(s, x, k)
  {
    var k := from;
    while k + |x| <= |s|
      invariant from <= k && forall m: nat :: from <= m < k ==> !OccursAt(s, x, m)
      decreases |s| - k
    {
      if s[k..k + |x|] == x { return k; }
      k := k + 1;
    }
    return -1;
  }

  /** Exact occurrences, overlapping ones included: step by one past each. */
  method ExactRanges(s: string, text: string, acc: seq<Range>) returns (out: seq<Range>)
    requires text != ""
    ensures forall r: Range :: r in out <==> r in acc || (OccursAt(s, text, r.start) && r.end == r.start + |text|)
  {
    out := acc;
    var from := 0;
    while true
      invariant from <= |s|
      invariant forall r: Range :: r in out <==> r in acc || (r.start < from && OccursAt(s, text, r.start) && r.end == r.start + |text|)
      decreases |s| - from
    {
      var abs := IndexFrom(s, text, from);
      if abs < 0 { return; }
      out := out + [RangeOf(abs, abs + |text|)];
      from := abs + 1;
    }
  }

  method AsciiRanges(s: string, lower: string, acc: seq<Range>) returns (out: seq<Range>)
    ensures forall r: Range :: r in out <==> r in acc || (FoldOccursAt(s, lower, r.start) && r.end == r.start + |lower|)
  {
    out := acc;
    var n := |lower|;
    var i := 0;
    while i <= |s| - n
      invariant 0 <= i
      invariant forall r: Range :: r in out <==> r in acc || (r.start < i && FoldOccursAt(s, lower, r.start) && r.end == r.start + n)
    {
      var j := 0;
      while j < n
        invariant 0 <= j <= n
        invariant forall m :: 0 <= m < j ==> LowerByte(s[i + m]) == lower[m]
      {
        var c := s[i + j];
        if 'A' <= c <= 'Z' {
          c := (c as int + ('a' as int - 'A' as int)) as char;
        }
        if c != lower[j] { break; }
        j := j + 1;
      }
      assert j == n <==> FoldOccursAt(s, lower, i);
      if j == n {
        out := out + [RangeOf(i, i + n)];
      }
      i := i + 1;
    }
  }

  // ---- folded occurrences ----

  /** One more rune of the row. */
  lemma SliceGrows(s: string, i: nat, p: nat)
    requires i <= p < |s| && Boundary(s, i) && Boundary(s, p)
    ensures var (r, size) := Decode(s[p..]);
      p + size <= |s| && Boundary(s, p + size) && Runes(s[i..p + size]) == Runes(s[i..p]) + [r]
  {
    hide Runes, Boundary, Decode;
    var (r, size) := Decode(s[p..]);
    var q := p + size;
    NextBoundary(s, p);
    RunesBetween(s, i, p);
    RunesBetween(s, i, q);
    Regrouped(Runes(s[i..p]), r, Runes(s[q..]));
    SameEnd(Runes(s[i..q]), Runes(s[i..p]) + [r], Runes(s[q..]));
  }

  lemma NextBoundary(s: string, p: nat)
    requires p < |s| && Boundary(s, p)
    ensures var (r, size) := Decode(s[p..]);
      p + size <= |s| && Boundary(s, p + size) && Runes(s[p..]) == [r] + Runes(s[p + size..])
  {
    hide Decode;
    var size := Decode(s[p..]).1;
    assert Boundary(s[p..], size);
    BoundaryJoins(s, p, p + size);
    RunesStep(s[p..]);
    assert s[p..][size..] == s[p + size..];
  }

  lemma Regrouped(a: seq<Rune>, r: Rune, b: seq<Rune>)
    ensures a + ([r] + b) == (a + [r]) + b
  {
  }

  lemma SameEnd(a: seq<Rune>, b: seq<Rune>, c: seq<Rune>)
    requires a + c == b + c
    ensures a == b
  {
    assert |a| == |b|;
    assert (a + c)[..|a|] == a && (b + c)[..|b|] == b;
  }

  /** A slice that goes on goes on with the next rune of the row. */
  lemma SliceNext(tb: Tables, s: string, needle: seq<Rune>, i: nat, p: nat, j: nat)
    requires i <= p <= |s| && Boundary(s, i) && Boundary(s, p) && FoldedSlice(tb, s, needle, i, j)
    requires |Runes(s[i..p])| < |needle|
    ensures p < |s| && tb.lower(Decode(s[p..]).0) == needle[|Runes(s[i..p])|]
  {
    RunesBetween(s, i, p);
    RunesBetween(s, i, j);
    var k := |Runes(s[i..p])|;
    assert Runes(s[i..])[k] == Runes(s[i..j])[k];
    assert Runes(s[p..]) != [];
    assert Runes(s[i..])[k] == Runes(s[p..])[0];
    RunesStep(s[p..]);
  }

  /** A start has at most one end. */
  lemma OneEnd(tb: Tables, s: string, needle: seq<Rune>, i: nat, j: nat, j': nat)
    requires FoldedSlice(tb, s, needle, i, j) && FoldedSlice(tb, s, needle, i, j') && j <= j'
    ensures j == j'
  {
    RunesBetween(s, i, j);
    RunesBetween(s, i, j');
    RunesBetween(s, j, j');
    assert |Runes(s[j..j'])| == 0;
    assert s[j..j'] == "";
  }

  /** How many bytes of the row, from i on, fold to the needle, or -1. */
  method MatchFoldAt(tb: Tables, s: string, i: nat, needle: seq<Rune>) returns (m: int)
    requires i <= |s| && Boundary(s, i)
    ensures m >= 0 ==> FoldedSlice(tb, s, needle, i, i + m)
    ensures m < 0 ==> forall j: nat :: !FoldedSlice(tb, s, needle, i, j)
  {
    hide Boundary, Runes, Decode;
    var p := i;
    NoRunes(s, i);
    for k := 0 to |needle|
      invariant i <= p <= |s| && Boundary(s, p) && LowerRunes(tb, Runes(s[i..p])) == needle[..k]
    {
      if p >= |s| {
        forall j: nat ensures !FoldedSlice(tb, s, needle, i, j) {
          if FoldedSlice(tb, s, needle, i, j) { SliceNext(tb, s, needle, i, p, j); }
        }
        return -1;
      }
      var (r, size) := Decode(s[p..]);
      if tb.lower(r) != needle[k] {
        forall j: nat ensures !FoldedSlice(tb, s, needle, i, j) {
          if FoldedSlice(tb, s, needle, i, j) { SliceNext(tb, s, needle, i, p, j); }
        }
        return -1;
      }
      SliceGrows(s, i, p);
      p := p + size;
    }
    assert needle[..|needle|] == needle;
    return p - i;
  }

  lemma NoRunes(s: string, i: nat)
    requires i <= |s|
    ensures Runes(s[i..i]) == []
  {
  }

  lemma NoneBetween(s: string, i: nat, k: nat)
    requires i < |s| && Boundary(s, i) && i < k < i + Decode(s[i..]).1
    ensures !Boundary(s, k)
  {
    BoundaryJoins(s, i, k);
  }

  /** The scan from rune to rune. */
  method RuneRanges(tb: Tables, s: string, needle: seq<Rune>, acc: seq<Range>) returns (out: seq<Range>)
    requires needle != []
    ensures forall r: Range :: r in out <==> r in acc || FoldedSlice(tb, s, needle, r.start, r.end)
  {
    hide Boundary, Runes, Decode;
    out := acc;
    var i := 0;
    StartIsBoundary(s);
    while i < |s|
      invariant i <= |s| && Boundary(s, i)
      invariant forall r: Range :: r in out <==> r in acc || (r.start < i && FoldedSlice(tb, s, needle, r.start, r.end))
      decreases |s| - i
    {
      var m := MatchFoldAt(tb, s, i, needle);
      var (_, size) := Decode(s[i..]);
      ghost var before := out;
      if m >= 0 {
        out := out + [RangeOf(i, i + m)];
      }
      SliceGrows(s, i, i);
      OneStart(tb, s, needle, i, m);
      i := i + size;
    }
    NoneAtEnd(tb, s, needle);
  }

  /** The slices that start before the next rune are those that start before this one, and at
      most one more. */
  lemma OneStart(tb: Tables, s: string, needle: seq<Rune>, i: nat, m: int)
    requires i < |s| && Boundary(s, i)
    requires if m >= 0 then FoldedSlice(tb, s, needle, i, i + m) else forall j: nat :: !FoldedSlice(tb, s, needle, i, j)
    ensures forall r: Range :: FoldedSlice(tb, s, needle, r.start, r.end) ==>
      (r.start < i + Decode(s[i..]).1 <==> r.start < i || (m >= 0 && r == RangeOf(i, i + m)))
  {
    hide Boundary, Runes, Decode;
    forall r: Range | FoldedSlice(tb, s, needle, r.start, r.end) && i <= r.start < i + Decode(s[i..]).1
      ensures m >= 0 && r == RangeOf(i, i + m)
    {
      if r.start > i {
        NoneBetween(s, i, r.start);
      } else if r.end <= i + m {
        OneEnd(tb, s, needle, i, r.end, i + m);
      } else {
        OneEnd(tb, s, needle, i, i + m, r.end);
      }
    }
  }

  lemma StartIsBoundary(s: string)
    ensures Boundary(s, 0)
  {
  }

  lemma NoneAtEnd(tb: Tables, s: string, needle: seq<Rune>)
    requires needle != []
    ensures forall i, j :: 0 <= i <= j <= |s| && i >= |s| ==> !FoldedSlice(tb, s, needle, i, j)
  {
    NoRunes(s, |s|);
  }

  method AppendRanges(tb: Tables, t: Term, s: string, acc: seq<Range>) returns (out: seq<Range>)
    requires WellFormed(t)
    ensures forall r: Range :: r in out <==> r in acc || IsOccurrence(tb, t, s, r)
  {
    if t.text == "" { return acc; }
    if !t.fold {
      out := ExactRanges(s, t.text, acc);
    } else if t.ascii {
      out := AsciiRanges(s, t.lower, acc);
    } else {
      out := RuneRanges(tb, s, Runes(t.lower), acc);
    }
  }

  /** The byte is part of an occurrence of some term. */
  ghost predicate Hit(tb: Tables, query: Query, s: string, i: int) {
    exists k, r: Range :: 0 <= k < |query| && IsOccurrence(tb, query[k], s, r) && r.start <= i < r.end
  }

  ghost predicate Begins(tb: Tables, query: Query, s: string, i: int) {
    exists k, r: Range :: 0 <= k < |query| && IsOccurrence(tb, query[k], s, r) && r.start == i
  }

  ghost predicate Ends(tb: Tables, query: Query, s: string, i: int) {
    exists k, r: Range :: 0 <= k < |query| && IsOccurrence(tb, query[k], s, r) && r.end == i
  }

  lemma OccurrencesFit(tb: Tables, t: Term, s: string, r: Range)
    requires WellFormed(t) && IsOccurrence(tb, t, s, r)
    ensures r.start < r.end <= |s|
  {
    if r.start == r.end && t.fold && !t.ascii {
      NoRunes(s, r.start);
    }
  }

  /** The highlighted ranges are ascending, never touch, lie within the row, and cover exactly
      the bytes that some term's occurrence covers. */
  method Ranges(tb: Tables, query: Query, s: string) returns (out: seq<Span>)
    requires forall k :: 0 <= k < |query| ==> WellFormed(query[k])
    ensures Fits(s, out) && Separate(out)
    ensures forall i :: Claimed(out, i) <==> Hit(tb, query, s, i)
    ensures forall k :: 0 <= k < |out| ==> Begins(tb, query, s, out[k].start) && Ends(tb, query, s, out[k].end)
  {
    var acc: seq<Range> := [];
    for k := 0 to |query|
      invariant forall r: Range :: r in acc <==> exists j :: 0 <= j < k && IsOccurrence(tb, query[j], s, r)
    {
      acc := AppendRanges(tb, query[k], s, acc);
    }
    out := MergeRanges(tb, query, s, acc);
  }

  method MergeRanges(tb: Tables, query: Query, s: string, acc: seq<Range>) returns (out: seq<Span>)
    requires forall k :: 0 <= k < |query| ==> WellFormed(query[k])
    requires forall r: Range :: r in acc <==> exists j :: 0 <= j < |query| && IsOccurrence(tb, query[j], s, r)
    ensures Fits(s, out) && Separate(out)
    ensures forall i :: Claimed(out, i) <==> Hit(tb, query, s, i)
    ensures forall k :: 0 <= k < |out| ==> Begins(tb, query, s, out[k].start) && Ends(tb, query, s, out[k].end)
  {
    var sorted := ByBoth(acc);
    SortedFit(tb, query, s, acc, sorted);
    hide Merges, IsOccurrence, Hit;
    MergedMerges(s, sorted);
    MergedParts(s, sorted);
    var a := new Span[|sorted|](i requires 0 <= i < |sorted| => sorted[i]);
    assert a[..] == sorted;
    var n := MergeInPlace(a);
    out := a[..n];
    forall i ensures Claimed(out, i) <==> Hit(tb, query, s, i) {
      ClaimedIsHit(tb, query, s, acc, sorted, i);
    }
    forall k | 0 <= k < |out| ensures Begins(tb, query, s, out[k].start) && Ends(tb, query, s, out[k].end) {
      EndsAreOccurrences(tb, query, s, acc, sorted, k);
    }
  }

  lemma EndsAreOccurrences(tb: Tables, query: Query, s: string, acc: seq<Range>, sorted: seq<Span>, k: nat)
    requires forall r: Range :: r in acc <==> exists j :: 0 <= j < |query| && IsOccurrence(tb, query[j], s, r)
    requires forall r :: r in sorted <==> r in acc
    requires Fits(s, sorted) && Merges(s, sorted, Merged(sorted)) && k < |Merged(sorted)|
    ensures Begins(tb, query, s, Merged(sorted)[k].start) && Ends(tb, query, s, Merged(sorted)[k].end)
  {
    hide IsOccurrence, Merges, Fits, Merged;
    var a, b := MergedEnds(s, sorted, Merged(sorted), k);
    assert sorted[a] in sorted && sorted[b] in sorted;
    var x: Range, y: Range := sorted[a], sorted[b];
    assert x in acc && y in acc;
  }

  lemma MergedParts(s: string, sorted: seq<Span>)
    requires Merges(s, sorted, Merged(sorted))
    ensures Fits(s, Merged(sorted)) && Separate(Merged(sorted))
    ensures forall i :: Claimed(Merged(sorted), i) <==> Claimed(sorted, i)
  {
  }

  lemma SortedFit(tb: Tables, query: Query, s: string, acc: seq<Range>, sorted: seq<Span>)
    requires (forall k :: 0 <= k < |query| ==> WellFormed(query[k])) && forall r: Range :: r in acc <==> exists j :: 0 <= j < |query| && IsOccurrence(tb, query[j], s, r)
    requires forall r :: r in sorted <==> r in acc
    ensures Fits(s, sorted)
  {
    hide IsOccurrence;
    forall k | 0 <= k < |sorted| ensures sorted[k].start < sorted[k].end <= |s| {
      assert sorted[k] in sorted;
      var r: Range := sorted[k];
      var j :| 0 <= j < |query| && IsOccurrence(tb, query[j], s, r);
      OccurrencesFit(tb, query[j], s, r);
    }
  }

  lemma ClaimedIsHit(tb: Tables, query: Query, s: string, acc: seq<Range>, sorted: seq<Span>, i: int)
    requires forall r: Range :: r in acc <==> exists j :: 0 <= j < |query| && IsOccurrence(tb, query[j], s, r)
    requires forall r :: r in sorted <==> r in acc
    ensures Claimed(sorted, i) <==> Hit(tb, query, s, i)
  {
    hide IsOccurrence;
    if Claimed(sorted, i) {
      var k :| 0 <= k < |sorted| && sorted[k].start <= i < sorted[k].end;
      assert sorted[k] in sorted;
      var r: Range := sorted[k];
      var j :| 0 <= j < |query| && IsOccurrence(tb, query[j], s, r);
    }
    if Hit(tb, query, s, i) {
      var k, r: Range :| 0 <= k < |query| && IsOccurrence(tb, query[k], s, r) && r.start <= i < r.end;
      assert r in acc && r in sorted;
      var m :| 0 <= m < |sorted| && sorted[m] == r;
    }
  }

  predicate Before(a: Span, b: Span) {
    a.start < b.start || (a.start == b.start && a.end <= b.end)
  }

  /** The library sort, by start and then by end. */
  method ByBoth(xs: seq<Range>) returns (ys: seq<Range>)
    ensures ByStart(ys) && forall r :: r in ys <==> r in xs
  {
    ys := [];
    for i := 0 to |xs|
      invariant (forall k, l :: 0 <= k < l < |ys| ==> Before(ys[k], ys[l])) && forall r :: r in ys <==> r in xs[..i]
    {
      var x := xs[i];
      var j := 0;
      while j < |ys| && Before(ys[j], x)
        invariant 0 <= j <= |ys| && forall k :: 0 <= k < j ==> Before(ys[k], x)
      {
        j := j + 1;
      }
      ghost var before := ys;
      ys := ys[..j] + [x] + ys[j..];
      assert before == before[..j] + before[j..];
      assert xs[..i + 1] == xs[..i] + [x];
    }
    assert xs[..|xs|] == xs;
  }

  lemma ParsedTermsWellFormed(tb: Tables, fields: string -> seq<string>, q: string)
    requires Sane(tb)
    ensures var query := Parse(TextTables(tb, fields), q);
      forall k :: 0 <= k < |query| ==> WellFormed(query[k]) && query[k] == ParseTerm(TextTables(tb, fields), query[k].text)
  {
    hide WellFormed, ParseTerm;
    var u := TextTables(tb, fields);
    forall k | 0 <= k < |FieldsOf(u, q)|
      ensures WellFormed(ParseTerm(u, FieldsOf(u, q)[k])) && ParseTerm(u, FieldsOf(u, q)[k]).text == FieldsOf(u, q)[k]
    {
      ParsedTermWellFormed(tb, fields, FieldsOf(u, q)[k]);
    }
  }

  lemma ParsedTermWellFormed(tb: Tables, fields: string -> seq<string>, f: string)
    requires Sane(tb)
    ensures var t := ParseTerm(TextTables(tb, fields), f); WellFormed(t) && t.text == f
  {
    TextIsRunewise(tb, fields, f);
    if IsAscii(f) {
      LowerAscii(f);
    }
  }

  lemma LowerAscii(s: string)
    requires IsAscii(s)
    ensures IsAscii(AsciiLower(s))
  {
    forall i | 0 <= i < |s| ensures AsciiLower(s)[i] as int < 0x80 {
      assert s[i] as int < 0x80;
    }
  }

  ghost predicate Occurs(tb: Tables, t: Term, s: string) {
    exists r: Range :: IsOccurrence(tb, t, s, r)
  }

  /** Looking for runes is looking for slices. */
  lemma FoldFoundIsSlice(tb: Tables, s: string, rs: seq<Rune>)
    ensures FoldFound(tb, s, rs) <==> exists i, j :: FoldedSlice(tb, s, LowerRunes(tb, rs), i, j)
  {
    hide Boundary, Runes;
    var a, b := LowerRunes(tb, Runes(s)), LowerRunes(tb, rs);
    if k: nat :| RunesAt(a, b, k) {
      var i := BoundaryOf(s, k);
      var j := BoundaryOf(s, k + |rs|);
      InOrder(s, i, j);
      RunesBetween(s, i, j);
      SameStart(Runes(s), k, |rs|, Runes(s[i..j]), Runes(s[j..]));
      assert LowerRunes(tb, Runes(s[i..j])) == a[k..k + |rs|];
      assert FoldedSlice(tb, s, b, i, j);
    }
    if i: nat, j: nat :| FoldedSlice(tb, s, b, i, j) {
      RunesBetween(s, i, j);
      InTheMiddle(Runes(s[..i]), Runes(s[i..j]), Runes(s[j..]));
      LowerAt(tb, Runes(s), Runes(s[i..j]), |Runes(s[..i])|);
      assert LowerRunes(tb, Runes(s[i..j])) == b;
      assert RunesAt(a, b, |Runes(s[..i])|);
    }
  }

  lemma SameStart(all: seq<Rune>, k: nat, n: nat, mid: seq<Rune>, end: seq<Rune>)
    requires k + n <= |all| && all[k..] == mid + end && all[k + n..] == end
    ensures mid == all[k..k + n]
  {
    assert |mid| == n;
    assert all[k..][..n] == all[k..k + n];
  }

  /** Fewer runes, fewer bytes. */
  lemma InOrder(s: string, i: nat, j: nat)
    requires i <= |s| && j <= |s| && Boundary(s, i) && Boundary(s, j) && |Runes(s[..i])| <= |Runes(s[..j])|
    ensures i <= j
  {
    hide Boundary;
    if j < i {
      RunesBetween(s, j, i);
      BoundarySplits(s, j);
      BoundarySplits(s, i);
    }
  }

  lemma TermIsHighlighted(tb: Tables, fields: string -> seq<string>, f: string, s: string)
    requires Sane(tb) && f != ""
    ensures var u := TextTables(tb, fields); TermMatches(u, ParseTerm(u, f), s) <==> Occurs(tb, ParseTerm(u, f), s)
  {
    var u := TextTables(tb, fields);
    var t := ParseTerm(u, f);
    TextIsRunewise(tb, fields, f);
    TextIsRunewise(tb, fields, s);
    if t.fold && !t.ascii {
      FoldedIsRunes(tb, s, f);
      FoldFoundIsSlice(tb, s, Runes(f));
      EncodedRunes(LowerRunes(tb, Runes(f)));
      SliceIsOccurrence(tb, t, s, LowerRunes(tb, Runes(f)));
    } else {
      BytesAreOccurrences(u, tb, t, s);
    }
  }

  lemma SliceIsOccurrence(tb: Tables, t: Term, s: string, needle: seq<Rune>)
    requires t.text != "" && t.fold && !t.ascii && Runes(t.lower) == needle
    ensures Occurs(tb, t, s) <==> exists i, j :: FoldedSlice(tb, s, needle, i, j)
  {
    hide FoldedSlice;
    if i: nat, j: nat :| FoldedSlice(tb, s, needle, i, j) {
      assert IsOccurrence(tb, t, s, RangeOf(i, j));
    }
    if r: Range :| IsOccurrence(tb, t, s, r) {
      assert FoldedSlice(tb, s, needle, r.start, r.end);
    }
  }

  lemma BytesAreOccurrences(u: Unicode, tb: Tables, t: Term, s: string)
    requires t.text != "" && WellFormed(t) && (t.fold ==> t.ascii)
    ensures TermMatches(u, t, s) <==> Occurs(tb, t, s)
  {
    if TermMatches(u, t, s) {
      if !t.fold {
        var i: nat :| i <= |s| && OccursAt(s, t.text, i);
        assert IsOccurrence(tb, t, s, RangeOf(i, i + |t.text|));
      } else {
        var i: nat :| i <= |s| && FoldOccursAt(s, t.lower, i);
        assert IsOccurrence(tb, t, s, RangeOf(i, i + |t.lower|));
      }
    }
    if r: Range :| IsOccurrence(tb, t, s, r) {
      assert if t.fold then FoldOccursAt(s, t.lower, r.start) else OccursAt(s, t.text, r.start);
    }
  }

  /** What matched is what is highlighted: a row matches a query exactly when every term has an
      occurrence to highlight, although matching folds the whole row and highlighting goes
      rune by rune. */
  lemma MatchIsHighlighted(tb: Tables, fields: string -> seq<string>, q: string, s: string)
    requires Sane(tb) && forall f <- fields(q) :: f != ""
    ensures var query := Parse(TextTables(tb, fields), q);
      Matches(TextTables(tb, fields), query, s) <==> forall k :: 0 <= k < |query| ==> Occurs(tb, query[k], s)
  {
    var u := TextTables(tb, fields);
    var fs, query := FieldsOf(u, q), Parse(u, q);
    hide TermMatches, Occurs;
    forall k | 0 <= k < |query| ensures TermMatches(u, query[k], s) <==> Occurs(tb, query[k], s) {
      assert fs[k] in fs;
      TermIsHighlighted(tb, fields, fs[k], s);
    }
  }

  // ---- no rune is split ----

  /** Well-encoded text. */
  ghost predicate IsText(x: string) {
    exists rs :: EncodeAll(rs) == x
  }

  lemma AsciiIsText(x: string)
    requires IsAscii(x)
    ensures EncodeAll(Runes(x)) == x
  {
    AsciiRunes(x);
    EncodeAscii(Runes(x));
  }

  lemma OccurrenceBetweenRunes(tb: Tables, t: Term, s: string, r: Range)
    requires WellFormed(t) && IsText(t.text) && IsOccurrence(tb, t, s, r)
    ensures r.end <= |s| && Boundary(s, r.start) && Boundary(s, r.end)
  {
    hide Boundary, Runes, EncodeAll;
    if !t.fold {
      var rs :| EncodeAll(rs) == t.text;
      NoText();
      FoundBetweenRunes(s, rs, r.start);
    } else if t.ascii {
      var x := s[r.start..r.end];
      forall j | 0 <= j < |x| ensures x[j] as int < 0x80 {
        assert x[j] == s[r.start + j] && LowerByte(s[r.start + j]) == t.lower[j];
      }
      AsciiIsText(x);
      NoText();
      FoundBetweenRunes(s, Runes(x), r.start);
    }
  }

  lemma NoText()
    ensures EncodeAll([]) == ""
  {
  }

  /** The ends of a merged range are ends of ranges that went into it. */
  lemma MergedEnds(s: string, xs: seq<Span>, m: seq<Span>, k: nat) returns (a: nat, b: nat)
    requires Merges(s, xs, m) && Fits(s, xs) && k < |m|
    ensures a < |xs| && xs[a].start == m[k].start
    ensures b < |xs| && xs[b].end == m[k].end
  {
    EndIsFree(s, xs, m, k);
    assert Claimed(m, m[k].end - 1);
    b :| 0 <= b < |xs| && xs[b].start <= m[k].end - 1 < xs[b].end;
    assert !(xs[b].start <= m[k].end < xs[b].end);
    hide Claimed;
    a := FirstIsThere(xs, m[k].start);
  }

  lemma {:induction false} FirstIsThere(xs: seq<Span>, i: int) returns (a: nat)
    requires FirstAt(xs, i).Some?
    ensures a < |xs| && xs[a].start == i
  {
    if FirstAt(xs[..|xs| - 1], i).Some? {
      a := FirstIsThere(xs[..|xs| - 1], i);
    } else {
      a := |xs| - 1;
    }
  }

  lemma EndsBetweenRunes(tb: Tables, query: Query, s: string, i: int, j: int)
    requires forall k :: 0 <= k < |query| ==> WellFormed(query[k]) && IsText(query[k].text)
    requires Begins(tb, query, s, i) && Ends(tb, query, s, j)
    ensures 0 <= i <= |s| && 0 <= j <= |s| && Boundary(s, i) && Boundary(s, j)
  {
    hide IsOccurrence, WellFormed, IsText, Boundary;
    var a, x: Range :| 0 <= a < |query| && IsOccurrence(tb, query[a], s, x) && x.start == i;
    var b, y: Range :| 0 <= b < |query| && IsOccurrence(tb, query[b], s, y) && y.end == j;
    OccurrenceBetweenRunes(tb, query[a], s, x);
    OccurrenceBetweenRunes(tb, query[b], s, y);
    OccurrencesFit(tb, query[a], s, x);
  }

  /** Highlighting the answer to a query: ranges as Ranges says, and when the query is
      well-encoded text, whatever the row is, no range begins or ends inside a rune. */
  method HighlightRow(tb: Tables, fields: string -> seq<string>, q: string, s: string) returns (out: seq<Span>)
    requires Sane(tb) && forall f <- fields(q) :: f != ""
    ensures Fits(s, out) && Separate(out)
    ensures forall i :: Claimed(out, i) <==> Hit(tb, Parse(TextTables(tb, fields), q), s, i)
    ensures (forall k :: 0 <= k < |FieldsOf(TextTables(tb, fields), q)| ==> IsText(FieldsOf(TextTables(tb, fields), q)[k])) ==>
      forall k :: 0 <= k < |out| ==> Boundary(s, out[k].start) && Boundary(s, out[k].end)
  {
    ParsedTermsWellFormed(tb, fields, q);
    hide WellFormed, ParseTerm, IsOccurrence, IsText, Boundary, Separate, Claimed, Hit;
    var u := TextTables(tb, fields);
    out := Ranges(tb, Parse(u, q), s);
    if forall k :: 0 <= k < |FieldsOf(u, q)| ==> IsText(FieldsOf(u, q)[k]) {
      forall k | 0 <= k < |out| ensures Boundary(s, out[k].start) && Boundary(s, out[k].end) {
        EndsBetweenRunes(tb, Parse(u, q), s, out[k].start, out[k].end);
      }
    }
  }
}
