/** Blanking credentials out of a command: the ranges the rules claim are sorted, merged and
    spliced, against what the result should be byte by byte. */
module Redact {
  import opened Wrappers

  /** One claimed range and the rule that claimed it. */
  datatype Span = Span(start: nat, end: nat, rule: string)

  /** A rule against one text: whether its hints are there, and the submatch offsets of each
      match, a pair per group, negative for a group that took no part. */
  datatype Rule = Rule(name: string, secret: int, hinted: bool, locs: seq<seq<int>>)

  // The marker's brackets in UTF-8.
  const MARK_PREFIX := "\U{00E2}\U{009F}\U{00AA}redacted:"
  const MARK_SUFFIX := "\U{00E2}\U{009F}\U{00AB}"

  function Mark(rule: string): string {
    MARK_PREFIX + rule + MARK_SUFFIX
  }

  predicate IsMark(s: string) {
    MARK_PREFIX <= s && |MARK_SUFFIX| <= |s| && s[|s| - |MARK_SUFFIX|..] == MARK_SUFFIX
  }

  predicate IsPair(text: string, a: int, b: int) {
    a < 0 || a <= b <= |text|
  }

  /** What the regular expression library returns: whole pairs, each within the text. */
  predicate IsLoc(text: string, loc: seq<int>) {
    |loc| >= 2 && |loc| % 2 == 0 && forall g :: 0 <= g < |loc| / 2 ==> IsPair(text, loc[2 * g], loc[2 * g + 1])
  }

  /** The group a rule names as the secret, or the whole match. */
  function Range(r: Rule, loc: seq<int>): (int, int)
    requires |loc| >= 2
  {
    if r.secret > 0 && 2 * r.secret + 1 < |loc| then (loc[2 * r.secret], loc[2 * r.secret + 1]) else (loc[0], loc[1])
  }

  predicate Claims(text: string, r: Rule, loc: seq<int>)
    requires IsLoc(text, loc)
  {
    var (a, b) := Range(r, loc);
    assert r.secret > 0 && 2 * r.secret + 1 < |loc| ==> IsPair(text, loc[2 * r.secret], loc[2 * r.secret + 1]);
    assert IsPair(text, loc[2 * 0], loc[2 * 0 + 1]);
    0 <= a < b && !IsMark(text[a..b])
  }

  /** Every claim of every rule, in table order. */
  function RuleClaims(text: string, r: Rule, locs: seq<seq<int>>): seq<Span>
    requires forall loc <- locs :: IsLoc(text, loc)
  {
    if locs == [] then []
    else
      var loc := locs[|locs| - 1];
      RuleClaims(text, r, locs[..|locs| - 1])
      + if Claims(text, r, loc) then [Span(Range(r, loc).0, Range(r, loc).1, r.name)] else []
  }

  predicate RulesFit(text: string, rules: seq<Rule>) {
    forall r <- rules :: forall loc <- r.locs :: IsLoc(text, loc)
  }

  function AllClaims(text: string, rules: seq<Rule>): seq<Span>
    requires RulesFit(text, rules)
  {
    if rules == [] then []
    else
      var r := rules[|rules| - 1];
      AllClaims(text, rules[..|rules| - 1]) + if r.hinted then RuleClaims(text, r, r.locs) else []
  }

  predicate Fits(text: string, xs: seq<Span>) {
    forall k :: 0 <= k < |xs| ==> xs[k].start < xs[k].end <= |text|
  }

  lemma RangeFits(text: string, r: Rule, loc: seq<int>)
    requires IsLoc(text, loc) && Claims(text, r, loc)
    ensures Range(r, loc).1 <= |text|
  {
    assert r.secret > 0 && 2 * r.secret + 1 < |loc| ==> IsPair(text, loc[2 * r.secret], loc[2 * r.secret + 1]);
    assert IsPair(text, loc[2 * 0], loc[2 * 0 + 1]);
  }

  lemma {:induction false} RuleClaimsFit(text: string, r: Rule, locs: seq<seq<int>>)
    requires forall loc <- locs :: IsLoc(text, loc)
    ensures Fits(text, RuleClaims(text, r, locs))
  {
    if locs != [] {
      RuleClaimsFit(text, r, locs[..|locs| - 1]);
      if Claims(text, r, locs[|locs| - 1]) {
        RangeFits(text, r, locs[|locs| - 1]);
      }
    }
  }

  lemma {:induction false} AllClaimsFit(text: string, rules: seq<Rule>)
    requires RulesFit(text, rules)
    ensures Fits(text, AllClaims(text, rules))
  {
    if rules != [] {
      var r := rules[|rules| - 1];
      AllClaimsFit(text, rules[..|rules| - 1]);
      RuleClaimsFit(text, r, r.locs);
    }
  }

  // ---- what the result should be ----

  predicate Claimed(xs: seq<Span>, i: int) {
    exists k :: 0 <= k < |xs| && xs[k].start <= i < xs[k].end
  }

  /** The first claim, in the order given, that starts at i. */
  function FirstAt(xs: seq<Span>, i: int): Option<Span> {
    if xs == [] then None
    else
      var f := FirstAt(xs[..|xs| - 1], i);
      if f.Some? then f else if xs[|xs| - 1].start == i then Some(xs[|xs| - 1]) else None
  }

  function NameAt(xs: seq<Span>, i: int): string {
    match FirstAt(xs, i)
    case Some(s) => s.rule
    case None => ""
  }

  /** Byte by byte: an unclaimed byte stays, and each stretch of claimed bytes becomes one mark
      with the name of the first claim in table order that starts where the stretch starts. */
  function Blanked(text: string, claims: seq<Span>, i: nat): string
    requires i <= |text|
    decreases |text| - i
  {
    if i == |text| then ""
    else if !Claimed(claims, i) then [text[i]] + Blanked(text, claims, i + 1)
    else if !Claimed(claims, i - 1) then Mark(NameAt(claims, i)) + Blanked(text, claims, i + 1)
    else Blanked(text, claims, i + 1)
  }

  // ---- sorting ----

  predicate ByStart(xs: seq<Span>) {
    forall k, l :: 0 <= k < l < |xs| ==> xs[k].start <= xs[l].start
  }

  /** A stable sort: a later claim goes after everything that starts no later. */
  function Insert(ys: seq<Span>, x: Span): seq<Span> {
    if ys == [] || ys[|ys| - 1].start <= x.start then ys + [x]
    else Insert(ys[..|ys| - 1], x) + [ys[|ys| - 1]]
  }

  function Sorted(xs: seq<Span>): seq<Span> {
    if xs == [] then [] else Insert(Sorted(xs[..|xs| - 1]), xs[|xs| - 1])
  }

  lemma {:induction false} InsertHolds(ys: seq<Span>, x: Span, s: Span)
    ensures s in Insert(ys, x) <==> s in ys || s == x
  {
    if ys != [] && ys[|ys| - 1].start > x.start {
      InsertHolds(ys[..|ys| - 1], x, s);
      assert ys == ys[..|ys| - 1] + [ys[|ys| - 1]];
    }
  }

  lemma {:induction false} InsertSorts(ys: seq<Span>, x: Span)
    requires ByStart(ys)
    ensures ByStart(Insert(ys, x)) && |Insert(ys, x)| == |ys| + 1
  {
    if ys != [] && ys[|ys| - 1].start > x.start {
      var init, last := ys[..|ys| - 1], ys[|ys| - 1];
      InsertSorts(init, x);
      var zs := Insert(init, x);
      forall k | 0 <= k < |zs| ensures zs[k].start <= last.start {
        InsertHolds(init, x, zs[k]);
        if zs[k] in init {
          var j :| 0 <= j < |init| && init[j] == zs[k];
          assert ys[j] == zs[k];
        }
      }
    }
  }

  lemma {:induction false} InsertFirst(ys: seq<Span>, x: Span, i: int)
    requires ByStart(ys)
    ensures FirstAt(Insert(ys, x), i) == if FirstAt(ys, i).Some? then FirstAt(ys, i) else if x.start == i then Some(x) else None
  {
    if ys == [] || ys[|ys| - 1].start <= x.start {
      assert (ys + [x])[..|ys|] == ys;
    } else {
      var init, last := ys[..|ys| - 1], ys[|ys| - 1];
      InsertFirst(init, x, i);
      var zs := Insert(init, x);
      assert (zs + [last])[..|zs|] == zs;
    }
  }

  /** Sorting keeps the claims, and with them which one comes first at each start. */
  lemma {:induction false} SortKeeps(xs: seq<Span>)
    ensures ByStart(Sorted(xs)) && |Sorted(xs)| == |xs|
    ensures forall s :: s in Sorted(xs) <==> s in xs
    ensures forall i :: FirstAt(Sorted(xs), i) == FirstAt(xs, i)
  {
    if xs != [] {
      var init, last := xs[..|xs| - 1], xs[|xs| - 1];
      SortKeeps(init);
      assert xs == init + [last];
      hide Insert, FirstAt, ByStart;
      InsertSorts(Sorted(init), last);
      forall s ensures s in Sorted(xs) <==> s in xs {
        InsertHolds(Sorted(init), last, s);
      }
      forall i ensures FirstAt(Sorted(xs), i) == FirstAt(xs, i) {
        InsertFirst(Sorted(init), last, i);
        FirstAtMore(init, last, i);
      }
    }
  }

  lemma SameClaimed(xs: seq<Span>, ys: seq<Span>, i: int)
    requires forall s <- xs :: s in ys
    ensures Claimed(xs, i) ==> Claimed(ys, i)
  {
    if k :| 0 <= k < |xs| && xs[k].start <= i < xs[k].end {
      assert xs[k] in ys;
    }
  }

  // ---- merging ----

  function MergeOne(m: seq<Span>, s: Span): seq<Span>
    requires m != []
  {
    var last := m[|m| - 1];
    if s.start <= last.end then if s.end > last.end then m[|m| - 1 := last.(end := s.end)] else m
    else m + [s]
  }

  function Merged(xs: seq<Span>): (m: seq<Span>)
    ensures xs == [] <==> m == []
    ensures |m| <= |xs|
  {
    if |xs| <= 1 then xs else MergeOne(Merged(xs[..|xs| - 1]), xs[|xs| - 1])
  }

  /** Ascending, and not even touching. */
  ghost predicate Separate(m: seq<Span>) {
    forall k, l :: 0 <= k < l < |m| ==> m[k].end < m[l].start
  }

  /** What merging gives so far: the same bytes claimed, the last span reaching as far as any
      claim, and each span named after the first claim that starts where it does. */
  ghost predicate Merges(text: string, xs: seq<Span>, m: seq<Span>) {
    && Fits(text, m) && Separate(m)
    && (forall i :: Claimed(m, i) <==> Claimed(xs, i))
    && (forall k :: 0 <= k < |xs| ==> m != [] && xs[k].end <= m[|m| - 1].end)
    && (forall k :: 0 <= k < |m| ==> FirstAt(xs, m[k].start).Some? && FirstAt(xs, m[k].start).value.rule == m[k].rule)
  }

  lemma {:induction false} MergedMerges(text: string, xs: seq<Span>)
    requires Fits(text, xs) && ByStart(xs)
    ensures Merges(text, xs, Merged(xs))
  {
    if |xs| <= 1 {
      AloneMerges(text, xs);
    } else {
      hide Merges, MergeOne;
      var n := |xs| - 1;
      assert xs == xs[..n] + [xs[n]];
      MergedMerges(text, xs[..n]);
      MergeOneMerges(text, xs[..n], Merged(xs[..n]), xs[n]);
    }
  }

  lemma AloneMerges(text: string, xs: seq<Span>)
    requires Fits(text, xs) && |xs| <= 1
    ensures Merges(text, xs, xs)
  {
    if xs != [] {
      assert xs[..0] == [];
      assert FirstAt(xs, xs[0].start) == Some(xs[0]);
    }
  }

  lemma ClaimedMore(xs: seq<Span>, s: Span, i: int)
    ensures Claimed(xs + [s], i) <==> Claimed(xs, i) || s.start <= i < s.end
  {
    var ys := xs + [s];
    if k :| 0 <= k < |xs| && xs[k].start <= i < xs[k].end {
      assert ys[k] == xs[k];
    }
    assert ys[|xs|] == s;
  }

  lemma {:induction false} FirstAtNone(xs: seq<Span>, i: int)
    requires forall k :: 0 <= k < |xs| ==> xs[k].start < i
    ensures FirstAt(xs, i) == None
  {
    if xs != [] {
      FirstAtNone(xs[..|xs| - 1], i);
    }
  }

  lemma {:induction false} FirstAtIn(xs: seq<Span>, i: int)
    ensures FirstAt(xs, i).Some? ==> FirstAt(xs, i).value.start == i && exists k :: 0 <= k < |xs| && xs[k] == FirstAt(xs, i).value
  {
    if xs != [] {
      FirstAtIn(xs[..|xs| - 1], i);
      assert forall k :: 0 <= k < |xs| - 1 ==> xs[..|xs| - 1][k] == xs[k];
    }
  }

  lemma FirstAtMore(xs: seq<Span>, s: Span, i: int)
    ensures FirstAt(xs + [s], i) == if FirstAt(xs, i).Some? then FirstAt(xs, i) else if s.start == i then Some(s) else None
  {
    assert (xs + [s])[..|xs|] == xs;
  }

  lemma MergeOneMerges(text: string, xs: seq<Span>, m: seq<Span>, s: Span)
    requires m != [] && Fits(text, xs + [s]) && ByStart(xs + [s]) && Merges(text, xs, m)
    ensures Merges(text, xs + [s], MergeOne(m, s))
  {
    hide FirstAt, Claimed;
    var m', all, n := MergeOne(m, s), xs + [s], |m| - 1;
    FirstAtIn(xs, m[n].start);
    assert all[|xs|] == s && forall k :: 0 <= k < |xs| ==> all[k] == xs[k];
    forall k | 0 <= k < |m'| ensures FirstAt(all, m'[k].start).Some? && FirstAt(all, m'[k].start).value.rule == m'[k].rule {
      FirstAtMore(xs, s, m'[k].start);
      if k == |m| {
        FirstAtNone(xs, s.start);
      }
    }
    forall i ensures Claimed(m', i) <==> Claimed(all, i) {
      ClaimedMore(xs, s, i);
      MergeOneClaims(xs, m, s, i);
    }
  }

  /** The merged spans claim what they did and what the new one does. */
  lemma MergeOneClaims(xs: seq<Span>, m: seq<Span>, s: Span, i: int)
    requires m != [] && s.start < s.end && m[|m| - 1].start <= s.start && m[|m| - 1].start < m[|m| - 1].end
    ensures Claimed(MergeOne(m, s), i) <==> Claimed(m, i) || s.start <= i < s.end
  {
    var n := |m| - 1;
    var last := m[n];
    assert m == m[..n] + [last];
    ClaimedMore(m[..n], last, i);
    if s.start > last.end {
      ClaimedMore(m, s, i);
    } else if s.end > last.end {
      assert m[n := last.(end := s.end)] == m[..n] + [last.(end := s.end)];
      ClaimedMore(m[..n], last.(end := s.end), i);
    }
  }

  // ---- splicing ----

  /** Each span replaced by its mark, everything else kept in order, from a position on. */
  function Spliced(text: string, m: seq<Span>, i: nat): string
    requires Fits(text, m) && Separate(m) && i <= |text| && (m != [] ==> i <= m[0].start)
    decreases |m|
  {
    if m == [] then text[i..]
    else
      assert m[1..] != [] ==> m[1..][0] == m[1];
      text[i..m[0].start] + Mark(m[0].rule) + Spliced(text, m[1..], m[0].end)
  }

  lemma Assoc(a: string, b: string, c: string)
    ensures (a + b) + c == a + (b + c)
  {
  }

  /** Starting later drops just the bytes in between. */
  lemma SplicedFrom(text: string, m: seq<Span>, i: nat, j: nat)
    requires Fits(text, m) && Separate(m) && i <= j <= |text| && (m != [] ==> j <= m[0].start)
    ensures Spliced(text, m, i) == text[i..j] + Spliced(text, m, j)
  {
    hide Mark;
    if m == [] {
      assert text[i..] == text[i..j] + text[j..];
    } else {
      hide Separate, Fits;
      var p := m[0].start;
      var mark, rest := Mark(m[0].rule), SplicedRest(text, m);
      assert p <= |text| && Spliced(text, m, i) == text[i..p] + mark + rest && Spliced(text, m, j) == text[j..p] + mark + rest by {
        SplicedHead(text, m, i);
        SplicedHead(text, m, j);
      }
      assert text[i..p] == text[i..j] + text[j..p];
      Assoc(text[i..j], text[j..p], mark);
      Assoc(text[i..j], text[j..p] + mark, rest);
    }
  }

  /** What follows the first mark. */
  function SplicedRest(text: string, m: seq<Span>): string
    requires Fits(text, m) && Separate(m) && m != []
  {
    assert m[1..] != [] ==> m[1..][0] == m[1];
    Spliced(text, m[1..], m[0].end)
  }

  lemma SplicedHead(text: string, m: seq<Span>, i: nat)
    requires Fits(text, m) && Separate(m) && m != [] && i <= m[0].start
    ensures m[0].start <= |text| && Spliced(text, m, i) == text[i..m[0].start] + Mark(m[0].rule) + SplicedRest(text, m)
  {
  }

  /** The byte before a merged span is not claimed, the bytes of it are. */
  lemma StretchStarts(text: string, xs: seq<Span>, m: seq<Span>, k: nat, i: int)
    requires Merges(text, xs, m) && k < |m|
    ensures !Claimed(xs, m[k].start - 1)
    ensures m[k].start <= i < m[k].end ==> Claimed(xs, i)
    ensures m[k].start < i < m[k].end ==> Claimed(xs, i - 1)
  {
    assert m[k].start <= i < m[k].end ==> Claimed(m, i);
    assert m[k].start < i < m[k].end ==> Claimed(m, i - 1);
    forall j | 0 <= j < |m| ensures !(m[j].start <= m[k].start - 1 < m[j].end) {
      assert j < k || j == k || j > k;
    }
    assert !Claimed(m, m[k].start - 1);
  }

  /** From inside a span on, nothing comes out until its end. */
  lemma {:induction false} InsideBlank(text: string, xs: seq<Span>, m: seq<Span>, k: nat, i: nat)
    requires Merges(text, xs, m) && k < |m| && m[k].start < i <= m[k].end
    ensures i <= |text| && m[k].end <= |text| && Blanked(text, xs, i) == Blanked(text, xs, m[k].end)
    decreases m[k].end - i
  {
    hide Merges, Claimed, FirstAt, Mark;
    RestFits(text, xs, m, k);
    if i < m[k].end {
      StretchStarts(text, xs, m, k, i);
      InsideBlank(text, xs, m, k, i + 1);
    }
  }

  /** A merged span comes out as its mark. */
  lemma SpanBlank(text: string, xs: seq<Span>, m: seq<Span>, k: nat)
    requires Merges(text, xs, m) && k < |m|
    ensures m[k].start < m[k].end <= |text|
    ensures Blanked(text, xs, m[k].start) == Mark(m[k].rule) + Blanked(text, xs, m[k].end)
  {
    hide Claimed, FirstAt, Mark;
    StretchStarts(text, xs, m, k, m[k].start);
    InsideBlank(text, xs, m, k, m[k].start + 1);
    assert NameAt(xs, m[k].start) == m[k].rule;
  }

  lemma GapBlank(text: string, xs: seq<Span>, m: seq<Span>, k: nat, i: nat)
    requires Merges(text, xs, m) && k <= |m| && i < |text| && (k > 0 ==> m[k - 1].end <= i) && (k < |m| ==> i < m[k].start)
    ensures Blanked(text, xs, i) == [text[i]] + Blanked(text, xs, i + 1)
  {
    forall j | 0 <= j < |m| ensures !(m[j].start <= i < m[j].end) {
      assert j < k - 1 || j == k - 1 || j == k || j > k;
    }
    assert !Claimed(m, i);
  }

  lemma RestFits(text: string, xs: seq<Span>, m: seq<Span>, k: nat)
    requires Merges(text, xs, m) && k <= |m|
    ensures Fits(text, m[k..]) && Separate(m[k..])
    ensures k < |m| ==> m[k..] != [] && m[k..][0] == m[k] && m[k..][1..] == m[k + 1..] && m[k].end <= |text|
    ensures k + 1 < |m| ==> m[k].end < m[k + 1].start
  {
    assert k < |m| ==> m[k..][1..] == m[k + 1..];
  }

  lemma RestAfter(text: string, m: seq<Span>, k: nat)
    requires k < |m| && Fits(text, m[k..]) && Separate(m[k..]) && m[k..][0] == m[k] && m[k..][1..] == m[k + 1..]
    requires Fits(text, m[k + 1..]) && Separate(m[k + 1..]) && m[k].end <= |text| && (k + 1 < |m| ==> m[k].end <= m[k + 1..][0].start)
    ensures SplicedRest(text, m[k..]) == Spliced(text, m[k + 1..], m[k].end)
  {
    hide Spliced;
  }

  /** From the start of a span: its mark, and what comes after it. */
  lemma SpanSpliced(text: string, xs: seq<Span>, m: seq<Span>, k: nat)
    requires Merges(text, xs, m) && k < |m|
    requires Fits(text, m[k + 1..]) && Separate(m[k + 1..]) && m[k].end <= |text|
    requires (k + 1 < |m| ==> m[k + 1..][0] == m[k + 1] && m[k].end < m[k + 1].start)
    requires Spliced(text, m[k + 1..], m[k].end) == Blanked(text, xs, m[k].end)
    ensures m[k].start <= |text| && Fits(text, m[k..]) && Separate(m[k..]) && m[k..][0] == m[k]
    ensures Spliced(text, m[k..], m[k].start) == Blanked(text, xs, m[k].start)
  {
    hide Claimed, FirstAt, Mark, Spliced, SplicedRest, Blanked, Merges, Fits, Separate;
    RestFits(text, xs, m, k);
    SpanBlank(text, xs, m, k);
    RestAfter(text, m, k);
    SplicedHead(text, m[k..], m[k].start);
    assert text[m[k].start..m[k].start] == "";
  }

  /** Splicing the merged spans is blanking the claims, from any position between spans. */
  lemma {:induction false} SplicedIsBlanked(text: string, xs: seq<Span>, m: seq<Span>, k: nat, i: nat)
    requires Merges(text, xs, m) && k <= |m| && i <= |text| && (k > 0 ==> m[k - 1].end <= i) && (k < |m| ==> i <= m[k].start)
    ensures Fits(text, m[k..]) && Separate(m[k..]) && (k < |m| ==> m[k..][0] == m[k]) && Spliced(text, m[k..], i) == Blanked(text, xs, i)
    decreases |text| - i
  {
    hide Claimed, FirstAt, Mark, Spliced, SplicedRest, Blanked, Merges, Fits, Separate;
    RestFits(text, xs, m, k);
    if k < |m| && i == m[k].start {
      SpanBlank(text, xs, m, k);
      SplicedIsBlanked(text, xs, m, k + 1, m[k].end);
      SpanSpliced(text, xs, m, k);
    } else if i < |text| {
      GapBlank(text, xs, m, k, i);
      SplicedIsBlanked(text, xs, m, k, i + 1);
      SplicedFrom(text, m[k..], i, i + 1);
      assert text[i..i + 1] == [text[i]];
    } else {
      AtEnd(text, xs, m[k..]);
    }
  }

  lemma AtEnd(text: string, xs: seq<Span>, m: seq<Span>)
    requires Fits(text, m) && Separate(m) && (m != [] ==> |text| <= m[0].start)
    ensures Spliced(text, m, |text|) == Blanked(text, xs, |text|)
  {
  }

  /** Claims in any order claim the same bytes, so sorting first does not change the result. */
  lemma {:induction false} BlankedSame(text: string, xs: seq<Span>, ys: seq<Span>, i: nat)
    requires i <= |text| && (forall j :: Claimed(xs, j) <==> Claimed(ys, j)) && (forall j :: FirstAt(xs, j) == FirstAt(ys, j))
    ensures Blanked(text, xs, i) == Blanked(text, ys, i)
    decreases |text| - i
  {
    hide Claimed, FirstAt, Mark;
    if i < |text| {
      BlankedSame(text, xs, ys, i + 1);
      assert Claimed(xs, i) <==> Claimed(ys, i);
      assert Claimed(xs, i - 1) <==> Claimed(ys, i - 1);
      assert FirstAt(xs, i) == FirstAt(ys, i);
    }
  }

  // ---- the filter ----

  method Collect(text: string, rules: seq<Rule>) returns (found: seq<Span>)
    requires RulesFit(text, rules)
    ensures found == AllClaims(text, rules)
  {
    found := [];
    for i := 0 to |rules|
      invariant found == AllClaims(text, rules[..i])
    {
      assert rules[..i + 1][..i] == rules[..i];
      if !rules[i].hinted { continue; }
      var locs := rules[i].locs;
      assert rules[i] in rules;
      for j := 0 to |locs|
        invariant found == AllClaims(text, rules[..i]) + RuleClaims(text, rules[i], locs[..j])
      {
        assert locs[..j + 1][..j] == locs[..j];
        assert locs[j] in rules[i].locs;
        var (a, b) := Range(rules[i], locs[j]);
        if a < 0 || b <= a { continue; }
        RangeWithin(text, rules[i], locs[j]);
        if IsMark(text[a..b]) { continue; }
        found := found + [Span(a, b, rules[i].name)];
      }
      assert locs[..|locs|] == locs;
    }
    assert rules[..|rules|] == rules;
  }

  lemma RangeWithin(text: string, r: Rule, loc: seq<int>)
    requires IsLoc(text, loc) && Range(r, loc).0 >= 0
    ensures Range(r, loc).1 <= |text|
  {
    assert r.secret > 0 && 2 * r.secret + 1 < |loc| ==> IsPair(text, loc[2 * r.secret], loc[2 * r.secret + 1]);
    assert IsPair(text, loc[2 * 0], loc[2 * 0 + 1]);
  }

  lemma MergedStep(xs: seq<Span>, i: nat)
    requires 0 < i < |xs|
    ensures Merged(xs[..i]) != [] && Merged(xs[..i + 1]) == MergeOne(Merged(xs[..i]), xs[i])
  {
    assert xs[..i + 1][..i] == xs[..i];
  }

  lemma MergedFirst(xs: seq<Span>)
    requires xs != []
    ensures Merged(xs[..1]) == xs[..1]
  {
  }

  lemma MergedNothing()
    ensures Merged([]) == []
  {
  }

  /** The merge reuses the array it reads: the merged part never overtakes the reading. */
  method MergeInPlace(a: array<Span>) returns (n: nat)
    modifies a
    ensures n <= a.Length && a[..n] == Merged(old(a[..]))
  {
    hide Merged;
    ghost var xs := a[..];
    if a.Length == 0 {
      MergedNothing();
      return 0;
    }
    n := 1;
    var i := 1;
    MergedFirst(xs);
    assert a[..1] == xs[..1];
    while i < a.Length
      invariant 1 <= n <= i <= a.Length
      invariant a[..n] == Merged(xs[..i])
      invariant forall k :: i <= k < a.Length ==> a[k] == xs[k]
    {
      var s := a[i];
      MergedStep(xs, i);
      var last := a[n - 1];
      if s.start <= last.end {
        if s.end > last.end {
          a[n - 1] := last.(end := s.end);
          assert a[..n] == Merged(xs[..i])[n - 1 := last.(end := s.end)];
        }
      } else {
        a[n] := s;
        n := n + 1;
        assert a[..n] == Merged(xs[..i]) + [s];
      }
      i := i + 1;
    }
    assert xs[..a.Length] == xs;
  }

  /** The ranges to blank: all claims, sorted by start, overlapping and touching ones merged. */
  method Spans(text: string, rules: seq<Rule>) returns (m: seq<Span>)
    requires RulesFit(text, rules)
    ensures m == Merged(Sorted(AllClaims(text, rules)))
    ensures Merges(text, Sorted(AllClaims(text, rules)), m)
  {
    AllClaimsFit(text, rules);
    var found := Collect(text, rules);
    SortFits(text, found);
    MergedMerges(text, Sorted(found));
    if found == [] { return []; }
    var sorted := Sorted(found);
    var a := new Span[|sorted|](i requires 0 <= i < |sorted| => sorted[i]);
    assert a[..] == sorted;
    var n := MergeInPlace(a);
    m := a[..n];
  }

  lemma SortFits(text: string, xs: seq<Span>)
    requires Fits(text, xs)
    ensures Fits(text, Sorted(xs)) && ByStart(Sorted(xs)) && (xs == [] ==> Sorted(xs) == [])
  {
    SortKeeps(xs);
    forall k | 0 <= k < |Sorted(xs)| ensures Sorted(xs)[k].start < Sorted(xs)[k].end <= |text| {
      assert Sorted(xs)[k] in Sorted(xs);
    }
  }

  /** Right to left, so that the offsets still to come stay good. */
  method Splice(text: string, m: seq<Span>) returns (out: string)
    requires Fits(text, m) && Separate(m)
    ensures out == Spliced(text, m, 0)
  {
    out := text;
    var i: nat := |m|;
    assert text[0..] == text && m[|m|..] == [];
    while i > 0
      invariant i <= |m| && Fits(text, m[i..]) && Separate(m[i..])
      invariant out == Spliced(text, m[i..], 0)
      invariant i < |m| ==> m[i..][0] == m[i]
    {
      var s := m[i - 1];
      var rest := m[i..];
      assert i < |m| ==> s.end < m[i].start;
      SplicedFrom(text, rest, 0, s.start);
      SplicedFrom(text, rest, 0, s.end);
      Cut(text, Spliced(text, rest, s.start), s.start);
      Cut(text, Spliced(text, rest, s.end), s.end);
      out := out[..s.start] + Mark(s.rule) + out[s.end..];
      i := i - 1;
      assert m[i..] == [s] + rest && m[i..][1..] == rest;
      assert text[0..s.start] == text[..s.start];
    }
    assert m[0..] == m;
  }

  lemma Cut(text: string, rest: string, i: nat)
    requires i <= |text|
    ensures (text[0..i] + rest)[..i] == text[..i] && (text[0..i] + rest)[i..] == rest
  {
  }

  /** The rules that fired, each once, in the order of their first range. */
  method Fired(m: seq<Span>) returns (names: seq<string>)
    ensures forall n :: n in names <==> exists k :: 0 <= k < |m| && m[k].rule == n
    ensures forall i, j :: 0 <= i < j < |names| ==> names[i] != names[j]
    ensures forall i :: 0 <= i < |names| ==> ComesNext(m, |m|, names, i)
  {
    names := [];
    var seen: set<string> := {};
    for i := 0 to |m|
      invariant forall n :: n in names <==> n in seen
      invariant forall n :: n in seen <==> exists k :: 0 <= k < i && m[k].rule == n
      invariant forall i, j :: 0 <= i < j < |names| ==> names[i] != names[j]
      invariant forall j :: 0 <= j < |names| ==> ComesNext(m, i, names, j)
    {
      ghost var before := names;
      if m[i].rule !in seen {
        seen := seen + {m[i].rule};
        names := names + [m[i].rule];
        forall k | 0 <= k < i ensures m[k].rule in before {
          assert m[k].rule in seen;
        }
        assert names[..|before|] == before;
      }
      ghost var next := i + 1;
      forall j | 0 <= j < |names| ensures ComesNext(m, next, names, j) {
        if j < |before| {
          assert ComesNext(m, i, before, j) && names[..j] == before[..j];
        }
      }
    }
  }

  /** names[i] has a range before which only ranges of earlier names lie. */
  ghost predicate ComesNext(m: seq<Span>, upTo: nat, names: seq<string>, i: nat)
    requires upTo <= |m| && i < |names|
  {
    exists k :: 0 <= k < upTo && m[k].rule == names[i] && forall l :: 0 <= l < k ==> m[l].rule in names[..i]
  }

  /** Every claimed stretch is one mark and every other byte is kept, whatever the rules claim
      and in whatever way their claims overlap. */
  method RedactText(text: string, rules: seq<Rule>) returns (out: string, names: seq<string>)
    requires RulesFit(text, rules)
    ensures out == Blanked(text, AllClaims(text, rules), 0)
    ensures names == [] <==> AllClaims(text, rules) == []
  {
    AllClaimsFit(text, rules);
    ghost var claims := AllClaims(text, rules);
    SortFits(text, claims);
    SortKeeps(claims);
    SortedBlanks(text, claims);
    if text == "" {
      NothingFits(claims);
      return text, [];
    }
    var m := Spans(text, rules);
    SplicedIsBlanked(text, Sorted(claims), m, 0, 0);
    assert m[0..] == m;
    if |m| == 0 {
      assert text[0..] == text;
      return text, [];
    }
    out := Splice(text, m);
    names := Fired(m);
    assert m[0].rule in names;
  }

  lemma NothingFits(xs: seq<Span>)
    requires Fits("", xs)
    ensures xs == []
  {
    assert xs != [] ==> xs[0].end <= 0;
  }

  lemma SortedBlanks(text: string, xs: seq<Span>)
    ensures Blanked(text, Sorted(xs), 0) == Blanked(text, xs, 0)
    ensures xs == [] <==> Sorted(xs) == []
  {
    SortKeeps(xs);
    forall j ensures Claimed(xs, j) <==> Claimed(Sorted(xs), j) {
      SameClaimed(xs, Sorted(xs), j);
      SameClaimed(Sorted(xs), xs, j);
    }
    BlankedSame(text, Sorted(xs), xs, 0);
  }

  // ---- whose name a range carries ----

  /** The first claim, in the order given, that lies within a range. */
  function FirstWithin(xs: seq<Span>, lo: int, hi: int): Option<Span> {
    if xs == [] then None
    else
      var f := FirstWithin(xs[..|xs| - 1], lo, hi);
      var last := xs[|xs| - 1];
      if f.Some? then f else if lo <= last.start && last.end <= hi then Some(last) else None
  }

  lemma {:induction false} FirstWithinIs(xs: seq<Span>, lo: int, hi: int)
    ensures match FirstWithin(xs, lo, hi)
      case Some(f) => exists k :: 0 <= k < |xs| && xs[k] == f && lo <= f.start && f.end <= hi
                                  && forall j :: 0 <= j < k ==> !(lo <= xs[j].start && xs[j].end <= hi)
      case None => forall k :: 0 <= k < |xs| ==> !(lo <= xs[k].start && xs[k].end <= hi)
  {
    if xs != [] {
      var n := |xs| - 1;
      FirstWithinIs(xs[..n], lo, hi);
      assert forall k :: 0 <= k < n ==> xs[..n][k] == xs[k];
      if FirstWithin(xs[..n], lo, hi).None? && lo <= xs[n].start && xs[n].end <= hi {
        assert xs[n] == FirstWithin(xs, lo, hi).value;
      }
    }
  }

  /** A claim that shares a byte with a merged range lies within it. */
  lemma ClaimsLieWithin(text: string, xs: seq<Span>, m: seq<Span>, k: nat, c: nat)
    requires Merges(text, xs, m) && Fits(text, xs) && k < |m| && c < |xs|
    requires xs[c].start < m[k].end && m[k].start < xs[c].end
    ensures m[k].start <= xs[c].start && xs[c].end <= m[k].end
  {
    var s := xs[c];
    if s.start < m[k].start {
      StretchStarts(text, xs, m, k, m[k].start);
      assert s.start <= m[k].start - 1 < s.end;
      assert Claimed(xs, m[k].start - 1);
      assert false;
    }
    if m[k].end < s.end {
      EndIsFree(text, xs, m, k);
      assert s.start <= m[k].end < s.end;
      assert Claimed(xs, m[k].end);
      assert false;
    }
  }

  lemma EndIsFree(text: string, xs: seq<Span>, m: seq<Span>, k: nat)
    requires Merges(text, xs, m) && k < |m|
    ensures !Claimed(xs, m[k].end)
  {
    forall j | 0 <= j < |m| ensures !(m[j].start <= m[k].end < m[j].end) {
      assert j < k || j == k || j > k;
    }
    assert !Claimed(m, m[k].end);
  }

  /** The merged ranges of claims in any order: what shares a byte with one lies within it,
      and its name is that of the first claim to start where it does. */
  lemma RangeOfClaims(text: string, claims: seq<Span>, k: nat)
    requires Fits(text, claims) && k < |Merged(Sorted(claims))|
    ensures var r := Merged(Sorted(claims))[k];
      && (forall c <- claims :: c.start < r.end && r.start < c.end ==> r.start <= c.start && c.end <= r.end)
      && r.start < r.end && FirstAt(claims, r.start).Some? && FirstAt(claims, r.start).value.rule == r.rule
  {
    SortFits(text, claims);
    SortKeeps(claims);
    MergedMerges(text, Sorted(claims));
    hide Merged, Sorted, Claimed, FirstAt, ByStart;
    var xs, m := Sorted(claims), Merged(Sorted(claims));
    var r := m[k];
    assert FirstAt(xs, r.start) == FirstAt(claims, r.start);
    forall c <- claims | c.start < r.end && r.start < c.end ensures r.start <= c.start && c.end <= r.end {
      assert c in xs;
      var i :| 0 <= i < |xs| && xs[i] == c;
      ClaimsLieWithin(text, xs, m, k, i);
    }
  }

  /** Exactly when a merged range is named after the first rule in table order that claimed
      it: when the first claim that starts where the range does has that name too. A first
      claim that starts there itself is one case of it. */
  lemma FirstRuleNames(text: string, claims: seq<Span>, k: nat)
    requires Fits(text, claims) && k < |Merged(Sorted(claims))|
    ensures var r := Merged(Sorted(claims))[k]; var first := FirstWithin(claims, r.start, r.end);
      && first.Some?
      && (r.rule == first.value.rule <==> NameAt(claims, r.start) == first.value.rule)
      && (first.value.start == r.start ==> r.rule == first.value.rule)
  {
    RangeOfClaims(text, claims, k);
    hide Merged, Sorted, FirstAt, FirstWithin;
    var r := Merged(Sorted(claims))[k];
    FirstAtIn(claims, r.start);
    var f := FirstAt(claims, r.start).value;
    assert f in claims;
    FirstWithinIs(claims, r.start, r.end);
    if FirstWithin(claims, r.start, r.end).value.start == r.start {
      forall i | 0 <= i < |claims| && claims[i].start == r.start ensures claims[i].end <= r.end {
        assert claims[i] in claims;
      }
      FirstThere(claims, r.start, r.end);
    }
  }

  /** If the first claim within a range starts where it does, it is the first to start there. */
  lemma {:induction false} FirstThere(xs: seq<Span>, lo: int, hi: int)
    requires FirstWithin(xs, lo, hi).Some? && FirstWithin(xs, lo, hi).value.start == lo
    requires forall k :: 0 <= k < |xs| && xs[k].start == lo ==> xs[k].end <= hi
    ensures FirstAt(xs, lo) == FirstWithin(xs, lo, hi)
  {
    var n := |xs| - 1;
    var init := xs[..n];
    assert forall k :: 0 <= k < n ==> init[k] == xs[k];
    if FirstWithin(init, lo, hi).Some? {
      FirstThere(init, lo, hi);
    } else {
      FirstWithinIs(init, lo, hi);
      FirstAtIn(init, lo);
    }
  }

  /** The first rule in table order to claim a range does not always name it. */
  lemma LaterRuleNamesRange()
    ensures var claims := [Span(1, 3, "first"), Span(0, 2, "second")];
      && Fits("abc", claims)
      && Merged(Sorted(claims)) == [Span(0, 3, "second")]
      && FirstWithin(claims, 0, 3) == Some(Span(1, 3, "first"))
  {
    var a, b := Span(1, 3, "first"), Span(0, 2, "second");
    var claims := [a, b];
    SortTwo(a, b);
    assert claims[..1] == [a];
    assert FirstWithin([a], 0, 3) == Some(a) by {
      assert FirstWithin([], 0, 3) == None;
    }
  }

  lemma SortTwo(a: Span, b: Span)
    requires b.start < a.start <= b.end < a.end
    ensures Sorted([a, b]) == [b, a] && Merged(Sorted([a, b])) == [b.(end := a.end)]
  {
    hide FirstAt;
    assert [a, b][..1] == [a] && [a][..0] == [] && [b, a][..1] == [b];
    assert Sorted([a]) == [a] by {
      assert Sorted([]) == [];
    }
    assert Insert([], b) == [b];
    assert Insert([a], b) == Insert([a][..0], b) + [a];
    assert Merged([b]) == [b];
  }

  // ---- what a match costs ----

  /** The bytes a match blanks: those of the rule's secret group when the match has that group, even
      if it took no part, and otherwise all of it. */
  lemma RangeIs(r: Rule, loc: seq<int>)
    requires |loc| >= 2 && |loc| % 2 == 0
    ensures r.secret > 0 && r.secret < |loc| / 2 ==> Range(r, loc) == (loc[2 * r.secret], loc[2 * r.secret + 1])
    ensures r.secret <= 0 || r.secret >= |loc| / 2 ==> Range(r, loc) == (loc[0], loc[1])
  {
  }

  /** The marker of a rule. */
  lemma MarkIs(rule: string)
    ensures Mark(rule) == "\U{00E2}\U{009F}\U{00AA}redacted:" + rule + "\U{00E2}\U{009F}\U{00AB}"
    ensures IsMark(Mark(rule))
  {
    var m := Mark(rule);
    assert m == MARK_PREFIX + (rule + MARK_SUFFIX);
  }

  /** One match of one rule: its secret becomes the rule's marker and everything around it stays; a
      group that took no part, an empty one, or one that is a marker already, costs nothing, and so
      does a rule whose hints are not there. */
  lemma OneMatch(text: string, r: Rule, loc: seq<int>)
    requires IsLoc(text, loc) && r.locs == [loc]
    ensures RulesFit(text, [r])
    ensures var (a, b) := Range(r, loc);
      if r.hinted && 0 <= a < b && !(b <= |text| && IsMark(text[a..b]))
      then b <= |text| && Blanked(text, AllClaims(text, [r]), 0) == text[..a] + Mark(r.name) + text[b..]
      else Blanked(text, AllClaims(text, [r]), 0) == text
  {
    OneRule(text, r, loc);
    hide Blanked, AllClaims, IsLoc, IsMark, Mark, Range;
    var (a, b) := Range(r, loc);
    if r.hinted && Claims(text, r, loc) {
      RangeFits(text, r, loc);
      OneBlank(text, a, b, r.name);
    } else {
      NoBlank(text, 0);
      assert text[0..] == text;
    }
  }

  lemma OneRule(text: string, r: Rule, loc: seq<int>)
    requires IsLoc(text, loc) && r.locs == [loc]
    ensures RulesFit(text, [r])
    ensures AllClaims(text, [r]) == if r.hinted && Claims(text, r, loc) then [Span(Range(r, loc).0, Range(r, loc).1, r.name)] else []
    ensures var (a, b) := Range(r, loc); (0 <= a < b ==> b <= |text|) && (Claims(text, r, loc) <==> 0 <= a < b && !(b <= |text| && IsMark(text[a..b])))
  {
    hide IsMark;
    assert r.secret > 0 && 2 * r.secret + 1 < |loc| ==> IsPair(text, loc[2 * r.secret], loc[2 * r.secret + 1]);
    assert IsPair(text, loc[2 * 0], loc[2 * 0 + 1]);
    assert [r][..0] == [] && [loc][..0] == [];
    assert RuleClaims(text, r, []) == [] && AllClaims(text, []) == [];
  }

  lemma {:induction false} NoBlank(text: string, i: nat)
    requires i <= |text|
    ensures Blanked(text, [], i) == text[i..]
    decreases |text| - i
  {
    if i < |text| {
      NoBlank(text, i + 1);
    }
  }

  lemma {:induction false} BlankAfter(text: string, xs: seq<Span>, b: nat, i: nat)
    requires b <= i <= |text| && forall k :: b <= k ==> !Claimed(xs, k)
    ensures Blanked(text, xs, i) == text[i..]
    decreases |text| - i
  {
    if i < |text| {
      BlankAfter(text, xs, b, i + 1);
    }
  }

  lemma {:induction false} BlankWithin(text: string, xs: seq<Span>, a: nat, b: nat, i: nat)
    requires a < i <= b <= |text| && (forall k :: Claimed(xs, k) <==> a <= k < b)
    ensures Blanked(text, xs, i) == text[b..]
    decreases b - i
  {
    if i == b {
      BlankAfter(text, xs, b, b);
    } else {
      BlankWithin(text, xs, a, b, i + 1);
    }
  }

  lemma BlankStep(text: string, xs: seq<Span>, i: nat)
    requires i < |text| && !Claimed(xs, i)
    ensures Blanked(text, xs, i) == [text[i]] + Blanked(text, xs, i + 1)
  {
  }

  lemma Onwards(c: string, x: string, m: string, t: string)
    ensures c + (x + m + t) == (c + x) + m + t
  {
  }

  lemma {:induction false} BlankBefore(text: string, xs: seq<Span>, a: nat, b: nat, i: nat)
    requires i <= a < b <= |text| && (forall k :: Claimed(xs, k) <==> a <= k < b)
    ensures Blanked(text, xs, i) == text[i..a] + Mark(NameAt(xs, a)) + text[b..]
    decreases a - i
  {
    hide Mark, NameAt, Claimed;
    if i == a {
      BlankWithin(text, xs, a, b, a + 1);
      assert text[a..a] == "";
    } else {
      BlankBefore(text, xs, a, b, i + 1);
      BlankStep(text, xs, i);
      hide Blanked;
      assert text[i..a] == [text[i]] + text[i + 1..a];
      Onwards([text[i]], text[i + 1..a], Mark(NameAt(xs, a)), text[b..]);
    }
  }

  lemma OneBlank(text: string, a: nat, b: nat, rule: string)
    requires a < b <= |text|
    ensures Blanked(text, [Span(a, b, rule)], 0) == text[..a] + Mark(rule) + text[b..]
  {
    var xs := [Span(a, b, rule)];
    OneClaim(Span(a, b, rule));
    hide Mark, NameAt, Claimed, Blanked;
    BlankBefore(text, xs, a, b, 0);
    assert text[0..a] == text[..a];
  }

  lemma OneClaim(s: Span)
    ensures forall k :: Claimed([s], k) <==> s.start <= k < s.end
    ensures NameAt([s], s.start) == s.rule
  {
    assert [s][..0] == [] && [s][0] == s;
    assert FirstAt([], s.start) == None;
    assert FirstAt([s], s.start) == Some(s);
  }
}
