/** Subsequence matching: the greedy walk that scores a match, and the second walk that marks
    the matched runes, against what a subsequence is. */
module FuzzyMatch {
  /** What matching asks about a code point; the Unicode tables themselves stay abstract. */
  datatype Runes = Runes(isUpper: int -> bool, toLower: int -> int)

  /** A decoded code point and the number of bytes it came from. */
  datatype Glyph = Glyph(point: int, size: nat)

  type Text = s: seq<Glyph> | forall i :: 0 <= i < |s| ==> s[i].size > 0

  predicate HasUpper(u: Runes, pattern: seq<int>) {
    exists i :: 0 <= i < |pattern| && u.isUpper(pattern[i])
  }

  predicate RuneEq(u: Runes, a: int, b: int, fold: bool) {
    a == b || (fold && u.toLower(a) == u.toLower(b))
  }

  // ---- what a match is ----

  /** at places the pattern's runes into the text, in order. */
  ghost predicate Places(u: Runes, fold: bool, pattern: seq<int>, s: Text, at: seq<nat>) {
    && |at| == |pattern|
    && (forall k :: 0 <= k < |at| ==> at[k] < |s| && RuneEq(u, s[at[k]].point, pattern[k], fold))
    && (forall k, l :: 0 <= k < l < |at| ==> at[k] < at[l])
  }

  ghost predicate Subsequence(u: Runes, pattern: seq<int>, s: Text) {
    var fold := !HasUpper(u, pattern);
    exists at :: Places(u, fold, pattern, s, at)
  }

  /** The text with every rune in lower case. */
  function Lowered(u: Runes, s: Text): Text {
    seq(|s|, i requires 0 <= i < |s| => Glyph(u.toLower(s[i].point), s[i].size))
  }

  function LoweredPattern(u: Runes, pattern: seq<int>): seq<int> {
    seq(|pattern|, i requires 0 <= i < |pattern| => u.toLower(pattern[i]))
  }

  /** Smart case: a pattern without upper case matches as its lower case does in the lower case of the
      text, and any other exactly as typed. */
  lemma FoldIsLower(u: Runes, pattern: seq<int>, s: Text)
    ensures Subsequence(u, pattern, s) <==>
      if exists i :: 0 <= i < |pattern| && u.isUpper(pattern[i]) then InOrder(pattern, s)
      else InOrder(LoweredPattern(u, pattern), Lowered(u, s))
  {
    var fold := !HasUpper(u, pattern);
    var p, t := if fold then LoweredPattern(u, pattern) else pattern, if fold then Lowered(u, s) else s;
    if at :| Places(u, fold, pattern, s, at) {
      assert IsPlaced(p, t, at);
    }
    if at :| IsPlaced(p, t, at) {
      assert Places(u, fold, pattern, s, at);
    }
  }

  /** at places the pattern's runes, one for one and in order, exactly. */
  predicate IsPlaced(pattern: seq<int>, s: Text, at: seq<nat>) {
    && |at| == |pattern|
    && (forall k :: 0 <= k < |at| ==> at[k] < |s| && s[at[k]].point == pattern[k])
    && (forall k, l :: 0 <= k < l < |at| ==> at[k] < at[l])
  }

  ghost predicate InOrder(pattern: seq<int>, s: Text) {
    exists at :: IsPlaced(pattern, s, at)
  }

  /** The greedy walk: each rune of the text is taken as soon as it fits. */
  function Walk(u: Runes, fold: bool, pattern: seq<int>, s: Text): (at: seq<nat>)
    ensures |at| <= |pattern| && forall k :: 0 <= k < |at| ==> at[k] < |s|
    decreases |s|
  {
    if s == [] then []
    else
      var n := |s| - 1;
      var at := Walk(u, fold, pattern, s[..n]);
      if |at| < |pattern| && RuneEq(u, s[n].point, pattern[|at|], fold) then at + [n] else at
  }

  lemma {:induction false} WalkPlaces(u: Runes, fold: bool, pattern: seq<int>, s: Text)
    ensures var at := Walk(u, fold, pattern, s); Places(u, fold, pattern[..|at|], s, at)
    decreases |s|
  {
    if s != [] {
      WalkPlaces(u, fold, pattern, s[..|s| - 1]);
    }
  }

  /** One more rune of the text. */
  lemma WalkStep(u: Runes, fold: bool, pattern: seq<int>, s: Text, i: nat)
    requires i < |s|
    ensures var at := Walk(u, fold, pattern, s[..i]);
      var took := |at| < |pattern| && RuneEq(u, s[i].point, pattern[|at|], fold);
      Walk(u, fold, pattern, s[..i + 1]) == if took then at + [i] else at
  {
    assert s[..i + 1][..i] == s[..i];
  }

  /** What the last rune of a placement says. */
  lemma PlacedLast(u: Runes, fold: bool, pattern: seq<int>, s: Text, other: seq<nat>)
    requires 0 < |other| <= |pattern| && Places(u, fold, pattern[..|other|], s, other)
    ensures other[|other| - 1] < |s| && RuneEq(u, s[other[|other| - 1]].point, pattern[|other| - 1], fold)
  {
    hide RuneEq;
    assert pattern[..|other|][|other| - 1] == pattern[|other| - 1];
  }

  /** A placement that ends at the last rune of the text, without that rune. */
  lemma PlacedBefore(u: Runes, fold: bool, pattern: seq<int>, s: Text, other: seq<nat>)
    requires 0 < |other| <= |pattern| && Places(u, fold, pattern[..|other|], s, other) && other[|other| - 1] == |s| - 1
    ensures Places(u, fold, pattern[..|other| - 1], s[..|s| - 1], other[..|other| - 1])
  {
    hide RuneEq;
    var n, m := |s| - 1, |other| - 1;
    forall k | 0 <= k < m ensures other[k] < n && RuneEq(u, s[..n][other[k]].point, pattern[..m][k], fold) {
      assert RuneEq(u, s[other[k]].point, pattern[..|other|][k], fold) && other[k] < other[m];
      assert s[..n][other[k]] == s[other[k]] && pattern[..m][k] == pattern[..|other|][k];
    }
  }

  /** A placement that ends earlier does not need the last rune of the text. */
  lemma PlacedEarlier(u: Runes, fold: bool, pattern: seq<int>, s: Text, other: seq<nat>)
    requires Places(u, fold, pattern, s, other) && s != [] && (other != [] ==> other[|other| - 1] < |s| - 1)
    ensures Places(u, fold, pattern, s[..|s| - 1], other)
  {
    hide RuneEq;
    var n := |s| - 1;
    forall k | 0 <= k < |other| ensures other[k] < n && s[..n][other[k]] == s[other[k]] {
      assert k < |other| - 1 ==> other[k] < other[|other| - 1];
    }
  }

  /** No placement of a prefix gets further than the walk, or has any rune earlier. */
  lemma {:induction false} WalkIsLeftmost(u: Runes, fold: bool, pattern: seq<int>, s: Text, other: seq<nat>)
    requires |other| <= |pattern| && Places(u, fold, pattern[..|other|], s, other)
    ensures var at := Walk(u, fold, pattern, s); |other| <= |at| && forall k :: 0 <= k < |other| ==> at[k] <= other[k]
    decreases |s|
  {
    hide RuneEq, Places;
    if other != [] {
      var n, m := |s| - 1, |other| - 1;
      PlacedLast(u, fold, pattern, s, other);
      if other[m] == n {
        PlacedBefore(u, fold, pattern, s, other);
        WalkIsLeftmost(u, fold, pattern, s[..n], other[..m]);
        assert forall k :: 0 <= k < m ==> other[..m][k] == other[k];
      } else {
        PlacedEarlier(u, fold, pattern[..|other|], s, other);
        WalkIsLeftmost(u, fold, pattern, s[..n], other);
      }
    }
  }

  /** Greedy loses nothing: the walk gets through the pattern exactly when some placement does,
      and it finds the leftmost one. */
  lemma GreedyDecides(u: Runes, pattern: seq<int>, s: Text)
    ensures Subsequence(u, pattern, s) <==> |Walk(u, !HasUpper(u, pattern), pattern, s)| == |pattern|
  {
    var fold := !HasUpper(u, pattern);
    var at := Walk(u, fold, pattern, s);
    assert pattern[..|pattern|] == pattern;
    WalkPlaces(u, fold, pattern, s);
    assert |at| == |pattern| ==> Places(u, fold, pattern, s, at);
    if other :| Places(u, fold, pattern, s, other) {
      WalkIsLeftmost(u, fold, pattern, s, other);
    }
  }

  /** Once the pattern is used up the rest of the text does not matter. */
  lemma {:induction false} WalkDone(u: Runes, fold: bool, pattern: seq<int>, s: Text, i: nat)
    requires i <= |s| && |Walk(u, fold, pattern, s[..i])| == |pattern|
    ensures Walk(u, fold, pattern, s) == Walk(u, fold, pattern, s[..i])
    decreases |s|
  {
    if i == |s| {
      assert s[..i] == s;
    } else {
      assert s[..|s| - 1][..i] == s[..i];
      WalkDone(u, fold, pattern, s[..|s| - 1], i);
    }
  }

  // ---- runs and spans ----

  /** The number of maximal runs of neighbouring positions. */
  function Runs(at: seq<nat>): nat {
    if at == [] then 0
    else Runs(at[..|at| - 1]) + if |at| > 1 && at[|at| - 2] + 1 == at[|at| - 1] then 0 else 1
  }

  lemma RunsStep(at: seq<nat>, next: nat)
    ensures Runs(at + [next]) == Runs(at) + if at != [] && at[|at| - 1] + 1 == next then 0 else 1
    ensures Runs([]) == 0
  {
    assert (at + [next])[..|at|] == at;
  }

  /** The byte offset of the i-th code point. */
  function Offset(s: Text, i: nat): nat
    requires i <= |s|
  {
    if i == 0 then 0 else Offset(s, i - 1) + s[i - 1].size
  }

  lemma OffsetStep(s: Text, i: nat)
    requires i < |s|
    ensures Offset(s, i + 1) == Offset(s, i) + s[i].size
  {
  }

  lemma {:induction false} OffsetGrows(s: Text, i: nat, j: nat)
    requires i < j <= |s|
    ensures Offset(s, i) < Offset(s, j)
  {
    if i < j - 1 {
      OffsetGrows(s, i, j - 1);
    }
  }

  type Span = (nat, nat)

  /** One byte span a run. */
  function Spans(s: Text, at: seq<nat>): (out: seq<Span>)
    requires forall k :: 0 <= k < |at| ==> at[k] < |s|
    ensures |out| == Runs(at)
  {
    if at == [] then []
    else
      var n := |at| - 1;
      var out := Spans(s, at[..n]);
      if n > 0 && at[n - 1] + 1 == at[n]
      then out[..|out| - 1] + [(out[|out| - 1].0, Offset(s, at[n] + 1))]
      else out + [(Offset(s, at[n]), Offset(s, at[n] + 1))]
  }

  predicate Covers(span: Span, s: Text, i: nat)
    requires i < |s|
  {
    span.0 <= Offset(s, i) && Offset(s, i + 1) <= span.1
  }

  predicate Misses(span: Span, s: Text, i: nat)
    requires i < |s|
  {
    Offset(s, i + 1) <= span.0 || span.1 <= Offset(s, i)
  }

  predicate Increasing(at: seq<nat>) {
    forall k, l :: 0 <= k < l < |at| ==> at[k] < at[l]
  }

  /** Ascending, and no two touch. */
  ghost predicate Separate(out: seq<Span>) {
    && (forall k :: 0 <= k < |out| ==> out[k].0 < out[k].1)
    && (forall k, l :: 0 <= k < l < |out| ==> out[k].1 < out[l].0)
  }

  ghost predicate Inside(out: seq<Span>, s: Text, i: nat)
    requires i < |s|
  {
    exists k :: 0 <= k < |out| && Covers(out[k], s, i)
  }

  ghost predicate Clear(out: seq<Span>, s: Text, i: nat)
    requires i < |s|
  {
    forall k :: 0 <= k < |out| ==> Misses(out[k], s, i)
  }

  /** The spans never touch; a code point is inside one when it was taken and clear of them
      all when it was not. */
  ghost predicate Marks(out: seq<Span>, s: Text, at: seq<nat>) {
    && Separate(out)
    && forall i :: 0 <= i < |s| ==> if i in at then Inside(out, s, i) else Clear(out, s, i)
  }

  /** The last span starts with some rune taken and ends with the last. */
  lemma {:induction false} LastSpan(s: Text, at: seq<nat>)
    requires at != [] && (forall k :: 0 <= k < |at| ==> at[k] < |s|) && Increasing(at)
    ensures var out := Spans(s, at);
      && out != [] && out[|out| - 1].1 == Offset(s, at[|at| - 1] + 1) && out[|out| - 1].0 <= Offset(s, at[|at| - 1])
    decreases |at|
  {
    var n := |at| - 1;
    if n > 0 && at[n - 1] + 1 == at[n] {
      LastSpan(s, at[..n]);
      OffsetGrows(s, at[n - 1], at[n]);
    }
  }

  lemma SpansStep(s: Text, at: seq<nat>, next: nat)
    requires (forall k :: 0 <= k < |at| ==> at[k] < |s|) && next < |s|
    ensures var out := Spans(s, at);
      Spans(s, at + [next]) ==
      if at != [] && at[|at| - 1] + 1 == next then out[..|out| - 1] + [(out[|out| - 1].0, Offset(s, next + 1))]
      else out + [(Offset(s, next), Offset(s, next + 1))]
  {
    assert (at + [next])[..|at|] == at;
  }

  lemma {:induction false} SpansMark(s: Text, at: seq<nat>)
    requires (forall k :: 0 <= k < |at| ==> at[k] < |s|) && Increasing(at)
    ensures Marks(Spans(s, at), s, at)
    decreases |at|
  {
    if at == [] {
      NoSpans(s);
    } else {
      hide Marks, Offset, Spans, Increasing;
      var n := |at| - 1;
      var init, next := at[..n], at[n];
      assert at == init + [next];
      Shorter(init, next);
      SpansMark(s, init);
      SpansStep(s, init, next);
      if init != [] && init[n - 1] + 1 == next {
        Extended(s, init, next);
      } else {
        assert init != [] ==> init[n - 1] < next by { Neighbours(at); }
        Opened(s, init, next);
      }
    }
  }

  lemma Neighbours(at: seq<nat>)
    requires Increasing(at)
    ensures |at| > 1 ==> at[|at| - 2] < at[|at| - 1]
  {
  }

  /** Clear of everything up to a code point, or past it. */
  lemma Apart(s: Text, i: nat, j: nat)
    requires i < |s| && j < |s| && i != j
    ensures Offset(s, i + 1) <= Offset(s, j) || Offset(s, j + 1) <= Offset(s, i)
  {
    if i < j {
      if i + 1 < j { OffsetGrows(s, i + 1, j); }
    } else {
      if j + 1 < i { OffsetGrows(s, j + 1, i); }
    }
  }

  lemma Extended(s: Text, at: seq<nat>, next: nat)
    requires at != [] && (forall k :: 0 <= k < |at| ==> at[k] < |s|) && Increasing(at + [next])
    requires at[|at| - 1] + 1 == next < |s| && Marks(Spans(s, at), s, at)
    ensures var out := Spans(s, at);
      && out != [] && Marks(out[..|out| - 1] + [(out[|out| - 1].0, Offset(s, next + 1))], s, at + [next])
  {
    hide Spans, Offset, Increasing, Inside, Clear;
    Shorter(at, next);
    LastSpan(s, at);
    var out, m := Spans(s, at), |Spans(s, at)| - 1;
    var out' := out[..m] + [(out[m].0, Offset(s, next + 1))];
    OffsetGrows(s, next, next + 1);
    OffsetGrows(s, next - 1, next);
    assert Separate(out');
    forall i | 0 <= i < |s| ensures if i in at + [next] then Inside(out', s, i) else Clear(out', s, i) {
      assert next - 1 in at;
      ExtendedAt(s, out, out', next, i, i in at);
    }
  }

  lemma ExtendedAt(s: Text, out: seq<Span>, out': seq<Span>, next: nat, i: nat, taken: bool)
    requires out != [] && 0 < next < |s| && i < |s|
    requires out' == out[..|out| - 1] + [(out[|out| - 1].0, Offset(s, next + 1))]
    requires out[|out| - 1].1 == Offset(s, next) && out[|out| - 1].0 <= Offset(s, next - 1) && (taken || i != next - 1)
    requires if taken then Inside(out, s, i) else Clear(out, s, i)
    ensures if taken || i == next then Inside(out', s, i) else Clear(out', s, i)
  {
    hide Offset;
    var m := |out| - 1;
    OffsetGrows(s, next, next + 1);
    OffsetGrows(s, next - 1, next);
    if i == next {
      assert Covers(out'[m], s, i);
    } else if taken {
      var k :| 0 <= k < |out| && Covers(out[k], s, i);
      assert Covers(out'[k], s, i);
    } else {
      Apart(s, i, next);
      Apart(s, i, next - 1);
      OffsetGrows(s, i, i + 1);
      forall k | 0 <= k < |out'| ensures Misses(out'[k], s, i) {
        assert Misses(out[k], s, i);
      }
    }
  }

  lemma Opened(s: Text, at: seq<nat>, next: nat)
    requires (forall k :: 0 <= k < |at| ==> at[k] < |s|) && Increasing(at + [next]) && next < |s|
    requires (at != [] ==> at[|at| - 1] + 1 < next) && Marks(Spans(s, at), s, at)
    ensures Marks(Spans(s, at) + [(Offset(s, next), Offset(s, next + 1))], s, at + [next])
  {
    hide Offset, Increasing, Inside, Clear, Spans, Covers, Misses;
    Shorter(at, next);
    var out := Spans(s, at);
    var out' := out + [(Offset(s, next), Offset(s, next + 1))];
    OffsetGrows(s, next, next + 1);
    if at != [] {
      LastSpan(s, at);
      OffsetGrows(s, at[|at| - 1] + 1, next);
    } else {
      SpansOfNone(s);
    }
    OneMoreSpan(out, (Offset(s, next), Offset(s, next + 1)));
    hide Separate;
    forall i | 0 <= i < |s| ensures if i in at + [next] then Inside(out', s, i) else Clear(out', s, i) {
      OpenedAt(s, out, out', next, i, i in at);
    }
  }

  lemma OneMoreSpan(out: seq<Span>, next: Span)
    requires Separate(out) && next.0 < next.1 && (out != [] ==> out[|out| - 1].1 < next.0)
    ensures Separate(out + [next])
  {
    var all := out + [next];
    forall k, l | 0 <= k < l < |all| ensures all[k].1 < all[l].0 {
      if l == |out| && k < |out| - 1 {
        assert out[k].1 < out[|out| - 1].0 < out[|out| - 1].1;
      }
    }
  }

  lemma OpenedAt(s: Text, out: seq<Span>, out': seq<Span>, next: nat, i: nat, taken: bool)
    requires next < |s| && i < |s| && out' == out + [(Offset(s, next), Offset(s, next + 1))]
    requires if taken then Inside(out, s, i) else Clear(out, s, i)
    ensures if taken || i == next then Inside(out', s, i) else Clear(out', s, i)
  {
    hide Offset;
    if i == next {
      assert Covers(out'[|out|], s, i);
    } else if taken {
      var k :| 0 <= k < |out| && Covers(out[k], s, i);
      assert Covers(out'[k], s, i);
    } else {
      Apart(s, i, next);
      forall k | 0 <= k < |out'| ensures Misses(out'[k], s, i) {
        if k < |out| {
          assert Misses(out[k], s, i);
        }
      }
    }
  }

  lemma Shorter(at: seq<nat>, next: nat)
    requires Increasing(at + [next])
    ensures Increasing(at)
  {
    assert forall k :: 0 <= k < |at| ==> (at + [next])[k] == at[k];
  }

  lemma NoSpans(s: Text)
    ensures Marks(Spans(s, []), s, [])
  {
  }

  lemma SpansOfNone(s: Text)
    ensures Spans(s, []) == []
  {
  }

  lemma WalkNothing(u: Runes, fold: bool, pattern: seq<int>, s: Text)
    ensures Walk(u, fold, pattern, s[..0]) == [] && Runs([]) == 0 && Spans(s, []) == [] && Increasing([]) && Offset(s, 0) == 0
  {
  }

  // ---- the two walks ----

  method Fuzzy(u: Runes, pattern: seq<int>, s: Text) returns (ok: bool, score: int)
    ensures ok <==> Subsequence(u, pattern, s)
    ensures ok && pattern != [] ==> var at := Walk(u, !HasUpper(u, pattern), pattern, s);
      at != [] && score == 4 * Runs(at) + at[0]
    ensures !ok || pattern == [] ==> score == 0
  {
    hide Walk, Subsequence, RuneEq, HasUpper, Runs;
    GreedyDecides(u, pattern, s);
    if pattern == [] { return true, 0; }
    var fold := !HasUpper(u, pattern);
    ghost var at := [];
    var pi, prev, firstAt, gaps := 0, -2, -1, 0;
    WalkNothing(u, fold, pattern, s);
    for idx := 0 to |s|
      invariant at == Walk(u, fold, pattern, s[..idx]) && pi == |at|
      invariant if at == [] then prev == -2 && firstAt == -1 else prev == at[|at| - 1] && firstAt == at[0]
      invariant gaps == Runs(at)
    {
      WalkStep(u, fold, pattern, s, idx);
      if pi < |pattern| && RuneEq(u, s[idx].point, pattern[pi], fold) {
        if firstAt < 0 {
          firstAt := idx;
        }
        if idx != prev + 1 {
          gaps := gaps + 1;
        }
        prev := idx;
        pi := pi + 1;
        RunsStep(at, idx);
        at := at + [idx];
      }
    }
    assert s[..|s|] == s;
    if pi < |pattern| { return false, 0; }
    return true, gaps * 4 + firstAt;
  }

  /** A matched rune extends the span that ends where it starts, or opens one. */
  method Mark(spans: seq<Span>, i: nat, size: nat) returns (out: seq<Span>)
    ensures out == if |spans| > 0 && spans[|spans| - 1].1 == i then spans[|spans| - 1 := (spans[|spans| - 1].0, i + size)]
                   else spans + [(i, i + size)]
  {
    out := spans;
    var n := |out|;
    if n > 0 && out[n - 1].1 == i {
      out := out[n - 1 := (out[n - 1].0, i + size)];
    } else {
      out := out + [(i, i + size)];
    }
  }

  /** No span at all when the pattern is empty or does not match. */
  method FuzzyRanges(u: Runes, pattern: seq<int>, s: Text) returns (out: seq<Span>)
    ensures pattern == [] ==> out == []
    ensures pattern != [] ==> (out != [] <==> Subsequence(u, pattern, s))
    ensures pattern != [] && out != [] ==> out == Spans(s, Walk(u, !HasUpper(u, pattern), pattern, s))
  {
    GreedyDecides(u, pattern, s);
    hide Walk, Subsequence, RuneEq, HasUpper, Spans, InStep;
    out := [];
    if pattern == [] { return; }
    var fold := !HasUpper(u, pattern);
    ghost var at: seq<nat> := [];
    StartsInStep(u, fold, pattern, s);
    var pi: nat, i: nat, g: nat := 0, 0, 0;  // g counts the code points that end at byte i
    while g < |s| && pi < |pattern|
      invariant g <= |s| && pi == |at| && InStep(u, fold, pattern, s, g, i, at, out)
    {
      var size := s[g].size;
      StaysInStep(u, fold, pattern, s, g, i, at, out);
      if RuneEq(u, s[g].point, pattern[pi], fold) {
        out := Mark(out, i, size);
        pi := pi + 1;
        at := at + [g];
      }
      i := i + size;
      g := g + 1;
    }
    EndsInStep(u, fold, pattern, s, g, i, at, out);
    if pi < |pattern| { return []; }
  }

  /** After g code points, i bytes in: at is what the walk took, out the spans of it. */
  ghost predicate InStep(u: Runes, fold: bool, pattern: seq<int>, s: Text, g: nat, i: nat, at: seq<nat>, out: seq<Span>) {
    && g <= |s| && i == Offset(s, g) && at == Walk(u, fold, pattern, s[..g])
    && Increasing(at) && (forall k :: 0 <= k < |at| ==> at[k] < g) && out == Spans(s, at)
  }

  lemma StartsInStep(u: Runes, fold: bool, pattern: seq<int>, s: Text)
    ensures InStep(u, fold, pattern, s, 0, 0, [], [])
  {
  }

  lemma StaysInStep(u: Runes, fold: bool, pattern: seq<int>, s: Text, g: nat, i: nat, at: seq<nat>, out: seq<Span>)
    requires g < |s| && |at| < |pattern| && InStep(u, fold, pattern, s, g, i, at, out)
    ensures var size := s[g].size;
      if RuneEq(u, s[g].point, pattern[|at|], fold)
      then InStep(u, fold, pattern, s, g + 1, i + size, at + [g],
                  if |out| > 0 && out[|out| - 1].1 == i then out[|out| - 1 := (out[|out| - 1].0, i + size)] else out + [(i, i + size)])
      else InStep(u, fold, pattern, s, g + 1, i + size, at, out)
  {
    hide Walk, Spans, Increasing, Offset, RuneEq;
    WalkStep(u, fold, pattern, s, g);
    OffsetStep(s, g);
    Meets(s, at, g);
  }

  lemma EndsInStep(u: Runes, fold: bool, pattern: seq<int>, s: Text, g: nat, i: nat, at: seq<nat>, out: seq<Span>)
    requires g <= |s| && InStep(u, fold, pattern, s, g, i, at, out) && (g == |s| || |at| >= |pattern|)
    ensures at == Walk(u, fold, pattern, s) && out == Spans(s, at) && (at == [] || out != [])
  {
    hide Walk;
    if |at| == |pattern| {
      WalkDone(u, fold, pattern, s, g);
    } else {
      assert s[..g] == s;
    }
    if at != [] {
      LastSpan(s, at);
    }
  }

  /** One more position: the byte test for extending a span is the test for neighbouring runes. */
  lemma Meets(s: Text, at: seq<nat>, g: nat)
    requires Increasing(at) && g < |s| && forall k :: 0 <= k < |at| ==> at[k] < g
    ensures Increasing(at + [g])
    ensures var out := Spans(s, at); var n := |out|;
      Spans(s, at + [g]) ==
        if n > 0 && out[n - 1].1 == Offset(s, g) then out[n - 1 := (out[n - 1].0, Offset(s, g + 1))]
        else out + [(Offset(s, g), Offset(s, g + 1))]
  {
    var longer := at + [g];
    assert longer[..|longer| - 1] == at;
    if at != [] {
      LastSpan(s, at);
      if at[|at| - 1] + 1 < g {
        OffsetGrows(s, at[|at| - 1] + 1, g);
      }
    }
  }

  /** What is marked is what was matched, and the marks tell the score: the spans cover exactly
      one code point for each pattern rune, and four times their number plus the place of the
      first is what the scoring walk returns. */
  lemma RangesExplainScore(u: Runes, pattern: seq<int>, s: Text)
    requires pattern != [] && Subsequence(u, pattern, s)
    ensures var at := Walk(u, !HasUpper(u, pattern), pattern, s);
      && Places(u, !HasUpper(u, pattern), pattern, s, at) && |at| == |pattern|
      && Marks(Spans(s, at), s, at) && |Spans(s, at)| == Runs(at)
      && Spans(s, at) != [] && Spans(s, at)[0].0 == Offset(s, at[0])
  {
    var at := Walk(u, !HasUpper(u, pattern), pattern, s);
    GreedyDecides(u, pattern, s);
    WalkPlaces(u, !HasUpper(u, pattern), pattern, s);
    assert pattern[..|at|] == pattern;
    SpansMark(s, at);
    FirstSpan(s, at);
  }

  lemma {:induction false} FirstSpan(s: Text, at: seq<nat>)
    requires at != [] && forall k :: 0 <= k < |at| ==> at[k] < |s|
    ensures Spans(s, at) != [] && Spans(s, at)[0].0 == Offset(s, at[0])
    decreases |at|
  {
    if |at| > 1 {
      FirstSpan(s, at[..|at| - 1]);
    }
  }
}
