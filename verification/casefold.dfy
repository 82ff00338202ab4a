/** Smart case over text that is not ASCII: the case tables act rune by rune, and what that
    means for typing forward. */
module CaseFold {
  import opened ByteText
  import opened Match
  import opened Utf8

  /** unicode.IsUpper and unicode.ToLower. */
  datatype Tables = Tables(isUpper: Rune -> bool, lower: Rune -> Rune)

  /** On ASCII the tables are what they are. */
  ghost predicate Sane(tb: Tables) {
    forall r: Rune :: 0 <= r < 0x80 ==> tb.lower(r) == LowerByte(r as char) as int && (tb.isUpper(r) <==> IsUpperByte(r as char))
  }

  function LowerRunes(tb: Tables, rs: seq<Rune>): (out: seq<Rune>)
    ensures |out| == |rs| && forall i :: 0 <= i < |rs| ==> out[i] == tb.lower(rs[i])
  {
    seq(|rs|, i requires 0 <= i < |rs| => tb.lower(rs[i]))
  }

  /** strings.ToLower: every rune mapped and encoded again. */
  function LowerText(tb: Tables, s: string): string {
    EncodeAll(LowerRunes(tb, Runes(s)))
  }

  predicate AnyUpper(tb: Tables, rs: seq<Rune>) {
    exists i :: 0 <= i < |rs| && tb.isUpper(rs[i])
  }

  /** The string functions of the matcher, made of these tables. */
  function TextTables(tb: Tables, fields: string -> seq<string>): Unicode {
    Unicode(fields, s => AnyUpper(tb, Runes(s)), s => LowerText(tb, s))
  }

  // ---- ASCII text ----

  lemma AsciiRune(s: string)
    requires s != "" && IsAscii(s)
    ensures Decode(s) == (s[0] as int, 1) && IsAscii(s[1..]) && Encode(s[0] as int) == [s[0]]
  {
    assert s[0] as int < 0x80;
  }

  lemma {:induction false} AsciiRunes(s: string)
    requires IsAscii(s)
    ensures |Runes(s)| == |s| && forall i :: 0 <= i < |s| ==> Runes(s)[i] == s[i] as int
  {
    if s != "" {
      AsciiRune(s);
      AsciiRunes(s[1..]);
    }
  }

  lemma {:induction false} EncodeAscii(rs: seq<Rune>)
    requires forall i :: 0 <= i < |rs| ==> rs[i] < 0x80
    ensures |EncodeAll(rs)| == |rs| && forall i :: 0 <= i < |rs| ==> EncodeAll(rs)[i] as int == rs[i]
  {
    if rs != [] {
      EncodeAscii(rs[1..]);
    }
  }

  /** On ASCII the rune-wise functions are the byte-wise ones. */
  lemma TextIsRunewise(tb: Tables, fields: string -> seq<string>, s: string)
    requires Sane(tb)
    ensures ToLower(TextTables(tb, fields), s) == LowerText(tb, s)
    ensures HasUpper(TextTables(tb, fields), s) == AnyUpper(tb, Runes(s))
  {
    if IsAscii(s) {
      AsciiRunes(s);
      var rs := Runes(s);
      forall i | 0 <= i < |s| ensures tb.lower(rs[i]) == LowerByte(s[i]) as int && (tb.isUpper(rs[i]) <==> IsUpperByte(s[i])) {
        assert s[i] as int < 0x80 && rs[i] as char == s[i];
      }
      EncodeAscii(LowerRunes(tb, rs));
      assert LowerText(tb, s) == AsciiLower(s);
    }
  }

  // ---- a folded term as runes ----

  /** Some stretch of the text folds to these runes, folded. */
  ghost predicate FoldFound(tb: Tables, s: string, rs: seq<Rune>) {
    exists k: nat :: RunesAt(LowerRunes(tb, Runes(s)), LowerRunes(tb, rs), k)
  }

  /** Folding both sides and looking for bytes is looking for runes. */
  lemma FoldedIsRunes(tb: Tables, s: string, f: string)
    requires f != ""
    ensures Contains(LowerText(tb, s), LowerText(tb, f)) <==> FoldFound(tb, s, Runes(f))
  {
    var a, b := LowerRunes(tb, Runes(s)), LowerRunes(tb, Runes(f));
    if i: nat :| i <= |EncodeAll(a)| && OccursAt(EncodeAll(a), EncodeAll(b), i) {
      var k := FoundAsRunes(a, b, i);
    }
    if k: nat :| RunesAt(a, b, k) {
      var i := RunesFound(a, b, k);
      assert OccursAt(LowerText(tb, s), LowerText(tb, f), i);
    }
  }

  // ---- typing one more rune ----

  predicate AsciiOnly(rs: seq<Rune>) {
    forall i :: 0 <= i < |rs| ==> rs[i] < 0x80
  }

  lemma TypedAscii(rs: seq<Rune>)
    ensures IsAscii(EncodeAll(rs)) <==> AsciiOnly(rs)
    ensures AsciiOnly(rs) ==> |EncodeAll(rs)| == |rs| && forall i :: 0 <= i < |rs| ==> EncodeAll(rs)[i] as int == rs[i]
  {
    var f := EncodeAll(rs);
    EncodedRunes(rs);
    if IsAscii(f) {
      AsciiRunes(f);
    }
    if AsciiOnly(rs) {
      EncodeAscii(rs);
    }
  }

  /** What matching a typed token asks of a row. */
  lemma TypedMatches(tb: Tables, fields: string -> seq<string>, rs: seq<Rune>, s: string)
    requires Sane(tb) && rs != []
    ensures var f := EncodeAll(rs);
      TermMatches(TextTables(tb, fields), ParseTerm(TextTables(tb, fields), f), s) <==>
        if AnyUpper(tb, rs) then Contains(s, f)
        else if AsciiOnly(rs) then FoldContains(s, AsciiLower(f))
        else FoldFound(tb, s, rs)
  {
    var f := EncodeAll(rs);
    EncodedRunes(rs);
    TypedAscii(rs);
    TextIsRunewise(tb, fields, f);
    TextIsRunewise(tb, fields, s);
    FoldedIsRunes(tb, s, f);
  }

  /** Encoded text found anywhere is found as runes. */
  lemma OccursAsRunes(s: string, rs: seq<Rune>, i: nat) returns (k: nat)
    requires rs != [] && OccursAt(s, EncodeAll(rs), i)
    ensures RunesAt(Runes(s), rs, k)
  {
    hide OccursAt, Runes, Boundary, EncodeAll;
    var j := i + |EncodeAll(rs)|;
    FoundBetweenRunes(s, rs, i);
    OccurrenceSlice(s, EncodeAll(rs), i);
    RunesBetween(s, i, j);
    EncodedRunes(rs);
    k := |Runes(s[..i])|;
    InTheMiddle(Runes(s[..i]), rs, Runes(s[j..]));
  }

  lemma OccurrenceSlice(s: string, x: string, i: nat)
    requires OccursAt(s, x, i)
    ensures i + |x| <= |s| && s[i..i + |x|] == x
  {
  }

  lemma InTheMiddle(a: seq<Rune>, b: seq<Rune>, c: seq<Rune>)
    ensures RunesAt(a + (b + c), b, |a|)
  {
  }

  lemma {:induction false} AsciiBytes(s: string, n: nat)
    requires n <= |Runes(s)| && forall j :: 0 <= j < n ==> Runes(s)[j] < 0x80
    ensures n <= |s| && forall j :: 0 <= j < n ==> s[j] as int == Runes(s)[j]
    decreases |s|
  {
    if n > 0 {
      var d := Decode(s);
      assert Runes(s)[0] == d.0 && d.0 < 0x80;
      assert d == (s[0] as int, 1);
      assert forall j :: 0 <= j < n - 1 ==> Runes(s[1..])[j] == Runes(s)[j + 1];
      AsciiBytes(s[1..], n - 1);
      assert forall j :: 0 < j < n ==> s[j] == s[1..][j - 1];
    }
  }

  /** The one way a longer token can match more: an ASCII token without upper case gains its
      first rune outside ASCII, and some rune outside ASCII folds to one of its letters. */
  ghost predicate Widens(tb: Tables, rs: seq<Rune>, r: Rune) {
    && r >= 0x80 && AsciiOnly(rs) && !AnyUpper(tb, rs + [r])
    && exists i, x: Rune :: 0 <= i < |rs| && FoldsInto(tb, x, rs[i])
  }

  predicate FoldsInto(tb: Tables, x: Rune, r: Rune) {
    x >= 0x80 && tb.lower(x) == r
  }

  lemma UpperOfMore(tb: Tables, rs: seq<Rune>, r: Rune)
    ensures AnyUpper(tb, rs) ==> AnyUpper(tb, rs + [r])
  {
    if i :| 0 <= i < |rs| && tb.isUpper(rs[i]) {
      assert (rs + [r])[i] == rs[i];
    }
  }

  lemma TypedMore(rs: seq<Rune>, r: Rune)
    ensures EncodeAll(rs + [r]) == EncodeAll(rs) + Encode(r)
  {
    EncodeConcat(rs, [r]);
    assert EncodeAll([r][1..]) == "" && EncodeAll([r]) == Encode(r);
  }

  lemma ExactNarrows(tb: Tables, rs: seq<Rune>, r: Rune, s: string)
    requires Sane(tb) && rs != [] && Contains(s, EncodeAll(rs + [r]))
    ensures Contains(s, EncodeAll(rs)) && FoldFound(tb, s, rs)
    ensures AsciiOnly(rs) ==> FoldContains(s, AsciiLower(EncodeAll(rs)))
  {
    hide Sane, EncodeAll, Runes, LowerRunes, FoldContains, FoldOccursAt, OccursAt;
    var f := EncodeAll(rs);
    TypedMore(rs, r);
    var i: nat :| i <= |s| && OccursAt(s, EncodeAll(rs + [r]), i);
    OccursShorter(s, f, Encode(r), i);
    var k := OccursAsRunes(s, rs, i);
    LowerAt(tb, Runes(s), rs, k);
  }

  lemma LowerAt(tb: Tables, a: seq<Rune>, b: seq<Rune>, k: nat)
    requires RunesAt(a, b, k)
    ensures RunesAt(LowerRunes(tb, a), LowerRunes(tb, b), k)
  {
    assert LowerRunes(tb, a)[k..k + |b|] == LowerRunes(tb, a[k..k + |b|]);
  }

  lemma FoldNarrows(tb: Tables, rs: seq<Rune>, r: Rune, s: string)
    requires FoldFound(tb, s, rs + [r])
    ensures FoldFound(tb, s, rs)
  {
    var a, b := LowerRunes(tb, Runes(s)), LowerRunes(tb, rs + [r]);
    var k: nat :| RunesAt(a, b, k);
    assert LowerRunes(tb, rs) == b[..|rs|] == a[k..k + |b|][..|rs|] == a[k..k + |rs|];
    assert RunesAt(a, LowerRunes(tb, rs), k);
  }

  /** When only ASCII folds into these letters, what folds to them is ASCII. */
  lemma FoldFoundAscii(tb: Tables, s: string, rs: seq<Rune>)
    requires Sane(tb) && FoldFound(tb, s, rs) && AsciiOnly(rs)
    requires forall i, x: Rune :: 0 <= i < |rs| ==> !FoldsInto(tb, x, tb.lower(rs[i]))
    ensures FoldContains(s, AsciiLower(EncodeAll(rs)))
  {
    hide Sane, Runes, Boundary, EncodeAll;
    var a, b := LowerRunes(tb, Runes(s)), LowerRunes(tb, rs);
    var k: nat :| RunesAt(a, b, k);
    var i := BoundaryOf(s, k);
    FoldedPart(tb, Runes(s), rs, k);
    AsciiBytes(s[i..], |rs|);
    FoldsAtStart(tb, s[i..], rs);
    var f := EncodeAll(rs);
    assert forall j :: 0 <= j < |f| ==> s[i + j] == s[i..][j];
    assert FoldOccursAt(s, AsciiLower(f), i);
  }

  lemma FoldedPart(tb: Tables, all: seq<Rune>, rs: seq<Rune>, k: nat)
    requires RunesAt(LowerRunes(tb, all), LowerRunes(tb, rs), k)
    requires forall i, x: Rune :: 0 <= i < |rs| ==> !FoldsInto(tb, x, tb.lower(rs[i]))
    ensures k + |rs| <= |all| && forall j :: 0 <= j < |rs| ==> all[k..][j] < 0x80 && tb.lower(all[k..][j]) == tb.lower(rs[j])
  {
    var a, b := LowerRunes(tb, all), LowerRunes(tb, rs);
    forall j | 0 <= j < |rs| ensures all[k..][j] < 0x80 && tb.lower(all[k..][j]) == tb.lower(rs[j]) {
      assert a[k + j] == a[k..k + |rs|][j] == b[j];
      assert !FoldsInto(tb, all[k + j], tb.lower(rs[j]));
    }
  }

  lemma FoldsAtStart(tb: Tables, s: string, rs: seq<Rune>)
    requires Sane(tb) && AsciiOnly(rs) && |rs| <= |s|
    requires forall j :: 0 <= j < |rs| ==> 0 <= s[j] as int < 0x80 && tb.lower(s[j] as int) == tb.lower(rs[j])
    ensures |EncodeAll(rs)| <= |s| && forall j :: 0 <= j < |EncodeAll(rs)| ==> LowerByte(s[j]) == AsciiLower(EncodeAll(rs))[j]
  {
    var f := EncodeAll(rs);
    TypedAscii(rs);
    forall j | 0 <= j < |f| ensures LowerByte(s[j]) == AsciiLower(f)[j] {
      var c: Rune, y: Rune := s[j] as int, rs[j];
      assert f[j] as int == y && IsRune(y);
      assert c as char == s[j] && y as char == f[j];
      assert tb.lower(c) == LowerByte(c as char) as int && tb.lower(y) == LowerByte(y as char) as int;
    }
  }

  lemma WideBytes(r: Rune)
    requires r >= 0x80
    ensures forall i :: 0 <= i < |Encode(r)| ==> Encode(r)[i] as int >= 0x80
  {
    EncodedBytes(r);
  }

  /** A row that the longer token finds and the shorter one misses. */
  lemma WideRow(tb: Tables, rs: seq<Rune>, r: Rune, m: nat, x: Rune) returns (s: string)
    requires Sane(tb) && AsciiOnly(rs) && r >= 0x80 && m < |rs| && FoldsInto(tb, x, tb.lower(rs[m]))
    ensures FoldFound(tb, s, rs + [r]) && !FoldContains(s, AsciiLower(EncodeAll(rs)))
  {
    hide Sane, EncodeAll, Runes;
    var row := rs[m := x] + [r];
    s := EncodeAll(row);
    EncodedRunes(row);
    var a, b := LowerRunes(tb, row), LowerRunes(tb, rs + [r]);
    assert a == b && a[0..0 + |b|] == b;
    assert RunesAt(LowerRunes(tb, Runes(s)), b, 0);
    WideRowBytes(rs, r, m, x);
    TypedAscii(rs);
    NoAsciiRun(s, EncodeAll(rs), m, |Encode(x)|);
  }

  /** A needle of n ASCII bytes has no room in text with a wide rune after the first m bytes
      and another one n - 1 ASCII bytes on. */
  lemma NoAsciiRun(s: string, f: string, m: nat, e: nat)
    requires IsAscii(f) && m < |f| && e > 0 && |f| - 1 + e < |s|
    requires forall j :: m <= j < m + e ==> s[j] as int >= 0x80
    requires forall j :: |f| - 1 + e <= j < |s| ==> s[j] as int >= 0x80
    ensures !FoldContains(s, AsciiLower(f))
  {
    var lower := AsciiLower(f);
    forall i: nat ensures !FoldOccursAt(s, lower, i) {
      if FoldOccursAt(s, lower, i) {
        var p := NoRoom(s, i, |f|, m, e);
        FoldedByte(s, f, i, p);
      }
    }
  }

  lemma WideRowBytes(rs: seq<Rune>, r: Rune, m: nat, x: Rune)
    requires AsciiOnly(rs) && r >= 0x80 && x >= 0x80 && m < |rs|
    ensures var s, e := EncodeAll(rs[m := x] + [r]), |Encode(x)|;
      && |s| == |rs| - 1 + e + |Encode(r)|
      && (forall j :: m <= j < m + e ==> s[j] as int >= 0x80)
      && (forall j :: |rs| - 1 + e <= j < |s| ==> s[j] as int >= 0x80)
  {
    var a, b := rs[..m], rs[m + 1..];
    assert rs[m := x] + [r] == a + ([x] + (b + [r]));
    EncodeConcat(a, [x] + (b + [r]));
    EncodeConcat([x], b + [r]);
    TypedMore([], x);
    TypedMore(b, r);
    assert [] + [x] == [x];
    TypedAscii(a);
    TypedAscii(b);
    WideBytes(x);
    WideBytes(r);
  }

  lemma FoldedByte(s: string, f: string, i: nat, p: nat)
    requires IsAscii(f) && FoldOccursAt(s, AsciiLower(f), i) && i <= p < i + |f|
    ensures s[p] as int < 0x80
  {
    var j := p - i;
    assert f[j] as int < 0x80 && LowerByte(s[i + j]) == AsciiLower(f)[j];
  }

  lemma NoRoom(s: string, i: nat, n: nat, m: nat, e: nat) returns (p: nat)
    requires m < n && e > 0 && i + n <= |s| && n - 1 + e < |s|
    requires forall j :: m <= j < m + e ==> s[j] as int >= 0x80
    requires forall j :: n - 1 + e <= j < |s| ==> s[j] as int >= 0x80
    ensures i <= p < i + n && s[p] as int >= 0x80
  {
    p := if i <= m then m else if i < m + e then i else if i <= n - 1 + e then n - 1 + e else i;
  }

  lemma NotUpperIsLower(tb: Tables, rs: seq<Rune>, i: nat)
    requires Sane(tb) && AsciiOnly(rs) && !AnyUpper(tb, rs) && i < |rs|
    ensures tb.lower(rs[i]) == rs[i]
  {
    assert !tb.isUpper(rs[i]) && IsRune(rs[i]);
  }

  /** Adding a rune to a token can only lose rows, for every row there is, unless it widens
      the token; and then there is a row it wins. */
  lemma OneRuneNarrows(tb: Tables, fields: string -> seq<string>, rs: seq<Rune>, r: Rune)
    requires Sane(tb) && rs != []
    ensures var u := TextTables(tb, fields);
      (forall s :: TermMatches(u, ParseTerm(u, EncodeAll(rs + [r])), s) ==> TermMatches(u, ParseTerm(u, EncodeAll(rs)), s))
      <==> !Widens(tb, rs, r)
  {
    var u := TextTables(tb, fields);
    if Widens(tb, rs, r) {
      var s := WideningWins(tb, fields, rs, r);
    } else {
      forall s | TermMatches(u, ParseTerm(u, EncodeAll(rs + [r])), s) ensures TermMatches(u, ParseTerm(u, EncodeAll(rs)), s) {
        UnlessWidened(tb, fields, rs, r, s);
      }
    }
  }

  lemma WideningWins(tb: Tables, fields: string -> seq<string>, rs: seq<Rune>, r: Rune) returns (s: string)
    requires Sane(tb) && rs != [] && Widens(tb, rs, r)
    ensures var u := TextTables(tb, fields);
      TermMatches(u, ParseTerm(u, EncodeAll(rs + [r])), s) && !TermMatches(u, ParseTerm(u, EncodeAll(rs)), s)
  {
    var m, x: Rune :| 0 <= m < |rs| && FoldsInto(tb, x, rs[m]);
    UpperOfMore(tb, rs, r);
    NotUpperIsLower(tb, rs, m);
    s := WideRow(tb, rs, r, m, x);
    assert !AsciiOnly(rs + [r]) by {
      assert (rs + [r])[|rs|] == r;
    }
    TypedMatches(tb, fields, rs, s);
    TypedMatches(tb, fields, rs + [r], s);
  }

  lemma UnlessWidened(tb: Tables, fields: string -> seq<string>, rs: seq<Rune>, r: Rune, s: string)
    requires Sane(tb) && rs != [] && !Widens(tb, rs, r)
    requires TermMatches(TextTables(tb, fields), ParseTerm(TextTables(tb, fields), EncodeAll(rs + [r])), s)
    ensures TermMatches(TextTables(tb, fields), ParseTerm(TextTables(tb, fields), EncodeAll(rs)), s)
  {
    var u := TextTables(tb, fields);
    hide TermMatches, ParseTerm, Sane, AsciiOnly, FoldFound, Contains, FoldContains;
    TypedMatches(tb, fields, rs, s);
    TypedMatches(tb, fields, rs + [r], s);
    UpperOfMore(tb, rs, r);
    if AnyUpper(tb, rs + [r]) {
      ExactNarrows(tb, rs, r, s);
    } else if AsciiOnly(rs + [r]) {
      AsciiNarrows(rs, r, s);
    } else {
      WideFoldNarrows(tb, rs, r, s);
    }
  }

  lemma AsciiNarrows(rs: seq<Rune>, r: Rune, s: string)
    requires AsciiOnly(rs + [r]) && FoldContains(s, AsciiLower(EncodeAll(rs + [r])))
    ensures AsciiOnly(rs) && FoldContains(s, AsciiLower(EncodeAll(rs)))
  {
    TypedMore(rs, r);
    assert forall i :: 0 <= i < |rs| ==> (rs + [r])[i] == rs[i];
    FoldOccursShorter(s, EncodeAll(rs), Encode(r));
  }

  lemma WideFoldNarrows(tb: Tables, rs: seq<Rune>, r: Rune, s: string)
    requires Sane(tb) && !Widens(tb, rs, r) && !AnyUpper(tb, rs + [r]) && !AsciiOnly(rs + [r]) && FoldFound(tb, s, rs + [r])
    ensures FoldFound(tb, s, rs)
    ensures AsciiOnly(rs) ==> FoldContains(s, AsciiLower(EncodeAll(rs)))
  {
    FoldNarrows(tb, rs, r, s);
    if AsciiOnly(rs) {
      UpperOfMore(tb, rs, r);
      assert r >= 0x80;
      forall i, x: Rune | 0 <= i < |rs| ensures !FoldsInto(tb, x, tb.lower(rs[i])) {
        NotUpperIsLower(tb, rs, i);
      }
      FoldFoundAscii(tb, s, rs);
    }
  }
}
