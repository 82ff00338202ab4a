/** The search matcher. A string is a sequence of bytes, one char per byte. What the
    source asks of the Unicode tables for non-ASCII text stays an arbitrary parameter;
    for ASCII text it is spelled out. */
module Match {
  import opened ByteText

  /** strings.Fields, any-rune-is-upper and strings.ToLower on text that is not ASCII. */
  datatype Unicode = Unicode(fields: string -> seq<string>, hasUpper: string -> bool, toLower: string -> string)

  /** One whitespace-delimited query token. */
  datatype Term = Term(text: string, lower: string, fold: bool, ascii: bool)

  type Query = seq<Term>

  predicate IsAscii(s: string) {
    forall i :: 0 <= i < |s| ==> s[i] as int < 0x80
  }

  predicate IsSpace(c: char) {
    c == ' ' || ('\t' <= c <= '\r')
  }

  predicate IsUpperByte(c: char) {
    'A' <= c <= 'Z'
  }

  function LowerByte(c: char): char {
    if IsUpperByte(c) then (c as int + ('a' as int - 'A' as int)) as char else c
  }

  function AsciiLower(s: string): (r: string)
    ensures |r| == |s|
  {
    seq(|s|, i requires 0 <= i < |s| => LowerByte(s[i]))
  }

  /** strings.Fields on ASCII text, one byte at a time from the left. */
  function Fields(q: string): (ts: seq<string>)
    ensures forall i :: 0 <= i < |ts| ==> ts[i] != ""
    ensures q != "" && !IsSpace(q[|q| - 1]) ==> ts != []
  {
    if q == "" then []
    else
      var init, c := q[..|q| - 1], q[|q| - 1];
      var ts := Fields(init);
      if IsSpace(c) then ts
      else if init == "" || IsSpace(init[|init| - 1]) then ts + [[c]]
      else ts[..|ts| - 1] + [ts[|ts| - 1] + [c]]
  }

  function FieldsOf(u: Unicode, q: string): seq<string> {
    if IsAscii(q) then Fields(q) else u.fields(q)
  }

  predicate HasUpper(u: Unicode, s: string) {
    if IsAscii(s) then exists i :: 0 <= i < |s| && IsUpperByte(s[i]) else u.hasUpper(s)
  }

  function ToLower(u: Unicode, s: string): string {
    if IsAscii(s) then AsciiLower(s) else u.toLower(s)
  }

  /** Smart case: a token without upper case matches case-insensitively. */
  function ParseTerm(u: Unicode, f: string): Term {
    if HasUpper(u, f) then Term(f, "", false, IsAscii(f)) else Term(f, ToLower(u, f), true, IsAscii(f))
  }

  function Parse(u: Unicode, q: string): (r: Query) {
    var fs := FieldsOf(u, q);
    seq(|fs|, i requires 0 <= i < |fs| => ParseTerm(u, fs[i]))
  }

  predicate FoldOccursAt(s: string, needle: string, i: nat) {
    i + |needle| <= |s| && forall j :: 0 <= j < |needle| ==> LowerByte(s[i + j]) == needle[j]
  }

  predicate FoldContains(s: string, needle: string) {
    exists i: nat :: i <= |s| && FoldOccursAt(s, needle, i)
  }

  predicate TermMatches(u: Unicode, t: Term, s: string) {
    if !t.fold then Contains(s, t.text)
    else if t.ascii then FoldContains(s, t.lower)
    else Contains(ToLower(u, s), t.lower)
  }

  /** Every term occurs. */
  predicate Matches(u: Unicode, query: Query, s: string) {
    forall i :: 0 <= i < |query| ==> TermMatches(u, query[i], s)
  }

  /** The byte scan: the first place the lower-case needle occurs under ASCII folding, or -1. */
  method AsciiFoldIndex(s: string, needle: string) returns (r: int)
    ensures r >= 0 ==> FoldOccursAt(s, needle, r) && forall i: nat :: i < r ==> !FoldOccursAt(s, needle, i)
    ensures r >= 0 <==> FoldContains(s, needle)
  {
    var n := |needle|;
    if n == 0 {
      assert FoldOccursAt(s, needle, 0);
      return 0;
    }
    var i := 0;
    while i <= |s| - n
      invariant 0 <= i
      invariant forall k: nat :: k < i ==> !FoldOccursAt(s, needle, k)
    {
      var j := 0;
      while j < n
        invariant 0 <= j <= n
        invariant forall m :: 0 <= m < j ==> LowerByte(s[i + m]) == needle[m]
      {
        var c := s[i + j];
        if 'A' <= c <= 'Z' {
          c := (c as int + ('a' as int - 'A' as int)) as char;
        }
        if c != needle[j] {
          break;
        }
        j := j + 1;
      }
      if j == n {
        assert FoldOccursAt(s, needle, i);
        return i;
      }
      i := i + 1;
    }
    return -1;
  }

  method MatchTerm(u: Unicode, t: Term, s: string) returns (b: bool)
    ensures b == TermMatches(u, t, s)
  {
    if !t.fold { return Contains(s, t.text); }
    if t.ascii {
      var i := AsciiFoldIndex(s, t.lower);
      return i >= 0;
    }
    return Contains(ToLower(u, s), t.lower);
  }

  method MatchQuery(u: Unicode, query: Query, s: string) returns (b: bool)
    ensures b == Matches(u, query, s)
  {
    for i := 0 to |query|
      invariant forall j :: 0 <= j < i ==> TermMatches(u, query[j], s)
    {
      var m := MatchTerm(u, query[i], s);
      if !m { return false; }
    }
    return true;
  }

  // ---- what a query asks ----

  /** A word: bytes that are not white space. */
  predicate IsWord(w: string) {
    w != "" && forall i :: 0 <= i < |w| ==> w[i] != ' ' && !('\t' <= w[i] <= '\r')
  }

  predicate IsBlank(c: char) {
    c == ' ' || c == '\t' || c == '\n' || c == '\U{000B}' || c == '\U{000C}' || c == '\r'
  }

  /** One more byte. */
  lemma FieldsStep(q: string, c: char)
    ensures var ts := Fields(q);
      if IsBlank(c) then Fields(q + [c]) == ts
      else if q == "" || IsBlank(q[|q| - 1]) then Fields(q + [c]) == ts + [[c]]
      else ts != [] && Fields(q + [c]) == ts[..|ts| - 1] + [ts[|ts| - 1] + [c]]
    ensures Fields("") == []
  {
    hide Fields, IsBlank, IsSpace;
    var q' := q + [c];
    assert q'[..|q'| - 1] == q && q'[|q'| - 1] == c && q' != "";
    FieldsLast(q');
    SameBlanks(c);
    if q != "" {
      SameBlanks(q[|q| - 1]);
    }
    NoFields();
  }

  lemma SameBlanks(c: char)
    ensures IsBlank(c) <==> IsSpace(c)
  {
  }

  lemma NoFields()
    ensures Fields("") == []
  {
  }

  lemma FieldsLast(q: string)
    requires q != ""
    ensures var init, c := q[..|q| - 1], q[|q| - 1]; var ts := Fields(init);
      Fields(q) == if IsSpace(c) then ts
                   else if init == "" || IsSpace(init[|init| - 1]) then ts + [[c]]
                   else ts[..|ts| - 1] + [ts[|ts| - 1] + [c]]
  {
  }

  /** A word after any text that a blank ends is one more token. */
  lemma {:induction false} FieldsWord(q: string, w: string)
    requires IsWord(w) && (q == "" || IsBlank(q[|q| - 1]))
    ensures Fields(q + w) == Fields(q) + [w]
    decreases |w|
  {
    hide Fields;
    var init, c := w[..|w| - 1], w[|w| - 1];
    assert q + w == (q + init) + [c];
    FieldsStep(q + init, c);
    if init == "" {
      assert q + init == q && w == [c];
    } else {
      FieldsWord(q, init);
      assert w == init + [c] && (q + init)[|q + init| - 1] == init[|init| - 1];
    }
  }

  /** Text after a blank has its own tokens, after those before it. */
  lemma {:induction false} FieldsSplit(a: string, c: char, b: string)
    requires IsBlank(c)
    ensures Fields(a + [c] + b) == Fields(a) + Fields(b)
    decreases |b|
  {
    hide Fields;
    var q := a + [c];
    FieldsStep(a, c);
    if b == "" {
      assert q + b == q;
    } else {
      var init, d := b[..|b| - 1], b[|b| - 1];
      FieldsSplit(a, c, init);
      assert q + b == (q + init) + [d] && b == init + [d];
      FieldsStep(q + init, d);
      FieldsStep(init, d);
      assert (q + init)[|q + init| - 1] == if init == "" then c else init[|init| - 1];
      TokenJoins(Fields(a), Fields(init), d);
    }
  }

  lemma TokenJoins(x: seq<string>, y: seq<string>, d: char)
    ensures y != [] ==> (x + y)[..|x + y| - 1] + [(x + y)[|x + y| - 1] + [d]] == x + (y[..|y| - 1] + [y[|y| - 1] + [d]])
    ensures (x + y) + [[d]] == x + (y + [[d]])
  {
  }

  lemma LowerAlready(w: string)
    requires forall i :: 0 <= i < |w| ==> !('A' <= w[i] <= 'Z')
    ensures AsciiLower(w) == w
  {
  }

  /** A word is one term: anywhere in the row, in any case if the word has no upper case, and
      exactly as typed if it has. */
  lemma WordMatches(u: Unicode, w: string, s: string)
    requires IsWord(w) && IsAscii(w)
    ensures Matches(u, Parse(u, w), s) <==>
      if exists i :: 0 <= i < |w| && 'A' <= w[i] <= 'Z' then Contains(s, w) else FoldContains(s, w)
  {
    hide Fields, FoldContains, Contains, AsciiLower;
    FieldsStep("", 'a');
    FieldsWord("", w);
    assert "" + w == w && [] + [w] == [w];
    assert Fields(w) == [w];
    assert Parse(u, w) == [ParseTerm(u, w)];
    OneTerm(u, ParseTerm(u, w), s);
    WordTerm(u, w, s);
  }

  lemma OneTerm(u: Unicode, t: Term, s: string)
    ensures Matches(u, [t], s) <==> TermMatches(u, t, s)
  {
    assert [t][0] == t;
  }

  lemma WordTerm(u: Unicode, w: string, s: string)
    requires IsAscii(w)
    ensures TermMatches(u, ParseTerm(u, w), s) <==>
      if exists i :: 0 <= i < |w| && 'A' <= w[i] <= 'Z' then Contains(s, w) else FoldContains(s, w)
  {
    hide FoldContains, Contains, AsciiLower;
    if i :| 0 <= i < |w| && 'A' <= w[i] <= 'Z' {
      assert IsUpperByte(w[i]);
    } else {
      assert forall i :: 0 <= i < |w| ==> !IsUpperByte(w[i]);
      LowerAlready(w);
    }
  }

  /** Folding changes the case of the 26 letters and nothing else. */
  lemma LowersLetters(c: char, d: char)
    ensures LowerByte(c) == d <==> if 'A' <= c <= 'Z' then d as int == c as int + 32 else d == c
  {
  }

  /** A row matches two queries with a blank between them exactly when it matches both. */
  lemma TwoQueries(u: Unicode, a: string, c: char, b: string, s: string)
    requires IsAscii(a) && IsAscii(b) && IsBlank(c)
    ensures Matches(u, Parse(u, a + [c] + b), s) <==> Matches(u, Parse(u, a), s) && Matches(u, Parse(u, b), s)
  {
    hide TermMatches, ParseTerm, Fields, Matches, IsAscii;
    var q := a + [c] + b;
    JoinedAscii(a, c, b);
    FieldsSplit(a, c, b);
    assert Parse(u, q) == Parse(u, a) + Parse(u, b);
    hide Parse;
    BothMatch(u, Parse(u, a), Parse(u, b), s);
  }

  lemma JoinedAscii(a: string, c: char, b: string)
    requires IsAscii(a) && IsAscii(b) && IsBlank(c)
    ensures IsAscii(a + [c] + b)
  {
    var q := a + [c] + b;
    forall i | 0 <= i < |q| ensures q[i] as int < 0x80 {
      assert if i < |a| then q[i] == a[i] else if i == |a| then q[i] == c else q[i] == b[i - |a| - 1];
    }
  }

  lemma BothMatch(u: Unicode, x: Query, y: Query, s: string)
    ensures Matches(u, x + y, s) <==> Matches(u, x, s) && Matches(u, y, s)
  {
    hide TermMatches;
    var z := x + y;
    assert forall i :: 0 <= i < |x| ==> z[i] == x[i];
    if Matches(u, z, s) {
      forall i | 0 <= i < |y| ensures TermMatches(u, y[i], s) {
        assert TermMatches(u, z[|x| + i], s);
      }
    }
  }

  // ---- typing forward narrows ----

  lemma OccursShorter(s: string, f: string, e: string, i: nat)
    requires OccursAt(s, f + e, i)
    ensures OccursAt(s, f, i) && i <= |s| && FoldContains(s, AsciiLower(f))
  {
    assert s[i..i + |f|] == s[i..i + |f + e|][..|f|] == f;
    forall j | 0 <= j < |f| ensures LowerByte(s[i + j]) == AsciiLower(f)[j] {
      assert s[i + j] == s[i..i + |f|][j];
    }
    assert FoldOccursAt(s, AsciiLower(f), i);
  }

  lemma FoldOccursShorter(s: string, f: string, e: string)
    requires FoldContains(s, AsciiLower(f + e))
    ensures FoldContains(s, AsciiLower(f))
  {
    var i: nat :| i <= |s| && FoldOccursAt(s, AsciiLower(f + e), i);
    forall j | 0 <= j < |f| ensures LowerByte(s[i + j]) == AsciiLower(f)[j] {
      assert AsciiLower(f)[j] == AsciiLower(f + e)[j];
    }
    assert FoldOccursAt(s, AsciiLower(f), i);
  }

  lemma LongerToken(u: Unicode, t: string, c: char)
    requires IsAscii(t + [c])
    ensures IsAscii(t) && (HasUpper(u, t) ==> HasUpper(u, t + [c]))
  {
    assert forall i :: 0 <= i < |t| ==> t[i] == (t + [c])[i];
  }

  /** Lengthening an ASCII token can only lose rows, even when the new byte switches the
      token from case-insensitive to case-sensitive. */
  lemma LongerTermNarrows(u: Unicode, t: string, c: char, s: string)
    requires IsAscii(t + [c]) && TermMatches(u, ParseTerm(u, t + [c]), s)
    ensures TermMatches(u, ParseTerm(u, t), s)
  {
    hide IsAscii, HasUpper, AsciiLower, OccursAt, FoldOccursAt, FoldContains;
    LongerToken(u, t, c);
    if HasUpper(u, t + [c]) {
      var i: nat :| i <= |s| && OccursAt(s, t + [c], i);
      OccursShorter(s, t, [c], i);
    } else {
      FoldOccursShorter(s, t, [c]);
    }
  }

  lemma {:induction false} FieldsAscii(q: string)
    requires IsAscii(q)
    ensures forall i :: 0 <= i < |Fields(q)| ==> IsAscii(Fields(q)[i])
  {
    if q != "" {
      FieldsAscii(q[..|q| - 1]);
      assert q[|q| - 1] as int < 0x80;
    }
  }

  lemma OneByteNarrows(u: Unicode, q: string, s: string)
    requires q != "" && IsAscii(q) && Matches(u, Parse(u, q), s)
    ensures Matches(u, Parse(u, q[..|q| - 1]), s)
  {
    var init, c := q[..|q| - 1], q[|q| - 1];
    var fs, gs := Fields(q), Fields(init);
    FieldsAscii(q);
    assert IsAscii(init);
    forall i | 0 <= i < |gs| ensures TermMatches(u, ParseTerm(u, gs[i]), s) {
      assert TermMatches(u, Parse(u, q)[i], s);
      if fs[i] != gs[i] {
        assert fs[i] == gs[i] + [c] && IsAscii(fs[i]);
        LongerTermNarrows(u, gs[i], c, s);
      }
    }
  }

  /** A row that matches an ASCII query matches every prefix of that query. */
  lemma {:induction false} PrefixNarrows(u: Unicode, p: string, q: string, s: string)
    requires p <= q && IsAscii(q) && Matches(u, Parse(u, q), s)
    ensures Matches(u, Parse(u, p), s)
    decreases |q|
  {
    if p == q {
    } else {
      OneByteNarrows(u, q, s);
      PrefixNarrows(u, p, q[..|q| - 1], s);
    }
  }

  /** Without the ASCII hypothesis narrowing can fail: for some Unicode tables a row
      matches a query and not its prefix. */
  lemma NonAsciiNeedNotNarrow() returns (u: Unicode, p: string, q: string, s: string)
    ensures p <= q && !IsAscii(q) && Matches(u, Parse(u, q), s) && !Matches(u, Parse(u, p), s)
  {
    // The Kelvin sign lowers to a plain k. The query "k" scans bytes and misses it; the
    // query "k" followed by e-acute folds the whole row and finds it.
    var kelvin := [0xE2 as char, 0x84 as char, 0xAA as char];
    var accent := [0xC3 as char, 0xA9 as char];
    s := kelvin + accent;
    p := "k";
    q := "k" + accent;
    var low := map[s := q, q := q];
    u := Unicode(x => [x], x => false, x => if x in low then low[x] else x);
    assert q[1] as int >= 0x80 && s[0] as int >= 0x80;
    assert !IsAscii(q) && !IsAscii(s) && IsAscii(p);
    assert p == q[..1];
    assert FieldsOf(u, q) == [q];
    assert OccursAt(ToLower(u, s), q, 0);
    assert Matches(u, Parse(u, q), s);
    assert Fields("") == [] && Fields(p) == ["k"] by {
      assert p[..0] == "";
    }
    assert ParseTerm(u, "k") == Term("k", AsciiLower("k"), true, true);
    assert AsciiLower("k") == "k";
    assert !FoldContains(s, "k") by {
      forall i: nat | i <= |s| ensures !FoldOccursAt(s, "k", i) {
        if i < |s| {
          assert LowerByte(s[i + 0]) != "k"[0];
        }
      }
    }
    assert Parse(u, p)[0] == ParseTerm(u, "k");
  }
}
