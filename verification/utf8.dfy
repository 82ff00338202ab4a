/** UTF-8 (RFC 3629, section 3) as text is walked here: one rune at a time, a byte that starts
    no rune standing for the replacement rune. A string is a sequence of bytes. */
module Utf8 {
  import opened ByteText

  predicate IsRune(r: int) {
    0 <= r < 0xD800 || 0xE000 <= r < 0x11_0000
  }

  type Rune = r: int | IsRune(r) witness 0

  const RUNE_ERROR: Rune := 0xFFFD

  predicate IsTail(c: char) {
    0x80 <= c as int < 0xC0
  }

  function Tail(n: nat): char {
    (0x80 + n % 64) as char
  }

  function Lead(n: int): char
    requires 0 <= n < 0x100
  {
    n as char
  }

  function Encode(r: Rune): (e: string)
    ensures 0 < |e| && !IsTail(e[0]) && forall i :: 0 < i < |e| ==> IsTail(e[i])
  {
    assert IsRune(r);
    if r < 0x80 then [Lead(r)]
    else if r < 0x800 then [Lead(0xC0 + r / 0x40), Tail(r)]
    else if r < 0x1_0000 then [Lead(0xE0 + r / 0x1000), Tail(r / 0x40), Tail(r)]
    else [Lead(0xF0 + r / 0x4_0000), Tail(r / 0x1000), Tail(r / 0x40), Tail(r)]
  }

  function Bits(c: char): int {
    c as int - 0x80
  }

  function Two(s: string): int
    requires |s| >= 2
  {
    (s[0] as int - 0xC0) * 0x40 + Bits(s[1])
  }

  function Three(s: string): int
    requires |s| >= 3
  {
    (s[0] as int - 0xE0) * 0x1000 + Bits(s[1]) * 0x40 + Bits(s[2])
  }

  function Four(s: string): int
    requires |s| >= 4
  {
    (s[0] as int - 0xF0) * 0x4_0000 + Bits(s[1]) * 0x1000 + Bits(s[2]) * 0x40 + Bits(s[3])
  }

  /** The rune a string starts with and its size. Overlong forms and surrogates are no runes. */
  function Decode(s: string): (d: (Rune, nat))
    requires s != ""
    ensures 0 < d.1 <= |s| && forall i :: 0 < i < d.1 ==> IsTail(s[i])
  {
    var b := s[0] as int;
    if b < 0x80 then (b, 1)
    else if 0xC0 <= b < 0xE0 && |s| >= 2 && IsTail(s[1]) && Two(s) >= 0x80 then (Two(s), 2)
    else if 0xE0 <= b < 0xF0 && |s| >= 3 && IsTail(s[1]) && IsTail(s[2]) && Three(s) >= 0x800 && IsRune(Three(s)) then (Three(s), 3)
    else if 0xF0 <= b < 0xF8 && |s| >= 4 && IsTail(s[1]) && IsTail(s[2]) && IsTail(s[3]) && Four(s) >= 0x1_0000 && IsRune(Four(s))
    then (Four(s), 4)
    else (RUNE_ERROR, 1)
  }

  lemma Digits(r: nat)
    ensures r == r / 0x40 * 0x40 + r % 0x40
    ensures r == r / 0x1000 * 0x1000 + r / 0x40 % 0x40 * 0x40 + r % 0x40
    ensures r == r / 0x4_0000 * 0x4_0000 + r / 0x1000 % 0x40 * 0x1000 + r / 0x40 % 0x40 * 0x40 + r % 0x40
  {
    var q := r / 0x40;
    assert q / 0x40 == r / 0x1000 && q / 0x1000 == r / 0x4_0000;
    assert q == q / 0x40 * 0x40 + q % 0x40;
    var p := q / 0x40;
    assert p == p / 0x40 * 0x40 + p % 0x40 && p / 0x40 == q / 0x1000;
  }

  lemma EncodedBytes(r: Rune)
    requires r >= 0x80
    ensures r < 0x800 ==> |Encode(r)| == 2 && Two(Encode(r)) == r && 0xC0 <= Encode(r)[0] as int < 0xE0
    ensures 0x800 <= r < 0x1_0000 ==> |Encode(r)| == 3 && Three(Encode(r)) == r && 0xE0 <= Encode(r)[0] as int < 0xF0
    ensures 0x1_0000 <= r ==> |Encode(r)| == 4 && Four(Encode(r)) == r && 0xF0 <= Encode(r)[0] as int < 0xF8
  {
    assert IsRune(r);
    Digits(r);
  }

  lemma EncodeDecodes(r: Rune, rest: string)
    ensures Decode(Encode(r) + rest) == (r, |Encode(r)|)
  {
    assert IsRune(r);
    var e := Encode(r);
    var s := e + rest;
    assert forall i :: 0 <= i < |e| ==> s[i] == e[i];
    if r >= 0x80 {
      EncodedBytes(r);
      hide Encode;
      assert |e| == 2 ==> Two(s) == Two(e);
      assert |e| == 3 ==> Three(s) == Three(e);
      assert |e| == 4 ==> Four(s) == Four(e);
    }
  }

  /** Decoding looks no further than what it takes. */
  lemma DecodePrefix(s: string, m: nat)
    requires s != "" && Decode(s).1 <= m <= |s|
    ensures Decode(s[..m]) == Decode(s)
  {
  }

  function Runes(s: string): (rs: seq<Rune>)
    ensures s == "" <==> rs == []
    decreases |s|
  {
    if s == "" then [] else [Decode(s).0] + Runes(s[Decode(s).1..])
  }

  function EncodeAll(rs: seq<Rune>): (s: string)
    ensures s == "" <==> rs == []
    ensures s != "" ==> !IsTail(s[0])
  {
    if rs == [] then "" else Encode(rs[0]) + EncodeAll(rs[1..])
  }

  lemma {:induction false} EncodedRunes(rs: seq<Rune>)
    ensures Runes(EncodeAll(rs)) == rs
  {
    if rs != [] {
      var e, rest := Encode(rs[0]), EncodeAll(rs[1..]);
      EncodeDecodes(rs[0], rest);
      assert (e + rest)[|e|..] == rest;
      EncodedRunes(rs[1..]);
    }
  }

  lemma {:induction false} EncodeConcat(a: seq<Rune>, b: seq<Rune>)
    ensures EncodeAll(a + b) == EncodeAll(a) + EncodeAll(b)
  {
    if a == [] {
      assert a + b == b;
    } else {
      assert (a + b)[1..] == a[1..] + b;
      EncodeConcat(a[1..], b);
    }
  }

  // ---- the encoding synchronizes itself ----

  lemma Tails(e: string, x: string, y: string)
    requires e + x == e + y
    ensures x == y
  {
    assert (e + x)[|e|..] == x && (e + y)[|e|..] == y;
  }

  lemma {:induction false} PrefixDecodes(a: seq<Rune>, b: seq<Rune>)
    requires EncodeAll(b) <= EncodeAll(a)
    ensures b <= a
  {
    hide Encode, Decode;
    if b != [] {
      var t := EncodeAll(a);
      var rest := t[|EncodeAll(b)|..];
      assert t == Encode(b[0]) + (EncodeAll(b[1..]) + rest);
      EncodeDecodes(b[0], EncodeAll(b[1..]) + rest);
      EncodeDecodes(a[0], EncodeAll(a[1..]));
      assert t == Encode(a[0]) + EncodeAll(a[1..]);
      assert a[0] == b[0];
      Tails(Encode(a[0]), EncodeAll(a[1..]), EncodeAll(b[1..]) + rest);
      assert EncodeAll(a[1..]) == EncodeAll(b[1..]) + rest;
      PrefixDecodes(a[1..], b[1..]);
    }
  }

  predicate RunesAt(a: seq<Rune>, b: seq<Rune>, k: nat) {
    k + |b| <= |a| && a[k..k + |b|] == b
  }

  lemma EncodeCons(a: seq<Rune>)
    requires a != []
    ensures EncodeAll(a) == Encode(a[0]) + EncodeAll(a[1..])
  {
  }

  lemma OccursLater(e: string, rest: string, x: string, i: nat)
    requires OccursAt(e + rest, x, i) && i >= |e|
    ensures OccursAt(rest, x, i - |e|)
  {
    assert (e + rest)[i..i + |x|] == rest[i - |e|..i - |e| + |x|];
  }

  /** No occurrence begins inside a rune. */
  lemma NotInside(e: string, rest: string, x: string, i: nat)
    requires OccursAt(e + rest, x, i) && x != "" && !IsTail(x[0]) && (forall j :: 0 < j < |e| ==> IsTail(e[j])) && i > 0
    ensures i >= |e|
  {
    assert (e + rest)[i..i + |x|][0] == (e + rest)[i];
  }

  /** Bytes of encoded text that occur in encoded text occur there as runes. */
  lemma {:induction false} FoundAsRunes(a: seq<Rune>, b: seq<Rune>, i: nat) returns (k: nat)
    requires b != [] && OccursAt(EncodeAll(a), EncodeAll(b), i)
    ensures RunesAt(a, b, k)
  {
    hide Encode, EncodeAll, OccursAt;
    var x := EncodeAll(b);
    if a == [] || i == 0 {
      OccursFirst(EncodeAll(a), x, i);
      PrefixDecodes(a, b);
      return 0;
    }
    var e, rest := Encode(a[0]), EncodeAll(a[1..]);
    EncodeCons(a);
    NotInside(e, rest, x, i);
    OccursLater(e, rest, x, i);
    k := FoundAsRunes(a[1..], b, i - |e|);
    assert a[1..][k..k + |b|] == a[k + 1..k + 1 + |b|];
    k := k + 1;
  }

  lemma OccursFirst(s: string, x: string, i: nat)
    requires OccursAt(s, x, i) && (i == 0 || s == "")
    ensures x <= s
  {
  }

  lemma RunesFound(a: seq<Rune>, b: seq<Rune>, k: nat) returns (i: nat)
    requires RunesAt(a, b, k)
    ensures OccursAt(EncodeAll(a), EncodeAll(b), i)
  {
    assert a == a[..k] + (b + a[k + |b|..]);
    EncodeConcat(a[..k], b + a[k + |b|..]);
    EncodeConcat(b, a[k + |b|..]);
    i := |EncodeAll(a[..k])|;
  }

  // ---- where runes begin and end ----

  /** Decoding from the start stops here. */
  predicate Boundary(s: string, i: nat)
    requires i <= |s|
    decreases |s|
  {
    i == 0 || (Decode(s).1 <= i && Boundary(s[Decode(s).1..], i - Decode(s).1))
  }

  lemma {:induction false} EndIsBoundary(s: string)
    ensures Boundary(s, |s|)
    decreases |s|
  {
    if s != "" {
      EndIsBoundary(s[Decode(s).1..]);
    }
  }

  lemma RunesStep(s: string)
    requires s != ""
    ensures Runes(s) == [Decode(s).0] + Runes(s[Decode(s).1..])
  {
  }

  lemma Slices(s: string, n: nat, i: nat)
    requires n <= i <= |s|
    ensures s[n..][i - n..] == s[i..] && s[n..][..i - n] == s[..i][n..]
  {
  }

  lemma Regroup(r: Rune, a: seq<Rune>, b: seq<Rune>)
    ensures [r] + (a + b) == ([r] + a) + b
  {
  }

  lemma BoundaryStep(s: string, i: nat)
    requires 0 < i <= |s| && Boundary(s, i)
    ensures Decode(s).1 <= i && Boundary(s[Decode(s).1..], i - Decode(s).1)
  {
  }

  lemma {:induction false} BoundarySplits(s: string, i: nat)
    requires i <= |s| && Boundary(s, i)
    ensures Runes(s) == Runes(s[..i]) + Runes(s[i..])
    decreases |s|
  {
    if i == 0 {
      assert s[0..] == s;
    } else {
      hide Decode, Runes, Boundary;
      var n := Decode(s).1;
      BoundaryStep(s, i);
      var t, u := s[n..], s[..i];
      BoundarySplits(t, i - n);
      DecodePrefix(s, i);
      RunesStep(s);
      RunesStep(u);
      Slices(s, n, i);
      Regroup(Decode(s).0, Runes(u[n..]), Runes(s[i..]));
    }
  }

  lemma BoundaryIff(s: string, i: nat)
    requires 0 < i <= |s|
    ensures Boundary(s, i) <==> Decode(s).1 <= i && Boundary(s[Decode(s).1..], i - Decode(s).1)
  {
  }

  lemma {:induction false} BoundaryJoins(s: string, i: nat, j: nat)
    requires i <= j <= |s| && Boundary(s, i)
    ensures Boundary(s[i..], j - i) <==> Boundary(s, j)
    decreases |s|
  {
    hide Boundary, Decode;
    if i == 0 {
      assert s[0..] == s;
    } else {
      var n := Decode(s).1;
      BoundaryIff(s, i);
      BoundaryIff(s, j);
      BoundaryJoins(s[n..], i - n, j - n);
      Slices(s, n, i);
    }
  }

  /** Cutting between runes cuts the runes. */
  lemma RunesBetween(s: string, i: nat, j: nat)
    requires i <= j <= |s| && Boundary(s, i) && Boundary(s, j)
    ensures Runes(s) == Runes(s[..i]) + Runes(s[i..])
    ensures Runes(s[i..]) == Runes(s[i..j]) + Runes(s[j..])
  {
    hide Runes, Boundary;
    BoundarySplits(s, i);
    BoundaryJoins(s, i, j);
    BoundarySplits(s[i..], j - i);
    Cut(s, i, j);
  }

  lemma Cut(s: string, i: nat, j: nat)
    requires i <= j <= |s|
    ensures s[i..][..j - i] == s[i..j] && s[i..][j - i..] == s[j..]
  {
  }

  /** Where the k-th rune begins. */
  lemma {:induction false} BoundaryOf(s: string, k: nat) returns (i: nat)
    requires k <= |Runes(s)|
    ensures i <= |s| && Boundary(s, i) && Runes(s[..i]) == Runes(s)[..k] && Runes(s[i..]) == Runes(s)[k..]
    decreases |s|
  {
    hide Decode;
    if k == 0 {
      assert s[0..] == s;
      return 0;
    }
    var n := Decode(s).1;
    var j := BoundaryOf(s[n..], k - 1);
    i := n + j;
    DecodePrefix(s, i);
    assert s[n..][j..] == s[i..] && s[n..][..j] == s[..i][n..];
  }

  /** A byte that is not a continuation byte begins a rune. */
  lemma {:induction false} LeadIsBoundary(s: string, i: nat)
    requires i < |s| && !IsTail(s[i])
    ensures Boundary(s, i)
    decreases |s|
  {
    if i > 0 {
      assert i >= Decode(s).1;
      LeadIsBoundary(s[Decode(s).1..], i - Decode(s).1);
    }
  }

  /** Text that starts with encoded runes decodes to them first. */
  lemma {:induction false} EncodedPrefix(rs: seq<Rune>, rest: string)
    ensures Boundary(EncodeAll(rs) + rest, |EncodeAll(rs)|)
    decreases |rs|
  {
    if rs != [] {
      hide Boundary, Encode, Decode;
      EncodedPrefix(rs[1..], rest);
      var e, tail := Encode(rs[0]), EncodeAll(rs[1..]);
      BoundaryAfter(rs[0], tail + rest, |tail|);
      assert EncodeAll(rs) == e + tail;
      Associate(e, tail, rest);
    }
  }

  lemma Associate(a: string, b: string, c: string)
    ensures (a + b) + c == a + (b + c)
  {
  }

  lemma BoundaryAfter(r: Rune, t: string, i: nat)
    requires i <= |t| && Boundary(t, i)
    ensures Boundary(Encode(r) + t, |Encode(r)| + i)
  {
    hide Encode, Decode;
    EncodeDecodes(r, t);
    assert (Encode(r) + t)[|Encode(r)|..] == t;
  }

  /** Encoded text found anywhere in a string starts and ends between runes. */
  lemma FoundBetweenRunes(s: string, rs: seq<Rune>, i: nat)
    requires rs != [] && OccursAt(s, EncodeAll(rs), i)
    ensures Boundary(s, i) && Boundary(s, i + |EncodeAll(rs)|)
  {
    var x := EncodeAll(rs);
    assert s[i] == x[0];
    LeadIsBoundary(s, i);
    var rest := s[i + |x|..];
    assert s[i..] == x + rest;
    EncodedPrefix(rs, rest);
    BoundaryJoins(s, i, i + |x|);
  }
}
