/** History files as zsh itself writes them: numbers, the extended line, its escaping, and a whole
    file. */
module ZshForeign {
  import opened Wrappers
  import opened ByteText
  import opened ZshHistory
  import opened ZshLines

  // ---- numbers ----

  function Power10(n: nat): nat {
    if n == 0 then 1 else 10 * Power10(n - 1)
  }

  predicate AllDigits(s: string) {
    forall i :: 0 <= i < |s| ==> IsDigit(s[i])
  }

  /** Digits are worth what they say, by place. */
  lemma {:induction false} PlaceValue(a: string, b: string)
    requires AllDigits(a) && AllDigits(b)
    ensures AllDigits(a + b) && ParseNat(a + b) == ParseNat(a) * Power10(|b|) + ParseNat(b)
    decreases |b|
  {
    if b == "" {
      assert a + b == a;
    } else {
      var init, c := b[..|b| - 1], b[|b| - 1];
      PlaceValue(a, init);
      assert a + b == (a + init) + [c] && b == init + [c];
      LastDigit(a + init, c);
      LastDigit(init, c);
      hide ParseNat, Power10, DigitValue;
      OneMorePlace(|init|);
      TimesTen(ParseNat(a), Power10(|init|));
    }
  }

  lemma LastDigit(s: string, c: char)
    requires AllDigits(s) && IsDigit(c)
    ensures AllDigits(s + [c]) && ParseNat(s + [c]) == 10 * ParseNat(s) + DigitValue(c)
  {
    assert (s + [c])[..|s|] == s;
  }

  lemma OneMorePlace(n: nat)
    ensures Power10(n + 1) == 10 * Power10(n)
  {
  }

  lemma TimesTen(x: nat, y: nat)
    ensures 10 * (x * y) == x * (10 * y)
  {
  }

  lemma OneDigit(d: nat)
    requires d < 10
    ensures FormatNat(d) == ["0123456789"[d]] && ParseNat(["0123456789"[d]]) == d
  {
    var s := ["0123456789"[d]];
    assert s[..0] == "";
  }

  /** The most significant digits come first. */
  lemma NumeralIs(n: nat, d: nat)
    requires d < 10 && n > 0
    ensures FormatNat(10 * n + d) == FormatNat(n) + FormatNat(d)
  {
  }

  // ---- one line ----

  lemma {:induction false} SpacesOver(s: string, i: nat, j: nat)
    requires i <= j < |s| && (forall k :: i <= k < j ==> s[k] == ' ') && s[j] != ' '
    ensures SkipSpaces(s, i) == j
    decreases j - i
  {
    if i < j {
      SpacesOver(s, i + 1, j);
    }
  }

  /** The parts of an extended line: blanks, the second, a sign, the elapsed seconds. */
  datatype Parts = Parts(blanks: string, secs: string, minus: bool, elapsed: string)

  predicate IsParts(p: Parts) {
    && p.blanks != "" && (forall i :: 0 <= i < |p.blanks| ==> p.blanks[i] == ' ')
    && p.secs != "" && AllDigits(p.secs) && p.elapsed != "" && AllDigits(p.elapsed)
  }

  function Head(p: Parts): string {
    ":" + p.blanks + p.secs + ":" + (if p.minus then "-" else "") + p.elapsed + ";"
  }

  function Elapsed(p: Parts): int
    requires IsParts(p)
  {
    if p.minus then 0 - ParseNat(p.elapsed) else ParseNat(p.elapsed)
  }

  /** Where the parts are. */
  lemma PartsAt(p: Parts, cmd: string) returns (i: nat, j: nat, e: nat, d: nat)
    requires IsParts(p)
    ensures var line := Head(p) + cmd;
      && 1 < i < j < e < d < |line| && At(line, 0, ':') && At(line, 1, ' ') && SkipSpaces(line, 1) == i
      && SkipDigits(line, i) == j && At(line, j, ':') && e == (if At(line, j + 1, '-') then j + 2 else j + 1)
      && (e == j + 2 <==> p.minus) && SkipDigits(line, e) == d
      && At(line, d, ';') && line[i..j] == p.secs && line[e..d] == p.elapsed && line[d + 1..] == cmd
  {
    var line := Head(p) + cmd;
    i, j := 1 + |p.blanks|, 1 + |p.blanks| + |p.secs|;
    e := if p.minus then j + 2 else j + 1;
    d := e + |p.elapsed|;
    HeadBytes(p, cmd);
    hide Head, SkipSpaces, SkipDigits, AllDigits, IsDigit;
    assert '0' <= p.secs[0] <= '9' && '0' <= p.elapsed[0] <= '9' by { FirstIsDigit(p); }
    assert line[i] == p.secs[0] && line[e] == p.elapsed[0] && line[1] == p.blanks[0];
    SpacesRun(line, 1, i, p.blanks);
    DigitsRun(line, i, j, p.secs);
    DigitsRun(line, e, d, p.elapsed);
  }

  lemma FirstIsDigit(p: Parts)
    requires IsParts(p)
    ensures '0' <= p.secs[0] <= '9' && '0' <= p.elapsed[0] <= '9'
  {
    assert IsDigit(p.secs[0]) && IsDigit(p.elapsed[0]);
  }

  lemma SpacesRun(line: string, i: nat, j: nat, blanks: string)
    requires i <= j < |line| && line[i..j] == blanks && line[j] != ' ' && forall k :: 0 <= k < |blanks| ==> blanks[k] == ' '
    ensures SkipSpaces(line, i) == j
  {
    SliceAt(line, i, j);
    SpacesOver(line, i, j);
  }

  lemma DigitsRun(line: string, i: nat, j: nat, ds: string)
    requires i <= j < |line| && line[i..j] == ds && (line[j] == ':' || line[j] == ';') && AllDigits(ds)
    ensures SkipDigits(line, i) == j
  {
    SliceAt(line, i, j);
    SkipDigitsOver(line, i, j);
  }

  lemma SliceAt(s: string, i: nat, j: nat)
    requires i <= j <= |s|
    ensures forall k :: i <= k < j ==> s[k] == s[i..j][k - i]
  {
  }

  lemma HeadBytes(p: Parts, cmd: string)
    ensures var line := Head(p) + cmd;
      var i := 1 + |p.blanks|; var j := i + |p.secs|; var e := if p.minus then j + 2 else j + 1; var d := e + |p.elapsed|;
      && d < |line| && line[0] == ':' && line[1..i] == p.blanks && line[i..j] == p.secs && line[j] == ':' && (p.minus ==> line[j + 1] == '-')
      && line[e..d] == p.elapsed && line[d] == ';' && line[d + 1..] == cmd
  {
    var m := if p.minus then "-" else "";
    var a, b := ":" + p.blanks, p.elapsed + ";" + cmd;
    var line := Head(p) + cmd;
    assert line == a + p.secs + (":" + m + b);
    assert line == a + p.secs + ":" + m + b;
  }

  /** An extended line carries its second, its duration in milliseconds unless that is negative,
      and its command; one whose numbers do not fit 64 bits is a plain command. */
  lemma ExtendedParses(p: Parts, cmd: string)
    requires IsParts(p)
    ensures ParseZshLine(Head(p) + cmd) ==
      if ParseNat(p.secs) <= INT64_MAX && -INT64_MAX - 1 <= Elapsed(p) <= INT64_MAX
      then Imported(Wrap64(ParseNat(p.secs) * 1000), if Elapsed(p) < 0 then None else Some(Wrap64(Elapsed(p) * 1000)), cmd)
      else Imported(0, None, Head(p) + cmd)
  {
    hide ParseExtended, ParseNat, Wrap64, Head, SkipSpaces, SkipDigits, At;
    var line := Head(p) + cmd;
    var i, j, e, d := PartsAt(p, cmd);
    ExtendedAt(line, i, j, e, d);
  }

  lemma ExtendedAt(line: string, i: nat, j: nat, e: nat, d: nat)
    requires At(line, 0, ':') && At(line, 1, ' ') && SkipSpaces(line, 1) == i && SkipDigits(line, i) == j && i < j && At(line, j, ':')
    requires e == (if At(line, j + 1, '-') then j + 2 else j + 1) && e < d < |line| && SkipDigits(line, e) == d && At(line, d, ';')
    ensures AllDigits(line[i..j]) && AllDigits(line[e..d])
    ensures var start, size := ParseNat(line[i..j]), ParseNat(line[e..d]);
      var elapsed := if e == j + 2 then 0 - size else size;
      ParseExtended(line) == if InInt64(start) && InInt64(elapsed) then Some((start, elapsed, d + 1)) else None
  {
    hide SkipSpaces, SkipDigits, ParseNat, InInt64;
    SliceAt(line, i, j);
    SliceAt(line, e, d);
  }

  lemma Fits64(x: int)
    requires -INT64_MAX - 1 <= x <= INT64_MAX
    ensures Wrap64(x) == x
  {
  }

  /** A line that is not of that form is a command without a time. */
  lemma OtherwisePlain(line: string)
    ensures ParseZshLine(line) == Imported(0, None, line) || exists p, cmd :: IsParts(p) && line == Head(p) + cmd
  {
    if ParseExtended(line).Some? {
      var i := SkipSpaces(line, 1);
      var j := SkipDigits(line, i);
      var e := if At(line, j + 1, '-') then j + 2 else j + 1;
      var d := SkipDigits(line, e);
      SpacesBefore(line, 1);
      assert line[1] == ' ' && SkipSpaces(line, 1) >= 2;
      hide SkipSpaces, SkipDigits;
      Reassembled(line, i, j, e, d);
      var p := Parts(line[1..i], line[i..j], e == j + 2, line[e..d]);
      assert IsParts(p) && line == Head(p) + line[d + 1..];
    }
  }

  lemma Reassembled(line: string, i: nat, j: nat, e: nat, d: nat)
    requires 2 <= i < j && (e == j + 1 || e == j + 2) && e < d < |line|
    requires (forall k :: 1 <= k < i ==> line[k] == ' ') && (forall k :: i <= k < j ==> IsDigit(line[k]))
    requires forall k :: e <= k < d ==> IsDigit(line[k])
    requires line[0] == ':' && line[j] == ':' && line[d] == ';' && (e == j + 2 ==> line[j + 1] == '-')
    ensures var p := Parts(line[1..i], line[i..j], e == j + 2, line[e..d]);
      IsParts(p) && line == Head(p) + line[d + 1..]
  {
    var m := if e == j + 2 then "-" else "";
    assert line[..j + 1] == ":" + line[1..i] + line[i..j] + ":";
    assert line[j + 1..e] == m;
    assert line == line[..j + 1] + line[j + 1..e] + line[e..d] + ";" + line[d + 1..];
  }

  lemma {:induction false} SpacesBefore(s: string, i: nat)
    requires i <= |s|
    ensures forall k :: i <= k < SkipSpaces(s, i) ==> s[k] == ' '
    decreases |s| - i
  {
    if i < |s| && s[i] == ' ' {
      SpacesBefore(s, i + 1);
    }
  }

  /** What zsh records of a command: when it started, how long it took, and its text. */
  datatype Entry = Entry(secs: nat, dur: int, cmd: string)

  function EntryHead(e: Entry): string {
    ": " + FormatInt(e.secs) + ":" + FormatInt(e.dur) + ";"
  }

  predicate FitsEntry(e: Entry) {
    e.secs * 1000 <= INT64_MAX && -INT64_MAX <= e.dur * 1000 <= INT64_MAX
  }

  function EntryImported(e: Entry): Imported {
    Imported(e.secs * 1000, if e.dur < 0 then None else Some(e.dur * 1000), e.cmd)
  }

  /** Seconds become milliseconds, start and duration alike. */
  lemma EntryParses(e: Entry)
    requires FitsEntry(e)
    ensures ParseZshLine(EntryHead(e) + e.cmd) == EntryImported(e)
  {
    hide ParseZshLine, Wrap64, FormatNat, ParseNat;
    var size := if e.dur < 0 then -e.dur else e.dur;
    var p := Parts(" ", FormatNat(e.secs), e.dur < 0, FormatNat(size));
    assert EntryHead(e) == Head(p);
    ParseFormat(e.secs);
    ParseFormat(size);
    ExtendedParses(p, e.cmd);
    Fits64(e.secs * 1000);
    Fits64(e.dur * 1000);
  }

  // ---- escaped bytes ----

  /** The bytes zsh escapes in a history file: the escape itself, and others outside ASCII text. */
  ghost predicate IsMetaSet(meta: char -> bool) {
    meta(META) && forall c: char :: c as int < 256 && meta(c) ==> c as int >= 0x80 || c as int == 0
  }

  function Metafy(meta: char -> bool, s: string): string
    requires IsBytes(s)
  {
    if s == "" then "" else (if meta(s[0]) then [META, FlipShift(s[0])] else [s[0]]) + Metafy(meta, s[1..])
  }

  /** The two bytes of an escape differ in the bit of value 32 alone. */
  lemma FlipIs(c: char)
    requires c as int < 256
    ensures var d := FlipShift(c) as int; d < 256 && d % 32 == c as int % 32 && d / 64 == c as int / 64 && d != c as int
    ensures FlipShift(FlipShift(c)) == c
  {
    var n := c as int;
    assert n == n / 64 * 64 + n / 32 % 2 * 32 + n % 32;
  }

  /** An escape stands for a newline exactly when its second byte is a star. */
  lemma StarIsNewline(c: char)
    requires c as int < 256
    ensures FlipShift(c) == '\n' <==> c == '*'
    ensures Unmetafy([META, c]) == [FlipShift(c)]
  {
    assert [META, c][2..] == "";
  }

  lemma {:induction false} MetafyConcat(meta: char -> bool, x: string, y: string)
    requires IsBytes(x) && IsBytes(y)
    ensures Metafy(meta, x + y) == Metafy(meta, x) + Metafy(meta, y)
  {
    if x == "" {
      assert x + y == y;
    } else {
      assert (x + y)[1..] == x[1..] + y;
      MetafyConcat(meta, x[1..], y);
    }
  }

  /** Escaping brings in no line end, and neither hides nor makes a final carriage return. */
  lemma {:induction false} MetafyShape(meta: char -> bool, s: string)
    requires IsBytes(s) && IsMetaSet(meta)
    ensures var m := Metafy(meta, s);
      IsBytes(m) && (NoNewline(s) ==> NoNewline(m)) && (m == "" <==> s == "") && (s != "" ==> (EndsWithCR(m) <==> EndsWithCR(s)))
  {
    if s != "" {
      MetafyShape(meta, s[1..]);
      var c, rest := s[0], s[1..];
      assert c as int < 256;
      FlipIs(c);
      hide FlipShift;
      var first := if meta(c) then [META, FlipShift(c)] else [c];
      var m := first + Metafy(meta, rest);
      assert Metafy(meta, s) == m;
      assert rest != "" ==> m[|m| - 1] == Metafy(meta, rest)[|m| - |first| - 1] && s[|s| - 1] == rest[|rest| - 1];
      assert NoNewline(s) ==> NoNewline(rest) by {
        assert forall i :: 0 <= i < |rest| ==> rest[i] == s[i + 1];
      }
    }
  }

  /** An escaped byte comes back as itself, whatever follows. */
  lemma {:induction false} MetafiedComesBack(meta: char -> bool, s: string, t: string)
    requires IsBytes(s) && IsBytes(t) && IsMetaSet(meta)
    ensures IsBytes(Metafy(meta, s)) && Unmetafy(Metafy(meta, s) + t) == s + Unmetafy(t)
  {
    MetafyShape(meta, s);
    if s == "" {
      assert Metafy(meta, s) + t == t && s + Unmetafy(t) == Unmetafy(t);
    } else {
      var c, rest := s[0], s[1..];
      MetafyShape(meta, rest);
      MetafiedComesBack(meta, rest, t);
      MetafyCons(meta, s);
      hide FlipShift, Metafy, Unmetafy;
      var first, m := if meta(c) then [META, FlipShift(c)] else [c], Metafy(meta, rest);
      OneByteBack(meta, c, m + t);
      Associate(first, m, t);
      Associate([c], rest, Unmetafy(t));
      assert [c] + rest == s;
    }
  }

  lemma Associate(a: string, b: string, c: string)
    ensures (a + b) + c == a + (b + c)
  {
  }

  lemma MetafyCons(meta: char -> bool, s: string)
    requires IsBytes(s) && s != ""
    ensures Metafy(meta, s) == (if meta(s[0]) then [META, FlipShift(s[0])] else [s[0]]) + Metafy(meta, s[1..])
  {
  }

  lemma OneByteBack(meta: char -> bool, c: char, t: string)
    requires c as int < 256 && IsBytes(t) && IsMetaSet(meta)
    ensures var first := if meta(c) then [META, FlipShift(c)] else [c];
      IsBytes(first + t) && Unmetafy(first + t) == [c] + Unmetafy(t)
  {
    FlipIs(c);
    hide FlipShift;
    var first := if meta(c) then [META, FlipShift(c)] else [c];
    assert (first + t)[|first|..] == t;
  }

  lemma {:induction false} PlainComesBack(p: string, t: string)
    requires IsBytes(p) && IsBytes(t) && NoMeta(p)
    ensures Unmetafy(p + t) == p + Unmetafy(t)
  {
    if p == "" {
      assert p + t == t;
    } else {
      assert (p + t)[1..] == p[1..] + t;
      PlainComesBack(p[1..], t);
    }
  }

  // ---- a whole file ----

  function ZshText(meta: char -> bool, es: seq<Entry>): string
    requires forall e <- es :: IsBytes(e.cmd)
  {
    if es == [] then "" else EntryHead(es[0]) + EscapeNewlines(Metafy(meta, es[0].cmd)) + "\n" + ZshText(meta, es[1..])
  }

  /** What keeps an entry from being read back: a blank command, a final carriage return, and a
      final backslash with another entry to come. */
  predicate Readable(es: seq<Entry>, blank: string -> bool) {
    forall i :: 0 <= i < |es| ==>
      && IsBytes(es[i].cmd) && FitsEntry(es[i]) && !blank(es[i].cmd) && !EndsWithCR(es[i].cmd)
      && (EndsWithBackslash(es[i].cmd) ==> i == |es| - 1)
  }

  function AllImported(es: seq<Entry>): seq<Imported> {
    if es == [] then [] else [EntryImported(es[0])] + AllImported(es[1..])
  }

  lemma HeadShape(e: Entry)
    ensures var p := EntryHead(e); p != "" && p[|p| - 1] == ';' && NoNewline(p) && NoMeta(p) && IsBytes(p)
  {
    var f, g := FormatInt(e.secs), FormatInt(e.dur);
    assert forall i :: 0 <= i < |f| ==> IsDigit(f[i]) || f[i] == '-';
    assert forall i :: 0 <= i < |g| ==> IsDigit(g[i]) || g[i] == '-';
  }

  /** The physical lines of an entry, unescaped, are those of the command as it was typed. */
  lemma {:induction false} LinesComeBack(meta: char -> bool, pre: string, cmd: string)
    requires IsBytes(pre) && NoMeta(pre) && IsBytes(cmd) && IsMetaSet(meta) && !EndsWithCR(cmd)
    requires pre == "" || !EndsWithCR(pre)
    ensures var ls := CmdLines(pre, Metafy(meta, cmd));
      (forall i :: 0 <= i < |ls| ==> IsBytes(ls[i])) && UnmetafyAll(ls) == CmdLines(pre, cmd)
    decreases |cmd|
  {
    hide Metafy, Unmetafy, IsMetaSet, IndexFrom, CmdLines, EndsWithCR, NextPart;
    var j := IndexFrom(cmd, 0, '\n');
    MetafyIndex(meta, cmd);
    if j == |cmd| {
      assert cmd[..j] == cmd;
      MetafyShape(meta, cmd);
      WholeLine(meta, pre, cmd);
      CmdLinesWhole(pre, cmd);
      CmdLinesWhole(pre, Metafy(meta, cmd));
    } else {
      var x, tail := cmd[..j], cmd[j + 1..];
      TailEnds(cmd, j);
      LinesComeBack(meta, "", tail);
      FirstComesBack(meta, pre, x, tail);
      CmdLinesCut(pre, x, tail, cmd);
    }
  }

  /** The same for the first line of several, the others being right. */
  lemma FirstComesBack(meta: char -> bool, pre: string, x: string, tail: string)
    requires IsBytes(pre) && NoMeta(pre) && IsBytes(x) && IsBytes(tail) && IsMetaSet(meta) && IsBytes(x + "\n" + tail) && NoNewline(x)
    requires (forall i :: 0 <= i < |CmdLines("", Metafy(meta, tail))| ==> IsBytes(CmdLines("", Metafy(meta, tail))[i]))
    requires UnmetafyAll(CmdLines("", Metafy(meta, tail))) == CmdLines("", tail)
    ensures var ls := CmdLines(pre, Metafy(meta, x + "\n" + tail));
      (forall i :: 0 <= i < |ls| ==> IsBytes(ls[i])) && UnmetafyAll(ls) == [pre + x + "\\"] + CmdLines("", tail)
  {
    hide Metafy, Unmetafy, IsMetaSet, IndexFrom, CmdLines, NoMeta;
    var cmd := x + "\n" + tail;
    var mx, mt, m := Metafy(meta, x), Metafy(meta, tail), Metafy(meta, cmd);
    IndexOfJoin(x, tail);
    CutAt(x, tail);
    MetafyIndex(meta, cmd);
    assert m == mx + "\n" + mt;
    CmdLinesCut(pre, mx, mt, m);
    CutLine(meta, pre, x);
    UnmetafyOneMore(pre + mx + "\\", CmdLines("", mt));
  }

  lemma CutAt(x: string, tail: string)
    ensures var cmd := x + "\n" + tail; cmd[..|x|] == x && cmd[|x| + 1..] == tail && |cmd| > |x|
  {
  }

  lemma TailEnds(cmd: string, j: nat)
    requires j == IndexFrom(cmd, 0, '\n') < |cmd| && !EndsWithCR(cmd) && IsBytes(cmd)
    ensures !EndsWithCR(cmd[j + 1..]) && IsBytes(cmd[..j]) && IsBytes(cmd[j + 1..]) && NoNewline(cmd[..j])
    ensures cmd == cmd[..j] + "\n" + cmd[j + 1..]
  {
    hide IndexFrom;
    NewlineAt(cmd, j);
    var tail := cmd[j + 1..];
    assert tail != "" ==> tail[|tail| - 1] == cmd[|cmd| - 1];
  }

  lemma CmdLinesWhole(pre: string, s: string)
    requires IndexFrom(s, 0, '\n') == |s|
    ensures CmdLines(pre, s) == [DropCR(pre + s)]
  {
  }

  lemma CmdLinesCut(pre: string, x: string, tail: string, s: string)
    requires s == x + "\n" + tail && IndexFrom(s, 0, '\n') == |x|
    ensures CmdLines(pre, s) == [pre + x + "\\"] + CmdLines("", tail)
  {
    assert s[..|x|] == x && s[|x| + 1..] == tail;
  }

  lemma UnmetafyOneMore(l: string, ls: seq<string>)
    requires IsBytes(l) && forall i :: 0 <= i < |ls| ==> IsBytes(ls[i])
    ensures UnmetafyAll([l] + ls) == [Unmetafy(l)] + UnmetafyAll(ls)
    ensures UnmetafyAll([l]) == [Unmetafy(l)]
  {
    assert ([l] + ls)[1..] == ls;
    assert [l][1..] == [];
  }

  lemma WholeLine(meta: char -> bool, pre: string, cmd: string)
    requires IsBytes(pre) && NoMeta(pre) && IsBytes(cmd) && IsMetaSet(meta) && !EndsWithCR(cmd) && (pre == "" || !EndsWithCR(pre))
    ensures var l := pre + Metafy(meta, cmd);
      IsBytes(l) && DropCR(l) == l && UnmetafyAll([l]) == [pre + cmd] && DropCR(pre + cmd) == pre + cmd
  {
    MetafyShape(meta, cmd);
    var m := Metafy(meta, cmd);
    MetafiedComesBack(meta, cmd, "");
    PlainComesBack(pre, m);
    hide Metafy, Unmetafy, IsMetaSet;
    assert m + "" == m && cmd + "" == cmd;
    LoneByte();
    UnmetafyOneMore(pre + m, []);
    NoFinalCR(pre, m);
    NoFinalCR(pre, cmd);
  }

  lemma NoFinalCR(pre: string, s: string)
    requires !EndsWithCR(s) && (pre == "" || !EndsWithCR(pre))
    ensures DropCR(pre + s) == pre + s
  {
    assert s == "" ==> pre + s == pre;
  }

  lemma CutLine(meta: char -> bool, pre: string, x: string)
    requires IsBytes(pre) && NoMeta(pre) && IsBytes(x) && IsMetaSet(meta)
    ensures var l := pre + Metafy(meta, x) + "\\";
      IsBytes(l) && Unmetafy(l) == pre + x + "\\"
  {
    MetafyShape(meta, x);
    var m := Metafy(meta, x);
    MetafiedComesBack(meta, x, "\\");
    PlainComesBack(pre, m + "\\");
    assert pre + m + "\\" == pre + (m + "\\");
    LoneByte();
  }

  lemma LoneByte()
    ensures Unmetafy("\\") == "\\" && Unmetafy("") == ""
  {
    assert "\\"[1..] == "";
  }

  lemma IndexOfJoin(a: string, b: string)
    requires NoNewline(a)
    ensures IndexFrom(a + "\n" + b, 0, '\n') == |a|
  {
    assert (a + "\n" + b)[|a|] == '\n';
  }

  predicate NextPart(meta: char -> bool, x: string, tail: string, m: string)
    requires IsBytes(x)
  {
    IsBytes(tail) && m == Metafy(meta, x) + "\n" + Metafy(meta, tail)
  }

  /** The first newline of the escaped text is that of the text. */
  lemma MetafyIndex(meta: char -> bool, cmd: string)
    requires IsBytes(cmd) && IsMetaSet(meta)
    ensures var j := IndexFrom(cmd, 0, '\n'); var m := Metafy(meta, cmd);
      && IsBytes(cmd[..j]) && IndexFrom(m, 0, '\n') == |Metafy(meta, cmd[..j])|
      && (j == |cmd| ==> |Metafy(meta, cmd[..j])| == |m|)
      && (j < |cmd| ==> NextPart(meta, cmd[..j], cmd[j + 1..], m))
  {
    var j := IndexFrom(cmd, 0, '\n');
    var x := cmd[..j];
    MetafyShape(meta, x);
    if j == |cmd| {
      assert x == cmd;
    } else {
      var tail := cmd[j + 1..];
      assert cmd == x + ("\n" + tail);
      MetafyConcat(meta, x, "\n" + tail);
      MetafyCons(meta, "\n" + tail);
      hide Metafy, IndexFrom;
      assert ("\n" + tail)[1..] == tail && !meta('\n');
      Associate(Metafy(meta, x), "\n", Metafy(meta, tail));
      IndexOfJoin(Metafy(meta, x), Metafy(meta, tail));
    }
  }

  lemma {:induction false} UnmetafySplits(xs: seq<string>, ys: seq<string>)
    requires (forall i :: 0 <= i < |xs| ==> IsBytes(xs[i])) && forall i :: 0 <= i < |ys| ==> IsBytes(ys[i])
    ensures UnmetafyAll(xs + ys) == UnmetafyAll(xs) + UnmetafyAll(ys)
  {
    hide Unmetafy;
    if xs == [] {
      assert xs + ys == ys;
    } else {
      assert (xs + ys)[1..] == xs[1..] + ys;
      UnmetafySplits(xs[1..], ys);
    }
  }

  /** The lines of a file are those of its first entry and of the rest. */
  lemma TextLines(meta: char -> bool, es: seq<Entry>)
    requires es != [] && (forall e <- es :: IsBytes(e.cmd)) && IsMetaSet(meta)
    ensures LinesFrom(ZshText(meta, es), 0) == CmdLines(EntryHead(es[0]), Metafy(meta, es[0].cmd)) + LinesFrom(ZshText(meta, es[1..]), 0)
  {
    hide LinesFrom, Metafy, EntryHead;
    HeadShape(es[0]);
    LinesOfRecord(EntryHead(es[0]), Metafy(meta, es[0].cmd), ZshText(meta, es[1..]));
  }

  lemma {:induction false} EscapedBytes(s: string)
    requires IsBytes(s)
    ensures IsBytes(EscapeNewlines(s))
  {
    if s != "" {
      EscapedBytes(s[1..]);
    }
  }

  lemma {:induction false} TextBytes(meta: char -> bool, es: seq<Entry>)
    requires (forall e <- es :: IsBytes(e.cmd)) && IsMetaSet(meta)
    ensures IsBytes(ZshText(meta, es))
  {
    hide Metafy, EntryHead, EscapeNewlines;
    if es != [] {
      HeadShape(es[0]);
      MetafyShape(meta, es[0].cmd);
      EscapedBytes(Metafy(meta, es[0].cmd));
      TextBytes(meta, es[1..]);
    }
  }

  /** A history file zsh wrote is imported entry by entry: seconds as milliseconds, negative
      durations dropped, escaped bytes and continued lines restored. */
  lemma {:induction false} FileImports(meta: char -> bool, es: seq<Entry>, blank: string -> bool)
    requires IsMetaSet(meta) && Readable(es, blank)
    ensures (forall e <- es :: IsBytes(e.cmd)) && IsBytes(ZshText(meta, es))
    ensures Import(ZshText(meta, es), blank) == AllImported(es)
    decreases |es|
  {
    EntryBytes(es, blank);
    TextBytes(meta, es);
    LinesAreBytes(ZshText(meta, es), 0);
    if es == [] {
      NoFile(blank);
    } else {
      hide LinesFrom, Metafy, EntryHead, Collect, Logical, ParseZshLine, CmdLines, IsMetaSet, Unmetafy, ZshText;
      var e, rest := es[0], es[1..];
      ReadableRest(es, blank);
      FileImports(meta, rest, blank);
      LinesAreBytes(ZshText(meta, rest), 0);
      HeadShape(e);
      TextLines(meta, es);
      LinesComeBack(meta, EntryHead(e), e.cmd);
      UnmetafySplits(CmdLines(EntryHead(e), Metafy(meta, e.cmd)), LinesFrom(ZshText(meta, rest), 0));
      EntryCollects(e, UnmetafyAll(LinesFrom(ZshText(meta, rest), 0)), blank);
      if rest == [] {
        NoLines(meta);
      }
    }
  }

  lemma EntryBytes(es: seq<Entry>, blank: string -> bool)
    requires Readable(es, blank)
    ensures forall e <- es :: IsBytes(e.cmd)
  {
  }

  lemma ReadableRest(es: seq<Entry>, blank: string -> bool)
    requires Readable(es, blank) && es != []
    ensures Readable(es[1..], blank) && FitsEntry(es[0]) && !blank(es[0].cmd) && !EndsWithCR(es[0].cmd)
    ensures EndsWithBackslash(es[0].cmd) ==> es[1..] == []
  {
    var rest := es[1..];
    forall i | 0 <= i < |rest|
      ensures IsBytes(rest[i].cmd) && FitsEntry(rest[i]) && !blank(rest[i].cmd) && !EndsWithCR(rest[i].cmd)
        && (EndsWithBackslash(rest[i].cmd) ==> i == |rest| - 1)
    {
      assert rest[i] == es[i + 1];
    }
  }

  lemma NoLines(meta: char -> bool)
    ensures LinesFrom(ZshText(meta, []), 0) == []
  {
  }

  lemma NoFile(blank: string -> bool)
    ensures Import("", blank) == []
  {
  }

  /** One entry's lines become one record, before whatever follows. */
  lemma EntryCollects(e: Entry, rest: seq<string>, blank: string -> bool)
    requires FitsEntry(e) && !blank(e.cmd) && !EndsWithCR(e.cmd) && (EndsWithBackslash(e.cmd) ==> rest == [])
    ensures Collect(Logical(CmdLines(EntryHead(e), e.cmd) + rest), blank) == [EntryImported(e)] + Collect(Logical(rest), blank)
  {
    hide EntryHead, Collect, Logical, ParseZshLine, CmdLines;
    HeadShape(e);
    var l := EntryHead(e) + e.cmd;
    JoinRecord(EntryHead(e), e.cmd, rest);
    assert DropCR(l) == l by {
      assert e.cmd == "" ==> l == EntryHead(e);
    }
    assert EndsWithBackslash(l) <==> EndsWithBackslash(e.cmd);
    LogicalCuts(l, rest);
    CollectStep(l, Logical(rest), blank);
    EntryParses(e);
  }
}
