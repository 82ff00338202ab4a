/** Exporting history in zsh's extended format and importing it back. Strings are byte
    sequences, one char per byte. */
module ZshHistory {
  import opened Wrappers
  import opened ByteText

  const META: char := 0x83 as char
  const INT64_MAX := 0x7FFF_FFFF_FFFF_FFFF

  /** A history row as exported. */
  datatype Row = Row(startMs: int, cmd: string)

  /** A record as imported; its other fields are constants or derived from these. */
  datatype Imported = Imported(startMs: int, durMs: Option<int>, cmd: string)

  // ---- numbers ----

  function Digit(d: nat): char
    requires d < 10
  {
    ('0' as int + d) as char
  }

  predicate IsDigit(c: char) {
    '0' <= c <= '9'
  }

  /** strconv.FormatInt, base 10. */
  function FormatNat(n: nat): (s: string)
    ensures s != "" && forall i :: 0 <= i < |s| ==> IsDigit(s[i])
  {
    (if n < 10 then "" else FormatNat(n / 10)) + [Digit(n % 10)]
  }

  function FormatInt(n: int): string {
    if n < 0 then "-" + FormatNat(-n) else FormatNat(n)
  }

  /** The value of a digit string. */
  function ParseNat(s: string): nat
    requires forall i :: 0 <= i < |s| ==> IsDigit(s[i])
  {
    if s == "" then 0 else 10 * ParseNat(s[..|s| - 1]) + DigitValue(s[|s| - 1])
  }

  function DigitValue(c: char): nat
    requires IsDigit(c)
  {
    c as int - '0' as int
  }

  lemma {:induction false} ParseFormat(n: nat)
    ensures ParseNat(FormatNat(n)) == n
  {
    var s := FormatNat(n);
    if n >= 10 {
      ParseFormat(n / 10);
      assert s[..|s| - 1] == FormatNat(n / 10);
    } else {
      assert s[..|s| - 1] == "";
    }
  }

  /** Integer division that truncates towards zero. */
  function TruncDiv(a: int, b: int): int
    requires b > 0
  {
    if a >= 0 then a / b else -((-a) / b)
  }

  /** int64 arithmetic wraps. */
  function Wrap64(x: int): int {
    (x + INT64_MAX + 1) % (2 * (INT64_MAX + 1)) - (INT64_MAX + 1)
  }

  // ---- export ----

  /** Each embedded newline becomes backslash-newline. */
  function EscapeNewlines(cmd: string): string {
    if cmd == "" then ""
    else (if cmd[0] == '\n' then "\\\n" else [cmd[0]]) + EscapeNewlines(cmd[1..])
  }

  function Prefix(startMs: int): string {
    ": " + FormatInt(TruncDiv(startMs, 1000)) + ":0;"
  }

  function ShellHistoryLine(startMs: int, cmd: string): string {
    Prefix(startMs) + EscapeNewlines(cmd)
  }

  /** One line per row, oldest first. */
  function ExportText(rows: seq<Row>): string {
    if rows == [] then "" else ShellHistoryLine(rows[0].startMs, rows[0].cmd) + "\n" + ExportText(rows[1..])
  }

  function Reversed(rows: seq<Row>): seq<Row> {
    if rows == [] then [] else Reversed(rows[1..]) + [rows[0]]
  }

  /** The last row answered is the first one written. */
  lemma {:induction false} ReversedAt(rows: seq<Row>, i: nat)
    requires i < |rows|
    ensures |Reversed(rows)| == |rows| && Reversed(rows)[i] == rows[|rows| - 1 - i]
  {
    if |rows| > 1 {
      ReversedAt(rows[1..], if i < |rows| - 1 then i else 0);
    }
  }

  lemma {:induction false} ExportAppend(rows: seq<Row>, r: Row)
    ensures ExportText(rows + [r]) == ExportText(rows) + ShellHistoryLine(r.startMs, r.cmd) + "\n"
  {
    hide ShellHistoryLine;
    if rows == [] {
      assert rows + [r] == [r] && [r][1..] == [];
    } else {
      ExportAppend(rows[1..], r);
      assert (rows + [r])[1..] == rows[1..] + [r];
    }
  }

  /** The daemon answers newest first; the file is written oldest first. */
  method RunExport(rows: seq<Row>) returns (text: string)
    ensures text == ExportText(Reversed(rows))
  {
    hide ShellHistoryLine;
    text := "";
    var i := |rows|;
    assert rows[|rows|..] == [];
    while i > 0
      invariant 0 <= i <= |rows| && text == ExportText(Reversed(rows[i..]))
    {
      i := i - 1;
      assert rows[i..][1..] == rows[i + 1..];
      ExportAppend(Reversed(rows[i + 1..]), rows[i]);
      text := text + ShellHistoryLine(rows[i].startMs, rows[i].cmd) + "\n";
    }
    assert rows[0..] == rows;
  }

  // ---- import ----

  function DropCR(b: string): string {
    if b != "" && b[|b| - 1] == '\r' then b[..|b| - 1] else b
  }

  /** Lines end at newlines; a final newline starts no line of its own. */
  function LinesFrom(b: string, start: nat): seq<string>
    requires start <= |b|
    decreases |b| - start
  {
    if start == |b| then []
    else
      var j := IndexFrom(b, start, '\n');
      [DropCR(b[start..j])] + if j < |b| then LinesFrom(b, j + 1) else []
  }

  lemma LinesStep(b: string, start: nat)
    requires start < |b|
    ensures var j := IndexFrom(b, start, '\n');
      LinesFrom(b, start) == [DropCR(b[start..j])] + if j < |b| then LinesFrom(b, j + 1) else []
  {
  }

  lemma LinesEnd(b: string)
    ensures LinesFrom(b, |b|) == []
  {
  }

  method PhysicalLines(b: string) returns (lines: seq<string>)
    ensures lines == LinesFrom(b, 0)
  {
    hide LinesFrom, DropCR;
    lines := [];
    var start := 0;
    for i := 0 to |b|
      invariant 0 <= start <= i
      invariant forall k :: start <= k < i ==> b[k] != '\n'
      invariant LinesFrom(b, 0) == lines + LinesFrom(b, start)
    {
      if b[i] == '\n' {
        assert IndexFrom(b, start, '\n') == i;
        LinesStep(b, start);
        lines := lines + [DropCR(b[start..i])];
        start := i + 1;
      }
    }
    if start < |b| {
      assert IndexFrom(b, start, '\n') == |b|;
      LinesStep(b, start);
      assert b[start..|b|] == b[start..];
      lines := lines + [DropCR(b[start..])];
    } else {
      LinesEnd(b);
    }
  }

  function FlipShift(c: char): char
    requires c as int < 256
  {
    if (c as int / 32) % 2 == 0 then (c as int + 32) as char else (c as int - 32) as char
  }

  predicate IsBytes(s: string) {
    forall i :: 0 <= i < |s| ==> s[i] as int < 256
  }

  /** Every pair (0x83, X) stands for X with bit 5 flipped; a final lone 0x83 stands for itself. */
  function Unmetafy(b: string): string
    requires IsBytes(b)
  {
    if b == "" then ""
    else if b[0] == META && |b| > 1 then [FlipShift(b[1])] + Unmetafy(b[2..])
    else [b[0]] + Unmetafy(b[1..])
  }

  method UnmetafyLoop(b: string) returns (out: string)
    requires IsBytes(b)
    ensures out == Unmetafy(b)
  {
    hide FlipShift, Unmetafy;
    out := "";
    var i := 0;
    assert b[0..] == b;
    while i < |b|
      invariant 0 <= i <= |b| && Unmetafy(b) == out + Unmetafy(b[i..])
    {
      UnmetafyAt(b, i);
      if b[i] == META && i + 1 < |b| {
        out := out + [FlipShift(b[i + 1])];
        i := i + 2;
      } else {
        out := out + [b[i]];
        i := i + 1;
      }
    }
    UnmetafyEnd(b);
  }

  lemma UnmetafyEnd(b: string)
    requires IsBytes(b)
    ensures b[|b|..] == "" && Unmetafy(b[|b|..]) == ""
  {
  }

  lemma UnmetafyAt(b: string, i: nat)
    requires IsBytes(b) && i < |b|
    ensures b[i] == META && i + 1 < |b| ==> Unmetafy(b[i..]) == [FlipShift(b[i + 1])] + Unmetafy(b[i + 2..])
    ensures !(b[i] == META && i + 1 < |b|) ==> Unmetafy(b[i..]) == [b[i]] + Unmetafy(b[i + 1..])
    ensures i + 1 == |b| ==> b[i + 1..] == "" && Unmetafy(b[i + 1..]) == ""
    ensures i + 2 == |b| ==> b[i + 2..] == "" && Unmetafy(b[i + 2..]) == ""
  {
    var rest := b[i..];
    assert rest[0] == b[i] && rest[1..] == b[i + 1..];
    if i + 1 < |b| {
      assert rest[1] == b[i + 1] && rest[2..] == b[i + 2..];
    }
  }

  predicate EndsWithBackslash(s: string) {
    s != "" && s[|s| - 1] == '\\'
  }

  /** Lines ending in a backslash continue on the next one, if there is a next one. */
  function Logical(lines: seq<string>): seq<string>
    decreases |lines|
  {
    if lines == [] then []
    else if EndsWithBackslash(lines[0]) && |lines| > 1
    then Logical([lines[0][..|lines[0]| - 1] + "\n" + lines[1]] + lines[2..])
    else [lines[0]] + Logical(lines[1..])
  }

  function SkipSpaces(s: string, i: nat): (j: nat)
    requires i <= |s|
    ensures i <= j <= |s|
    decreases |s| - i
  {
    if i < |s| && s[i] == ' ' then SkipSpaces(s, i + 1) else i
  }

  function SkipDigits(s: string, i: nat): (j: nat)
    requires i <= |s|
    ensures i <= j <= |s| && (forall k :: i <= k < j ==> IsDigit(s[k])) && (j < |s| ==> !IsDigit(s[j]))
    decreases |s| - i
  {
    if i < |s| && IsDigit(s[i]) then SkipDigits(s, i + 1) else i
  }

  /** strconv.ParseInt on line[i..j], all digits. */
  function Number(line: string, i: nat, j: nat): int
    requires i <= j <= |line| && forall k :: i <= k < j ==> IsDigit(line[k])
  {
    ParseNat(line[i..j])
  }

  predicate InInt64(x: int) {
    -INT64_MAX - 1 <= x <= INT64_MAX
  }

  predicate At(s: string, i: nat, c: char) {
    i < |s| && s[i] == c
  }

  /** The strict ": <digits>:<[-]digits>;" prefix: start, elapsed and where the command begins. */
  function ParseExtended(line: string): (r: Option<(int, int, nat)>)
    ensures r.Some? ==> r.value.2 <= |line|
  {
    if !At(line, 0, ':') || !At(line, 1, ' ') then None
    else
      var i := SkipSpaces(line, 1);
      var j := SkipDigits(line, i);
      if j == i || !At(line, j, ':') then None
      else
        var e := if At(line, j + 1, '-') then j + 2 else j + 1;
        var d := SkipDigits(line, e);
        if d == e || !At(line, d, ';') then None
        else
          var start, size := Number(line, i, j), Number(line, e, d);
          var elapsed := if e == j + 2 then 0 - size else size;
          if InInt64(start) && InInt64(elapsed) then Some((start, elapsed, d + 1)) else None
  }

  method ParseExtendedLoop(line: string) returns (r: Option<(int, int, nat)>)
    ensures r == ParseExtended(line)
  {
    hide InInt64, ParseNat, Number;
    if line == "" || line[0] != ':' { return None; }
    var i := 1;
    if i >= |line| || line[i] != ' ' { return None; }
    while i < |line| && line[i] == ' '
      invariant 1 <= i <= |line| && SkipSpaces(line, 1) == SkipSpaces(line, i)
    {
      i := i + 1;
    }
    var j := i;
    while j < |line| && IsDigit(line[j])
      invariant i <= j <= |line| && SkipDigits(line, i) == SkipDigits(line, j)
    {
      j := j + 1;
    }
    if j == i || j >= |line| || line[j] != ':' { return None; }
    var start := Number(line, i, j);
    j := j + 1;
    var e := j;
    if e < |line| && line[e] == '-' {
      e := e + 1;
    }
    var d := e;
    while d < |line| && IsDigit(line[d])
      invariant e <= d <= |line| && SkipDigits(line, e) == SkipDigits(line, d)
    {
      d := d + 1;
    }
    if d == e || d >= |line| || line[d] != ';' { return None; }
    var elapsed := Number(line, e, d);
    if e != j {
      elapsed := 0 - elapsed;
    }
    if !InInt64(start) || !InInt64(elapsed) { return None; }
    return Some((start, elapsed, d + 1));
  }

  /** Extended lines carry seconds; anything else is a plain command without a time. */
  function ParseZshLine(line: string): Imported {
    match ParseExtended(line)
    case None => Imported(0, None, line)
    case Some((start, elapsed, at)) =>
      Imported(Wrap64(start * 1000), if elapsed >= 0 then Some(Wrap64(elapsed * 1000)) else None, line[at..])
  }

  /** What becomes of each logical line; blank commands are dropped. */
  function Collect(logical: seq<string>, blank: string -> bool): seq<Imported> {
    if logical == [] then []
    else
      var r := ParseZshLine(logical[0]);
      (if blank(r.cmd) then [] else [r]) + Collect(logical[1..], blank)
  }

  function UnmetafyAll(lines: seq<string>): (r: seq<string>)
    requires forall i :: 0 <= i < |lines| ==> IsBytes(lines[i])
    ensures |r| == |lines|
  {
    if lines == [] then [] else [Unmetafy(lines[0])] + UnmetafyAll(lines[1..])
  }

  lemma {:induction false} LinesAreBytes(b: string, start: nat)
    requires IsBytes(b) && start <= |b|
    ensures forall i :: 0 <= i < |LinesFrom(b, start)| ==> IsBytes(LinesFrom(b, start)[i])
    decreases |b| - start
  {
    if start < |b| {
      var j := IndexFrom(b, start, '\n');
      if j < |b| {
        LinesAreBytes(b, j + 1);
      }
    }
  }

  /** The import: `blank` is strings.TrimSpace(cmd) == "". */
  function Import(text: string, blank: string -> bool): seq<Imported>
    requires IsBytes(text)
  {
    LinesAreBytes(text, 0);
    Collect(Logical(UnmetafyAll(LinesFrom(text, 0))), blank)
  }

  /** The import, line by line. */
  method ImportLoop(raw: string, blank: string -> bool) returns (out: seq<Imported>)
    requires IsBytes(raw)
    ensures out == Import(raw, blank)
  {
    LinesAreBytes(raw, 0);
    var phys := PhysicalLines(raw);
    var lines: seq<string> := [];
    assert phys[0..] == phys;
    for k := 0 to |phys|
      invariant lines + UnmetafyAll(phys[k..]) == UnmetafyAll(phys)
    {
      assert phys[k..][1..] == phys[k + 1..];
      var l := UnmetafyLoop(phys[k]);
      lines := lines + [l];
    }
    assert phys[|phys|..] == [] && lines == UnmetafyAll(phys);
    out := CollectLoop(lines, blank);
  }

  method CollectLoop(lines: seq<string>, blank: string -> bool) returns (out: seq<Imported>)
    ensures out == Collect(Logical(lines), blank)
  {
    hide ParseExtended, ParseZshLine, Wrap64, Logical, Collect;
    out := [];
    var i := 0;
    assert lines[0..] == lines;
    while i < |lines|
      invariant 0 <= i <= |lines|
      invariant out + Collect(Logical(lines[i..]), blank) == Collect(Logical(lines), blank)
    {
      ghost var want := Logical(lines[i..]);
      var logical := lines[i];
      assert lines[i..] == [logical] + lines[i + 1..];
      i := i + 1;
      while EndsWithBackslash(logical) && i < |lines|
        invariant 0 < i <= |lines| && Logical([logical] + lines[i..]) == want
        decreases |lines| - i
      {
        LogicalJoins(logical, lines[i], lines[i + 1..]);
        assert lines[i..] == [lines[i]] + lines[i + 1..];
        logical := logical[..|logical| - 1] + "\n" + lines[i];
        i := i + 1;
      }
      LogicalCuts(logical, lines[i..]);
      CollectStep(logical, Logical(lines[i..]), blank);
      var r := ParseLineLoop(logical);
      if !blank(r.cmd) {
        out := out + [r];
      }
    }
    assert lines[|lines|..] == [];
    CollectNothing(blank);
  }

  method ParseLineLoop(line: string) returns (r: Imported)
    ensures r == ParseZshLine(line)
  {
    var x := ParseExtendedLoop(line);
    if x.None? { return Imported(0, None, line); }
    var (start, elapsed, at) := x.value;
    return Imported(Wrap64(start * 1000), if elapsed >= 0 then Some(Wrap64(elapsed * 1000)) else None, line[at..]);
  }

  lemma CollectStep(a: string, rest: seq<string>, blank: string -> bool)
    ensures var r := ParseZshLine(a);
      Collect([a] + rest, blank) == (if blank(r.cmd) then [] else [r]) + Collect(rest, blank)
  {
    assert ([a] + rest)[1..] == rest;
  }

  lemma CollectNothing(blank: string -> bool)
    ensures Collect(Logical([]), blank) == []
  {
  }

  lemma LogicalJoins(a: string, b: string, rest: seq<string>)
    requires EndsWithBackslash(a)
    ensures Logical([a] + ([b] + rest)) == Logical([a[..|a| - 1] + "\n" + b] + rest)
  {
    var l := [a] + ([b] + rest);
    assert l[1] == b && l[2..] == rest;
  }

  lemma LogicalCuts(a: string, rest: seq<string>)
    requires !EndsWithBackslash(a) || rest == []
    ensures Logical([a] + rest) == [a] + Logical(rest)
  {
    assert ([a] + rest)[1..] == rest;
  }
}
