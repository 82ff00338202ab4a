/** Counting bytes: an import never puts back more than was exported, and a rewritten byte is
    missing for good. */
module ZshLengths {
  import opened Wrappers
  import opened ByteText
  import opened ZshHistory
  import opened ZshLines

  predicate ByteRows(rows: seq<Row>) {
    forall i :: 0 <= i < |rows| ==> IsBytes(rows[i].cmd)
  }

  /** There is a 0x83 with a byte after it. */
  predicate InnerMeta(s: string) {
    exists i :: 0 <= i < |s| - 1 && s[i] == META
  }

  predicate NoneRewritten(rows: seq<Row>) {
    forall i :: 0 <= i < |rows| ==> !InnerMeta(rows[i].cmd)
  }

  predicate Int64Times(rows: seq<Row>) {
    forall i :: 0 <= i < |rows| ==> -INT64_MAX - 1 <= rows[i].startMs <= INT64_MAX
  }

  /** The same commands in the same order, times cut to the second, duration zero. */
  function Expected(rows: seq<Row>): seq<Imported> {
    if rows == [] then []
    else [Imported(TruncDiv(rows[0].startMs, 1000) * 1000, Some(0), rows[0].cmd)] + Expected(rows[1..])
  }

  lemma {:induction false} EscapeBytes(cmd: string)
    requires IsBytes(cmd)
    ensures IsBytes(EscapeNewlines(cmd))
  {
    if cmd != "" {
      EscapeBytes(cmd[1..]);
    }
  }

  lemma {:induction false} ExportBytes(rows: seq<Row>)
    requires ByteRows(rows)
    ensures IsBytes(ExportText(rows))
  {
    hide Prefix, EscapeNewlines;
    if rows != [] {
      PrefixShape(rows[0].startMs);
      EscapeBytes(rows[0].cmd);
      assert forall i :: 0 <= i < |rows[1..]| ==> rows[1..][i] == rows[i + 1];
      ExportBytes(rows[1..]);
    }
  }

  // ---- totals ----

  function Total(ls: seq<string>): nat {
    if ls == [] then 0 else |ls[0]| + Total(ls[1..])
  }

  lemma {:induction false} TotalConcat(a: seq<string>, b: seq<string>)
    ensures Total(a + b) == Total(a) + Total(b)
  {
    if a == [] {
      assert a + b == b;
    } else {
      assert (a + b)[1..] == a[1..] + b;
      TotalConcat(a[1..], b);
    }
  }

  /** Joining a continued line trades its backslash for a newline. */
  lemma {:induction false} LogicalTotal(ls: seq<string>)
    ensures Total(Logical(ls)) == Total(ls)
    decreases |ls|
  {
    if ls != [] {
      if EndsWithBackslash(ls[0]) && |ls| > 1 {
        var joined := [ls[0][..|ls[0]| - 1] + "\n" + ls[1]] + ls[2..];
        assert joined[1..] == ls[2..] && ls[1..][1..] == ls[2..];
        LogicalTotal(joined);
      } else {
        assert ([ls[0]] + Logical(ls[1..]))[1..] == Logical(ls[1..]);
        LogicalTotal(ls[1..]);
      }
    }
  }

  /** What the rows take up in the file, their newlines apart. */
  function Weight(rows: seq<Row>): nat {
    if rows == [] then 0 else |Prefix(rows[0].startMs)| + |rows[0].cmd| + Weight(rows[1..])
  }

  // ---- no line is shorter than the row it gives back ----

  function Pow10(k: nat): nat {
    if k == 0 then 1 else 10 * Pow10(k - 1)
  }

  lemma {:induction false} ValueBelow(ds: string)
    requires forall i :: 0 <= i < |ds| ==> IsDigit(ds[i])
    ensures ParseNat(ds) < Pow10(|ds|)
  {
    if ds != "" {
      ValueBelow(ds[..|ds| - 1]);
    }
  }

  lemma {:induction false} FormatLength(n: nat, k: nat)
    requires n < Pow10(k) && k > 0
    ensures |FormatNat(n)| <= k
    decreases k
  {
    if n >= 10 {
      assert k > 1 by {
        assert Pow10(1) == 10 * Pow10(0);
      }
      FormatLength(n / 10, k - 1);
    }
  }

  lemma {:induction false} Pow10Grows(a: nat, b: nat)
    requires a <= b
    ensures Pow10(a) <= Pow10(b)
  {
    if a < b {
      Pow10Grows(a, b - 1);
    }
  }

  const TWO_61 := 0x2000_0000_0000_0000

  /** Seconds that wrap to the same milliseconds differ by a multiple of 2^61. */
  lemma WrapApart(start: int, secs: int) returns (w: int)
    requires Wrap64(start * 1000) == secs * 1000
    ensures start - secs == w * TWO_61
  {
    var y := start * 1000 + INT64_MAX + 1;
    var k := y / (2 * (INT64_MAX + 1));
    var x := start - secs;
    assert 125 * x == k * TWO_61;
    // 125 * u + 2^61 * v == 1
    var u, v := 2066035336255469781, -112;
    assert x == TWO_61 * (u * k + v * x);
    w := u * k + v * x;
  }

  /** The seconds a line was read with are written no shorter than the row's own. */
  lemma SecondsLength(ds: string, secs: int)
    requires ds != "" && (forall i :: 0 <= i < |ds| ==> IsDigit(ds[i])) && InInt64(ParseNat(ds))
    requires Wrap64(ParseNat(ds) * 1000) == secs * 1000 && -INT64_MAX - 1 <= secs * 1000 <= INT64_MAX
    ensures |FormatInt(secs)| <= |ds|
  {
    hide Wrap64, FormatNat, ParseNat;
    var start := ParseNat(ds);
    var w := WrapApart(start, secs);
    ValueBelow(ds);
    if secs >= 0 {
      assert w >= 0;
      FormatLength(secs, |ds|);
    } else {
      assert w >= 1;
      Powers();
      if |ds| < 19 {
        Pow10Grows(|ds|, 18);
        assert false;
      }
      FormatLength(-secs, 16);
    }
  }

  lemma Powers()
    ensures Pow10(16) == 10000000000000000 && Pow10(18) == 1000000000000000000
  {
    assert Pow10(2) == 100;
    assert Pow10(4) == 10000;
    assert Pow10(6) == 1000000;
    assert Pow10(8) == 100000000;
    assert Pow10(10) == 10000000000;
    assert Pow10(12) == 1000000000000;
    assert Pow10(14) == 100000000000000;
  }

  /** A line that gives back a row is at least as long as the row's own prefix and command. */
  lemma ParsedLength(line: string, r: Row)
    requires -INT64_MAX - 1 <= r.startMs <= INT64_MAX
    requires ParseZshLine(line) == Imported(TruncDiv(r.startMs, 1000) * 1000, Some(0), r.cmd)
    ensures |line| >= |Prefix(r.startMs)| + |r.cmd|
  {
    hide Wrap64, FormatNat, FormatInt, ParseNat, SkipSpaces, SkipDigits, TruncDiv;
    var secs := TruncDiv(r.startMs, 1000);
    TruncWithin(r.startMs);
    var i := SkipSpaces(line, 1);
    PastSpace(line);
    var j := SkipDigits(line, i);
    SecondsLength(line[i..j], secs);
  }

  lemma PastSpace(line: string)
    requires At(line, 1, ' ')
    ensures SkipSpaces(line, 1) >= 2
  {
  }

  lemma TruncWithin(ms: int)
    requires -INT64_MAX - 1 <= ms <= INT64_MAX
    ensures -INT64_MAX - 1 <= TruncDiv(ms, 1000) * 1000 <= INT64_MAX
  {
  }

  /** What is collected takes up no more than the lines it was collected from. */
  lemma {:induction false} CollectTotal(ls: seq<string>, rows: seq<Row>, blank: string -> bool)
    requires Int64Times(rows) && Collect(ls, blank) == Expected(rows)
    ensures Total(ls) >= Weight(rows)
    decreases |ls|
  {
    hide ParseZshLine, Prefix, TruncDiv;
    if ls == [] {
      assert rows == [];
    } else {
      var r := ParseZshLine(ls[0]);
      if blank(r.cmd) {
        CollectTotal(ls[1..], rows, blank);
      } else {
        assert rows != [];
        assert Collect(ls, blank)[0] == r && Collect(ls, blank)[1..] == Collect(ls[1..], blank);
        assert Expected(rows)[1..] == Expected(rows[1..]);
        assert forall i :: 0 <= i < |rows[1..]| ==> rows[1..][i] == rows[i + 1];
        ParsedLength(ls[0], rows[0]);
        CollectTotal(ls[1..], rows[1..], blank);
      }
    }
  }

  // ---- rewriting shortens ----

  lemma {:induction false} UnmetafyShrinks(s: string)
    requires IsBytes(s)
    ensures |Unmetafy(s)| <= |s| && (InnerMeta(s) ==> |Unmetafy(s)| < |s|)
    decreases |s|
  {
    if s != "" {
      if s[0] == META && |s| > 1 {
        UnmetafyShrinks(s[2..]);
      } else {
        UnmetafyShrinks(s[1..]);
        if i :| 0 <= i < |s| - 1 && s[i] == META {
          assert s[1..][i - 1] == META;
        }
      }
    }
  }

  lemma {:induction false} UnmetafyConcat(a: seq<string>, b: seq<string>)
    requires (forall i :: 0 <= i < |a| ==> IsBytes(a[i])) && forall i :: 0 <= i < |b| ==> IsBytes(b[i])
    ensures (forall i :: 0 <= i < |a + b| ==> IsBytes((a + b)[i])) && UnmetafyAll(a + b) == UnmetafyAll(a) + UnmetafyAll(b)
  {
    if a == [] {
      assert a + b == b;
    } else {
      assert (a + b)[1..] == a[1..] + b;
      UnmetafyConcat(a[1..], b);
    }
  }

  /** One record's lines, rewritten: never longer than the record, and shorter when it has a
      0x83 with a byte after it, be that byte a dropped carriage return. */
  lemma {:induction false} RecordShrinks(pre: string, cmd: string)
    requires IsBytes(pre) && IsBytes(cmd)
    ensures forall i :: 0 <= i < |CmdLines(pre, cmd)| ==> IsBytes(CmdLines(pre, cmd)[i])
    ensures var total := Total(UnmetafyAll(CmdLines(pre, cmd)));
      total <= |pre| + |cmd| && (InnerMeta(cmd) ==> total < |pre| + |cmd|)
    decreases |cmd|
  {
    hide Unmetafy;
    var j := IndexFrom(cmd, 0, '\n');
    if j == |cmd| {
      var line := DropCR(pre + cmd);
      LastLineShrinks(pre, cmd);
      UnmetafyFirst(line, []);
      assert [line] + [] == [line];
    } else {
      var line, tail := pre + cmd[..j] + "\\", cmd[j + 1..];
      RecordShrinks("", tail);
      UnmetafyShrinks(line);
      UnmetafyFirst(line, CmdLines("", tail));
      if i :| 0 <= i < |cmd| - 1 && cmd[i] == META {
        MetaStays(pre, cmd, i, j);
      }
    }
  }

  lemma UnmetafyFirst(line: string, rest: seq<string>)
    requires IsBytes(line) && forall i :: 0 <= i < |rest| ==> IsBytes(rest[i])
    ensures var ls := [line] + rest;
      && (forall i :: 0 <= i < |ls| ==> IsBytes(ls[i]))
      && Total(UnmetafyAll(ls)) == |Unmetafy(line)| + Total(UnmetafyAll(rest))
  {
    hide Unmetafy, IsBytes;
    var ls := [line] + rest;
    assert ls[1..] == rest;
    assert ([Unmetafy(line)] + UnmetafyAll(rest))[1..] == UnmetafyAll(rest);
  }

  lemma LastLineShrinks(pre: string, cmd: string)
    requires IsBytes(pre) && IsBytes(cmd)
    ensures var line := DropCR(pre + cmd);
      && IsBytes(line) && |Unmetafy(line)| <= |pre| + |cmd| && (InnerMeta(cmd) ==> |Unmetafy(line)| < |pre| + |cmd|)
  {
    var all := pre + cmd;
    UnmetafyShrinks(DropCR(all));
    if InnerMeta(cmd) && DropCR(all) == all {
      var i :| 0 <= i < |cmd| - 1 && cmd[i] == META;
      assert all[|pre| + i] == META;
    }
  }

  /** The byte is in the line that ends at the newline, before its backslash, or after it. */
  lemma MetaStays(pre: string, cmd: string, i: nat, j: nat)
    requires i < |cmd| - 1 && cmd[i] == META && j < |cmd| && cmd[j] == '\n'
    ensures InnerMeta(pre + cmd[..j] + "\\") || InnerMeta(cmd[j + 1..])
  {
    if i < j {
      assert (pre + cmd[..j] + "\\")[|pre| + i] == META;
    } else {
      assert cmd[j + 1..][i - j - 1] == META;
    }
  }

  lemma {:induction false} FileShrinks(rows: seq<Row>)
    requires ByteRows(rows)
    ensures forall i :: 0 <= i < |FileLines(rows)| ==> IsBytes(FileLines(rows)[i])
    ensures Total(UnmetafyAll(FileLines(rows))) <= Weight(rows)
    ensures !NoneRewritten(rows) ==> Total(UnmetafyAll(FileLines(rows))) < Weight(rows)
  {
    hide FileLines, CmdLines, InnerMeta, Prefix, Unmetafy, IsBytes;
    if rows == [] {
      EmptyFile();
    } else {
      var r, rest := rows[0], rows[1..];
      assert forall i :: 0 <= i < |rest| ==> rest[i] == rows[i + 1];
      FileLinesSplit(rows);
      PrefixShape(r.startMs);
      RecordShrinks(Prefix(r.startMs), r.cmd);
      FileShrinks(rest);
      UnmetafyConcat(CmdLines(Prefix(r.startMs), r.cmd), FileLines(rest));
      TotalConcat(UnmetafyAll(CmdLines(Prefix(r.startMs), r.cmd)), UnmetafyAll(FileLines(rest)));
      if !NoneRewritten(rows) {
        var i :| 0 <= i < |rows| && InnerMeta(rows[i].cmd);
        assert i > 0 ==> InnerMeta(rest[i - 1].cmd);
      }
    }
  }

  /** A rewritten byte is never made up for, whatever else the import makes of the file. */
  lemma RewrittenIsShorter(rows: seq<Row>, blank: string -> bool)
    requires ByteRows(rows) && Int64Times(rows) && !NoneRewritten(rows)
    ensures IsBytes(ExportText(rows)) && Import(ExportText(rows), blank) != Expected(rows)
  {
    hide ExportText, LinesFrom, Logical, Collect, InnerMeta, Expected, Weight;
    ExportBytes(rows);
    LinesAreBytes(ExportText(rows), 0);
    FileShrinks(rows);
    var lines := UnmetafyAll(FileLines(rows));
    LogicalTotal(lines);
    if Import(ExportText(rows), blank) == Expected(rows) {
      CollectTotal(Logical(lines), rows, blank);
    }
  }
}
