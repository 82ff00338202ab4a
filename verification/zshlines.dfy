/** The lines of an exported history, as the import reads them back. */
module ZshLines {
  import opened Wrappers
  import opened ByteText
  import opened ZshHistory

  predicate NoMeta(s: string) {
    forall i :: 0 <= i < |s| ==> s[i] != META
  }

  predicate NoNewline(s: string) {
    forall i :: 0 <= i < |s| ==> s[i] != '\n'
  }

  predicate EndsWithCR(s: string) {
    s != "" && s[|s| - 1] == '\r'
  }

  // ---- numbers and the prefix ----

  lemma {:induction false} SkipDigitsOver(s: string, i: nat, j: nat)
    requires i <= j < |s| && (forall k :: i <= k < j ==> IsDigit(s[k])) && !IsDigit(s[j])
    ensures SkipDigits(s, i) == j
    decreases j - i
  {
    if i < j {
      SkipDigitsOver(s, i + 1, j);
    }
  }

  /** Where the fields of an exported line are. */
  lemma OwnFields(ds: string, cmd: string)
    requires ds != "" && forall i :: 0 <= i < |ds| ==> IsDigit(ds[i])
    ensures var line, j := ": " + ds + ":0;" + cmd, 2 + |ds|;
      && At(line, 0, ':') && At(line, 1, ' ') && SkipSpaces(line, 1) == 2
      && SkipDigits(line, 2) == j && At(line, j, ':') && At(line, j + 1, '0') && SkipDigits(line, j + 1) == j + 2
      && At(line, j + 2, ';') && line[2..j] == ds && line[j + 1..j + 2] == "0" && line[j + 3..] == cmd
  {
    var line, j := ": " + ds + ":0;" + cmd, 2 + |ds|;
    assert forall k :: 2 <= k < j ==> line[k] == ds[k - 2];
    assert line[j] == ':' && line[j + 1] == '0' && line[j + 2] == ';';
    assert SkipSpaces(line, 1) == SkipSpaces(line, 2) == 2;
    SkipDigitsOver(line, 2, j);
    SkipDigitsOver(line, j + 1, j + 2);
  }

  /** An extended line gives back its second and its command, with duration zero. */
  lemma ParseOwnLine(secs: nat, cmd: string)
    requires secs * 1000 <= INT64_MAX
    ensures ParseZshLine(": " + FormatInt(secs) + ":0;" + cmd) == Imported(secs * 1000, Some(0), cmd)
  {
    hide SkipSpaces, SkipDigits, FormatNat, ParseNat;
    var ds := FormatNat(secs);
    OwnFields(ds, cmd);
    ParseFormat(secs);
    ParseZero();
    var line, j := ": " + ds + ":0;" + cmd, 2 + |ds|;
    assert Number(line, 2, j) == secs && Number(line, j + 1, j + 2) == 0;
    assert ParseExtended(line) == Some((secs, 0, j + 3));
  }

  lemma ParseZero()
    ensures ParseNat("0") == 0
  {
    assert "0"[..0] == "";
  }

  /** A negative second is not recognised: the whole line becomes the command. */
  lemma ParseNegative(secs: int, cmd: string)
    requires secs < 0
    ensures var line := ": " + FormatInt(secs) + ":0;" + cmd; ParseZshLine(line) == Imported(0, None, line)
  {
    var line := ": " + FormatInt(secs) + ":0;" + cmd;
    assert line[1] == ' ' && line[2] == '-';
    assert SkipSpaces(line, 1) == SkipSpaces(line, 2) == 2;
  }

  // ---- physical lines ----

  lemma SliceShift(s: string, n: nat, i: nat, j: nat)
    requires n <= |s| && i <= j <= |s| - n
    ensures s[n..][i..j] == s[n + i..n + j]
  {
  }

  lemma IndexInTail(s: string, n: nat, i: nat, c: char)
    requires n <= |s| && i <= |s| - n
    ensures IndexFrom(s, n + i, c) == n + IndexFrom(s[n..], i, c)
  {
    assert s == s[..n] + s[n..];
    IndexShifts(s[..n], s[n..], i, c);
  }

  /** Reading on from position n + i is reading the tail from i. */
  lemma {:induction false} LinesShift(s: string, n: nat, i: nat)
    requires n <= |s| && i <= |s| - n
    ensures LinesFrom(s, n + i) == LinesFrom(s[n..], i)
    decreases |s| - i
  {
    hide DropCR, IndexFrom, LinesFrom;
    if n + i == |s| {
      LinesEnd(s);
      LinesEnd(s[n..]);
    } else {
      IndexInTail(s, n, i, '\n');
      var j := IndexFrom(s[n..], i, '\n');
      LinesStep(s, n + i);
      LinesStep(s[n..], i);
      SliceShift(s, n, i, j);
      if n + j < |s| {
        LinesShift(s, n, j + 1);
      }
    }
  }

  lemma FirstLine(x: string, y: string)
    requires NoNewline(x)
    ensures LinesFrom(x + "\n" + y, 0) == [DropCR(x)] + LinesFrom(y, 0)
  {
    var s := x + "\n" + y;
    assert s[|x|] == '\n';
    assert IndexFrom(s, 0, '\n') == |x|;
    assert s[0..|x|] == x;
    LinesShift(s, |x| + 1, 0);
    assert s[|x| + 1..] == y;
  }

  /** The physical lines of one exported record: all but the last end in a backslash. */
  function CmdLines(pre: string, cmd: string): (ls: seq<string>)
    ensures ls != []
    decreases |cmd|
  {
    var j := IndexFrom(cmd, 0, '\n');
    if j == |cmd| then [DropCR(pre + cmd)] else [pre + cmd[..j] + "\\"] + CmdLines("", cmd[j + 1..])
  }

  lemma {:induction false} EscapeSplits(cmd: string)
    ensures var j := IndexFrom(cmd, 0, '\n');
      EscapeNewlines(cmd) == if j == |cmd| then cmd else cmd[..j] + "\\\n" + EscapeNewlines(cmd[j + 1..])
  {
    if cmd != "" {
      var tail := cmd[1..];
      if cmd[0] != '\n' {
        EscapeSplits(tail);
        assert [cmd[0]] + tail == cmd;
        IndexShifts([cmd[0]], tail, 0, '\n');
        var j := IndexFrom(tail, 0, '\n');
        if j < |tail| {
          assert cmd[..j + 1] == [cmd[0]] + tail[..j];
          assert cmd[j + 2..] == tail[j + 1..];
        }
      }
    }
  }

  lemma {:induction false} LinesOfRecord(pre: string, cmd: string, y: string)
    requires NoNewline(pre)
    ensures LinesFrom(pre + EscapeNewlines(cmd) + "\n" + y, 0) == CmdLines(pre, cmd) + LinesFrom(y, 0)
    decreases |cmd|
  {
    hide EscapeNewlines, LinesFrom, DropCR, IndexFrom;
    EscapeSplits(cmd);
    var j := IndexFrom(cmd, 0, '\n');
    NoNewlineBefore(pre, cmd);
    if j == |cmd| {
      assert cmd[..j] == cmd;
      FirstLine(pre + cmd, y);
    } else {
      var tail := cmd[j + 1..];
      var x, z := pre + cmd[..j] + "\\", EscapeNewlines(tail) + "\n" + y;
      FirstLine(x, z);
      assert pre + EscapeNewlines(cmd) + "\n" + y == x + "\n" + z;
      LinesOfRecord("", tail, y);
      assert "" + EscapeNewlines(tail) == EscapeNewlines(tail);
      assert CmdLines(pre, cmd) + LinesFrom(y, 0) == [x] + (CmdLines("", tail) + LinesFrom(y, 0));
      KeepsBackslash(x);
    }
  }

  lemma NoNewlineBefore(pre: string, cmd: string)
    requires NoNewline(pre)
    ensures NoNewline(pre + cmd[..IndexFrom(cmd, 0, '\n')])
  {
  }

  lemma KeepsBackslash(x: string)
    requires EndsWithBackslash(x)
    ensures DropCR(x) == x
  {
  }

  // ---- logical lines ----

  lemma DropCRAfter(q: string, p: string)
    requires q == "" || p != "" || q[|q| - 1] != '\r'
    ensures DropCR(q + p) == q + DropCR(p)
  {
  }

  lemma CmdLinesPrefix(q: string, pre: string, cmd: string)
    requires q == "" || pre + cmd != "" || q[|q| - 1] != '\r'
    ensures CmdLines(q + pre, cmd) == [q + CmdLines(pre, cmd)[0]] + CmdLines(pre, cmd)[1..]
  {
    var j := IndexFrom(cmd, 0, '\n');
    if j == |cmd| {
      DropCRAfter(q, pre + cmd);
      assert (q + pre) + cmd == q + (pre + cmd);
    } else {
      assert (q + pre) + cmd[..j] + "\\" == q + (pre + cmd[..j] + "\\");
    }
  }

  /** Reading a record's lines back joins them into its one logical line. */
  lemma {:induction false} JoinRecord(p: string, cmd: string, rest: seq<string>)
    requires p != "" && p[|p| - 1] != '\r'
    ensures Logical(CmdLines(p, cmd) + rest) == Logical([DropCR(p + cmd)] + rest)
    decreases |cmd|
  {
    hide Logical, DropCR, IndexFrom;
    var j := IndexFrom(cmd, 0, '\n');
    if j < |cmd| {
      var tail := cmd[j + 1..];
      var a := p + cmd[..j];
      JoinOnce(a, tail, rest);
      JoinRecord(a + "\n", tail, rest);
      NewlineAt(cmd, j);
      assert a + "\n" + tail == p + cmd;
    }
  }

  lemma NewlineAt(cmd: string, j: nat)
    requires j == IndexFrom(cmd, 0, '\n') < |cmd|
    ensures cmd == cmd[..j] + "\n" + cmd[j + 1..]
  {
  }

  /** The first escaped newline of a record is undone. */
  lemma JoinOnce(a: string, tail: string, rest: seq<string>)
    ensures Logical(([a + "\\"] + CmdLines("", tail)) + rest) == Logical(CmdLines(a + "\n", tail) + rest)
  {
    hide Logical, CmdLines, DropCR;
    var ls := CmdLines("", tail);
    assert ls == [ls[0]] + ls[1..];
    LogicalJoins(a + "\\", ls[0], ls[1..] + rest);
    assert ([a + "\\"] + ls) + rest == [a + "\\"] + ([ls[0]] + (ls[1..] + rest));
    assert (a + "\\")[..|a + "\\"| - 1] == a;
    CmdLinesPrefix(a + "\n", "", tail);
    assert (a + "\n") + "" == a + "\n";
    assert [a + "\n" + ls[0]] + (ls[1..] + rest) == ([a + "\n" + ls[0]] + ls[1..]) + rest;
  }

  // ---- whole files ----

  ghost function FileLines(rows: seq<Row>): seq<string> {
    LinesFrom(ExportText(rows), 0)
  }

  lemma PrefixShape(startMs: int)
    ensures var p := Prefix(startMs); p != "" && p[|p| - 1] == ';' && NoNewline(p) && NoMeta(p) && IsBytes(p)
  {
    var secs := TruncDiv(startMs, 1000);
    var f := FormatInt(secs);
    assert forall i :: 0 <= i < |f| ==> IsDigit(f[i]) || f[i] == '-';
  }

  lemma FileLinesSplit(rows: seq<Row>)
    requires rows != []
    ensures FileLines(rows) == CmdLines(Prefix(rows[0].startMs), rows[0].cmd) + FileLines(rows[1..])
  {
    hide Prefix, LinesFrom;
    var r := rows[0];
    PrefixShape(r.startMs);
    LinesOfRecord(Prefix(r.startMs), r.cmd, ExportText(rows[1..]));
    assert ExportText(rows) == Prefix(r.startMs) + EscapeNewlines(r.cmd) + "\n" + ExportText(rows[1..]);
  }

  /** The one logical line a record reads back as. */
  ghost function FullLine(r: Row): string {
    Prefix(r.startMs) + DropCR(r.cmd)
  }

  lemma FileLogical(rows: seq<Row>)
    requires rows != []
    ensures Logical(FileLines(rows)) == Logical([FullLine(rows[0])] + FileLines(rows[1..]))
  {
    hide Prefix, FileLines;
    var r := rows[0];
    FileLinesSplit(rows);
    PrefixShape(r.startMs);
    JoinRecord(Prefix(r.startMs), r.cmd, FileLines(rows[1..]));
    DropCRAfter(Prefix(r.startMs), r.cmd);
  }

  /** There are never more logical lines than records, and a line that continues into the
      next record makes them strictly fewer. */
  lemma {:induction false} LogicalCount(x: string, rows: seq<Row>)
    ensures |Logical([x] + FileLines(rows))| <= 1 + |rows|
    ensures EndsWithBackslash(x) && rows != [] ==> |Logical([x] + FileLines(rows))| <= |rows|
    decreases |rows|
  {
    hide Prefix, FileLines;
    if rows == [] {
      assert FileLines(rows) == [] by { EmptyFile(); }
      LogicalCuts(x, []);
    } else if EndsWithBackslash(x) {
      var r := rows[0];
      var ls := CmdLines(Prefix(r.startMs), r.cmd);
      FileLinesSplit(rows);
      PrefixShape(r.startMs);
      var q := x[..|x| - 1] + "\n";
      assert ls == [ls[0]] + ls[1..];
      assert FileLines(rows) == [ls[0]] + (ls[1..] + FileLines(rows[1..]));
      LogicalJoins(x, ls[0], ls[1..] + FileLines(rows[1..]));
      CmdLinesPrefix(q, Prefix(r.startMs), r.cmd);
      assert [q + ls[0]] + (ls[1..] + FileLines(rows[1..])) == CmdLines(q + Prefix(r.startMs), r.cmd) + FileLines(rows[1..]);
      JoinRecord(q + Prefix(r.startMs), r.cmd, FileLines(rows[1..]));
      LogicalCount(DropCR(q + Prefix(r.startMs) + r.cmd), rows[1..]);
    } else {
      LogicalCuts(x, FileLines(rows));
      FileLogical(rows);
      LogicalCount(FullLine(rows[0]), rows[1..]);
    }
  }

  lemma EmptyFile()
    ensures FileLines([]) == []
  {
  }
}
