/** Exactly when an exported history comes back unchanged. */
module ZshRoundTrip {
  import opened Wrappers
  import opened ByteText
  import opened ZshHistory
  import opened ZshLines
  import opened ZshLengths

  // ---- when nothing is rewritten ----

  lemma {:induction false} UnmetafyPlain(s: string)
    requires IsBytes(s) && !InnerMeta(s)
    ensures Unmetafy(s) == s
  {
    if s != "" {
      var rest := s[1..];
      assert forall i :: 0 <= i < |rest| - 1 ==> rest[i] == s[i + 1];
      assert |s| > 1 && s[0] == META ==> InnerMeta(s);
      UnmetafyPlain(s[1..]);
      assert s == [s[0]] + s[1..];
    }
  }

  lemma {:induction false} UnmetafyAllPlain(ls: seq<string>)
    requires forall i :: 0 <= i < |ls| ==> IsBytes(ls[i]) && !InnerMeta(ls[i])
    ensures UnmetafyAll(ls) == ls
  {
    if ls != [] {
      UnmetafyPlain(ls[0]);
      UnmetafyAllPlain(ls[1..]);
      assert ls == [ls[0]] + ls[1..];
    }
  }

  /** A record without such a byte is written on lines without one. */
  lemma {:induction false} CmdLinesPlain(pre: string, cmd: string)
    requires NoMeta(pre) && !InnerMeta(cmd)
    ensures forall i :: 0 <= i < |CmdLines(pre, cmd)| ==> !InnerMeta(CmdLines(pre, cmd)[i])
    decreases |cmd|
  {
    var j := IndexFrom(cmd, 0, '\n');
    assert forall i :: 0 <= i < |cmd| - 1 ==> cmd[i] != META;
    if j < |cmd| {
      var tail := cmd[j + 1..];
      assert !InnerMeta(tail) by {
        assert forall i :: 0 <= i < |tail| - 1 ==> tail[i] == cmd[j + 1 + i];
      }
      CmdLinesPlain("", tail);
      assert !InnerMeta(pre + cmd[..j] + "\\");
    } else {
      assert !InnerMeta(pre + cmd) && !InnerMeta(DropCR(pre + cmd));
    }
  }

  lemma {:induction false} FileLinesPlain(rows: seq<Row>)
    requires NoneRewritten(rows)
    ensures forall i :: 0 <= i < |FileLines(rows)| ==> !InnerMeta(FileLines(rows)[i])
  {
    hide FileLines, CmdLines, InnerMeta, Prefix;
    if rows == [] {
      EmptyFile();
    } else {
      assert !InnerMeta(rows[0].cmd);
      assert forall i :: 0 <= i < |rows[1..]| ==> rows[1..][i] == rows[i + 1];
      FileLinesSplit(rows);
      PrefixShape(rows[0].startMs);
      CmdLinesPlain(Prefix(rows[0].startMs), rows[0].cmd);
      FileLinesPlain(rows[1..]);
    }
  }

  lemma ImportPlain(rows: seq<Row>, blank: string -> bool)
    requires ByteRows(rows) && NoneRewritten(rows)
    ensures IsBytes(ExportText(rows))
    ensures Import(ExportText(rows), blank) == Collect(Logical(FileLines(rows)), blank)
  {
    hide ExportText, LinesFrom, Logical, Collect, InnerMeta;
    ExportBytes(rows);
    LinesAreBytes(ExportText(rows), 0);
    FileLinesPlain(rows);
    UnmetafyAllPlain(FileLines(rows));
  }

  // ---- the theorem ----

  /** Not blank, not ending in a carriage return, not ending in a backslash unless it is the
      last row, and not dated a full second or more before the epoch. */
  predicate Survives(rows: seq<Row>, blank: string -> bool) {
    forall i :: 0 <= i < |rows| ==>
      && !blank(rows[i].cmd) && !EndsWithCR(rows[i].cmd) && rows[i].startMs > -1000
      && (EndsWithBackslash(rows[i].cmd) ==> i == |rows| - 1)
  }

  lemma {:induction false} CollectCount(ls: seq<string>, blank: string -> bool)
    ensures |Collect(ls, blank)| <= |ls|
  {
    if ls != [] {
      CollectCount(ls[1..], blank);
    }
  }

  lemma {:induction false} FileCount(rows: seq<Row>, blank: string -> bool)
    ensures |Collect(Logical(FileLines(rows)), blank)| <= |rows| && |Expected(rows)| == |rows|
  {
    hide Logical, FileLines, Collect;
    ExpectedCount(rows);
    CollectCount(Logical(FileLines(rows)), blank);
    if rows == [] {
      EmptyFile();
      assert Logical([]) == [] by { LogicalEmpty(); }
    } else {
      FileLogical(rows);
      LogicalCount(FullLine(rows[0]), rows[1..]);
    }
  }

  lemma LogicalEmpty()
    ensures Logical([]) == []
  {
  }

  lemma {:induction false} ExpectedCount(rows: seq<Row>)
    ensures |Expected(rows)| == |rows|
  {
    if rows != [] {
      ExpectedCount(rows[1..]);
    }
  }

  /** What one record's own line is parsed as. */
  lemma FullLineParses(r: Row)
    requires -INT64_MAX - 1 <= r.startMs <= INT64_MAX
    ensures r.startMs > -1000 ==> ParseZshLine(FullLine(r)) == Imported(TruncDiv(r.startMs, 1000) * 1000, Some(0), DropCR(r.cmd))
    ensures r.startMs <= -1000 ==> ParseZshLine(FullLine(r)).durMs == None
    ensures EndsWithBackslash(FullLine(r)) <==> EndsWithBackslash(DropCR(r.cmd))
  {
    hide ParseZshLine;
    var secs := TruncDiv(r.startMs, 1000);
    PrefixShape(r.startMs);
    if secs >= 0 {
      ParseOwnLine(secs, DropCR(r.cmd));
    } else {
      ParseNegative(secs, DropCR(r.cmd));
    }
  }

  lemma SurvivesSplits(rows: seq<Row>, blank: string -> bool)
    requires rows != []
    ensures Survives(rows, blank) <==>
      && Survives(rows[1..], blank)
      && !blank(rows[0].cmd) && !EndsWithCR(rows[0].cmd) && rows[0].startMs > -1000
      && (EndsWithBackslash(rows[0].cmd) ==> rows[1..] == [])
  {
    var rest := rows[1..];
    assert forall i :: 0 < i < |rows| ==> rows[i] == rest[i - 1];
    if Survives(rows, blank) {
      forall i | 0 <= i < |rest|
        ensures !blank(rest[i].cmd) && !EndsWithCR(rest[i].cmd) && rest[i].startMs > -1000
          && (EndsWithBackslash(rest[i].cmd) ==> i == |rest| - 1)
      {
        assert rest[i] == rows[i + 1];
      }
    }
  }

  /** With nothing rewritten, importing an exported history returns it unchanged if and only
      if every row survives. */
  lemma {:induction false} PlainRoundTrip(rows: seq<Row>, blank: string -> bool)
    requires ByteRows(rows) && NoneRewritten(rows) && Int64Times(rows)
    ensures IsBytes(ExportText(rows))
    ensures Import(ExportText(rows), blank) == Expected(rows) <==> Survives(rows, blank)
  {
    hide Import, Survives, InnerMeta, Logical, Collect, FullLine, FileLines, TruncDiv;
    ImportPlain(rows, blank);
    if rows == [] {
      EmptyCase(blank);
    } else {
      var rest, r := rows[1..], rows[0];
      assert forall i :: 0 <= i < |rest| ==> rest[i] == rows[i + 1];
      ImportPlain(rest, blank);
      PlainRoundTrip(rest, blank);
      SurvivesSplits(rows, blank);
      FileLogical(rows);
      FullLineParses(r);
      FileCount(rows, blank);
      FileCount(rest, blank);
      var full := FullLine(r);
      if EndsWithBackslash(full) && rest != [] {
        LogicalCount(full, rest);
        CollectCount(Logical([full] + FileLines(rest)), blank);
      } else {
        if rest == [] {
          EmptyFile();
        }
        LogicalCuts(full, FileLines(rest));
        CollectStep(full, Logical(FileLines(rest)), blank);
        HeadOfImport(rows, blank);
      }
    }
  }

  /** Importing an exported history returns it unchanged if and only if every row survives and
      no command has a 0x83 with a byte after it. */
  lemma ImportUndoesExport(rows: seq<Row>, blank: string -> bool)
    requires ByteRows(rows) && Int64Times(rows)
    ensures IsBytes(ExportText(rows))
    ensures Import(ExportText(rows), blank) == Expected(rows) <==> Survives(rows, blank) && NoneRewritten(rows)
  {
    hide Import, Survives, InnerMeta;
    ExportBytes(rows);
    if NoneRewritten(rows) {
      PlainRoundTrip(rows, blank);
    } else {
      RewrittenIsShorter(rows, blank);
    }
  }

  lemma EmptyCase(blank: string -> bool)
    ensures Collect(Logical(FileLines([])), blank) == [] && Survives([], blank)
  {
  }

  lemma HeadOfImport(rows: seq<Row>, blank: string -> bool)
    requires rows != []
    ensures Expected(rows)[0] == Imported(TruncDiv(rows[0].startMs, 1000) * 1000, Some(0), rows[0].cmd)
    ensures Expected(rows)[1..] == Expected(rows[1..])
  {
  }

  /** With a 0x83 byte the law fails: this one-byte-escaped command comes back changed. */
  lemma MetaByteIsRewritten(blank: string -> bool)
    requires !blank("a")
    ensures var rows := [Row(0, [META, 'A'])];
      IsBytes(ExportText(rows)) && Import(ExportText(rows), blank) == [Imported(0, Some(0), "a")] != Expected(rows)
  {
    var rows := [Row(0, [META, 'A'])];
    assert rows[1..] == [];
    PrefixShape(0);
    var p := Prefix(0);
    var cmd := [META, 'A'];
    assert EscapeNewlines(cmd) == cmd by {
      assert cmd[1..] == ['A'] && ['A'][1..] == "";
      assert EscapeNewlines("") == "";
    }
    var text := p + cmd + "\n";
    assert ExportText(rows) == text;
    assert text == (p + cmd) + "\n" + "";
    FirstLine(p + cmd, "");
    assert DropCR(p + cmd) == p + cmd;
    assert LinesFrom(text, 0) == [p + cmd];
    UnmetafyAfter(p, cmd);
    assert cmd[2..] == "" && FlipShift('A') == 'a';
    assert Unmetafy(cmd) == "a";
    assert UnmetafyAll([p + cmd]) == [p + "a"] by {
      assert [p + cmd][1..] == [];
    }
    LogicalCuts(p + "a", []);
    ParseOwnLine(0, "a");
    CollectStep(p + "a", [], blank);
    assert Expected(rows)[0].cmd == cmd && |cmd| == 2;
    assert [Imported(0, Some(0), "a")][0].cmd == "a";
  }

  lemma {:induction false} UnmetafyAfter(p: string, s: string)
    requires IsBytes(p) && NoMeta(p) && IsBytes(s)
    ensures Unmetafy(p + s) == p + Unmetafy(s)
  {
    if p == "" {
      assert p + s == s;
    } else {
      UnmetafyAfter(p[1..], s);
      assert (p + s)[1..] == p[1..] + s;
    }
  }
}
