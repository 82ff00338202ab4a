/** The shell lexer behind the risk rules: a left-to-right machine over the bytes of a
    command line. */
module ShellLex {
  import opened ByteText

  /** A word or an operator; `quoted` marks text that came from inside quotes. */
  datatype Tok = Tok(val: string, quoted: bool, op: bool)

  /** Marks a place where a substitution or subshell opens or closes. */
  const SUBST := "\0("

  /** The lexer's variables. */
  datatype LexState = LexState(out: seq<Tok>, cur: string, quoted: bool, has: bool, inDouble: bool, stack: seq<bool>)

  const START := LexState([], "", false, false, false, [])

  function Flush(st: LexState): LexState {
    if st.has then st.(out := st.out + [Tok(st.cur, st.quoted, false)], cur := "", quoted := false, has := false) else st
  }

  function Emit(st: LexState, v: string): LexState {
    var f := Flush(st);
    f.(out := f.out + [Tok(v, false, true)])
  }

  function Word(st: LexState, text: string, q: bool): LexState {
    st.(cur := st.cur + text, has := true, quoted := st.quoted || q)
  }

  predicate NextIs(s: string, i: nat, c: char) {
    i + 1 < |s| && s[i + 1] == c
  }

  /** One turn of the loop: the new variables and the next position. */
  function Step(s: string, i: nat, st: LexState): (r: (LexState, nat))
    requires i < |s|
    ensures i < r.1 <= |s|
  {
    var c := s[i];
    if c == '$' && NextIs(s, i, '(') then
      (Emit(st, SUBST).(stack := st.stack + [st.inDouble], inDouble := false), i + 2)
    else if c == '`' then (Emit(st, SUBST), i + 1)
    else if c == ')' && st.stack != [] then
      (Emit(st, SUBST).(inDouble := st.stack[|st.stack| - 1], stack := st.stack[..|st.stack| - 1]), i + 1)
    else if st.inDouble then
      (if c == '"' then st.(inDouble := false) else Word(st, [c], true), i + 1)
    else if c == '\\' && i + 1 < |s| then (Word(st, [s[i + 1]], false), i + 2)
    else if c == '"' then (st.(inDouble := true, has := true, quoted := true), i + 1)
    else if c == '\'' then
      var j := IndexFrom(s, i + 1, '\'');
      (Word(st, s[i + 1..j], true), if j == |s| then j else j + 1)
    else if c == ' ' || c == '\t' || c == '\n' || c == '\r' then (Flush(st), i + 1)
    else if c == '|' || c == '&' || c == ';' then
      if NextIs(s, i, c) then (Emit(st, [c, c]), i + 2) else (Emit(st, [c]), i + 1)
    else if c == '<' && NextIs(s, i, '(') then (Emit(st, SUBST).(stack := st.stack + [st.inDouble]), i + 2)
    else if c == '(' || c == ')' then (Emit(st, SUBST), i + 1)
    else if c == '>' then
      if NextIs(s, i, '>') then (Emit(st, ">>"), i + 2) else (Emit(st, ">"), i + 1)
    else if c == '<' then (Emit(st, "<"), i + 1)
    else (Word(st, [c], false), i + 1)
  }

  /** The whole loop from position i. */
  function Run(s: string, i: nat, st: LexState): LexState
    requires i <= |s|
    decreases |s| - i
  {
    if i == |s| then st
    else
      var (st', j) := Step(s, i, st);
      Run(s, j, st')
  }

  function Lex(s: string): seq<Tok> {
    Flush(Run(s, 0, START)).out
  }

  /** One turn of the scanning loop: what it does to its variables. */
  method LexTurn(s: string, i: nat, st: LexState) returns (st': LexState, next: nat)
    requires i < |s|
    ensures (st', next) == Step(s, i, st)
  {
    var out, cur, quoted, has, inDouble, stack := st.out, st.cur, st.quoted, st.has, st.inDouble, st.stack;
    var c := s[i];
    var emitted := "";
    if c == '$' && i + 1 < |s| && s[i + 1] == '(' {
      emitted := SUBST;
      stack := stack + [inDouble];
      inDouble := false;
      next := i + 2;
    } else if c == '`' {
      emitted := SUBST;
      next := i + 1;
    } else if c == ')' && |stack| > 0 {
      emitted := SUBST;
      inDouble := stack[|stack| - 1];
      stack := stack[..|stack| - 1];
      next := i + 1;
    } else if inDouble {
      if c == '"' {
        inDouble := false;
      } else {
        cur, has, quoted := cur + [c], true, true;
      }
      next := i + 1;
    } else if c == '\\' && i + 1 < |s| {
      cur, has := cur + [s[i + 1]], true;
      next := i + 2;
    } else if c == '"' {
      inDouble, has, quoted := true, true, true;
      next := i + 1;
    } else if c == '\'' {
      var j := IndexFrom(s, i + 1, '\'');
      cur := cur + s[i + 1..j];
      has, quoted := true, true;
      next := if j == |s| then |s| else j + 1;
    } else if c == ' ' || c == '\t' || c == '\n' || c == '\r' {
      if has {
        out, cur, quoted, has := out + [Tok(cur, quoted, false)], "", false, false;
      }
      next := i + 1;
    } else if c == '|' || c == '&' || c == ';' {
      emitted := if i + 1 < |s| && s[i + 1] == c then [c, c] else [c];
      next := i + |emitted|;
    } else if c == '<' && i + 1 < |s| && s[i + 1] == '(' {
      emitted := SUBST;
      stack := stack + [inDouble];
      next := i + 2;
    } else if c == '(' || c == ')' {
      emitted := SUBST;
      next := i + 1;
    } else if c == '>' {
      emitted := if i + 1 < |s| && s[i + 1] == '>' then ">>" else ">";
      next := i + |emitted|;
    } else if c == '<' {
      emitted := "<";
      next := i + 1;
    } else {
      cur, has := cur + [c], true;
      next := i + 1;
    }
    if emitted != "" {
      if has {
        out, cur, quoted, has := out + [Tok(cur, quoted, false)], "", false, false;
      }
      out := out + [Tok(emitted, false, true)];
    }
    st' := LexState(out, cur, quoted, has, inDouble, stack);
  }

  /** The lexer, one character at a time; it always ends. */
  method LexLoop(s: string) returns (out: seq<Tok>)
    ensures out == Lex(s)
  {
    hide Step;
    var st, i := START, 0;
    while i < |s|
      invariant 0 <= i <= |s|
      invariant Run(s, 0, START) == Run(s, i, st)
      decreases |s| - i
    {
      st, i := LexTurn(s, i, st);
    }
    out := Flush(st).out;
  }

  // ---- composition ----

  /** The line ends mid-way: an unescaped final backslash, or a quote that never closes. */
  predicate Dangles(s: string, i: nat, st: LexState)
    requires i < |s|
  {
    && !st.inDouble
    && ((s[i] == '\\' && i + 1 == |s|) || (s[i] == '\'' && IndexFrom(s, i + 1, '\'') == |s|))
  }

  predicate ClosedFrom(s: string, i: nat, st: LexState)
    requires i <= |s|
    decreases |s| - i
  {
    if i == |s| then !st.inDouble && st.stack == []
    else !Dangles(s, i, st) && var (st', j) := Step(s, i, st); ClosedFrom(s, j, st')
  }

  /** No quote, substitution or escape is open at the end of the line. */
  predicate Closed(s: string) {
    ClosedFrom(s, 0, START)
  }

  /** Nothing is pending unless a word has been started. */
  predicate Tidy(st: LexState) {
    !st.has ==> st.cur == "" && !st.quoted
  }

  lemma {:induction false} IndexFromExtends(a: string, t: string, i: nat, c: char)
    requires i <= |a| && IndexFrom(a, i, c) < |a|
    ensures IndexFrom(a + t, i, c) == IndexFrom(a, i, c)
    decreases |a| - i
  {
    if a[i] != c {
      IndexFromExtends(a, t, i + 1, c);
    }
  }

  /** What follows a blank or a closing parenthesis does not change how the bytes before it are
      read. */
  lemma StepLocal(a: string, t: string, i: nat, st: LexState)
    requires i < |a| && t != "" && (t[0] == ' ' || t[0] == ')') && !Dangles(a, i, st)
    ensures Step(a + t, i, st) == Step(a, i, st)
  {
    if a[i] == '\'' && IndexFrom(a, i + 1, '\'') < |a| {
      IndexFromExtends(a, t, i + 1, '\'');
      var j := IndexFrom(a, i + 1, '\'');
      assert (a + t)[i + 1..j] == a[i + 1..j];
    }
  }

  lemma {:induction false} RunPrefix(a: string, t: string, i: nat, st: LexState)
    requires i <= |a| && t != "" && t[0] == ' ' && ClosedFrom(a, i, st)
    ensures Run(a + t, i, st) == Run(a + t, |a|, Run(a, i, st))
    ensures !Run(a, i, st).inDouble && Run(a, i, st).stack == []
    decreases |a| - i
  {
    if i < |a| {
      StepLocal(a, t, i, st);
      var (st', j) := Step(a, i, st);
      RunPrefix(a, t, j, st');
    }
  }

  lemma StepShifts(a: string, t: string, i: nat, st: LexState)
    requires i < |t|
    ensures Step(a + t, |a| + i, st) == (Step(t, i, st).0, |a| + Step(t, i, st).1)
  {
    if t[i] == '\'' {
      IndexShifts(a, t, i + 1, '\'');
      var j := IndexFrom(t, i + 1, '\'');
      assert (a + t)[|a| + i + 1..|a| + j] == t[i + 1..j];
    }
  }

  lemma {:induction false} RunSuffix(a: string, t: string, i: nat, st: LexState)
    requires i <= |t|
    ensures Run(a + t, |a| + i, st) == Run(t, i, st)
    decreases |t| - i
  {
    if i < |t| {
      StepShifts(a, t, i, st);
      var (st', j) := Step(t, i, st);
      RunSuffix(a, t, j, st');
    }
  }

  lemma StepKeepsOut(s: string, i: nat, st: LexState, p: seq<Tok>)
    requires i < |s|
    ensures var (st', j) := Step(s, i, st);
      Step(s, i, st.(out := p + st.out)) == (st'.(out := p + st'.out), j)
  {
    FlushKeepsOut(st, p);
  }

  lemma FlushKeepsOut(st: LexState, p: seq<Tok>)
    ensures Flush(st.(out := p + st.out)) == Flush(st).(out := p + Flush(st).out)
    ensures forall v :: Emit(st.(out := p + st.out), v) == Emit(st, v).(out := p + Emit(st, v).out)
  {
    assert forall x: Tok :: p + (st.out + [x]) == (p + st.out) + [x];
    assert forall x: Tok, y: Tok :: p + (st.out + [x] + [y]) == ((p + st.out) + [x]) + [y];
  }

  /** The tokens already out never influence what comes next. */
  lemma {:induction false} RunKeepsOut(s: string, i: nat, st: LexState, p: seq<Tok>)
    requires i <= |s|
    ensures Run(s, i, st.(out := p + st.out)) == Run(s, i, st).(out := p + Run(s, i, st).out)
    decreases |s| - i
  {
    if i < |s| {
      StepKeepsOut(s, i, st, p);
      var (st', j) := Step(s, i, st);
      RunKeepsOut(s, j, st', p);
    }
  }

  lemma {:induction false} RunTidy(s: string, i: nat, st: LexState)
    requires i <= |s| && Tidy(st)
    ensures Tidy(Run(s, i, st))
    decreases |s| - i
  {
    if i < |s| {
      var (st', j) := Step(s, i, st);
      RunTidy(s, j, st');
    }
  }

  predicate IsListOp(op: string) {
    op == ";" || op == "&&" || op == "||" || op == "|" || op == "&" || op == ";;"
  }

  /** The separator between two commands of a list, from a tidy, closed state. */
  lemma RunSeparator(op: string, b: string, st: LexState)
    requires IsListOp(op) && Tidy(st) && !st.inDouble && st.stack == []
    ensures Run(" " + op + " " + b, 0, st)
         == Run(b, 0, START.(out := Flush(st).out + [Tok(op, false, true)]))
  {
    hide Step;
    var t, st1 := " " + op + " " + b, Flush(st);
    var st2 := Emit(st1, op);
    SeparatorSteps(op, b, st);
    var pre := " " + op + " ";
    assert t == pre + b && |pre| == 2 + |op|;
    RunSuffix(pre, b, 0, st2);
    assert Run(t, 1 + |op|, st2) == Run(t, 2 + |op|, st2);
    assert Run(t, 1, st1) == Run(t, 1 + |op|, st2);
  }

  /** Lexing a list is lexing its parts, with the operator between them. */
  lemma LexSplits(a: string, op: string, b: string)
    requires Closed(a) && IsListOp(op)
    ensures Lex(a + " " + op + " " + b) == Lex(a) + [Tok(op, false, true)] + Lex(b)
  {
    hide Step, Dangles;
    var t := " " + op + " " + b;
    assert a + " " + op + " " + b == a + t;
    RunPrefix(a, t, 0, START);
    var mid := Run(a, 0, START);
    RunTidy(a, 0, START);
    RunSuffix(a, t, 0, mid);
    RunSeparator(op, b, mid);
    var p := Lex(a) + [Tok(op, false, true)];
    assert p + [] == p;
    RunKeepsOut(b, 0, START, p);
    FlushKeepsOut(Run(b, 0, START), p);
  }

  lemma SeparatorSteps(op: string, b: string, st: LexState)
    requires IsListOp(op) && Tidy(st) && !st.inDouble && st.stack == []
    ensures var t, st1 := " " + op + " " + b, Flush(st);
      && Step(t, 0, st) == (st1, 1)
      && Step(t, 1, st1) == (Emit(st1, op), 1 + |op|)
      && Step(t, 1 + |op|, Emit(st1, op)) == (Emit(st1, op), 2 + |op|)
      && Emit(st1, op) == START.(out := Flush(st).out + [Tok(op, false, true)])
      && t[1] == op[0] && t[1 + |op|] == ' '
  {
    var t := " " + op + " " + b;
    assert t[1] == op[0] && t[1 + |op|] == ' ';
    assert |op| == 2 ==> t[2] == op[1] && op == [op[0], op[0]];
    assert |op| == 1 ==> op == [op[0]];
  }

  lemma ClosedSeparator(op: string, b: string, st: LexState)
    requires IsListOp(op) && Tidy(st) && !st.inDouble && st.stack == []
    ensures ClosedFrom(" " + op + " " + b, 0, st) <==> Closed(b)
  {
    hide Step, Dangles;
    var t, st1 := " " + op + " " + b, Flush(st);
    var st2 := Emit(st1, op);
    SeparatorSteps(op, b, st);
    var pre := " " + op + " ";
    assert t == pre + b && |pre| == 2 + |op|;
    ClosedSuffix(pre, b, 0, st2);
    ClosedKeepsOut(b, 0, START, st2.out);
    assert st2.out + START.out == st2.out;
    assert ClosedFrom(t, 2 + |op|, st2) == Closed(b);
    BlankNeverDangles(t, 1 + |op|, st2);
    BlankNeverDangles(t, 1, st1);
    BlankNeverDangles(t, 0, st);
    assert ClosedFrom(t, 1 + |op|, st2) == Closed(b);
    assert ClosedFrom(t, 1, st1) == Closed(b);
  }

  lemma BlankNeverDangles(s: string, i: nat, st: LexState)
    requires i < |s| && s[i] != '\\' && s[i] != '\''
    ensures !Dangles(s, i, st)
  {
  }

  /** After a closed command a list is closed exactly when what follows the operator is. */
  lemma ClosedSplits(a: string, op: string, b: string)
    requires Closed(a) && IsListOp(op)
    ensures Closed(a + " " + op + " " + b) <==> Closed(b)
  {
    hide Step, Dangles;
    var t := " " + op + " " + b;
    assert a + " " + op + " " + b == a + t;
    ClosedPrefix(a, t, 0, START);
    RunTidy(a, 0, START);
    RunPrefix(a, t, 0, START);
    var mid := Run(a, 0, START);
    ClosedSuffix(a, t, 0, mid);
    ClosedSeparator(op, b, mid);
  }

  lemma {:induction false} ClosedPrefix(a: string, t: string, i: nat, st: LexState)
    requires i <= |a| && t != "" && t[0] == ' ' && ClosedFrom(a, i, st)
    ensures ClosedFrom(a + t, i, st) <==> ClosedFrom(a + t, |a|, Run(a, i, st))
    decreases |a| - i
  {
    if i < |a| {
      StepLocal(a, t, i, st);
      if a[i] == '\'' && IndexFrom(a, i + 1, '\'') < |a| {
        IndexFromExtends(a, t, i + 1, '\'');
      }
      var (st', j) := Step(a, i, st);
      ClosedPrefix(a, t, j, st');
    }
  }

  lemma {:induction false} ClosedSuffix(a: string, t: string, i: nat, st: LexState)
    requires i <= |t|
    ensures ClosedFrom(a + t, |a| + i, st) == ClosedFrom(t, i, st)
    decreases |t| - i
  {
    if i < |t| {
      StepShifts(a, t, i, st);
      if t[i] == '\'' {
        IndexShifts(a, t, i + 1, '\'');
      }
      var (st', j) := Step(t, i, st);
      ClosedSuffix(a, t, j, st');
    }
  }

  lemma {:induction false} ClosedKeepsOut(s: string, i: nat, st: LexState, p: seq<Tok>)
    requires i <= |s|
    ensures ClosedFrom(s, i, st.(out := p + st.out)) == ClosedFrom(s, i, st)
    decreases |s| - i
  {
    if i < |s| {
      StepKeepsOut(s, i, st, p);
      var (st', j) := Step(s, i, st);
      ClosedKeepsOut(s, j, st', p);
    }
  }
}
