/** What a command line spells: every way of writing a word, every operator, and what a
    substitution runs, against the tokens the lexer must give. */
module ShellSpell {
  import opened ByteText
  import opened ShellLex

  // ---- spelling ----

  /** The ways to write part of a word. */
  datatype Piece = Bare(c: char) | Escaped(c: char) | Single(text: string) | Double(text: string)

  /** Bytes that mean something outside quotes. */
  predicate IsSpecial(c: char) {
    || c == '\\' || c == '"' || c == '\'' || c == '`' || c == ' ' || c == '\t' || c == '\n' || c == '\r'
    || c == '|' || c == '&' || c == ';' || c == '<' || c == '>' || c == '(' || c == ')'
  }

  /** Text that can stand between double quotes. */
  predicate IsPlain(text: string) {
    forall i :: 0 <= i < |text| ==> text[i] != '"' && text[i] != '`' && !(text[i] == '$' && NextIs(text, i, '('))
  }

  predicate IsPiece(p: Piece) {
    match p
    case Bare(c) => !IsSpecial(c)
    case Escaped(_) => true
    case Single(text) => forall i :: 0 <= i < |text| ==> text[i] != '\''
    case Double(text) => IsPlain(text)
  }

  function Spell(p: Piece): string {
    match p
    case Bare(c) => [c]
    case Escaped(c) => ['\\', c]
    case Single(text) => "'" + text + "'"
    case Double(text) => "\"" + text + "\""
  }

  function Value(p: Piece): string {
    match p
    case Bare(c) => [c]
    case Escaped(c) => [c]
    case Single(text) => text
    case Double(text) => text
  }

  predicate InQuotes(p: Piece) {
    p.Single? || p.Double?
  }

  function SpellWord(ps: seq<Piece>): string {
    if ps == [] then "" else Spell(ps[0]) + SpellWord(ps[1..])
  }

  function WordValue(ps: seq<Piece>): string {
    if ps == [] then "" else Value(ps[0]) + WordValue(ps[1..])
  }

  predicate AnyInQuotes(ps: seq<Piece>) {
    exists i :: 0 <= i < |ps| && InQuotes(ps[i])
  }

  /** A word or an operator of a line; a parenthesis or a backquote begins another command. */
  datatype Item = Word(pieces: seq<Piece>) | Oper(op: string)

  predicate IsOper(op: string) {
    || op == "|" || op == "||" || op == "&" || op == "&&" || op == ";" || op == ";;"
    || op == ">" || op == ">>" || op == "<" || op == "(" || op == ")" || op == "`"
  }

  predicate IsItem(x: Item) {
    match x
    case Word(ps) => ps != [] && forall p <- ps :: IsPiece(p)
    case Oper(op) => IsOper(op)
  }

  function SpellItem(x: Item): string {
    match x
    case Word(ps) => SpellWord(ps)
    case Oper(op) => op
  }

  function Token(x: Item): Tok {
    match x
    case Word(ps) => Tok(WordValue(ps), AnyInQuotes(ps), false)
    case Oper(op) => Tok(if op == "(" || op == ")" || op == "`" then SUBST else op, false, true)
  }

  predicate IsGap(g: string) {
    forall i :: 0 <= i < |g| ==> g[i] == ' ' || g[i] == '\t' || g[i] == '\n' || g[i] == '\r'
  }

  /** Two items may touch when one is a word and the other an operator; a bare dollar must not
      touch a parenthesis. */
  predicate MayTouch(x: Item, y: Item) {
    || (x.Oper? && y.Word?)
    || (x.Word? && y.Oper? && !(y.op == "(" && x.pieces != [] && x.pieces[|x.pieces| - 1] == Bare('$')))
  }

  /** A line: each item after its gap, then a last gap. */
  datatype Line = Line(gaps: seq<string>, items: seq<Item>, end: string)

  predicate IsLine(l: Line) {
    && |l.gaps| == |l.items| && IsGap(l.end)
    && (forall k :: 0 <= k < |l.items| ==> IsGap(l.gaps[k]) && IsItem(l.items[k]))
    && (forall k :: 0 < k < |l.items| && l.gaps[k] == "" ==> MayTouch(l.items[k - 1], l.items[k]))
  }

  function SpellLine(l: Line): string
    requires |l.gaps| == |l.items|
    decreases |l.items|
  {
    if l.items == [] then l.end
    else l.gaps[0] + (SpellItem(l.items[0]) + SpellLine(Line(l.gaps[1..], l.items[1..], l.end)))
  }

  function Tokens(items: seq<Item>): seq<Tok> {
    if items == [] then [] else [Token(items[0])] + Tokens(items[1..])
  }

  // ---- one piece at a time ----

  /** The state after reading text that belongs to a word. */
  function Grown(st: LexState, text: string, q: bool): LexState {
    st.(cur := st.cur + text, has := true, quoted := st.quoted || q)
  }

  lemma RunStep(s: string, i: nat, st: LexState)
    requires i < |s|
    ensures Run(s, i, st) == Run(s, Step(s, i, st).1, Step(s, i, st).0)
  {
  }

  lemma RunRest(a: string, t: string, st: LexState)
    ensures Run(a + t, |a|, st) == Run(t, 0, st)
  {
    RunSuffix(a, t, 0, st);
  }

  /** The state after text between double quotes. */
  function Typed(st: LexState, text: string): LexState {
    if text == "" then st else Grown(st, text, true)
  }

  /** Text between double quotes, whatever it is followed by. */
  lemma {:induction false} RunText(text: string, t: string, st: LexState)
    requires st.inDouble && st.stack == [] && IsPlain(text) && (t == "" || t[0] != '(')
    ensures Run(text + t, 0, st) == Run(t, 0, Typed(st, text))
    decreases |text|
  {
    if text == "" {
      assert text + t == t;
    } else {
      var s, rest := text + t, text[1..] + t;
      TypedStep(text, t, st);
      hide Step, Run, IsPlain, Typed;
      RunStep(s, 0, st);
      assert s == [text[0]] + rest;
      RunRest([text[0]], rest, Typed(st, [text[0]]));
      PlainRest(text);
      RunText(text[1..], t, Typed(st, [text[0]]));
      TypedTwice(st, text);
    }
  }

  lemma TypedTwice(st: LexState, text: string)
    requires text != ""
    ensures Typed(Typed(st, [text[0]]), text[1..]) == Typed(st, text)
    ensures Typed(st, [text[0]]).inDouble == st.inDouble && Typed(st, [text[0]]).stack == st.stack
  {
    assert text == [text[0]] + text[1..];
    assert (st.cur + [text[0]]) + text[1..] == st.cur + text;
  }

  lemma PlainRest(text: string)
    requires IsPlain(text) && text != ""
    ensures IsPlain(text[1..])
  {
    assert forall i :: 0 <= i < |text| - 1 ==> text[1..][i] == text[i + 1];
  }

  lemma TypedStep(text: string, t: string, st: LexState)
    requires st.inDouble && st.stack == [] && IsPlain(text) && (t == "" || t[0] != '(') && text != ""
    ensures Step(text + t, 0, st) == (Typed(st, [text[0]]), 1)
  {
    var s := text + t;
    assert s[0] == text[0];
    assert NextIs(s, 0, '(') ==> NextIs(text, 0, '(') by {
      assert |text| == 1 && t != "" ==> s[1] == t[0];
      assert |text| > 1 ==> s[1] == text[1];
    }
  }

  /** Inside double quotes, up to the closing one. */
  lemma RunDouble(text: string, t: string, st: LexState)
    requires st.inDouble && IsPlain(text) && st.stack == [] && st.has && st.quoted
    ensures Run(text + ("\"" + t), 0, st) == Run(t, 0, st.(cur := st.cur + text, inDouble := false))
  {
    var st' := Typed(st, text);
    RunText(text, "\"" + t, st);
    assert st.cur + "" == st.cur;
    CloseQuote(t, st');
    hide Step;
    RunStep("\"" + t, 0, st');
    RunRest("\"", t, st'.(inDouble := false));
  }

  lemma CloseQuote(t: string, st: LexState)
    requires st.inDouble && st.stack == []
    ensures Step("\"" + t, 0, st) == (st.(inDouble := false), 1)
  {
    assert ("\"" + t)[0] == '"';
  }

  lemma {:induction false} IndexPast(text: string, t: string, c: char)
    requires forall i :: 0 <= i < |text| ==> text[i] != c
    ensures IndexFrom(text + ([c] + t), 0, c) == |text|
    decreases |text|
  {
    var s := text + ([c] + t);
    if text == "" {
      assert s == [c] + t;
    } else {
      IndexPast(text[1..], t, c);
      assert s == [text[0]] + (text[1..] + ([c] + t));
      IndexShifts([text[0]], text[1..] + ([c] + t), 0, c);
    }
  }

  lemma RunSingle(text: string, t: string, st: LexState)
    requires !st.inDouble && forall i :: 0 <= i < |text| ==> text[i] != '\''
    ensures Run("'" + text + "'" + t, 0, st) == Run(t, 0, Grown(st, text, true))
  {
    var s := "'" + text + "'" + t;
    var rest := text + (['\''] + t);
    assert s == "'" + rest;
    IndexPast(text, t, '\'');
    IndexShifts("'", rest, 0, '\'');
    assert s[1..1 + |text|] == text;
    RunStep(s, 0, st);
    assert Step(s, 0, st) == (Grown(st, text, true), 2 + |text|);
    assert s == ("'" + text + "'") + t && |"'" + text + "'"| == 2 + |text|;
    RunRest("'" + text + "'", t, Grown(st, text, true));
  }

  /** One piece of a word, whatever follows. */
  lemma RunPiece(p: Piece, t: string, st: LexState)
    requires IsPiece(p) && !st.inDouble && st.stack == [] && !(p == Bare('$') && t != "" && t[0] == '(')
    ensures Run(Spell(p) + t, 0, st) == Run(t, 0, Grown(st, Value(p), InQuotes(p)))
  {
    match p
    case Bare(c) => RunBare(c, t, st);
    case Escaped(c) => RunEscaped(c, t, st);
    case Single(text) => RunSingle(text, t, st);
    case Double(text) => RunQuoted(text, t, st);
  }

  lemma RunBare(c: char, t: string, st: LexState)
    requires !IsSpecial(c) && !st.inDouble && st.stack == [] && !(c == '$' && t != "" && t[0] == '(')
    ensures Run([c] + t, 0, st) == Run(t, 0, Grown(st, [c], false))
  {
    var s := [c] + t;
    assert s[0] == c && (t != "" ==> s[1] == t[0]);
    assert Step(s, 0, st) == (Grown(st, [c], false), 1);
    hide Step;
    RunStep(s, 0, st);
    RunRest([c], t, Grown(st, [c], false));
  }

  lemma EscapeStep(s: string, st: LexState)
    requires |s| >= 2 && s[0] == '\\' && !st.inDouble && st.stack == []
    ensures Step(s, 0, st) == (Grown(st, [s[1]], false), 2)
  {
    hide IndexFrom, Emit, Flush;
  }

  lemma RunEscaped(c: char, t: string, st: LexState)
    requires !st.inDouble && st.stack == []
    ensures Run(['\\', c] + t, 0, st) == Run(t, 0, Grown(st, [c], false))
  {
    var s := ['\\', c] + t;
    EscapeStep(s, st);
    hide Step;
    RunStep(s, 0, st);
    RunRest(['\\', c], t, Grown(st, [c], false));
  }

  lemma RunQuoted(text: string, t: string, st: LexState)
    requires IsPlain(text) && !st.inDouble && st.stack == []
    ensures Run("\"" + text + "\"" + t, 0, st) == Run(t, 0, Grown(st, text, true))
  {
    var rest := text + ("\"" + t);
    var s := "\"" + rest;
    assert "\"" + text + "\"" + t == s && s[0] == '"';
    var within := st.(inDouble := true, has := true, quoted := true);
    assert Step(s, 0, st) == (within, 1);
    hide Step, IsPlain;
    RunStep(s, 0, st);
    RunRest("\"", rest, within);
    RunDouble(text, t, within);
  }

  lemma GrownTwice(st: LexState, a: string, q: bool, b: string, r: bool)
    ensures Grown(Grown(st, a, q), b, r) == Grown(st, a + b, q || r)
  {
    assert (st.cur + a) + b == st.cur + (a + b);
  }

  lemma SpellCons(ps: seq<Piece>, t: string)
    requires ps != []
    ensures SpellWord(ps) + t == Spell(ps[0]) + (SpellWord(ps[1..]) + t)
    ensures WordValue(ps) == Value(ps[0]) + WordValue(ps[1..])
    ensures SpellWord([]) + t == t && WordValue([]) == ""
  {
    hide Spell;
    Associate(Spell(ps[0]), SpellWord(ps[1..]), t);
    assert "" + t == t;
  }

  lemma Associate(a: string, b: string, c: string)
    ensures (a + b) + c == a + (b + c)
  {
  }

  /** A whole word. */
  lemma {:induction false} RunWord(ps: seq<Piece>, t: string, st: LexState)
    requires ps != [] && (forall p <- ps :: IsPiece(p)) && !st.inDouble && st.stack == []
    requires !(ps[|ps| - 1] == Bare('$') && t != "" && t[0] == '(')
    ensures Run(SpellWord(ps) + t, 0, st) == Run(t, 0, Grown(st, WordValue(ps), AnyInQuotes(ps)))
    decreases |ps|
  {
    hide Run, IsPiece, Spell, Value, InQuotes, AnyInQuotes, SpellWord, WordValue;
    var p, rest := ps[0], ps[1..];
    assert p in ps;
    SpellCons(ps, t);
    QuotedSplits(ps);
    if rest == [] {
      NothingQuoted();
      assert Value(p) + "" == Value(p);
      RunPiece(p, t, st);
    } else {
      var t' := SpellWord(rest[1..]) + t;
      SpellCons(rest, t);
      assert rest[0] in ps;
      SpellBegins(rest[0], t');
      RunPiece(p, SpellWord(rest) + t, st);
      RunWord(rest, t, Grown(st, Value(p), InQuotes(p)));
      GrownTwice(st, Value(p), InQuotes(p), WordValue(rest), AnyInQuotes(rest));
    }
  }

  lemma NothingQuoted()
    ensures !AnyInQuotes([])
  {
  }

  lemma SpellBegins(p: Piece, t: string)
    requires IsPiece(p)
    ensures Spell(p) + t != "" && (Spell(p) + t)[0] != '('
  {
  }

  lemma QuotedSplits(ps: seq<Piece>)
    requires ps != []
    ensures AnyInQuotes(ps) <==> InQuotes(ps[0]) || AnyInQuotes(ps[1..])
  {
    if AnyInQuotes(ps[1..]) {
      var i :| 0 <= i < |ps[1..]| && InQuotes(ps[1..][i]);
      assert InQuotes(ps[i + 1]);
    }
    if i :| 0 < i < |ps| && InQuotes(ps[i]) {
      assert InQuotes(ps[1..][i - 1]);
    }
  }

  lemma {:induction false} RunGap(g: string, t: string, st: LexState)
    requires IsGap(g) && !st.inDouble && st.stack == []
    ensures Run(g + t, 0, st) == Run(t, 0, if g == "" then st else Flush(st))
    decreases |g|
  {
    if g == "" {
      assert g + t == t;
    } else {
      var s := g + t;
      RunStep(s, 0, st);
      assert s[0] == g[0] && s == [g[0]] + (g[1..] + t);
      RunRest([g[0]], g[1..] + t, Flush(st));
      RunGap(g[1..], t, Flush(st));
    }
  }

  /** The next text cannot make another operator of this one. */
  predicate Ends(t: string) {
    t == "" || (t[0] != '|' && t[0] != '&' && t[0] != ';' && t[0] != '>' && t[0] != '(')
  }

  lemma RunOper(op: string, t: string, st: LexState)
    requires IsOper(op) && Ends(t) && !st.inDouble && st.stack == []
    ensures Run(op + t, 0, st) == Run(t, 0, Emit(st, Token(Oper(op)).val))
  {
    hide Run, Step, Emit;
    if |op| == 2 {
      OperTwo(op[0], t, st);
      assert op == [op[0], op[0]];
    } else {
      OperOne(op[0], t, st);
      assert op == [op[0]];
    }
    RunStep(op + t, 0, st);
    RunRest(op, t, Emit(st, Token(Oper(op)).val));
  }

  lemma OperTwo(c: char, t: string, st: LexState)
    requires (c == '|' || c == '&' || c == ';' || c == '>') && !st.inDouble && st.stack == []
    ensures Step([c, c] + t, 0, st) == (Emit(st, [c, c]), 2)
  {
    hide Emit;
    assert ([c, c] + t)[0] == c && ([c, c] + t)[1] == c;
  }

  lemma OperOne(c: char, t: string, st: LexState)
    requires (c == '|' || c == '&' || c == ';' || c == '>' || c == '<' || c == '(' || c == ')' || c == '`')
    requires Ends(t) && !st.inDouble && st.stack == []
    ensures Step([c] + t, 0, st) == (Emit(st, if c == '(' || c == ')' || c == '`' then SUBST else [c]), 1)
  {
    hide Emit;
    var s := [c] + t;
    assert s[0] == c && (t != "" ==> s[1] == t[0]);
  }

  // ---- whole lines ----

  /** What a line begins with. */
  lemma LineBegins(l: Line)
    requires IsLine(l)
    ensures var s := SpellLine(l);
      && ((l.items == [] || l.gaps[0] != "" || l.items[0].Word?) ==> Ends(s))
      && ((l.items == [] || l.gaps[0] != "" || l.items[0] != Oper("(")) ==> s == "" || s[0] != '(')
  {
    if l.items != [] {
      var x := l.items[0];
      var rest := SpellLine(Line(l.gaps[1..], l.items[1..], l.end));
      ItemBegins(x, rest);
      assert SpellLine(l) == l.gaps[0] + (SpellItem(x) + rest);
      if l.gaps[0] == "" {
        assert SpellLine(l) == SpellItem(x) + rest;
      }
    }
  }

  lemma ItemBegins(x: Item, t: string)
    requires IsItem(x)
    ensures SpellItem(x) + t != "" && (x.Word? ==> Ends(SpellItem(x) + t))
    ensures x != Oper("(") ==> (SpellItem(x) + t)[0] != '('
  {
    if x.Word? {
      assert x.pieces[0] in x.pieces;
      SpellCons(x.pieces, t);
      PieceEnds(x.pieces[0], SpellWord(x.pieces[1..]) + t);
    }
  }

  lemma PieceEnds(p: Piece, t: string)
    requires IsPiece(p)
    ensures Ends(Spell(p) + t) && Spell(p) + t != "" && (Spell(p) + t)[0] != '('
  {
    assert (Spell(p) + t)[0] == Spell(p)[0];
  }

  /** The lexer reads a line as it was written: each word with its quotes and escapes taken off,
      marked when it was quoted, each operator as a token of its own, and nothing else. */
  lemma LexSpells(l: Line)
    requires IsLine(l)
    ensures Lex(SpellLine(l)) == Tokens(l.items)
  {
    LineRuns(l, START);
    assert [] + Tokens(l.items) == Tokens(l.items);
  }

  lemma {:induction false} LineRuns(l: Line, st: LexState)
    requires IsLine(l) && !st.inDouble && st.stack == [] && Tidy(st)
    requires l.items != [] && l.gaps[0] == "" && l.items[0].Word? ==> !st.has
    ensures Flush(Run(SpellLine(l), 0, st)).out == Flush(st).out + Tokens(l.items)
    decreases |l.items|
  {
    if l.items == [] {
      LastGap(l.end, st);
    } else {
      hide Run, Step, IsItem, Ends, IsGap, MayTouch, Flush;
      var x, g := l.items[0], l.gaps[0];
      var rest := Line(l.gaps[1..], l.items[1..], l.end);
      RestIsLine(l);
      LineBegins(rest);
      TouchEnds(x, rest);
      var st1 := AfterGap(g, SpellItem(x) + SpellLine(rest), st);
      var st2 := ItemRuns(x, SpellLine(rest), st1);
      LineRuns(rest, st2);
      OneMore(Flush(st).out, Token(x), Tokens(rest.items));
    }
  }

  lemma OneMore(a: seq<Tok>, x: Tok, b: seq<Tok>)
    ensures (a + [x]) + b == a + ([x] + b)
  {
  }

  lemma LastGap(end: string, st: LexState)
    requires IsGap(end) && !st.inDouble && st.stack == []
    ensures Flush(Run(end, 0, st)).out == Flush(st).out + []
  {
    assert end + "" == end;
    RunGap(end, "", st);
    NothingLeft(if end == "" then st else Flush(st));
  }

  lemma AfterGap(g: string, t: string, st: LexState) returns (st': LexState)
    requires IsGap(g) && !st.inDouble && st.stack == [] && Tidy(st)
    ensures Run(g + t, 0, st) == Run(t, 0, st') && Flush(st').out == Flush(st).out
    ensures !st'.inDouble && st'.stack == [] && Tidy(st') && (g != "" || !st.has ==> !st'.has)
  {
    RunGap(g, t, st);
    st' := if g == "" then st else Flush(st);
  }

  /** What may follow an item, from what may touch it. */
  lemma TouchEnds(x: Item, rest: Line)
    requires IsItem(x) && IsLine(rest) && (rest.items != [] && rest.gaps[0] == "" ==> MayTouch(x, rest.items[0]))
    requires var s := SpellLine(rest);
      && ((rest.items == [] || rest.gaps[0] != "" || rest.items[0].Word?) ==> Ends(s))
      && ((rest.items == [] || rest.gaps[0] != "" || rest.items[0] != Oper("(")) ==> s == "" || s[0] != '(')
    ensures x.Oper? ==> Ends(SpellLine(rest))
    ensures x.Word? && x.pieces != [] && x.pieces[|x.pieces| - 1] == Bare('$') ==> SpellLine(rest) == "" || SpellLine(rest)[0] != '('
  {
    hide Ends, SpellLine, IsItem;
  }

  lemma NothingLeft(st: LexState)
    ensures Run("", 0, st) == st
  {
  }

  lemma RestIsLine(l: Line)
    requires IsLine(l) && l.items != []
    ensures var rest := Line(l.gaps[1..], l.items[1..], l.end);
      IsLine(rest) && (rest.items != [] && rest.gaps[0] == "" ==> MayTouch(l.items[0], rest.items[0]))
  {
    hide IsGap, IsItem, MayTouch;
    var rest := Line(l.gaps[1..], l.items[1..], l.end);
    forall k | 0 < k < |rest.items| && rest.gaps[k] == "" ensures MayTouch(rest.items[k - 1], rest.items[k]) {
      assert l.gaps[k + 1] == "" && rest.items[k - 1] == l.items[k];
    }
  }

  /** One item, from a state in which a word would start afresh. */
  lemma ItemRuns(x: Item, t: string, st: LexState) returns (st': LexState)
    requires IsItem(x) && !st.inDouble && st.stack == [] && Tidy(st) && (x.Word? ==> !st.has)
    requires x.Word? && x.pieces != [] && x.pieces[|x.pieces| - 1] == Bare('$') ==> t == "" || t[0] != '('
    requires x.Oper? ==> Ends(t)
    ensures Run(SpellItem(x) + t, 0, st) == Run(t, 0, st') && Flush(st').out == Flush(st).out + [Token(x)]
    ensures !st'.inDouble && st'.stack == [] && Tidy(st') && (x.Oper? ==> !st'.has)
  {
    hide Run, Step;
    match x
    case Word(ps) =>
      RunWord(ps, t, st);
      st' := Grown(st, WordValue(ps), AnyInQuotes(ps));
      assert st.cur + WordValue(ps) == WordValue(ps);
    case Oper(op) =>
      RunOper(op, t, st);
      st' := Emit(st, Token(x).val);
  }

  // ---- lines that end mid-way ----

  /** An open quote runs to the end of the line, and a last backslash stands for itself. */
  lemma LexUnfinished(text: string)
    ensures (forall i :: 0 <= i < |text| ==> text[i] != '\'') ==> Lex("'" + text) == [Tok(text, true, false)]
    ensures IsPlain(text) ==> Lex("\"" + text) == [Tok(text, true, false)]
    ensures Lex("\\") == [Tok("\\", false, false)]
  {
    if forall i :: 0 <= i < |text| ==> text[i] != '\'' {
      OpenSingle(text);
    }
    if IsPlain(text) {
      OpenDouble(text);
    }
    LastBackslash();
  }

  lemma LastBackslash()
    ensures Lex("\\") == [Tok("\\", false, false)]
  {
    var s := "\\";
    assert s[0] == '\\' && "" + [s[0]] == s;
    assert Step(s, 0, START) == (Grown(START, s, false), 1);
    RunStep(s, 0, START);
  }

  lemma OpenSingle(text: string)
    requires forall i :: 0 <= i < |text| ==> text[i] != '\''
    ensures Lex("'" + text) == [Tok(text, true, false)]
  {
    var s := "'" + text;
    assert IndexFrom(s, 1, '\'') == |s|;
    assert s[1..|s|] == text && "" + text == text;
    assert Step(s, 0, START) == (Grown(START, text, true), |s|);
    hide Step;
    RunStep(s, 0, START);
  }

  lemma OpenDouble(text: string)
    requires IsPlain(text)
    ensures Lex("\"" + text) == [Tok(text, true, false)]
  {
    var s := "\"" + text;
    var within := START.(inDouble := true, has := true, quoted := true);
    RunStep(s, 0, START);
    assert Step(s, 0, START) == (within, 1);
    RunRest("\"", text, within);
    assert text + "" == text && "" + text == text;
    hide Run, Step;
    RunText(text, "", within);
    NothingLeft(Typed(within, text));
  }

  // ---- substitutions ----

  /** A command that is finished at its end and closes no parenthesis it has not opened. */
  predicate ContainedFrom(s: string, i: nat, st: LexState)
    requires i <= |s|
    decreases |s| - i
  {
    if i == |s| then !st.inDouble && st.stack == []
    else
      && !Dangles(s, i, st) && !(s[i] == ')' && st.stack == [])
      && var (st', j) := Step(s, i, st); ContainedFrom(s, j, st')
  }

  predicate Contained(s: string) {
    ContainedFrom(s, 0, START)
  }

  function Deeper(st: LexState, p: seq<bool>): LexState {
    st.(stack := p + st.stack)
  }

  lemma WordDeeper(st: LexState, p: seq<bool>)
    ensures Flush(Deeper(st, p)) == Deeper(Flush(st), p)
    ensures forall v :: Emit(Deeper(st, p), v) == Deeper(Emit(st, v), p) && Emit(st, v).stack == st.stack
    ensures forall x, q :: ShellLex.Word(Deeper(st, p), x, q) == Deeper(ShellLex.Word(st, x, q), p)
  {
  }

  lemma StackDeeper(st: LexState, p: seq<bool>)
    ensures (p + st.stack) + [st.inDouble] == p + (st.stack + [st.inDouble])
    ensures st.stack != [] ==> (p + st.stack)[..|p + st.stack| - 1] == p + st.stack[..|st.stack| - 1]
    ensures st.stack != [] ==> (p + st.stack)[|p + st.stack| - 1] == st.stack[|st.stack| - 1]
  {
  }

  lemma StepDeeper(s: string, i: nat, st: LexState, p: seq<bool>)
    requires i < |s| && !(s[i] == ')' && st.stack == [])
    ensures Step(s, i, Deeper(st, p)) == (Deeper(Step(s, i, st).0, p), Step(s, i, st).1)
  {
    WordDeeper(st, p);
    StackDeeper(st, p);
    hide Emit, Flush, ShellLex.Word, IndexFrom;
  }

  /** Inside another command it is read as it would be alone. */
  lemma {:induction false} RunInner(b: string, t: string, i: nat, st: LexState, p: seq<bool>)
    requires i <= |b| && ContainedFrom(b, i, st) && t != "" && t[0] == ')'
    ensures Run(b + t, i, Deeper(st, p)) == Run(b + t, |b|, Deeper(Run(b, i, st), p))
    ensures !Run(b, i, st).inDouble && Run(b, i, st).stack == []
    decreases |b| - i
  {
    hide Step, Dangles;
    if i < |b| {
      var (st', j) := Step(b, i, st);
      StepDeeper(b, i, st, p);
      SameDangling(b, i, st, p);
      StepLocal(b, t, i, Deeper(st, p));
      RunStep(b + t, i, Deeper(st, p));
      RunInner(b, t, j, st', p);
    }
  }

  lemma SameDangling(s: string, i: nat, st: LexState, p: seq<bool>)
    requires i < |s|
    ensures Dangles(s, i, Deeper(st, p)) <==> Dangles(s, i, st)
  {
  }

  /** The state when a substitution has closed: its tokens between two marks, and the quoting
      it interrupted goes on. */
  function AfterSubst(st: LexState, b: string): LexState {
    LexState(Flush(st).out + [Tok(SUBST, false, true)] + Lex(b) + [Tok(SUBST, false, true)], "", false, false, st.inDouble, st.stack)
  }

  function Opening(st: LexState): LexState {
    LexState(Flush(st).out + [Tok(SUBST, false, true)], "", false, false, false, st.stack + [st.inDouble])
  }

  lemma OpenStep(open: string, t: string, st: LexState)
    requires (open == "$(" || (open == "<(" && !st.inDouble)) && Tidy(st)
    ensures Step(open + t, 0, st) == (Opening(st), 2)
  {
    assert (open + t)[0] == open[0] && (open + t)[1] == '(';
  }

  lemma CloseStep(t: string, st: LexState, inDouble: bool, stack: seq<bool>)
    requires st.stack == stack + [inDouble]
    ensures Step(")" + t, 0, st) == (Emit(st, SUBST).(inDouble := inDouble, stack := stack), 1)
  {
    assert (")" + t)[0] == ')';
    assert st.stack[..|st.stack| - 1] == stack;
  }

  /** A command substitution, in double quotes or not, or a process substitution: what is inside is
      lexed as the command line it is. */
  lemma SubstRuns(open: string, b: string, t: string, st: LexState)
    requires (open == "$(" || (open == "<(" && !st.inDouble)) && Tidy(st) && Contained(b)
    ensures Run(open + (b + (")" + t)), 0, st) == Run(t, 0, AfterSubst(st, b))
  {
    hide Run, Step, ContainedFrom, Emit;
    var rest := b + (")" + t);
    OpenStep(open, rest, st);
    RunStep(open + rest, 0, st);
    RunRest(open, rest, Opening(st));
    var pre := Flush(st).out + [Tok(SUBST, false, true)];
    var p := st.stack + [st.inDouble];
    var base := START.(out := pre + START.out);
    assert Opening(st) == Deeper(base, p) by {
      assert pre + [] == pre && p + [] == p;
    }
    ContainedKeepsOut(b, 0, START, pre);
    RunInner(b, ")" + t, 0, base, p);
    RunKeepsOut(b, 0, START, pre);
    var done := Deeper(Run(b, 0, base), p);
    assert p + [] == p;
    RunRest(b, ")" + t, done);
    CloseStep(t, done, st.inDouble, st.stack);
    RunStep(")" + t, 0, done);
    var closed := Emit(done, SUBST).(inDouble := st.inDouble, stack := st.stack);
    RunRest(")", t, closed);
    RunTidy(b, 0, START);
    Closes(st, b, Run(b, 0, START), pre, done, closed);
  }

  lemma Closes(st: LexState, b: string, mid: LexState, pre: seq<Tok>, done: LexState, closed: LexState)
    requires pre == Flush(st).out + [Tok(SUBST, false, true)] && mid == Run(b, 0, START) && Tidy(mid)
    requires done == mid.(out := pre + mid.out, stack := done.stack)
    requires closed == Emit(done, SUBST).(inDouble := st.inDouble, stack := st.stack)
    ensures closed == AfterSubst(st, b)
  {
    hide Run;
    FlushKeepsOut(mid, pre);
    assert Flush(done).out == pre + Lex(b);
  }

  lemma {:induction false} ContainedKeepsOut(s: string, i: nat, st: LexState, p: seq<Tok>)
    requires i <= |s|
    ensures ContainedFrom(s, i, st.(out := p + st.out)) == ContainedFrom(s, i, st)
    decreases |s| - i
  {
    hide Step;
    if i < |s| {
      StepKeepsOut(s, i, st, p);
      var (st', j) := Step(s, i, st);
      ContainedKeepsOut(s, j, st', p);
    }
  }

  function QuotedTok(text: string): seq<Tok> {
    if text == "" then [] else [Tok(text, true, false)]
  }

  /** A substitution between double quotes is a command of its own, and the text around it stays
      quoted. */
  lemma LexSubstitution(x: string, b: string, y: string)
    requires IsPlain(x) && IsPlain(y) && Contained(b)
    ensures Lex("\"" + (x + ("$(" + (b + (")" + (y + "\""))))))
         == [Tok(x, true, false), Tok(SUBST, false, true)] + Lex(b) + [Tok(SUBST, false, true)] + QuotedTok(y)
  {
    hide Run, Step, IsPlain, Contained;
    var tail := ")" + (y + "\"");
    var s := x + ("$(" + (b + tail));
    var within := START.(inDouble := true, has := true, quoted := true);
    QuoteStep(s, START);
    RunStep("\"" + s, 0, START);
    RunRest("\"", s, within);
    RunText(x, "$(" + (b + tail), within);
    var st := Typed(within, x);
    assert "" + x == x;
    assert st.cur == x && st.has && st.quoted && st.out == [];
    SubstRuns("$(", b, y + "\"", st);
    var mid := AfterSubst(st, b);
    RunText(y, "\"", mid);
    var last := Typed(mid, y);
    assert "\"" == "\"" + "";
    QuoteStep("", last);
    RunStep("\"", 0, last);
    RunRest("\"", "", last.(inDouble := false));
    NothingLeft(last.(inDouble := false));
    assert "" + y == y;
    assert Flush(st).out == [Tok(x, true, false)];
    assert [Tok(x, true, false)] + [Tok(SUBST, false, true)] == [Tok(x, true, false), Tok(SUBST, false, true)];
  }

  lemma QuoteStep(t: string, st: LexState)
    requires st.inDouble ==> st.stack == []
    ensures Step("\"" + t, 0, st)
      == (if st.inDouble then st.(inDouble := false) else st.(inDouble := true, has := true, quoted := true), 1)
  {
    assert ("\"" + t)[0] == '"';
  }
}
