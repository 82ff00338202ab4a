/** What a command line runs: which word is the command, what belongs to it, and where one command
    ends and the next begins. */
module ShellRun {
  import opened Wrappers
  import opened ByteText
  import opened ShellLex
  import opened ShellParse
  import Sp = ShellSpell

  // ---- redirections ----

  /** The words that are not targets: a target is the word right after an operator. */
  function Kept(toks: seq<Tok>): seq<Tok> {
    if toks == [] then []
    else
      var n := |toks| - 1;
      Kept(toks[..n]) + if toks[n].op || (n > 0 && toks[n - 1].op) then [] else [toks[n]]
  }

  function RedirTargets(toks: seq<Tok>): seq<string> {
    if toks == [] then []
    else
      var n := |toks| - 1;
      RedirTargets(toks[..n]) + if !toks[n].op && n > 0 && toks[n - 1].op then [toks[n].val] else []
  }

  lemma OneTokMore(toks: seq<Tok>, i: nat)
    requires i < |toks|
    ensures Kept(toks[..i + 1]) == Kept(toks[..i]) + if toks[i].op || (i > 0 && toks[i - 1].op) then [] else [toks[i]]
    ensures RedirTargets(toks[..i + 1]) == RedirTargets(toks[..i]) + if !toks[i].op && i > 0 && toks[i - 1].op then [toks[i].val] else []
  {
    assert toks[..i + 1][..i] == toks[..i];
  }

  lemma {:induction false} RedirectReaches(toks: seq<Tok>, i: nat)
    requires i <= |toks| && (i < |toks| && !toks[i].op ==> i == 0 || !toks[i - 1].op)
    ensures RedirectFrom(toks, i, Kept(toks[..i]), RedirTargets(toks[..i])) == (Kept(toks), RedirTargets(toks))
    decreases |toks| - i
  {
    if i == |toks| {
      assert toks[..i] == toks;
    } else {
      hide Kept, RedirTargets;
      OneTokMore(toks, i);
      assert Kept(toks[..i]) + [] == Kept(toks[..i]) && RedirTargets(toks[..i]) + [] == RedirTargets(toks[..i]);
      if toks[i].op && i + 1 < |toks| && !toks[i + 1].op {
        OneTokMore(toks, i + 1);
        RedirectReaches(toks, i + 2);
      } else {
        RedirectReaches(toks, i + 1);
      }
    }
  }

  /** Redirections go with the operator before them; every other word stays, in order. */
  lemma RedirectIs(toks: seq<Tok>)
    ensures Redirect(toks) == (Kept(toks), RedirTargets(toks))
  {
    RedirectReaches(toks, 0);
    assert toks[..0] == [];
  }

  // ---- words ----

  lemma {:induction false} LastSlashIs(s: string, n: nat, k: nat)
    requires k < n <= |s| && s[k] == '/' && forall i :: k < i < n ==> s[i] != '/'
    ensures LastSlash(s, n) == k
    decreases n
  {
    if n - 1 > k {
      LastSlashIs(s, n - 1, k);
    }
  }

  lemma {:induction false} NoSlash(s: string, n: nat)
    requires n <= |s| && forall i :: 0 <= i < n ==> s[i] != '/'
    ensures LastSlash(s, n) == -1
  {
    if n > 0 {
      NoSlash(s, n - 1);
    }
  }

  /** A path names what comes after its last slash; a path that ends in one names itself. */
  lemma BasenameIs(dir: string, name: string)
    requires forall i :: 0 <= i < |name| ==> name[i] != '/'
    ensures Basename(name) == name
    ensures Basename(dir + "/" + name) == if name == "" then dir + "/" else name
  {
    NoSlash(name, |name|);
    var s := dir + "/" + name;
    LastSlashIs(s, |s|, |dir|);
    assert s[|dir| + 1..] == name;
    assert name == "" ==> s == dir + "/";
  }

  /** An assignment is a name, an equals sign, and anything. */
  lemma AssignmentIs(s: string)
    ensures IsAssignment(s) <==> exists k :: 0 < k < |s| && s[k] == '=' && IsName(s[..k])
  {
    var i := IndexFrom(s, 0, '=');
    if k :| 0 < k < |s| && s[k] == '=' && IsName(s[..k]) {
      assert forall j :: 0 <= j < k ==> s[..k][j] == s[j];
      assert i == k;
    }
    if IsAssignment(s) {
      assert IsName(s[..i]);
    }
  }

  /** Letters, digits and underscores, not starting with a digit. */
  predicate IsName(s: string) {
    && s != "" && !('0' <= s[0] <= '9')
    && forall j :: 0 <= j < |s| ==> s[j] == '_' || 'a' <= s[j] <= 'z' || 'A' <= s[j] <= 'Z' || '0' <= s[j] <= '9'
  }

  /** A flag that only announces, alone or with a value. */
  predicate Announces(v: string, f: string) {
    f in {"--help", "--version", "--dry-run", "--dryrun", "--usage"} && (v == f || f + "=" <= v)
  }

  lemma InertFlagIs(v: string)
    ensures IsInertFlag(v) <==> exists f :: Announces(v, f)
  {
    if IsInertFlag(v) {
      CutAtEquals(v);
      assert Announces(v, v[..IndexFrom(v, 0, '=')]);
    }
    if f :| Announces(v, f) {
      NoEquals(f);
      CutIs(v, f);
    }
  }

  lemma CutAtEquals(v: string)
    ensures var f := v[..IndexFrom(v, 0, '=')]; v == f || f + "=" <= v
  {
    var i := IndexFrom(v, 0, '=');
    assert i < |v| ==> v[..i] + "=" == v[..i + 1];
  }

  lemma NoEquals(f: string)
    requires f in {"--help", "--version", "--dry-run", "--dryrun", "--usage"}
    ensures forall j :: 0 <= j < |f| ==> f[j] != '='
  {
  }

  lemma CutIs(v: string, f: string)
    requires (v == f || f + "=" <= v) && forall j :: 0 <= j < |f| ==> f[j] != '='
    ensures v[..IndexFrom(v, 0, '=')] == f
  {
    assert forall j :: 0 <= j < |f| ==> v[j] == f[j];
    assert v != f ==> v[|f|] == (f + "=")[|f|];
  }

  /** The plain words among the arguments, in order. */
  lemma {:induction false} WordsAre(x: seq<Tok>, a: Tok, y: seq<Tok>)
    ensures Words(x + [a] + y) == Words(x) + (if a.quoted || (a.val != "" && a.val[0] == '-') then [] else [a.val]) + Words(y)
    decreases |y|
  {
    if y == [] {
      assert x + [a] + y == x + [a] && (x + [a])[..|x|] == x;
    } else {
      var init := y[..|y| - 1];
      WordsAre(x, a, init);
      assert (x + [a] + y)[..|x + [a] + y| - 1] == x + [a] + init;
    }
  }

  // ---- the command word ----

  /** A wrapper's own argument: a flag with its value, or a flag or number alone. */
  datatype Group = Valued(flag: Tok, value: Tok) | Lone(flag: Tok)

  predicate IsValueFlag(v: string) {
    v == "-u" || v == "-g" || v == "-p" || v == "-C" || v == "--user" || v == "--group"
  }

  predicate IsFlagOrNumber(v: string) {
    v != "" && (v[0] == '-' || forall i :: 0 <= i < |v| ==> '0' <= v[i] <= '9' || v[i] == '.')
  }

  predicate IsGroup(g: Group) {
    match g
    case Valued(f, _) => !f.quoted && IsValueFlag(f.val)
    case Lone(f) => !f.quoted && !IsValueFlag(f.val) && IsFlagOrNumber(f.val)
  }

  function FlatGroups(gs: seq<Group>): seq<Tok> {
    if gs == [] then []
    else (match gs[0] case Valued(f, v) => [f, v] case Lone(f) => [f]) + FlatGroups(gs[1..])
  }

  /** What may stand before a command: an assignment, or a wrapper with its arguments. */
  datatype Layer = Assign(tok: Tok) | Wrap(tok: Tok, groups: seq<Group>)

  predicate IsWrapperName(v: string) {
    || v == "sudo" || v == "doas" || v == "env" || v == "command" || v == "builtin" || v == "exec" || v == "nohup" || v == "time"
    || v == "nice" || v == "ionice" || v == "stdbuf" || v == "setsid" || v == "timeout" || v == "xargs" || v == "watch"
  }

  predicate IsLayer(x: Layer) {
    && !x.tok.quoted
    && match x
       case Assign(t) => IsAssignment(t.val)
       case Wrap(t, gs) => !IsAssignment(t.val) && IsWrapperName(Basename(t.val)) && forall g <- gs :: IsGroup(g)
  }

  predicate Privileges(x: Layer) {
    x.Wrap? && (Basename(x.tok.val) == "sudo" || Basename(x.tok.val) == "doas")
  }

  function FlatLayer(x: Layer): seq<Tok> {
    match x
    case Assign(t) => [t]
    case Wrap(t, gs) => [t] + FlatGroups(gs)
  }

  function Flat(xs: seq<Layer>): seq<Tok> {
    if xs == [] then [] else FlatLayer(xs[0]) + Flat(xs[1..])
  }

  /** The word is not taken for an argument of the wrapper before it. */
  predicate Starts(t: Tok) {
    t.quoted || !(IsValueFlag(t.val) || IsFlagOrNumber(t.val))
  }

  /** A wrapper's arguments end where the next layer, or the command, starts. */
  predicate Separated(xs: seq<Layer>, rest: seq<Tok>)
    decreases |xs|
  {
    xs != [] ==>
      && (xs[0].Wrap? ==> var tail := Flat(xs[1..]) + rest; tail == [] || Starts(tail[0]))
      && Separated(xs[1..], rest)
  }

  predicate IsCommandWord(t: Tok) {
    !t.quoted && !IsAssignment(t.val) && !IsWrapperName(Basename(t.val))
  }

  lemma SameNames(v: string)
    ensures TakesValue(v) <==> IsValueFlag(v)
    ensures HasDash(v) || IsNumber(v) <==> IsFlagOrNumber(v)
    ensures IsWrapper(v) <==> IsWrapperName(v)
    ensures IsPrivileged(v) <==> v == "sudo" || v == "doas"
  {
  }

  /** Flags, numbers and the values some flags take are passed over, and nothing else is. */
  lemma {:induction false} SkipsGroups(pre: seq<Tok>, gs: seq<Group>, rest: seq<Tok>)
    requires (forall g <- gs :: IsGroup(g)) && (rest == [] || Starts(rest[0]))
    ensures SkipFlags(pre + FlatGroups(gs) + rest, |pre|) == |pre| + |FlatGroups(gs)|
    decreases |gs|
  {
    hide TakesValue, HasDash, IsNumber, IsValueFlag, IsFlagOrNumber;
    var all := pre + FlatGroups(gs) + rest;
    if gs == [] {
      assert all == pre + rest;
      if rest != [] {
        SameNames(rest[0].val);
      }
    } else {
      var g := gs[0];
      var first := match g case Valued(f, v) => [f, v] case Lone(f) => [f];
      assert g in gs;
      SameNames(g.flag.val);
      assert all == (pre + first) + FlatGroups(gs[1..]) + rest;
      SkipsGroups(pre + first, gs[1..], rest);
      assert all[|pre|] == g.flag;
    }
  }

  /** What the search does at one word. */
  lemma HeadHere(all: seq<Tok>, i: nat, sudo: bool)
    ensures i >= |all| || all[i].quoted ==> FindHead(all, i, sudo) == (None, sudo)
    ensures i < |all| && IsCommandWord(all[i]) ==> FindHead(all, i, sudo) == (Some(i), sudo)
  {
    hide IsAssignment, IsWrapper, IsWrapperName, Basename;
    if i < |all| {
      SameNames(Basename(all[i].val));
    }
  }

  lemma HeadPast(all: seq<Tok>, i: nat, sudo: bool, x: Layer)
    requires i < |all| && all[i] == x.tok && IsLayer(x)
    ensures FindHead(all, i, sudo) == FindHead(all, if x.Assign? then i + 1 else SkipFlags(all, i + 1), sudo || Privileges(x))
  {
    hide IsAssignment, IsWrapper, IsPrivileged, IsWrapperName, IsGroup, Basename, SkipFlags;
    SameNames(Basename(x.tok.val));
  }

  /** The command is the first word after any assignments and wrappers, sudo is noted on the way,
      and quoted text is never a command. */
  lemma {:induction false} HeadAfter(pre: seq<Tok>, xs: seq<Layer>, rest: seq<Tok>, sudo: bool)
    requires (forall x <- xs :: IsLayer(x)) && Separated(xs, rest)
    requires rest == [] || rest[0].quoted || IsCommandWord(rest[0])
    ensures FindHead(pre + Flat(xs) + rest, |pre|, sudo) ==
      (if rest != [] && !rest[0].quoted then Some(|pre| + |Flat(xs)|) else None, sudo || AnyPrivileges(xs))
    decreases |xs|
  {
    hide FindHead, IsCommandWord, Privileges, SkipFlags, Starts, AnyPrivileges, FlatLayer, IsLayer, FlatGroups;
    var all := pre + Flat(xs) + rest;
    PrivilegesSplit(xs);
    if xs == [] {
      assert all == pre + rest;
      HeadHere(all, |pre|, sudo);
    } else {
      var x := xs[0];
      assert x in xs;
      var tail := Flat(xs[1..]) + rest;
      LayerFirst(pre, x, Flat(xs[1..]), rest);
      HeadPast(all, |pre|, sudo, x);
      HeadAfter(pre + FlatLayer(x), xs[1..], rest, sudo || Privileges(x));
      LayerEnds(pre, x, tail);
    }
  }

  lemma LayerFirst(pre: seq<Tok>, x: Layer, more: seq<Tok>, rest: seq<Tok>)
    ensures var all := pre + (FlatLayer(x) + more) + rest;
      && all == (pre + FlatLayer(x)) + more + rest && |pre| < |all| && all[|pre|] == x.tok
      && (x.Wrap? ==> all == (pre + [x.tok]) + FlatGroups(x.groups) + (more + rest) && |pre + FlatLayer(x)| == |pre| + 1 + |FlatGroups(x.groups)|)
  {
    if x.Wrap? {
      assert pre + ([x.tok] + FlatGroups(x.groups) + more) + rest == (pre + [x.tok]) + FlatGroups(x.groups) + (more + rest);
    }
  }

  /** Where the search goes on after a layer. */
  lemma LayerEnds(pre: seq<Tok>, x: Layer, tail: seq<Tok>)
    requires IsLayer(x) && (x.Wrap? ==> tail == [] || Starts(tail[0]))
    ensures x.Assign? ==> |pre + FlatLayer(x)| == |pre| + 1
    ensures x.Wrap? ==> SkipFlags((pre + [x.tok]) + FlatGroups(x.groups) + tail, |pre| + 1) == |pre + FlatLayer(x)|
  {
    if x.Wrap? {
      SkipsGroups(pre + [x.tok], x.groups, tail);
    }
  }

  predicate AnyPrivileges(xs: seq<Layer>) {
    exists x <- xs :: Privileges(x)
  }

  lemma PrivilegesSplit(xs: seq<Layer>)
    ensures AnyPrivileges(xs) <==> xs != [] && (Privileges(xs[0]) || AnyPrivileges(xs[1..]))
  {
    if x :| x in xs && Privileges(x) {
      assert x == xs[0] || x in xs[1..];
    }
    assert xs != [] ==> xs[0] in xs;
  }

  /** The whole of a segment: layers, the command, its arguments, and redirections anywhere. */
  lemma SegmentIs(toks: seq<Tok>, piped: bool, xs: seq<Layer>, cmd: Tok, args: seq<Tok>)
    requires Kept(toks) == Flat(xs) + ([cmd] + args) && (forall x <- xs :: IsLayer(x)) && Separated(xs, [cmd] + args)
    requires IsCommandWord(cmd)
    ensures Resolve(toks, piped) == Some(Segment(Basename(cmd.val), cmd.val, Kept(toks), args, Words(args), RedirTargets(toks),
      AnyPrivileges(xs), exists a <- args :: !a.quoted && IsInertFlag(a.val), piped))
  {
    hide FindHead, IsLayer, Flat, Separated, AnyPrivileges, IsInertFlag, Words, Kept, RedirTargets, Redirect, Basename;
    RedirectIs(toks);
    var rest := [cmd] + args;
    var plain := Flat(xs) + rest;
    HeadAfter([], xs, rest, false);
    assert [] + Flat(xs) + rest == plain;
    assert plain[|Flat(xs)|] == cmd && plain[|Flat(xs)| + 1..] == args;
  }

  /** Without a command word a segment names none, and nothing at all is no segment. */
  lemma SegmentIsNone(toks: seq<Tok>, piped: bool, xs: seq<Layer>, rest: seq<Tok>)
    requires Kept(toks) == Flat(xs) + rest && (forall x <- xs :: IsLayer(x)) && Separated(xs, rest)
    requires rest == [] || rest[0].quoted
    ensures if Kept(toks) == [] && RedirTargets(toks) == [] then Resolve(toks, piped) == None
      else Resolve(toks, piped) == Some(Segment("", "", Kept(toks), [], [], RedirTargets(toks), AnyPrivileges(xs), false, piped))
  {
    hide FindHead, IsLayer, Flat, Separated, AnyPrivileges, IsInertFlag, Kept, RedirTargets, Redirect, Basename;
    RedirectIs(toks);
    HeadAfter([], xs, rest, false);
    assert [] + Flat(xs) + rest == Flat(xs) + rest;
  }

  // ---- where commands end ----

  predicate IsCut(t: Tok) {
    if t.op then t.val == "|" || t.val == "||" || t.val == "&&" || t.val == ";" || t.val == ";;" || t.val == "&" || t.val == SUBST
    else !t.quoted && (t.val == "-exec" || t.val == "-execdir" || t.val == "-ok" || t.val == "-okdir")
  }

  function SegsOf(toks: seq<Tok>, piped: bool): seq<Segment> {
    match Resolve(toks, piped)
    case None => []
    case Some(s) => [s]
  }

  lemma CutStep(st: ParseState, t: Tok)
    ensures ParseTok(st, t) ==
      if IsCut(t) then ParseState(st.segs + SegsOf(st.cur, st.piped), [], t.op && t.val == "|") else st.(cur := st.cur + [t])
  {
    hide Resolve;
  }

  /** Groups of words with a cut between each two. */
  function Joined(groups: seq<seq<Tok>>, cuts: seq<Tok>): seq<Tok>
    requires |groups| == |cuts| + 1
    decreases |cuts|
  {
    if cuts == [] then groups[0] else groups[0] + [cuts[0]] + Joined(groups[1..], cuts[1..])
  }

  /** One segment a group, reading from a pipe when a single bar comes before it. */
  function CutSegs(groups: seq<seq<Tok>>, cuts: seq<Tok>, piped: bool): seq<Segment>
    requires |groups| == |cuts| + 1
    decreases |cuts|
  {
    SegsOf(groups[0], piped) + if cuts == [] then [] else CutSegs(groups[1..], cuts[1..], cuts[0].op && cuts[0].val == "|")
  }

  lemma {:induction false} NoCut(st: ParseState, toks: seq<Tok>)
    requires forall t <- toks :: !IsCut(t)
    ensures ParseToks(st, toks) == st.(cur := st.cur + toks)
  {
    hide IsCut, ParseTok;
    if toks != [] {
      var init, t := toks[..|toks| - 1], toks[|toks| - 1];
      NoCut(st, init);
      CutStep(ParseToks(st, init), t);
      assert t in toks && st.cur + toks == (st.cur + init) + [t];
    } else {
      assert st.cur + toks == st.cur;
    }
  }

  /** A list of tokens runs one command for each group between cuts, in order. */
  lemma {:induction false} TokensRun(groups: seq<seq<Tok>>, cuts: seq<Tok>, piped: bool)
    requires |groups| == |cuts| + 1
    requires (forall g <- groups :: forall t <- g :: !IsCut(t)) && forall c <- cuts :: IsCut(c)
    ensures FlushSegment(ParseToks(ParseState([], [], piped), Joined(groups, cuts)), false).segs == CutSegs(groups, cuts, piped)
    decreases |cuts|
  {
    hide IsCut, ParseTok, Resolve;
    var st := ParseState([], [], piped);
    var g := groups[0];
    assert g in groups;
    NoCut(st, g);
    assert [] + g == g;
    if cuts == [] {
      assert [] + SegsOf(g, piped) == SegsOf(g, piped) == CutSegs(groups, cuts, piped);
    } else {
      var c := cuts[0];
      assert c in cuts;
      var bar := c.op && c.val == "|";
      var more := Joined(groups[1..], cuts[1..]);
      AfterCut(st, g, c, more);
      forall h <- groups[1..], t <- h ensures !IsCut(t) {
        assert h in groups;
      }
      TokensRun(groups[1..], cuts[1..], bar);
    }
  }

  lemma AfterCut(st: ParseState, g: seq<Tok>, c: Tok, more: seq<Tok>)
    requires st.segs == [] && st.cur == [] && ParseToks(st, g) == st.(cur := g) && IsCut(c)
    ensures var bar := c.op && c.val == "|";
      FlushSegment(ParseToks(st, g + [c] + more), false).segs
      == SegsOf(g, st.piped) + FlushSegment(ParseToks(ParseState([], [], bar), more), false).segs
  {
    hide IsCut, ParseTok, Resolve;
    var bar := c.op && c.val == "|";
    var head := g + [c];
    ParseConcat(st, head, more);
    assert head[..|head| - 1] == g;
    CutStep(st.(cur := g), c);
    var empty := ParseState([], [], bar);
    var p := SegsOf(g, st.piped);
    assert ParseToks(st, head) == empty.(segs := p + empty.segs) by {
      assert [] + p == p && p + [] == p;
    }
    ParseKeepsSegs(empty, more, p);
    FlushKeepsSegs(ParseToks(empty, more), p);
  }

  /** A line, however it is spelled, runs the commands between its cuts. */
  lemma LineRuns(l: Sp.Line, groups: seq<seq<Tok>>, cuts: seq<Tok>)
    requires Sp.IsLine(l) && |groups| == |cuts| + 1 && Sp.Tokens(l.items) == Joined(groups, cuts)
    requires (forall g <- groups :: forall t <- g :: !IsCut(t)) && forall c <- cuts :: IsCut(c)
    ensures Segments(Sp.SpellLine(l)) == CutSegs(groups, cuts, false)
  {
    hide Lex, Resolve;
    Sp.LexSpells(l);
    TokensRun(groups, cuts, false);
  }

  /** What is substituted into a quoted word is run like any command, and the words around it
      are data. */
  lemma SubstitutionRuns(x: string, b: string, y: string)
    requires Sp.IsPlain(x) && Sp.IsPlain(y) && Sp.Contained(b)
    ensures Segments("\"" + (x + ("$(" + (b + (")" + (y + "\"")))))) == SegsOf([Tok(x, true, false)], false) + Segments(b) + SegsOf(Sp.QuotedTok(y), false)
  {
    hide Lex, Resolve, Sp.IsPlain, Sp.Contained, IsCut, ParseToks, FlushSegment, SegsOf;
    Sp.LexSubstitution(x, b, y);
    var s, q, r := Tok(SUBST, false, true), Tok(x, true, false), Sp.QuotedTok(y);
    SubstIsCut();
    WordIsNoCut(x);
    WordIsNoCut(y);
    Regroup(q, s, Lex(b), r);
    assert forall t <- r :: t == Tok(y, true, false);
    AroundSubst([q], s, Lex(b), r);
  }

  lemma Regroup(q: Tok, s: Tok, mid: seq<Tok>, r: seq<Tok>)
    ensures [q, s] + mid + [s] + r == [q] + [s] + (mid + [s] + r)
  {
  }

  lemma AroundSubst(q: seq<Tok>, s: Tok, mid: seq<Tok>, r: seq<Tok>)
    requires IsCut(s) && !(s.op && s.val == "|") && (forall t <- q :: !IsCut(t)) && (forall t <- r :: !IsCut(t))
    ensures var st := ParseState([], [], false);
      FlushSegment(ParseToks(st, q + [s] + (mid + [s] + r)), false).segs
      == SegsOf(q, false) + FlushSegment(ParseToks(st, mid), false).segs + SegsOf(r, false)
  {
    hide IsCut, ParseToks, FlushSegment;
    var st := ParseState([], [], false);
    NoCut(st, q);
    assert [] + q == q && [] + r == r;
    AfterCut(st, q, s, mid + [s] + r);
    InnerRuns(mid, s, r);
    NoCut(st, r);
    LastGroup(r);
    Onwards(SegsOf(q, false), FlushSegment(ParseToks(st, mid), false).segs, SegsOf(r, false));
  }

  lemma Onwards(a: seq<Segment>, b: seq<Segment>, c: seq<Segment>)
    ensures a + (b + c) == a + b + c
  {
  }

  lemma LastGroup(r: seq<Tok>)
    ensures FlushSegment(ParseState([], r, false), false).segs == SegsOf(r, false)
  {
    hide Resolve;
    assert [] + SegsOf(r, false) == SegsOf(r, false);
  }

  lemma SubstIsCut()
    ensures IsCut(Tok(SUBST, false, true)) && SUBST != "|"
  {
  }

  lemma WordIsNoCut(x: string)
    ensures !IsCut(Tok(x, true, false))
  {
  }

  /** A mark ends whatever came before it. */
  lemma InnerRuns(toks: seq<Tok>, c: Tok, more: seq<Tok>)
    requires IsCut(c) && !(c.op && c.val == "|")
    ensures var st := ParseState([], [], false);
      FlushSegment(ParseToks(st, toks + [c] + more), false).segs
      == FlushSegment(ParseToks(st, toks), false).segs + FlushSegment(ParseToks(st, more), false).segs
  {
    hide IsCut, ParseTok, Resolve;
    var st := ParseState([], [], false);
    var head := toks + [c];
    ParseConcat(st, head, more);
    assert head[..|head| - 1] == toks;
    var mid := ParseToks(st, toks);
    CutStep(mid, c);
    var p := mid.segs + SegsOf(mid.cur, mid.piped);
    assert ParseToks(st, head) == st.(segs := p + st.segs) by {
      assert p + [] == p;
    }
    ParseKeepsSegs(st, more, p);
    FlushKeepsSegs(ParseToks(st, more), p);
  }
}
