/** From tokens to the command segments a shell would execute. */
module ShellParse {
  import opened Wrappers
  import opened ByteText
  import opened ShellLex

  /** One command: its resolved command word, its own arguments, its redirections. */
  datatype Segment = Segment(
    head: string, headRaw: string, all: seq<Tok>, args: seq<Tok>, words: seq<string>, redirs: seq<string>,
    sudo: bool, inert: bool, piped: bool)

  const SPLITTERS: set<string> := {"|", "||", "&&", ";", ";;", "&", SUBST}
  const EXEC_ARGS: set<string> := {"-exec", "-execdir", "-ok", "-okdir"}
  const WRAPPERS: set<string> := {"sudo", "doas", "env", "command", "builtin", "exec", "nohup", "time", "nice",
                                  "ionice", "stdbuf", "setsid", "timeout", "xargs", "watch"}
  const PRIV_WRAPPERS: set<string> := {"sudo", "doas"}
  const WRAPPER_VALUE_FLAGS: set<string> := {"-u", "-g", "-p", "-C", "--user", "--group"}
  const INERT_FLAGS: set<string> := {"--help", "--version", "--dry-run", "--dryrun", "--usage"}

  predicate IsSplitter(v: string) { v in SPLITTERS }

  predicate IsExecArg(v: string) { v in EXEC_ARGS }

  predicate IsWrapper(v: string) { v in WRAPPERS }

  predicate IsPrivileged(v: string) { v in PRIV_WRAPPERS }

  predicate TakesValue(v: string) { v in WRAPPER_VALUE_FLAGS }

  // ---- words ----

  /** The last slash of s[..n], or -1. */
  function LastSlash(s: string, n: nat): (r: int)
    requires n <= |s|
    ensures -1 <= r < n
  {
    if n == 0 then -1 else if s[n - 1] == '/' then n - 1 else LastSlash(s, n - 1)
  }

  function Basename(s: string): string {
    var i := LastSlash(s, |s|);
    if i >= 0 && i + 1 < |s| then s[i + 1..] else s
  }

  predicate IsDigit(c: char) {
    '0' <= c <= '9'
  }

  predicate IsNameByte(c: char, first: bool) {
    c == '_' || 'a' <= c <= 'z' || 'A' <= c <= 'Z' || (!first && IsDigit(c))
  }

  predicate IsAssignment(s: string) {
    var i := IndexFrom(s, 0, '=');
    0 < i < |s| && forall j :: 0 <= j < i ==> IsNameByte(s[j], j == 0)
  }

  predicate IsNumber(s: string) {
    s != "" && forall i :: 0 <= i < |s| ==> IsDigit(s[i]) || s[i] == '.'
  }

  predicate HasDash(s: string) {
    s != "" && s[0] == '-'
  }

  // ---- resolve ----

  /** From position i on: redirection targets out, words kept. */
  function RedirectFrom(toks: seq<Tok>, i: nat, plain: seq<Tok>, redirs: seq<string>): (seq<Tok>, seq<string>)
    decreases |toks| - i
  {
    if i >= |toks| then (plain, redirs)
    else if !toks[i].op then RedirectFrom(toks, i + 1, plain + [toks[i]], redirs)
    else if i + 1 < |toks| && !toks[i + 1].op then RedirectFrom(toks, i + 2, plain, redirs + [toks[i + 1].val])
    else RedirectFrom(toks, i + 1, plain, redirs)
  }

  function Redirect(toks: seq<Tok>): (seq<Tok>, seq<string>) {
    RedirectFrom(toks, 0, [], [])
  }

  /** Past a wrapper's own flags, the values some of them take, and bare numbers. */
  function SkipFlags(plain: seq<Tok>, i: nat): (j: nat)
    ensures i <= j
    decreases |plain| - i
  {
    if i >= |plain| || plain[i].quoted then i
    else if TakesValue(plain[i].val) then SkipFlags(plain, i + 2)
    else if HasDash(plain[i].val) || IsNumber(plain[i].val) then SkipFlags(plain, i + 1)
    else i
  }

  /** Where the command word is (None when there is none) and whether sudo or doas was passed. */
  function FindHead(plain: seq<Tok>, i: nat, sudo: bool): (r: (Option<nat>, bool))
    ensures r.0.Some? ==> i <= r.0.value < |plain|
    decreases |plain| - i
  {
    if i >= |plain| || plain[i].quoted then (None, sudo)
    else if IsAssignment(plain[i].val) then FindHead(plain, i + 1, sudo)
    else
      var base := Basename(plain[i].val);
      if !IsWrapper(base) then (Some(i), sudo)
      else FindHead(plain, SkipFlags(plain, i + 1), sudo || IsPrivileged(base))
  }

  predicate IsInertFlag(v: string) {
    v[..IndexFrom(v, 0, '=')] in INERT_FLAGS
  }

  function Words(args: seq<Tok>): seq<string> {
    if args == [] then []
    else
      var init, a := args[..|args| - 1], args[|args| - 1];
      Words(init) + if !a.quoted && !HasDash(a.val) then [a.val] else []
  }

  /** One segment's tokens as a command; None when nothing is left. */
  function Resolve(toks: seq<Tok>, piped: bool): Option<Segment> {
    var (plain, redirs) := Redirect(toks);
    if plain == [] && redirs == [] then None
    else
      var (h, sudo) := FindHead(plain, 0, false);
      var args := if h.Some? then plain[h.value + 1..] else [];
      Some(Segment(if h.Some? then Basename(plain[h.value].val) else "", if h.Some? then plain[h.value].val else "",
                   plain, args, Words(args), redirs, sudo,
                   exists a <- args :: !a.quoted && IsInertFlag(a.val), piped))
  }

  method RedirectLoop(toks: seq<Tok>) returns (plain: seq<Tok>, redirs: seq<string>)
    ensures (plain, redirs) == Redirect(toks)
  {
    plain, redirs := [], [];
    var i := 0;
    while i < |toks|
      invariant 0 <= i && RedirectFrom(toks, i, plain, redirs) == Redirect(toks)
    {
      if toks[i].op {
        if i + 1 < |toks| && !toks[i + 1].op {
          redirs := redirs + [toks[i + 1].val];
          i := i + 1;
        }
      } else {
        plain := plain + [toks[i]];
      }
      i := i + 1;
    }
  }

  method FindHeadLoop(plain: seq<Tok>) returns (h: Option<nat>, sudo: bool)
    ensures (h, sudo) == FindHead(plain, 0, false)
  {
    hide IsWrapper, IsPrivileged, TakesValue, IsAssignment, IsNumber, HasDash, Basename;
    h, sudo := None, false;
    var i := 0;
    while i < |plain|
      invariant 0 <= i && h.None?
      invariant FindHead(plain, 0, false) == FindHead(plain, i, sudo)
      decreases |plain| - i
    {
      var t := plain[i];
      if t.quoted { return; }
      if IsAssignment(t.val) {
        i := i + 1;
        continue;
      }
      var base := Basename(t.val);
      if !IsWrapper(base) { return Some(i), sudo; }
      if IsPrivileged(base) {
        sudo := true;
      }
      i := i + 1;
      ghost var start := i;
      while i < |plain|
        invariant start <= i && SkipFlags(plain, start) == SkipFlags(plain, i)
        decreases |plain| - i
      {
        var v := plain[i].val;
        if plain[i].quoted { break; }
        if TakesValue(v) {
          i := i + 2;
          continue;
        }
        if HasDash(v) || IsNumber(v) {
          i := i + 1;
          continue;
        }
        break;
      }
    }
  }

  method ClassifyLoop(args: seq<Tok>) returns (words: seq<string>, inert: bool)
    ensures words == Words(args) && (inert <==> exists a <- args :: !a.quoted && IsInertFlag(a.val))
  {
    hide IsInertFlag, HasDash;
    words, inert := [], false;
    for k := 0 to |args|
      invariant words == Words(args[..k])
      invariant inert <==> exists a <- args[..k] :: !a.quoted && IsInertFlag(a.val)
    {
      var a := args[k];
      assert args[..k + 1] == args[..k] + [a];
      if !a.quoted {
        if IsInertFlag(a.val) {
          inert := true;
        }
        if !HasDash(a.val) {
          words := words + [a.val];
        }
      }
    }
    assert args[..|args|] == args;
  }

  /** One segment, pass by pass over its tokens. */
  method ResolveLoop(toks: seq<Tok>, piped: bool) returns (r: Option<Segment>)
    ensures r == Resolve(toks, piped)
  {
    hide Redirect, FindHead, Words, IsInertFlag, Basename;
    var plain, redirs := RedirectLoop(toks);
    if |plain| == 0 && |redirs| == 0 { return None; }
    var h, sudo := FindHeadLoop(plain);
    var head, headRaw, args := "", "", [];
    if h.Some? {
      headRaw := plain[h.value].val;
      head, args := Basename(headRaw), plain[h.value + 1..];
    }
    var words, inert := ClassifyLoop(args);
    r := Some(Segment(head, headRaw, plain, args, words, redirs, sudo, inert, piped));
  }

  // ---- parse ----

  datatype ParseState = ParseState(segs: seq<Segment>, cur: seq<Tok>, piped: bool)

  function FlushSegment(st: ParseState, nextPiped: bool): ParseState {
    var r := Resolve(st.cur, st.piped);
    ParseState(st.segs + if r.Some? then [r.value] else [], [], nextPiped)
  }

  function ParseTok(st: ParseState, t: Tok): ParseState {
    if t.op && IsSplitter(t.val) then FlushSegment(st, t.val == "|")
    else if t.op then st.(cur := st.cur + [t])
    else if !t.quoted && IsExecArg(t.val) then FlushSegment(st, false)
    else st.(cur := st.cur + [t])
  }

  function ParseToks(st: ParseState, toks: seq<Tok>): ParseState {
    if toks == [] then st else ParseTok(ParseToks(st, toks[..|toks| - 1]), toks[|toks| - 1])
  }

  /** The segments of a line whose first command reads the given kind of stdin. */
  function SegmentsFrom(raw: string, piped: bool): seq<Segment> {
    FlushSegment(ParseToks(ParseState([], [], piped), Lex(raw)), false).segs
  }

  function Segments(raw: string): seq<Segment> {
    SegmentsFrom(raw, false)
  }

  method ParseLoop(raw: string) returns (segs: seq<Segment>)
    ensures segs == Segments(raw)
  {
    hide IsSplitter, IsExecArg, Resolve;
    segs := [];
    var cur: seq<Tok>, piped := [], false;
    var toks := LexLoop(raw);
    for k := 0 to |toks|
      invariant ParseToks(ParseState([], [], false), toks[..k]) == ParseState(segs, cur, piped)
    {
      var t := toks[k];
      assert toks[..k + 1][..k] == toks[..k];
      var splits := t.op && IsSplitter(t.val);
      if splits || (!t.op && !t.quoted && IsExecArg(t.val)) {
        var r := ResolveLoop(cur, piped);
        if r.Some? {
          segs := segs + [r.value];
        }
        cur, piped := [], splits && t.val == "|";
      } else {
        cur := cur + [t];
      }
    }
    assert toks[..|toks|] == toks;
    var r := ResolveLoop(cur, piped);
    if r.Some? {
      segs := segs + [r.value];
    }
  }

  // ---- composition ----

  lemma {:induction false} ParseConcat(st: ParseState, x: seq<Tok>, y: seq<Tok>)
    ensures ParseToks(st, x + y) == ParseToks(ParseToks(st, x), y)
  {
    if y == [] {
      assert x + y == x;
    } else {
      var init := y[..|y| - 1];
      assert (x + y)[..|x + y| - 1] == x + init;
      ParseConcat(st, x, init);
    }
  }

  /** Segments already cut never influence the ones to come. */
  lemma {:induction false} ParseKeepsSegs(st: ParseState, toks: seq<Tok>, p: seq<Segment>)
    ensures ParseToks(st.(segs := p + st.segs), toks) == ParseToks(st, toks).(segs := p + ParseToks(st, toks).segs)
  {
    hide Resolve;
    if toks != [] {
      ParseKeepsSegs(st, toks[..|toks| - 1], p);
      var mid := ParseToks(st, toks[..|toks| - 1]);
      FlushKeepsSegs(mid, p);
    }
  }

  lemma FlushKeepsSegs(st: ParseState, p: seq<Segment>)
    ensures forall b :: FlushSegment(st.(segs := p + st.segs), b) == FlushSegment(st, b).(segs := p + FlushSegment(st, b).segs)
  {
    hide Resolve;
    var r := Resolve(st.cur, st.piped);
    if r.Some? {
      assert (p + st.segs) + [r.value] == p + (st.segs + [r.value]);
    } else {
      assert (p + st.segs) + [] == p + (st.segs + []);
    }
  }

  /** A list is cut into the segments of its first part followed by those of the rest; only
      a single bar makes the rest read from a pipe. */
  lemma ListSplits(a: string, op: string, b: string, piped: bool)
    requires Closed(a) && IsListOp(op)
    ensures SegmentsFrom(a + " " + op + " " + b, piped) == SegmentsFrom(a, piped) + SegmentsFrom(b, op == "|")
  {
    hide Resolve, Lex, Closed;
    LexSplits(a, op, b);
    var st0 := ParseState([], [], piped);
    var x, y := Lex(a) + [Tok(op, false, true)], Lex(b);
    ParseConcat(st0, x, y);
    assert x[..|x| - 1] == Lex(a);
    var st := ParseToks(st0, x);
    assert st == FlushSegment(ParseToks(st0, Lex(a)), op == "|");
    var empty := ParseState([], [], op == "|");
    assert st == empty.(segs := st.segs + empty.segs);
    ParseKeepsSegs(empty, y, st.segs);
    FlushKeepsSegs(ParseToks(empty, y), st.segs);
  }

  /** Sequencing two commands with a semicolon concatenates their segments, flags and all. */
  lemma SemicolonSplits(a: string, b: string)
    requires Closed(a)
    ensures Segments(a + " ; " + b) == Segments(a) + Segments(b)
  {
    ListSplits(a, ";", b, false);
    assert a + " " + ";" + " " + b == a + " ; " + b;
  }

  function JoinSemicolons(cmds: seq<string>): string
    requires cmds != []
  {
    if |cmds| == 1 then cmds[0] else cmds[0] + " ; " + JoinSemicolons(cmds[1..])
  }

  function AllSegments(cmds: seq<string>): seq<Segment> {
    if cmds == [] then [] else Segments(cmds[0]) + AllSegments(cmds[1..])
  }

  /** The same for a list of any length. */
  lemma {:induction false} SequenceSplits(cmds: seq<string>)
    requires cmds != [] && forall i :: 0 <= i < |cmds| - 1 ==> Closed(cmds[i])
    ensures Segments(JoinSemicolons(cmds)) == AllSegments(cmds)
  {
    if |cmds| == 1 {
      assert AllSegments(cmds[1..]) == [];
      assert AllSegments(cmds) == Segments(cmds[0]);
    } else {
      SequenceSplits(cmds[1..]);
      SemicolonSplits(cmds[0], JoinSemicolons(cmds[1..]));
    }
  }

  /** cmdline.each: some segment that acts, and is not a mere announcement, satisfies f. */
  predicate Each(segs: seq<Segment>, f: Segment -> bool) {
    exists i :: 0 <= i < |segs| && !segs[i].inert && f(segs[i])
  }

  /** The first segment that satisfies f decides. */
  method EachLoop(segs: seq<Segment>, f: Segment -> bool) returns (b: bool)
    ensures b == Each(segs, f)
  {
    for i := 0 to |segs|
      invariant forall j :: 0 <= j < i ==> segs[j].inert || !f(segs[j])
    {
      if !segs[i].inert && f(segs[i]) { return true; }
    }
    return false;
  }

  /** No rule can be dodged or tripped by sequencing: it holds of a list exactly when it
      holds of one of the parts. */
  lemma EachSplits(a: string, b: string, f: Segment -> bool)
    requires Closed(a)
    ensures Each(Segments(a + " ; " + b), f) <==> Each(Segments(a), f) || Each(Segments(b), f)
  {
    hide Segments, Closed;
    SemicolonSplits(a, b);
    var x, y := Segments(a), Segments(b);
    var s := x + y;
    assert Segments(a + " ; " + b) == s;
    if Each(s, f) {
      var i :| 0 <= i < |s| && !s[i].inert && f(s[i]);
      assert if i < |x| then s[i] == x[i] else s[i] == y[i - |x|];
    }
    if Each(x, f) {
      var i :| 0 <= i < |x| && !x[i].inert && f(x[i]);
      assert s[i] == x[i];
    }
    if Each(y, f) {
      var i :| 0 <= i < |y| && !y[i].inert && f(y[i]);
      assert s[|x| + i] == y[i];
    }
  }

  /** The command word is an unquoted word that is neither an assignment nor a wrapper, and
      the arguments are exactly the words after it; quoted text never names a command. */
  lemma HeadIsNamed(toks: seq<Tok>, piped: bool)
    requires Resolve(toks, piped).Some?
    ensures var s := Resolve(toks, piped).value;
      || (s.head == "" && s.headRaw == "" && s.args == [])
      || exists h :: 0 <= h < |s.all| && !s.all[h].quoted && !IsAssignment(s.all[h].val)
           && s.head == Basename(s.all[h].val) && !IsWrapper(s.head) && s.headRaw == s.all[h].val && s.args == s.all[h + 1..]
  {
    var plain := Redirect(toks).0;
    HeadFound(plain, 0, false);
  }

  lemma {:induction false} HeadFound(plain: seq<Tok>, i: nat, sudo: bool)
    ensures var r := FindHead(plain, i, sudo).0;
      r.Some? ==> !plain[r.value].quoted && !IsAssignment(plain[r.value].val) && !IsWrapper(Basename(plain[r.value].val))
    decreases |plain| - i
  {
    if i < |plain| && !plain[i].quoted {
      if IsAssignment(plain[i].val) {
        HeadFound(plain, i + 1, sudo);
      } else if IsWrapper(Basename(plain[i].val)) {
        HeadFound(plain, SkipFlags(plain, i + 1), sudo || IsPrivileged(Basename(plain[i].val)));
      }
    }
  }
}
