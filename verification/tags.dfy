/** The tag index: which freeform tags are on which command and session, folded from the
    tag records of the log. */
module Tags {
  import opened Wire

  const REMOVE := "remove"

  type Labels = map<string, set<string>>

  /** Descriptions by tag name, and the tags on each command and each session. */
  datatype Index = Index(desc: map<string, string>, cmds: Labels, sessions: Labels)

  const EMPTY: Index := Index(map[], map[], map[])

  function Named(desc: map<string, string>, name: string, text: string): map<string, string> {
    if text != "" then desc[name := text]
    else if name !in desc then desc[name := ""]
    else desc
  }

  function On(m: Labels, target: string): set<string> {
    if target in m then m[target] else {}
  }

  /** A target left without tags is dropped. */
  function Put(m: Labels, target: string, name: string, op: string): Labels {
    if op != REMOVE then m[target := On(m, target) + {name}]
    else if On(m, target) - {name} == {} then m - {target}
    else m[target := On(m, target) - {name}]
  }

  /** Trimming and lower-casing of names is Unicode's business and stays abstract. */
  predicate Defines(r: Record, norm: string -> string) {
    r.kind == TYPE_TAG && norm(r.tagName) != ""
  }

  function ApplyTag(x: Index, r: Record, norm: string -> string): Index {
    if !Defines(r, norm) then x
    else
      var name := norm(r.tagName);
      var x := x.(desc := Named(x.desc, name, r.tagDesc));
      if r.targetId != "" then x.(cmds := Put(x.cmds, r.targetId, name, r.tagOp))
      else if r.session != "" then x.(sessions := Put(x.sessions, r.session, name, r.tagOp))
      else x
  }

  function Replay(x: Index, log: seq<Record>, norm: string -> string): Index {
    if log == [] then x else ApplyTag(Replay(x, log[..|log| - 1], norm), log[|log| - 1], norm)
  }

  // ---- what the log says, read without folding ----

  /** The ops that put a name on a command or take it off. */
  function OnCommand(target: string, name: string, norm: string -> string): Record -> bool {
    r => Defines(r, norm) && norm(r.tagName) == name && r.targetId != "" && r.targetId == target
  }

  /** A record with both a target and a session is about the target. */
  function OnSession(target: string, name: string, norm: string -> string): Record -> bool {
    r => Defines(r, norm) && norm(r.tagName) == name && r.targetId == "" && r.session != "" && r.session == target
  }

  function Carries(name: string, norm: string -> string): Record -> bool {
    r => Defines(r, norm) && norm(r.tagName) == name
  }

  function Describes(name: string, norm: string -> string): Record -> bool {
    r => Defines(r, norm) && norm(r.tagName) == name && r.tagDesc != ""
  }

  /** log[k] is the last record of that kind. */
  ghost predicate LastWhere(log: seq<Record>, k: int, p: Record -> bool) {
    0 <= k < |log| && p(log[k]) && forall j :: k < j < |log| ==> !p(log[j])
  }

  ghost predicate Somewhere(log: seq<Record>, p: Record -> bool) {
    exists k :: LastWhere(log, k, p)
  }

  ghost predicate NoEmptySets(x: Index) {
    (forall t <- x.cmds :: x.cmds[t] != {}) && (forall t <- x.sessions :: x.sessions[t] != {})
  }

  lemma {:induction false} LastExists(log: seq<Record>, i: nat, p: Record -> bool)
    requires i < |log| && p(log[i])
    ensures Somewhere(log, p)
    decreases |log| - i
  {
    if j :| i < j < |log| && p(log[j]) {
      LastExists(log, j, p);
    } else {
      assert LastWhere(log, i, p);
    }
  }

  /** How the last record of a kind moves when the log grows by one. */
  lemma LastOfLonger(log: seq<Record>, r: Record, p: Record -> bool)
    ensures p(r) ==> forall k :: LastWhere(log + [r], k, p) <==> k == |log|
    ensures !p(r) ==> forall k :: LastWhere(log + [r], k, p) <==> LastWhere(log, k, p)
    ensures Somewhere(log + [r], p) <==> p(r) || Somewhere(log, p)
  {
    var long := log + [r];
    assert forall j :: 0 <= j < |log| ==> long[j] == log[j];
    assert long[|log|] == r;
    if p(r) {
      assert LastWhere(long, |log|, p);
    } else {
      forall k ensures LastWhere(long, k, p) <==> LastWhere(log, k, p) {
        if LastWhere(log, k, p) {
          assert forall j :: k < j < |log| ==> !p(log[j]);
        }
        if LastWhere(long, k, p) {
          assert forall j :: k < j < |log| ==> long[j] == log[j];
        }
      }
    }
  }

  // ---- the fold says the same ----

  lemma {:induction false} NeverEmpty(x: Index, log: seq<Record>, norm: string -> string)
    requires NoEmptySets(x)
    ensures NoEmptySets(Replay(x, log, norm))
  {
    if log != [] {
      NeverEmpty(x, log[..|log| - 1], norm);
    }
  }

  /** What one record does to one label. */
  lemma LabelAfter(x: Index, r: Record, target: string, name: string, norm: string -> string)
    ensures name in On(ApplyTag(x, r, norm).cmds, target) <==>
            if OnCommand(target, name, norm)(r) then r.tagOp != REMOVE else name in On(x.cmds, target)
    ensures name in On(ApplyTag(x, r, norm).sessions, target) <==>
            if OnSession(target, name, norm)(r) then r.tagOp != REMOVE else name in On(x.sessions, target)
  {
  }

  /** The last op on a command and name decides; without one the starting index does. */
  lemma {:induction false} CommandVerdict(x: Index, log: seq<Record>, target: string, name: string, norm: string -> string)
    ensures var on := name in On(Replay(x, log, norm).cmds, target); var p := OnCommand(target, name, norm);
      && (forall k :: LastWhere(log, k, p) ==> (on <==> log[k].tagOp != REMOVE))
      && (!Somewhere(log, p) ==> (on <==> name in On(x.cmds, target)))
  {
    hide ApplyTag, OnCommand, On;
    if log != [] {
      var n := |log| - 1;
      CommandVerdict(x, log[..n], target, name, norm);
      assert log == log[..n] + [log[n]];
      LastOfLonger(log[..n], log[n], OnCommand(target, name, norm));
      LabelAfter(Replay(x, log[..n], norm), log[n], target, name, norm);
    }
  }

  lemma {:induction false} SessionVerdict(x: Index, log: seq<Record>, target: string, name: string, norm: string -> string)
    ensures var on := name in On(Replay(x, log, norm).sessions, target); var p := OnSession(target, name, norm);
      && (forall k :: LastWhere(log, k, p) ==> (on <==> log[k].tagOp != REMOVE))
      && (!Somewhere(log, p) ==> (on <==> name in On(x.sessions, target)))
  {
    hide ApplyTag, OnSession, On;
    if log != [] {
      var n := |log| - 1;
      SessionVerdict(x, log[..n], target, name, norm);
      assert log == log[..n] + [log[n]];
      LastOfLonger(log[..n], log[n], OnSession(target, name, norm));
      LabelAfter(Replay(x, log[..n], norm), log[n], target, name, norm);
    }
  }

  /** A name is known once a record carries it. */
  lemma {:induction false} NameVerdict(x: Index, log: seq<Record>, name: string, norm: string -> string)
    ensures name in Replay(x, log, norm).desc <==> name in x.desc || Somewhere(log, Carries(name, norm))
  {
    hide Put, On;
    if log != [] {
      var n := |log| - 1;
      NameVerdict(x, log[..n], name, norm);
      assert log == log[..n] + [log[n]];
      LastOfLonger(log[..n], log[n], Carries(name, norm));
    }
  }

  lemma TextAfter(x: Index, r: Record, name: string, norm: string -> string)
    ensures var desc := ApplyTag(x, r, norm).desc;
      && (name in x.desc ==> name in desc)
      && (if Describes(name, norm)(r) then name in desc && desc[name] == r.tagDesc
          else name in desc ==> desc[name] == if name in x.desc then x.desc[name] else "")
  {
    hide Put, On;
  }

  /** A name's text is the last non-empty one. */
  lemma {:induction false} DescriptionVerdict(x: Index, log: seq<Record>, name: string, norm: string -> string)
    ensures var desc := Replay(x, log, norm).desc; var p := Describes(name, norm);
      && (name in x.desc ==> name in desc)
      && (forall k :: LastWhere(log, k, p) ==> name in desc && desc[name] == log[k].tagDesc)
      && (!Somewhere(log, p) ==> name in desc ==> desc[name] == if name in x.desc then x.desc[name] else "")
  {
    hide ApplyTag, Describes;
    if log != [] {
      var n := |log| - 1;
      DescriptionVerdict(x, log[..n], name, norm);
      assert log == log[..n] + [log[n]];
      LastOfLonger(log[..n], log[n], Describes(name, norm));
      TextAfter(Replay(x, log[..n], norm), log[n], name, norm);
    }
  }

  /** After any log a tag is on a command, or a session, exactly when the last op on that
      pair was not a removal, and no target is kept with an empty set. */
  lemma LastOpDecides(log: seq<Record>, target: string, name: string, norm: string -> string)
    ensures name in On(Replay(EMPTY, log, norm).cmds, target) <==>
            exists k :: LastWhere(log, k, OnCommand(target, name, norm)) && log[k].tagOp != REMOVE
    ensures name in On(Replay(EMPTY, log, norm).sessions, target) <==>
            exists k :: LastWhere(log, k, OnSession(target, name, norm)) && log[k].tagOp != REMOVE
    ensures NoEmptySets(Replay(EMPTY, log, norm))
  {
    CommandVerdict(EMPTY, log, target, name, norm);
    SessionVerdict(EMPTY, log, target, name, norm);
    NeverEmpty(EMPTY, log, norm);
  }

  // ---- replaying records the log repeats ----

  lemma StillSomewhere(early: seq<Record>, log: seq<Record>, p: Record -> bool)
    requires forall r <- early :: r in log
    ensures Somewhere(early, p) ==> Somewhere(log, p)
  {
    if k :| LastWhere(early, k, p) {
      assert early[k] in log;
      var i :| 0 <= i < |log| && log[i] == early[k];
      LastExists(log, i, p);
    }
  }

  /** Records folded ahead of a log that holds them too leave no mark of their own. */
  lemma CommandAbsorbed(early: seq<Record>, log: seq<Record>, target: string, name: string, norm: string -> string)
    requires forall r <- early :: r in log
    ensures name in On(Replay(Replay(EMPTY, early, norm), log, norm).cmds, target) <==> name in On(Replay(EMPTY, log, norm).cmds, target)
    ensures name in On(Replay(Replay(EMPTY, early, norm), log, norm).sessions, target) <==> name in On(Replay(EMPTY, log, norm).sessions, target)
  {
    var x := Replay(EMPTY, early, norm);
    StillSomewhere(early, log, OnCommand(target, name, norm));
    StillSomewhere(early, log, OnSession(target, name, norm));
    CommandVerdict(EMPTY, early, target, name, norm);
    CommandVerdict(x, log, target, name, norm);
    CommandVerdict(EMPTY, log, target, name, norm);
    SessionVerdict(EMPTY, early, target, name, norm);
    SessionVerdict(x, log, target, name, norm);
    SessionVerdict(EMPTY, log, target, name, norm);
  }

  lemma DescriptionAbsorbed(early: seq<Record>, log: seq<Record>, name: string, norm: string -> string)
    requires forall r <- early :: r in log
    ensures var a := Replay(Replay(EMPTY, early, norm), log, norm).desc; var b := Replay(EMPTY, log, norm).desc;
      (name in a <==> name in b) && (name in a ==> a[name] == b[name])
  {
    var x := Replay(EMPTY, early, norm);
    StillSomewhere(early, log, Carries(name, norm));
    StillSomewhere(early, log, Describes(name, norm));
    NameVerdict(EMPTY, early, name, norm);
    NameVerdict(x, log, name, norm);
    NameVerdict(EMPTY, log, name, norm);
    DescriptionVerdict(EMPTY, early, name, norm);
    DescriptionVerdict(x, log, name, norm);
    DescriptionVerdict(EMPTY, log, name, norm);
  }

  lemma SameLabels(a: Labels, b: Labels)
    requires forall t <- a :: a[t] != {}
    requires forall t <- b :: b[t] != {}
    requires forall t, n :: n in On(a, t) <==> n in On(b, t)
    ensures a == b
  {
    forall t ensures t in a <==> t in b {
      if t in a {
        var n :| n in a[t];
        assert n in On(a, t);
        assert n in On(b, t);
      }
      if t in b {
        var n :| n in b[t];
        assert n in On(b, t);
        assert n in On(a, t);
      }
    }
    forall t | t in a && t in b ensures a[t] == b[t] {
      forall n ensures n in a[t] <==> n in b[t] {
        assert n in On(a, t) <==> n in On(b, t);
      }
    }
  }

  /** Folding any records of a log, in any order and as often as one likes, and then the
      whole log gives the same index as the whole log alone: the daemon's start-up order,
      tail first, is harmless. */
  lemma ReplayAbsorbs(early: seq<Record>, log: seq<Record>, norm: string -> string)
    requires forall r <- early :: r in log
    ensures Replay(Replay(EMPTY, early, norm), log, norm) == Replay(EMPTY, log, norm)
  {
    var a := Replay(Replay(EMPTY, early, norm), log, norm);
    var b := Replay(EMPTY, log, norm);
    NeverEmpty(EMPTY, early, norm);
    NeverEmpty(Replay(EMPTY, early, norm), log, norm);
    NeverEmpty(EMPTY, log, norm);
    forall t, n ensures (n in On(a.cmds, t) <==> n in On(b.cmds, t)) && (n in On(a.sessions, t) <==> n in On(b.sessions, t)) {
      CommandAbsorbed(early, log, t, n, norm);
    }
    forall n ensures (n in a.desc <==> n in b.desc) && (n in a.desc ==> a.desc[n] == b.desc[n]) {
      DescriptionAbsorbed(early, log, n, norm);
    }
    SameLabels(a.cmds, b.cmds);
    SameLabels(a.sessions, b.sessions);
    assert a.desc == b.desc;
  }

  lemma {:induction false} ReplayConcat(x: Index, a: seq<Record>, b: seq<Record>, norm: string -> string)
    ensures Replay(x, a + b, norm) == Replay(Replay(x, a, norm), b, norm)
  {
    if b == [] {
      assert a + b == a;
    } else {
      assert (a + b)[..|a + b| - 1] == a + b[..|b| - 1];
      ReplayConcat(x, a, b[..|b| - 1], norm);
    }
  }

  // ---- reading the index ----

  predicate CwdUnder(cwd: string, prefix: string, trimmed: string) {
    prefix != "" && cwd != "" && (cwd == prefix || trimmed + "/" <= cwd)
  }

  function TrimSlashes(s: string): string {
    if s != "" && s[|s| - 1] == '/' then TrimSlashes(s[..|s| - 1]) else s
  }

  /** The tags a row carries: its command's, its session's, and the matching rules'. */
  function Effective(x: Index, auto: map<string, string>, r: Record, norm: string -> string): set<string> {
    On(x.cmds, r.id) + On(x.sessions, r.session)
    + set p | p in auto && CwdUnder(r.cwd, p, TrimSlashes(p)) :: norm(auto[p])
  }

  /** Trailing slashes go, and only those. */
  lemma {:induction false} TrimmedIs(base: string, slashes: string)
    requires (base == "" || base[|base| - 1] != '/') && forall i :: 0 <= i < |slashes| ==> slashes[i] == '/'
    ensures TrimSlashes(base + slashes) == base
    decreases |slashes|
  {
    if slashes == "" {
      assert base + slashes == base;
    } else {
      assert (base + slashes)[..|base + slashes| - 1] == base + slashes[..|slashes| - 1];
      TrimmedIs(base, slashes[..|slashes| - 1]);
    }
  }

  /** A directory rule, whatever slashes it ends in, covers that directory as written and every
      directory below it, and no directory that only starts with the same letters. */
  lemma UnderIs(cwd: string, base: string, slashes: string)
    requires (base == "" || base[|base| - 1] != '/') && forall i :: 0 <= i < |slashes| ==> slashes[i] == '/'
    ensures var prefix := base + slashes;
      CwdUnder(cwd, prefix, TrimSlashes(prefix)) <==>
        prefix != "" && cwd != "" && (cwd == prefix || (|cwd| > |base| && cwd[..|base|] == base && cwd[|base|] == '/'))
  {
    TrimmedIs(base, slashes);
    if |cwd| > |base| && cwd[..|base|] == base && cwd[|base|] == '/' {
      assert cwd[..|base| + 1] == base + "/";
    }
    if base + "/" <= cwd {
      assert cwd[..|base| + 1] == base + "/";
      assert cwd[..|base|] == (base + "/")[..|base|] == base && cwd[|base|] == (base + "/")[|base|];
    }
  }

  /** The last record about a pair put the tag there. */
  ghost predicate Stands(log: seq<Record>, p: Record -> bool) {
    exists k :: LastWhere(log, k, p) && log[k].tagOp != "remove"
  }

  /** The tags a row carries after any log: those whose last word on the command or on its
      session is not a removal, and those of the rules its directory is under. */
  lemma RowCarries(log: seq<Record>, auto: map<string, string>, r: Record, name: string, norm: string -> string)
    ensures name in Effective(Replay(EMPTY, log, norm), auto, r, norm) <==>
      || Stands(log, OnCommand(r.id, name, norm))
      || Stands(log, OnSession(r.session, name, norm))
      || exists p :: p in auto && CwdUnder(r.cwd, p, TrimSlashes(p)) && norm(auto[p]) == name
  {
    LastOpDecides(log, r.id, name, norm);
    LastOpDecides(log, r.session, name, norm);
  }

  class TagIndex {
    const norm: string -> string
    var desc: map<string, string>
    var cmdTags: Labels
    var sessTags: Labels

    constructor (norm: string -> string)
      ensures State() == EMPTY && this.norm == norm
    {
      this.norm := norm;
      desc, cmdTags, sessTags := map[], map[], map[];
    }

    function State(): Index
      reads this
    {
      Index(desc, cmdTags, sessTags)
    }

    method Apply(r: Record)
      modifies this
      ensures State() == ApplyTag(old(State()), r, norm)
    {
      if r.kind != TYPE_TAG { return; }
      var name := norm(r.tagName);
      if name == "" { return; }
      if r.tagDesc != "" {
        desc := desc[name := r.tagDesc];
      } else if name !in desc {
        desc := desc[name := ""];
      }
      if r.targetId != "" {
        cmdTags := Label(cmdTags, r.targetId, name, r.tagOp);
      } else if r.session != "" {
        sessTags := Label(sessTags, r.session, name, r.tagOp);
      }
    }

    static method Label(m: Labels, target: string, name: string, op: string) returns (m': Labels)
      ensures m' == Put(m, target, name, op)
    {
      m' := m;
      if target !in m' {
        m' := m'[target := {}];
      }
      if op == REMOVE {
        m' := m'[target := m'[target] - {name}];
        if m'[target] == {} {
          m' := m' - {target};
        }
        return;
      }
      m' := m'[target := m'[target] + {name}];
    }

    /** The filter and the resolved list never disagree; an empty name matches every row. */
    method Has(r: Record, name: string, auto: map<string, string>) returns (b: bool)
      ensures b <==> norm(name) == "" || norm(name) in Effective(State(), auto, r, norm)
    {
      var n := norm(name);
      if n == "" { return true; }
      if n in On(cmdTags, r.id) || n in On(sessTags, r.session) { return true; }
      var rest := auto.Keys;
      while rest != {}
        invariant rest <= auto.Keys
        invariant forall p <- auto.Keys - rest :: !(norm(auto[p]) == n && CwdUnder(r.cwd, p, TrimSlashes(p)))
        decreases |rest|
      {
        var p :| p in rest;
        if norm(auto[p]) == n && CwdUnder(r.cwd, p, TrimSlashes(p)) { return true; }
        rest := rest - {p};
      }
      return false;
    }
  }
}
