/** What becomes of an enrollment token over a whole run of the server. */
module Tokens {
  import opened Wrappers
  import opened Wire
  import opened ServerTx

  type Log = seq<(Request, int)>

  /** The clock has left zero and never runs backwards. */
  predicate Clocked(log: Log) {
    && (forall i :: 0 <= i < |log| ==> log[i].1 > 0)
    && (forall i, j :: 0 <= i < j < |log| ==> log[i].1 <= log[j].1)
  }

  predicate Mints(r: Request, h: TokenHash) {
    r.ReqMint? && r.h == h
  }

  /** No token is drawn twice. */
  predicate MintedOnce(log: Log, h: TokenHash) {
    forall i, j :: 0 <= i < j < |log| && Mints(log[i].0, h) ==> !Mints(log[j].0, h)
  }

  function StateAt(log: Log, k: nat): State
    requires k <= |log|
  {
    Serve(EMPTY, log[..k])
  }

  lemma OneStep(log: Log, k: nat)
    requires k < |log|
    ensures StateAt(log, k + 1) == Handle(StateAt(log, k), log[k].0, log[k].1)
  {
    assert log[..k + 1][..k] == log[..k];
  }

  /** Request i registered a device on the strength of the token. */
  predicate Admits(log: Log, i: nat, h: TokenHash)
    requires i < |log|
  {
    var (r, now) := log[i];
    r.ReqRegister? && !r.bootstrap && r.h == h && RegisterReply(StateAt(log, i), r.id, h, false, now) == Done
  }

  predicate ClaimedIn(s: State, h: TokenHash) {
    h in s.tokens && s.tokens[h].claimedMs != 0
  }

  // ---- one request ----

  lemma DeadStaysDead(s: State, r: Request, h: TokenHash, t: int, now: int)
    requires t <= now && now > 0 && !Usable(s.tokens, h, t) && !Mints(r, h)
    ensures !Usable(Handle(s, r, now).tokens, h, now)
  {
    hide Rotate, PostDEK, Push, InitRecovery, Activate, RecoveryActivate, Revoke;
    OthersLeaveTokens(s, r, now);
  }

  lemma ClaimedStaysClaimed(s: State, r: Request, h: TokenHash, now: int)
    requires now > 0 && ClaimedIn(s, h) && !Mints(r, h)
    ensures ClaimedIn(Handle(s, r, now), h) && Handle(s, r, now).tokens[h] == s.tokens[h]
  {
    hide Rotate, PostDEK, Push, InitRecovery, Activate, RecoveryActivate, Revoke;
    OthersLeaveTokens(s, r, now);
  }

  lemma OthersLeaveTokens(s: State, r: Request, now: int)
    ensures !r.ReqMint? && !r.ReqRevokeToken? && !r.ReqRegister? ==> Handle(s, r, now).tokens == s.tokens
  {
  }

  /** A token is claimed by a registration that succeeds on it, and by nothing else. */
  lemma ClaimedByAdmission(log: Log, k: nat, h: TokenHash)
    requires Clocked(log) && k < |log| && !ClaimedIn(StateAt(log, k), h)
    ensures ClaimedIn(StateAt(log, k + 1), h) <==> Admits(log, k, h)
    ensures Admits(log, k, h) ==> StateAt(log, k + 1).tokens[h].claimedBy == log[k].0.id
                                  && log[k].0.id in StateAt(log, k + 1).devices
  {
    hide Rotate, PostDEK, Push, InitRecovery, Activate, RecoveryActivate, Revoke;
    OneStep(log, k);
    OthersLeaveTokens(StateAt(log, k), log[k].0, log[k].1);
  }

  // ---- runs ----

  /** Nothing is held under a hash that was never minted. */
  lemma {:induction false} HeldWasMinted(log: Log, k: nat, h: TokenHash)
    requires k <= |log| && h in StateAt(log, k).tokens
    ensures exists m :: 0 <= m < k && Mints(log[m].0, h)
  {
    hide Rotate, PostDEK, Push, InitRecovery, Activate, RecoveryActivate, Revoke;
    if k > 0 {
      OneStep(log, k - 1);
      OthersLeaveTokens(StateAt(log, k - 1), log[k - 1].0, log[k - 1].1);
      if !Mints(log[k - 1].0, h) {
        HeldWasMinted(log, k - 1, h);
      } else {
        assert Mints(log[k - 1].0, h);
      }
    }
  }

  /** A token that a request finds unusable stays so for every later one: claimed, revoked,
      expired, pruned. */
  lemma {:induction false} NeverUsableAgain(log: Log, h: TokenHash, i: nat, j: nat)
    requires Clocked(log) && i <= j < |log| && !Usable(StateAt(log, i).tokens, h, log[i].1)
    requires forall m :: i <= m < j ==> !Mints(log[m].0, h)
    ensures !Usable(StateAt(log, j).tokens, h, log[j].1)
    decreases j - i
  {
    hide Handle, Usable, StateAt;
    if i < j {
      NeverUsableAgain(log, h, i, j - 1);
      OneStep(log, j - 1);
      DeadStaysDead(StateAt(log, j - 1), log[j - 1].0, h, log[j - 1].1, log[j - 1].1);
      ExpiryIsFinal(StateAt(log, j).tokens, h, log[j - 1].1, log[j].1);
    }
  }

  lemma ExpiryIsFinal(tokens: map<TokenHash, Token>, h: TokenHash, t: int, now: int)
    requires t <= now && !Usable(tokens, h, t)
    ensures !Usable(tokens, h, now)
  {
  }

  /** A claimed token is kept for ever, with who claimed it. */
  lemma {:induction false} ClaimIsKept(log: Log, h: TokenHash, i: nat, j: nat)
    requires Clocked(log) && i <= j <= |log| && ClaimedIn(StateAt(log, i), h)
    requires forall m :: i <= m < j ==> !Mints(log[m].0, h)
    ensures ClaimedIn(StateAt(log, j), h) && StateAt(log, j).tokens[h] == StateAt(log, i).tokens[h]
    decreases j - i
  {
    hide Handle, StateAt;
    if i < j {
      ClaimIsKept(log, h, i, j - 1);
      OneStep(log, j - 1);
      ClaimedStaysClaimed(StateAt(log, j - 1), log[j - 1].0, h, log[j - 1].1);
    }
  }

  /** A token lets at most one device in, and from then on the server can always say which. */
  lemma AdmitsOneDevice(log: Log, h: TokenHash, i: nat, j: nat)
    requires Clocked(log) && MintedOnce(log, h) && i <= j < |log| && Admits(log, i, h)
    ensures Admits(log, j, h) ==> i == j
    ensures ClaimedIn(StateAt(log, j + 1), h) && StateAt(log, j + 1).tokens[h].claimedBy == log[i].0.id
  {
    HeldWasMinted(log, i, h);
    AdmittedWasOpen(log, i, h);
    ClaimedByAdmission(log, i, h);
    assert forall m :: i < m < |log| ==> !Mints(log[m].0, h);
    ClaimIsKept(log, h, i + 1, j + 1);
    if i < j {
      ClaimIsKept(log, h, i + 1, j);
    }
  }

  lemma AdmittedWasOpen(log: Log, i: nat, h: TokenHash)
    requires i < |log| && Admits(log, i, h)
    ensures Usable(StateAt(log, i).tokens, h, log[i].1) && !ClaimedIn(StateAt(log, i), h)
  {
  }

  /** A registration that fails spends nothing: the token is as usable as it was. */
  lemma FailureSpendsNothing(log: Log, i: nat)
    requires i < |log| && log[i].0.ReqRegister?
    requires RegisterReply(StateAt(log, i), log[i].0.id, log[i].0.h, log[i].0.bootstrap, log[i].1) != Done
    ensures StateAt(log, i + 1) == StateAt(log, i)
  {
    OneStep(log, i);
  }

  // ---- how long a token is good ----

  const HALF_HOUR_MS := 1_800_000
  const WEEK_MS := 604_800_000

  predicate Revokes(r: Request, h: TokenHash) {
    r.ReqRevokeToken? && r.h == h
  }

  /** The token as it stands at a time when it has been minted once, at request i. */
  ghost predicate Spent(log: Log, h: TokenHash, i: nat, k: nat) {
    exists m :: i < m < k && m < |log| && (Admits(log, m, h) || Revokes(log[m].0, h))
  }

  /** Minting drops what nobody claimed and expired a week ago, and leaves the rest as it is. */
  lemma MintKeeps(s: State, other: TokenHash, now: int, h: TokenHash)
    requires h != other
    ensures h in MintToken(s, other, now).tokens <==>
      h in s.tokens && (s.tokens[h].claimedMs != 0 || now < s.tokens[h].expiresMs + WEEK_MS)
    ensures h in MintToken(s, other, now).tokens ==> MintToken(s, other, now).tokens[h] == s.tokens[h]
  {
  }

  /** What one request does to a token that another one minted. */
  lemma TokenStep(s: State, r: Request, now: int, h: TokenHash)
    requires now > 0 && !Mints(r, h) && h in s.tokens && s.tokens[h].claimedMs == 0
    requires now < s.tokens[h].expiresMs + WEEK_MS
    ensures var s', t := Handle(s, r, now), s.tokens[h];
      && h in s'.tokens && s'.tokens[h].expiresMs == t.expiresMs
      && (if Revokes(r, h) then s'.tokens[h].revokedMs != 0
          else if r.ReqRegister? && !r.bootstrap && r.h == h && RegisterReply(s, r.id, h, false, now) == Done then s'.tokens[h].claimedMs != 0
          else s'.tokens[h] == t)
  {
    hide Rotate, PostDEK, Push, InitRecovery, Activate, RecoveryActivate, Revoke;
    OthersLeaveTokens(s, r, now);
  }

  /** Until it is used, revoked, or a week past its end, a token is held as it was minted. */
  lemma {:induction false} HeldAsMinted(log: Log, h: TokenHash, i: nat, k: nat)
    requires Clocked(log) && MintedOnce(log, h) && i < k <= |log| && Mints(log[i].0, h) && !Spent(log, h, i, k)
    requires forall m :: i <= m < k ==> log[m].1 < log[i].1 + HALF_HOUR_MS + WEEK_MS
    ensures h in StateAt(log, k).tokens && StateAt(log, k).tokens[h] == Token(log[i].1, log[i].1 + HALF_HOUR_MS, 0, "", 0)
    decreases k
  {
    hide StateAt, Handle, Admits, Mints, Revokes;
    OneStep(log, k - 1);
    if k == i + 1 {
      MintsFresh(StateAt(log, i), log[i].0, h, log[i].1);
    } else {
      NotSpentBefore(log, h, i, k);
      HeldAsMinted(log, h, i, k - 1);
      assert !Mints(log[k - 1].0, h);
      StepHolds(log, h, i, k - 1);
    }
  }

  lemma StepHolds(log: Log, h: TokenHash, i: nat, m: nat)
    requires Clocked(log) && i < m < |log| && !Mints(log[m].0, h) && log[m].1 < log[i].1 + HALF_HOUR_MS + WEEK_MS
    requires !Admits(log, m, h) && !Revokes(log[m].0, h)
    requires h in StateAt(log, m).tokens && StateAt(log, m).tokens[h] == Token(log[i].1, log[i].1 + HALF_HOUR_MS, 0, "", 0)
    ensures var s' := Handle(StateAt(log, m), log[m].0, log[m].1); h in s'.tokens && s'.tokens[h] == StateAt(log, m).tokens[h]
  {
    hide StateAt, Handle;
    TokenStep(StateAt(log, m), log[m].0, log[m].1, h);
  }

  lemma NotSpentBefore(log: Log, h: TokenHash, i: nat, k: nat)
    requires i < k - 1 < |log| && !Spent(log, h, i, k)
    ensures !Spent(log, h, i, k - 1) && !Admits(log, k - 1, h) && !Revokes(log[k - 1].0, h)
  {
    hide Admits, Revokes;
    var m := k - 1;
    assert Admits(log, m, h) || Revokes(log[m].0, h) ==> Spent(log, h, i, k);
    NotSpentEarlier(log, h, i, k - 1, k);
  }

  lemma NotSpentEarlier(log: Log, h: TokenHash, i: nat, k: nat, l: nat)
    requires !Spent(log, h, i, l) && k <= l
    ensures !Spent(log, h, i, k)
  {
    hide Admits, Revokes;
  }

  lemma MintsFresh(s: State, r: Request, h: TokenHash, now: int)
    requires Mints(r, h)
    ensures var s' := Handle(s, r, now); h in s'.tokens && s'.tokens[h] == Token(now, now + HALF_HOUR_MS, 0, "", 0)
  {
  }

  /** A request that revokes a token, or admits a device on it, leaves it unusable. */
  lemma SpentIsDead(log: Log, h: TokenHash, m: nat, t: int)
    requires Clocked(log) && m < |log| && (Admits(log, m, h) || Revokes(log[m].0, h))
    ensures !Usable(StateAt(log, m + 1).tokens, h, t)
  {
    hide Rotate, PostDEK, Push, InitRecovery, Activate, RecoveryActivate, Revoke, StateAt;
    OneStep(log, m);
  }

  /** A minted token lets a device in exactly until its half hour is over, it has let one in, or it
      has been revoked: whatever else the server is asked meanwhile. */
  lemma GoodUntilSpent(log: Log, h: TokenHash, i: nat, j: nat)
    requires Clocked(log) && MintedOnce(log, h) && i < j < |log| && Mints(log[i].0, h)
    ensures Usable(StateAt(log, j).tokens, h, log[j].1) <==> log[j].1 < log[i].1 + HALF_HOUR_MS && !Spent(log, h, i, j)
  {
    hide Handle, StateAt, Admits, Mints, Revokes;
    if Spent(log, h, i, j) {
      var m :| i < m < j && m < |log| && (Admits(log, m, h) || Revokes(log[m].0, h));
      SpentIsDead(log, h, m, log[m + 1].1);
      NeverUsableAgain(log, h, m + 1, j);
    } else if log[j].1 < log[i].1 + HALF_HOUR_MS {
      HeldAsMinted(log, h, i, j);
      FreshIsUsable(log[i].1, log[j].1, StateAt(log, j).tokens, h);
    } else {
      MintedEnds(log, h, i, j);
    }
  }

  lemma FreshIsUsable(minted: int, now: int, tokens: map<TokenHash, Token>, h: TokenHash)
    requires h in tokens && tokens[h] == Token(minted, minted + HALF_HOUR_MS, 0, "", 0)
    ensures Usable(tokens, h, now) <==> now < minted + HALF_HOUR_MS
  {
  }

  /** Whatever happens to it, a token keeps the end it was minted with. */
  lemma {:induction false} EndIsKept(log: Log, h: TokenHash, i: nat, k: nat)
    requires Clocked(log) && MintedOnce(log, h) && i < k <= |log| && Mints(log[i].0, h)
    ensures h in StateAt(log, k).tokens ==> StateAt(log, k).tokens[h].expiresMs == log[i].1 + HALF_HOUR_MS
    decreases k
  {
    hide StateAt, Mints, Rotate, PostDEK, Push, InitRecovery, Activate, RecoveryActivate, Revoke;
    OneStep(log, k - 1);
    if k == i + 1 {
      MintsFresh(StateAt(log, i), log[i].0, h, log[i].1);
    } else {
      EndIsKept(log, h, i, k - 1);
      assert !Mints(log[k - 1].0, h);
      EndStep(StateAt(log, k - 1), log[k - 1].0, log[k - 1].1, h);
    }
  }

  lemma EndStep(s: State, r: Request, now: int, h: TokenHash)
    requires !Mints(r, h)
    ensures h in Handle(s, r, now).tokens ==> h in s.tokens && Handle(s, r, now).tokens[h].expiresMs == s.tokens[h].expiresMs
  {
    hide Rotate, PostDEK, Push, InitRecovery, Activate, RecoveryActivate, Revoke;
    OthersLeaveTokens(s, r, now);
  }

  lemma MintedEnds(log: Log, h: TokenHash, i: nat, j: nat)
    requires Clocked(log) && MintedOnce(log, h) && i < j < |log| && Mints(log[i].0, h) && log[j].1 >= log[i].1 + HALF_HOUR_MS
    ensures !Usable(StateAt(log, j).tokens, h, log[j].1)
  {
    hide StateAt;
    EndIsKept(log, h, i, j);
  }
}
