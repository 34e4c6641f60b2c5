/** What a login request achieves, as rules on the request and on what is stored: who is
    logged in or reused, which credentials are honoured and which refused, how long they can
    be used, and that an accepted request hands out what it promised. The counterpart of the
    guards in LoginCredentials. */
module LoginRules {
  import opened Prelude
  import opened ExpiringStore
  import opened SessionStore
  import opened LoginFlow
  import opened LoginClaims
  import opened LoginLineage
  import opened LoginCredentials

  // ----------------------------------------------------------------- /authorize

  /** The request can be served: a known response type, a challenge of 43 to 128 characters
      if any (section 4.1 of RFC 7636), and for token responses a client and, with an
      id_token, a nonce. */
  predicate Acceptable(r: Request)
    requires r.Authorize?
  {
    && r.validType && (r.challenge == "" || 43 <= |r.challenge| <= 128)
    && (r.token ==> r.clientID != "") && (r.idToken ==> r.clientID != "" && r.nonce != "")
    && !(r.mintFails && (r.token || r.idToken))
  }

  /** The browser's session may answer for it. */
  predicate Reusable(r: Request, l: Login)
    requires r.Authorize?
  {
    r.promptNone || (!r.promptLogin && (r.hint == "" || r.hint == l.subject))
  }

  predicate IsRefused(j: Job) {
    j.phase.Finished? && j.honoured.None? && j.login.None? && j.idToken.None?
  }

  lemma LookupDecides(w: World, r: Request)
    requires r.Authorize?
    ensures var j := AfterLookup(LiveLogin(w, r.cookie), r);
            var live := r.cookie.Some? && r.cookie.value in w.logins.entries;
            && j.req == r
            && (if !Acceptable(r) || (!live && r.promptNone) then IsRefused(j)
                else if live && Reusable(r, w.logins.entries[r.cookie.value]) then
                  && j.honoured == Some(SessionId(r.cookie.value)) && j.login.None?
                  && j.phase == if r.code then Recording(w.logins.entries[r.cookie.value]) else Answering
                else
                  var l := Login(if r.hint != "" then r.hint else "auth0|mock-user", r.now);
                  && j.honoured.None? && j.login == Some(SubjectRecord(l))
                  && j.phase == if r.code then Recording(l) else Rechecking(l))
            && (!IsRefused(j) ==> j.idToken.Some? == r.idToken)
  {
  }

  /** Who an /authorize request is for, in every run (section 3.1.2.1 of OpenID Connect Core
      1.0): a live session answers exactly if prompt and login_hint let it, and then the
      code and the id_token are for its user and login instant; otherwise the hinted or the
      default user logs in now, and prompt=none without a session logs nobody in. */
  lemma AuthorizeDecides(cfg: Config, states: seq<State>, steps: seq<Step>, i: nat, t: nat)
    requires Execution(cfg, states, steps) && i < |steps| && steps[i] == Advance(t) && t in states[i].jobs
    requires states[i].jobs[t].phase.Arrived? && states[i].jobs[t].req.Authorize?
    ensures t in states[i + 1].jobs
    ensures var r, j, logins := states[i].jobs[t].req, states[i + 1].jobs[t], states[i].world.logins.entries;
            var live := r.cookie.Some? && r.cookie.value in logins;
            && (if !Acceptable(r) || (!live && r.promptNone) then IsRefused(j)
                else
                  var reuse := live && Reusable(r, logins[r.cookie.value]);
                  var l := if reuse then logins[r.cookie.value]
                           else Login(if r.hint != "" then r.hint else "auth0|mock-user", r.now);
                  && (j.honoured == if reuse then Some(SessionId(r.cookie.value)) else None)
                  && (j.login == if reuse then None else Some(SubjectRecord(l)))
                  && j.idToken.Some? == r.idToken && (r.idToken ==> Carries(j.idToken.value, SubjectRecord(l)))
                  && (r.code ==> j.phase == Recording(l)))
  {
    assert StepAt(cfg, states, steps, i);
    var r := states[i].jobs[t].req;
    LookupDecides(states[i].world, r);
    TokenOfLookup(LiveLogin(states[i].world, r.cookie), r);
  }

  lemma TokenOfLookup(live: Option<Login>, r: Request)
    requires r.Authorize? && (live.Some? ==> r.cookie.Some?)
    ensures var j := AfterLookup(live, r);
            j.idToken.Some? ==> !Resolve(live, r).LoginRequired?
                                && Carries(j.idToken.value, SubjectRecord(Resolve(live, r).login))
  {
    var j := AfterLookup(live, r);
    if j.idToken.Some? {
      FrontTokenCarries(r, Resolve(live, r).login);
    }
  }

  /** The code stored next is for that user and that instant. */
  lemma CodeIsForLogin(cfg: Config, states: seq<State>, steps: seq<Step>, i: nat, t: nat)
    requires Execution(cfg, states, steps) && i < |steps| && steps[i] == Advance(t) && t in states[i].jobs
    requires states[i].jobs[t].phase.Recording?
    ensures var r, l, codes := states[i].jobs[t].req, states[i].jobs[t].phase.login, states[i + 1].world.codes;
            && r.newCode in codes && codes[r.newCode].expiresAt == r.storeNow + 10 * MINUTE
            && codes[r.newCode].value.loginHint == l.subject && codes[r.newCode].value.authTime == l.authTime
  {
    assert StepAt(cfg, states, steps, i);
    InvAlways(cfg, states, steps, i);
    assert JobInv(Owner(states[i].log), states[i].jobs[t]);
  }

  // ------------------------------------------------------------- which codes are honoured

  lemma {:induction false} IssuedIn(log: seq<Turn>, k: nat)
    requires k < |log| && log[k].issued.Some?
    ensures log[k].issued.value in Issued(log)
  {
    if k < |log| - 1 {
      IssuedIn(log[..|log| - 1], k);
    }
  }

  lemma {:induction false} LogGrows(cfg: Config, states: seq<State>, steps: seq<Step>, i: nat)
    requires Execution(cfg, states, steps) && i < |steps|
    ensures var s := states[i];
            if steps[i].Advance? then
              && |states[i + 1].log| == |s.log| + 1 && states[i + 1].log[..|s.log|] == s.log
              && var c := states[i + 1].log[|s.log|].issued; (c.Some? ==> c.value !in Issued(s.log))
            else states[i + 1].log == s.log
  {
    assert StepAt(cfg, states, steps, i);
  }

  /** No credential is ever issued twice. */
  lemma {:induction false} IssuedOnce(cfg: Config, states: seq<State>, steps: seq<Step>, i: nat, k: nat, m: nat)
    requires Execution(cfg, states, steps) && i < |states| && k < m < |states[i].log|
    ensures states[i].log[k].issued.Some? ==> states[i].log[k].issued != states[i].log[m].issued
  {
    assert i > 0;
    LogGrows(cfg, states, steps, i - 1);
    var log := states[i - 1].log;
    if m < |log| {
      IssuedOnce(cfg, states, steps, i - 1, k, m);
      assert states[i].log[..|log|][k] == log[k] && states[i].log[..|log|][m] == log[m];
    } else if states[i].log[k].issued.Some? {
      assert states[i].log[..|log|][k] == log[k];
      IssuedIn(log, k);
    }
  }

  lemma SameIssue(cfg: Config, states: seq<State>, steps: seq<Step>, i: nat, k: nat, m: nat)
    requires Execution(cfg, states, steps) && i < |states| && k < |states[i].log| && m < |states[i].log|
    requires states[i].log[k].issued.Some? && states[i].log[k].issued == states[i].log[m].issued
    ensures k == m
  {
    if k < m {
      IssuedOnce(cfg, states, steps, i, k, m);
    } else if m < k {
      IssuedOnce(cfg, states, steps, i, m, k);
    }
  }

  /** The stored entry of a code is the one its /authorize turn stored. */
  lemma EntryOfIssue(cfg: Config, states: seq<State>, steps: seq<Step>, i: nat, k: nat, id: string)
    requires Execution(cfg, states, steps) && i < |states| && id in states[i].world.codes
    requires k < |states[i].log| && states[i].log[k].issued == Some(Code(id))
    ensures IssuesCode(states[i].log[k], id, states[i].world.codes[id])
  {
    SourceAlways(cfg, states, steps, i);
    var log, e := states[i].log, states[i].world.codes[id];
    assert CodeFrom(log, id, e);
    var m :| 0 <= m < |log| && IssuesCode(log[m], id, e);
    SameIssue(cfg, states, steps, i, k, m);
  }

  /** Consume and the PKCE check as a rule on the entry. */
  lemma ConsumeDecides(cfg: Config, w: World, r: Request)
    requires r.Exchange? && r.presented in w.codes && r.presented != ""
    ensures var e, j := w.codes[r.presented], Begin(cfg, w, r).1;
            && (j.honoured == Some(Code(r.presented)) <==>
                  && r.takeNow <= e.expiresAt && !r.mintFails
                  && if e.value.challenge == "" then r.verifier == ""
                     else Verify(cfg, e.value.hashMethod, e.value.challenge, r.verifier))
            && (j.honoured.Some? ==> j.login.None? && j.phase.Granting? && j.idToken.Some?)
  {
  }

  /** Exactly which exchanges of a stored code succeed: those within ten minutes of the
      /authorize turn that issued it, whose verifier answers that turn's challenge, or which
      bring none when there was none, and whose tokens can be signed. */
  lemma CodesAreHonouredIff(cfg: Config, states: seq<State>, steps: seq<Step>, i: nat, t: nat, k: nat)
    requires Execution(cfg, states, steps) && i < |steps| && steps[i] == Advance(t) && t in states[i].jobs
    requires states[i].jobs[t].phase.Arrived? && states[i].jobs[t].req.Exchange?
    requires states[i].jobs[t].req.presented != "" && states[i].jobs[t].req.presented in states[i].world.codes
    requires k < |states[i].log| && states[i].log[k].issued == Some(Code(states[i].jobs[t].req.presented))
    ensures t in states[i + 1].jobs && states[i].log[k].job.req.Authorize?
    ensures var r, j, issue := states[i].jobs[t].req, states[i + 1].jobs[t], states[i].log[k].job.req;
            && (j.honoured == Some(Code(r.presented)) <==>
                  && r.takeNow <= issue.storeNow + 10 * MINUTE && !r.mintFails
                  && if issue.challenge == "" then r.verifier == "" else AnswersChallenge(cfg, issue, r.verifier))
            && (j.honoured.Some? ==> j.login.None? && j.phase.Granting? && j.idToken.Some?)
  {
    assert StepAt(cfg, states, steps, i);
    var r, issue := states[i].jobs[t].req, states[i].log[k].job.req;
    EntryOfIssue(cfg, states, steps, i, k, r.presented);
    ConsumeDecides(cfg, states[i].world, r);
    if issue.challenge != "" {
      AnswerIsVerified(cfg, issue, r.verifier);
    }
  }

  /** A code the store does not hold: refused with a verifier, and without one the default
      user logs in now. */
  lemma UnknownCode(cfg: Config, w: World, r: Request)
    requires r.Exchange? && r.presented !in w.codes
    ensures var j := Begin(cfg, w, r).1;
            if r.mintFails || (r.presented != "" && r.verifier != "") then IsRefused(j)
            else j.honoured.None? && j.login == Some(SubjectRecord(Login("auth0|mock-user", r.now))) && j.idToken.Some?
  {
  }

  /** Exactly which refreshes succeed: those of a stored refresh token, while signing works. */
  lemma RefreshesAreHonouredIff(cfg: Config, w: World, r: Request)
    requires r.Refresh?
    ensures var j := Begin(cfg, w, r).1;
            if r.presented in w.refresh.entries && !r.mintFails
            then j.honoured == Some(RefreshToken(r.presented)) && j.login.None? && j.idToken.Some? && j.phase.Granting?
            else IsRefused(j)
  {
  }

  /** Exactly which second factors succeed: a stored mfa_token in time, with one of the fixed
      challenges, while signing works. */
  lemma MfaTokensAreHonouredIff(cfg: Config, w: World, r: Request)
    requires r.MfaGrant?
    ensures var j := Begin(cfg, w, r).1;
            if && r.presented != "" && r.presented in w.mfaTokens && r.takeNow <= w.mfaTokens[r.presented].expiresAt
               && CannedFactor(r.factor) && !r.mintFails
            then j.honoured == Some(MfaToken(r.presented)) && j.login.Some? && j.idToken.Some? && j.phase.Granting?
            else IsRefused(j)
  {
  }

  // ---------------------------------------------------------------------- first factors

  /** Who a password login is: the username, or a generated user without one. With
      enforcement on it gets an mfa_token for just that user, otherwise tokens whose email
      and name are the user. A realm may not be named and empty. */
  lemma PasswordLogsIn(cfg: Config, w: World, r: Request)
    requires r.Password?
    ensures var j := Begin(cfg, w, r).1;
            var subject := if r.username != "" then r.username else r.generated;
            var realm := if r.realm.Some? then r.realm.value else "";
            if r.realm == Some("") || (!w.mfaRequired && r.mintFails) then IsRefused(j)
            else if w.mfaRequired then
              j.idToken.None? && j.phase == Challenging(MfaContext(r.clientID, subject, realm, None))
            else
              && j.honoured.None? && j.login.Some? && j.login.value.subject == subject
              && j.login.value.realm == realm && j.login.value.authTime == r.now
              && "email" in j.login.value.profile && j.login.value.profile["email"] == S(subject)
              && "name" in j.login.value.profile && j.login.value.profile["name"] == S(subject)
              && NamesClient(j.idToken, r.clientID)
  {
    if !w.mfaRequired {
      var ctx := ContextOf(cfg, r);
      ContextIsProper(cfg, r);
      LoginNamesClient(ctx, r.now);
      PasswordProfile(ctx.subject, ctx.clientID, ctx.realm, r.now);
    }
  }

  lemma PasswordProfile(subject: string, clientID: string, realm: string, now: int)
    ensures var p := ProfileOf(PasswordExtra(subject, clientID, realm, now));
            "email" in p && p["email"] == S(subject) && "name" in p && p["name"] == S(subject)
  {
    assert "email"[0] != 'a' && "email"[0] != 'c' && "name"[0] != 'a' && "name"[0] != 'c';
  }

  /** A passwordless login needs a client, an identifier, a known connection and the fixed
      code. The same identifier in any ASCII case is the same user, and a phone login is known
      by its number. */
  lemma PasswordlessLogsIn(cfg: Config, w: World, r: Request)
    requires r.Passwordless?
    ensures var j := Begin(cfg, w, r).1;
            var subject := r.via + "|" + cfg.digest(Lower(r.identifier));
            if || r.clientID == "" || r.identifier == "" || (r.via != "email" && r.via != "sms") || r.otp != "000000"
               || (!w.mfaRequired && r.mintFails) then IsRefused(j)
            else if w.mfaRequired then
              && j.idToken.None? && j.phase.Challenging? && j.phase.ctx.subject == subject
              && j.phase.ctx.realm == r.via && j.phase.ctx.clientID == r.clientID
            else
              && j.honoured.None? && j.login.Some? && j.login.value.subject == subject
              && j.login.value.realm == r.via && j.login.value.authTime == r.now && NamesClient(j.idToken, r.clientID)
              && (r.via == "sms" ==> "phone_number" in j.login.value.profile
                                     && j.login.value.profile["phone_number"] == S(r.identifier))
              && (r.via == "email" ==> j.login.value.profile == DeriveProfile(r.identifier))
  {
    if !w.mfaRequired {
      var ctx := ContextOf(cfg, r);
      ContextIsProper(cfg, r);
      LoginNamesClient(ctx, r.now);
      PasswordlessProfile(cfg, r);
    }
  }

  lemma PasswordlessProfile(cfg: Config, r: Request)
    requires r.Passwordless?
    ensures var ctx := ContextOf(cfg, r);
            ctx.profile.Some? && ProfileOf(ExtraOf(ctx, r.now)) == ctx.profile.value
  {
    var ctx := ContextOf(cfg, r);
    ContextIsProper(cfg, r);
    LoginExtrasRecord(ctx.clientID, LoginRecord(ctx.subject, r.now, ctx.realm, ctx.profile.value));
    MintedCarries(ctx.clientID, LoginExtras(ctx.clientID, ctx.realm, r.now),
                  LoginRecord(ctx.subject, r.now, ctx.realm, ctx.profile.value));
  }

  lemma LowerForgetsCase(a: string, b: string)
    requires |a| == |b| && forall i :: 0 <= i < |a| ==> a[i] == b[i] || ('A' <= a[i] <= 'Z' && b[i] == a[i] - 'A' + 'a')
    ensures Lower(a) == Lower(b)
  {
  }

  // --------------------------------------------------- how long credentials can be used

  /** An issued credential can be used at once. */
  lemma IssuedIsHeld(cfg: Config, states: seq<State>, steps: seq<Step>, i: nat, t: nat, c: Credential)
    requires Execution(cfg, states, steps) && i < |steps| && steps[i] == Advance(t) && t in states[i].jobs
    requires !states[i].jobs[t].phase.Finished? && Perform(cfg, states[i].world, states[i].jobs[t]).issued == Some(c)
    ensures Held(states[i + 1].world, c) && c in Issued(states[i + 1].log)
  {
    assert StepAt(cfg, states, steps, i);
    IssuedStep(cfg, states[i], steps[i]);
    PerformHolds(cfg, states[i].world, states[i].jobs[t], c);
  }

  lemma PerformHolds(cfg: Config, w: World, j: Job, c: Credential)
    requires !j.phase.Finished? && Perform(cfg, w, j).issued == Some(c)
    ensures Held(Perform(cfg, w, j).world, c)
  {
  }

  /** A challenged first factor gets an mfa_token for its own user, a new login a session for
      its subject and instant, and a grant a refresh token that remembers it. */
  lemma StoredAsPromised(cfg: Config, states: seq<State>, steps: seq<Step>, i: nat, t: nat)
    requires Execution(cfg, states, steps) && i < |steps| && steps[i] == Advance(t) && t in states[i].jobs
    ensures var j, w := states[i].jobs[t], states[i + 1].world;
            && (j.phase.Challenging? ==>
                  && j.req.newMfa in w.mfaTokens && w.mfaTokens[j.req.newMfa].value == ContextOf(cfg, j.req)
                  && w.mfaTokens[j.req.newMfa].expiresAt == j.req.storeNow + 10 * MINUTE)
            && (j.phase.StartingNew? ==>
                  && j.req.newSession in w.logins.entries && w.logins.entries[j.req.newSession] == j.phase.login
                  && j.login == Some(SubjectRecord(j.phase.login)))
            && (j.phase.Granting? ==>
                  j.req.newRefresh in w.refresh.entries && w.refresh.entries[j.req.newRefresh] == j.phase.grant)
  {
    assert StepAt(cfg, states, steps, i);
    SourceAlways(cfg, states, steps, i);
    InvAlways(cfg, states, steps, i);
    HandedOutAlways(cfg, states, steps, i);
    assert JobFacts(cfg, states[i].jobs[t]) && JobInv(Owner(states[i].log), states[i].jobs[t]);
    assert OnCourse(states[i].jobs[t]);
  }

  /** What takes this stored credential away: presenting it if it is single-use, a sweep after
      its expiry, ending the session, making room for a newer one when 10000 are stored, and
      an admin reset. */
  predicate Takes(s: State, step: Step, c: Credential)
    requires Held(s.world, c)
  {
    var j := if step.Advance? && step.t in s.jobs then Some(s.jobs[step.t]) else None;
    match c
    case Code(id) =>
      && j.Some?
      && (|| (j.value.phase.Arrived? && Presented(j.value.req) == Some(c))
          || (j.value.phase.Recording? && j.value.req.sweepNow > s.world.codes[id].expiresAt))
    case MfaToken(id) =>
      || step.ClearMfaTokens?
      || (&& j.Some?
          && (|| (j.value.phase.Arrived? && Presented(j.value.req) == Some(c))
              || (j.value.phase.Challenging? && j.value.req.sweepNow > s.world.mfaTokens[id].expiresAt)))
    case SessionId(id) =>
      || step.ClearSessions?
      || (&& j.Some?
          && (|| ((j.value.phase.EndingOld? || j.value.phase.SigningOff?) && CookieOf(j.value.req) == Some(id))
              || (j.value.phase.StartingNew? && IsOldest(s.world.logins.order, id))))
    case RefreshToken(id) =>
      || step.ClearSessions?
      || (j.Some? && j.value.phase.Granting? && IsOldest(s.world.refresh.order, id))
  }

  predicate IsOldest(order: seq<string>, id: string) {
    |order| >= 10000 && order[0] == id
  }

  lemma HeldUntilTaken(cfg: Config, s: State, step: Step, c: Credential)
    requires Enabled(cfg, s, step) && Held(s.world, c) && !Takes(s, step, c)
    ensures Held(Next(cfg, s, step).world, c)
  {
    if step.Advance? {
      PerformKeepsHeld(cfg, s, step.t, c);
    }
  }

  lemma PerformKeepsHeld(cfg: Config, s: State, t: nat, c: Credential)
    requires t in s.jobs && !s.jobs[t].phase.Finished? && Held(s.world, c) && !Takes(s, Advance(t), c)
    ensures Held(Perform(cfg, s.world, s.jobs[t]).world, c)
  {
  }

  /** Between two moments a stored credential stays stored unless one of these takes it, so a
      code can be exchanged for as long as nobody has presented it and it has not expired. */
  lemma {:induction false} LeavesForACause(cfg: Config, states: seq<State>, steps: seq<Step>, i: nat, j: nat,
                                           c: Credential) returns (m: nat)
    requires Execution(cfg, states, steps) && i <= j < |states|
    requires Held(states[i].world, c) && !Held(states[j].world, c)
    ensures i <= m < j && Held(states[m].world, c) && Takes(states[m], steps[m], c)
    decreases j
  {
    if Held(states[j - 1].world, c) {
      m := j - 1;
      assert StepAt(cfg, states, steps, m);
      if !Takes(states[m], steps[m], c) {
        HeldUntilTaken(cfg, states[m], steps[m], c);
      }
    } else {
      m := LeavesForACause(cfg, states, steps, i, j - 1, c);
    }
  }

  /** An admin reset ends every session and refresh token, and drops every mfa_token, for
      good; codes survive it. */
  lemma ResetForgets(cfg: Config, states: seq<State>, steps: seq<Step>, i: nat, j: nat, c: Credential)
    requires Execution(cfg, states, steps) && i < j < |states| && c in Issued(states[i].log)
    requires steps[i].ClearSessions? || steps[i].ClearMfaTokens?
    ensures steps[i].ClearSessions? && (c.SessionId? || c.RefreshToken?) ==> !Held(states[j].world, c)
    ensures steps[i].ClearMfaTokens? && c.MfaToken? ==> !Held(states[j].world, c)
    ensures c.Code? ==> Held(states[i + 1].world, c) == Held(states[i].world, c)
  {
    assert StepAt(cfg, states, steps, i);
    if !Held(states[i + 1].world, c) {
      GoneForever(cfg, states, steps, i + 1, j, c);
    }
  }

  /** Enforcement is what an admin last set it to. */
  lemma OnlyAdminsEnforce(cfg: Config, states: seq<State>, steps: seq<Step>, i: nat)
    requires Execution(cfg, states, steps) && i < |steps|
    ensures states[i + 1].world.mfaRequired
            == if steps[i].SetRequired? then steps[i].required else states[i].world.mfaRequired
  {
    assert StepAt(cfg, states, steps, i);
    if steps[i].Advance? {
      RequestsDoNotEnforce(cfg, states[i].world, states[i].jobs[steps[i].t]);
    }
  }

  lemma RequestsDoNotEnforce(cfg: Config, w: World, j: Job)
    requires !j.phase.Finished?
    ensures Perform(cfg, w, j).world.mfaRequired == w.mfaRequired
  {
  }

  // ------------------------------------------------- accepted requests get what they asked

  /** How many store calls a request can still make, its answer included. */
  function Remaining(p: Phase): nat {
    match p
    case Arrived => 6
    case Recording(_) => 5
    case Rechecking(_) => 4
    case EndingOld(_) => 3
    case StartingNew(_) => 2
    case Challenging(_) => 1
    case Granting(_) => 2
    case SigningOff => 1
    case Answering => 1
    case Finished => 0
  }

  /** Every step brings a request closer to its end, and after the first none changes what it
      is based on or what it will answer. */
  lemma RequestsProceed(cfg: Config, w: World, j: Job)
    requires !j.phase.Finished?
    ensures var o := Perform(cfg, w, j);
            && Remaining(o.job.phase) < Remaining(j.phase) && o.job.req == j.req
            && (!j.phase.Arrived? ==>
                  o.job.honoured == j.honoured && o.job.login == j.login && o.job.idToken == j.idToken)
  {
  }

  /** The step at `m` answers request `t` with this id_token. */
  ghost predicate AnsweredWith(cfg: Config, states: seq<State>, steps: seq<Step>, m: nat, t: nat, token: Option<Claims>)
    requires |states| == |steps| + 1
  {
    && m < |steps| && steps[m] == Advance(t) && t in states[m].jobs && !states[m].jobs[t].phase.Finished?
    && Perform(cfg, states[m].world, states[m].jobs[t]).answer == token
  }

  lemma TokenStep(cfg: Config, s: State, step: Step, t: nat)
    requires Enabled(cfg, s, step) && t in s.jobs && s.jobs[t].idToken.Some? && JobFacts(cfg, s.jobs[t])
    requires !s.jobs[t].phase.Arrived? && !s.jobs[t].phase.Finished?
    ensures t in Next(cfg, s, step).jobs
    ensures var j := Next(cfg, s, step).jobs[t];
            && j.idToken == s.jobs[t].idToken && !j.phase.Arrived?
            && (j.phase.Finished? ==> step == Advance(t) && Perform(cfg, s.world, s.jobs[t]).answer == j.idToken)
  {
  }

  /** An id_token once minted for a request is what the request answers with: whenever such a
      request is over, one of its steps has delivered that token. */
  lemma {:induction false} TokensAreDelivered(cfg: Config, states: seq<State>, steps: seq<Step>, i: nat, j: nat, t: nat)
    returns (m: nat)
    requires Execution(cfg, states, steps) && i <= j < |states| && t in states[i].jobs
    requires states[i].jobs[t].idToken.Some? && !states[i].jobs[t].phase.Arrived? && !states[i].jobs[t].phase.Finished?
    ensures t in states[j].jobs && states[j].jobs[t].idToken == states[i].jobs[t].idToken
    ensures !states[j].jobs[t].phase.Arrived?
    ensures states[j].jobs[t].phase.Finished? ==>
              i <= m < j && AnsweredWith(cfg, states, steps, m, t, states[i].jobs[t].idToken)
    decreases j
  {
    m := i;
    if i < j {
      m := TokensAreDelivered(cfg, states, steps, i, j - 1, t);
      assert StepAt(cfg, states, steps, j - 1);
      if states[j - 1].jobs[t].phase.Finished? {
        FinishedStays(cfg, states, steps, j - 1, j, t);
      } else {
        SourceAlways(cfg, states, steps, j - 1);
        TokenStep(cfg, states[j - 1], steps[j - 1], t);
        if states[j].jobs[t].phase.Finished? {
          m := j - 1;
        }
      }
    }
  }

  /** What a request has handed out by the phase it is in. */
  ghost predicate HandedOut(log: seq<Turn>, j: Job) {
    var based := j.honoured.Some? || j.login.Some?;
    var left := Remaining(j.phase);
    && (j.req.Authorize? && based && j.req.code && left < 5 ==> Code(j.req.newCode) in Issued(log))
    && (j.req.Authorize? && j.login.Some? && left < 2 ==> SessionId(j.req.newSession) in Issued(log))
    && (!j.req.Authorize? && !j.req.Logout? && based && left < 2 ==> RefreshToken(j.req.newRefresh) in Issued(log))
    && (j.phase.Arrived? ==> !based)
  }

  /** Where a request stands fits what it is. */
  predicate OnCourse(j: Job) {
    && (j.req.Authorize? ==> !j.phase.SigningOff?)
    && (j.phase.Rechecking? || j.phase.EndingOld? || j.phase.StartingNew? ==> j.login.Some?)
    && (j.phase.Challenging? ==> j.honoured.None? && j.login.None?)
    && (j.req.Authorize? && j.phase.Recording? ==> j.honoured.Some? || j.login.Some?)
  }

  lemma BeginHandsOut(cfg: Config, w: World, r: Request, log: seq<Turn>)
    ensures var j := Begin(cfg, w, r).1; HandedOut(log, j) && OnCourse(j)
  {
  }

  lemma PerformHandsOut(cfg: Config, w: World, j: Job, log: seq<Turn>, log': seq<Turn>)
    requires !j.phase.Finished? && HandedOut(log, j) && OnCourse(j) && Issued(log) <= Issued(log')
    requires var o := Perform(cfg, w, j); o.issued.Some? ==> o.issued.value in Issued(log')
    ensures var o := Perform(cfg, w, j); HandedOut(log', o.job) && OnCourse(o.job)
  {
    if j.phase.Arrived? {
      BeginHandsOut(cfg, w, j.req, log');
    }
  }

  ghost predicate HandedOutInv(s: State) {
    forall t :: t in s.jobs ==> HandedOut(s.log, s.jobs[t]) && OnCourse(s.jobs[t])
  }

  lemma HandedOutStep(cfg: Config, s: State, step: Step)
    requires HandedOutInv(s) && Enabled(cfg, s, step)
    ensures HandedOutInv(Next(cfg, s, step))
  {
    if step.Advance? {
      IssuedStep(cfg, s, step);
      PerformHandsOut(cfg, s.world, s.jobs[step.t], s.log, Next(cfg, s, step).log);
    }
  }

  lemma {:induction false} HandedOutAlways(cfg: Config, states: seq<State>, steps: seq<Step>, i: nat)
    requires Execution(cfg, states, steps) && i < |states|
    ensures HandedOutInv(states[i])
  {
    if i > 0 {
      HandedOutAlways(cfg, states, steps, i - 1);
      assert StepAt(cfg, states, steps, i - 1);
      HandedOutStep(cfg, states[i - 1], steps[i - 1]);
    }
  }

  /** A request that is over and was accepted has handed out everything it promised: the code
      if it asked for one, a session if it was a new login, a refresh token if it was a
      grant. Each was usable from the step that issued it on. */
  lemma AcceptedRequestsIssue(cfg: Config, states: seq<State>, steps: seq<Step>, i: nat, t: nat)
    requires Execution(cfg, states, steps) && i < |states| && t in states[i].jobs && states[i].jobs[t].phase.Finished?
    requires states[i].jobs[t].honoured.Some? || states[i].jobs[t].login.Some?
    ensures var j, issued := states[i].jobs[t], Issued(states[i].log);
            if j.req.Authorize? then
              && (j.req.code ==> Code(j.req.newCode) in issued)
              && (j.login.Some? ==> SessionId(j.req.newSession) in issued)
            else !j.req.Logout? ==> RefreshToken(j.req.newRefresh) in issued
  {
    HandedOutAlways(cfg, states, steps, i);
  }

  // ---------------------------------------------------------------------------- profiles

  lemma {:induction false} AfterLastMeans(s: string, c: char)
    ensures var r := AfterLast(s, c);
            && c !in r && |r| <= |s| && r == s[|s| - |r|..]
            && if c in s then |r| < |s| && s[|s| - |r| - 1] == c else r == s
    decreases |s|
  {
    if c in s {
      AfterLastMeans(s[1..], c);
      assert s == [s[0]] + s[1..];
    }
  }

  lemma {:induction false} UpToMeans(s: string, c: char)
    ensures var r := UpTo(s, c);
            && c !in r && |r| <= |s| && r == s[..|r|]
            && if c in s then |r| < |s| && s[|r|] == c else r == s
    decreases |s|
  {
    if s != "" && s[0] != c {
      UpToMeans(s[1..], c);
      assert s == [s[0]] + s[1..];
    }
  }

  /** A derived profile: the email is the subject if that is an address and otherwise made
      from its local part, which is the nickname and holds neither a bar nor an at sign. */
  lemma DerivedProfileMeans(subject: string)
    ensures var p := DeriveProfile(subject);
            && "email" in p && "nickname" in p && "name" in p && p["name"] == p["email"]
            && p["nickname"].S? && '|' !in p["nickname"].s && '@' !in p["nickname"].s
            && (p["email"] == if '@' in subject then S(subject) else S(p["nickname"].s + "@example.com"))
            && ('|' !in subject && '@' !in subject ==> p["nickname"] == S(subject))
  {
    AfterLastMeans(subject, '|');
    UpToMeans(AfterLast(subject, '|'), '@');
    DerivedKeys(subject);
  }

  lemma DerivedKeys(subject: string)
    ensures var p, local := DeriveProfile(subject), UpTo(AfterLast(subject, '|'), '@');
            && "email" in p && "nickname" in p && "name" in p && p["name"] == p["email"]
            && p["nickname"] == S(local)
            && p["email"] == S(if '@' in subject then subject else local + "@example.com")
  {
  }

  /** The picture shows the first two letters of the nickname, in lower case. */
  lemma DerivedPicture(subject: string)
    ensures var p := DeriveProfile(subject);
            && "nickname" in p && "picture" in p && p["nickname"].S?
            && var initials := p["nickname"].s[..if |p["nickname"].s| < 2 then |p["nickname"].s| else 2];
               p["picture"] == S("https://cdn.auth0.com/avatars/" + Lower(initials) + ".png")
  {
    LowerOfPrefix(UpTo(AfterLast(subject, '|'), '@'));
  }

  lemma LowerOfPrefix(s: string)
    ensures (if |Lower(s)| > 2 then Lower(s)[..2] else Lower(s)) == Lower(s[..if |s| < 2 then |s| else 2])
  {
    assert |s| <= 2 ==> s[..if |s| < 2 then |s| else 2] == s;
  }

  /** auth_time is in whole seconds, rounded down. */
  lemma UnixIsSeconds(t: int)
    ensures Unix(t) * 1_000_000_000 <= t < (Unix(t) + 1) * 1_000_000_000
  {
  }
}
