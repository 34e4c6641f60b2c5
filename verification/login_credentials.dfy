/** The credentials of interleaved logins: a credential that has left its store never comes
    back, codes and mfa_tokens answer at most one request (section 4.1.2 of RFC 6749), every
    honoured one goes back to the request that issued it and to its guards (section 4.6 of
    RFC 7636), and sessions end when they are ended. */
module LoginCredentials {
  import opened Prelude
  import opened ExpiringStore
  import opened SessionStore
  import opened LoginFlow
  import opened LoginClaims
  import opened LoginLineage

  // ---------------------------------------------------------------- gone means for good

  predicate Held(w: World, c: Credential) {
    match c
    case SessionId(id) => id in w.logins.entries
    case Code(id) => id in w.codes
    case RefreshToken(id) => id in w.refresh.entries
    case MfaToken(id) => id in w.mfaTokens
  }

  /** Only issuing it puts a credential into its store. */
  lemma HeldWasIssued(cfg: Config, w: World, j: Job, c: Credential)
    requires !j.phase.Finished?
    ensures var o := Perform(cfg, w, j); Held(o.world, c) ==> Held(w, c) || o.issued == Some(c)
  {
  }

  lemma {:induction false} IssuedHas(log: seq<Turn>, c: Credential) returns (k: nat)
    requires c in Issued(log)
    ensures k < |log| && log[k].issued == Some(c)
  {
    if log[|log| - 1].issued == Some(c) {
      k := |log| - 1;
    } else {
      k := IssuedHas(log[..|log| - 1], c);
    }
  }

  lemma IssuedStep(cfg: Config, s: State, step: Step)
    requires Enabled(cfg, s, step)
    ensures Issued(s.log) <= Issued(Next(cfg, s, step).log)
    ensures step.Advance? ==> Issued(Next(cfg, s, step).log)
                              == Issued(s.log) + var o := Perform(cfg, s.world, s.jobs[step.t]);
                                                 if o.issued.Some? then {o.issued.value} else {}
  {
    if step.Advance? {
      var log := Next(cfg, s, step).log;
      assert log[..|log| - 1] == s.log;
    }
  }

  lemma GoneStep(cfg: Config, s: State, step: Step, c: Credential)
    requires Enabled(cfg, s, step) && c in Issued(s.log) && !Held(s.world, c)
    ensures !Held(Next(cfg, s, step).world, c)
  {
    if step.Advance? {
      HeldWasIssued(cfg, s.world, s.jobs[step.t], c);
    }
  }

  /** A credential that was issued and is no longer stored, because it was consumed, swept,
      ended, replaced, evicted or reset away, is never stored again. */
  lemma {:induction false} GoneForever(cfg: Config, states: seq<State>, steps: seq<Step>, i: nat, j: nat, c: Credential)
    requires Execution(cfg, states, steps) && i <= j < |states|
    requires c in Issued(states[i].log) && !Held(states[i].world, c)
    ensures c in Issued(states[j].log) && !Held(states[j].world, c)
    decreases j
  {
    if i < j {
      GoneForever(cfg, states, steps, i, j - 1, c);
      assert StepAt(cfg, states, steps, j - 1);
      GoneStep(cfg, states[j - 1], steps[j - 1], c);
      IssuedStep(cfg, states[j - 1], steps[j - 1]);
    }
  }

  /** A request comes to honour a credential only in its first step, and only a stored one. */
  lemma HonouredWasHeld(cfg: Config, w: World, j: Job)
    requires !j.phase.Finished?
    ensures var o := Perform(cfg, w, j);
            if j.phase.Arrived? then o.job.honoured.Some? ==> Held(w, o.job.honoured.value)
            else o.job.honoured == j.honoured
  {
  }

  /** So from then on no request that has still to begin will honour it. */
  lemma GoneIsNeverHonoured(cfg: Config, states: seq<State>, steps: seq<Step>, i: nat, j: nat, t: nat, c: Credential)
    requires Execution(cfg, states, steps) && i <= j < |steps| && steps[j] == Advance(t)
    requires c in Issued(states[i].log) && !Held(states[i].world, c)
    requires t in states[j].jobs && states[j].jobs[t].phase.Arrived?
    ensures t in states[j + 1].jobs && states[j + 1].jobs[t].honoured != Some(c)
  {
    GoneForever(cfg, states, steps, i, j, c);
    assert StepAt(cfg, states, steps, j);
    HonouredWasHeld(cfg, states[j].world, states[j].jobs[t]);
  }

  // --------------------------------------------------------- single-use credentials

  predicate SingleUse(c: Credential) {
    c.Code? || c.MfaToken?
  }

  /** The single-use credential a request presents. */
  function Presented(r: Request): Option<Credential> {
    if r.Exchange? && r.presented != "" then Some(Code(r.presented))
    else if r.MfaGrant? && r.presented != "" then Some(MfaToken(r.presented))
    else None
  }

  lemma PresentedIsGone(cfg: Config, w: World, r: Request)
    requires Presented(r).Some?
    ensures !Held(Begin(cfg, w, r).0, Presented(r).value)
  {
  }

  lemma PresentingBurns(cfg: Config, states: seq<State>, steps: seq<Step>, i: nat, t: nat, c: Credential)
    requires Execution(cfg, states, steps) && i < |steps| && steps[i] == Advance(t)
    requires t in states[i].jobs && states[i].jobs[t].phase.Arrived?
    requires c in Issued(states[i].log) && Presented(states[i].jobs[t].req) == Some(c)
    ensures c in Issued(states[i + 1].log) && !Held(states[i + 1].world, c)
  {
    assert StepAt(cfg, states, steps, i);
    PresentedIsGone(cfg, states[i].world, states[i].jobs[t].req);
    IssuedStep(cfg, states[i], steps[i]);
  }

  /** A code or mfa_token that was issued and then presented once, successfully or not, is
      honoured by no request that begins later. */
  lemma PresentedOnceIsBurnt(cfg: Config, states: seq<State>, steps: seq<Step>, i: nat, t: nat, j: nat, u: nat,
                             c: Credential)
    requires Execution(cfg, states, steps) && i < j < |steps| && steps[i] == Advance(t) && steps[j] == Advance(u)
    requires t in states[i].jobs && states[i].jobs[t].phase.Arrived?
    requires c in Issued(states[i].log) && Presented(states[i].jobs[t].req) == Some(c)
    requires u in states[j].jobs && states[j].jobs[u].phase.Arrived?
    ensures u in states[j + 1].jobs && states[j + 1].jobs[u].honoured != Some(c)
  {
    PresentingBurns(cfg, states, steps, i, t, c);
    GoneIsNeverHonoured(cfg, states, steps, i + 1, j, u, c);
  }

  /** This request's answer is based on the single-use credential `c`. */
  predicate Uses(j: Job, c: Credential) {
    SingleUse(c) && j.honoured == Some(c)
  }

  ghost predicate UseInv(s: State) {
    && (forall c :: Held(s.world, c) ==> c in Issued(s.log))
    && (forall t, c :: t in s.jobs && Uses(s.jobs[t], c) ==> c in Issued(s.log) && !Held(s.world, c))
    && (forall t, u, c :: t in s.jobs && u in s.jobs && Uses(s.jobs[t], c) && Uses(s.jobs[u], c) ==> t == u)
  }

  lemma UseStep(cfg: Config, w: World, j: Job, c: Credential)
    requires !j.phase.Finished?
    ensures var o := Perform(cfg, w, j);
            Uses(o.job, c) ==> if j.phase.Arrived? then Held(w, c) && !Held(o.world, c) else Uses(j, c)
  {
  }

  /** What a step of request `t` does to the credential `c`. */
  ghost predicate UseFacts(s: State, s': State, t: nat, issued: Option<Credential>, c: Credential)
    requires t in s.jobs && t in s'.jobs
  {
    && (Held(s'.world, c) ==> Held(s.world, c) || issued == Some(c))
    && (issued == Some(c) ==> c !in Issued(s.log) && c in Issued(s'.log))
    && (Uses(s'.jobs[t], c) ==> Uses(s.jobs[t], c) || (Held(s.world, c) && !Held(s'.world, c)))
  }

  lemma UseFactsHold(cfg: Config, s: State, t: nat, c: Credential)
    requires Enabled(cfg, s, Advance(t))
    ensures UseFacts(s, Next(cfg, s, Advance(t)), t, Perform(cfg, s.world, s.jobs[t]).issued, c)
  {
    IssuedStep(cfg, s, Advance(t));
    HeldWasIssued(cfg, s.world, s.jobs[t], c);
    UseStep(cfg, s.world, s.jobs[t], c);
  }

  lemma UseKept(s: State, s': State, t: nat, issued: Option<Credential>)
    requires UseInv(s) && t in s.jobs && t in s'.jobs && s'.jobs == s.jobs[t := s'.jobs[t]]
    requires Issued(s.log) <= Issued(s'.log) && forall c :: UseFacts(s, s', t, issued, c)
    ensures UseInv(s')
  {
    forall c | Held(s'.world, c)
      ensures c in Issued(s'.log)
    {
      assert UseFacts(s, s', t, issued, c);
    }
    forall u, c | u in s'.jobs && Uses(s'.jobs[u], c)
      ensures c in Issued(s'.log) && !Held(s'.world, c)
    {
      assert UseFacts(s, s', t, issued, c);
      assert u != t ==> Uses(s.jobs[u], c);
    }
    forall u, v, c | u in s'.jobs && v in s'.jobs && Uses(s'.jobs[u], c) && Uses(s'.jobs[v], c)
      ensures u == v
    {
      assert UseFacts(s, s', t, issued, c);
    }
  }

  lemma UseKeptByRequest(cfg: Config, s: State, t: nat)
    requires UseInv(s) && Enabled(cfg, s, Advance(t))
    ensures UseInv(Next(cfg, s, Advance(t)))
  {
    var s', issued := Next(cfg, s, Advance(t)), Perform(cfg, s.world, s.jobs[t]).issued;
    forall c
      ensures UseFacts(s, s', t, issued, c)
    {
      UseFactsHold(cfg, s, t, c);
    }
    IssuedStep(cfg, s, Advance(t));
    UseKept(s, s', t, issued);
  }

  lemma UseKeptByOthers(cfg: Config, s: State, step: Step)
    requires UseInv(s) && Enabled(cfg, s, step) && !step.Advance?
    ensures UseInv(Next(cfg, s, step))
  {
    var s' := Next(cfg, s, step);
    assert forall c :: Held(s'.world, c) ==> Held(s.world, c);
    assert forall t, c :: t in s'.jobs && Uses(s'.jobs[t], c) ==> t in s.jobs && Uses(s.jobs[t], c);
  }

  lemma {:induction false} UseAlways(cfg: Config, states: seq<State>, steps: seq<Step>, i: nat)
    requires Execution(cfg, states, steps) && i < |states|
    ensures UseInv(states[i])
  {
    if i > 0 {
      UseAlways(cfg, states, steps, i - 1);
      assert StepAt(cfg, states, steps, i - 1);
      if steps[i - 1].Advance? {
        UseKeptByRequest(cfg, states[i - 1], steps[i - 1].t);
      } else {
        UseKeptByOthers(cfg, states[i - 1], steps[i - 1]);
      }
    }
  }

  lemma {:induction false} FinishedStays(cfg: Config, states: seq<State>, steps: seq<Step>, i: nat, j: nat, t: nat)
    requires Execution(cfg, states, steps) && i <= j < |states|
    requires t in states[i].jobs && states[i].jobs[t].phase.Finished?
    ensures t in states[j].jobs && states[j].jobs[t] == states[i].jobs[t]
    decreases j
  {
    if i < j {
      FinishedStays(cfg, states, steps, i, j - 1, t);
      assert StepAt(cfg, states, steps, j - 1);
    }
  }

  /** The step at i answers a request on the strength of `c`. */
  ghost predicate AnswersOn(states: seq<State>, steps: seq<Step>, i: nat, c: Credential)
    requires |states| == |steps| + 1
  {
    && i < |steps| && steps[i].Advance? && steps[i].t in states[i].jobs
    && states[i].jobs[steps[i].t].phase.Answering? && states[i].jobs[steps[i].t].honoured == Some(c)
  }

  /** However requests interleave, one code or mfa_token feeds at most one answer: of two
      requests racing with the same one, at most one gets tokens, and once. */
  lemma OneAnswerPerCredential(cfg: Config, states: seq<State>, steps: seq<Step>, i: nat, j: nat, c: Credential)
    requires Execution(cfg, states, steps) && SingleUse(c)
    requires AnswersOn(states, steps, i, c) && AnswersOn(states, steps, j, c)
    ensures i == j
  {
    if i < j {
      AnsweredOnce(cfg, states, steps, i, j, c);
    } else if j < i {
      AnsweredOnce(cfg, states, steps, j, i, c);
    }
  }

  lemma AnsweredOnce(cfg: Config, states: seq<State>, steps: seq<Step>, i: nat, j: nat, c: Credential)
    requires Execution(cfg, states, steps) && SingleUse(c) && i < j && AnswersOn(states, steps, i, c)
    ensures !AnswersOn(states, steps, j, c)
  {
    if AnswersOn(states, steps, j, c) {
      var t, u := steps[i].t, steps[j].t;
      assert StepAt(cfg, states, steps, i);
      FinishedStays(cfg, states, steps, i + 1, j, t);
      UseAlways(cfg, states, steps, j);
      assert Uses(states[j].jobs[t], c) && Uses(states[j].jobs[u], c);
    }
  }

  // ----------------------------------------------------- where credentials come from

  /** This turn handed out the code, and its request is what the stored entry says. */
  predicate IssuesCode(t: Turn, id: string, e: Timed<CodeEntry>) {
    && t.issued == Some(Code(id)) && t.job.req.Authorize?
    && e.expiresAt == t.job.req.storeNow + TTL
    && e.value.challenge == t.job.req.challenge && e.value.nonce == t.job.req.nonce
    && e.value.hashMethod == ChallengeMethod(t.job.req.challenge, t.job.req.hashMethod)
  }

  predicate IssuesMfa(cfg: Config, t: Turn, id: string, e: Timed<MfaContext>) {
    && t.issued == Some(MfaToken(id)) && (t.job.req.Password? || t.job.req.Passwordless?)
    && e.expiresAt == t.job.req.storeNow + TTL && e.value == ContextOf(cfg, t.job.req)
  }

  predicate IssuesRefresh(t: Turn, id: string, g: Grant) {
    t.issued == Some(RefreshToken(id)) && NamesClient(t.job.idToken, g.clientID)
  }

  ghost predicate CodeFrom(log: seq<Turn>, id: string, e: Timed<CodeEntry>) {
    exists k :: 0 <= k < |log| && IssuesCode(log[k], id, e)
  }

  ghost predicate MfaFrom(cfg: Config, log: seq<Turn>, id: string, e: Timed<MfaContext>) {
    exists k :: 0 <= k < |log| && IssuesMfa(cfg, log[k], id, e)
  }

  ghost predicate RefreshFrom(log: seq<Turn>, id: string, g: Grant) {
    exists k :: 0 <= k < |log| && IssuesRefresh(log[k], id, g)
  }

  ghost predicate StoreSources(cfg: Config, w: World, log: seq<Turn>) {
    && (forall id :: id in w.codes ==> CodeFrom(log, id, w.codes[id]))
    && (forall id :: id in w.mfaTokens ==> MfaFrom(cfg, log, id, w.mfaTokens[id]))
    && (forall id :: id in w.refresh.entries ==> RefreshFrom(log, id, w.refresh.entries[id]))
  }

  /** The request redeemed this entry in time and past its guard, and echoes its nonce. */
  predicate GuardedCode(cfg: Config, j: Job, e: Timed<CodeEntry>) {
    && j.req.Exchange? && j.req.takeNow <= e.expiresAt && EchoesNonce(j.idToken, e.value.nonce)
    && (e.value.challenge != "" ==> Verify(cfg, e.value.hashMethod, e.value.challenge, j.req.verifier))
  }

  predicate GuardedMfa(j: Job, e: Timed<MfaContext>) {
    && j.req.MfaGrant? && j.req.takeNow <= e.expiresAt && FactorAccepted(j.req.factor)
    && j.login.Some? && j.login.value.subject == e.value.subject && j.login.value.realm == e.value.realm
    && j.login.value.authTime == j.req.now && NamesClient(j.idToken, e.value.clientID)
    && j.login.value.profile == ProfileOf(ExtraOf(e.value, j.req.now))
  }

  predicate RefreshedFor(j: Job, g: Grant) {
    j.req.Refresh? && NamesClient(j.idToken, if j.req.clientID != "" then j.req.clientID else g.clientID)
  }

  ghost predicate JobSources(cfg: Config, log: seq<Turn>, j: Job) {
    match j.honoured
    case Some(Code(id)) => exists e :: CodeFrom(log, id, e) && GuardedCode(cfg, j, e)
    case Some(MfaToken(id)) => exists e :: MfaFrom(cfg, log, id, e) && GuardedMfa(j, e)
    case Some(RefreshToken(id)) => exists g :: RefreshFrom(log, id, g) && RefreshedFor(j, g)
    case Some(SessionId(id)) => j.req.Authorize? && j.req.cookie == Some(id)
    case None => true
  }

  /** The part of it that needs no history: what a request holds fits its own parameters. */
  ghost predicate JobFacts(cfg: Config, j: Job) {
    && (j.phase.Challenging? ==> j.phase.ctx == ContextOf(cfg, j.req))
    && (j.phase.Challenging? || j.phase.SigningOff? ==> j.idToken.None?)
    && (j.phase.Granting? ==> NamesClient(j.idToken, j.phase.grant.clientID))
    && (j.req.Authorize? ==> PromptObeyed(j))
    && (j.req.Authorize? && j.idToken.Some? ==>
          EchoesNonce(j.idToken, j.req.nonce) && NamesClient(j.idToken, j.req.clientID))
  }

  predicate PromptObeyed(j: Job)
    requires j.req.Authorize?
  {
    && (j.req.promptNone ==> j.login.None?)
    && (!j.req.promptNone && j.req.promptLogin ==> j.honoured.None?)
    && (j.login.Some? ==> j.honoured.None? && j.login.value.authTime == j.req.now)
    && (!j.req.promptNone && j.req.hint != "" && j.idToken.Some? ==>
          "sub" in j.idToken.value && j.idToken.value["sub"] == S(j.req.hint))
  }

  // ---------------------------------------------------------------- the first step

  lemma LookupFacts(cfg: Config, live: Option<Login>, r: Request)
    requires r.Authorize? && (live.Some? ==> r.cookie.Some?)
    ensures JobFacts(cfg, AfterLookup(live, r))
  {
    var resolved := Resolve(live, r);
    if Servable(r) && r.idToken && !resolved.LoginRequired? {
      FrontTokenEchoesNonce(r, resolved.login);
      FrontTokenNamesClient(r, resolved.login);
      FrontTokenCarries(r, resolved.login);
    }
  }

  lemma ConsumeFacts(cfg: Config, entry: Option<CodeEntry>, r: Request)
    requires r.Exchange?
    ensures JobFacts(cfg, AfterConsume(cfg, entry, r))
    ensures var j := AfterConsume(cfg, entry, r);
            j.honoured.Some? ==>
              && entry.Some? && j.honoured == Some(Code(r.presented)) && EchoesNonce(j.idToken, entry.value.nonce)
              && (r.presented != "" && entry.value.challenge != "" ==>
                    Verify(cfg, entry.value.hashMethod, entry.value.challenge, r.verifier))
  {
    ExchangeNamesClient(entry, r);
    if entry.Some? {
      ExchangeEchoesNonce(entry, r);
    }
  }

  lemma FetchFacts(cfg: Config, grant: Option<Grant>, r: Request)
    requires r.Refresh? && (grant.Some? ==> ProfileOnly(grant.value.profile))
    ensures JobFacts(cfg, AfterFetch(grant, r))
    ensures var j := AfterFetch(grant, r);
            j.honoured.Some? ==>
              grant.Some? && j.honoured == Some(RefreshToken(r.presented)) && RefreshedFor(j, grant.value)
  {
    if grant.Some? {
      KeyNames();
      var g := grant.value;
      RefreshNamesClient(g, if r.clientID == "" then g.clientID else r.clientID);
    }
  }

  lemma LogInFacts(cfg: Config, r: Request, honoured: Option<Credential>, ctx: MfaContext, now: int)
    requires !r.Authorize? && !r.Logout? && ProperContext(ctx)
    ensures JobFacts(cfg, LogIn(r, honoured, ctx, now))
  {
    LoginNamesClient(ctx, now);
  }

  lemma FlagFacts(cfg: Config, required: bool, r: Request)
    requires r.Password? || r.Passwordless?
    ensures JobFacts(cfg, AfterFlag(cfg, required, r))
  {
    ContextIsProper(cfg, r);
    LogInFacts(cfg, r, None, ContextOf(cfg, r), r.now);
  }

  /** Stored profiles hold profile keys only. */
  ghost predicate ProperWorld(w: World) {
    MfaInv(w) && forall id :: id in w.refresh.entries ==> ProfileOnly(w.refresh.entries[id].profile)
  }

  lemma BeginFacts(cfg: Config, w: World, r: Request)
    requires ProperWorld(w)
    ensures JobFacts(cfg, Begin(cfg, w, r).1)
  {
    match r {
      case Authorize(_, _, _, _, _, _, _, _, _, _, _, _, _, _, _, _, _, _) =>
        LookupFacts(cfg, LiveLogin(w, r.cookie), r);
      case Exchange(code, _, _, _, takeNow, _, _) =>
        ConsumeFacts(cfg, if code == "" then None else Taken(w.codes, code, takeNow), r);
      case Refresh(token, _, _, _) =>
        FetchFacts(cfg, if token in w.refresh.entries then Some(w.refresh.entries[token]) else None, r);
      case MfaGrant(token, _, _, takeNow, _, _) =>
        if Taken(w.mfaTokens, token, takeNow).Some? {
          LogInFacts(cfg, r, Some(MfaToken(token)), w.mfaTokens[token].value, r.now);
        }
      case Logout(_) =>
      case _ => FlagFacts(cfg, w.mfaRequired, r);
    }
  }

  lemma BeginSources(cfg: Config, w: World, log: seq<Turn>, r: Request)
    requires StoreSources(cfg, w, log) && ProperWorld(w)
    ensures JobSources(cfg, log, Begin(cfg, w, r).1)
  {
    var j := Begin(cfg, w, r).1;
    match r {
      case Exchange(code, _, _, _, takeNow, _, _) =>
        ConsumeFacts(cfg, if code == "" then None else Taken(w.codes, code, takeNow), r);
        if j.honoured.Some? {
          assert CodeFrom(log, code, w.codes[code]) && GuardedCode(cfg, j, w.codes[code]);
        }
      case Refresh(token, _, _, _) =>
        FetchFacts(cfg, if token in w.refresh.entries then Some(w.refresh.entries[token]) else None, r);
        if j.honoured.Some? {
          assert RefreshFrom(log, token, w.refresh.entries[token]) && RefreshedFor(j, w.refresh.entries[token]);
        }
      case MfaGrant(token, _, _, _, _, _) =>
        if j.honoured.Some? {
          LoginNamesClient(w.mfaTokens[token].value, r.now);
          assert MfaFrom(cfg, log, token, w.mfaTokens[token]) && GuardedMfa(j, w.mfaTokens[token]);
        }
      case _ =>
    }
  }

  // ---------------------------------------------------------------- every later step

  lemma CodeFromGrows(log: seq<Turn>, t: Turn, id: string, e: Timed<CodeEntry>)
    requires CodeFrom(log, id, e) || IssuesCode(t, id, e)
    ensures CodeFrom(log + [t], id, e)
  {
    if CodeFrom(log, id, e) {
      var k :| 0 <= k < |log| && IssuesCode(log[k], id, e);
      assert (log + [t])[k] == log[k];
    } else {
      assert (log + [t])[|log|] == t;
    }
  }

  lemma MfaFromGrows(cfg: Config, log: seq<Turn>, t: Turn, id: string, e: Timed<MfaContext>)
    requires MfaFrom(cfg, log, id, e) || IssuesMfa(cfg, t, id, e)
    ensures MfaFrom(cfg, log + [t], id, e)
  {
    if MfaFrom(cfg, log, id, e) {
      var k :| 0 <= k < |log| && IssuesMfa(cfg, log[k], id, e);
      assert (log + [t])[k] == log[k];
    } else {
      assert (log + [t])[|log|] == t;
    }
  }

  lemma RefreshFromGrows(log: seq<Turn>, t: Turn, id: string, g: Grant)
    requires RefreshFrom(log, id, g) || IssuesRefresh(t, id, g)
    ensures RefreshFrom(log + [t], id, g)
  {
    if RefreshFrom(log, id, g) {
      var k :| 0 <= k < |log| && IssuesRefresh(log[k], id, g);
      assert (log + [t])[k] == log[k];
    } else {
      assert (log + [t])[|log|] == t;
    }
  }

  lemma JobSourcesGrow(cfg: Config, log: seq<Turn>, t: Turn, j: Job)
    requires JobSources(cfg, log, j)
    ensures JobSources(cfg, log + [t], j)
  {
    match j.honoured {
      case Some(Code(id)) =>
        var e :| CodeFrom(log, id, e) && GuardedCode(cfg, j, e);
        CodeFromGrows(log, t, id, e);
      case Some(MfaToken(id)) =>
        var e :| MfaFrom(cfg, log, id, e) && GuardedMfa(j, e);
        MfaFromGrows(cfg, log, t, id, e);
      case Some(RefreshToken(id)) =>
        var g :| RefreshFrom(log, id, g) && RefreshedFor(j, g);
        RefreshFromGrows(log, t, id, g);
      case _ =>
    }
  }

  /** What a step adds to a store is what it has just issued. */
  lemma CodeStoredByIssuing(cfg: Config, w: World, j: Job, id: string)
    requires !j.phase.Finished?
    ensures var o := Perform(cfg, w, j);
            id in o.world.codes ==>
              || (id in w.codes && o.world.codes[id] == w.codes[id])
              || IssuesCode(Turn(o.job, o.issued), id, o.world.codes[id])
  {
  }

  lemma MfaStoredByIssuing(cfg: Config, w: World, j: Job, id: string)
    requires !j.phase.Finished? && JobFacts(cfg, j)
    ensures var o := Perform(cfg, w, j);
            id in o.world.mfaTokens ==>
              || (id in w.mfaTokens && o.world.mfaTokens[id] == w.mfaTokens[id])
              || IssuesMfa(cfg, Turn(o.job, o.issued), id, o.world.mfaTokens[id])
  {
  }

  lemma RefreshStoredByIssuing(cfg: Config, w: World, j: Job, id: string)
    requires !j.phase.Finished? && JobFacts(cfg, j)
    ensures var o := Perform(cfg, w, j);
            id in o.world.refresh.entries ==>
              || (id in w.refresh.entries && o.world.refresh.entries[id] == w.refresh.entries[id])
              || IssuesRefresh(Turn(o.job, o.issued), id, o.world.refresh.entries[id])
  {
  }

  lemma StoreSourcesKept(cfg: Config, w: World, log: seq<Turn>, j: Job)
    requires StoreSources(cfg, w, log) && !j.phase.Finished? && JobFacts(cfg, j)
    ensures var o := Perform(cfg, w, j); StoreSources(cfg, o.world, log + [Turn(o.job, o.issued)])
  {
    var o := Perform(cfg, w, j);
    var t := Turn(o.job, o.issued);
    forall id | id in o.world.codes
      ensures CodeFrom(log + [t], id, o.world.codes[id])
    {
      CodeStoredByIssuing(cfg, w, j, id);
      CodeFromGrows(log, t, id, o.world.codes[id]);
    }
    forall id | id in o.world.mfaTokens
      ensures MfaFrom(cfg, log + [t], id, o.world.mfaTokens[id])
    {
      MfaStoredByIssuing(cfg, w, j, id);
      MfaFromGrows(cfg, log, t, id, o.world.mfaTokens[id]);
    }
    forall id | id in o.world.refresh.entries
      ensures RefreshFrom(log + [t], id, o.world.refresh.entries[id])
    {
      RefreshStoredByIssuing(cfg, w, j, id);
      RefreshFromGrows(log, t, id, o.world.refresh.entries[id]);
    }
  }

  ghost predicate SourceInv(cfg: Config, s: State) {
    && StoreSources(cfg, s.world, s.log)
    && forall t :: t in s.jobs ==> JobSources(cfg, s.log, s.jobs[t]) && JobFacts(cfg, s.jobs[t])
  }

  lemma LaterFacts(cfg: Config, w: World, log: seq<Turn>, j: Job)
    requires !j.phase.Finished? && !j.phase.Arrived? && JobFacts(cfg, j) && JobSources(cfg, log, j)
    ensures var o := Perform(cfg, w, j); JobFacts(cfg, o.job) && JobSources(cfg, log, o.job)
  {
  }

  lemma PerformSources(cfg: Config, w: World, log: seq<Turn>, j: Job)
    requires ProperWorld(w) && StoreSources(cfg, w, log)
    requires !j.phase.Finished? && JobFacts(cfg, j) && JobSources(cfg, log, j)
    ensures var o := Perform(cfg, w, j); JobFacts(cfg, o.job) && JobSources(cfg, log + [Turn(o.job, o.issued)], o.job)
  {
    var o := Perform(cfg, w, j);
    if j.phase.Arrived? {
      BeginFacts(cfg, w, j.req);
      BeginSources(cfg, w, log, j.req);
    } else {
      LaterFacts(cfg, w, log, j);
    }
    JobSourcesGrow(cfg, log, Turn(o.job, o.issued), o.job);
  }

  lemma SourceStep(cfg: Config, s: State, step: Step)
    requires SourceInv(cfg, s) && ProperWorld(s.world) && Enabled(cfg, s, step)
    ensures SourceInv(cfg, Next(cfg, s, step))
  {
    if step.Advance? {
      var o := Perform(cfg, s.world, s.jobs[step.t]);
      var s' := Next(cfg, s, step);
      StoreSourcesKept(cfg, s.world, s.log, s.jobs[step.t]);
      PerformSources(cfg, s.world, s.log, s.jobs[step.t]);
      forall t | t in s'.jobs && t != step.t
        ensures JobSources(cfg, s'.log, s'.jobs[t]) && JobFacts(cfg, s'.jobs[t])
      {
        JobSourcesGrow(cfg, s.log, Turn(o.job, o.issued), s.jobs[t]);
      }
    }
  }

  lemma {:induction false} SourceAlways(cfg: Config, states: seq<State>, steps: seq<Step>, i: nat)
    requires Execution(cfg, states, steps) && i < |states|
    ensures SourceInv(cfg, states[i])
  {
    if i > 0 {
      SourceAlways(cfg, states, steps, i - 1);
      InvAlways(cfg, states, steps, i - 1);
      assert StepAt(cfg, states, steps, i - 1);
      SourceStep(cfg, states[i - 1], steps[i - 1]);
    }
  }

  // ------------------------------------------------------------------ what follows

  const MINUTE := 60 * 1_000_000_000

  /** The verifier answers the challenge this /authorize request carried (sections 4.2 and
      4.6 of RFC 7636): hashed under S256, as it is under plain, which is the default. No
      other method is ever answered. */
  predicate AnswersChallenge(cfg: Config, issue: Request, verifier: string)
    requires issue.Authorize?
  {
    && verifier != ""
    && (issue.hashMethod == "S256" ==> cfg.s256(verifier) == issue.challenge)
    && (issue.hashMethod == "plain" || issue.hashMethod == "" ==> verifier == issue.challenge)
    && issue.hashMethod in {"S256", "plain", ""}
  }

  lemma AnswerIsVerified(cfg: Config, issue: Request, verifier: string)
    requires issue.Authorize? && issue.challenge != ""
    ensures Verify(cfg, ChallengeMethod(issue.challenge, issue.hashMethod), issue.challenge, verifier)
            <==> AnswersChallenge(cfg, issue, verifier)
  {
    assert |"S256"| == 4 && |"plain"| == 5;
  }

  /** The fixed challenges the mock accepts. */
  predicate CannedFactor(f: Factor) {
    || f == Otp("123456")
    || (f.Oob? && f.oobCode != "" && f.bindingCode == "123456")
    || f == RecoveryCode("ABCDEFGHIJKLMNOP")
  }


  /** A code is honoured only if some earlier /authorize turn issued it, no later than ten
      minutes after that turn stored it, and only with a verifier that passes when that
      turn carried a challenge; the id_token echoes that turn's nonce. */
  lemma HonouredCodesAreGuarded(cfg: Config, states: seq<State>, steps: seq<Step>, i: nat, t: nat, id: string)
    returns (k: nat)
    requires Execution(cfg, states, steps) && i < |states|
    requires t in states[i].jobs && states[i].jobs[t].honoured == Some(Code(id))
    ensures k < |states[i].log| && states[i].log[k].issued == Some(Code(id))
    ensures var j, issue := states[i].jobs[t], states[i].log[k].job.req;
            && j.req.Exchange? && issue.Authorize? && j.req.takeNow <= issue.storeNow + 10 * MINUTE
            && (issue.challenge != "" ==> AnswersChallenge(cfg, issue, j.req.verifier))
            && EchoesNonce(j.idToken, issue.nonce)
  {
    SourceAlways(cfg, states, steps, i);
    var j := states[i].jobs[t];
    assert JobSources(cfg, states[i].log, j);
    var e :| CodeFrom(states[i].log, id, e) && GuardedCode(cfg, j, e);
    k :| 0 <= k < |states[i].log| && IssuesCode(states[i].log[k], id, e);
    if e.value.challenge != "" {
      AnswerIsVerified(cfg, states[i].log[k].job.req, j.req.verifier);
    }
  }

  /** An mfa_token is honoured only with the accepted factor, in time, and the login it
      completes is the one whose first factor issued it: its subject, realm, client and
      profile, as of now. */
  lemma HonouredMfaTokensAreGuarded(cfg: Config, states: seq<State>, steps: seq<Step>, i: nat, t: nat, id: string)
    returns (k: nat)
    requires Execution(cfg, states, steps) && i < |states|
    requires t in states[i].jobs && states[i].jobs[t].honoured == Some(MfaToken(id))
    ensures k < |states[i].log| && states[i].log[k].issued == Some(MfaToken(id))
    ensures var j, issue := states[i].jobs[t], states[i].log[k].job.req;
            && j.req.MfaGrant? && (issue.Password? || issue.Passwordless?)
            && j.req.takeNow <= issue.storeNow + 10 * MINUTE && CannedFactor(j.req.factor)
            && j.login.Some? && j.login.value.subject == ContextOf(cfg, issue).subject
            && j.login.value.realm == ContextOf(cfg, issue).realm && j.login.value.authTime == j.req.now
            && NamesClient(j.idToken, ContextOf(cfg, issue).clientID)
            && j.login.value.profile == ProfileOf(ExtraOf(ContextOf(cfg, issue), j.req.now))
  {
    SourceAlways(cfg, states, steps, i);
    var j := states[i].jobs[t];
    assert JobSources(cfg, states[i].log, j);
    var e :| MfaFrom(cfg, states[i].log, id, e) && GuardedMfa(j, e);
    k :| 0 <= k < |states[i].log| && IssuesMfa(cfg, states[i].log[k], id, e);
  }

  /** A refreshed id_token is for the client that asked, or, when the request names none,
      for the client of the id_token that came with the refresh token; so a chain of
      refreshes that names no client keeps it. */
  lemma RefreshKeepsClient(cfg: Config, states: seq<State>, steps: seq<Step>, i: nat, t: nat, id: string)
    returns (k: nat, granted: string)
    requires Execution(cfg, states, steps) && i < |states|
    requires t in states[i].jobs && states[i].jobs[t].honoured == Some(RefreshToken(id))
    ensures k < |states[i].log| && states[i].log[k].issued == Some(RefreshToken(id))
    ensures NamesClient(states[i].log[k].job.idToken, granted)
    ensures var j := states[i].jobs[t];
            j.req.Refresh? && NamesClient(j.idToken, if j.req.clientID != "" then j.req.clientID else granted)
  {
    SourceAlways(cfg, states, steps, i);
    var j := states[i].jobs[t];
    assert JobSources(cfg, states[i].log, j);
    var g :| RefreshFrom(states[i].log, id, g) && RefreshedFor(j, g);
    k :| 0 <= k < |states[i].log| && IssuesRefresh(states[i].log[k], id, g);
    granted := g.clientID;
  }

  /** Section 3.1.2.1 of OpenID Connect Core 1.0, at every moment of every run: prompt=none
      never logs anyone in, prompt=login never reuses a session and its auth_time is now, a
      login_hint decides the subject, and a front-channel id_token echoes the nonce and is
      for the client that asked. */
  lemma PromptsAreObeyed(cfg: Config, states: seq<State>, steps: seq<Step>, i: nat, t: nat)
    requires Execution(cfg, states, steps) && i < |states| && t in states[i].jobs && states[i].jobs[t].req.Authorize?
    ensures PromptObeyed(states[i].jobs[t])
    ensures var j := states[i].jobs[t];
            j.idToken.Some? ==> EchoesNonce(j.idToken, j.req.nonce) && NamesClient(j.idToken, j.req.clientID)
  {
    SourceAlways(cfg, states, steps, i);
  }

  // ------------------------------------------------------------------------- sessions

  /** The request is past the point where it ends the session its cookie names: a logout
      that is over, or a new login that is about to start its own session or has. */
  predicate PastEnding(j: Job) {
    if j.req.Authorize? then
      j.login.Some? && (j.phase.StartingNew? || j.phase.Answering? || j.phase.Finished?)
    else
      j.req.Logout? && j.phase.Finished?
  }

  function CookieOf(r: Request): Option<string> {
    if r.Authorize? || r.Logout? then r.cookie else None
  }

  lemma EndingStep(cfg: Config, w: World, j: Job, id: string)
    requires !j.phase.Finished? && CookieOf(j.req) == Some(id) && !PastEnding(j)
    ensures var o := Perform(cfg, w, j);
            o.job.req == j.req && (PastEnding(o.job) ==> id !in o.world.logins.entries)
  {
  }

  /** Logging out ends the browser's session, and so does a new login, for good: once such a
      request is past that point, no request that begins later can reuse the session,
      whatever others did meanwhile. */
  lemma {:induction false} EndedSessionsStayEnded(cfg: Config, states: seq<State>, steps: seq<Step>,
                                                  a: nat, i: nat, t: nat, id: string)
    requires Execution(cfg, states, steps) && a < i < |states| && steps[a].Arrive? && steps[a].t == t
    requires CookieOf(steps[a].req) == Some(id) && SessionId(id) in Issued(states[a].log)
    ensures t in states[i].jobs && states[i].jobs[t].req == steps[a].req
    ensures SessionId(id) in Issued(states[i].log)
    ensures PastEnding(states[i].jobs[t]) ==> id !in states[i].world.logins.entries
    decreases i
  {
    var k := i - 1;
    assert StepAt(cfg, states, steps, k);
    IssuedStep(cfg, states[k], steps[k]);
    if a < k {
      EndedSessionsStayEnded(cfg, states, steps, a, k, t, id);
      var j := states[k].jobs[t];
      if PastEnding(j) {
        GoneStep(cfg, states[k], steps[k], SessionId(id));
      } else if steps[k] == Advance(t) {
        EndingStep(cfg, states[k].world, j, id);
      }
    }
  }

  // --------------------------------------------------------------- second-factor enforcement

  predicate FirstFactor(r: Request) {
    r.Password? || r.Passwordless?
  }

  lemma EnforcedStep(cfg: Config, w: World, j: Job)
    requires !j.phase.Finished? && FirstFactor(j.req) && j.idToken.None? && j.login.None? && w.mfaRequired
    ensures var o := Perform(cfg, w, j); o.job.req == j.req && o.job.idToken.None? && o.job.login.None?
  {
  }

  /** While enforcement stays on, a first factor alone completes no login: a password or
      passwordless request that arrives under it never gets an id_token, whatever happens
      between its steps. */
  lemma {:induction false} EnforcementNeedsSecondFactor(cfg: Config, states: seq<State>, steps: seq<Step>,
                                                        a: nat, i: nat, t: nat)
    requires Execution(cfg, states, steps) && a < i < |states| && steps[a].Arrive? && steps[a].t == t
    requires FirstFactor(steps[a].req) && forall m :: a <= m < i ==> states[m].world.mfaRequired
    ensures t in states[i].jobs && states[i].jobs[t].req == steps[a].req
    ensures states[i].jobs[t].idToken.None? && states[i].jobs[t].login.None?
    decreases i
  {
    var k := i - 1;
    assert StepAt(cfg, states, steps, k);
    if a < k {
      EnforcementNeedsSecondFactor(cfg, states, steps, a, k, t);
      if steps[k] == Advance(t) {
        EnforcedStep(cfg, states[k].world, states[k].jobs[t]);
      }
    }
  }
}
