/** The lineage of id_tokens over whole runs of interleaved requests: every id_token carries
    the login it descends from (section 12.2 of OpenID Connect Core 1.0), whatever the
    other requests do between its own request's store calls. */
module LoginLineage {
  import opened Prelude
  import opened ExpiringStore
  import opened SessionStore
  import opened LoginFlow
  import opened LoginClaims

  // --------------------------------------------------------------------- descent

  /** The login a request belongs to: its own, or that of the credential it honoured. */
  function LoginOf(owner: map<Credential, LoginRecord>, j: Job): Option<LoginRecord> {
    if j.login.Some? then j.login
    else if j.honoured.Some? && j.honoured.value in owner then Some(owner[j.honoured.value])
    else None
  }

  function Extended(owner: map<Credential, LoginRecord>, t: Turn): map<Credential, LoginRecord> {
    var l := LoginOf(owner, t.job);
    if t.issued.None? || l.None? then owner else owner[t.issued.value := l.value]
  }

  /** Which login each issued credential descends from. This reads only what was honoured
      and what was handed out, never the contents of a store or a token. */
  function Owner(log: seq<Turn>): map<Credential, LoginRecord> {
    if log == [] then map[] else Extended(Owner(log[..|log| - 1]), log[|log| - 1])
  }

  // ------------------------------------------------------------------- the invariant

  ghost predicate LoginsInv(w: World, owner: map<Credential, LoginRecord>) {
    forall id :: id in w.logins.entries ==>
      var l := w.logins.entries[id];
      SessionId(id) in owner && owner[SessionId(id)] == SubjectRecord(l) && l.subject != "" && l.authTime != ZERO_TIME
  }

  ghost predicate CodesInv(w: World, owner: map<Credential, LoginRecord>) {
    forall id :: id in w.codes ==>
      var e := w.codes[id].value;
      Code(id) in owner && owner[Code(id)] == SubjectRecord(Login(e.loginHint, e.authTime)) && e.loginHint != ""
  }

  function GrantRecord(g: Grant): LoginRecord {
    LoginRecord(g.subject, g.authTime, g.realm, g.profile)
  }

  ghost predicate RefreshInv(w: World, owner: map<Credential, LoginRecord>) {
    forall id :: id in w.refresh.entries ==>
      var g := w.refresh.entries[id];
      RefreshToken(id) in owner && owner[RefreshToken(id)] == GrantRecord(g) && ProfileOnly(g.profile)
  }

  ghost predicate MfaInv(w: World) {
    forall id :: id in w.mfaTokens ==> ProperContext(w.mfaTokens[id].value)
  }

  ghost predicate WorldInv(w: World, owner: map<Credential, LoginRecord>) {
    LoginsInv(w, owner) && CodesInv(w, owner) && RefreshInv(w, owner) && MfaInv(w)
  }

  /** What a request holds between its steps agrees with the login it belongs to. */
  ghost predicate JobInv(owner: map<Credential, LoginRecord>, j: Job) {
    var l := LoginOf(owner, j);
    && (j.idToken.Some? ==> l.Some? && Carries(j.idToken.value, l.value))
    && match j.phase
       case Arrived => j.idToken.None? && (j.req.Authorize? ==> j.req.now != ZERO_TIME)
       case Recording(login) => IsLogin(l, login)
       case Rechecking(login) => IsLogin(l, login)
       case EndingOld(login) => IsLogin(l, login)
       case StartingNew(login) => IsLogin(l, login)
       case Challenging(ctx) => ProperContext(ctx)
       case Granting(g) => l == Some(GrantRecord(g)) && ProfileOnly(g.profile)
       case _ => true
  }

  predicate IsLogin(l: Option<LoginRecord>, login: Login) {
    l == Some(SubjectRecord(login)) && login.subject != "" && login.authTime != ZERO_TIME
  }

  /** Ownership of what was issued before never changes. */
  predicate Grows(owner: map<Credential, LoginRecord>, owner': map<Credential, LoginRecord>) {
    forall c :: c in owner ==> c in owner' && owner'[c] == owner[c]
  }

  lemma WorldUnderGrowth(w: World, owner: map<Credential, LoginRecord>, owner': map<Credential, LoginRecord>)
    requires WorldInv(w, owner) && Grows(owner, owner')
    ensures WorldInv(w, owner')
  {
  }

  lemma JobUnderGrowth(owner: map<Credential, LoginRecord>, owner': map<Credential, LoginRecord>, j: Job)
    requires JobInv(owner, j) && Grows(owner, owner')
    ensures JobInv(owner', j) && (LoginOf(owner, j).Some? ==> LoginOf(owner', j) == LoginOf(owner, j))
  {
  }

  // --------------------------------------------------------- the first step of a request

  lemma LookupGood(w: World, owner: map<Credential, LoginRecord>, r: Request)
    requires r.Authorize? && WorldInv(w, owner) && r.now != ZERO_TIME
    ensures JobInv(owner, AfterLookup(LiveLogin(w, r.cookie), r))
  {
    var live := LiveLogin(w, r.cookie);
    var resolved := Resolve(live, r);
    if !resolved.LoginRequired? && r.idToken {
      FrontTokenCarries(r, resolved.login);
    }
  }

  lemma ConsumeGood(cfg: Config, w: World, owner: map<Credential, LoginRecord>, r: Request, entry: Option<CodeEntry>)
    requires r.Exchange? && CodesInv(w, owner)
    requires entry.Some? ==> r.presented in w.codes && entry.value == w.codes[r.presented].value
    ensures JobInv(owner, AfterConsume(cfg, entry, r))
  {
    ExchangeTokenCarries(entry, r);
    DerivedIsProfile(ExchangeLogin(entry, r).subject);
    RedeemedGood(owner, r, entry.Some?, ExchangeLogin(entry, r), ExchangeClaims(entry, r));
  }

  lemma RedeemedGood(owner: map<Credential, LoginRecord>, r: Request, known: bool, l: Login, extra: Claims)
    requires r.Exchange? && Carries(Minted(l.subject, r.clientID, extra), SubjectRecord(l))
    requires ProfileOf(extra) == DeriveProfile(l.subject) && ProfileOnly(ProfileOf(extra))
    requires known ==> Code(r.presented) in owner && owner[Code(r.presented)] == SubjectRecord(l)
    ensures JobInv(owner, Redeemed(r, known, l, extra))
  {
  }

  lemma FetchGood(owner: map<Credential, LoginRecord>, grant: Option<Grant>, r: Request)
    requires r.Refresh?
    requires grant.Some? ==> RefreshToken(r.presented) in owner && ProfileOnly(grant.value.profile)
                             && owner[RefreshToken(r.presented)] == GrantRecord(grant.value)
    ensures JobInv(owner, AfterFetch(grant, r))
  {
    if grant.Some? {
      var g := grant.value;
      var clientID := if r.clientID == "" then g.clientID else r.clientID;
      LoginExtrasRecord(clientID, GrantRecord(g));
      MintedCarries(clientID, LoginExtras(clientID, g.realm, g.authTime), GrantRecord(g));
    }
  }

  lemma LogInGood(owner: map<Credential, LoginRecord>, r: Request, honoured: Option<Credential>,
                  ctx: MfaContext, now: int)
    requires !r.Authorize? && !r.Logout? && ProperContext(ctx)
    ensures JobInv(owner, LogIn(r, honoured, ctx, now))
  {
    ExtraSplits(ctx, now);
    LoginTokenCarries(ctx, now);
  }

  lemma FlagGood(cfg: Config, owner: map<Credential, LoginRecord>, required: bool, r: Request)
    requires r.Password? || r.Passwordless?
    ensures JobInv(owner, AfterFlag(cfg, required, r))
  {
    ContextIsProper(cfg, r);
    LogInGood(owner, r, None, ContextOf(cfg, r), r.now);
  }

  lemma TokenGood(owner: map<Credential, LoginRecord>, ctx: Option<MfaContext>, r: Request)
    requires r.MfaGrant? && (ctx.Some? ==> ProperContext(ctx.value))
    ensures JobInv(owner, AfterToken(ctx, r))
  {
    if ctx.Some? {
      LogInGood(owner, r, Some(MfaToken(r.presented)), ctx.value, r.now);
    }
  }

  lemma BeginKeepsWorld(cfg: Config, w: World, owner: map<Credential, LoginRecord>, r: Request)
    requires WorldInv(w, owner)
    ensures WorldInv(Begin(cfg, w, r).0, owner)
  {
  }

  lemma BeginGood(cfg: Config, w: World, owner: map<Credential, LoginRecord>, r: Request)
    requires WorldInv(w, owner) && (r.Authorize? ==> r.now != ZERO_TIME)
    ensures JobInv(owner, Begin(cfg, w, r).1)
  {
    match r {
      case Authorize(_, _, _, _, _, _, _, _, _, _, _, _, _, _, _, _, _, _) => LookupGood(w, owner, r);
      case Exchange(code, _, _, _, takeNow, _, _) =>
        ConsumeGood(cfg, w, owner, r, if code == "" then None else Taken(w.codes, code, takeNow));
      case Refresh(token, _, _, _) =>
        FetchGood(owner, if token in w.refresh.entries then Some(w.refresh.entries[token]) else None, r);
      case Password(_, _, _, _, _, _, _, _, _, _) => FlagGood(cfg, owner, w.mfaRequired, r);
      case Passwordless(_, _, _, _, _, _, _, _, _, _) => FlagGood(cfg, owner, w.mfaRequired, r);
      case MfaGrant(token, _, _, takeNow, _, _) => TokenGood(owner, Taken(w.mfaTokens, token, takeNow), r);
      case Logout(_) =>
    }
  }

  // ------------------------------------------------------------------ every later step

  lemma ExtendedGrows(owner: map<Credential, LoginRecord>, t: Turn)
    requires t.issued.Some? ==> t.issued.value !in owner
    ensures Grows(owner, Extended(owner, t))
  {
  }

  lemma StoringCodeKeeps(w: World, owner: map<Credential, LoginRecord>, r: Request, l: Login)
    requires r.Authorize? && WorldInv(w, owner) && l.subject != "" && l.authTime != ZERO_TIME
    requires Code(r.newCode) in owner && owner[Code(r.newCode)] == SubjectRecord(l)
    ensures WorldInv(w.(codes := Stored(w.codes, r.newCode, CodeEntryFor(r, l), r.sweepNow, r.storeNow)), owner)
  {
  }

  lemma StartingKeeps(w: World, owner: map<Credential, LoginRecord>, id: string, l: Login)
    requires WorldInv(w, owner) && l.subject != "" && l.authTime != ZERO_TIME
    requires SessionId(id) in owner && owner[SessionId(id)] == SubjectRecord(l)
    ensures WorldInv(w.(logins := Append(w.logins, MAX_ENTRIES, id, l)), owner)
  {
  }

  lemma GrantingKeeps(w: World, owner: map<Credential, LoginRecord>, id: string, g: Grant)
    requires WorldInv(w, owner) && ProfileOnly(g.profile)
    requires RefreshToken(id) in owner && owner[RefreshToken(id)] == GrantRecord(g)
    ensures WorldInv(w.(refresh := Remember(w.refresh, MAX_ENTRIES, id, g)), owner)
  {
  }

  lemma EndingKeeps(w: World, owner: map<Credential, LoginRecord>, id: string)
    requires WorldInv(w, owner)
    ensures WorldInv(w.(logins := Forget(w.logins, id)), owner)
  {
  }

  lemma ChallengingKeeps(w: World, owner: map<Credential, LoginRecord>, id: string, ctx: MfaContext, now: int, at: int)
    requires WorldInv(w, owner) && ProperContext(ctx)
    ensures WorldInv(w.(mfaTokens := Stored(w.mfaTokens, id, ctx, now, at)), owner)
  {
  }

  lemma PerformKeepsWorld(cfg: Config, w: World, owner: map<Credential, LoginRecord>, j: Job)
    requires WorldInv(w, owner) && JobInv(owner, j) && !j.phase.Finished? && !j.phase.Arrived?
    requires var o := Perform(cfg, w, j); o.issued.Some? ==> o.issued.value !in owner
    ensures var o := Perform(cfg, w, j); WorldInv(o.world, Extended(owner, Turn(o.job, o.issued)))
  {
    var o := Perform(cfg, w, j);
    var owner' := Extended(owner, Turn(o.job, o.issued));
    ExtendedGrows(owner, Turn(o.job, o.issued));
    WorldUnderGrowth(w, owner, owner');
    match j.phase {
      case Recording(l) => StoringCodeKeeps(w, owner', j.req, l);
      case StartingNew(l) => StartingKeeps(w, owner', j.req.newSession, l);
      case Granting(g) => GrantingKeeps(w, owner', j.req.newRefresh, g);
      case EndingOld(_) => EndingKeeps(w, owner', j.req.cookie.value);
      case SigningOff => EndingKeeps(w, owner', j.req.cookie.value);
      case Challenging(ctx) => ChallengingKeeps(w, owner', j.req.newMfa, ctx, j.req.sweepNow, j.req.storeNow);
      case _ =>
    }
  }

  lemma PerformKeepsJob(cfg: Config, w: World, owner: map<Credential, LoginRecord>, j: Job)
    requires JobInv(owner, j) && !j.phase.Finished? && !j.phase.Arrived?
    requires var o := Perform(cfg, w, j); o.issued.Some? ==> o.issued.value !in owner
    ensures var o := Perform(cfg, w, j); JobInv(Extended(owner, Turn(o.job, o.issued)), o.job)
  {
    var o := Perform(cfg, w, j);
    ExtendedGrows(owner, Turn(o.job, o.issued));
    JobUnderGrowth(owner, Extended(owner, Turn(o.job, o.issued)), j);
  }

  lemma PerformGood(cfg: Config, w: World, owner: map<Credential, LoginRecord>, j: Job)
    requires WorldInv(w, owner) && JobInv(owner, j) && !j.phase.Finished?
    requires var o := Perform(cfg, w, j); o.issued.Some? ==> o.issued.value !in owner
    ensures var o := Perform(cfg, w, j);
            var owner' := Extended(owner, Turn(o.job, o.issued));
            WorldInv(o.world, owner') && JobInv(owner', o.job)
  {
    if j.phase.Arrived? {
      BeginKeepsWorld(cfg, w, owner, j.req);
      BeginGood(cfg, w, owner, j.req);
    } else {
      PerformKeepsWorld(cfg, w, owner, j);
      PerformKeepsJob(cfg, w, owner, j);
    }
  }

  // -------------------------------------------------------------------- whole runs

  ghost predicate Inv(s: State) {
    WorldInv(s.world, Owner(s.log)) && forall t :: t in s.jobs ==> JobInv(Owner(s.log), s.jobs[t])
  }

  lemma {:induction false} OwnersWereIssued(log: seq<Turn>)
    ensures Owner(log).Keys <= Issued(log)
  {
    if log != [] {
      OwnersWereIssued(log[..|log| - 1]);
    }
  }

  lemma OwnerStep(cfg: Config, s: State, t: nat)
    requires Enabled(cfg, s, Advance(t))
    ensures var o, s' := Perform(cfg, s.world, s.jobs[t]), Next(cfg, s, Advance(t));
            && (o.issued.Some? ==> o.issued.value !in Owner(s.log))
            && Owner(s'.log) == Extended(Owner(s.log), Turn(o.job, o.issued))
            && Grows(Owner(s.log), Owner(s'.log))
  {
    var s' := Next(cfg, s, Advance(t));
    assert s'.log[..|s'.log| - 1] == s.log;
    OwnersWereIssued(s.log);
    var o := Perform(cfg, s.world, s.jobs[t]);
    ExtendedGrows(Owner(s.log), Turn(o.job, o.issued));
  }

  lemma StepKeeps(cfg: Config, s: State, step: Step)
    requires Inv(s) && Enabled(cfg, s, step)
    ensures Inv(Next(cfg, s, step))
  {
    if step.Advance? {
      var s' := Next(cfg, s, step);
      OwnerStep(cfg, s, step.t);
      PerformGood(cfg, s.world, Owner(s.log), s.jobs[step.t]);
      forall t | t in s'.jobs && t != step.t
        ensures JobInv(Owner(s'.log), s'.jobs[t])
      {
        JobUnderGrowth(Owner(s.log), Owner(s'.log), s.jobs[t]);
      }
    }
  }

  lemma {:induction false} InvAlways(cfg: Config, states: seq<State>, steps: seq<Step>, i: nat)
    requires Execution(cfg, states, steps) && i < |states|
    ensures Inv(states[i])
  {
    if i > 0 {
      InvAlways(cfg, states, steps, i - 1);
      assert StepAt(cfg, states, steps, i - 1);
      StepKeeps(cfg, states[i - 1], steps[i - 1]);
    }
  }

  /** Every id_token of every run, however many silent logins, code exchanges and refreshes
      lie between and however the requests interleave, belongs to one login and carries
      that login's subject, auth_time, realm and profile. */
  lemma IdTokensKeepTheirLogin(cfg: Config, states: seq<State>, steps: seq<Step>, i: nat, t: nat)
    requires Execution(cfg, states, steps) && i < |steps| && steps[i] == Advance(t)
    requires t in states[i].jobs && !states[i].jobs[t].phase.Finished?
    requires Perform(cfg, states[i].world, states[i].jobs[t]).answer.Some?
    ensures var login := LoginOf(Owner(states[i].log), states[i].jobs[t]);
            login.Some? && Carries(Perform(cfg, states[i].world, states[i].jobs[t]).answer.value, login.value)
  {
    InvAlways(cfg, states, steps, i);
  }

  /** A login at Go's zero instant is the one case the stores lose: the code's entry is
      stamped with the store clock instead. */
  lemma CodeKeepsTheLoginInstant(r: Request, l: Login)
    requires r.Authorize?
    ensures CodeEntryFor(r, l).authTime == l.authTime <==> l.authTime != ZERO_TIME || r.storeNow == ZERO_TIME
  {
  }

  lemma {:induction false} OwnerGrows(cfg: Config, states: seq<State>, steps: seq<Step>, i: nat, j: nat)
    requires Execution(cfg, states, steps) && i <= j < |states|
    ensures Grows(Owner(states[i].log), Owner(states[j].log))
    decreases j
  {
    if i < j {
      OwnerGrows(cfg, states, steps, i, j - 1);
      assert StepAt(cfg, states, steps, j - 1);
      OwnerStepGrows(cfg, states[j - 1], steps[j - 1]);
    }
  }

  lemma OwnerStepGrows(cfg: Config, s: State, step: Step)
    requires Enabled(cfg, s, step)
    ensures Grows(Owner(s.log), Owner(Next(cfg, s, step).log))
  {
    if step.Advance? {
      OwnerStep(cfg, s, step.t);
    }
  }

  /** A session that is live at two moments of a run is for the same login at both. */
  lemma SessionsKeepTheirLogin(cfg: Config, states: seq<State>, steps: seq<Step>, i: nat, j: nat, id: string)
    requires Execution(cfg, states, steps) && i <= j < |states|
    requires id in states[i].world.logins.entries && id in states[j].world.logins.entries
    ensures states[i].world.logins.entries[id] == states[j].world.logins.entries[id]
  {
    InvAlways(cfg, states, steps, i);
    InvAlways(cfg, states, steps, j);
    OwnerGrows(cfg, states, steps, i, j);
    assert SessionId(id) in Owner(states[i].log);
  }
}
