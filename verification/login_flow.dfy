/** Logging in: /authorize, /oauth/token and the stores behind them
    (internal/authapi/authorize.go, internal/authapi/token.go,
    internal/authapi/mfa_grants.go, internal/authapi/profile.go) as a step system. The
    handlers hold no lock between their store calls, so each request is a job that makes
    them one at a time, interleaved with all others; one step is one critical section of a
    store and the computation up to the next. Generated ids and clock readings are part of
    the request. */
module LoginFlow {
  import opened Prelude
  import opened ExpiringStore
  import opened SessionStore

  const DEFAULT_SUBJECT := "auth0|mock-user"

  /** Go's zero time in nanoseconds since 1970. */
  const ZERO_TIME := -62_135_596_800_000_000_000

  /** time.Time.Unix: whole seconds, rounding down. */
  function Unix(t: int): int {
    t / 1_000_000_000
  }

  // ----------------------------------------------------------------------- profiles

  const PROFILE_KEYS := {"email", "email_verified", "name", "nickname", "picture",
                         "phone_number", "phone_number_verified"}

  function ProfileOf(extra: Claims): Claims {
    map k | k in extra && k in PROFILE_KEYS :: extra[k]
  }

  /** What follows the last `c`, or everything. */
  function AfterLast(s: string, c: char): string {
    if c !in s then s else AfterLast(s[1..], c)
  }

  /** What precedes the first `c`, or everything. */
  function UpTo(s: string, c: char): string {
    if s == "" || s[0] == c then "" else [s[0]] + UpTo(s[1..], c)
  }

  function Lower(s: string): string {
    seq(|s|, i requires 0 <= i < |s| => if 'A' <= s[i] <= 'Z' then s[i] - 'A' + 'a' else s[i])
  }

  /** deriveProfile: the profile a subject always has. */
  function DeriveProfile(subject: string): Claims {
    var local := UpTo(AfterLast(subject, '|'), '@');
    var email := if '@' in subject then subject else local + "@example.com";
    var initials := if |Lower(local)| > 2 then Lower(local)[..2] else Lower(local);
    map["email" := S(email), "email_verified" := B(true), "name" := S(email), "nickname" := S(local),
        "picture" := S("https://cdn.auth0.com/avatars/" + initials + ".png")]
  }

  /** fillProfile: what extra sets wins over the derived profile. */
  function FillProfile(extra: Claims, subject: string): Claims {
    DeriveProfile(subject) + extra
  }

  // ------------------------------------------------------------------------- stores

  /** pkce.Entry, less the fields no token reads. */
  datatype CodeEntry = CodeEntry(challenge: string, hashMethod: string, nonce: string, loginHint: string, authTime: int)

  /** mfa.Context, less audience and scope. */
  datatype MfaContext = MfaContext(clientID: string, subject: string, realm: string, profile: Option<Claims>)

  datatype World = World(
    logins: Fifo<Login>, refresh: Fifo<Grant>, codes: Table<CodeEntry>, mfaTokens: Table<MfaContext>, mfaRequired: bool)

  /** The opaque hashes: base64url SHA-256 of a verifier, and the passwordless subject's
      digest of a lower-cased identifier. */
  datatype Config = Config(s256: string -> string, digest: string -> string)

  // ---------------------------------------------------------------- requests and events

  datatype Factor =
    | Otp(code: string)
    | Oob(oobCode: string, bindingCode: string)
    | RecoveryCode(code: string)

  /** Clock readings: `now` is the handler's, `sweepNow` and `storeNow` are those of the
      store's Put, `takeNow` that of its Consume. `mintFails` is a signing failure. */
  datatype Request =
    | Authorize(cookie: Option<string>, promptNone: bool, promptLogin: bool, hint: string,
                validType: bool, code: bool, token: bool, idToken: bool,
                clientID: string, nonce: string, challenge: string, hashMethod: string,
                mintFails: bool, now: int, sweepNow: int, storeNow: int, newCode: string, newSession: string)
    | Exchange(presented: string, verifier: string, clientID: string, mintFails: bool,
               takeNow: int, now: int, newRefresh: string)
    | Refresh(presented: string, clientID: string, mintFails: bool, newRefresh: string)
    | Password(username: string, generated: string, realm: Option<string>, clientID: string, mintFails: bool,
               now: int, sweepNow: int, storeNow: int, newRefresh: string, newMfa: string)
    | Passwordless(identifier: string, via: string, otp: string, clientID: string, mintFails: bool,
                   now: int, sweepNow: int, storeNow: int, newRefresh: string, newMfa: string)
    | MfaGrant(presented: string, factor: Factor, mintFails: bool, takeNow: int, now: int, newRefresh: string)
    | Logout(cookie: Option<string>)

  datatype Credential = SessionId(id: string) | Code(id: string) | RefreshToken(id: string) | MfaToken(id: string)

  /** Who logged in and when, and how the id_tokens of that login look. */
  datatype LoginRecord = LoginRecord(subject: string, authTime: int, realm: string, profile: Claims)

  /** The store call a request is about to make. */
  datatype Phase =
    | Arrived                          // read the session, consume the code, ...
    | Recording(login: Login)          // store the code's entry
    | Rechecking(login: Login)         // look for the browser's session once more
    | EndingOld(login: Login)          // end it
    | StartingNew(login: Login)        // start the new one
    | Challenging(ctx: MfaContext)     // issue an mfa_token
    | Granting(grant: Grant)           // remember the grant of a new refresh token
    | SigningOff                       // end the session on logout
    | Answering                        // none left: write the response
    | Finished

  /** `honoured` is the credential the answer is based on, `login` is set when this request
      is itself a login, `idToken` is the token it will answer with. */
  datatype AnyJob = Job(req: Request, phase: Phase, honoured: Option<Credential>, login: Option<LoginRecord>,
                        idToken: Option<Claims>)

  predicate Fits(j: AnyJob) {
    match j.phase
    case Recording(_) => j.req.Authorize? && j.req.code
    case Rechecking(_) => j.req.Authorize?
    case EndingOld(_) => j.req.Authorize? && j.req.cookie.Some?
    case StartingNew(_) => j.req.Authorize?
    case Challenging(_) => j.req.Password? || j.req.Passwordless?
    case Granting(_) => !j.req.Authorize? && !j.req.Logout?
    case SigningOff => j.req.Logout? && j.req.cookie.Some?
    case Answering => !j.req.Logout?
    case _ => true
  }

  type Job = j: AnyJob | Fits(j) witness Job(Logout(None), Arrived, None, None, None)

  function Refused(r: Request): Job {
    Job(r, Finished, None, None, None)
  }

  /** Mint: the registered claims, then the extras over them. */
  function Minted(subject: string, audience: string, extra: Claims): Claims {
    map["sub" := S(subject), "aud" := S(audience)] + extra
  }

  // ---------------------------------------------------------------------- /authorize

  /** validateResponseType. */
  predicate Servable(r: Request)
    requires r.Authorize?
  {
    && r.validType
    && (r.challenge != "" ==> 43 <= |r.challenge| <= 128)
    && (r.token || r.idToken ==> r.clientID != "")
    && (r.idToken ==> r.nonce != "")
  }

  function LiveLogin(w: World, cookie: Option<string>): Option<Login> {
    if cookie.Some? && cookie.value in w.logins.entries then Some(w.logins.entries[cookie.value]) else None
  }

  datatype Resolved = LoginRequired | Reuse(login: Login) | New(login: Login)

  /** resolveLogin, given the request's live session if any (section 3.1.2.1 of OpenID
      Connect Core 1.0 for the prompts). */
  function Resolve(live: Option<Login>, r: Request): Resolved
    requires r.Authorize?
  {
    if r.promptNone then
      if live.Some? then Reuse(live.value) else LoginRequired
    else if r.hint != "" then
      if live.Some? && r.hint == live.value.subject && !r.promptLogin then Reuse(live.value)
      else New(Login(r.hint, r.now))
    else if live.Some? && !r.promptLogin then Reuse(live.value)
    else New(Login(DEFAULT_SUBJECT, r.now))
  }

  /** pkce.Store.Put stamps a zero AuthTime with the store clock. */
  function StampedTime(authTime: int, storeNow: int): int {
    if authTime == ZERO_TIME then storeNow else authTime
  }

  /** RFC 7636: plain is the default when a challenge names no method. */
  function ChallengeMethod(challenge: string, hashMethod: string): string {
    if challenge == "" then "" else if hashMethod == "" then "plain" else hashMethod
  }

  function CodeEntryFor(r: Request, l: Login): CodeEntry
    requires r.Authorize?
  {
    CodeEntry(r.challenge, ChallengeMethod(r.challenge, r.hashMethod), r.nonce, l.subject,
              StampedTime(l.authTime, r.storeNow))
  }

  /** The id_token of a front-channel response; at_hash and c_hash are left out. */
  function FrontIdToken(r: Request, l: Login): Option<Claims>
    requires r.Authorize?
  {
    if !r.idToken then None
    else Some(Minted(l.subject, r.clientID,
                     DeriveProfile(l.subject) + map["azp" := S(r.clientID), "nonce" := S(r.nonce),
                                                    "auth_time" := I(Unix(l.authTime))]))
  }

  function SubjectRecord(l: Login): LoginRecord {
    LoginRecord(l.subject, l.authTime, "", DeriveProfile(l.subject))
  }

  /** ServeHTTP up to recordCode, once the browser's session has been read. */
  function AfterLookup(live: Option<Login>, r: Request): Job
    requires r.Authorize? && (live.Some? ==> r.cookie.Some?)
  {
    var resolved := Resolve(live, r);
    if !Servable(r) || resolved.LoginRequired? || ((r.token || r.idToken) && r.mintFails) then Refused(r)
    else
      var l := resolved.login;
      if resolved.Reuse? then
        Job(r, if r.code then Recording(l) else Answering, Some(SessionId(r.cookie.value)), None, FrontIdToken(r, l))
      else
        Job(r, if r.code then Recording(l) else Rechecking(l), None, Some(SubjectRecord(l)), FrontIdToken(r, l))
  }

  // --------------------------------------------------------------------- /oauth/token

  /** pkce.Entry.Verify. */
  predicate Verify(cfg: Config, hashMethod: string, challenge: string, verifier: string) {
    && verifier != ""
    && ((hashMethod == "S256" && cfg.s256(verifier) == challenge) || (hashMethod == "plain" && verifier == challenge))
  }

  predicate ExchangeRefused(cfg: Config, entry: Option<CodeEntry>, r: Request)
    requires r.Exchange?
  {
    var hasChallenge := entry.Some? && entry.value.challenge != "";
    && r.presented != "" && (hasChallenge || r.verifier != "")
    && !(hasChallenge && Verify(cfg, entry.value.hashMethod, entry.value.challenge, r.verifier))
  }

  /** Whose tokens these are; without a stored entry the default user logs in now. */
  function ExchangeLogin(entry: Option<CodeEntry>, r: Request): Login
    requires r.Exchange?
  {
    if entry.None? then Login(DEFAULT_SUBJECT, r.now)
    else Login(if entry.value.loginHint != "" then entry.value.loginHint else DEFAULT_SUBJECT, entry.value.authTime)
  }

  function ExchangeExtras(entry: Option<CodeEntry>, clientID: string, authTime: int): Claims {
    map["azp" := S(clientID)]
    + (if entry.Some? && entry.value.nonce != "" then map["nonce" := S(entry.value.nonce)] else map[])
    + map["auth_time" := I(Unix(authTime))]
  }

  function ExchangeClaims(entry: Option<CodeEntry>, r: Request): Claims
    requires r.Exchange?
  {
    var l := ExchangeLogin(entry, r);
    DeriveProfile(l.subject) + ExchangeExtras(entry, r.clientID, l.authTime)
  }

  /** respondAuthorizationCode from Consume up to issueRefreshToken. */
  function AfterConsume(cfg: Config, entry: Option<CodeEntry>, r: Request): Job
    requires r.Exchange?
  {
    if ExchangeRefused(cfg, entry, r) || r.mintFails then Refused(r)
    else Redeemed(r, entry.Some?, ExchangeLogin(entry, r), ExchangeClaims(entry, r))
  }

  /** The tokens of an exchange, for the user of the code or, without one, for a new login. */
  function Redeemed(r: Request, known: bool, l: Login, extra: Claims): Job
    requires r.Exchange?
  {
    Job(r, Granting(Grant(l.subject, r.clientID, "", l.authTime, ProfileOf(extra))),
        if known then Some(Code(r.presented)) else None, if known then None else Some(SubjectRecord(l)),
        Some(Minted(l.subject, r.clientID, extra)))
  }

  function Connection(realm: string): Claims {
    if realm == "" then map[] else map["connection" := S(realm)]
  }

  /** The extras of a refresh or a back-channel login beside the profile. */
  function LoginExtras(clientID: string, realm: string, authTime: int): Claims {
    map["azp" := S(clientID), "auth_time" := I(Unix(authTime))] + Connection(realm)
  }

  /** respondRefreshToken; an unknown refresh token is answered with an access token only. */
  function AfterFetch(grant: Option<Grant>, r: Request): Job
    requires r.Refresh?
  {
    if grant.None? || r.mintFails then Refused(r)
    else
      var g := grant.value;
      var clientID := if r.clientID == "" then g.clientID else r.clientID;
      var extra := g.profile + LoginExtras(clientID, g.realm, g.authTime);
      Job(r, Granting(g.(clientID := clientID, profile := ProfileOf(extra))),
          Some(RefreshToken(r.presented)), None, Some(Minted(g.subject, clientID, extra)))
  }

  function PasswordExtra(subject: string, clientID: string, realm: string, authTime: int): Claims {
    FillProfile(map["email" := S(subject), "email_verified" := B(true), "name" := S(subject)]
                + LoginExtras(clientID, realm, authTime), subject)
  }

  const PASSWORDLESS_OTP := "000000"

  /** passwordlessUser: a stable subject, and a phone or a derived profile. */
  function PasswordlessUser(cfg: Config, realm: string, identifier: string): (string, Claims) {
    (realm + "|" + cfg.digest(Lower(identifier)),
     if realm == "sms" then
       map["phone_number" := S(identifier), "phone_number_verified" := B(true), "name" := S(identifier),
           "nickname" := S(identifier), "picture" := S("https://cdn.auth0.com/avatars/default.png")]
     else DeriveProfile(identifier))
  }

  /** The checks before a first factor is accepted. */
  predicate FirstFactorAccepted(r: Request)
    requires r.Password? || r.Passwordless?
  {
    match r
    case Password(_, _, realm, _, _, _, _, _, _, _) => realm != Some("")
    case Passwordless(identifier, via, otp, clientID, _, _, _, _, _, _) =>
      clientID != "" && identifier != "" && (via == "email" || via == "sms") && otp == PASSWORDLESS_OTP
  }

  /** What the first factor established. */
  function ContextOf(cfg: Config, r: Request): MfaContext
    requires r.Password? || r.Passwordless?
  {
    match r
    case Password(username, generated, realm, clientID, _, _, _, _, _, _) =>
      MfaContext(clientID, if username == "" then generated else username,
                 if realm.Some? then realm.value else "", None)
    case Passwordless(identifier, via, _, clientID, _, _, _, _, _, _) =>
      var (subject, profile) := PasswordlessUser(cfg, via, identifier);
      MfaContext(clientID, subject, via, Some(profile))
  }

  function ExtraOf(ctx: MfaContext, authTime: int): Claims {
    if ctx.profile.Some? then ctx.profile.value + LoginExtras(ctx.clientID, ctx.realm, authTime)
    else PasswordExtra(ctx.subject, ctx.clientID, ctx.realm, authTime)
  }

  /** A completed back-channel login, before its grant is remembered. */
  function LogIn(r: Request, honoured: Option<Credential>, ctx: MfaContext, now: int): Job
    requires !r.Authorize? && !r.Logout?
  {
    var extra := ExtraOf(ctx, now);
    Job(r, Granting(Grant(ctx.subject, ctx.clientID, ctx.realm, now, ProfileOf(extra))), honoured,
        Some(LoginRecord(ctx.subject, now, ctx.realm, ProfileOf(extra))),
        Some(Minted(ctx.subject, ctx.clientID, extra)))
  }

  /** The password and passwordless grants, once requireMFA has read the flag. */
  function AfterFlag(cfg: Config, required: bool, r: Request): Job
    requires r.Password? || r.Passwordless?
  {
    if !FirstFactorAccepted(r) then Refused(r)
    else if required then Job(r, Challenging(ContextOf(cfg, r)), None, None, None)
    else if r.mintFails then Refused(r)
    else LogIn(r, None, ContextOf(cfg, r), r.now)
  }

  predicate FactorAccepted(f: Factor) {
    match f
    case Otp(c) => c == "123456"
    case Oob(oob, binding) => oob != "" && binding == "123456"
    case RecoveryCode(c) => c == "ABCDEFGHIJKLMNOP"
  }

  /** The MFA grants: the mfa_token is consumed before the factor is looked at. */
  function AfterToken(ctx: Option<MfaContext>, r: Request): Job
    requires r.MfaGrant?
  {
    if ctx.None? || !FactorAccepted(r.factor) || r.mintFails then Refused(r)
    else LogIn(r, Some(MfaToken(r.presented)), ctx.value, r.now)
  }

  // -------------------------------------------------------------------- the step system

  /** The first critical section of a request. */
  function Begin(cfg: Config, w: World, r: Request): (World, Job) {
    match r
    case Authorize(_, _, _, _, _, _, _, _, _, _, _, _, _, _, _, _, _, _) =>
      (w, AfterLookup(LiveLogin(w, r.cookie), r))
    case Exchange(code, _, _, _, takeNow, _, _) =>
      if code == "" then (w, AfterConsume(cfg, None, r))
      else (w.(codes := w.codes - {code}), AfterConsume(cfg, Taken(w.codes, code, takeNow), r))
    case Refresh(token, _, _, _) =>
      (w, AfterFetch(if token in w.refresh.entries then Some(w.refresh.entries[token]) else None, r))
    case Password(_, _, _, _, _, _, _, _, _, _) => (w, AfterFlag(cfg, w.mfaRequired, r))
    case Passwordless(_, _, _, _, _, _, _, _, _, _) => (w, AfterFlag(cfg, w.mfaRequired, r))
    case MfaGrant(token, _, _, takeNow, _, _) =>
      if token == "" then (w, Refused(r))
      else (w.(mfaTokens := w.mfaTokens - {token}), AfterToken(Taken(w.mfaTokens, token, takeNow), r))
    case Logout(cookie) =>
      (w, if LiveLogin(w, cookie).Some? then Job(r, SigningOff, None, None, None) else Refused(r))
  }

  datatype Outcome = Outcome(world: World, job: Job, issued: Option<Credential>, answer: Option<Claims>)

  /** One critical section. */
  function Perform(cfg: Config, w: World, j: Job): Outcome
    requires !j.phase.Finished?
  {
    var r := j.req;
    match j.phase
    case Arrived =>
      var (w', j') := Begin(cfg, w, r);
      Outcome(w', j', None, None)
    case Recording(l) =>
      Outcome(w.(codes := Stored(w.codes, r.newCode, CodeEntryFor(r, l), r.sweepNow, r.storeNow)),
              j.(phase := if j.login.None? then Answering else Rechecking(l)), Some(Code(r.newCode)), None)
    case Rechecking(l) =>
      Outcome(w, j.(phase := if LiveLogin(w, r.cookie).Some? then EndingOld(l) else StartingNew(l)), None, None)
    case EndingOld(l) =>
      Outcome(w.(logins := Forget(w.logins, r.cookie.value)), j.(phase := StartingNew(l)), None, None)
    case StartingNew(l) =>
      Outcome(w.(logins := Append(w.logins, MAX_ENTRIES, r.newSession, l)), j.(phase := Answering),
              Some(SessionId(r.newSession)), None)
    case Challenging(ctx) =>
      Outcome(w.(mfaTokens := Stored(w.mfaTokens, r.newMfa, ctx, r.sweepNow, r.storeNow)), j.(phase := Finished),
              Some(MfaToken(r.newMfa)), None)
    case Granting(g) =>
      Outcome(w.(refresh := Remember(w.refresh, MAX_ENTRIES, r.newRefresh, g)), j.(phase := Answering),
              Some(RefreshToken(r.newRefresh)), None)
    case SigningOff =>
      Outcome(w.(logins := Forget(w.logins, r.cookie.value)), j.(phase := Finished), None, None)
    case Answering => Outcome(w, j.(phase := Finished), None, j.idToken)
  }

  /** One step of a request: the job after it, and what the step handed out. */
  datatype Turn = Turn(job: Job, issued: Option<Credential>)

  datatype State = State(world: World, jobs: map<nat, Job>, log: seq<Turn>)

  const INITIAL := State(World(Fifo(map[], []), Fifo(map[], []), map[], map[], false), map[], [])

  /** Codes survive an admin reset: the reset handler has no hold on their store
      (internal/admin0/admin0.go:141-152). */
  datatype Step =
    | Arrive(t: nat, req: Request)
    | Advance(t: nat)
    | ClearSessions
    | ClearMfaTokens
    | SetRequired(required: bool)

  function Issued(log: seq<Turn>): set<Credential> {
    if log == [] then {}
    else Issued(log[..|log| - 1]) + (if log[|log| - 1].issued.Some? then {log[|log| - 1].issued.value} else {})
  }

  /** Generated ids are fresh, and nobody logs in at Go's zero instant. */
  predicate Enabled(cfg: Config, s: State, step: Step) {
    match step
    case Arrive(t, req) => t !in s.jobs && (req.Authorize? ==> req.now != ZERO_TIME)
    case Advance(t) =>
      && t in s.jobs && !s.jobs[t].phase.Finished?
      && var o := Perform(cfg, s.world, s.jobs[t]); (o.issued.Some? ==> o.issued.value !in Issued(s.log))
    case _ => true
  }

  function Next(cfg: Config, s: State, step: Step): State
    requires Enabled(cfg, s, step)
  {
    match step
    case Arrive(t, req) => s.(jobs := s.jobs[t := Job(req, Arrived, None, None, None)])
    case Advance(t) =>
      var o := Perform(cfg, s.world, s.jobs[t]);
      State(o.world, s.jobs[t := o.job], s.log + [Turn(o.job, o.issued)])
    case ClearSessions =>
      s.(world := s.world.(logins := Fifo(map[], []), refresh := Fifo(map[], [])))
    case ClearMfaTokens => s.(world := s.world.(mfaTokens := map[]))
    case SetRequired(required) => s.(world := s.world.(mfaRequired := required))
  }

  ghost predicate StepAt(cfg: Config, states: seq<State>, steps: seq<Step>, i: nat)
    requires i < |steps| && |states| == |steps| + 1
  {
    Enabled(cfg, states[i], steps[i]) && states[i + 1] == Next(cfg, states[i], steps[i])
  }

  ghost predicate Execution(cfg: Config, states: seq<State>, steps: seq<Step>) {
    && |states| == |steps| + 1
    && states[0] == INITIAL
    && forall i :: 0 <= i < |steps| ==> StepAt(cfg, states, steps, i)
  }
}
