/** What the claims of an id_token say: that extras record a login and leave subject and
    profile alone, that minting them gives a token which carries the login, and which nonce
    and client it names. */
module LoginClaims {
  import opened Prelude
  import opened SessionStore
  import opened LoginFlow

  /** The id_token shows this login's subject, instant, realm and profile. */
  predicate Carries(t: Claims, l: LoginRecord) {
    && "sub" in t && t["sub"] == S(l.subject)
    && "auth_time" in t && t["auth_time"] == I(Unix(l.authTime))
    && (if l.realm == "" then "connection" !in t else "connection" in t && t["connection"] == S(l.realm))
    && ProfileOf(t) == l.profile
  }

  predicate ProfileOnly(c: Claims) {
    forall k :: k in c ==> k in PROFILE_KEYS
  }

  /** Extras that record this login and leave subject and profile alone. */
  predicate Records(over: Claims, l: LoginRecord) {
    && (forall k :: k in over ==> k !in PROFILE_KEYS && k != "sub")
    && "auth_time" in over && over["auth_time"] == I(Unix(l.authTime))
    && (if l.realm == "" then "connection" !in over else "connection" in over && over["connection"] == S(l.realm))
  }

  lemma KeyNames()
    ensures "sub" !in PROFILE_KEYS && "aud" !in PROFILE_KEYS && "auth_time" !in PROFILE_KEYS
    ensures "connection" !in PROFILE_KEYS && "azp" !in PROFILE_KEYS && "nonce" !in PROFILE_KEYS
  {
    assert |"sub"| == 3 && |"aud"| == 3 && |"azp"| == 3;
    assert "auth_time"[0] == 'a' && "connection"[0] == 'c' && "nonce"[1] == 'o';
  }

  /** deriveProfile sets profile keys only. */
  lemma DerivedIsProfile(subject: string)
    ensures ProfileOf(DeriveProfile(subject)) == DeriveProfile(subject)
    ensures ProfileOnly(DeriveProfile(subject))
  {
  }

  lemma MintedCarries(audience: string, over: Claims, l: LoginRecord)
    requires ProfileOnly(l.profile) && Records(over, l)
    ensures Carries(Minted(l.subject, audience, l.profile + over), l)
    ensures ProfileOf(l.profile + over) == l.profile
  {
    KeyNames();
  }

  lemma FrontTokenCarries(r: Request, l: Login)
    requires r.Authorize? && FrontIdToken(r, l).Some?
    ensures Carries(FrontIdToken(r, l).value, SubjectRecord(l))
  {
    DerivedIsProfile(l.subject);
    KeyNames();
    MintedCarries(r.clientID,
                  map["azp" := S(r.clientID), "nonce" := S(r.nonce), "auth_time" := I(Unix(l.authTime))],
                  SubjectRecord(l));
  }

  lemma ExchangeExtrasRecord(entry: Option<CodeEntry>, clientID: string, l: Login)
    ensures Records(ExchangeExtras(entry, clientID, l.authTime), SubjectRecord(l))
  {
    KeyNames();
  }

  lemma ExchangeTokenCarries(entry: Option<CodeEntry>, r: Request)
    requires r.Exchange?
    ensures var l, extra := ExchangeLogin(entry, r), ExchangeClaims(entry, r);
            && Carries(Minted(l.subject, r.clientID, extra), SubjectRecord(l))
            && ProfileOf(extra) == DeriveProfile(l.subject)
  {
    var l := ExchangeLogin(entry, r);
    DerivedIsProfile(l.subject);
    ExchangeExtrasRecord(entry, r.clientID, l);
    MintedCarries(r.clientID, ExchangeExtras(entry, r.clientID, l.authTime), SubjectRecord(l));
  }

  lemma LoginExtrasRecord(clientID: string, l: LoginRecord)
    ensures Records(LoginExtras(clientID, l.realm, l.authTime), l)
  {
    KeyNames();
  }

  lemma SplitExtra(extra: Claims, over: Claims)
    requires forall k :: k in over ==> k in extra && extra[k] == over[k] && k !in PROFILE_KEYS
    requires forall k :: k in extra && k !in over ==> k in PROFILE_KEYS
    ensures ProfileOf(extra) + over == extra && ProfileOnly(ProfileOf(extra))
  {
  }

  predicate ProperContext(ctx: MfaContext) {
    ctx.profile.Some? ==> ProfileOnly(ctx.profile.value)
  }

  lemma ContextIsProper(cfg: Config, r: Request)
    requires r.Password? || r.Passwordless?
    ensures ProperContext(ContextOf(cfg, r))
  {
    if r.Passwordless? {
      DerivedIsProfile(r.identifier);
    }
  }

  lemma ExtraSplits(ctx: MfaContext, authTime: int)
    requires ProperContext(ctx)
    ensures var extra := ExtraOf(ctx, authTime);
            && ProfileOf(extra) + LoginExtras(ctx.clientID, ctx.realm, authTime) == extra
            && ProfileOnly(ProfileOf(extra))
  {
    KeyNames();
    DerivedIsProfile(ctx.subject);
    SplitExtra(ExtraOf(ctx, authTime), LoginExtras(ctx.clientID, ctx.realm, authTime));
  }

  lemma LoginTokenCarries(ctx: MfaContext, now: int)
    requires ProperContext(ctx)
    ensures var extra := ExtraOf(ctx, now);
            Carries(Minted(ctx.subject, ctx.clientID, extra),
                    LoginRecord(ctx.subject, now, ctx.realm, ProfileOf(extra)))
  {
    var l := LoginRecord(ctx.subject, now, ctx.realm, ProfileOf(ExtraOf(ctx, now)));
    ExtraSplits(ctx, now);
    LoginExtrasRecord(ctx.clientID, l);
    MintedCarries(ctx.clientID, LoginExtras(ctx.clientID, ctx.realm, now), l);
  }

  // -------------------------------------------------------------------- nonce and client

  /** The id_token echoes this nonce, or has none if it is empty. */
  predicate EchoesNonce(t: Option<Claims>, nonce: string) {
    t.Some? && if nonce == "" then "nonce" !in t.value else "nonce" in t.value && t.value["nonce"] == S(nonce)
  }

  /** The id_token names this client as its audience and as the authorized party. */
  predicate NamesClient(t: Option<Claims>, clientID: string) {
    && t.Some? && "azp" in t.value && t.value["azp"] == S(clientID)
    && "aud" in t.value && t.value["aud"] == S(clientID)
  }

  lemma FrontTokenEchoesNonce(r: Request, l: Login)
    requires r.Authorize? && r.idToken && Servable(r)
    ensures EchoesNonce(FrontIdToken(r, l), r.nonce)
  {
    KeyNames();
  }

  lemma FrontTokenNamesClient(r: Request, l: Login)
    requires r.Authorize? && r.idToken
    ensures NamesClient(FrontIdToken(r, l), r.clientID)
  {
    DerivedIsProfile(l.subject);
    assert "azp"[1] != "aud"[1] && "nonce"[0] != 'a' && |"auth_time"| != 3;
    NamedByExtras(l.subject, r.clientID, DeriveProfile(l.subject),
                  map["azp" := S(r.clientID), "nonce" := S(r.nonce), "auth_time" := I(Unix(l.authTime))]);
  }

  lemma ExchangeEchoesNonce(entry: Option<CodeEntry>, r: Request)
    requires r.Exchange? && entry.Some?
    ensures var l := ExchangeLogin(entry, r);
            EchoesNonce(Some(Minted(l.subject, r.clientID, ExchangeClaims(entry, r))), entry.value.nonce)
  {
    var l := ExchangeLogin(entry, r);
    DerivedIsProfile(l.subject);
    NonceLast(l.subject, r.clientID, DeriveProfile(l.subject), entry, l.authTime);
  }

  lemma NonceLast(subject: string, clientID: string, profile: Claims, entry: Option<CodeEntry>, authTime: int)
    requires ProfileOnly(profile) && entry.Some?
    ensures EchoesNonce(Some(Minted(subject, clientID, profile + ExchangeExtras(entry, clientID, authTime))),
                        entry.value.nonce)
  {
    KeyNames();
  }

  lemma NamedByExtras(subject: string, clientID: string, profile: Claims, over: Claims)
    requires ProfileOnly(profile) && "azp" in over && over["azp"] == S(clientID) && "aud" !in over
    ensures NamesClient(Some(Minted(subject, clientID, profile + over)), clientID)
  {
    KeyNames();
  }

  lemma ExchangeExtrasName(entry: Option<CodeEntry>, clientID: string, authTime: int)
    ensures var over := ExchangeExtras(entry, clientID, authTime);
            "azp" in over && over["azp"] == S(clientID) && "aud" !in over
  {
    assert "azp"[1] != "aud"[1] && "nonce"[0] != 'a' && |"auth_time"| != 3;
  }

  lemma ExchangeNamesClient(entry: Option<CodeEntry>, r: Request)
    requires r.Exchange?
    ensures NamesClient(Some(Minted(ExchangeLogin(entry, r).subject, r.clientID, ExchangeClaims(entry, r))), r.clientID)
  {
    var l := ExchangeLogin(entry, r);
    DerivedIsProfile(l.subject);
    ExchangeExtrasName(entry, r.clientID, l.authTime);
    NamedByExtras(l.subject, r.clientID, DeriveProfile(l.subject), ExchangeExtras(entry, r.clientID, l.authTime));
  }

  lemma LoginExtrasName(clientID: string, realm: string, authTime: int)
    ensures var over := LoginExtras(clientID, realm, authTime);
            "azp" in over && over["azp"] == S(clientID) && "aud" !in over
  {
    assert "azp"[1] != "aud"[1] && "connection"[0] != 'a' && |"auth_time"| != 3;
  }

  lemma RefreshNamesClient(g: Grant, clientID: string)
    requires ProfileOnly(g.profile)
    ensures NamesClient(Some(Minted(g.subject, clientID, g.profile + LoginExtras(clientID, g.realm, g.authTime))),
                        clientID)
  {
    LoginExtrasName(clientID, g.realm, g.authTime);
    NamedByExtras(g.subject, clientID, g.profile, LoginExtras(clientID, g.realm, g.authTime));
  }

  lemma LoginNamesClient(ctx: MfaContext, now: int)
    requires ProperContext(ctx)
    ensures NamesClient(Some(Minted(ctx.subject, ctx.clientID, ExtraOf(ctx, now))), ctx.clientID)
  {
    ExtraSplits(ctx, now);
    LoginExtrasName(ctx.clientID, ctx.realm, now);
    NamedByExtras(ctx.subject, ctx.clientID, ProfileOf(ExtraOf(ctx, now)), LoginExtras(ctx.clientID, ctx.realm, now));
  }
}
