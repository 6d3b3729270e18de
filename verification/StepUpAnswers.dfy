/** What each request to the step-up machine is answered with, exactly, said of the request and the token presented. */
module StepUpAnswers {
  import opened StepUp
  import opened Tokens
  import opened Uuids
  import opened Wrappers
  import RateLimiter

  // ---- presenting a token ----

  /** This server signed the token, for itself and this audience, and it has not expired. */
  predicate Usable(c: Config, w: World, t: Claims, audience: string, now: int) {
    t in w.issued && t.issuer == c.issuer && t.audience == audience && now < t.expiresAt * 1_000_000_000
  }

  predicate Allowlisted(httpMethod: string, path: string) {
    httpMethod == "POST" && path in {"/me/password", "/auth/logout-all"}
  }

  lemma AcceptedExactly(c: Config, w: World, raw: Option<Claims>, audience: string, now: int)
    ensures ParseWithAudience(c, w.issued, raw, audience, now)
            == if raw.Some? && Usable(c, w, raw.value, audience, now) then raw else None
  {
  }

  lemma AdmittedExactly(c: Config, w: World, raw: Option<Claims>, httpMethod: string, path: string, now: int)
    ensures var a := Admit(c, w, raw, httpMethod, path, now);
            var good := raw.Some? && Usable(c, w, raw.value, c.clientAudience, now);
            && (a.Admitted? <==> good && (raw.value.pwc ==> Allowlisted(httpMethod, path)))
            && (a.Admitted? ==> a.claims == raw.value)
            && (a.Refused? ==> a.response in {Error(401, "unauthorized"), Error(403, "password_change_required")})
            && (a == Refused(Error(401, "unauthorized")) <==> !good)
            && (a == Refused(Error(403, "password_change_required"))
                <==> good && raw.value.pwc && !Allowlisted(httpMethod, path))
  {
  }

  /** A client route answers by its guard alone. */
  lemma GuardedExactly(c: Config, w: World, raw: Option<Claims>, httpMethod: string, path: string, now: int)
    ensures var (w', answer) := GuardedStep(c, w, raw, httpMethod, path, now);
            && (answer == Served <==> raw.Some? && Usable(c, w, raw.value, c.clientAudience, now)
                                      && (raw.value.pwc ==> Allowlisted(httpMethod, path)))
            && (answer != Served ==> w' == w)
            && w'.issued == w.issued
  {
  }

  // ---- login ----

  /**
   A login by its credential check and the user's MFA: wrong credentials are refused; with MFA
   only a pending token is given; without it a token pair; anything else is a database error.
   */
  lemma LoginExactly(c: Config, w: World, r: LoginRequest)
    ensures var (w', answer) := LoginStep(c, w, r);
            var known := r.check.Done? && r.check.value.Some?;
            && (answer == Error(401, "invalid_credentials") <==> r.check == Done(None))
            && (answer.PendingLogin? <==> known && r.enabled == Done(true))
            && (answer.Pair? <==>
                  known && r.enabled == Done(false) && (r.check.value.value.mustChange || r.refreshSaved))
            && (answer == DbError <==>
                  || r.check.Failed?
                  || (known && (r.enabled.Failed?
                                || (r.enabled == Done(false) && !r.check.value.value.mustChange && !r.refreshSaved))))
            && (w' != w <==> answer.PendingLogin? || answer.Pair?)
  {
    hide PairBody, IssueJWT, IssueMFAToken;
    if r.check.Done? && r.check.value.Some? {
      var pr := r.check.value.value;
      HistoryGrew(w, IssueMFAToken(c, pr, r.pendingId, r.now), r, pr);
      HistoryGrew(w, IssueJWT(c, pr, ["pwd"], None, r.now), r, pr);
    }
  }

  lemma HistoryGrew(w: World, t: Claims, r: LoginRequest, pr: Principal)
    ensures w.Minting(t, PasswordChecked(pr, r.now, t)) != w
  {
    assert |w.Minting(t, PasswordChecked(pr, r.now, t)).history| == |w.history| + 1;
  }

  /** The pending token names the user checked, proves no factor, and is good for its own audience until it expires. */
  lemma PendingTokenIs(c: Config, w: World, r: LoginRequest, now: int)
    requires LoginStep(c, w, r).1.PendingLogin?
    ensures var (w', answer) := LoginStep(c, w, r);
            var pr, t := r.check.value.value, answer.token;
            && answer.user == t.subject == pr.user && t.role == pr.role && t.username == pr.username
            && t.pwc == pr.mustChange && t.id == r.pendingId && t.amr == [] && t.txnLink == None
            && (Usable(c, w', t, "bank0-mfa", now) <==> now < (r.now + c.mfaTtl) / SECOND * SECOND)
  {
  }

  // ---- second factor ----

  /** The user is not locked out, has a secret, and the code is right or a recovery code that was burned for it. */
  predicate RightCode(r: VerifyRequest) {
    && r.locked == Done(false) && r.secret == Done(true)
    && (r.codeValid || r.burned == Done(true))
    && r.attempt.Done?
  }

  /** All that is asked of a second-factor request before its code is looked at. */
  predicate Checkable(c: Config, w: World, r: VerifyRequest) {
    && c.mfaConfigured && r.raw.Some? && Usable(c, w, r.raw.value, "bank0-mfa", r.now)
    && r.locked == Done(false) && r.secret == Done(true)
  }

  /** A token pair is given, or anything changes, exactly for a good pending token and a right code. */
  lemma VerifiedExactly(c: Config, w: World, r: VerifyRequest)
    ensures var (w', answer) := VerifyStep(c, w, r);
            && (answer.Pair? <==> Checkable(c, w, r) && RightCode(r) && (r.raw.value.pwc || r.refreshSaved))
            && (w' != w <==> answer.Pair?)
  {
    hide PairBody, IssueJWT, LinkOf;
    AcceptedExactly(c, w, r.raw, MFA_AUDIENCE, r.now);
    hide ParseWithAudience, Usable;
    var w' := VerifyStep(c, w, r).0;
    assert VerifyStep(c, w, r).1.Pair? ==> |w'.history| == |w.history| + 1;
  }

  /** The answers of a second-factor request that is refused. */
  lemma UnverifiedBecause(c: Config, w: World, r: VerifyRequest)
    ensures var answer := VerifyStep(c, w, r).1;
            var good := c.mfaConfigured && r.raw.Some? && Usable(c, w, r.raw.value, "bank0-mfa", r.now);
            var wrong := !r.codeValid && r.burned == Done(false);
            && (answer == Error(503, "mfa_unavailable") <==> !c.mfaConfigured)
            && (answer == Error(401, "unauthorized") <==> c.mfaConfigured && !good)
            && (answer == Error(500, "internal") <==> good && r.locked == Done(false) && r.secret == Done(false))
            && (answer == Error(429, "mfa_locked") <==>
                  good && (r.locked == Done(true) || (Checkable(c, w, r) && wrong && r.attempt == Done(true))))
            && (answer == Error(401, "invalid_code") <==> Checkable(c, w, r) && wrong && r.attempt == Done(false))
            && (answer == DbError <==>
                  good && (r.locked.Failed?
                           || (r.locked == Done(false)
                               && (r.secret.Failed?
                                   || (r.secret == Done(true)
                                       && ((!r.codeValid && r.burned.Failed?) || r.attempt.Failed?
                                           || (RightCode(r) && !r.raw.value.pwc && !r.refreshSaved)))))))
  {
    hide PairBody, IssueJWT, LinkOf;
    AcceptedExactly(c, w, r.raw, MFA_AUDIENCE, r.now);
    hide ParseWithAudience, Usable;
  }

  // ---- refresh ----

  lemma RefreshedExactly(c: Config, w: World, r: RefreshRequest)
    ensures var (w', answer) := RefreshStep(c, w, r);
            && (answer.Pair? <==> r.token != "" && r.rotated.Done?)
            && (answer == Error(400, "bad_request") <==> r.token == "")
            && (answer == DbError <==> r.token != "" && r.rotated.Failed?)
            && (w' != w <==> answer.Pair?)
  {
    hide PairBody, IssueJWT;
    assert RefreshStep(c, w, r).1.Pair? ==> |RefreshStep(c, w, r).0.history| == |w.history| + 1;
  }

  // ---- what a pair holds ----

  /** Whom a request that earns a token pair is for, when it was made, and the refresh token drawn for it. */
  predicate Earned(r: Request, user: Uuid, role: string, username: string, now: int, refresh: string) {
    match r
    case Login(x) =>
      x.now == now && x.refresh == refresh && x.check.Done? && x.check.value.Some?
      && var pr := x.check.value.value; (user, role, username) == (pr.user, pr.role, pr.username)
    case MfaVerify(x) =>
      x.now == now && x.refresh == refresh && x.raw.Some?
      && var t := x.raw.value; (user, role, username) == (t.subject, t.role, t.username)
    case Refresh(x) =>
      x.now == now && x.refresh == refresh && x.rotated.Done?
      && var pr := x.rotated.value; (user, role, username) == (pr.user, pr.role, pr.username)
    case _ => false
  }

  /** The factors and the link a request can put in a token: only a verified code gives either. */
  predicate Factors(r: Request, t: Claims) {
    && ("otp" in t.amr <==> r.MfaVerify?)
    && (r.MfaVerify? && r.verify.link.Some? ==> t.txnLink == Some(LinkHash(r.verify.link.value)))
    && (!r.MfaVerify? || r.verify.link.None? ==> t.txnLink == None)
  }

  /**
   A token pair is for the user of the request; its access token carries who that is and the factors
   the request proved, and is good until exactly the whole second of the expiry told to the client.
   */
  lemma PairIs(c: Config, w: World, r: Request, user: Uuid, role: string, username: string, now: int, refresh: string,
               later: int)
    requires Step(c, w, r).1.Pair? && Earned(r, user, role, username, now, refresh)
    ensures var (w', answer) := Step(c, w, r);
            var b := answer.body;
            && "token" in b && b["token"].Token?
            && "user_id" in b && b["user_id"] == User(user)
            && "token_type" in b && b["token_type"] == Text("Bearer")
            && "expires_at" in b && b["expires_at"] == Time(now + c.jwtTtl)
            && ("refresh_token" in b ==> b["refresh_token"] == Text(refresh))
            && ("password_change_required" in b ==> b["password_change_required"] == Flag(true))
            && var t := b["token"].token;
               && t.subject == user && t.role == role && t.username == username && Factors(r, t)
               && t.authTime == now / SECOND
               && (Usable(c, w', t, c.clientAudience, later) <==> later < (now + c.jwtTtl) / SECOND * SECOND)
  {
    hide ParseWithAudience, VerifyRefusal, StepUpGate, PasswordChangeRouteOK, PairBody, LinkOf, LinkHash, IssueJWT,
      Factors, Usable;
    RefusalsAreNoPairs(c, w, r);
    match r {
      case Login(x) =>
        var pr := x.check.value.value;
        TokenIs(c, r, pr, ["pwd"], None, now, later);
        BodyIs(c, pr, IssueJWT(c, pr, ["pwd"], None, now), if pr.mustChange then "" else refresh, now, refresh);
      case MfaVerify(x) =>
        ParsedIsRaw(c, w, x.raw, MFA_AUDIENCE, x.now);
        var pr := Principal(x.raw.value.subject, x.raw.value.role, x.raw.value.username, x.raw.value.pwc);
        TokenIs(c, r, pr, ["pwd", "otp"], LinkOf(x.link), now, later);
        BodyIs(c, pr, IssueJWT(c, pr, ["pwd", "otp"], LinkOf(x.link), now),
               if pr.mustChange then "" else refresh, now, refresh);
      case Refresh(x) =>
        var pr := x.rotated.value;
        TokenIs(c, r, pr, ["pwd"], None, now, later);
        BodyIs(c, pr, IssueJWT(c, pr, ["pwd"], None, now), refresh, now, refresh);
      case _ =>
    }
  }

  lemma ParsedIsRaw(c: Config, w: World, raw: Option<Claims>, audience: string, now: int)
    ensures ParseWithAudience(c, w.issued, raw, audience, now).Some? ==>
              ParseWithAudience(c, w.issued, raw, audience, now) == raw
  {
  }

  lemma RefusalsAreNoPairs(c: Config, w: World, r: Request)
    ensures r.MfaVerify? && VerifyRefusal(r.verify).Some? ==> !VerifyRefusal(r.verify).value.Pair?
    ensures r.CreateTransfer? || r.TransferIntent? || r.Guarded? ==> !Step(c, w, r).1.Pair?
  {
    hide ParseWithAudience, StepUpGate, PasswordChangeRouteOK;
  }

  lemma TokenIs(c: Config, r: Request, pr: Principal, amr: seq<string>, link: Option<Digest>, now: int, later: int)
    requires amr == if r.MfaVerify? then ["pwd", "otp"] else ["pwd"]
    requires link == if r.MfaVerify? then LinkOf(r.verify.link) else None
    ensures var t := IssueJWT(c, pr, amr, link, now);
            && t.subject == pr.user && t.role == pr.role && t.username == pr.username && Factors(r, t)
            && t.authTime == now / SECOND
            && forall w': World {:trigger Usable(c, w', t, c.clientAudience, later)} :: t in w'.issued ==>
                 (Usable(c, w', t, c.clientAudience, later) <==> later < (now + c.jwtTtl) / SECOND * SECOND)
  {
    hide LinkHash;
    assert |"pwd"| == 3;
    assert "pwd"[0] != "otp"[0];
    assert r.MfaVerify? ==> amr[1] == "otp";
  }

  lemma BodyIs(c: Config, pr: Principal, t: Claims, given: string, now: int, refresh: string)
    requires pr.mustChange || given == refresh
    ensures var b := PairBody(c, pr, t, given, now);
            && "token" in b && b["token"] == Token(t)
            && "user_id" in b && b["user_id"] == User(pr.user)
            && "token_type" in b && b["token_type"] == Text("Bearer")
            && "expires_at" in b && b["expires_at"] == Time(now + c.jwtTtl)
            && ("refresh_token" in b ==> b["refresh_token"] == Text(refresh))
            && ("password_change_required" in b ==> b["password_change_required"] == Flag(true))
  {
    assert |"token"| == 5 && |"user_id"| == 7 && |"token_type"| == 10 && |"expires_at"| == 10
           && |"password_change_required"| == 24 && |"refresh_token"| == 13 && "token_type"[0] != "expires_at"[0];
  }

  // ---- the transfer gate ----

  /** A one-time code, no older than the maximum age, proved for exactly this payment. */
  predicate FreshFor(c: Config, t: Claims, p: Payment, now: int) {
    && "otp" in t.amr && RateLimiter.Sub(now, t.authTime * 1_000_000_000) <= c.stepUpMaxAge
    && t.txnLink == Some(LinkHash(p))
  }

  /** The evaluation asks for a second factor that the caller could give and has not. */
  predicate Demanded(c: Config, t: Claims, p: Payment, e: Evaluation, enabled: Db<bool>, now: int) {
    e.stepUpMethod != "" && !FreshFor(c, t, p, now) && enabled == Done(true)
  }

  /** Whether the caller has MFA is asked only where it matters, and then must be answered. */
  predicate Decidable(c: Config, t: Claims, p: Payment, e: Evaluation, enabled: Db<bool>, now: int) {
    e.stepUpMethod == "" || FreshFor(c, t, p, now) || enabled.Done?
  }

  /** The gate opens exactly when no factor is demanded, and what it reports never advertises one it does not demand. */
  lemma GateExactly(c: Config, t: Claims, p: Payment, eval: Db<Evaluation>, enabled: Db<bool>, now: int)
    ensures var g := StepUpGate(c, t, p, eval, enabled, now);
            && (g.GateError? <==> eval.Failed? || !Decidable(c, t, p, eval.value, enabled, now))
            && (g.Gate? ==>
                  var e := eval.value;
                  && (g.gated <==> Demanded(c, t, p, e, enabled, now))
                  && (if g.gated || e.stepUpMethod == "" then g.eval == e
                      else g.eval.stepUpMethod == ""
                           && g.eval.decision == if e.decision == "step_up" then "allow" else e.decision))
  {
    hide LinkHash;
  }

  /** A submit is served exactly for an admitted unflagged token, a readable payment, and a gate not demanding. */
  lemma ServedExactly(c: Config, w: World, r: TransferRequest)
    ensures TransferStep(c, w, r, "/transfers", false).1 == Served <==>
            && r.raw.Some? && Usable(c, w, r.raw.value, c.clientAudience, r.now) && !r.raw.value.pwc
            && r.payment.Some? && r.eval.Done?
            && Decidable(c, r.raw.value, r.payment.value, r.eval.value, r.enabled, r.now)
            && !Demanded(c, r.raw.value, r.payment.value, r.eval.value, r.enabled, r.now)
  {
    hide StepUpGate, Decidable, Demanded, Admit, Usable;
    AdmittedExactly(c, w, r.raw, "POST", "/transfers", r.now);
    NotAllowlisted();
    if r.raw.Some? && r.payment.Some? {
      GateExactly(c, r.raw.value, r.payment.value, r.eval, r.enabled, r.now);
    }
  }

  /** Why a submit is not served. */
  lemma UnservedBecause(c: Config, w: World, r: TransferRequest)
    ensures var answer := TransferStep(c, w, r, "/transfers", false).1;
            var good := r.raw.Some? && Usable(c, w, r.raw.value, c.clientAudience, r.now);
            var asked := good && !r.raw.value.pwc && r.payment.Some?;
            && (answer == Error(401, "unauthorized") <==> !good)
            && (answer == Error(403, "password_change_required") <==> good && r.raw.value.pwc)
            && (answer == Error(400, "bad_request") <==> good && !r.raw.value.pwc && r.payment.None?)
            && (answer == Error(403, "step_up_required") <==>
                  asked && r.eval.Done? && Demanded(c, r.raw.value, r.payment.value, r.eval.value, r.enabled, r.now))
            && (answer == DbError <==>
                  asked && (r.eval.Failed?
                            || !Decidable(c, r.raw.value, r.payment.value, r.eval.value, r.enabled, r.now)))
  {
    hide StepUpGate, Decidable, Demanded, Admit, Usable;
    AdmittedExactly(c, w, r.raw, "POST", "/transfers", r.now);
    NotAllowlisted();
    assert |"password_change_required"| == 24 && |"step_up_required"| == 16;
    if r.raw.Some? && r.payment.Some? {
      GateExactly(c, r.raw.value, r.payment.value, r.eval, r.enabled, r.now);
      DemandedNeedsMethod(c, r.raw.value, r.payment.value, r.eval, r.enabled, r.now);
    }
  }

  /** What the preview says: the evaluation as it is where a step-up would be demanded, downgraded where not. */
  lemma IntentExactly(c: Config, w: World, r: TransferRequest)
    requires TransferStep(c, w, r, "/transfers/intent", true).1.Intent?
    ensures var answer := TransferStep(c, w, r, "/transfers/intent", true).1;
            && r.raw.Some? && r.payment.Some? && r.eval.Done?
            && var e := r.eval.value;
               if Demanded(c, r.raw.value, r.payment.value, e, r.enabled, r.now)
               then answer == Intent(e.decision, e.stepUpMethod)
               else if e.stepUpMethod != "" && e.decision == "step_up" then answer == Intent("allow", "")
               else answer == Intent(e.decision, "")
  {
    hide StepUpGate, Decidable, Demanded, Admit, Usable;
    AdmittedExactly(c, w, r.raw, "POST", "/transfers/intent", r.now);
    if r.raw.Some? && r.payment.Some? {
      GateExactly(c, r.raw.value, r.payment.value, r.eval, r.enabled, r.now);
      DemandedNeedsMethod(c, r.raw.value, r.payment.value, r.eval, r.enabled, r.now);
    }
  }

  lemma DemandedNeedsMethod(c: Config, t: Claims, p: Payment, eval: Db<Evaluation>, enabled: Db<bool>, now: int)
    ensures eval.Done? && eval.value.stepUpMethod == "" ==> !Demanded(c, t, p, eval.value, enabled, now)
    ensures eval.Done? && Demanded(c, t, p, eval.value, enabled, now) ==> Decidable(c, t, p, eval.value, enabled, now)
  {
  }

  lemma NotAllowlisted()
    ensures !Allowlisted("POST", "/transfers") && !Allowlisted("POST", "/transfers/intent")
  {
    assert |"/transfers"| == 10 && |"/transfers/intent"| == 17 && |"/me/password"| == 12 && |"/auth/logout-all"| == 16;
  }

  /**
   A right code opens the gate: for the maximum age less a second, and until the token expires, the
   token it earned passes a demanded step-up for the linked payment.
   */
  lemma RightCodeOpensGate(c: Config, w: World, x: VerifyRequest, p: Payment, w': World, r: TransferRequest)
    requires VerifyStep(c, w, x).1.Pair? && x.link == Some(p) && !x.raw.value.pwc
    requires "token" in VerifyStep(c, w, x).1.body && VerifyStep(c, w, x).1.body["token"].Token?
    requires r.raw == Some(VerifyStep(c, w, x).1.body["token"].token) && r.raw.value in w'.issued
    requires r.payment == Some(p) && r.eval.Done?
    requires r.now < (x.now + c.jwtTtl) / SECOND * SECOND
    requires RateLimiter.MIN_DURATION <= r.now - x.now <= c.stepUpMaxAge - SECOND + 1
    requires c.stepUpMaxAge <= RateLimiter.MAX_DURATION
    ensures TransferStep(c, w', r, "/transfers", false).1 == Served
  {
    hide VerifyStep, TransferStep, Step, LinkHash;
    var t := r.raw.value;
    VerifyIsStep(c, w, x);
    VerifiedExactly(c, w, x);
    PairIs(c, w, MfaVerify(x), x.raw.value.subject, x.raw.value.role, x.raw.value.username, x.now, x.refresh, r.now);
    GoodInLater(c, VerifyStep(c, w, x).0, w', t, r.now);
    assert !t.pwc by { UnflaggedPair(c, w, x); }
    ServedExactly(c, w', r);
  }

  lemma VerifyIsStep(c: Config, w: World, x: VerifyRequest)
    ensures Step(c, w, MfaVerify(x)) == VerifyStep(c, w, x)
  {
    hide VerifyStep;
  }

  lemma GoodInLater(c: Config, w: World, w': World, t: Claims, now: int)
    requires Usable(c, w, t, c.clientAudience, now) && t in w'.issued
    ensures Usable(c, w', t, c.clientAudience, now)
  {
  }

  lemma UnflaggedPair(c: Config, w: World, x: VerifyRequest)
    requires VerifyStep(c, w, x).1.Pair? && "token" in VerifyStep(c, w, x).1.body
    requires VerifyStep(c, w, x).1.body["token"].Token?
    ensures VerifyStep(c, w, x).1.body["token"].token.pwc == x.raw.value.pwc
  {
    hide ParseWithAudience, VerifyRefusal, LinkOf, PairBody;
    ParsedIsRaw(c, w, x.raw, MFA_AUDIENCE, x.now);
    var pr := Principal(x.raw.value.subject, x.raw.value.role, x.raw.value.username, x.raw.value.pwc);
    RefusalsAreNoPairs(c, w, MfaVerify(x));
    BodyIs(c, pr, IssueJWT(c, pr, ["pwd", "otp"], LinkOf(x.link), x.now),
           if pr.mustChange then "" else x.refresh, x.now, x.refresh);
  }
}
