/** What holds in every run of the step-up machine, whoever presents which issued token when. */
module StepUpRuns {
  import opened StepUp
  import StepUpAnswers
  import opened Tokens
  import opened Uuids
  import opened Wrappers
  import RateLimiter

  function WorldAfter(c: Config, requests: seq<Request>): World {
    if requests == [] then NEW_WORLD
    else Step(c, WorldAfter(c, requests[..|requests| - 1]), requests[|requests| - 1]).0
  }

  /** A server's whole life: what it answers and what it has seen are what the theorems speak of. */
  method ServeAll(config: Config, requests: seq<Request>) returns (server: Server, responses: seq<Response>)
    ensures fresh(server) && server.Seen() == WorldAfter(config, requests)
    ensures |responses| == |requests|
    ensures forall i :: 0 <= i < |requests| ==>
              responses[i] == Step(config, WorldAfter(config, requests[..i]), requests[i]).1
  {
    hide Step;
    server := new Server(config);
    responses := [];
    for i := 0 to |requests|
      invariant server.config == config && fresh(server)
      invariant server.Seen() == WorldAfter(config, requests[..i])
      invariant |responses| == i
      invariant forall j :: 0 <= j < i ==>
                  responses[j] == Step(config, WorldAfter(config, requests[..j]), requests[j]).1
    {
      assert requests[..i + 1][..i] == requests[..i];
      var response := server.Serve(requests[i]);
      responses := responses + [response];
    }
    assert requests[..|requests|] == requests;
  }

  // ---- what each event must be preceded by ----

  predicate IsFor(t: Claims, pr: Principal) {
    t.subject == pr.user && t.role == pr.role && t.username == pr.username && t.pwc == pr.mustChange
  }

  /** The event minted this token, as its kind says it should. */
  predicate Mints(c: Config, e: Event, t: Claims) {
    match e
    case PasswordChecked(pr, _, minted) =>
      t == minted && IsFor(t, pr) && "otp" !in t.amr && t.txnLink == None
      && (t.audience == c.clientAudience || t.audience == MFA_AUDIENCE)
    case Rotated(pr, _, minted) =>
      t == minted && IsFor(t, pr) && "otp" !in t.amr && t.txnLink == None
      && t.audience == c.clientAudience
    case CodeAccepted(pending, link, at, minted) =>
      t == minted && IsFor(t, Principal(pending.subject, pending.role, pending.username, pending.pwc))
      && t.txnLink == LinkOf(link) && t.authTime == Unix(at) && t.audience == c.clientAudience
    case _ => false
  }

  predicate MintedIn(c: Config, h: seq<Event>, t: Claims) { exists i :: 0 <= i < |h| && Mints(c, h[i], t) }

  /** A credential check of this user saw this must-change flag. */
  predicate Checks(e: Event, user: Uuid, flag: bool) {
    (e.PasswordChecked? || e.Rotated?) && e.principal.user == user && e.principal.mustChange == flag
  }

  predicate CheckedIn(h: seq<Event>, user: Uuid, flag: bool) { exists i :: 0 <= i < |h| && Checks(h[i], user, flag) }

  /** A code accepted from this user for exactly this payment, at most maxAge before now. */
  predicate Proves(e: Event, user: Uuid, p: Payment, now: int, maxAge: int) {
    e.CodeAccepted? && e.pending.subject == user && e.link == Some(p) && now - e.at <= maxAge
  }

  predicate ProvedIn(h: seq<Event>, user: Uuid, p: Payment, now: int, maxAge: int) {
    exists i :: 0 <= i < |h| && Proves(h[i], user, p, now, maxAge)
  }

  /** What the earlier history must hold for an event to be in order. */
  predicate Justified(c: Config, before: seq<Event>, e: Event) {
    match e
    case PasswordChecked(_, _, minted) => Mints(c, e, minted)
    case Rotated(_, _, minted) => Mints(c, e, minted)
    case CodeAccepted(pending, _, _, minted) =>
      Mints(c, e, minted) && pending.audience == MFA_AUDIENCE
      && MintedIn(c, before, pending) && CheckedIn(before, pending.subject, pending.pwc)
    case Reached(t, httpMethod, path) =>
      && t.audience == c.clientAudience && MintedIn(c, before, t) && CheckedIn(before, t.subject, t.pwc)
      && (t.pwc ==> PasswordChangeRouteOK(httpMethod, path))
    case GatePassed(t, p, demanded, enabled, at) =>
      demanded && enabled == Done(true) ==> ProvedIn(before, t.subject, p, at, c.stepUpMaxAge)
  }

  predicate InOrder(c: Config, h: seq<Event>) { forall i :: 0 <= i < |h| ==> Justified(c, h[..i], h[i]) }

  predicate Accounted(c: Config, w: World) {
    forall t :: t in w.issued ==> MintedIn(c, w.history, t) && CheckedIn(w.history, t.subject, t.pwc)
  }

  predicate Good(c: Config, w: World) { InOrder(c, w.history) && Accounted(c, w) }

  // ---- steps keep it ----

  lemma Grows(c: Config, h: seq<Event>, e: Event, t: Claims)
    ensures MintedIn(c, h, t) ==> MintedIn(c, h + [e], t)
    ensures CheckedIn(h, t.subject, t.pwc) ==> CheckedIn(h + [e], t.subject, t.pwc)
  {
    hide Mints, Checks;
    if MintedIn(c, h, t) {
      var i :| 0 <= i < |h| && Mints(c, h[i], t);
      assert (h + [e])[i] == h[i];
    }
    if CheckedIn(h, t.subject, t.pwc) {
      var i :| 0 <= i < |h| && Checks(h[i], t.subject, t.pwc);
      assert (h + [e])[i] == h[i];
    }
  }

  lemma OrderGrows(c: Config, h: seq<Event>, e: Event)
    requires InOrder(c, h) && Justified(c, h, e)
    ensures InOrder(c, h + [e])
  {
    hide Justified;
    var g := h + [e];
    forall i | 0 <= i < |g|
      ensures Justified(c, g[..i], g[i])
    {
      assert g[..i] == if i < |h| then h[..i] else h;
    }
  }

  lemma NotingKeeps(c: Config, w: World, e: Event)
    requires Good(c, w) && Justified(c, w.history, e)
    ensures Good(c, w.Noting(e))
  {
    hide Justified, InOrder, MintedIn, CheckedIn;
    OrderGrows(c, w.history, e);
    forall t | t in w.issued
      ensures MintedIn(c, w.history + [e], t) && CheckedIn(w.history + [e], t.subject, t.pwc)
    {
      Grows(c, w.history, e, t);
    }
  }

  lemma MintingKeeps(c: Config, w: World, t: Claims, e: Event)
    requires Good(c, w) && Justified(c, w.history, e) && Mints(c, e, t)
    requires CheckedIn(w.history, t.subject, t.pwc) || Checks(e, t.subject, t.pwc)
    ensures Good(c, w.Minting(t, e))
  {
    hide Justified, InOrder, Mints, Checks;
    NotingKeeps(c, w, e);
    var h := w.history + [e];
    assert h[|w.history|] == e;
    Grows(c, w.history, e, t);
  }

  lemma LoginKeeps(c: Config, w: World, r: LoginRequest)
    requires Good(c, w)
    ensures Good(c, LoginStep(c, w, r).0)
  {
    hide Good, MintedIn, CheckedIn, PairBody;
    if r.check.Done? && r.check.value.Some? {
      var pr := r.check.value.value;
      var pending := IssueMFAToken(c, pr, r.pendingId, r.now);
      var token := IssueJWT(c, pr, ["pwd"], None, r.now);
      MintingKeeps(c, w, pending, PasswordChecked(pr, r.now, pending));
      MintingKeeps(c, w, token, PasswordChecked(pr, r.now, token));
    }
  }

  lemma RefreshKeeps(c: Config, w: World, r: RefreshRequest)
    requires Good(c, w)
    ensures Good(c, RefreshStep(c, w, r).0)
  {
    hide Good, MintedIn, CheckedIn, PairBody;
    if r.rotated.Done? {
      var pr := r.rotated.value;
      var token := IssueJWT(c, pr, ["pwd"], None, r.now);
      MintingKeeps(c, w, token, Rotated(pr, r.now, token));
    }
  }

  lemma ParsedIsAccounted(c: Config, w: World, raw: Option<Claims>, audience: string, now: int)
    requires Good(c, w) && ParseWithAudience(c, w.issued, raw, audience, now).Some?
    ensures var t := ParseWithAudience(c, w.issued, raw, audience, now).value;
            t.audience == audience && MintedIn(c, w.history, t) && CheckedIn(w.history, t.subject, t.pwc)
  {
    hide InOrder, MintedIn, CheckedIn;
  }

  lemma VerifyKeeps(c: Config, w: World, r: VerifyRequest)
    requires Good(c, w)
    ensures Good(c, VerifyStep(c, w, r).0)
  {
    hide Good, MintedIn, CheckedIn, PairBody, ParseWithAudience, VerifyRefusal, LinkOf;
    var parsed := ParseWithAudience(c, w.issued, r.raw, MFA_AUDIENCE, r.now);
    if parsed.Some? {
      var pending := parsed.value;
      ParsedIsAccounted(c, w, r.raw, MFA_AUDIENCE, r.now);
      var pr := Principal(pending.subject, pending.role, pending.username, pending.pwc);
      var token := IssueJWT(c, pr, ["pwd", "otp"], LinkOf(r.link), r.now);
      MintingKeeps(c, w, token, CodeAccepted(pending, r.link, r.now, token));
    }
  }

  lemma AdmittedIsJustified(c: Config, w: World, raw: Option<Claims>, httpMethod: string, path: string, now: int)
    requires Good(c, w) && Admit(c, w, raw, httpMethod, path, now).Admitted?
    ensures var t := Admit(c, w, raw, httpMethod, path, now).claims;
            Justified(c, w.history, Reached(t, httpMethod, path)) && t in w.issued
  {
    hide Good, MintedIn, CheckedIn;
    ParsedIsAccounted(c, w, raw, c.clientAudience, now);
  }

  /** A factor fresh and linked to p can only come from an accepted code for p. */
  lemma LinkedWasProved(c: Config, w: World, t: Claims, p: Payment, now: int)
    requires Good(c, w) && t in w.issued && Linked(c, t, p, now) && c.stepUpMaxAge < RateLimiter.MAX_DURATION
    ensures ProvedIn(w.history, t.subject, p, now, c.stepUpMaxAge)
  {
    hide InOrder, LinkHash, HasFreshOTP;
    assert MintedIn(c, w.history, t);
    var i :| 0 <= i < |w.history| && Mints(c, w.history[i], t);
    var e := w.history[i];
    OtpIn(t, c.stepUpMaxAge, now);
    assert e.CodeAccepted? && t.txnLink == LinkOf(e.link);
    LinkBindsPayment(e.link.value, p);
    FreshMeansRecent(t, c.stepUpMaxAge, now, e.at);
    assert Proves(w.history[i], t.subject, p, now, c.stepUpMaxAge);
  }

  lemma OtpIn(t: Claims, maxAge: int, now: int)
    requires HasFreshOTP(t, maxAge, now)
    ensures "otp" in t.amr
  {
  }

  lemma GateIsJustified(c: Config, w: World, t: Claims, p: Payment, eval: Db<Evaluation>, enabled: Db<bool>, now: int)
    requires Good(c, w) && t in w.issued && c.stepUpMaxAge < RateLimiter.MAX_DURATION
    requires StepUpGate(c, t, p, eval, enabled, now).Gate? && !StepUpGate(c, t, p, eval, enabled, now).gated
    ensures eval.Done?
    ensures Justified(c, w.history, GatePassed(t, p, eval.value.stepUpMethod != "", enabled, now))
  {
    hide Good, Linked, ProvedIn;
    if eval.value.stepUpMethod != "" && enabled == Done(true) {
      LinkedWasProved(c, w, t, p, now);
    }
  }

  lemma TransferKeeps(c: Config, w: World, r: TransferRequest, path: string, preview: bool)
    requires Good(c, w) && c.stepUpMaxAge < RateLimiter.MAX_DURATION
    ensures Good(c, TransferStep(c, w, r, path, preview).0)
  {
    hide Good, Admit, StepUpGate, Justified;
    var admission := Admit(c, w, r.raw, "POST", path, r.now);
    if admission.Admitted? {
      var t := admission.claims;
      AdmittedIsJustified(c, w, r.raw, "POST", path, r.now);
      NotingKeeps(c, w, Reached(t, "POST", path));
      var w' := w.Noting(Reached(t, "POST", path));
      if r.payment.Some? {
        var gate := StepUpGate(c, t, r.payment.value, r.eval, r.enabled, r.now);
        if gate.Gate? && !gate.gated {
          GateIsJustified(c, w', t, r.payment.value, r.eval, r.enabled, r.now);
          NotingKeeps(c, w', GatePassed(t, r.payment.value, r.eval.value.stepUpMethod != "", r.enabled, r.now));
        }
      }
    }
  }

  lemma StepKeeps(c: Config, w: World, r: Request)
    requires Good(c, w) && c.stepUpMaxAge < RateLimiter.MAX_DURATION
    ensures Good(c, Step(c, w, r).0)
  {
    hide Good, LoginStep, VerifyStep, RefreshStep, TransferStep, Admit, Justified;
    match r {
      case Login(x) => LoginKeeps(c, w, x);
      case MfaVerify(x) => VerifyKeeps(c, w, x);
      case Refresh(x) => RefreshKeeps(c, w, x);
      case CreateTransfer(x) => TransferKeeps(c, w, x, "/transfers", false);
      case TransferIntent(x) => TransferKeeps(c, w, x, "/transfers/intent", true);
      case Guarded(raw, m, path, now) =>
        if Admit(c, w, raw, m, path, now).Admitted? {
          AdmittedIsJustified(c, w, raw, m, path, now);
          NotingKeeps(c, w, Reached(Admit(c, w, raw, m, path, now).claims, m, path));
        }
    }
  }

  lemma {:induction false} RunsAreGood(c: Config, requests: seq<Request>)
    requires c.stepUpMaxAge < RateLimiter.MAX_DURATION
    ensures Good(c, WorldAfter(c, requests))
  {
    hide Step, InOrder;
    if requests == [] {
      NewWorldIsGood(c);
    } else {
      RunsAreGood(c, requests[..|requests| - 1]);
      StepKeeps(c, WorldAfter(c, requests[..|requests| - 1]), requests[|requests| - 1]);
    }
  }

  lemma NewWorldIsGood(c: Config)
    ensures Good(c, NEW_WORLD)
  {
  }

  // ---- the theorems ----

  /** The request that brought an event about: for a code, one whose code was right. */
  predicate Caused(r: Request, e: Event) {
    match e
    case PasswordChecked(pr, at, _) => r.Login? && r.login.check == Done(Some(pr)) && r.login.now == at
    case CodeAccepted(pending, link, at, _) =>
      r.MfaVerify? && StepUpAnswers.RightCode(r.verify)
      && r.verify.raw == Some(pending) && r.verify.link == link && r.verify.now == at
    case Rotated(pr, at, _) =>
      r.Refresh? && r.rotation.token != "" && r.rotation.rotated == Done(pr) && r.rotation.now == at
    case Reached(t, httpMethod, path) =>
      || (r.Guarded? && r.raw == Some(t) && r.httpMethod == httpMethod && r.path == path)
      || (r.CreateTransfer? && r.transfer.raw == Some(t) && httpMethod == "POST" && path == "/transfers")
      || (r.TransferIntent? && r.transfer.raw == Some(t) && httpMethod == "POST" && path == "/transfers/intent")
    case GatePassed(t, p, demanded, enabled, at) =>
      r.CreateTransfer? && r.transfer.raw == Some(t) && r.transfer.payment == Some(p) && r.transfer.eval.Done?
      && demanded == (r.transfer.eval.value.stepUpMethod != "") && r.transfer.enabled == enabled && r.transfer.now == at
  }

  /** A request adds to the history only events it caused. */
  lemma StepAdds(c: Config, w: World, r: Request)
    ensures var h := Step(c, w, r).0.history;
            w.history <= h && forall i :: |w.history| <= i < |h| ==> Caused(r, h[i])
  {
    hide PairBody, IssueJWT, IssueMFAToken, LinkOf, StepUpGate, PasswordChangeRouteOK, VerifyRefusal, ParseWithAudience;
    match r {
      case MfaVerify(x) =>
        StepUpAnswers.VerifiedExactly(c, w, x);
        StepUpAnswers.ParsedIsRaw(c, w, x.raw, MFA_AUDIENCE, x.now);
        NoPairNoEvent(c, w, x);
      case CreateTransfer(x) =>
        StepUpAnswers.ParsedIsRaw(c, w, x.raw, c.clientAudience, x.now);
        if x.payment.Some? && x.raw.Some? {
          EvalIsKnown(c, w, x);
        }
      case TransferIntent(x) => StepUpAnswers.ParsedIsRaw(c, w, x.raw, c.clientAudience, x.now);
      case Guarded(raw, _, _, now) => StepUpAnswers.ParsedIsRaw(c, w, raw, c.clientAudience, now);
      case _ =>
    }
  }

  lemma NoPairNoEvent(c: Config, w: World, x: VerifyRequest)
    ensures VerifyStep(c, w, x).0 != w ==> VerifyStep(c, w, x).1.Pair?
  {
    StepUpAnswers.VerifiedExactly(c, w, x);
  }

  lemma EvalIsKnown(c: Config, w: World, x: TransferRequest)
    requires x.payment.Some? && x.raw.Some?
    ensures StepUpGate(c, x.raw.value, x.payment.value, x.eval, x.enabled, x.now).Gate? ==> x.eval.Done?
  {
  }

  /** Every event of a run was caused by one of its requests. */
  lemma {:induction false} EventsAreCaused(c: Config, requests: seq<Request>, i: nat) returns (k: nat)
    requires i < |WorldAfter(c, requests).history|
    ensures k < |requests| && Caused(requests[k], WorldAfter(c, requests).history[i])
  {
    hide Step, Caused;
    assert requests != [];
    var before, r := requests[..|requests| - 1], requests[|requests| - 1];
    StepAdds(c, WorldAfter(c, before), r);
    if i < |WorldAfter(c, before).history| {
      k := EventsAreCaused(c, before, i);
    } else {
      k := |before|;
    }
  }

  /**
   In every run, a transfer that passed the gate while the evaluation demanded step-up and MFA
   was enabled came after a code accepted from that user, linked to that exact payment, at
   most the maximum age before; and it was accepted for a request whose code was right.
   */
  lemma GatedTransferWasProved(c: Config, requests: seq<Request>, i: nat)
    requires c.stepUpMaxAge < RateLimiter.MAX_DURATION
    requires i < |WorldAfter(c, requests).history| && WorldAfter(c, requests).history[i].GatePassed?
    requires WorldAfter(c, requests).history[i].demanded && WorldAfter(c, requests).history[i].enabled == Done(true)
    ensures var h := WorldAfter(c, requests).history;
            exists j, k :: 0 <= j < i && h[j].CodeAccepted?
                           && h[j].pending.subject == h[i].claims.subject && h[j].link == Some(h[i].payment)
                           && h[i].at - h[j].at <= c.stepUpMaxAge
                           && 0 <= k < |requests| && Caused(requests[k], h[j])
  {
    hide WorldAfter, Accounted, Caused;
    RunsAreGood(c, requests);
    var h := WorldAfter(c, requests).history;
    var e := h[i];
    assert Justified(c, h[..i], e);
    var j :| 0 <= j < |h[..i]| && Proves(h[..i][j], e.claims.subject, e.payment, e.at, c.stepUpMaxAge);
    assert h[j] == h[..i][j];
    var k := EventsAreCaused(c, requests, j);
  }

  /** A right code for this payment from this user, no older than maxAge at the time now. */
  predicate RightCodeFor(r: Request, user: Uuid, p: Payment, now: int, maxAge: int) {
    r.MfaVerify? && StepUpAnswers.RightCode(r.verify) && r.verify.link == Some(p)
    && r.verify.raw.Some? && r.verify.raw.value.subject == user && now - r.verify.now <= maxAge
  }

  /**
   The same of requests alone: whenever a submit that demanded step-up of a user with MFA is served, an
   earlier request of the run brought a right code of that user's, linked to that exact payment, at
   most the maximum age before.
   */
  lemma ServedTransferWasProved(c: Config, requests: seq<Request>, i: nat)
    requires c.stepUpMaxAge < RateLimiter.MAX_DURATION
    requires i < |requests| && requests[i].CreateTransfer?
    requires Step(c, WorldAfter(c, requests[..i]), requests[i]).1 == Served
    requires requests[i].transfer.eval.Done? && requests[i].transfer.eval.value.stepUpMethod != ""
    requires requests[i].transfer.enabled == Done(true)
    ensures var x := requests[i].transfer;
            && x.raw.Some? && x.payment.Some?
            && exists k :: 0 <= k < i
                           && RightCodeFor(requests[k], x.raw.value.subject, x.payment.value, x.now, c.stepUpMaxAge)
  {
    hide WorldAfter, Step, Good, Linked, RightCodeFor;
    var w, x := WorldAfter(c, requests[..i]), requests[i].transfer;
    CreateIsStep(c, w, x);
    StepUpAnswers.ServedExactly(c, w, x);
    FreshIsLinked(c, x.raw.value, x.payment.value, x.now);
    RunsAreGood(c, requests[..i]);
    LinkedWasProved(c, w, x.raw.value, x.payment.value, x.now);
    var j :| 0 <= j < |w.history| && Proves(w.history[j], x.raw.value.subject, x.payment.value, x.now, c.stepUpMaxAge);
    var k := EventsAreCaused(c, requests[..i], j);
    CausedIsRight(requests[..i][k], w.history[j], x.raw.value.subject, x.payment.value, x.now, c.stepUpMaxAge);
    assert requests[k] == requests[..i][k];
  }

  lemma CreateIsStep(c: Config, w: World, x: TransferRequest)
    ensures Step(c, w, CreateTransfer(x)) == TransferStep(c, w, x, "/transfers", false)
  {
    hide TransferStep;
  }

  lemma FreshIsLinked(c: Config, t: Claims, p: Payment, now: int)
    ensures StepUpAnswers.FreshFor(c, t, p, now) <==> Linked(c, t, p, now)
  {
    hide LinkHash;
  }

  lemma CausedIsRight(r: Request, e: Event, user: Uuid, p: Payment, now: int, maxAge: int)
    requires Caused(r, e) && Proves(e, user, p, now, maxAge)
    ensures RightCodeFor(r, user, p, now, maxAge)
  {
  }

  /** The minting of every issued token: a refresh or a password never carries a factor or a link. */
  lemma TokensAreMinted(c: Config, requests: seq<Request>, t: Claims)
    requires c.stepUpMaxAge < RateLimiter.MAX_DURATION && t in WorldAfter(c, requests).issued
    ensures var h := WorldAfter(c, requests).history;
            exists j :: 0 <= j < |h| && Mints(c, h[j], t)
  {
    hide WorldAfter, InOrder, Mints;
    RunsAreGood(c, requests);
    assert MintedIn(c, WorldAfter(c, requests).history, t);
  }

  /** So tokens of logins, refreshes and codes without a link, or with another, never open the gate. */
  lemma OthersNeverSupply(c: Config, e: Event, t: Claims, p: Payment, eval: Evaluation, now: int)
    requires Mints(c, e, t) && eval.stepUpMethod != ""
    requires e.PasswordChecked? || e.Rotated? || (e.CodeAccepted? && e.link != Some(p))
    ensures StepUpGate(c, t, p, Done(eval), Done(true), now) == Gate(eval, true)
  {
    hide LinkHash;
    if e.CodeAccepted? && e.link.Some? && LinkHash(e.link.value) == LinkHash(p) {
      LinkBindsPayment(e.link.value, p);
    }
  }

  /**
   The token, minted among the first n events, derives from the credential check at position
   root: minted there, or for a code accepted on a pending token that itself derives from it.
   */
  predicate Derives(c: Config, h: seq<Event>, n: nat, t: Claims, root: nat)
    requires n <= |h|
    decreases n
  {
    exists j :: 0 <= j < n && Mints(c, h[j], t)
                && if h[j].CodeAccepted? then Derives(c, h, j, h[j].pending, root) else j == root
  }

  lemma DerivesAt(c: Config, h: seq<Event>, n: nat, t: Claims, root: nat, j: nat)
    requires j < n <= |h| && Mints(c, h[j], t)
    requires if h[j].CodeAccepted? then Derives(c, h, j, h[j].pending, root) else j == root
    ensures Derives(c, h, n, t, root)
  {
    hide Mints;
  }

  lemma {:induction false} TokenDerives(c: Config, h: seq<Event>, n: nat, t: Claims) returns (root: nat)
    requires InOrder(c, h) && n <= |h| && MintedIn(c, h[..n], t)
    ensures root < n && Checks(h[root], t.subject, t.pwc) && Derives(c, h, n, t, root)
    decreases n
  {
    hide InOrder, Derives;
    var j :| 0 <= j < |h[..n]| && Mints(c, h[..n][j], t);
    assert h[..n][j] == h[j];
    if h[j].CodeAccepted? {
      InOrderAt(c, h, j);
      root := TokenDerives(c, h, j, h[j].pending);
    } else {
      root := j;
    }
    DerivesAt(c, h, n, t, root, j);
  }

  lemma InOrderAt(c: Config, h: seq<Event>, i: nat)
    requires InOrder(c, h) && i < |h|
    ensures Justified(c, h[..i], h[i])
  {
    hide Justified;
  }

  /** Every issued token's must-change claim is the flag seen at the credential check it derives from. */
  lemma ForcedRotationIsCarried(c: Config, requests: seq<Request>, t: Claims)
    requires c.stepUpMaxAge < RateLimiter.MAX_DURATION && t in WorldAfter(c, requests).issued
    ensures var h := WorldAfter(c, requests).history;
            exists root: nat :: root < |h| && Derives(c, h, |h|, t, root)
                                && (h[root].PasswordChecked? || h[root].Rotated?)
                                && h[root].principal.user == t.subject && h[root].principal.mustChange == t.pwc
  {
    hide WorldAfter, InOrder, Derives, MintedIn;
    RunsAreGood(c, requests);
    var h := WorldAfter(c, requests).history;
    assert MintedIn(c, h, t);
    assert h[..|h|] == h;
    var root := TokenDerives(c, h, |h|, t);
  }

  /** A token under forced rotation reaches only the password change and the logout everywhere. */
  lemma {:induction false} FlaggedTokenIsHeld(c: Config, requests: seq<Request>, i: nat)
    requires c.stepUpMaxAge < RateLimiter.MAX_DURATION
    requires i < |WorldAfter(c, requests).history| && WorldAfter(c, requests).history[i].Reached?
    requires WorldAfter(c, requests).history[i].claims.pwc
    ensures var e := WorldAfter(c, requests).history[i];
            e.httpMethod == "POST" && (e.path == "/me/password" || e.path == "/auth/logout-all")
  {
    hide WorldAfter, Accounted, MintedIn, CheckedIn;
    RunsAreGood(c, requests);
    var h := WorldAfter(c, requests).history;
    assert Justified(c, h[..i], h[i]);
  }

  /** And no payment passes the gate on such a token. */
  lemma FlaggedTokenMovesNoMoney(c: Config, w: World, r: TransferRequest)
    requires r.raw.Some? && r.raw.value.pwc
    ensures TransferStep(c, w, r, "/transfers", false) ==
            (w, if ParseWithAudience(c, w.issued, r.raw, c.clientAudience, r.now).Some?
                then Error(403, "password_change_required") else Error(401, "unauthorized"))
  {
    hide StepUpGate;
  }

  /** Every token pair answered holds a refresh token exactly when its token is not flagged, the flag otherwise. */
  lemma NoRefreshUnderRotation(c: Config, w: World, r: Request)
    requires Step(c, w, r).1.Pair?
    ensures var b := Step(c, w, r).1.body;
            && "token" in b && b["token"].Token?
            && ("password_change_required" in b <==> b["token"].token.pwc)
            && ("refresh_token" in b <==> !b["token"].token.pwc)
            && b["token"].token in Step(c, w, r).0.issued
  {
    hide ParseWithAudience, StepUpGate, LinkOf, PairBody, Exempted, PasswordChangeRouteOK;
    RefusalIsNoPair(c, w, r);
    match r {
      case Login(x) =>
        if x.check.Done? && x.check.value.Some? {
          var pr := x.check.value.value;
          PairBodyFacts(c, pr, IssueJWT(c, pr, ["pwd"], None, x.now), if pr.mustChange then "" else x.refresh, x.now);
        }
      case MfaVerify(x) =>
        var parsed := ParseWithAudience(c, w.issued, x.raw, MFA_AUDIENCE, x.now);
        if parsed.Some? {
          var t := parsed.value;
          var pr := Principal(t.subject, t.role, t.username, t.pwc);
          PairBodyFacts(c, pr, IssueJWT(c, pr, ["pwd", "otp"], LinkOf(x.link), x.now),
                        if pr.mustChange then "" else x.refresh, x.now);
        }
      case Refresh(x) =>
        if x.rotated.Done? {
          var pr := x.rotated.value;
          PairBodyFacts(c, pr, IssueJWT(c, pr, ["pwd"], None, x.now), x.refresh, x.now);
        }
      case _ =>
    }
  }

  lemma RefusalIsNoPair(c: Config, w: World, r: Request)
    ensures r.MfaVerify? && VerifyRefusal(r.verify).Some? ==> !VerifyRefusal(r.verify).value.Pair?
    ensures r.CreateTransfer? || r.TransferIntent? || r.Guarded? ==> !Step(c, w, r).1.Pair?
  {
    hide ParseWithAudience, StepUpGate, PasswordChangeRouteOK;
  }

  lemma PairBodyFacts(c: Config, pr: Principal, token: Claims, refresh: string, now: int)
    requires token.pwc == pr.mustChange
    ensures var b := PairBody(c, pr, token, refresh, now);
            && "token" in b && b["token"] == Token(token)
            && ("password_change_required" in b <==> token.pwc)
            && ("refresh_token" in b <==> !token.pwc)
  {
    assert |"token"| == 5 && |"user_id"| == 7 && |"token_type"| == 10 && |"expires_at"| == 10
           && |"password_change_required"| == 24 && |"refresh_token"| == 13;
  }

  /**
   When a pending-login token opens a client route: exactly when the server is configured to
   confuse the two audiences, the token is unexpired, and a flagged one asks for an allowlisted route.
   */
  lemma PendingTokenIsIsolated(c: Config, w: World, pr: Principal, id: string, at: int, now: int,
                               httpMethod: string, path: string)
    requires IssueMFAToken(c, pr, id, at) in w.issued
    ensures Admit(c, w, Some(IssueMFAToken(c, pr, id, at)), httpMethod, path, now).Admitted?
            <==> c.clientAudience == MFA_AUDIENCE && now < Unix(at + c.mfaTtl) * SECOND
                 && (pr.mustChange ==> PasswordChangeRouteOK(httpMethod, path))
  {
  }

  /** So with the audiences apart, in no run is a token a code was accepted on also one that reached a client route. */
  lemma {:induction false} AudiencesKeepApart(c: Config, requests: seq<Request>, i: nat, j: nat)
    requires c.stepUpMaxAge < RateLimiter.MAX_DURATION && c.clientAudience != MFA_AUDIENCE
    requires i < |WorldAfter(c, requests).history| && WorldAfter(c, requests).history[i].Reached?
    requires j < |WorldAfter(c, requests).history| && WorldAfter(c, requests).history[j].CodeAccepted?
    ensures WorldAfter(c, requests).history[i].claims != WorldAfter(c, requests).history[j].pending
  {
    hide WorldAfter, Accounted, MintedIn, CheckedIn;
    RunsAreGood(c, requests);
    var h := WorldAfter(c, requests).history;
    assert Justified(c, h[..i], h[i]) && Justified(c, h[..j], h[j]);
  }

  /** Preview and submit decide alike: a step-up is advertised exactly when the submit would refuse without one. */
  lemma PreviewAgreesWithSubmit(c: Config, w: World, r: TransferRequest)
    ensures var preview := TransferStep(c, w, r, "/transfers/intent", true).1;
            var submit := TransferStep(c, w, r, "/transfers", false).1;
            && (preview.Intent? && preview.stepUpMethod != "" <==> submit == Error(403, "step_up_required"))
            && (preview.Intent? && preview.stepUpMethod == "" <==> submit == Served)
            && (!preview.Intent? <==> preview == submit)
  {
    hide Linked, ParseWithAudience;
    NotAllowlisted();
  }

  lemma NotAllowlisted()
    ensures !PasswordChangeRouteOK("POST", "/transfers") && !PasswordChangeRouteOK("POST", "/transfers/intent")
  {
    assert |"/transfers"| == 10 && |"/transfers/intent"| == 17 && |"/me/password"| == 12 && |"/auth/logout-all"| == 16;
  }
}
