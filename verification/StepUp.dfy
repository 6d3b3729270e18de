/**
 Login, second factor, refresh and the transfer gate as one state machine. What the server
 remembers of a token is only that it signed it; the world also keeps, for the theorems,
 the history of what happened. Database answers and code checks are inputs of each request.
 */
module StepUp {
  import opened Tokens
  import opened Uuids
  import opened Wrappers

  /** A database call: its answer, or an error that mapDBError turns into a response. */
  datatype Db<+T> = Done(value: T) | Failed

  datatype Evaluation = Evaluation(decision: string, stepUpMethod: string)

  datatype Event =
    | PasswordChecked(principal: Principal, at: int, minted: Claims)
    | CodeAccepted(pending: Claims, link: Option<Payment>, at: int, minted: Claims)
    | Rotated(principal: Principal, at: int, minted: Claims)
    | Reached(claims: Claims, httpMethod: string, path: string)
    | GatePassed(claims: Claims, payment: Payment, demanded: bool, enabled: Db<bool>, at: int)

  datatype World = World(issued: set<Claims>, history: seq<Event>) {
    function Noting(e: Event): World { this.(history := history + [e]) }
    function Minting(t: Claims, e: Event): World { World(issued + {t}, history + [e]) }
  }

  const NEW_WORLD: World := World({}, [])

  datatype Field = Text(text: string) | Token(token: Claims) | User(user: Uuid) | Time(at: int) | Flag(flag: bool)

  type Body = map<string, Field>

  datatype Response =
    | Error(status: nat, code: string)
    | DbError
    | Pair(body: Body)
    | PendingLogin(user: Uuid, token: Claims)
    | Intent(decision: string, stepUpMethod: string)
    | Served

  datatype LoginRequest = LoginRequest(check: Db<Option<Principal>>, enabled: Db<bool>, pendingId: string,
                                       refresh: string, refreshSaved: bool, now: int)

  datatype VerifyRequest = VerifyRequest(raw: Option<Claims>, locked: Db<bool>, secret: Db<bool>, codeValid: bool,
                                         burned: Db<bool>, attempt: Db<bool>, link: Option<Payment>,
                                         refresh: string, refreshSaved: bool, now: int)

  datatype RefreshRequest = RefreshRequest(token: string, rotated: Db<Principal>, refresh: string, now: int)

  datatype TransferRequest = TransferRequest(raw: Option<Claims>, payment: Option<Payment>, eval: Db<Evaluation>,
                                             enabled: Db<bool>, now: int)

  datatype Request =
    | Login(login: LoginRequest)
    | MfaVerify(verify: VerifyRequest)
    | Refresh(rotation: RefreshRequest)
    | CreateTransfer(transfer: TransferRequest)
    | TransferIntent(transfer: TransferRequest)
    | Guarded(raw: Option<Claims>, httpMethod: string, path: string, now: int)

  // ---- specification ----

  function PairBody(c: Config, pr: Principal, token: Claims, refresh: string, now: int): Body {
    map["user_id" := User(pr.user), "token" := Token(token), "token_type" := Text("Bearer"),
        "expires_at" := Time(now + c.jwtTtl)]
    + if pr.mustChange then map["password_change_required" := Flag(true)] else map["refresh_token" := Text(refresh)]
  }

  function LoginStep(c: Config, w: World, r: LoginRequest): (World, Response) {
    match r.check
    case Failed => (w, DbError)
    case Done(None) => (w, Error(401, "invalid_credentials"))
    case Done(Some(pr)) =>
      match r.enabled
      case Failed => (w, DbError)
      case Done(true) =>
        var t := IssueMFAToken(c, pr, r.pendingId, r.now);
        (w.Minting(t, PasswordChecked(pr, r.now, t)), PendingLogin(pr.user, t))
      case Done(false) =>
        if !pr.mustChange && !r.refreshSaved then (w, DbError)
        else
          var t := IssueJWT(c, pr, ["pwd"], None, r.now);
          (w.Minting(t, PasswordChecked(pr, r.now, t)),
           Pair(PairBody(c, pr, t, if pr.mustChange then "" else r.refresh, r.now)))
  }

  /** The checks of the second factor, in order; None when the code is accepted. */
  function VerifyRefusal(r: VerifyRequest): Option<Response> {
    if r.locked.Failed? then Some(DbError)
    else if r.locked.value then Some(Error(429, "mfa_locked"))
    else if r.secret.Failed? then Some(DbError)
    else if !r.secret.value then Some(Error(500, "internal"))
    else if !r.codeValid && r.burned.Failed? then Some(DbError)
    else
      var valid := r.codeValid || r.burned.value;
      if r.attempt.Failed? then Some(DbError)
      else if !valid && r.attempt.value then Some(Error(429, "mfa_locked"))
      else if !valid then Some(Error(401, "invalid_code"))
      else None
  }

  function VerifyStep(c: Config, w: World, r: VerifyRequest): (World, Response) {
    if !c.mfaConfigured then (w, Error(503, "mfa_unavailable"))
    else
      match ParseWithAudience(c, w.issued, r.raw, MFA_AUDIENCE, r.now)
      case None => (w, Error(401, "unauthorized"))
      case Some(pending) =>
        match VerifyRefusal(r)
        case Some(refusal) => (w, refusal)
        case None =>
          var pr := Principal(pending.subject, pending.role, pending.username, pending.pwc);
          if !pr.mustChange && !r.refreshSaved then (w, DbError)
          else
            var t := IssueJWT(c, pr, ["pwd", "otp"], LinkOf(r.link), r.now);
            (w.Minting(t, CodeAccepted(pending, r.link, r.now, t)),
             Pair(PairBody(c, pr, t, if pr.mustChange then "" else r.refresh, r.now)))
  }

  function RefreshStep(c: Config, w: World, r: RefreshRequest): (World, Response) {
    if r.token == "" then (w, Error(400, "bad_request"))
    else
      match r.rotated
      case Failed => (w, DbError)
      case Done(pr) =>
        var t := IssueJWT(c, pr, ["pwd"], None, r.now);
        (w.Minting(t, Rotated(pr, r.now, t)), Pair(PairBody(c, pr, t, r.refresh, r.now)))
  }

  datatype Admission = Refused(response: Response) | Admitted(claims: Claims)

  /** requireJWT */
  function Admit(c: Config, w: World, raw: Option<Claims>, httpMethod: string, path: string, now: int): Admission {
    match ParseWithAudience(c, w.issued, raw, c.clientAudience, now)
    case None => Refused(Error(401, "unauthorized"))
    case Some(t) =>
      if t.pwc && !PasswordChangeRouteOK(httpMethod, path) then Refused(Error(403, "password_change_required"))
      else Admitted(t)
  }

  datatype Gate = GateError | Gate(eval: Evaluation, gated: bool)

  /** A fresh factor linked to exactly this payment. */
  predicate Linked(c: Config, t: Claims, p: Payment, now: int) {
    HasFreshOTP(t, c.stepUpMaxAge, now) && t.txnLink == Some(LinkHash(p))
  }

  /** Never advertise a step-up the submit would not enforce. */
  function Exempted(e: Evaluation): Evaluation {
    Evaluation(if e.decision == "step_up" then "allow" else e.decision, "")
  }

  function StepUpGate(c: Config, t: Claims, p: Payment, eval: Db<Evaluation>, enabled: Db<bool>, now: int): Gate {
    match eval
    case Failed => GateError
    case Done(e) =>
      if e.stepUpMethod == "" then Gate(e, false)
      else if Linked(c, t, p, now) then Gate(Exempted(e), false)
      else
        match enabled
        case Failed => GateError
        case Done(true) => Gate(e, true)
        case Done(false) => Gate(Exempted(e), false)
  }

  /** Both transfer routes up to the gate: the admitted claims and the payment, or the answer already given. */
  function TransferStep(c: Config, w: World, r: TransferRequest, path: string, preview: bool): (World, Response) {
    match Admit(c, w, r.raw, "POST", path, r.now)
    case Refused(response) => (w, response)
    case Admitted(t) =>
      var w := w.Noting(Reached(t, "POST", path));
      match r.payment
      case None => (w, Error(400, "bad_request"))
      case Some(p) =>
        match StepUpGate(c, t, p, r.eval, r.enabled, r.now)
        case GateError => (w, DbError)
        case Gate(e, gated) =>
          if preview then (w, Intent(e.decision, e.stepUpMethod))
          else if gated then (w, Error(403, "step_up_required"))
          else (w.Noting(GatePassed(t, p, r.eval.value.stepUpMethod != "", r.enabled, r.now)), Served)
  }

  function GuardedStep(c: Config, w: World, raw: Option<Claims>, httpMethod: string, path: string, now: int)
    : (World, Response)
  {
    match Admit(c, w, raw, httpMethod, path, now)
    case Refused(response) => (w, response)
    case Admitted(t) => (w.Noting(Reached(t, httpMethod, path)), Served)
  }

  function Step(c: Config, w: World, r: Request): (World, Response) {
    match r
    case Login(x) => LoginStep(c, w, x)
    case MfaVerify(x) => VerifyStep(c, w, x)
    case Refresh(x) => RefreshStep(c, w, x)
    case CreateTransfer(x) => TransferStep(c, w, x, "/transfers", false)
    case TransferIntent(x) => TransferStep(c, w, x, "/transfers/intent", true)
    case Guarded(raw, m, path, now) => GuardedStep(c, w, raw, m, path, now)
  }

  // ---- handlers ----

  /** The handlers keep no state of their own; signing a token is what changes the world. */
  class Server {
    const config: Config
    var issued: set<Claims>  // stands for the signing key: the tokens whose signature verifies
    ghost var history: seq<Event>

    constructor (config: Config)
      ensures this.config == config && Seen() == NEW_WORLD
    {
      this.config := config;
      issued := {};
      history := [];
    }

    ghost function Seen(): World
      reads this
    {
      World(issued, history)
    }

    /** Signs an access token and fills the response body; the event is named by the caller. */
    method WriteTokenPair(pr: Principal, refresh: string, amr: seq<string>, link: Option<Digest>, now: int)
      returns (body: Body, token: Claims)
      modifies `issued
      ensures token == IssueJWT(config, pr, amr, link, now)
      ensures body == PairBody(config, pr, token, refresh, now)
      ensures issued == old(issued) + {token}
    {
      token := IssueJWT(config, pr, amr, link, now);
      issued := issued + {token};
      body := map["user_id" := User(pr.user), "token" := Token(token), "token_type" := Text("Bearer"),
                  "expires_at" := Time(now + config.jwtTtl)];
      if pr.mustChange {
        body := body["password_change_required" := Flag(true)];
      } else {
        body := body["refresh_token" := Text(refresh)];
      }
    }

    method HandleLogin(r: LoginRequest) returns (response: Response)
      modifies this
      ensures (Seen(), response) == LoginStep(config, old(Seen()), r)
    {
      hide PairBody, IssueJWT, IssueMFAToken;
      if r.check.Failed? {
        return DbError;
      }
      if r.check.value.None? {
        return Error(401, "invalid_credentials");
      }
      var pr := r.check.value.value;
      if r.enabled.Failed? {
        return DbError;
      }
      if r.enabled.value {
        var pending := IssueMFAToken(config, pr, r.pendingId, r.now);
        issued := issued + {pending};
        history := history + [PasswordChecked(pr, r.now, pending)];
        return PendingLogin(pr.user, pending);
      }
      var refresh := "";
      if !pr.mustChange {
        refresh := r.refresh;
        if !r.refreshSaved {
          return DbError;
        }
      }
      var body, token := WriteTokenPair(pr, refresh, ["pwd"], None, r.now);
      history := history + [PasswordChecked(pr, r.now, token)];
      return Pair(body);
    }

    method HandleVerify(r: VerifyRequest) returns (response: Response)
      modifies this
      ensures (Seen(), response) == VerifyStep(config, old(Seen()), r)
    {
      hide PairBody, IssueJWT, ParseWithAudience, LinkHash;
      if !config.mfaConfigured {
        return Error(503, "mfa_unavailable");
      }
      var parsed := ParseWithAudience(config, issued, r.raw, MFA_AUDIENCE, r.now);
      if parsed.None? {
        return Error(401, "unauthorized");
      }
      var claims := parsed.value;
      if r.locked.Failed? {
        return DbError;
      } else if r.locked.value {
        return Error(429, "mfa_locked");
      }
      if r.secret.Failed? {
        return DbError;
      }
      if !r.secret.value {
        return Error(500, "internal");
      }
      var valid := r.codeValid;
      if !valid {
        if r.burned.Failed? {
          return DbError;
        }
        valid := r.burned.value;
      }
      if r.attempt.Failed? {
        return DbError;
      } else if !valid && r.attempt.value {
        return Error(429, "mfa_locked");
      }
      if !valid {
        return Error(401, "invalid_code");
      }
      var txnLink: Option<Digest> := None;
      if r.link.Some? {
        txnLink := Some(LinkHash(r.link.value));
      }
      var pr := Principal(claims.subject, claims.role, claims.username, claims.pwc);
      var refresh := "";
      if !pr.mustChange {
        refresh := r.refresh;
        if !r.refreshSaved {
          return DbError;
        }
      }
      var body, token := WriteTokenPair(pr, refresh, ["pwd", "otp"], txnLink, r.now);
      history := history + [CodeAccepted(claims, r.link, r.now, token)];
      return Pair(body);
    }

    method HandleRefresh(r: RefreshRequest) returns (response: Response)
      modifies this
      ensures (Seen(), response) == RefreshStep(config, old(Seen()), r)
    {
      hide PairBody, IssueJWT;
      if r.token == "" {
        return Error(400, "bad_request");
      }
      if r.rotated.Failed? {
        return DbError;
      }
      var pr := r.rotated.value;
      var body, token := WriteTokenPair(pr, r.refresh, ["pwd"], None, r.now);
      history := history + [Rotated(pr, r.now, token)];
      return Pair(body);
    }

    /** stepUpGate: the evaluation is overwritten for exempt callers. */
    method Gated(t: Claims, p: Payment, answer: Db<Evaluation>, enabled: Db<bool>, now: int)
      returns (eval: Evaluation, gated: bool, failed: bool)
      ensures StepUpGate(config, t, p, answer, enabled, now) == if failed then GateError else Gate(eval, gated)
    {
      hide HasFreshOTP, LinkHash;
      eval := Evaluation("", "");
      if answer.Failed? {
        return eval, false, true;
      }
      eval := answer.value;
      if eval.stepUpMethod == "" {
        return eval, false, false;
      }
      if !(HasFreshOTP(t, config.stepUpMaxAge, now) && t.txnLink == Some(LinkHash(p))) {
        if enabled.Failed? {
          return eval, false, true;
        }
        if enabled.value {
          return eval, true, false;
        }
      }
      if eval.decision == "step_up" {
        eval := eval.(decision := "allow");
      }
      eval := eval.(stepUpMethod := "");
      return eval, false, false;
    }

    method HandleTransfer(r: TransferRequest) returns (response: Response)
      modifies `history
      ensures (Seen(), response) == TransferStep(config, old(Seen()), r, "/transfers", false)
    {
      hide StepUpGate, Admit;
      var admission := Admit(config, World(issued, []), r.raw, "POST", "/transfers", r.now);
      AdmitReadsIssued(config, issued, history, r.raw, "POST", "/transfers", r.now);
      if admission.Refused? {
        return admission.response;
      }
      var t := admission.claims;
      history := history + [Reached(t, "POST", "/transfers")];
      if r.payment.None? {
        return Error(400, "bad_request");
      }
      var p := r.payment.value;
      var _, gated, failed := Gated(t, p, r.eval, r.enabled, r.now);
      if failed {
        return DbError;
      } else if gated {
        return Error(403, "step_up_required");
      }
      GateNeedsEval(config, t, p, r.eval, r.enabled, r.now);
      history := history + [GatePassed(t, p, r.eval.value.stepUpMethod != "", r.enabled, r.now)];
      return Served;
    }

    method HandleIntent(r: TransferRequest) returns (response: Response)
      modifies `history
      ensures (Seen(), response) == TransferStep(config, old(Seen()), r, "/transfers/intent", true)
    {
      hide StepUpGate, Admit;
      var admission := Admit(config, World(issued, []), r.raw, "POST", "/transfers/intent", r.now);
      AdmitReadsIssued(config, issued, history, r.raw, "POST", "/transfers/intent", r.now);
      if admission.Refused? {
        return admission.response;
      }
      var t := admission.claims;
      history := history + [Reached(t, "POST", "/transfers/intent")];
      if r.payment.None? {
        return Error(400, "bad_request");
      }
      var eval, _, failed := Gated(t, r.payment.value, r.eval, r.enabled, r.now);
      if failed {
        return DbError;
      }
      return Intent(eval.decision, eval.stepUpMethod);
    }

    /** Any other client route, as far as its guard. */
    method HandleGuarded(raw: Option<Claims>, httpMethod: string, path: string, now: int) returns (response: Response)
      modifies `history
      ensures (Seen(), response) == GuardedStep(config, old(Seen()), raw, httpMethod, path, now)
    {
      hide Admit;
      var admission := Admit(config, World(issued, []), raw, httpMethod, path, now);
      AdmitReadsIssued(config, issued, history, raw, httpMethod, path, now);
      if admission.Refused? {
        return admission.response;
      }
      history := history + [Reached(admission.claims, httpMethod, path)];
      return Served;
    }

    /** The route table: each request goes to its handler. */
    method Serve(r: Request) returns (response: Response)
      modifies this
      ensures (Seen(), response) == Step(config, old(Seen()), r)
    {
      hide LoginStep, VerifyStep, RefreshStep, TransferStep, GuardedStep;
      match r {
        case Login(x) => response := HandleLogin(x);
        case MfaVerify(x) => response := HandleVerify(x);
        case Refresh(x) => response := HandleRefresh(x);
        case CreateTransfer(x) => response := HandleTransfer(x);
        case TransferIntent(x) => response := HandleIntent(x);
        case Guarded(raw, m, path, now) => response := HandleGuarded(raw, m, path, now);
      }
    }
  }

  lemma AdmitReadsIssued(c: Config, issued: set<Claims>, history: seq<Event>, raw: Option<Claims>,
                         httpMethod: string, path: string, now: int)
    ensures Admit(c, World(issued, []), raw, httpMethod, path, now)
            == Admit(c, World(issued, history), raw, httpMethod, path, now)
  {
  }

  lemma GateNeedsEval(c: Config, t: Claims, p: Payment, eval: Db<Evaluation>, enabled: Db<bool>, now: int)
    ensures StepUpGate(c, t, p, eval, enabled, now).Gate? ==> eval.Done?
  {
  }
}
