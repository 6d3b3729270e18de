/**
 The client tokens: what is put in them, when they are accepted, and what a fresh second
 factor is. Signing is symbolic: a token is its claims, and one is accepted only if this
 server issued it. SHA-256 is symbolic and injective: a digest is the text it was taken of.
 Times are nanoseconds; claims carry whole seconds.
 */
module Tokens {
  import opened Decimal
  import opened Uuids
  import opened Wrappers
  import Money
  import RateLimiter

  const SECOND: int := 1_000_000_000
  const MFA_AUDIENCE: string := "bank0-mfa"

  /** time.Time.Unix */
  function Unix(t: int): int { t / SECOND }

  datatype Config = Config(issuer: string, clientAudience: string, jwtTtl: int, mfaTtl: int, stepUpMaxAge: int,
                           mfaConfigured: bool)

  datatype Principal = Principal(user: Uuid, role: string, username: string, mustChange: bool)

  datatype Payment = Payment(debit: Uuid, credit: Uuid, amountMinor: int)

  datatype Digest = Sha256(text: string)

  datatype Claims = Claims(subject: Uuid, issuer: string, audience: string, issuedAt: int, expiresAt: int, id: string,
                           role: string, username: string, amr: seq<string>, authTime: int,
                           txnLink: Option<Digest>, pwc: bool)

  // ---- dynamic linking ----

  function LinkText(p: Payment): string {
    String(p.debit) + "|" + String(p.credit) + "|" + Money.FormatInt(p.amountMinor)
  }

  /** transferLinkHash */
  function LinkHash(p: Payment): Digest { Sha256(LinkText(p)) }

  /** The commitment of an optional link; none when no payment is named. */
  function LinkOf(link: Option<Payment>): Option<Digest> {
    match link
    case None => None
    case Some(p) => Some(LinkHash(p))
  }

  lemma FormatIntIsInjective(a: int, b: int)
    requires Money.FormatInt(a) == Money.FormatInt(b)
    ensures a == b
  {
    hide Print;
    var s, t := Money.FormatInt(a), Money.FormatInt(b);
    assert (a < 0) == (s[0] == '-') && (b < 0) == (t[0] == '-');
    if a < 0 {
      assert s[1..] == Print(-a) && t[1..] == Print(-b);
      PrintIsInjective(-a, -b);
    } else {
      PrintIsInjective(a, b);
    }
  }

  /** The commitment determines the exact payment. */
  lemma LinkBindsPayment(p: Payment, q: Payment)
    requires LinkHash(p) == LinkHash(q)
    ensures p == q
  {
    hide String, Money.FormatInt;
    var s, t := LinkText(p), LinkText(q);
    assert s[..36] == String(p.debit) && t[..36] == String(q.debit);
    assert s[37..73] == String(p.credit) && t[37..73] == String(q.credit);
    assert s[74..] == Money.FormatInt(p.amountMinor) && t[74..] == Money.FormatInt(q.amountMinor);
    StringIsInjective(p.debit, q.debit);
    StringIsInjective(p.credit, q.credit);
    FormatIntIsInjective(p.amountMinor, q.amountMinor);
  }

  // ---- issuing and parsing ----

  function IssueJWT(c: Config, pr: Principal, amr: seq<string>, link: Option<Digest>, now: int): Claims {
    Claims(pr.user, c.issuer, c.clientAudience, Unix(now), Unix(now + c.jwtTtl), "", pr.role, pr.username,
           amr, Unix(now), link, pr.mustChange)
  }

  /** The pending-login token: no factors, no link, its own audience. */
  function IssueMFAToken(c: Config, pr: Principal, id: string, now: int): Claims {
    Claims(pr.user, c.issuer, MFA_AUDIENCE, Unix(now), Unix(now + c.mfaTtl), id, pr.role, pr.username,
           [], 0, None, pr.mustChange)
  }

  /** A presented token (None: absent or not well signed) under the one validation this server does. */
  function ParseWithAudience(c: Config, issued: set<Claims>, raw: Option<Claims>, audience: string, now: int)
    : Option<Claims>
  {
    match raw
    case None => None
    case Some(t) =>
      if t in issued && t.issuer == c.issuer && t.audience == audience && now < t.expiresAt * SECOND then Some(t)
      else None
  }

  predicate HasFreshOTP(t: Claims, maxAge: int, now: int) {
    "otp" in t.amr && RateLimiter.Sub(now, t.authTime * SECOND) <= maxAge
  }

  /** The two routes a forced-rotation token may reach. */
  predicate PasswordChangeRouteOK(httpMethod: string, path: string) {
    httpMethod == "POST" && (path == "/me/password" || path == "/auth/logout-all")
  }

  /** A fresh factor is no older than the maximum age, counted from the moment it was proved. */
  lemma FreshMeansRecent(t: Claims, maxAge: int, now: int, proved: int)
    requires HasFreshOTP(t, maxAge, now) && t.authTime == Unix(proved) && maxAge < RateLimiter.MAX_DURATION
    ensures now - proved <= maxAge
  {
    assert Unix(proved) * SECOND <= proved;
  }
}
