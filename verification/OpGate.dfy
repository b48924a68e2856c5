/** The gate before every change an operator makes: the CSRF token, an HMAC over
    the session id and the nonce cookie, and what a client can have of it. */
module OpGate {
  import opened Text
  import opened OpCookie

  /** What the gate reads of a request: the values sent under `vnc_op`, the client's
      address, the operator whom its Basic credentials authenticate, whether its
      Origin and Sec-Fetch-Site pass, the nonce cookie and the token header. */
  datatype Request = Request(cookies: seq<string>, bind: Option<string>, basic: Option<string>,
                             sameSite: bool, nonce: string, token: string)

  /** A 401 and a 403. */
  datatype Refusal = Unauthenticated | Forbidden

  /** `cookie_value`: the first of the values. */
  function CookieValue(req: Request): string { if req.cookies == [] then "" else req.cookies[0] }

  /** The text under the HMAC of a CSRF token. */
  function CsrfText(sid: string, nonce: string): string { "csrf:" + sid + ":" + nonce }

  /** `_check_csrf`, for the session id the gate has found. */
  predicate CheckCsrf(mac: Mac, sid: string, nonce: string, token: string) {
    nonce != "" && sid != "" && token != "" && token == mac(CsrfText(sid, nonce))
  }

  /** The right token passes, and no other: the HMAC of the session id and the
      nonce, as the code prints it. */
  lemma CheckCsrfExactly(mac: Mac, sid: string, nonce: string, token: string)
    requires HexMac(mac)
    ensures CheckCsrf(mac, sid, nonce, token) <==> nonce != "" && sid != "" && token == mac("csrf:" + sid + ":" + nonce)
  {
    assert IsHexDigest(mac(CsrfText(sid, nonce)));
  }

  // ----- what a client can know ------------------------------------------

  /** A session id and a nonce whose token has been sent to a client. */
  type Told = set<(string, string)>

  ghost predicate WasTold(told: Told, text: string) {
    exists c :: c in told && text == CsrfText(c.0, c.1)
  }

  /** The HMAC as an ideal MAC over both kinds of text it is used for here: a token
      that recomputes is one that the server has sent out, as a token or as the
      signature of a cookie. */
  ghost predicate TokenUnforged(mac: Mac, minted: set<Ticket>, told: Told, req: Request) {
    forall sid :: req.token == mac(CsrfText(sid, req.nonce)) ==>
      WasTold(told, CsrfText(sid, req.nonce)) || WasSigned(minted, CsrfText(sid, req.nonce))
  }

  predicate PlainSids(told: Told) { forall c :: c in told ==> ':' !in c.0 }

  /** The text determines the session id: a nonce may hold anything, but no
      session id holds a colon. */
  lemma CsrfTextInjective(sid1: string, nonce1: string, sid2: string, nonce2: string)
    requires ':' !in sid1 && ':' !in sid2 && CsrfText(sid1, nonce1) == CsrfText(sid2, nonce2)
    ensures sid1 == sid2 && nonce1 == nonce2
  {
    assert CsrfText(sid1, nonce1)[5..] == sid1 + [':'] + nonce1;
    assert CsrfText(sid2, nonce2)[5..] == sid2 + [':'] + nonce2;
    FirstPieceUnique(sid1, nonce1, sid2, nonce2, ':');
  }

  /** No signature of a cookie is a token. */
  lemma TicketIsNoToken(t: Ticket, sid: string, nonce: string)
    ensures TicketText(t) != CsrfText(sid, nonce)
  {
    assert TicketText(t)[0] == 'o' && CsrfText(sid, nonce)[0] == 'c';
  }

  /** The check passes only with the token that was sent out for this very session
      and nonce. */
  lemma TokenNamesSession(mac: Mac, minted: set<Ticket>, told: Told, req: Request, sid: string)
    requires TokenUnforged(mac, minted, told, req) && PlainSids(told) && ':' !in sid
    requires CheckCsrf(mac, sid, req.nonce, req.token)
    ensures (sid, req.nonce) in told
  {
    var text := CsrfText(sid, req.nonce);
    if WasSigned(minted, text) {
      var t :| t in minted && text == TicketText(t);
      TicketIsNoToken(t, sid, req.nonce);
    }
    var c :| c in told && text == CsrfText(c.0, c.1);
    CsrfTextInjective(sid, req.nonce, c.0, c.1);
  }

  // ----- what a logout reads from the cookie it was sent ------------------

  function CookieSid(cookie: string): string {
    var parts := Split(cookie, '.');
    if |parts| == 4 then parts[0] else ""
  }

  /** The third field as a number; if it is none, or 0, a whole life from now. */
  function LogoutHorizon(cookie: string, readInt: string -> Option<int>, now: real): int {
    var parts := Split(cookie, '.');
    var exp := if |parts| == 4 then readInt(parts[2]) else None;
    if exp.None? || exp.value == 0 then now.Floor + OP_SESSION_TTL else exp.value
  }

  /** From what is no cookie of four fields, or has no number for a third, a whole
      session's life counts. */
  lemma LogoutHorizonExactly(cookie: string, readInt: string -> Option<int>, now: real)
    ensures var parts := Split(cookie, '.');
      LogoutHorizon(cookie, readInt, now)
      == if |parts| == 4 && readInt(parts[2]).Some? && readInt(parts[2]).value != 0 then readInt(parts[2]).value
         else now.Floor + 28800
  {}

  /** `int(s)` undoes decimal printing. */
  ghost predicate ReadsDecimals(readInt: string -> Option<int>) {
    forall n: nat :: readInt(Decimal(n)) == Some(n)
  }

  /** Of a cookie that was minted, a logout reads the id and the expiry it was
      minted with. */
  lemma LogoutReadsTicket(mac: Mac, t: Ticket, readInt: string -> Option<int>)
    requires MintableTicket(t) && HexMac(mac) && ReadsDecimals(readInt) && t.exp > 0
    ensures CookieSid(IssueOpCookie(mac, t)) == t.sid && t.sid != ""
    ensures forall now :: LogoutHorizon(IssueOpCookie(mac, t), readInt, now) == t.exp
  {
    PartsOfIssued(mac, t);
  }
}
