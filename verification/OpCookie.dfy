/** The `vnc_op` operator-session cookie: how it is minted, and the structural
    parse that reads it back. The HMAC is a parameter, `mac`. */
module OpCookie {
  import opened Text
  import opened Bytes
  import Utf8
  import opened Base64Url

  const OP_SESSION_TTL: nat := 8 * 3600
  const CLOCK_SLACK: nat := 60
  const MAX_COOKIE: nat := 256
  const MAX_USERNAME: nat := 64

  type Mac = string -> string

  /** What one mint signs. `bind` is the client address folded into the
      signature when OP_SESSION_IP_BIND is on. */
  datatype Ticket = Ticket(sid: string, username: string, exp: nat, bind: Option<string>)

  datatype Fields = Fields(sid: string, user64: string, expText: string, sig: string)

  datatype Session = Session(sid: string, username: string, exp: nat)

  predicate IsHexChar(c: char) { '0' <= c <= '9' || 'a' <= c <= 'f' }

  predicate IsHexDigest(s: string) {
    |s| == 64 && forall i :: 0 <= i < |s| ==> IsHexChar(s[i])
  }

  predicate IsSid(s: string) { 8 <= |s| <= 64 && AllUrlChars(s) }

  predicate IsExpText(s: string) { 1 <= |s| <= 12 && AllDigits(s) }

  predicate IsPlainChar(c: char) { 0x21 <= c as int && c as int != 0x7F }

  predicate AllPlain(s: string) { forall i :: 0 <= i < |s| ==> IsPlainChar(s[i]) }

  /** The shapes of the fields, as the regular expressions of the code give them. */
  lemma FieldShapes(s: string, c: char)
    ensures IsSid(s) <==> 8 <= |s| <= 64 && forall i :: 0 <= i < |s| ==> IsUrlChar(s[i])
    ensures IsExpText(s) <==> 1 <= |s| <= 12 && forall i :: 0 <= i < |s| ==> '0' <= s[i] <= '9'
    ensures IsHexDigest(s) <==> |s| == 64 && forall i :: 0 <= i < |s| ==> s[i] in "0123456789abcdef"
    ensures IsUrlChar(c) <==> 'A' <= c <= 'Z' || 'a' <= c <= 'z' || '0' <= c <= '9' || c == '_' || c == '-'
    ensures IsPlainChar(c) <==> c > ' ' && c != '\U{7F}'
  {
    forall d: char ensures IsHexChar(d) <==> d in "0123456789abcdef" { HexChars(d); }
  }

  lemma HexChars(c: char)
    ensures IsHexChar(c) <==> c in "0123456789abcdef"
  {}

  // ----- minting ---------------------------------------------------------

  function User64(username: string): string { EncodeBytes(Utf8.Encode(username)) }

  function BindText(bind: Option<string>): string {
    match bind case None => "" case Some(ip) => "|" + ip
  }

  /** The text under the HMAC. */
  function SignedText(sid: string, user64: string, expText: string, bind: Option<string>): string {
    "op:" + Join([sid, user64, expText], '.') + BindText(bind)
  }

  function TicketText(t: Ticket): string {
    SignedText(t.sid, User64(t.username), Decimal(t.exp), t.bind)
  }

  /** The cookie value `_issue_op_session` queues for a ticket. */
  function IssueOpCookie(mac: Mac, t: Ticket): string {
    Join([t.sid, User64(t.username), Decimal(t.exp), mac(TicketText(t))], '.')
  }

  // ----- parsing ---------------------------------------------------------

  function SplitOpCookie(value: string): (r: Option<Fields>)
    ensures r.Some? ==> IsSid(r.value.sid) && IsExpText(r.value.expText) && IsHexDigest(r.value.sig)
  {
    if value == "" || |value| > MAX_COOKIE then None
    else if !AllPlain(value) then None
    else
      var parts := Split(value, '.');
      if |parts| != 4 then None
      else if !IsSid(parts[0]) then None
      else if !IsExpText(parts[2]) || !IsHexDigest(parts[3]) then None
      else Some(Fields(parts[0], parts[1], parts[2], parts[3]))
  }

  function DecodeOpUsername(user64: string): Option<string> {
    match DecodeText(user64)
    case None => None
    case Some(bs) =>
      match Utf8.Decode(bs)
      case None => None
      case Some(name) => if name == "" || |name| > MAX_USERNAME then None else Some(name)
  }

  predicate InWindow(exp: nat, now: real) {
    now < exp as real <= now + OP_SESSION_TTL as real + CLOCK_SLACK as real
  }

  function ParseOpCookie(mac: Mac, value: string, bind: Option<string>, now: real): Option<Session> {
    match SplitOpCookie(value)
    case None => None
    case Some(f) =>
      match DecodeOpUsername(f.user64)
      case None => None
      case Some(username) =>
        if !InWindow(ParseDecimal(f.expText), now) then None
        else if f.sig != mac(SignedText(f.sid, f.user64, f.expText, bind)) then None
        else Some(Session(f.sid, username, ParseDecimal(f.expText)))
  }

  /** The shapes the four fields must have. */
  predicate WellShaped(f: Fields) {
    IsSid(f.sid) && IsExpText(f.expText) && IsHexDigest(f.sig) && '.' !in f.user64 && AllPlain(f.user64)
  }

  function Printed(f: Fields): string { Join([f.sid, f.user64, f.expText, f.sig], '.') }

  /** A value is split into four fields exactly if they are well shaped and make it
      up again, in at most 256 characters. */
  lemma SplitExactly(value: string, f: Fields)
    ensures SplitOpCookie(value) == Some(f) <==> WellShaped(f) && value == Printed(f) && |value| <= MAX_COOKIE
  {
    var parts := [f.sid, f.user64, f.expText, f.sig];
    if WellShaped(f) && value == Printed(f) {
      SplitJoin(parts, '.');
      JoinFour(f.sid, f.user64, f.expText, f.sig, '.');
      assert AllPlain(f.sid) && AllPlain(f.user64) && AllPlain(f.expText) && AllPlain(f.sig);
    }
    if SplitOpCookie(value) == Some(f) {
      JoinSplit(value, '.');
      assert Split(value, '.') == parts;
      JoinFour(f.sid, f.user64, f.expText, f.sig, '.');
      PlainMiddle(f.sid + ['.'], f.user64, ['.'] + f.expText + ['.'] + f.sig);
      assert value == (f.sid + ['.']) + f.user64 + (['.'] + f.expText + ['.'] + f.sig);
    }
  }

  /** What the parse makes of four well-shaped fields, spelled out. */
  lemma ParseExactly(mac: Mac, f: Fields, bind: Option<string>, now: real)
    requires WellShaped(f) && |Printed(f)| <= 256
    ensures var exp, name := ParseDecimal(f.expText), DecodeOpUsername(f.user64);
      ParseOpCookie(mac, Printed(f), bind, now)
      == if name.Some? && now < exp as real <= now + 28860.0
            && f.sig == mac("op:" + Join([f.sid, f.user64, f.expText], '.') + (if bind.Some? then "|" + bind.value else ""))
         then Some(Session(f.sid, name.value, exp)) else None
  {
    SplitExactly(Printed(f), f);
  }

  /** And what it never lets through: other session ids, names, expiries. */
  lemma ParsedShape(mac: Mac, value: string, bind: Option<string>, now: real)
    requires ParseOpCookie(mac, value, bind, now).Some?
    ensures var c := ParseOpCookie(mac, value, bind, now).value;
      && |value| <= 256 && 8 <= |c.sid| <= 64 && 1 <= |c.username| <= 64
      && (forall i :: 0 <= i < |c.sid| ==>
            'A' <= c.sid[i] <= 'Z' || 'a' <= c.sid[i] <= 'z' || '0' <= c.sid[i] <= '9' || c.sid[i] == '-' || c.sid[i] == '_')
      && now < c.exp as real <= now + 28860.0 && c.exp < 1_000_000_000_000
  {
    var f := SplitOpCookie(value).value;
    SplitExactly(value, f);
    TwelveDigitsRead(f.expText);
  }

  lemma {:induction false} DigitsRead(s: string)
    requires AllDigits(s)
    ensures ParseDecimal(s) < Pow10(|s|)
  {
    if s != "" {
      DigitsRead(s[..|s| - 1]);
      assert Pow10(|s|) == 10 * Pow10(|s| - 1);
    }
  }

  lemma {:induction false} Pow10Grows(a: nat, b: nat)
    requires a <= b
    ensures Pow10(a) <= Pow10(b)
  {
    if a < b { Pow10Grows(a, b - 1); }
  }

  lemma TwelveDigitsRead(s: string)
    requires IsExpText(s)
    ensures ParseDecimal(s) < 1_000_000_000_000
  {
    DigitsRead(s);
    Pow10Grows(|s|, 12);
    BillionThousand();
  }

  lemma PlainMiddle(a: string, b: string, c: string)
    ensures AllPlain(a + b + c) ==> AllPlain(b)
  {
    if AllPlain(a + b + c) {
      forall i | 0 <= i < |b| ensures IsPlainChar(b[i]) { assert (a + b + c)[|a| + i] == b[i]; }
    }
  }

  // ----- the printed form ------------------------------------------------

  ghost predicate HexMac(mac: Mac) { forall m :: IsHexDigest(mac(m)) }

  /** What a mint may be given: a token of the shape `token_urlsafe` yields, an
      operator name of 1 to 64 characters, an expiry that prints in 12 digits. */
  predicate MintableTicket(t: Ticket) {
    IsSid(t.sid) && 1 <= |t.username| <= MAX_USERNAME && t.exp < 1_000_000_000_000
  }

  lemma BillionThousand()
    ensures Pow10(12) == 1_000_000_000_000
  {
    assert Pow10(4) == 10000;
    assert Pow10(8) == 100000000 by { assert Pow10(8) == 10000 * Pow10(4); }
    assert Pow10(12) == 10000 * Pow10(8);
  }

  lemma TwelveDigits(n: nat)
    requires n < 1_000_000_000_000
    ensures IsExpText(Decimal(n))
  {
    BillionThousand();
    DecimalLength(n, 12);
  }

  /** `token_urlsafe(16)`: the token of any 16 bytes is a session id the parser takes. */
  lemma TokenIsSid(bs: seq<Byte>)
    requires |bs| == 16
    ensures |EncodeBytes(bs)| == 22 && IsSid(EncodeBytes(bs)) && '.' !in EncodeBytes(bs) && ':' !in EncodeBytes(bs)
  {
    EncodedLength(bs);
    EncodedAlphabet(bs);
  }

  /** Every ticket of a mint is mintable: its id a token, its name of 1 to 64
      characters. */
  lemma MintedIsMintable(bs: seq<Byte>, username: string, exp: nat, bind: Option<string>)
    requires |bs| == 16 && 1 <= |username| <= 64 && exp < 1_000_000_000_000
    ensures MintableTicket(Ticket(EncodeBytes(bs), username, exp, bind))
  {
    TokenIsSid(bs);
  }

  lemma PartsOfIssued(mac: Mac, t: Ticket)
    requires MintableTicket(t) && HexMac(mac)
    ensures Split(IssueOpCookie(mac, t), '.')
         == [t.sid, User64(t.username), Decimal(t.exp), mac(TicketText(t))]
  {
    EncodedAlphabet(Utf8.Encode(t.username));
    SplitJoin([t.sid, User64(t.username), Decimal(t.exp), mac(TicketText(t))], '.');
  }

  lemma JoinThree(a: string, b: string, c: string, dot: char)
    ensures Join([a, b, c], dot) == a + [dot] + b + [dot] + c
  {
    assert [a, b, c][1..] == [b, c] && [b, c][1..] == [c];
    assert Join([b, c], dot) == b + [dot] + c;
    assert a + [dot] + (b + [dot] + c) == a + [dot] + b + [dot] + c;
  }

  lemma JoinFour(a: string, b: string, c: string, d: string, dot: char)
    ensures Join([a, b, c, d], dot) == a + [dot] + b + [dot] + c + [dot] + d
  {
    JoinThree(b, c, d, dot);
    assert [a, b, c, d][1..] == [b, c, d];
    assert a + [dot] + (b + [dot] + c + [dot] + d) == a + [dot] + b + [dot] + c + [dot] + d;
  }

  lemma PlainPieces(a: string, b: string, c: string, d: string)
    requires AllUrlChars(a) && AllUrlChars(b) && AllDigits(c) && IsHexDigest(d)
    ensures AllPlain(Join([a, b, c, d], '.'))
  {
    JoinFour(a, b, c, d, '.');
    assert AllPlain(a) && AllPlain(b) && AllPlain(c) && AllPlain(d);
  }

  /** The size of a minted cookie, from the size of the name in UTF-8. */
  lemma IssuedLength(mac: Mac, t: Ticket)
    requires HexMac(mac)
    ensures |IssueOpCookie(mac, t)|
         == |t.sid| + (4 * |Utf8.Encode(t.username)| + 2) / 3 + |Decimal(t.exp)| + 67
  {
    var sig := mac(TicketText(t));
    assert IsHexDigest(sig);
    EncodedLength(Utf8.Encode(t.username));
    JoinFour(t.sid, User64(t.username), Decimal(t.exp), sig, '.');
  }

  lemma IssuedSplits(mac: Mac, t: Ticket)
    requires MintableTicket(t) && HexMac(mac)
    ensures SplitOpCookie(IssueOpCookie(mac, t))
         == if |IssueOpCookie(mac, t)| <= MAX_COOKIE
            then Some(Fields(t.sid, User64(t.username), Decimal(t.exp), mac(TicketText(t)))) else None
  {
    var sig := mac(TicketText(t));
    assert IsHexDigest(sig);
    EncodedAlphabet(Utf8.Encode(t.username));
    TwelveDigits(t.exp);
    PlainPieces(t.sid, User64(t.username), Decimal(t.exp), sig);
    IssuedLength(mac, t);
    PartsOfIssued(mac, t);
  }

  lemma NameDecodes(username: string)
    requires 1 <= |username| <= MAX_USERNAME
    ensures DecodeOpUsername(User64(username)) == Some(username)
  {
    DecodeEncodedBytes(Utf8.Encode(username));
    Utf8.DecodeEncoded(username);
  }

  // ----- round trip ------------------------------------------------------

  /** Printing and parsing undo each other: a minted cookie, presented from any
      address at any time, reads back as exactly what was minted if it fits in
      256 characters, is inside its window and its signature recomputes; and is
      refused otherwise. */
  lemma ParseIssued(mac: Mac, t: Ticket, bind: Option<string>, now: real)
    requires MintableTicket(t) && HexMac(mac)
    ensures ParseOpCookie(mac, IssueOpCookie(mac, t), bind, now)
         == if |IssueOpCookie(mac, t)| <= MAX_COOKIE && InWindow(t.exp, now)
               && mac(TicketText(t)) == mac(TicketText(t.(bind := bind)))
            then Some(Session(t.sid, t.username, t.exp)) else None
  {
    IssuedSplits(mac, t);
    NameDecodes(t.username);
    ParsePrinted(t.exp);
  }

  /** With the 22-character tokens and 10-digit clocks in use, the names whose
      cookie fits are those of at most 117 bytes of UTF-8. */
  lemma FitsIff117Bytes(mac: Mac, t: Ticket)
    requires HexMac(mac) && |t.sid| == 22 && |Decimal(t.exp)| == 10
    ensures |IssueOpCookie(mac, t)| <= MAX_COOKIE <==> |Utf8.Encode(t.username)| <= 117
  {
    IssuedLength(mac, t);
  }

  predicate AllAscii(s: string) { forall i :: 0 <= i < |s| ==> s[i] as int < 0x80 }

  /** Every ASCII name gets a cookie that is read back for its whole life. */
  lemma AsciiNameRoundTrips(mac: Mac, t: Ticket, minted: real, now: real)
    requires HexMac(mac) && MintableTicket(t) && |t.sid| == 22 && AllAscii(t.username)
    requires t.exp == minted.Floor + OP_SESSION_TTL && minted <= now < t.exp as real
    ensures ParseOpCookie(mac, IssueOpCookie(mac, t), t.bind, now)
         == Some(Session(t.sid, t.username, t.exp))
  {
    Utf8.AsciiLength(t.username);
    TwelveDigits(t.exp);
    IssuedLength(mac, t);
    ParseIssued(mac, t, t.bind, now);
    assert t.(bind := t.bind) == t;
  }

  /** A name that validation accepts (40 alphanumeric characters) but whose
      cookie no parse ever accepts. */
  lemma LongNameNeverVerifies(mac: Mac, sid: string, exp: nat, bind: Option<string>, seen: Option<string>, now: real)
    requires HexMac(mac) && IsSid(sid) && |sid| == 22
    requires |Decimal(exp)| == 10 && exp < 1_000_000_000_000
    ensures var name := seq(40, i => '\U{4E00}');
            ParseOpCookie(mac, IssueOpCookie(mac, Ticket(sid, name, exp, bind)), seen, now) == None
  {
    var name := seq(40, i => '\U{4E00}');
    WideLength(name);
    FitsIff117Bytes(mac, Ticket(sid, name, exp, bind));
    ParseIssued(mac, Ticket(sid, name, exp, bind), seen, now);
  }

  lemma {:induction false} WideLength(s: string)
    requires forall i :: 0 <= i < |s| ==> 0x800 <= s[i] as int < 0x10000
    ensures |Utf8.Encode(s)| == 3 * |s|
  {
    if s != "" { WideLength(s[1..]); }
  }

  // ----- authenticity ----------------------------------------------------

  /** A piece that cannot hold the separator is determined by the whole. */
  lemma FirstPieceUnique(a: string, x: string, b: string, y: string, c: char)
    requires c !in a && c !in b && a + [c] + x == b + [c] + y
    ensures a == b && x == y
  {
    SplitHead(a, x, c);
    SplitHead(b, y, c);
    assert ([a] + Split(x, c))[0] == a && ([b] + Split(y, c))[0] == b;
    assert (a + [c] + x)[|a| + 1..] == x && (b + [c] + y)[|b| + 1..] == y;
  }

  lemma BarIffBound(e: string, bind: Option<string>)
    requires '|' !in e
    ensures '|' in e + BindText(bind) <==> bind.Some?
  {}

  lemma TailInjective(e1: string, bind1: Option<string>, e2: string, bind2: Option<string>)
    requires '|' !in e1 && '|' !in e2 && e1 + BindText(bind1) == e2 + BindText(bind2)
    ensures e1 == e2 && bind1 == bind2
  {
    BarIffBound(e1, bind1);
    BarIffBound(e2, bind2);
    assert bind1.Some? <==> bind2.Some?;
    if bind1.Some? {
      var ip1, ip2 := bind1.value, bind2.value;
      assert e1 + ("|" + ip1) == e1 + ['|'] + ip1 && e2 + ("|" + ip2) == e2 + ['|'] + ip2;
      FirstPieceUnique(e1, ip1, e2, ip2, '|');
    } else {
      assert e1 + "" == e1 && e2 + "" == e2;
    }
  }

  /** The signed text determines all four things signed, although an address
      holds dots too, and an empty bound address differs from no binding. */
  lemma SignedTextInjective(
      sid1: string, user1: string, exp1: string, bind1: Option<string>,
      sid2: string, user2: string, exp2: string, bind2: Option<string>)
    requires '.' !in sid1 && '.' !in sid2 && '.' !in user1 && '.' !in user2
    requires AllDigits(exp1) && AllDigits(exp2)
    requires SignedText(sid1, user1, exp1, bind1) == SignedText(sid2, user2, exp2, bind2)
    ensures sid1 == sid2 && user1 == user2 && exp1 == exp2 && bind1 == bind2
  {
    SignedTextPieces(sid1, user1, exp1, bind1);
    SignedTextPieces(sid2, user2, exp2, bind2);
    var r1, r2 := exp1 + BindText(bind1), exp2 + BindText(bind2);
    assert SignedText(sid1, user1, exp1, bind1)[3..] == sid1 + ['.'] + (user1 + ['.'] + r1);
    assert SignedText(sid2, user2, exp2, bind2)[3..] == sid2 + ['.'] + (user2 + ['.'] + r2);
    FirstPieceUnique(sid1, user1 + ['.'] + r1, sid2, user2 + ['.'] + r2, '.');
    FirstPieceUnique(user1, r1, user2, r2, '.');
    TailInjective(exp1, bind1, exp2, bind2);
  }

  lemma SignedTextPieces(sid: string, user64: string, expText: string, bind: Option<string>)
    ensures SignedText(sid, user64, expText, bind)
         == "op:" + (sid + ['.'] + (user64 + ['.'] + (expText + BindText(bind))))
  {
    JoinThree(sid, user64, expText, '.');
  }

  ghost predicate WasSigned(minted: set<Ticket>, text: string) {
    exists t :: t in minted && text == TicketText(t)
  }

  /** The HMAC as an ideal MAC: whoever made this cookie, a signature that
      recomputes is one that a mint computed. */
  ghost predicate Unforged(mac: Mac, minted: set<Ticket>, value: string, bind: Option<string>) {
    forall f: Fields :: SplitOpCookie(value) == Some(f)
      && f.sig == mac(SignedText(f.sid, f.user64, f.expText, bind))
      ==> WasSigned(minted, SignedText(f.sid, f.user64, f.expText, bind))
  }

  /** A value whose signature does not recompute claims nothing. */
  lemma UnsignedIsNoForgery(mac: Mac, minted: set<Ticket>, value: string, bind: Option<string>)
    requires forall f :: SplitOpCookie(value) == Some(f) ==> f.sig != mac(SignedText(f.sid, f.user64, f.expText, bind))
    ensures Unforged(mac, minted, value, bind)
  {}

  /** Only a minted cookie is ever accepted, character for character, from the
      address it was bound to, and it reads as the ticket it was minted for. */
  lemma OnlyMintedVerifies(mac: Mac, minted: set<Ticket>, value: string, bind: Option<string>, now: real)
      returns (t: Ticket)
    requires forall t :: t in minted ==> MintableTicket(t)
    requires HexMac(mac) && Unforged(mac, minted, value, bind)
    requires ParseOpCookie(mac, value, bind, now).Some?
    ensures t in minted && t.bind == bind && value == IssueOpCookie(mac, t)
    ensures ParseOpCookie(mac, value, bind, now) == Some(Session(t.sid, t.username, t.exp))
  {
    var f := SplitOpCookie(value).value;
    var text := SignedText(f.sid, f.user64, f.expText, bind);
    assert WasSigned(minted, text);
    t :| t in minted && text == TicketText(t);
    EncodedAlphabet(Utf8.Encode(t.username));
    SignedTextInjective(f.sid, f.user64, f.expText, bind, t.sid, User64(t.username), Decimal(t.exp), t.bind);
    JoinSplit(value, '.');
    assert Split(value, '.') == [t.sid, User64(t.username), Decimal(t.exp), mac(TicketText(t))];
    NameDecodes(t.username);
    ParsePrinted(t.exp);
  }
}
