/** Python's strict UTF-8 codec on strings of Unicode scalar values. */
module Utf8 {
  import opened Text
  import opened Bytes

  /** `c.encode("utf-8")` */
  function EncodeChar(c: char): (bs: seq<Byte>)
    ensures 1 <= |bs| <= 4
  {
    var cp := c as int;
    if cp < 0x80 then [cp]
    else if cp < 0x800 then [0xC0 + cp / 64, 0x80 + cp % 64]
    else if cp < 0x10000 then [0xE0 + cp / 4096, 0x80 + cp / 64 % 64, 0x80 + cp % 64]
    else [0xF0 + cp / 262144, 0x80 + cp / 4096 % 64, 0x80 + cp / 64 % 64, 0x80 + cp % 64]
  }

  function Encode(s: string): (bs: seq<Byte>)
    ensures |s| <= |bs| <= 4 * |s|
  {
    if s == "" then [] else EncodeChar(s[0]) + Encode(s[1..])
  }

  predicate IsContinuation(b: Byte) { 0x80 <= b < 0xC0 }

  /** The six payload bits of a continuation byte. */
  function Tail(b: Byte): (t: nat)
    requires IsContinuation(b)
    ensures t < 64
  {
    b % 64
  }

  /** The first character of `bs` and the number of bytes it takes; None when
      the bytes are truncated, overlong, a surrogate or out of range. */
  function DecodeChar(bs: seq<Byte>): (r: Option<(char, nat)>)
    requires |bs| >= 1
    ensures r.Some? ==> 1 <= r.value.1 <= |bs|
  {
    var b: int := bs[0];
    if b < 0x80 then Some((b as char, 1))
    else if 0xC2 <= b < 0xE0 && |bs| >= 2 && IsContinuation(bs[1]) then
      Some((((b - 0xC0) * 64 + Tail(bs[1])) as char, 2))
    else if 0xE0 <= b < 0xF0 && |bs| >= 3 && IsContinuation(bs[1]) && IsContinuation(bs[2]) then
      var cp := (b - 0xE0) * 4096 + Tail(bs[1]) * 64 + Tail(bs[2]);
      if cp < 0x800 || 0xD800 <= cp < 0xE000 then None else Some((cp as char, 3))
    else if 0xF0 <= b < 0xF5 && |bs| >= 4
        && IsContinuation(bs[1]) && IsContinuation(bs[2]) && IsContinuation(bs[3]) then
      var cp := (b - 0xF0) * 262144 + Tail(bs[1]) * 4096 + Tail(bs[2]) * 64 + Tail(bs[3]);
      if cp < 0x10000 || 0x110000 <= cp then None else Some((cp as char, 4))
    else None
  }

  /** `bs.decode("utf-8")`; None stands for UnicodeDecodeError. */
  function Decode(bs: seq<Byte>): Option<string> {
    if bs == [] then Some("")
    else match DecodeChar(bs)
      case None => None
      case Some((c, n)) =>
        match Decode(bs[n..])
        case None => None
        case Some(rest) => Some([c] + rest)
  }

  lemma DecodeCharEncoded(c: char, rest: seq<Byte>)
    ensures DecodeChar(EncodeChar(c) + rest) == Some((c, |EncodeChar(c)|))
  {
    var cp := c as int;
    var bs := EncodeChar(c) + rest;
    SixBitDigits(cp);
    if cp < 0x800 {
    } else if cp < 0x10000 {
      ThreeBytes(cp, bs);
    } else {
      FourBytes(cp, bs);
    }
  }

  lemma ThreeBytes(cp: nat, bs: seq<Byte>)
    requires 0x800 <= cp < 0x10000 && !(0xD800 <= cp < 0xE000)
    requires |bs| >= 3 && bs[0] == 0xE0 + cp / 4096
    requires bs[1] == 0x80 + cp / 64 % 64 && bs[2] == 0x80 + cp % 64
    ensures DecodeChar(bs) == Some((cp as char, 3))
  {
    SixBitDigits(cp);
  }

  lemma FourBytes(cp: nat, bs: seq<Byte>)
    requires 0x10000 <= cp < 0x110000
    requires |bs| >= 4 && bs[0] == 0xF0 + cp / 262144 && bs[1] == 0x80 + cp / 4096 % 64
    requires bs[2] == 0x80 + cp / 64 % 64 && bs[3] == 0x80 + cp % 64
    ensures DecodeChar(bs) == Some((cp as char, 4))
  {
    SixBitDigits(cp);
  }

  lemma SixBitDigits(n: nat)
    ensures n / 4096 * 4096 + n / 64 % 64 * 64 + n % 64 == n
    ensures n / 262144 * 262144 + n / 4096 % 64 * 4096 + n / 64 % 64 * 64 + n % 64 == n
  {
    assert n / 64 / 64 == n / 4096;
    assert n / 4096 / 64 == n / 262144;
  }

  lemma {:induction false} DecodeEncoded(s: string)
    ensures Decode(Encode(s)) == Some(s)
  {
    if s != "" {
      var rest := Encode(s[1..]);
      DecodeCharEncoded(s[0], rest);
      DecodeEncoded(s[1..]);
      assert (EncodeChar(s[0]) + rest)[|EncodeChar(s[0])|..] == rest;
      assert [s[0]] + s[1..] == s;
    }
  }

  /** The decoder is strict: what it takes is what the encoder writes, so nothing
      overlong, truncated or beyond Unicode. */
  lemma {:induction false} EncodeDecoded(bs: seq<Byte>)
    requires Decode(bs).Some?
    ensures Encode(Decode(bs).value) == bs
    decreases |bs|
  {
    if bs != [] {
      var (c, n) := DecodeChar(bs).value;
      EncodeDecodedChar(bs, c, n);
      EncodeDecoded(bs[n..]);
      var rest := Decode(bs[n..]).value;
      assert ([c] + rest)[1..] == rest && bs[..n] + bs[n..] == bs;
    }
  }

  lemma EncodeDecodedChar(bs: seq<Byte>, c: char, n: nat)
    requires |bs| >= 1 && DecodeChar(bs) == Some((c, n))
    ensures n <= |bs| && EncodeChar(c) == bs[..n]
  {
    if bs[0] < 0x80 {
    } else if bs[0] < 0xE0 {
      TwoDecoded(bs, c);
    } else if bs[0] < 0xF0 {
      ThreeDecoded(bs, c);
    } else {
      FourDecoded(bs, c);
    }
  }

  lemma TwoDecoded(bs: seq<Byte>, c: char)
    requires |bs| >= 2 && 0xC2 <= bs[0] < 0xE0 && IsContinuation(bs[1]) && c as int == (bs[0] - 0xC0) * 64 + Tail(bs[1])
    ensures EncodeChar(c) == bs[..2]
  {
    var a: int, b: int := bs[0] - 0xC0, bs[1] - 0x80;
    assert c as int == a * 64 + b;
    assert (a * 64 + b) / 64 == a && (a * 64 + b) % 64 == b;
  }

  lemma ThreeDecoded(bs: seq<Byte>, c: char)
    requires |bs| >= 3 && 0xE0 <= bs[0] < 0xF0 && IsContinuation(bs[1]) && IsContinuation(bs[2]) && c as int >= 0x800
    requires c as int == (bs[0] - 0xE0) * 4096 + Tail(bs[1]) * 64 + Tail(bs[2])
    ensures EncodeChar(c) == bs[..3]
  {
    var a: int, b: int, d: int := bs[0] - 0xE0, bs[1] - 0x80, bs[2] - 0x80;
    assert Tail(bs[1]) == b && Tail(bs[2]) == d;
    SixBits(a, b, d);
    assert c as int < 0x10000;
  }

  lemma FourDecoded(bs: seq<Byte>, c: char)
    requires |bs| >= 4 && 0xF0 <= bs[0] < 0xF5 && c as int >= 0x10000
    requires IsContinuation(bs[1]) && IsContinuation(bs[2]) && IsContinuation(bs[3])
    requires c as int == (bs[0] - 0xF0) * 262144 + Tail(bs[1]) * 4096 + Tail(bs[2]) * 64 + Tail(bs[3])
    ensures EncodeChar(c) == bs[..4]
  {
    var a: int, b: int, d: int, e: int := bs[0] - 0xF0, bs[1] - 0x80, bs[2] - 0x80, bs[3] - 0x80;
    SixBits(a * 64 + b, d, e);
    assert (a * 64 + b) / 64 == a && (a * 64 + b) % 64 == b;
    assert c as int == (a * 64 + b) * 4096 + d * 64 + e;
    assert c as int / 262144 == c as int / 4096 / 64;
  }

  lemma SixBits(a: nat, b: nat, c: nat)
    requires b < 64 && c < 64
    ensures var n := a * 4096 + b * 64 + c; n / 4096 == a && n / 64 % 64 == b && n % 64 == c
  {
    var n := a * 4096 + b * 64 + c;
    assert n == (a * 64 + b) * 64 + c && n / 64 == a * 64 + b;
  }

  /** One character of each length, as the standard encodes them. */
  lemma Samples()
    ensures EncodeChar('A') == [0x41] && EncodeChar('\U{E9}') == [0xC3, 0xA9]
    ensures EncodeChar('\U{20AC}') == [0xE2, 0x82, 0xAC] && EncodeChar('\U{1F600}') == [0xF0, 0x9F, 0x98, 0x80]
  {}

  /** Text of ASCII characters takes one byte each. */
  lemma {:induction false} AsciiLength(s: string)
    requires forall i :: 0 <= i < |s| ==> s[i] as int < 0x80
    ensures |Encode(s)| == |s|
  {
    if s != "" { AsciiLength(s[1..]); }
  }
}
