/** Unpadded base64url (section 5 of RFC 4648) as Python produces and reads it:
    `urlsafe_b64encode(bs).rstrip("=")` and `urlsafe_b64decode(s + padding)`.
    The decoder is the lenient one of `binascii`: characters outside the
    alphabet are skipped, and the standard alphabet's '+' and '/' are read too. */
module Base64Url {
  import opened Text
  import opened Bytes

  predicate IsUrlChar(c: char) {
    'A' <= c <= 'Z' || 'a' <= c <= 'z' || '0' <= c <= '9' || c == '-' || c == '_'
  }

  predicate AllUrlChars(s: string) { forall i :: 0 <= i < |s| ==> IsUrlChar(s[i]) }

  function UrlChar(i: nat): (c: char)
    requires i < 64
    ensures IsUrlChar(c)
  {
    if i < 26 then ('A' as int + i) as char
    else if i < 52 then ('a' as int + (i - 26)) as char
    else if i < 62 then ('0' as int + (i - 52)) as char
    else if i == 62 then '-'
    else '_'
  }

  function Sextet(c: char): (r: Option<nat>)
    ensures r.Some? ==> r.value < 64
  {
    if 'A' <= c <= 'Z' then Some(c as int - 'A' as int)
    else if 'a' <= c <= 'z' then Some(c as int - 'a' as int + 26)
    else if '0' <= c <= '9' then Some(c as int - '0' as int + 52)
    else if c == '-' || c == '+' then Some(62)
    else if c == '_' || c == '/' then Some(63)
    else None
  }

  lemma SextetOfUrlChar(i: nat)
    requires i < 64
    ensures Sextet(UrlChar(i)) == Some(i) && UrlChar(i) != '='
  {}

  function EncodeOne(b0: Byte): (s: string)
    ensures |s| == 2
  {
    [UrlChar(b0 / 4), UrlChar(b0 % 4 * 16)]
  }

  function EncodeTwo(b0: Byte, b1: Byte): (s: string)
    ensures |s| == 3
  {
    [UrlChar(b0 / 4), UrlChar(b0 % 4 * 16 + b1 / 16), UrlChar(b1 % 16 * 4)]
  }

  function EncodeGroup(b0: Byte, b1: Byte, b2: Byte): (s: string)
    ensures |s| == 4
  {
    [UrlChar(b0 / 4), UrlChar(b0 % 4 * 16 + b1 / 16), UrlChar(b1 % 16 * 4 + b2 / 64), UrlChar(b2 % 64)]
  }

  function EncodeBytes(bs: seq<Byte>): string
  {
    if bs == [] then ""
    else if |bs| == 1 then EncodeOne(bs[0])
    else if |bs| == 2 then EncodeTwo(bs[0], bs[1])
    else EncodeGroup(bs[0], bs[1], bs[2]) + EncodeBytes(bs[3..])
  }

  lemma {:induction false} EncodedAlphabet(bs: seq<Byte>)
    ensures AllUrlChars(EncodeBytes(bs))
  {
    if |bs| >= 3 { EncodedAlphabet(bs[3..]); }
  }

  lemma {:induction false} EncodedLength(bs: seq<Byte>)
    ensures |EncodeBytes(bs)| == (4 * |bs| + 2) / 3
  {
    if |bs| >= 3 { EncodedLength(bs[3..]); }
  }

  /** The scan of `binascii.a2b_base64`: `quad` characters of the current group
      are read, `left` holds their bits not yet written, `pads` counts '='. */
  function Scan(s: string, quad: nat, left: nat, pads: nat): Option<seq<Byte>>
    requires quad == 0 || (quad == 1 && left < 64) || (quad == 2 && left < 16) || (quad == 3 && left < 4)
  {
    if s == "" then (if quad == 0 then Some([]) else None)
    else if s[0] == '=' then
      if quad >= 2 && quad + pads + 1 >= 4 then Some([])
      else Scan(s[1..], quad, left, if quad >= 2 then pads + 1 else pads)
    else match Sextet(s[0])
      case None => Scan(s[1..], quad, left, pads)
      case Some(v) =>
        if quad == 0 then Scan(s[1..], 1, v, 0)
        else if quad == 1 then Emit(left * 4 + v / 16, Scan(s[1..], 2, v % 16, 0))
        else if quad == 2 then Emit(left * 16 + v / 4, Scan(s[1..], 3, v % 4, 0))
        else Emit(left * 64 + v, Scan(s[1..], 0, 0, 0))
  }

  function Emit(b: Byte, rest: Option<seq<Byte>>): Option<seq<Byte>> {
    if rest.None? then None else Some([b] + rest.value)
  }

  /** `"=" * (-len(s) % 4)` */
  function Padding(s: string): string {
    match |s| % 4
    case 0 => ""
    case 1 => "==="
    case 2 => "=="
    case _ => "="
  }

  /** `urlsafe_b64decode(s + "=" * (-len(s) % 4))`; None stands for an exception. */
  function DecodeText(s: string): Option<seq<Byte>> {
    if exists i :: 0 <= i < |s| && s[i] as int >= 128 then None
    else Scan(s + Padding(s), 0, 0, 0)
  }

  /** The sextets of a group, put back together as the scan does, are its bytes. */
  lemma GroupBytes(b0: Byte, b1: Byte, b2: Byte)
    ensures b0 / 4 * 4 + b0 % 4 * 16 / 16 == b0
    ensures b0 / 4 * 4 + (b0 % 4 * 16 + b1 / 16) / 16 == b0
    ensures (b0 % 4 * 16 + b1 / 16) % 16 * 16 + b1 % 16 * 4 / 4 == b1
    ensures (b0 % 4 * 16 + b1 / 16) % 16 * 16 + (b1 % 16 * 4 + b2 / 64) / 4 == b1
    ensures (b1 % 16 * 4 + b2 / 64) % 4 * 64 + b2 % 64 == b2
  {}

  /** The '=' characters that complete the last group of `n` encoded bytes. */
  function GroupPadding(n: nat): string {
    match n % 3 case 0 => "" case 1 => "==" case _ => "="
  }

  lemma LastGroup(n: nat, len: nat)
    requires len == (4 * n + 2) / 3
    ensures len % 4 == if n % 3 == 0 then 0 else n % 3 + 1
  {}

  lemma PaddingOfEncoded(bs: seq<Byte>)
    ensures Padding(EncodeBytes(bs)) == GroupPadding(|bs|)
  {
    EncodedLength(bs);
    LastGroup(|bs|, |EncodeBytes(bs)|);
  }

  lemma {:induction false} ScanEncoded(bs: seq<Byte>, pad: string)
    requires pad == GroupPadding(|bs|)
    ensures Scan(EncodeBytes(bs) + pad, 0, 0, 0) == Some(bs)
  {
    if |bs| < 3 {
      ScanEncodedEnd(bs, pad);
    } else {
      var rest := bs[3..];
      assert bs == [bs[0], bs[1], bs[2]] + rest;
      assert Scan(EncodeBytes(rest) + pad, 0, 0, 0) == Some(rest) by { ScanEncoded(rest, pad); }
      ScanEncodedStep(bs[0], bs[1], bs[2], EncodeBytes(rest), rest, pad);
    }
  }

  lemma ScanEncodedStep(b0: Byte, b1: Byte, b2: Byte, enc: string, bs: seq<Byte>, pad: string)
    requires Scan(enc + pad, 0, 0, 0) == Some(bs)
    ensures Scan(EncodeGroup(b0, b1, b2) + enc + pad, 0, 0, 0) == Some([b0, b1, b2] + bs)
  {
    ScanEncodedGroup(b0, b1, b2, enc + pad);
    assert EncodeGroup(b0, b1, b2) + enc + pad == EncodeGroup(b0, b1, b2) + (enc + pad);
    assert [b0] + ([b1] + ([b2] + bs)) == [b0, b1, b2] + bs;
  }

  lemma ScanEncodedEnd(bs: seq<Byte>, pad: string)
    requires |bs| < 3 && pad == GroupPadding(|bs|)
    ensures Scan(EncodeBytes(bs) + pad, 0, 0, 0) == Some(bs)
  {
    if |bs| == 1 {
      GroupBytes(bs[0], 0, 0);
      ScanTwo(bs[0] / 4, bs[0] % 4 * 16, pad);
      assert [bs[0]] + [] == bs;
    } else if |bs| == 2 {
      GroupBytes(bs[0], bs[1], 0);
      ScanThree(bs[0] / 4, bs[0] % 4 * 16 + bs[1] / 16, bs[1] % 16 * 4, pad);
      assert [bs[0]] + ([bs[1]] + []) == bs;
    }
  }

  lemma ScanEncodedGroup(b0: Byte, b1: Byte, b2: Byte, rest: string)
    ensures Scan(EncodeGroup(b0, b1, b2) + rest, 0, 0, 0)
         == Emit(b0, Emit(b1, Emit(b2, Scan(rest, 0, 0, 0))))
  {
    GroupBytes(b0, b1, b2);
    ScanFour(b0 / 4, b0 % 4 * 16 + b1 / 16, b1 % 16 * 4 + b2 / 64, b2 % 64, rest);
  }

  lemma ScanOne(v: nat, rest: string)
    requires v < 64
    ensures Scan([UrlChar(v)] + rest, 0, 0, 0) == Scan(rest, 1, v, 0)
  {}

  lemma ScanTwo(v0: nat, v1: nat, pad: string)
    requires v0 < 64 && v1 < 64
    ensures Scan([UrlChar(v0), UrlChar(v1)] + pad, 0, 0, 0)
         == Emit(v0 * 4 + v1 / 16, Scan(pad, 2, v1 % 16, 0))
    ensures pad == "==" ==> Scan(pad, 2, v1 % 16, 0) == Some([])
  {
    var t := [UrlChar(v1)] + pad;
    ScanOne(v0, t);
    SextetOfUrlChar(v1);
    assert [UrlChar(v0), UrlChar(v1)] + pad == [UrlChar(v0)] + t;
    assert t[1..] == pad;
    if pad == "==" { assert pad[1..] == "="; }
  }

  lemma ScanThree(v0: nat, v1: nat, v2: nat, pad: string)
    requires v0 < 64 && v1 < 64 && v2 < 64
    ensures Scan([UrlChar(v0), UrlChar(v1), UrlChar(v2)] + pad, 0, 0, 0)
         == Emit(v0 * 4 + v1 / 16, Emit(v1 % 16 * 16 + v2 / 4, Scan(pad, 3, v2 % 4, 0)))
    ensures pad == "=" ==> Scan(pad, 3, v2 % 4, 0) == Some([])
  {
    var t := [UrlChar(v2)] + pad;
    ScanTwo(v0, v1, t);
    SextetOfUrlChar(v2);
    assert [UrlChar(v0), UrlChar(v1), UrlChar(v2)] + pad == [UrlChar(v0), UrlChar(v1)] + t;
    assert t[1..] == pad;
  }

  lemma ScanFour(v0: nat, v1: nat, v2: nat, v3: nat, rest: string)
    requires v0 < 64 && v1 < 64 && v2 < 64 && v3 < 64
    ensures Scan([UrlChar(v0), UrlChar(v1), UrlChar(v2), UrlChar(v3)] + rest, 0, 0, 0)
         == Emit(v0 * 4 + v1 / 16, Emit(v1 % 16 * 16 + v2 / 4,
                Emit(v2 % 4 * 64 + v3, Scan(rest, 0, 0, 0))))
  {
    var t := [UrlChar(v3)] + rest;
    ScanThree(v0, v1, v2, t);
    SextetOfUrlChar(v3);
    assert [UrlChar(v0), UrlChar(v1), UrlChar(v2), UrlChar(v3)] + rest
        == [UrlChar(v0), UrlChar(v1), UrlChar(v2)] + t;
    assert t[1..] == rest;
  }

  /** Vectors of section 10 of RFC 4648, without padding. */
  lemma Vectors()
    ensures EncodeBytes([0x66]) == "Zg" && EncodeBytes([0x66, 0x6F]) == "Zm8"
    ensures EncodeGroup(0x66, 0x6F, 0x6F) == "Zm9v" && EncodeGroup(0x62, 0x61, 0x72) == "YmFy"
  {}

  /** Where the runs of the alphabet begin and end. */
  lemma AlphabetRuns()
    ensures UrlChar(0) == 'A' && UrlChar(25) == 'Z' && UrlChar(26) == 'a' && UrlChar(51) == 'z'
    ensures UrlChar(52) == '0' && UrlChar(61) == '9' && UrlChar(62) == '-' && UrlChar(63) == '_'
  {}

  /** One character of the scan. The standard alphabet is read too, what is in
      neither is skipped, and '=' counts from the third character of a group on. */
  lemma ScanOneMore(c: char, s: string, quad: nat, left: nat, pads: nat)
    requires quad == 0 || (quad == 1 && left < 64) || (quad == 2 && left < 16) || (quad == 3 && left < 4)
    ensures Sextet('+') == Sextet('-') == Some(62) && Sextet('/') == Sextet('_') == Some(63)
    ensures c == '=' ==>
      Scan([c] + s, quad, left, pads)
      == if quad < 2 then Scan(s, quad, left, pads)
         else if quad + pads < 3 then Scan(s, quad, left, pads + 1) else Some([])
    ensures !IsUrlChar(c) && c != '+' && c != '/' && c != '=' ==> Scan([c] + s, quad, left, pads) == Scan(s, quad, left, pads)
    ensures Sextet(c).Some? ==> Scan([c] + s, quad, left, pads) == Scan([c] + s, quad, left, 0)
  {
    assert ([c] + s)[1..] == s;
  }

  /** Text beyond ASCII is refused; any other is padded and scanned from its start. */
  lemma DecodeTextExactly(s: string)
    ensures (exists i :: 0 <= i < |s| && s[i] as int > 127) ==> DecodeText(s) == None
    ensures (forall i :: 0 <= i < |s| ==> s[i] as int <= 127) ==>
              DecodeText(s) == Scan(s + Padding(s), 0, 0, 0)
    ensures (|s| + |Padding(s)|) % 4 == 0 && |Padding(s)| < 4 && forall i :: 0 <= i < |Padding(s)| ==> Padding(s)[i] == '='
  {}

  /** Decoding undoes encoding for every byte string. */
  lemma DecodeEncodedBytes(bs: seq<Byte>)
    ensures DecodeText(EncodeBytes(bs)) == Some(bs)
  {
    PaddingOfEncoded(bs);
    ScanEncoded(bs, GroupPadding(|bs|));
  }
}
