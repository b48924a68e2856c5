/** The `.vrsrec` screen-recording format: the writer, and the player's parser,
    which takes a file cut off anywhere after its header. zlib and the JSON of
    the header are parameters. */
module Vrsrec {
  import opened Text
  import opened Bytes

  const MAGIC: seq<Byte> := [0x56, 0x52, 0x53, 0x52, 0x45, 0x43, 0x30, 0x31]  // 'VRSREC01'
  const TYPE_RECT: Byte := 0x52
  const TYPE_RESIZE: Byte := 0x5A
  const TYPE_END: Byte := 0x45

  datatype Header = Header(width: nat, height: nat, name: string)

  datatype Rect = Rect(t: nat, x: nat, y: nat, w: nat, h: nat, pixels: seq<Byte>)

  datatype Recording = Recording(header: Header, rects: seq<Rect>, duration: nat)

  datatype ParseError = BadMagic | OutOfRange | BadHeader | BadDeflate

  type ReadHeader = seq<Byte> -> Option<Header>
  type Deflate = seq<Byte> -> seq<Byte>
  type Inflate = seq<Byte> -> Option<seq<Byte>>

  // ----- the writer ------------------------------------------------------

  datatype Block =
    | RectBlock(t: nat, x: nat, y: nat, w: nat, h: nat, bgrx: seq<Byte>)
    | ResizeBlock(t: nat, w: nat, h: nat)
    | EndBlock(t: nat)

  predicate FieldsFit(b: Block) {
    && b.t < U32
    && (b.RectBlock? ==> b.x < U16 && b.y < U16 && b.w < U16 && b.h < U16)
    && (b.ResizeBlock? ==> b.w < U16 && b.h < U16)
  }

  function Payload(b: Block, deflate: Deflate): (bs: seq<Byte>)
    requires FieldsFit(b)
    ensures |bs| >= 5
  {
    match b
    case RectBlock(t, x, y, w, h, bgrx) =>
      [TYPE_RECT] + (PackU32(t) + (PackU16(x) + (PackU16(y) + (PackU16(w) + (PackU16(h) + deflate(bgrx))))))
    case ResizeBlock(t, w, h) => [TYPE_RESIZE] + (PackU32(t) + (PackU16(w) + PackU16(h)))
    case EndBlock(t) => [TYPE_END] + (PackU32(t) + [])
  }

  predicate Writable(b: Block, deflate: Deflate) {
    FieldsFit(b) && |Payload(b, deflate)| < U32
  }

  function EncodeBlock(b: Block, deflate: Deflate): (bs: seq<Byte>)
    requires Writable(b, deflate)
    ensures |bs| == 4 + |Payload(b, deflate)|
  {
    PackU32(|Payload(b, deflate)|) + Payload(b, deflate)
  }

  predicate AllWritable(blocks: seq<Block>, deflate: Deflate) {
    forall i :: 0 <= i < |blocks| ==> Writable(blocks[i], deflate)
  }

  function EncodeBlocks(blocks: seq<Block>, deflate: Deflate): seq<Byte>
    requires AllWritable(blocks, deflate)
  {
    if blocks == [] then [] else EncodeBlock(blocks[0], deflate) + EncodeBlocks(blocks[1..], deflate)
  }

  function EncodeHeader(header: seq<Byte>): (bs: seq<Byte>)
    requires |header| < U32
    ensures |bs| == 12 + |header|
  {
    MAGIC + (PackU32(|header|) + header)
  }

  // ----- the parser ------------------------------------------------------

  /** What one block adds: a rectangle and its time, a time alone, or nothing. */
  datatype Effect = Paint(rect: Rect) | Stamp(t: nat) | Nothing

  /** The block whose `blen`-byte payload starts `s`. Its fields are read where
      they should be even if the payload is too short to hold them. */
  function ReadBlock(s: seq<Byte>, blen: nat, inflate: Inflate): Result<Effect, ParseError>
    requires blen <= |s|
  {
    if |s| < 5 then Err(OutOfRange)
    else
      var t := ReadU32(s[1..]);
      if s[0] == TYPE_RECT then
        if |s| < 13 then Err(OutOfRange)
        else
          var data := if blen < 13 then [] else s[13..blen];
          match inflate(data)
          case None => Err(BadDeflate)
          case Some(bgrx) =>
            Ok(Paint(Rect(t, ReadU16(s[5..]), ReadU16(s[7..]), ReadU16(s[9..]), ReadU16(s[11..]), Rgba(bgrx))))
      else if s[0] == TYPE_RESIZE || s[0] == TYPE_END then Ok(Stamp(t))
      else Ok(Nothing)
  }

  /** What a block is, by its type and the offsets of its fields. */
  lemma ReadBlockExactly(s: seq<Byte>, blen: nat, inflate: Inflate)
    requires blen <= |s|
    ensures var r := ReadBlock(s, blen, inflate);
      && (|s| < 5 || (s[0] == 0x52 && |s| < 13) ==> r == Err(OutOfRange))
      && (|s| >= 13 && s[0] == 0x52 ==>
            var pixels := inflate(if blen < 13 then [] else s[13..blen]);
            r == if pixels.None? then Err(BadDeflate)
                 else Ok(Paint(Rect(ReadU32(s[1..]), ReadU16(s[5..]), ReadU16(s[7..]), ReadU16(s[9..]), ReadU16(s[11..]),
                                    Rgba(pixels.value)))))
      && (|s| >= 5 && (s[0] == 0x5A || s[0] == 0x45) ==> r == Ok(Stamp(ReadU32(s[1..]))))
      && (|s| >= 5 && s[0] != 0x52 && s[0] != 0x5A && s[0] != 0x45 ==> r == Ok(Nothing))
  {}

  /** The rectangles and the duration that the blocks in `s` come to. */
  datatype Played = Played(rects: seq<Rect>, duration: nat)

  function Max(a: nat, b: nat): nat { if a > b then a else b }

  function Painted(e: Effect): seq<Rect> { if e.Paint? then [e.rect] else [] }

  function TimeOf(e: Effect): nat {
    match e
    case Paint(r) => r.t
    case Stamp(t) => t
    case Nothing => 0
  }

  function AddEffect(e: Effect, rest: Played): Played {
    Played(Painted(e) + rest.rects, Max(TimeOf(e), rest.duration))
  }

  function ParseBlocks(s: seq<Byte>, inflate: Inflate): Result<Played, ParseError>
    decreases |s|
  {
    if |s| < 4 || 4 + ReadU32(s) > |s| then Ok(Played([], 0))
    else
      var blen := ReadU32(s);
      Continue(ReadBlock(s[4..], blen, inflate), ParseBlocks(s[4 + blen..], inflate))
  }

  function Continue(effect: Result<Effect, ParseError>, rest: Result<Played, ParseError>): Result<Played, ParseError> {
    if effect.Err? then Err(effect.error)
    else if rest.Err? then rest
    else Ok(AddEffect(effect.value, rest.value))
  }

  function Parse(bytes: seq<Byte>, readHeader: ReadHeader, inflate: Inflate): Result<Recording, ParseError> {
    if |bytes| < 8 || bytes[..8] != MAGIC then Err(BadMagic)
    else if |bytes| < 12 then Err(OutOfRange)
    else
      var start := 12 + ReadU32(bytes[8..]);
      match readHeader(bytes[12..Min(start, |bytes|)])
      case None => Err(BadHeader)
      case Some(header) =>
        match ParseBlocks(bytes[Min(start, |bytes|)..], inflate)
        case Err(e) => Err(e)
        case Ok(p) => Ok(Recording(header, p.rects, p.duration))
  }

  /** A whole file: its magic number is the text VRSREC01; the length of the header
      follows, then the header, as far as the file goes, and the blocks. */
  lemma ParseExactly(bytes: seq<Byte>, readHeader: ReadHeader, inflate: Inflate)
    ensures Parse(bytes, readHeader, inflate) == Err(BadMagic)
       <==> |bytes| < 8 || exists i :: 0 <= i < 8 && bytes[i] != "VRSREC01"[i] as int
    ensures |bytes| >= 8 && (forall i :: 0 <= i < 8 ==> bytes[i] == "VRSREC01"[i] as int) ==>
      Parse(bytes, readHeader, inflate)
      == if |bytes| < 12 then Err(OutOfRange)
         else
           var end := if 12 + ReadU32(bytes[8..]) < |bytes| then 12 + ReadU32(bytes[8..]) else |bytes|;
           var header, played := readHeader(bytes[12..end]), ParseBlocks(bytes[end..], inflate);
           if header.None? then Err(BadHeader) else if played.Err? then Err(played.error)
           else Ok(Recording(header.value, played.value.rects, played.value.duration))
  {
    assert |MAGIC| == 8 && forall i :: 0 <= i < 8 ==> MAGIC[i] == "VRSREC01"[i] as int;
    if |bytes| >= 8 { assert bytes[..8] == MAGIC <==> forall i :: 0 <= i < 8 ==> bytes[i] == MAGIC[i]; }
    BlocksNeverMagic(bytes, readHeader, inflate);
  }

  lemma {:induction false} BlocksErr(s: seq<Byte>, inflate: Inflate)
    ensures ParseBlocks(s, inflate).Err? ==> !ParseBlocks(s, inflate).error.BadMagic?
    decreases |s|
  {
    if |s| >= 4 && 4 + ReadU32(s) <= |s| { BlocksErr(s[4 + ReadU32(s)..], inflate); }
  }

  lemma BlocksNeverMagic(bytes: seq<Byte>, readHeader: ReadHeader, inflate: Inflate)
    ensures |bytes| >= 8 && bytes[..8] == MAGIC ==> Parse(bytes, readHeader, inflate) != Err(BadMagic)
  {
    if |bytes| >= 12 { BlocksErr(bytes[Min(12 + ReadU32(bytes[8..]), |bytes|)..], inflate); }
  }

  function Min(a: nat, b: nat): nat { if a < b then a else b }

  /** BGRX pixels as the canvas wants them. Reads past the end give 0, as in the
      typed arrays of the original; only a length that is no multiple of 4 does. */
  function Rgba(bgrx: seq<Byte>): (rgba: seq<Byte>)
    ensures |rgba| == |bgrx|
  {
    seq(|bgrx|, j requires 0 <= j < |bgrx| =>
      if j % 4 == 0 then (if j + 2 < |bgrx| then bgrx[j + 2] else 0)
      else if j % 4 == 1 then bgrx[j]
      else if j % 4 == 2 then bgrx[j - 2]
      else 255)
  }

  /** The parser's pixel loop, on the fixed buffer it fills. */
  method SwapChannels(bgrx: seq<Byte>) returns (rgba: array<Byte>)
    ensures fresh(rgba) && rgba[..] == Rgba(bgrx)
  {
    var n := |bgrx|;
    ghost var swapped := Rgba(bgrx);
    rgba := new Byte[n](_ => 0);
    var i := 0;
    while i < n
      invariant 0 <= i && i % 4 == 0 && rgba.Length == n
      invariant forall j :: 0 <= j < n && j < i ==> rgba[j] == swapped[j]
      decreases n - i
    {
      rgba[i] := if i + 2 < n then bgrx[i + 2] else 0;
      if i + 1 < n { rgba[i + 1] := bgrx[i + 1]; }
      if i + 2 < n { rgba[i + 2] := bgrx[i]; }
      if i + 3 < n { rgba[i + 3] := 255; }
      i := i + 4;
    }
  }

  /** What has been read, with one more block. */
  function Apply(p: Played, e: Effect): Played {
    Played(p.rects + Painted(e), Max(p.duration, TimeOf(e)))
  }

  /** What has been read, then what the rest of the file adds. */
  function After(p: Played, rest: Result<Played, ParseError>): Result<Played, ParseError> {
    if rest.Err? then rest
    else Ok(Played(p.rects + rest.value.rects, Max(p.duration, rest.value.duration)))
  }

  lemma AfterContinue(p: Played, e: Effect, rest: Result<Played, ParseError>)
    ensures After(p, Continue(Ok(e), rest)) == After(Apply(p, e), rest)
  {
    if rest.Ok? {
      assert p.rects + (Painted(e) + rest.value.rects) == p.rects + Painted(e) + rest.value.rects;
    }
  }

  lemma AfterNothing(p: Played)
    ensures After(Played([], 0), Ok(p)) == Ok(p) == After(p, Ok(Played([], 0)))
  {
    assert [] + p.rects == p.rects == p.rects + [];
  }

  /** The body of the parser's loop: the block whose payload is at `p`. */
  method ReadBlockAt(bytes: seq<Byte>, p: nat, blen: nat, inflate: Inflate) returns (e: Result<Effect, ParseError>)
    requires p + blen <= |bytes|
    ensures e == ReadBlock(bytes[p..], blen, inflate)
  {
    ghost var s := bytes[p..];
    if |bytes| < p + 5 { return Err(OutOfRange); }
    assert bytes[p + 1..] == s[1..];
    var t := ReadU32(bytes[p + 1..]);
    if bytes[p] == TYPE_RECT {
      if |bytes| < p + 13 { return Err(OutOfRange); }
      assert bytes[p + 5..] == s[5..] && bytes[p + 7..] == s[7..];
      assert bytes[p + 9..] == s[9..] && bytes[p + 11..] == s[11..];
      var x, y := ReadU16(bytes[p + 5..]), ReadU16(bytes[p + 7..]);
      var w, h := ReadU16(bytes[p + 9..]), ReadU16(bytes[p + 11..]);
      assert blen >= 13 ==> bytes[p + 13..p + blen] == s[13..blen];
      var bgrx := inflate(if blen < 13 then [] else bytes[p + 13..p + blen]);
      if bgrx.None? { return Err(BadDeflate); }
      var rgba := SwapChannels(bgrx.value);
      return Ok(Paint(Rect(t, x, y, w, h, rgba[..])));
    } else if bytes[p] == TYPE_RESIZE || bytes[p] == TYPE_END {
      return Ok(Stamp(t));
    } else {
      return Ok(Nothing);
    }
  }

  lemma ParseStops(s: seq<Byte>, inflate: Inflate)
    requires |s| < 4 || 4 + ReadU32(s) > |s|
    ensures ParseBlocks(s, inflate) == Ok(Played([], 0))
  {}

  /** A block of an unknown type is skipped. */
  lemma UnknownBlockSkipped(s: seq<Byte>, inflate: Inflate)
    requires |s| >= 9 && 4 + ReadU32(s) <= |s| && s[4] != 0x52 && s[4] != 0x5A && s[4] != 0x45
    ensures ParseBlocks(s, inflate) == ParseBlocks(s[4 + ReadU32(s)..], inflate)
  {
    var rest := ParseBlocks(s[4 + ReadU32(s)..], inflate);
    if rest.Ok? { assert [] + rest.value.rects == rest.value.rects; }
  }

  /** With `p` read, the rest of the file from `off` makes up `all`. */
  ghost predicate Reads(bytes: seq<Byte>, off: nat, p: Played, inflate: Inflate, all: Result<Played, ParseError>) {
    off <= |bytes| && After(p, ParseBlocks(bytes[off..], inflate)) == all
  }

  lemma ReadsStart(bytes: seq<Byte>, start: nat, inflate: Inflate)
    requires start <= |bytes|
    ensures Reads(bytes, start, Played([], 0), inflate, ParseBlocks(bytes[start..], inflate))
  {
    var all := ParseBlocks(bytes[start..], inflate);
    if all.Ok? { AfterNothing(all.value); }
  }

  /** One iteration of the loop, over a whole block. */
  lemma ReadsNext(bytes: seq<Byte>, off: nat, blen: nat, p: Played, e: Result<Effect, ParseError>, inflate: Inflate,
                  all: Result<Played, ParseError>)
    requires Reads(bytes, off, p, inflate, all)
    requires off + 4 <= |bytes| && blen == ReadU32(bytes[off..]) && off + 4 + blen <= |bytes|
    requires e == ReadBlock(bytes[off + 4..], blen, inflate)
    ensures e.Err? ==> all == Err(e.error)
    ensures e.Ok? ==> Reads(bytes, off + 4 + blen, Apply(p, e.value), inflate, all)
  {
    var rest := ParseBlocks(bytes[off + 4 + blen..], inflate);
    assert bytes[off..][4..] == bytes[off + 4..] && bytes[off..][4 + blen..] == bytes[off + 4 + blen..];
    assert ParseBlocks(bytes[off..], inflate) == Continue(e, rest);
    if e.Ok? { AfterContinue(p, e.value, rest); }
  }

  /** The end of the loop: no whole block is left. */
  lemma ReadsStop(bytes: seq<Byte>, off: nat, p: Played, inflate: Inflate, all: Result<Played, ParseError>)
    requires Reads(bytes, off, p, inflate, all)
    requires off + 4 > |bytes| || off + 4 + ReadU32(bytes[off..]) > |bytes|
    ensures all == Ok(p)
  {
    ParseStops(bytes[off..], inflate);
    AfterNothing(p);
  }

  /** The parser's loop over the blocks. */
  method ParseBlocksFrom(bytes: seq<Byte>, start: nat, inflate: Inflate) returns (r: Result<Played, ParseError>)
    requires start <= |bytes|
    ensures r == ParseBlocks(bytes[start..], inflate)
  {
    var rects: seq<Rect> := [];
    var duration: nat := 0;
    var off := start;
    ghost var all := ParseBlocks(bytes[start..], inflate);
    ReadsStart(bytes, start, inflate);
    while off + 4 <= |bytes|
      invariant Reads(bytes, off, Played(rects, duration), inflate, all)
      decreases |bytes| - off
    {
      var blen := ReadU32(bytes[off..]);
      if off + 4 + blen > |bytes| { break; }
      var effect := ReadBlockAt(bytes, off + 4, blen, inflate);
      ReadsNext(bytes, off, blen, Played(rects, duration), effect, inflate, all);
      if effect.Err? { return Err(effect.error); }
      rects := rects + Painted(effect.value);
      duration := Max(duration, TimeOf(effect.value));
      off := off + 4 + blen;
    }
    ReadsStop(bytes, off, Played(rects, duration), inflate, all);
    return Ok(Played(rects, duration));
  }

  /** `parseVrsrec`. */
  method ParseVrsrec(bytes: seq<Byte>, readHeader: ReadHeader, inflate: Inflate)
      returns (r: Result<Recording, ParseError>)
    ensures r == Parse(bytes, readHeader, inflate)
  {
    if |bytes| < 8 || bytes[..8] != MAGIC { return Err(BadMagic); }
    if |bytes| < 12 { return Err(OutOfRange); }
    var hlen := ReadU32(bytes[8..]);
    var header := readHeader(bytes[12..Min(12 + hlen, |bytes|)]);
    if header.None? { return Err(BadHeader); }
    var played := ParseBlocksFrom(bytes, Min(12 + hlen, |bytes|), inflate);
    if played.Err? { return Err(played.error); }
    return Ok(Recording(header.value, played.value.rects, played.value.duration));
  }

  // ----- round trip and truncation ---------------------------------------

  /** The number of leading blocks that fit whole in `n` bytes. */
  function Whole(blocks: seq<Block>, deflate: Deflate, n: nat): (k: nat)
    requires AllWritable(blocks, deflate)
    ensures k <= |blocks|
  {
    if blocks == [] || |EncodeBlock(blocks[0], deflate)| > n then 0
    else 1 + Whole(blocks[1..], deflate, n - |EncodeBlock(blocks[0], deflate)|)
  }

  /** The rectangle a player shows for a block that holds one. */
  function Shown(b: Block): Rect
    requires b.RectBlock?
  {
    Rect(b.t, b.x, b.y, b.w, b.h, Rgba(b.bgrx))
  }

  function RectsOf(blocks: seq<Block>): seq<Rect> {
    if blocks == [] then []
    else (if blocks[0].RectBlock? then [Shown(blocks[0])] else []) + RectsOf(blocks[1..])
  }

  function LastTime(blocks: seq<Block>): nat {
    if blocks == [] then 0 else Max(blocks[0].t, LastTime(blocks[1..]))
  }

  lemma {:induction false} LastTimeIsMaximum(blocks: seq<Block>)
    ensures forall i :: 0 <= i < |blocks| ==> blocks[i].t <= LastTime(blocks)
    ensures blocks != [] ==> exists i :: 0 <= i < |blocks| && blocks[i].t == LastTime(blocks)
  {
    if blocks != [] {
      LastTimeIsMaximum(blocks[1..]);
      assert forall i :: 1 <= i < |blocks| ==> blocks[i] == blocks[1..][i - 1];
      if LastTime(blocks) == blocks[0].t {
      } else {
        var i :| 0 <= i < |blocks[1..]| && blocks[1..][i].t == LastTime(blocks[1..]);
        assert blocks[i + 1].t == LastTime(blocks);
      }
    }
  }

  /** zlib's promise, for the data the blocks hold. */
  ghost predicate Inflates(blocks: seq<Block>, deflate: Deflate, inflate: Inflate) {
    forall i :: 0 <= i < |blocks| && blocks[i].RectBlock? ==>
      inflate(deflate(blocks[i].bgrx)) == Some(blocks[i].bgrx)
  }

  function EffectOf(b: Block): Effect {
    if b.RectBlock? then Paint(Shown(b)) else Stamp(b.t)
  }

  /** Past a piece of known size comes what follows it. */
  lemma Past(s: seq<Byte>, from: nat, piece: seq<Byte>, rest: seq<Byte>, to: nat)
    requires from <= |s| && s[from..] == piece + rest && to == from + |piece|
    ensures to <= |s| && s[to..] == rest
  {}

  lemma RectFields(s: seq<Byte>, b: Block, data: seq<Byte>)
    requires b.RectBlock? && FieldsFit(b)
    requires s == [TYPE_RECT] + (PackU32(b.t) + (PackU16(b.x) + (PackU16(b.y) + (PackU16(b.w) + (PackU16(b.h) + data)))))
    ensures |s| >= 13 && s[0] == TYPE_RECT && s[13..] == data
    ensures ReadU32(s[1..]) == b.t && ReadU16(s[5..]) == b.x && ReadU16(s[7..]) == b.y
    ensures ReadU16(s[9..]) == b.w && ReadU16(s[11..]) == b.h
  {
    var s11 := PackU16(b.h) + data;
    var s9 := PackU16(b.w) + s11;
    var s7 := PackU16(b.y) + s9;
    var s5 := PackU16(b.x) + s7;
    assert s[0..] == s;
    Past(s, 0, [TYPE_RECT], PackU32(b.t) + s5, 1);
    Past(s, 1, PackU32(b.t), s5, 5);
    Past(s, 5, PackU16(b.x), s7, 7);
    Past(s, 7, PackU16(b.y), s9, 9);
    Past(s, 9, PackU16(b.w), s11, 11);
    Past(s, 11, PackU16(b.h), data, 13);
    ReadPackedU32(b.t, s5);
    ReadPackedU16(b.x, s7);
    ReadPackedU16(b.y, s9);
    ReadPackedU16(b.w, s11);
    ReadPackedU16(b.h, data);
  }

  lemma ReadRectBlock(b: Block, rest: seq<Byte>, deflate: Deflate, inflate: Inflate)
    requires b.RectBlock? && FieldsFit(b) && inflate(deflate(b.bgrx)) == Some(b.bgrx)
    ensures ReadBlock(Payload(b, deflate) + rest, |Payload(b, deflate)|, inflate) == Ok(Paint(Shown(b)))
  {
    var data := deflate(b.bgrx);
    var n := |Payload(b, deflate)|;
    var s := Payload(b, deflate) + rest;
    RectPayload(b, rest, deflate);
    RectFields(s, b, data + rest);
    assert s[13..n] == s[13..][..n - 13] == data;
  }

  lemma RectPayload(b: Block, rest: seq<Byte>, deflate: Deflate)
    requires b.RectBlock? && FieldsFit(b)
    ensures |Payload(b, deflate)| == 13 + |deflate(b.bgrx)|
    ensures Payload(b, deflate) + rest == [TYPE_RECT] + (PackU32(b.t) + (PackU16(b.x) + (PackU16(b.y)
              + (PackU16(b.w) + (PackU16(b.h) + (deflate(b.bgrx) + rest))))))
  {}

  lemma ReadPlainBlock(b: Block, rest: seq<Byte>, deflate: Deflate, inflate: Inflate)
    requires !b.RectBlock? && FieldsFit(b)
    ensures ReadBlock(Payload(b, deflate) + rest, |Payload(b, deflate)|, inflate) == Ok(Stamp(b.t))
  {
    var kind := if b.ResizeBlock? then TYPE_RESIZE else TYPE_END;
    var body := if b.ResizeBlock? then PackU16(b.w) + PackU16(b.h) else [];
    PlainFields(Payload(b, deflate) + rest, kind, b.t, body + rest);
  }

  lemma PlainFields(s: seq<Byte>, kind: Byte, t: nat, rest: seq<Byte>)
    requires t < U32 && s == [kind] + (PackU32(t) + rest)
    ensures |s| >= 5 && s[0] == kind && ReadU32(s[1..]) == t
  {
    assert s[0..] == s;
    Past(s, 0, [kind], PackU32(t) + rest, 1);
    ReadPackedU32(t, rest);
  }

  /** A block written and then read back, whatever follows it. */
  lemma ReadWritten(b: Block, rest: seq<Byte>, deflate: Deflate, inflate: Inflate)
    requires Writable(b, deflate) && Inflates([b], deflate, inflate)
    ensures ParseBlocks(EncodeBlock(b, deflate) + rest, inflate)
         == Continue(Ok(EffectOf(b)), ParseBlocks(rest, inflate))
  {
    var payload := Payload(b, deflate);
    var s := EncodeBlock(b, deflate) + rest;
    assert s == PackU32(|payload|) + (payload + rest);
    ReadPackedU32(|payload|, payload + rest);
    assert s[4..] == payload + rest;
    assert s[4 + |payload|..] == rest;
    assert [b][0] == b;
    if b.RectBlock? { ReadRectBlock(b, rest, deflate, inflate); } else { ReadPlainBlock(b, rest, deflate, inflate); }
  }

  /** A block cut short is not read at all. */
  lemma CutBlockStops(b: Block, n: nat, deflate: Deflate, inflate: Inflate)
    requires Writable(b, deflate) && n < |EncodeBlock(b, deflate)|
    ensures ParseBlocks(EncodeBlock(b, deflate)[..n], inflate) == Ok(Played([], 0))
  {
    var s := EncodeBlock(b, deflate)[..n];
    if n >= 4 {
      var payload := Payload(b, deflate);
      assert s == PackU32(|payload|) + payload[..n - 4];
      ReadPackedU32(|payload|, payload[..n - 4]);
    }
    ParseStops(s, inflate);
  }

  function PlayedOf(blocks: seq<Block>): Played { Played(RectsOf(blocks), LastTime(blocks)) }

  lemma PlayedOfMore(blocks: seq<Block>, k: nat)
    requires k < |blocks|
    ensures Continue(Ok(EffectOf(blocks[0])), Ok(PlayedOf(blocks[1..][..k]))) == Ok(PlayedOf(blocks[..1 + k]))
  {
    assert blocks[..1 + k][1..] == blocks[1..][..k];
  }

  lemma ParseCutFirst(blocks: seq<Block>, n: nat, deflate: Deflate, inflate: Inflate)
    requires blocks != [] && AllWritable(blocks, deflate) && n < |EncodeBlock(blocks[0], deflate)|
    ensures n <= |EncodeBlocks(blocks, deflate)|
    ensures ParseBlocks(EncodeBlocks(blocks, deflate)[..n], inflate)
         == Ok(PlayedOf(blocks[..Whole(blocks, deflate, n)]))
  {
    var e := EncodeBlock(blocks[0], deflate);
    assert Whole(blocks, deflate, n) == 0 && PlayedOf(blocks[..0]) == Played([], 0);
    assert (e + EncodeBlocks(blocks[1..], deflate))[..n] == e[..n];
    CutBlockStops(blocks[0], n, deflate, inflate);
  }

  lemma ParseMore(blocks: seq<Block>, k: nat, after: seq<Byte>, deflate: Deflate, inflate: Inflate)
    requires k < |blocks| && Writable(blocks[0], deflate) && Inflates(blocks, deflate, inflate)
    requires ParseBlocks(after, inflate) == Ok(PlayedOf(blocks[1..][..k]))
    ensures ParseBlocks(EncodeBlock(blocks[0], deflate) + after, inflate) == Ok(PlayedOf(blocks[..1 + k]))
  {
    ReadWritten(blocks[0], after, deflate, inflate);
    PlayedOfMore(blocks, k);
  }

  /** A cut past the first block is a cut of the others. */
  lemma CutPastFirst(blocks: seq<Block>, n: nat, deflate: Deflate)
    requires blocks != [] && AllWritable(blocks, deflate)
    requires |EncodeBlock(blocks[0], deflate)| <= n <= |EncodeBlocks(blocks, deflate)|
    ensures var m := n - |EncodeBlock(blocks[0], deflate)|;
      && m <= |EncodeBlocks(blocks[1..], deflate)|
      && EncodeBlocks(blocks, deflate)[..n] == EncodeBlock(blocks[0], deflate) + EncodeBlocks(blocks[1..], deflate)[..m]
      && Whole(blocks, deflate, n) == 1 + Whole(blocks[1..], deflate, m)
  {
    var first, rest := EncodeBlock(blocks[0], deflate), EncodeBlocks(blocks[1..], deflate);
    assert EncodeBlocks(blocks, deflate) == first + rest;
    assert (first + rest)[..n] == first + rest[..n - |first|];
  }

  lemma SameParse(s: seq<Byte>, k: nat, s': seq<Byte>, k': nat, blocks: seq<Block>, inflate: Inflate)
    requires s == s' && k == k' <= |blocks| && ParseBlocks(s', inflate) == Ok(PlayedOf(blocks[..k']))
    ensures ParseBlocks(s, inflate) == Ok(PlayedOf(blocks[..k]))
  {}

  lemma ParseCutRest(blocks: seq<Block>, n: nat, m: nat, deflate: Deflate, inflate: Inflate)
    requires blocks != [] && AllWritable(blocks, deflate) && Inflates(blocks, deflate, inflate)
    requires n <= |EncodeBlocks(blocks, deflate)| && n == |EncodeBlock(blocks[0], deflate)| + m
    requires m <= |EncodeBlocks(blocks[1..], deflate)|
    requires ParseBlocks(EncodeBlocks(blocks[1..], deflate)[..m], inflate)
          == Ok(PlayedOf(blocks[1..][..Whole(blocks[1..], deflate, m)]))
    ensures ParseBlocks(EncodeBlocks(blocks, deflate)[..n], inflate)
         == Ok(PlayedOf(blocks[..Whole(blocks, deflate, n)]))
  {
    CutPastFirst(blocks, n, deflate);
    ParseMore(blocks, Whole(blocks[1..], deflate, m), EncodeBlocks(blocks[1..], deflate)[..m], deflate, inflate);
    SameParse(EncodeBlocks(blocks, deflate)[..n], Whole(blocks, deflate, n),
              EncodeBlock(blocks[0], deflate) + EncodeBlocks(blocks[1..], deflate)[..m],
              1 + Whole(blocks[1..], deflate, m), blocks, inflate);
  }

  /** Of a file cut anywhere, the blocks that fit whole are read. */
  lemma {:induction false} ParseCutBlocks(blocks: seq<Block>, n: nat, deflate: Deflate, inflate: Inflate)
    requires AllWritable(blocks, deflate) && Inflates(blocks, deflate, inflate)
    requires n <= |EncodeBlocks(blocks, deflate)|
    ensures ParseBlocks(EncodeBlocks(blocks, deflate)[..n], inflate)
         == Ok(PlayedOf(blocks[..Whole(blocks, deflate, n)]))
  {
    if blocks == [] {
      ParseCutNone(n, deflate, inflate);
    } else if n < |EncodeBlock(blocks[0], deflate)| {
      ParseCutFirst(blocks, n, deflate, inflate);
    } else {
      var m := n - |EncodeBlock(blocks[0], deflate)|;
      OthersFit(blocks, n, m, deflate, inflate);
      ParseCutBlocks(blocks[1..], m, deflate, inflate);
      ParseCutRest(blocks, n, m, deflate, inflate);
    }
  }

  lemma ParseCutNone(n: nat, deflate: Deflate, inflate: Inflate)
    requires n <= |EncodeBlocks([], deflate)|
    ensures ParseBlocks(EncodeBlocks([], deflate)[..n], inflate) == Ok(PlayedOf([][..Whole([], deflate, n)]))
  {
    ParseStops([], inflate);
  }

  lemma OthersFit(blocks: seq<Block>, n: nat, m: nat, deflate: Deflate, inflate: Inflate)
    requires blocks != [] && AllWritable(blocks, deflate) && Inflates(blocks, deflate, inflate)
    requires n == |EncodeBlock(blocks[0], deflate)| + m <= |EncodeBlocks(blocks, deflate)|
    ensures AllWritable(blocks[1..], deflate) && Inflates(blocks[1..], deflate, inflate)
    ensures m <= |EncodeBlocks(blocks[1..], deflate)|
  {}

  lemma {:induction false} WholeOfAll(blocks: seq<Block>, deflate: Deflate)
    requires AllWritable(blocks, deflate)
    ensures Whole(blocks, deflate, |EncodeBlocks(blocks, deflate)|) == |blocks|
  {
    if blocks != [] {
      WholeOfAll(blocks[1..], deflate);
    }
  }

  lemma ParseAfterHeader(header: seq<Byte>, body: seq<Byte>, readHeader: ReadHeader, inflate: Inflate)
    requires |header| < U32
    ensures Parse(EncodeHeader(header) + body, readHeader, inflate)
         == match readHeader(header)
            case None => Err(BadHeader)
            case Some(h) =>
              match ParseBlocks(body, inflate)
              case Err(e) => Err(e)
              case Ok(p) => Ok(Recording(h, p.rects, p.duration))
  {
    var bytes := EncodeHeader(header) + body;
    assert bytes[..8] == MAGIC;
    assert bytes[8..] == PackU32(|header|) + (header + body);
    ReadPackedU32(|header|, header + body);
    assert bytes[12..12 + |header|] == header;
    assert bytes[12 + |header|..] == body;
  }

  /** A recording cut at any byte after its header still plays: exactly the
      blocks that fit whole are read, and no read leaves the file. */
  lemma CutRecordingPlays(header: seq<Byte>, blocks: seq<Block>, n: nat, h: Header,
                          readHeader: ReadHeader, deflate: Deflate, inflate: Inflate)
    requires |header| < U32 && readHeader(header) == Some(h)
    requires AllWritable(blocks, deflate) && Inflates(blocks, deflate, inflate)
    requires n <= |EncodeBlocks(blocks, deflate)|
    ensures var k := Whole(blocks, deflate, n);
      Parse((EncodeHeader(header) + EncodeBlocks(blocks, deflate))[..12 + |header| + n], readHeader, inflate)
      == Ok(Recording(h, RectsOf(blocks[..k]), LastTime(blocks[..k])))
  {
    var body := EncodeBlocks(blocks, deflate);
    assert (EncodeHeader(header) + body)[..12 + |header| + n] == EncodeHeader(header) + body[..n];
    ParseAfterHeader(header, body[..n], readHeader, inflate);
    ParseCutBlocks(blocks, n, deflate, inflate);
  }

  /** Writing and reading back: every rectangle, in order, and the last time. */
  lemma RecordingRoundTrips(header: seq<Byte>, blocks: seq<Block>, h: Header,
                            readHeader: ReadHeader, deflate: Deflate, inflate: Inflate)
    requires |header| < U32 && readHeader(header) == Some(h)
    requires AllWritable(blocks, deflate) && Inflates(blocks, deflate, inflate)
    ensures Parse(EncodeHeader(header) + EncodeBlocks(blocks, deflate), readHeader, inflate)
         == Ok(Recording(h, RectsOf(blocks), LastTime(blocks)))
  {
    var body := EncodeBlocks(blocks, deflate);
    CutRecordingPlays(header, blocks, |body|, h, readHeader, deflate, inflate);
    WholeOfAll(blocks, deflate);
    assert (EncodeHeader(header) + body)[..12 + |header| + |body|] == EncodeHeader(header) + body;
    assert blocks[..|blocks|] == blocks;
  }

  /** A tail of one, two or three bytes, as typed arrays take it: reads past the end
      give 0, writes past it are lost. */
  lemma TailSwaps(bgrx: seq<Byte>)
    ensures var n := |bgrx| - |bgrx| % 4;
      && (|bgrx| % 4 == 1 ==> Rgba(bgrx)[n..] == [0])
      && (|bgrx| % 4 == 2 ==> Rgba(bgrx)[n..] == [0, bgrx[n + 1]])
      && (|bgrx| % 4 == 3 ==> Rgba(bgrx)[n..] == [bgrx[n + 2], bgrx[n + 1], bgrx[n]])
  {}

  /** Pixel by pixel, blue and red change places and alpha becomes opaque. */
  lemma PixelSwaps(bgrx: seq<Byte>, i: nat)
    requires |bgrx| % 4 == 0 && 4 * i + 3 < |bgrx|
    ensures Rgba(bgrx)[4 * i..4 * i + 4] == [bgrx[4 * i + 2], bgrx[4 * i + 1], bgrx[4 * i], 255]
  {}
}
