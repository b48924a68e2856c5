/** The recording player: a canvas repainted step by step as time moves on, and
    from black when it moves back. */
module RecordingPlayer {
  import opened Bytes
  import opened Vrsrec

  datatype Pixel = Pixel(r: Byte, g: Byte, b: Byte, a: Byte)

  /** Rows of pixels, top to bottom. */
  type Canvas = seq<seq<Pixel>>

  const BLACK := Pixel(0, 0, 0, 255)

  function Black(width: nat, height: nat): Canvas {
    seq(height, _ => seq(width, _ => BLACK))
  }

  /** A rectangle that `new ImageData` accepts. */
  predicate Drawable(r: Rect) {
    r.w > 0 && r.h > 0 && |r.pixels| == 4 * (r.w * r.h)
  }

  predicate AllDrawable(rects: seq<Rect>) {
    forall i :: 0 <= i < |rects| ==> Drawable(rects[i])
  }

  lemma InsideRect(w: nat, h: nat, dx: nat, dy: nat)
    requires dx < w && dy < h
    ensures 0 <= dy * w + dx < w * h
  {
    assert (dy + 1) * w <= h * w;
  }

  function PixelAt(r: Rect, dx: nat, dy: nat): Pixel
    requires Drawable(r) && dx < r.w && dy < r.h
  {
    InsideRect(r.w, r.h, dx, dy);
    var i := 4 * (dy * r.w + dx);
    Pixel(r.pixels[i], r.pixels[i + 1], r.pixels[i + 2], r.pixels[i + 3])
  }

  /** `ctx.putImageData`, clipped to the canvas. */
  function PutImage(canvas: Canvas, r: Rect): (c: Canvas)
    requires Drawable(r)
    ensures |c| == |canvas|
  {
    seq(|canvas|, y requires 0 <= y < |canvas| => PutRow(canvas[y], y, r))
  }

  function PutRow(row: seq<Pixel>, y: nat, r: Rect): seq<Pixel>
    requires Drawable(r)
  {
    seq(|row|, x requires 0 <= x < |row| =>
      if r.x <= x < r.x + r.w && r.y <= y < r.y + r.h then PixelAt(r, x - r.x, y - r.y) else row[x])
  }

  /** The first `k` rectangles painted on black. */
  function Replay(rec: Recording, k: nat): Canvas
    requires AllDrawable(rec.rects) && k <= |rec.rects|
  {
    if k == 0 then Black(rec.header.width, rec.header.height)
    else PutImage(Replay(rec, k - 1), rec.rects[k - 1])
  }

  /** The index of the first rectangle later than `pos`. */
  function FirstAfter(rects: seq<Rect>, pos: real): (k: nat)
    ensures k <= |rects|
    ensures forall i :: 0 <= i < k ==> rects[i].t as real <= pos
    ensures k < |rects| ==> pos < rects[k].t as real
  {
    if rects == [] || pos < rects[0].t as real then 0 else 1 + FirstAfter(rects[1..], pos)
  }

  /** The frame for an instant, from a replay of its own. */
  function Frame(rec: Recording, pos: real): Canvas
    requires AllDrawable(rec.rects)
  {
    Replay(rec, FirstAfter(rec.rects, pos))
  }

  /** What a player at rest at an instant holds. */
  function Showing(rec: Recording, pos: real): State
    requires AllDrawable(rec.rects)
  {
    State(FirstAfter(rec.rects, pos), pos, Frame(rec, pos))
  }

  // ----- the player's steps on values ------------------------------------

  datatype State = State(idx: nat, pos: real, canvas: Canvas)

  ghost predicate Consistent(rec: Recording, s: State)
    requires AllDrawable(rec.rects)
  {
    s.idx <= FirstAfter(rec.rects, s.pos) && s.canvas == Replay(rec, s.idx)
  }

  function Start(rec: Recording): State {
    State(0, 0.0, Black(rec.header.width, rec.header.height))
  }

  function PaintedOn(rec: Recording, s: State, upto: real): State
    requires AllDrawable(rec.rects)
    decreases |rec.rects| - s.idx
  {
    if s.idx < |rec.rects| && rec.rects[s.idx].t as real <= upto then
      PaintedOn(rec, State(s.idx + 1, s.pos, PutImage(s.canvas, rec.rects[s.idx])), upto)
    else State(s.idx, upto, s.canvas)
  }

  function PaintedTo(rec: Recording, s: State, upto: real): State
    requires AllDrawable(rec.rects)
  {
    PaintedOn(rec, if upto < s.pos || s.idx > |rec.rects| then Start(rec) else s, upto)
  }

  /** What a user does: let it play for a while at some speed, or seek. */
  datatype Move = Tick(elapsed: real, speed: real) | Seek(ms: real)

  function Advanced(pos: real, elapsed: real, speed: real): real { pos + elapsed * speed }

  function Target(rec: Recording, pos: real, m: Move): real {
    match m
    case Seek(ms) => ms
    case Tick(elapsed, speed) =>
      var next := Advanced(pos, elapsed, speed);
      if next >= rec.duration as real then rec.duration as real else next
  }

  /** Where a move leads: a seek to its instant; playing for `elapsed` at `speed` as
      far on as the two multiply to, but never past the duration. */
  lemma TargetExactly(rec: Recording, pos: real, ms: real, elapsed: real, speed: real)
    ensures Target(rec, pos, Seek(ms)) == ms
    ensures pos + elapsed * speed < rec.duration as real ==>
              Target(rec, pos, Tick(elapsed, speed)) == pos + elapsed * speed
    ensures pos + elapsed * speed >= rec.duration as real ==>
              Target(rec, pos, Tick(elapsed, speed)) == rec.duration as real
  {}

  function Step(rec: Recording, s: State, m: Move): State
    requires AllDrawable(rec.rects)
  {
    PaintedTo(rec, s, Target(rec, s.pos, m))
  }

  function Steps(rec: Recording, s: State, moves: seq<Move>): State
    requires AllDrawable(rec.rects)
    decreases |moves|
  {
    if moves == [] then s else Steps(rec, Step(rec, s, moves[0]), moves[1..])
  }

  function PosAfter(rec: Recording, pos: real, moves: seq<Move>): real
    decreases |moves|
  {
    if moves == [] then pos else PosAfter(rec, Target(rec, pos, moves[0]), moves[1..])
  }

  // ----- pixel by pixel --------------------------------------------------

  /** Does the rectangle cover the pixel in column `x` of row `y`? */
  predicate Covers(r: Rect, x: nat, y: nat) { r.x <= x < r.x + r.w && r.y <= y < r.y + r.h }

  /** What one rectangle does to a canvas: the pixels it covers become its own,
      row by row, and the others stay. */
  lemma PutImageAt(canvas: Canvas, r: Rect, x: nat, y: nat)
    requires Drawable(r) && y < |canvas| && x < |canvas[y]|
    ensures var c, i := PutImage(canvas, r), 4 * ((y - r.y) * r.w + (x - r.x));
      && |c| == |canvas| && |c[y]| == |canvas[y]|
      && (if r.x <= x < r.x + r.w && r.y <= y < r.y + r.h
          then 0 <= i && i + 3 < |r.pixels|
               && c[y][x] == Pixel(r.pixels[i], r.pixels[i + 1], r.pixels[i + 2], r.pixels[i + 3])
          else c[y][x] == canvas[y][x])
  {
    if Covers(r, x, y) { InsideRect(r.w, r.h, x - r.x, y - r.y); }
  }

  lemma {:induction false} ReplayShape(rec: Recording, k: nat)
    requires AllDrawable(rec.rects) && k <= |rec.rects|
    ensures |Replay(rec, k)| == rec.header.height
    ensures forall y :: 0 <= y < rec.header.height ==> |Replay(rec, k)[y]| == rec.header.width
  {
    if k > 0 { ReplayShape(rec, k - 1); }
  }

  /** No rectangle from `i` up to `k` covers the pixel. */
  ghost predicate Uncovered(rects: seq<Rect>, i: nat, k: nat, x: nat, y: nat)
    requires k <= |rects|
  {
    forall j :: i <= j < k ==> !(rects[j].x <= x < rects[j].x + rects[j].w && rects[j].y <= y < rects[j].y + rects[j].h)
  }

  lemma {:induction false} ReplayBlack(rec: Recording, k: nat, x: nat, y: nat)
    requires AllDrawable(rec.rects) && k <= |rec.rects| && x < rec.header.width && y < rec.header.height
    requires Uncovered(rec.rects, 0, k, x, y)
    ensures |Replay(rec, k)| == rec.header.height && |Replay(rec, k)[y]| == rec.header.width
    ensures Replay(rec, k)[y][x] == Pixel(0, 0, 0, 255)
  {
    ReplayShape(rec, k);
    if k > 0 {
      ReplayShape(rec, k - 1);
      ReplayBlack(rec, k - 1, x, y);
      PutImageAt(Replay(rec, k - 1), rec.rects[k - 1], x, y);
    }
  }

  lemma {:induction false} ReplayPixel(rec: Recording, k: nat, i: nat, x: nat, y: nat)
    requires AllDrawable(rec.rects) && i < k <= |rec.rects| && x < rec.header.width && y < rec.header.height
    requires Covers(rec.rects[i], x, y) && Uncovered(rec.rects, i + 1, k, x, y)
    ensures |Replay(rec, k)| == rec.header.height && |Replay(rec, k)[y]| == rec.header.width
    ensures var r := rec.rects[i]; var at := 4 * ((y - r.y) * r.w + (x - r.x));
      && 0 <= at && at + 3 < |r.pixels|
      && Replay(rec, k)[y][x] == Pixel(r.pixels[at], r.pixels[at + 1], r.pixels[at + 2], r.pixels[at + 3])
  {
    ReplayShape(rec, k);
    ReplayShape(rec, k - 1);
    PutImageAt(Replay(rec, k - 1), rec.rects[k - 1], x, y);
    if i < k - 1 { ReplayPixel(rec, k - 1, i, x, y); }
  }

  /** What the canvas shows at an instant, pixel by pixel: of the rectangles painted
      by then, the last that covers the pixel. */
  lemma FrameShowsLast(rec: Recording, pos: real, i: nat, x: nat, y: nat)
    requires AllDrawable(rec.rects) && x < rec.header.width && y < rec.header.height && i < FirstAfter(rec.rects, pos)
    requires var r := rec.rects[i]; r.x <= x < r.x + r.w && r.y <= y < r.y + r.h
    requires forall j :: i < j < FirstAfter(rec.rects, pos) ==>
               var q := rec.rects[j]; !(q.x <= x < q.x + q.w && q.y <= y < q.y + q.h)
    ensures |Frame(rec, pos)| == rec.header.height && |Frame(rec, pos)[y]| == rec.header.width
    ensures var r := rec.rects[i]; var at := 4 * ((y - r.y) * r.w + (x - r.x));
      && 0 <= at && at + 3 < |r.pixels|
      && Frame(rec, pos)[y][x] == Pixel(r.pixels[at], r.pixels[at + 1], r.pixels[at + 2], r.pixels[at + 3])
  {
    ReplayPixel(rec, FirstAfter(rec.rects, pos), i, x, y);
  }

  /** And black where none does. */
  lemma FrameElseBlack(rec: Recording, pos: real, x: nat, y: nat)
    requires AllDrawable(rec.rects) && x < rec.header.width && y < rec.header.height
    requires forall j :: 0 <= j < FirstAfter(rec.rects, pos) ==>
               var q := rec.rects[j]; !(q.x <= x < q.x + q.w && q.y <= y < q.y + q.h)
    ensures |Frame(rec, pos)| == rec.header.height && |Frame(rec, pos)[y]| == rec.header.width
    ensures Frame(rec, pos)[y][x] == Pixel(0, 0, 0, 255)
  {
    ReplayBlack(rec, FirstAfter(rec.rects, pos), x, y);
  }

  // ----- incremental repainting is replay --------------------------------

  lemma {:induction false} FirstAfterMonotone(rects: seq<Rect>, a: real, b: real)
    requires a <= b
    ensures FirstAfter(rects, a) <= FirstAfter(rects, b)
  {}

  lemma FirstAfterUnique(rects: seq<Rect>, pos: real, k: nat)
    requires k <= |rects|
    requires forall i :: 0 <= i < k ==> rects[i].t as real <= pos
    requires k < |rects| ==> pos < rects[k].t as real
    ensures k == FirstAfter(rects, pos)
  {}

  lemma {:induction false} PaintOnShows(rec: Recording, s: State, upto: real)
    requires AllDrawable(rec.rects)
    requires s.idx <= FirstAfter(rec.rects, upto) && s.canvas == Replay(rec, s.idx)
    ensures PaintedOn(rec, s, upto) == Showing(rec, upto)
    decreases |rec.rects| - s.idx
  {
    var k := FirstAfter(rec.rects, upto);
    if s.idx < |rec.rects| && rec.rects[s.idx].t as real <= upto {
      assert s.idx < k;
      PaintOnShows(rec, State(s.idx + 1, s.pos, PutImage(s.canvas, rec.rects[s.idx])), upto);
    } else {
      FirstAfterUnique(rec.rects, upto, s.idx);
    }
  }

  lemma PaintToShows(rec: Recording, s: State, upto: real)
    requires AllDrawable(rec.rects) && Consistent(rec, s)
    ensures PaintedTo(rec, s, upto) == Showing(rec, upto)
  {
    if upto < s.pos {
      PaintOnShows(rec, Start(rec), upto);
    } else {
      FirstAfterMonotone(rec.rects, s.pos, upto);
      PaintOnShows(rec, s, upto);
    }
  }

  /** After any moves at all, the canvas is a replay from black to the position
      reached: how the player got there leaves no trace. */
  lemma {:induction false} AnyMovesShowTheFrame(rec: Recording, s: State, moves: seq<Move>)
    requires AllDrawable(rec.rects) && Consistent(rec, s)
    ensures Consistent(rec, Steps(rec, s, moves))
    ensures Steps(rec, s, moves).pos == PosAfter(rec, s.pos, moves)
    ensures moves != [] ==> Steps(rec, s, moves) == Showing(rec, PosAfter(rec, s.pos, moves))
    decreases |moves|
  {
    if moves != [] {
      PaintToShows(rec, s, Target(rec, s.pos, moves[0]));
      AnyMovesShowTheFrame(rec, Step(rec, s, moves[0]), moves[1..]);
    }
  }

  predicate TimeOrderedAt(rects: seq<Rect>, pos: real) {
    forall i, j :: 0 <= i < j < |rects| && rects[j].t as real <= pos ==> rects[i].t as real <= pos
  }

  /** The frame shows exactly the rectangles due by `pos` if and only if none
      that is due stands behind one that is not. */
  lemma FrameShowsAllDue(rects: seq<Rect>, pos: real)
    ensures (forall i :: 0 <= i < |rects| ==> (i < FirstAfter(rects, pos) <==> rects[i].t as real <= pos))
       <==> TimeOrderedAt(rects, pos)
  {}

  lemma {:induction false} ParsedWithinDuration(s: seq<Byte>, inflate: Inflate)
    ensures var r := ParseBlocks(s, inflate);
      r.Ok? ==> forall i :: 0 <= i < |r.value.rects| ==> r.value.rects[i].t <= r.value.duration
    decreases |s|
  {
    if |s| >= 4 && 4 + ReadU32(s) <= |s| {
      ParsedWithinDuration(s[4 + ReadU32(s)..], inflate);
    }
  }

  /** Whatever the order of its blocks, a parsed recording played to its end
      has painted every rectangle. */
  lemma EndPaintsAll(bytes: seq<Byte>, readHeader: ReadHeader, inflate: Inflate)
    requires Parse(bytes, readHeader, inflate).Ok?
    ensures var rec := Parse(bytes, readHeader, inflate).value;
            FirstAfter(rec.rects, rec.duration as real) == |rec.rects|
  {
    var rec := Parse(bytes, readHeader, inflate).value;
    ParsedWithinDuration(bytes[Min(12 + ReadU32(bytes[8..]), |bytes|)..], inflate);
    FirstAfterUnique(rec.rects, rec.duration as real, |rec.rects|);
  }

  /** Files written with whole frames of pixels can be drawn. */
  lemma {:induction false} WrittenAreDrawable(blocks: seq<Block>)
    requires forall i :: 0 <= i < |blocks| && blocks[i].RectBlock? ==>
      blocks[i].w > 0 && blocks[i].h > 0 && |blocks[i].bgrx| == 4 * (blocks[i].w * blocks[i].h)
    ensures AllDrawable(RectsOf(blocks))
  {
    if blocks != [] { WrittenAreDrawable(blocks[1..]); }
  }

  // ----- the player ------------------------------------------------------

  class Player {
    const rec: Recording
    var idx: nat
    var pos: real
    var playing: bool
    var canvas: Canvas

    constructor (rec: Recording)
      requires AllDrawable(rec.rects)
      ensures Valid() && this.rec == rec && Abs() == Start(rec) && !playing && idx == 0 && pos == 0.0
      ensures canvas == seq(rec.header.height, _ => seq(rec.header.width, _ => Pixel(0, 0, 0, 255)))
    {
      this.rec := rec;
      idx, pos, playing := 0, 0.0, false;
      canvas := Black(rec.header.width, rec.header.height);
    }

    ghost predicate Valid()
      reads this
    {
      AllDrawable(rec.rects) && Consistent(rec, Abs())
    }

    function Abs(): State
      reads this
    {
      State(idx, pos, canvas)
    }

    /** `paintTo` */
    method PaintTo(upto: real)
      requires Valid()
      modifies `idx, `pos, `canvas
      ensures Valid() && Abs() == PaintedTo(rec, old(Abs()), upto) == Showing(rec, upto)
    {
      PaintToShows(rec, Abs(), upto);
      ghost var end := PaintedTo(rec, Abs(), upto);
      if upto < pos || idx > |rec.rects| {
        canvas := Black(rec.header.width, rec.header.height);
        idx, pos := 0, 0.0;
      }
      while idx < |rec.rects| && rec.rects[idx].t as real <= upto
        invariant AllDrawable(rec.rects) && PaintedOn(rec, Abs(), upto) == end
        decreases |rec.rects| - idx
      {
        canvas := PutImage(canvas, rec.rects[idx]);
        idx := idx + 1;
      }
      pos := upto;
    }

    /** One animation frame while playing; false when it was the last. */
    method Tick(now: real, last: real, speed: real) returns (more: bool)
      requires Valid()
      modifies this
      ensures Valid() && Abs() == Showing(rec, Target(rec, old(pos), Move.Tick(now - last, speed)))
      ensures more <==> old(pos) + (now - last) * speed < rec.duration as real
      ensures pos == if more then old(pos) + (now - last) * speed else rec.duration as real
      ensures playing == (more && old(playing))
    {
      var next := Advanced(pos, now - last, speed);
      if next >= rec.duration as real {
        PaintTo(rec.duration as real);
        playing := false;
        return false;
      }
      PaintTo(next);
      return true;
    }

    method Seek(ms: real)
      requires Valid()
      modifies this
      ensures Valid() && Abs() == Showing(rec, ms) && !playing
    {
      playing := false;
      PaintTo(ms);
    }
  }
}
