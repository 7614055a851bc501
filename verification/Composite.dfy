/** Placing video arms on an I420 canvas (`video_composite.go`). */
module Composite {
  import opened Basics
  import opened Arith

  const BLACK_LUMA: Byte := 16
  const NEUTRAL_CHROMA: Byte := 128

  datatype Plane = Plane(bytes: seq<Byte>, stride: int, offset: int)

  /** One plane of one arm: its samples, its size, and where its corner goes. */
  datatype Arm = Arm(plane: Plane, w: int, h: int, x: int, y: int)

  // ---------------------------------------------------------------------
  // The painter's specification
  // ---------------------------------------------------------------------

  function Stride(a: Arm): int {
    if a.plane.stride <= 0 then a.w else a.plane.stride
  }

  /** The columns left after clipping to the canvas. */
  function Left(a: Arm): int {
    if a.x < 0 then 0 else a.x
  }

  function Right(a: Arm, width: int): int {
    if a.x + a.w > width then width else a.x + a.w
  }

  /** Where sample 0 of a source row lies. */
  function RowStart(a: Arm, row: int): int {
    a.plane.offset + row * Stride(a)
  }

  /** The clipped part of a source row has all its bytes. */
  predicate RowPresent(a: Arm, width: int, row: int) {
    RowStart(a, row) + (Left(a) - a.x) >= 0 && RowStart(a, row) + (Right(a, width) - a.x) <= |a.plane.bytes|
  }

  /** The arm paints this canvas position. */
  predicate Covers(a: Arm, width: int, y: int, x: int) {
    0 <= y - a.y < a.h && Left(a) <= x < Right(a, width) && RowPresent(a, width, y - a.y)
  }

  function Pixel(a: Arm, width: int, y: int, x: int): Byte
    requires Covers(a, width, y, x)
  {
    a.plane.bytes[RowStart(a, y - a.y) + (x - a.x)]
  }

  /** The byte at (y, x) once the arm's first rows have been painted over it. */
  function Over(v: Byte, a: Arm, width: int, rows: int, y: int, x: int): Byte {
    if y - a.y < rows && Covers(a, width, y, x) then Pixel(a, width, y, x) else v
  }

  /** What the canvas shows at (y, x): the last of the first n arms that covers it, else the fill. */
  function Painter(arms: seq<Arm>, n: nat, fill: Byte, width: int, y: int, x: int): Byte
    requires n <= |arms|
  {
    if n == 0 then fill
    else if Covers(arms[n-1], width, y, x) then Pixel(arms[n-1], width, y, x)
    else Painter(arms, n - 1, fill, width, y, x)
  }

  // ---------------------------------------------------------------------
  // Positions on a plane of `width` columns
  // ---------------------------------------------------------------------

  function RowOf(b: nat, width: nat): nat
    requires width > 0
  {
    b / width
  }

  function ColOf(b: nat, width: nat): (x: nat)
    requires width > 0
    ensures x < width
  {
    b % width
  }

  lemma Position(b: nat, width: nat, y: nat, x: nat)
    requires x < width && b == width * y + x
    ensures RowOf(b, width) == y && ColOf(b, width) == x
  {
    DivUnique(b, width, y, x);
  }

  lemma PositionIs(b: nat, width: nat)
    requires width > 0
    ensures b == width * RowOf(b, width) + ColOf(b, width)
  {
  }

  lemma RowInside(b: nat, width: nat, height: nat)
    requires width > 0 && b < width * height
    ensures RowOf(b, width) < height
  {
    PositionIs(b, width);
    MulCancelLt(width, RowOf(b, width), height);
  }

  /** Every byte is what the arm's first rows make of what was there. */
  ghost predicate PaintedRows(was: seq<Byte>, now: seq<Byte>, a: Arm, width: nat, rows: int)
    requires width > 0
  {
    |now| == |was| && forall b :: 0 <= b < |now| ==> now[b] == Over(was[b], a, width, rows, RowOf(b, width), ColOf(b, width))
  }

  // ---------------------------------------------------------------------
  // fillPlane
  // ---------------------------------------------------------------------

  /** `copy` inside one plane, from its start to a later part. */
  method CopyFront(plane: array<Byte>, filled: nat, n: nat)
    requires n <= filled && filled + n <= plane.Length
    modifies plane
    ensures forall b :: 0 <= b < plane.Length && !(filled <= b < filled + n) ==> plane[b] == old(plane[b])
    ensures forall b :: filled <= b < filled + n ==> plane[b] == old(plane[b-filled])
  {
    for i := 0 to n
      invariant forall b :: 0 <= b < plane.Length && !(filled <= b < filled + i) ==> plane[b] == old(plane[b])
      invariant forall b :: filled <= b < filled + i ==> plane[b] == old(plane[b-filled])
    {
      plane[filled+i] := plane[i];
    }
  }

  /** `fillPlane`: doubling copies reach every byte. */
  method FillPlane(plane: array<Byte>, value: Byte)
    modifies plane
    ensures forall b :: 0 <= b < plane.Length ==> plane[b] == value
  {
    if plane.Length == 0 {
      return;
    }
    plane[0] := value;
    var filled := 1;
    while filled < plane.Length
      invariant 1 <= filled
      invariant forall b :: 0 <= b < plane.Length && b < filled ==> plane[b] == value
      decreases plane.Length - filled
    {
      var n := if plane.Length - filled < filled then plane.Length - filled else filled;
      CopyFront(plane, filled, n);
      filled := filled * 2;
    }
  }

  // ---------------------------------------------------------------------
  // copyPlane
  // ---------------------------------------------------------------------

  /** `copy` of n bytes from a source into the plane. */
  method CopyBytes(dst: array<Byte>, at: nat, src: seq<Byte>, from: nat, n: nat)
    requires at + n <= dst.Length && from + n <= |src|
    modifies dst
    ensures Replaced(old(dst[..]), dst[..], at, src, from, n)
  {
    for i := 0 to n
      invariant Replaced(old(dst[..]), dst[..], at, src, from, i)
    {
      dst[at+i] := src[from+i];
    }
  }

  ghost predicate Replaced(was: seq<Byte>, now: seq<Byte>, at: nat, src: seq<Byte>, from: nat, n: nat) {
    && |now| == |was| && at + n <= |now| && from + n <= |src|
    && forall b :: 0 <= b < |now| ==> now[b] == if at <= b < at + n then src[from+(b-at)] else was[b]
  }

  /** A source row that paints something, and where it lies in the plane and in the source. */
  ghost predicate RowAt(a: Arm, width: nat, row: nat, at: nat, from: nat) {
    && width > 0 && 0 <= a.y + row && row < a.h && Left(a) < Right(a, width) && RowPresent(a, width, row)
    && at == width * (a.y + row) + Left(a) && from == RowStart(a, row) + (Left(a) - a.x)
  }

  /** A byte in the row just copied, or outside it. */
  lemma RowCopied(a: Arm, width: nat, row: nat, at: nat, from: nat, b: nat)
    requires RowAt(a, width, row, at, from)
    ensures var y, x := RowOf(b, width), ColOf(b, width);
      if at <= b < at + (Right(a, width) - Left(a)) then
        && y == a.y + row && Covers(a, width, y, x)
        && from + (b - at) < |a.plane.bytes| && Pixel(a, width, y, x) == a.plane.bytes[from+(b-at)]
      else
        !(y == a.y + row && Covers(a, width, y, x))
  {
    if at <= b < at + (Right(a, width) - Left(a)) {
      Position(b, width, a.y + row, b - width * (a.y + row));
    } else {
      PositionIs(b, width);
    }
  }

  lemma BytePainted(was: Byte, now: Byte, later: Byte, a: Arm, width: nat, row: nat, at: nat, from: nat, b: nat)
    requires RowAt(a, width, row, at, from)
    requires now == Over(was, a, width, row, RowOf(b, width), ColOf(b, width))
    requires if at <= b < at + (Right(a, width) - Left(a)) then from + (b - at) < |a.plane.bytes| && later == a.plane.bytes[from+(b-at)] else later == now
    ensures later == Over(was, a, width, row + 1, RowOf(b, width), ColOf(b, width))
  {
    RowCopied(a, width, row, at, from, b);
  }

  /** One source row painted: the rows before it stay, its own are added. */
  lemma RowPainted(was: seq<Byte>, now: seq<Byte>, later: seq<Byte>, a: Arm, width: nat, row: nat, at: nat, from: nat)
    requires RowAt(a, width, row, at, from) && PaintedRows(was, now, a, width, row)
    requires Replaced(now, later, at, a.plane.bytes, from, Right(a, width) - Left(a))
    ensures PaintedRows(was, later, a, width, row + 1)
  {
    forall b | 0 <= b < |later|
      ensures later[b] == Over(was[b], a, width, row + 1, RowOf(b, width), ColOf(b, width))
    {
      BytePainted(was[b], now[b], later[b], a, width, row, at, from, b);
    }
  }

  /** A source row that paints nothing: off the canvas, clipped away, or with bytes missing. */
  lemma RowSkipped(was: seq<Byte>, now: seq<Byte>, a: Arm, width: nat, height: nat, row: nat)
    requires width > 0 && |was| == width * height && PaintedRows(was, now, a, width, row)
    requires !(0 <= a.y + row < height) || Left(a) >= Right(a, width) || !RowPresent(a, width, row)
    ensures PaintedRows(was, now, a, width, row + 1)
  {
    forall b | 0 <= b < |now|
      ensures now[b] == Over(was[b], a, width, row + 1, RowOf(b, width), ColOf(b, width))
    {
      RowInside(b, width, height);
    }
  }

  lemma RowFits(width: nat, height: nat, y: nat)
    requires y < height
    ensures width * y + width <= width * height
  {
    MulMono(width, y + 1, height);
    Distrib(width, y, 1);
  }

  /** The general path: every row clipped on its own. */
  method CopyClipped(dst: array<Byte>, width: nat, height: nat, a: Arm)
    requires width > 0 && dst.Length == width * height
    modifies dst
    ensures PaintedRows(old(dst[..]), dst[..], a, width, a.h)
  {
    var row := 0;
    while row < a.h
      invariant 0 <= row && (row <= a.h || row == 0)
      invariant PaintedRows(old(dst[..]), dst[..], a, width, row)
    {
      CopyRow(dst, width, height, a, row, old(dst[..]));
      row := row + 1;
    }
    if a.h < 0 {
      NoRows(old(dst[..]), dst[..], a, width, a.h);
    }
  }

  /** Where a row starts in the source and on the canvas once clipped, and how much of it is left. */
  method ClipRow(a: Arm, width: nat) returns (srcX: nat, copyW: int, dx: nat)
    ensures dx == Left(a) && srcX == Left(a) - a.x && copyW == Right(a, width) - Left(a)
  {
    if a.x < 0 {
      srcX, copyW, dx := -a.x, a.w + a.x, 0;
    } else {
      srcX, copyW, dx := 0, a.w, a.x;
    }
    if dx + copyW > width {
      copyW := width - dx;
    }
  }

  /** One row of it. */
  method CopyRow(dst: array<Byte>, width: nat, height: nat, a: Arm, row: nat, ghost was: seq<Byte>)
    requires width > 0 && dst.Length == width * height == |was| && row < a.h && PaintedRows(was, dst[..], a, width, row)
    modifies dst
    ensures PaintedRows(was, dst[..], a, width, row + 1)
  {
    var dy := a.y + row;
    var srcX, copyW, dx := ClipRow(a, width);
    var srcStart := RowStart(a, row) + srcX;
    ghost var now := dst[..];
    if 0 <= dy < height && copyW > 0 && srcStart >= 0 && srcStart + copyW <= |a.plane.bytes| {
      RowFits(width, height, dy);
      var at := width * dy + dx;
      CopyBytes(dst, at, a.plane.bytes, srcStart, copyW);
      RowPainted(was, now, dst[..], a, width, row, at, srcStart);
    } else {
      RowSkipped(was, now, a, width, height, row);
    }
  }

  lemma NoRows(was: seq<Byte>, now: seq<Byte>, a: Arm, width: nat, rows: int)
    requires width > 0 && PaintedRows(was, now, a, width, 0) && rows <= 0
    ensures PaintedRows(was, now, a, width, rows)
  {
  }

  /** The arm lies inside the canvas, and every source row is there. */
  predicate Inside(a: Arm, width: nat, height: nat) {
    && a.x >= 0 && a.y >= 0 && a.x + a.w <= width && a.y + a.h <= height
    && a.w > 0 && a.h > 0 && Stride(a) >= a.w && a.plane.offset >= 0
    && a.plane.offset + (a.h - 1) * Stride(a) + a.w <= |a.plane.bytes|
  }

  lemma InsideRow(a: Arm, width: nat, height: nat, row: nat)
    requires Inside(a, width, height) && row < a.h
    ensures RowPresent(a, width, row) && Left(a) == a.x && Right(a, width) == a.x + a.w && RowStart(a, row) >= 0
  {
    MulMono(Stride(a), row, a.h - 1);
    MulMono(Stride(a), 0, row);
  }

  /** Row by row, nothing to clip. */
  method CopyStrided(dst: array<Byte>, width: nat, height: nat, a: Arm)
    requires width > 0 && dst.Length == width * height && Inside(a, width, height)
    modifies dst
    ensures PaintedRows(old(dst[..]), dst[..], a, width, a.h)
  {
    for row := 0 to a.h
      invariant PaintedRows(old(dst[..]), dst[..], a, width, row)
    {
      InsideRow(a, width, height, row);
      RowFits(width, height, a.y + row);
      ghost var now := dst[..];
      CopyBytes(dst, width * (a.y + row) + a.x, a.plane.bytes, RowStart(a, row), a.w);
      RowPainted(old(dst[..]), now, dst[..], a, width, row, width * (a.y + row) + a.x, RowStart(a, row));
    }
  }

  /** Rows as wide as the canvas and packed: byte b of the one copy is byte b of the picture. */
  lemma BulkByte(a: Arm, width: nat, height: nat, b: nat)
    requires Inside(a, width, height) && Stride(a) == a.w == width && a.x == 0
    ensures var at := width * a.y; var n := width * a.h; var y, x := RowOf(b, width), ColOf(b, width);
      if at <= b < at + n then
        && Covers(a, width, y, x) && a.plane.offset + (b - at) < |a.plane.bytes|
        && Pixel(a, width, y, x) == a.plane.bytes[a.plane.offset+(b-at)]
      else !Covers(a, width, y, x)
  {
    var y, x := RowOf(b, width), ColOf(b, width);
    PositionIs(b, width);
    Distrib(width, a.y, a.h);
    if width * a.y <= b < width * a.y + width * a.h {
      RowBetween(width, a.y, a.y + a.h, y, x);
      InsideRow(a, width, height, y - a.y);
      BulkOffset(width, a.y, y, x, b);
    } else {
      RowOutside(width, a.y, a.y + a.h, y, x);
    }
  }

  lemma BulkOffset(width: nat, from: nat, y: nat, x: nat, b: nat)
    requires from <= y && b == width * y + x
    ensures b - width * from == (y - from) * width + x
  {
    Distrib(width, from, y - from);
  }

  lemma RowOutside(width: nat, from: nat, to: nat, y: nat, x: nat)
    requires x < width && !(width * from <= width * y + x < width * to)
    ensures !(from <= y < to)
  {
    if from <= y {
      MulMono(width, from, y);
      if y < to {
        RowFits(width, to, y);
      }
    }
  }

  lemma RowBetween(width: nat, from: nat, to: nat, y: nat, x: nat)
    requires x < width && width * from <= width * y + x < width * to
    ensures from <= y < to
  {
    MulCancelLt(width, y, to);
    Distrib(width, y, 1);
    MulCancelLt(width, from, y + 1);
  }

  /** One copy for the whole arm. */
  method CopyBulk(dst: array<Byte>, width: nat, height: nat, a: Arm)
    requires width > 0 && dst.Length == width * height && Inside(a, width, height)
    requires Stride(a) == a.w == width && a.x == 0
    modifies dst
    ensures PaintedRows(old(dst[..]), dst[..], a, width, a.h)
  {
    BulkFits(a, width, height);
    CopyBytes(dst, width * a.y, a.plane.bytes, a.plane.offset, width * a.h);
    forall b | 0 <= b < dst.Length
      ensures dst[b] == Over(old(dst[..])[b], a, width, a.h, RowOf(b, width), ColOf(b, width))
    {
      BulkByte(a, width, height, b);
    }
  }

  lemma BulkFits(a: Arm, width: nat, height: nat)
    requires Inside(a, width, height) && Stride(a) == a.w == width
    ensures 0 <= width * a.y && 0 <= width * a.h && width * a.y + width * a.h <= width * height
    ensures a.plane.offset + width * a.h <= |a.plane.bytes|
  {
    Distrib(width, a.y, a.h);
    MulMono(width, a.y + a.h, height);
    MulMono(width, 0, a.y);
    MulMono(width, 0, a.h);
    Distrib(width, a.h - 1, 1);
  }

  /** `copyPlane`: whichever way the bytes are moved, the arm is painted. */
  method CopyPlane(dst: array<Byte>, width: nat, height: nat, a: Arm)
    requires width > 0 && dst.Length == width * height
    modifies dst
    ensures PaintedRows(old(dst[..]), dst[..], a, width, a.h)
  {
    if Inside(a, width, height) {
      if Stride(a) == a.w == width && a.x == 0 {
        CopyBulk(dst, width, height, a);
      } else {
        CopyStrided(dst, width, height, a);
      }
    } else {
      CopyClipped(dst, width, height, a);
    }
  }

  // ---------------------------------------------------------------------
  // The canvas
  // ---------------------------------------------------------------------

  /** An arm's frame; the flags are what the stage checks before it trusts the planes. */
  datatype Frame = Frame(video: bool, i420: bool, w: int, h: int, planes: seq<Plane>)

  datatype Place = Place(x: int, y: int)

  datatype Fault = NoFrames | NoVideo(arm: nat) | NotI420(arm: nat) | FewPlanes(arm: nat) | EmptyCanvas

  datatype Canvas = Canvas(w: nat, h: nat, y: seq<Byte>, u: seq<Byte>, v: seq<Byte>)

  datatype Result = Ok(canvas: Canvas) | Err(fault: Fault)

  function Max(a: int, b: int): int {
    if a < b then b else a
  }

  /** x &^ 1: rounded down to even. */
  function Even(x: int): int {
    x - x % 2
  }

  /** (x + 1) / 2, truncating toward zero. */
  function HalfUp(x: int): int {
    if x + 1 >= 0 then (x + 1) / 2 else -((-(x + 1)) / 2)
  }

  /** The canvas covers the floor and every arm at its place. */
  function CanvasW(frames: seq<Option<Frame>>, layout: seq<Place>, floor: int, n: nat): int
    requires n <= |frames| <= |layout|
  {
    if n == 0 then floor
    else if frames[n-1].None? then CanvasW(frames, layout, floor, n - 1)
    else Max(CanvasW(frames, layout, floor, n - 1), layout[n-1].x + frames[n-1].value.w)
  }

  function CanvasH(frames: seq<Option<Frame>>, layout: seq<Place>, floor: int, n: nat): int
    requires n <= |frames| <= |layout|
  {
    if n == 0 then floor
    else if frames[n-1].None? then CanvasH(frames, layout, floor, n - 1)
    else Max(CanvasH(frames, layout, floor, n - 1), layout[n-1].y + frames[n-1].value.h)
  }

  /** What is wrong with an arm's frame, if anything, in the order it is checked. */
  function ArmFault(frames: seq<Option<Frame>>, i: nat): Option<Fault>
    requires i < |frames|
  {
    if frames[i].None? then None
    else if !frames[i].value.video then Some(NoVideo(i))
    else if !frames[i].value.i420 then Some(NotI420(i))
    else if |frames[i].value.planes| < 3 then Some(FewPlanes(i))
    else None
  }

  /** An arm's part of plane p; an absent arm has no rows. */
  function ArmOf(frame: Option<Frame>, place: Place, p: nat): Arm
    requires p < 3 && (frame.Some? ==> |frame.value.planes| >= 3)
  {
    if frame.None? then Arm(Plane([], 0, 0), 0, 0, 0, 0)
    else
      var f := frame.value;
      if p == 0 then Arm(f.planes[0], f.w, f.h, Even(place.x), Even(place.y))
      else Arm(f.planes[p], HalfUp(f.w), HalfUp(f.h), Even(place.x) / 2, Even(place.y) / 2)
  }

  ghost predicate Sound(frames: seq<Option<Frame>>) {
    forall i :: 0 <= i < |frames| && frames[i].Some? ==> |frames[i].value.planes| >= 3
  }

  ghost function Arms(frames: seq<Option<Frame>>, layout: seq<Place>, p: nat): seq<Arm>
    requires Sound(frames) && |frames| <= |layout| && p < 3
  {
    seq(|frames|, i requires 0 <= i < |frames| => ArmOf(frames[i], layout[i], p))
  }

  /** Every byte of the plane is what the painter shows there. */
  ghost predicate Shows(plane: seq<Byte>, arms: seq<Arm>, n: nat, fill: Byte, width: nat)
    requires width > 0 && n <= |arms|
  {
    forall b :: 0 <= b < |plane| ==> plane[b] == Painter(arms, n, fill, width, RowOf(b, width), ColOf(b, width))
  }

  lemma PaintedIsShown(was: seq<Byte>, now: seq<Byte>, arms: seq<Arm>, n: nat, fill: Byte, width: nat)
    requires width > 0 && n < |arms| && Shows(was, arms, n, fill, width) && PaintedRows(was, now, arms[n], width, arms[n].h)
    ensures Shows(now, arms, n + 1, fill, width)
  {
  }

  /** Filled, then painted arm by arm. */
  method PaintArm(plane: array<Byte>, width: nat, height: nat, a: Arm, ghost arms: seq<Arm>, ghost n: nat, ghost fill: Byte)
    requires width > 0 && plane.Length == width * height && n < |arms| && a == arms[n] && Shows(plane[..], arms, n, fill, width)
    modifies plane
    ensures Shows(plane[..], arms, n + 1, fill, width)
  {
    ghost var was := plane[..];
    CopyPlane(plane, width, height, a);
    PaintedIsShown(was, plane[..], arms, n, fill, width);
  }

  method NewPlane(width: nat, height: nat, fill: Byte, ghost arms: seq<Arm>) returns (plane: array<Byte>)
    requires width > 0
    ensures fresh(plane) && plane.Length == width * height && Shows(plane[..], arms, 0, fill, width)
  {
    plane := new Byte[width * height];
    FillPlane(plane, fill);
  }

  /** The frames are checked arm by arm while the canvas grows. */
  method Measure(frames: seq<Option<Frame>>, layout: seq<Place>, floorW: int, floorH: int) returns (fault: Option<Fault>, w: int, h: int)
    requires |frames| <= |layout|
    ensures fault.None? ==> Sound(frames) && forall i :: 0 <= i < |frames| ==> ArmFault(frames, i).None?
    ensures fault.Some? ==> exists i :: 0 <= i < |frames| && ArmFault(frames, i) == fault && forall k :: 0 <= k < i ==> ArmFault(frames, k).None?
    ensures fault.None? ==> w == CanvasW(frames, layout, floorW, |frames|) && h == CanvasH(frames, layout, floorH, |frames|)
  {
    w, h := floorW, floorH;
    for i := 0 to |frames|
      invariant forall k :: 0 <= k < i ==> ArmFault(frames, k).None?
      invariant w == CanvasW(frames, layout, floorW, i) && h == CanvasH(frames, layout, floorH, i)
    {
      fault := ArmFault(frames, i);
      if fault.Some? {
        return;
      }
      if frames[i].Some? {
        w, h := Max(w, layout[i].x + frames[i].value.w), Max(h, layout[i].y + frames[i].value.h);
      }
    }
    fault := None;
    forall i | 0 <= i < |frames| && frames[i].Some?
      ensures |frames[i].value.planes| >= 3
    {
      assert ArmFault(frames, i).None?;
    }
  }

  /** The three planes filled and painted. */
  method PaintAll(frames: seq<Option<Frame>>, layout: seq<Place>, w: nat, h: nat) returns (c: Canvas)
    requires Sound(frames) && |frames| <= |layout| && w > 0 && h > 0
    ensures c.w == w && c.h == h && |c.y| == w * h && |c.u| == |c.v| == HalfUp(w) * HalfUp(h)
    ensures Shows(c.y, Arms(frames, layout, 0), |frames|, BLACK_LUMA, w)
    ensures Shows(c.u, Arms(frames, layout, 1), |frames|, NEUTRAL_CHROMA, HalfUp(w))
    ensures Shows(c.v, Arms(frames, layout, 2), |frames|, NEUTRAL_CHROMA, HalfUp(w))
  {
    var cw, ch := HalfUp(w), HalfUp(h);
    ghost var a0, a1, a2 := Arms(frames, layout, 0), Arms(frames, layout, 1), Arms(frames, layout, 2);
    var y := NewPlane(w, h, BLACK_LUMA, a0);
    var u := NewPlane(cw, ch, NEUTRAL_CHROMA, a1);
    var v := NewPlane(cw, ch, NEUTRAL_CHROMA, a2);
    for i := 0 to |frames|
      invariant Shows(y[..], a0, i, BLACK_LUMA, w)
      invariant Shows(u[..], a1, i, NEUTRAL_CHROMA, cw)
      invariant Shows(v[..], a2, i, NEUTRAL_CHROMA, cw)
    {
      PaintArm(y, w, h, ArmOf(frames[i], layout[i], 0), a0, i, BLACK_LUMA);
      PaintArm(u, cw, ch, ArmOf(frames[i], layout[i], 1), a1, i, NEUTRAL_CHROMA);
      PaintArm(v, cw, ch, ArmOf(frames[i], layout[i], 2), a2, i, NEUTRAL_CHROMA);
    }
    c := Canvas(w, h, y[..], u[..], v[..]);
  }

  /** `compositeI420FramesInto`: a fault it can name, or a canvas that shows what the painter shows. */
  method CompositeFrames(frames: seq<Option<Frame>>, layout: seq<Place>, floorW: int, floorH: int) returns (r: Result)
    requires |frames| <= |layout|
    ensures r == Err(NoFrames) <==> forall i :: 0 <= i < |frames| ==> frames[i].None?
    ensures r.Ok? <==>
      && (exists i :: 0 <= i < |frames| && frames[i].Some?) && (forall i :: 0 <= i < |frames| ==> ArmFault(frames, i).None?)
      && CanvasW(frames, layout, floorW, |frames|) > 0 && CanvasH(frames, layout, floorH, |frames|) > 0
    ensures forall i :: 0 <= i < |frames| && ArmFault(frames, i).Some? && (forall k :: 0 <= k < i ==> ArmFault(frames, k).None?) ==>
      r == Err(ArmFault(frames, i).value)
    ensures r == Err(EmptyCanvas) <==>
      && (exists i :: 0 <= i < |frames| && frames[i].Some?) && (forall i :: 0 <= i < |frames| ==> ArmFault(frames, i).None?)
      && (CanvasW(frames, layout, floorW, |frames|) <= 0 || CanvasH(frames, layout, floorH, |frames|) <= 0)
    ensures r.Ok? ==> Sound(frames) && Painted(r.canvas, frames, layout) && Composited(r.canvas, frames, layout)
    ensures r.Ok? ==> r.canvas.w == CanvasW(frames, layout, floorW, |frames|) && r.canvas.h == CanvasH(frames, layout, floorH, |frames|)
  {
    if forall i :: 0 <= i < |frames| ==> frames[i].None? {
      return Err(NoFrames);
    }
    var fault, w, h := Measure(frames, layout, floorW, floorH);
    if fault.Some? {
      return Err(fault.value);
    }
    if w <= 0 || h <= 0 {
      return Err(EmptyCanvas);
    }
    var canvas := PaintAll(frames, layout, w, h);
    PaintedIsComposited(canvas, frames, layout);
    return Ok(canvas);
  }

  ghost predicate Painted(c: Canvas, frames: seq<Option<Frame>>, layout: seq<Place>)
    requires Sound(frames) && |frames| <= |layout|
  {
    && c.w > 0 && c.h > 0 && |c.y| == c.w * c.h && |c.u| == |c.v| == HalfUp(c.w) * HalfUp(c.h)
    && Shows(c.y, Arms(frames, layout, 0), |frames|, BLACK_LUMA, c.w)
    && Shows(c.u, Arms(frames, layout, 1), |frames|, NEUTRAL_CHROMA, HalfUp(c.w))
    && Shows(c.v, Arms(frames, layout, 2), |frames|, NEUTRAL_CHROMA, HalfUp(c.w))
  }

  // ---------------------------------------------------------------------
  // What the canvas shows, from frames and places alone
  // ---------------------------------------------------------------------

  /** The size of a frame's plane, chroma rounded up, and where its corner lands, luma rounded down to even. */
  ghost function PlaneSize(size: int, p: nat): int {
    if p == 0 then size else (size + 1) / 2
  }

  ghost function Corner(place: int, p: nat): int {
    if p == 0 then place - place % 2 else (place - place % 2) / 2
  }

  ghost function RowStep(f: Frame, p: nat): int
    requires p < |f.planes|
  {
    if f.planes[p].stride > 0 then f.planes[p].stride else PlaneSize(f.w, p)
  }

  /** The byte of the frame's plane that belongs at a canvas position. */
  ghost function SourceAt(f: Frame, place: Place, p: nat, row: int, col: int): int
    requires p < |f.planes|
  {
    f.planes[p].offset + (row - Corner(place.y, p)) * RowStep(f, p) + (col - Corner(place.x, p))
  }

  /** The position is in the frame's rectangle, and its row has every byte that falls on the canvas. */
  ghost predicate Reaches(frame: Option<Frame>, place: Place, p: nat, width: int, row: int, col: int) {
    frame.Some? && p < |frame.value.planes| &&
    var f, x := frame.value, Corner(place.x, p);
    var w := PlaneSize(f.w, p);
    && Corner(place.y, p) <= row < Corner(place.y, p) + PlaneSize(f.h, p) && x <= col < x + w && 0 <= col < width
    && 0 <= SourceAt(f, place, p, row, if x < 0 then 0 else x)
    && SourceAt(f, place, p, row, if x + w > width then width else x + w) <= |f.planes[p].bytes|
  }

  /** The last frame that reaches the position. */
  ghost predicate OnTop(frames: seq<Option<Frame>>, layout: seq<Place>, p: nat, width: int, row: int, col: int, i: nat)
    requires i < |frames| <= |layout|
  {
    && Reaches(frames[i], layout[i], p, width, row, col)
    && forall k :: i < k < |frames| ==> !Reaches(frames[k], layout[k], p, width, row, col)
  }

  /** A plane at a position: the sample of the last frame that reaches it, else the fill. */
  ghost predicate ShowsAt(plane: seq<Byte>, frames: seq<Option<Frame>>, layout: seq<Place>, p: nat, fill: int, width: nat, row: nat, col: nat)
    requires |frames| <= |layout|
  {
    && width * row + col < |plane|
    && ((forall i :: 0 <= i < |frames| ==> !Reaches(frames[i], layout[i], p, width, row, col)) ==> plane[width * row + col] == fill)
    && (forall i :: 0 <= i < |frames| && OnTop(frames, layout, p, width, row, col, i) ==>
          && 0 <= SourceAt(frames[i].value, layout[i], p, row, col) < |frames[i].value.planes[p].bytes|
          && plane[width * row + col] == frames[i].value.planes[p].bytes[SourceAt(frames[i].value, layout[i], p, row, col)])
  }

  ghost predicate ShowsAll(plane: seq<Byte>, frames: seq<Option<Frame>>, layout: seq<Place>, p: nat, fill: int, width: nat, height: nat)
    requires |frames| <= |layout|
  {
    |plane| == width * height
    && forall row: nat, col: nat :: row < height && col < width ==> ShowsAt(plane, frames, layout, p, fill, width, row, col)
  }

  /** Luma over black, and each chroma plane over neutral at half size. */
  ghost predicate Composited(c: Canvas, frames: seq<Option<Frame>>, layout: seq<Place>)
    requires |frames| <= |layout|
  {
    && ShowsAll(c.y, frames, layout, 0, 16, c.w, c.h)
    && ShowsAll(c.u, frames, layout, 1, 128, (c.w + 1) / 2, (c.h + 1) / 2)
    && ShowsAll(c.v, frames, layout, 2, 128, (c.w + 1) / 2, (c.h + 1) / 2)
  }

  lemma HalfUpIs(x: int)
    ensures x >= 0 ==> HalfUp(x) == (x + 1) / 2
    ensures x < 0 ==> HalfUp(x) <= 0 && (x + 1) / 2 <= 0
  {
  }

  lemma ReachesIsCovers(frames: seq<Option<Frame>>, layout: seq<Place>, i: nat, p: nat, width: nat, row: nat, col: nat)
    requires Sound(frames) && i < |frames| <= |layout| && p < 3 && col < width
    ensures Reaches(frames[i], layout[i], p, width, row, col) <==> Covers(Arms(frames, layout, p)[i], width, row, col)
    ensures Covers(Arms(frames, layout, p)[i], width, row, col) ==>
      && 0 <= SourceAt(frames[i].value, layout[i], p, row, col) < |frames[i].value.planes[p].bytes|
      && Pixel(Arms(frames, layout, p)[i], width, row, col)
         == frames[i].value.planes[p].bytes[SourceAt(frames[i].value, layout[i], p, row, col)]
  {
    var a := ArmOf(frames[i], layout[i], p);
    assert Arms(frames, layout, p)[i] == a;
    if frames[i].Some? {
      HalfUpIs(frames[i].value.w);
      HalfUpIs(frames[i].value.h);
      assert a.x == Corner(layout[i].x, p) && a.y == Corner(layout[i].y, p);
      if p == 0 || (frames[i].value.w >= 0 && frames[i].value.h >= 0) {
        assert a.w == PlaneSize(frames[i].value.w, p) && a.h == PlaneSize(frames[i].value.h, p);
      }
    }
  }

  lemma PainterShows(plane: seq<Byte>, frames: seq<Option<Frame>>, layout: seq<Place>, p: nat, fill: Byte, width: nat, height: nat, row: nat, col: nat)
    requires Sound(frames) && |frames| <= |layout| && p < 3 && col < width && row < height && |plane| == width * height
    requires Shows(plane, Arms(frames, layout, p), |frames|, fill, width)
    ensures ShowsAt(plane, frames, layout, p, fill, width, row, col)
  {
    var arms, b := Arms(frames, layout, p), width * row + col;
    InsidePlane(width, height, row, col);
    Position(b, width, row, col);
    forall i | 0 <= i < |frames|
      ensures Reaches(frames[i], layout[i], p, width, row, col) <==> Covers(arms[i], width, row, col)
      ensures Covers(arms[i], width, row, col) ==>
        && 0 <= SourceAt(frames[i].value, layout[i], p, row, col) < |frames[i].value.planes[p].bytes|
        && Pixel(arms[i], width, row, col) == frames[i].value.planes[p].bytes[SourceAt(frames[i].value, layout[i], p, row, col)]
    {
      ReachesIsCovers(frames, layout, i, p, width, row, col);
    }
    if forall i :: 0 <= i < |frames| ==> !Reaches(frames[i], layout[i], p, width, row, col) {
      UncoveredIsFill(arms, |frames|, fill, width, row, col);
    }
    forall i | 0 <= i < |frames| && OnTop(frames, layout, p, width, row, col, i)
      ensures plane[b] == Pixel(arms[i], width, row, col)
    {
      LastArmWins(arms, |frames|, i, fill, width, row, col);
    }
  }

  lemma InsidePlane(width: nat, height: nat, row: nat, col: nat)
    requires col < width && row < height
    ensures width * row + col < width * height
  {
    MulMono(width, row + 1, height);
    Distrib(width, row, 1);
  }

  lemma PlaneShowsAll(plane: seq<Byte>, frames: seq<Option<Frame>>, layout: seq<Place>, p: nat, fill: Byte, width: nat, height: nat)
    requires Sound(frames) && |frames| <= |layout| && p < 3 && width > 0 && |plane| == width * height
    requires Shows(plane, Arms(frames, layout, p), |frames|, fill, width)
    ensures ShowsAll(plane, frames, layout, p, fill, width, height)
  {
    forall row: nat, col: nat | row < height && col < width
      ensures ShowsAt(plane, frames, layout, p, fill, width, row, col)
    {
      PainterShows(plane, frames, layout, p, fill, width, height, row, col);
    }
  }

  lemma PaintedIsComposited(c: Canvas, frames: seq<Option<Frame>>, layout: seq<Place>)
    requires Sound(frames) && |frames| <= |layout| && Painted(c, frames, layout)
    ensures Composited(c, frames, layout)
  {
    PlaneShowsAll(c.y, frames, layout, 0, BLACK_LUMA, c.w, c.h);
    PlaneShowsAll(c.u, frames, layout, 1, NEUTRAL_CHROMA, HalfUp(c.w), HalfUp(c.h));
    PlaneShowsAll(c.v, frames, layout, 2, NEUTRAL_CHROMA, HalfUp(c.w), HalfUp(c.h));
  }

  // ---------------------------------------------------------------------
  // Geometry
  // ---------------------------------------------------------------------

  /** The canvas is as wide as the floor or some frame at its place asks for, and no less than any. */
  lemma {:induction false} CanvasIsLeast(frames: seq<Option<Frame>>, layout: seq<Place>, floorW: int, floorH: int, n: nat)
    requires n <= |frames| <= |layout|
    ensures CanvasW(frames, layout, floorW, n) >= floorW && CanvasH(frames, layout, floorH, n) >= floorH
    ensures CanvasW(frames, layout, floorW, n) == floorW
      || exists i :: 0 <= i < n && frames[i].Some? && CanvasW(frames, layout, floorW, n) == layout[i].x + frames[i].value.w
    ensures CanvasH(frames, layout, floorH, n) == floorH
      || exists i :: 0 <= i < n && frames[i].Some? && CanvasH(frames, layout, floorH, n) == layout[i].y + frames[i].value.h
  {
    if n > 0 {
      CanvasIsLeast(frames, layout, floorW, floorH, n - 1);
    }
  }

  lemma {:induction false} CanvasHolds(frames: seq<Option<Frame>>, layout: seq<Place>, floorW: int, floorH: int, n: nat, i: nat)
    requires i < n <= |frames| <= |layout| && frames[i].Some?
    ensures layout[i].x + frames[i].value.w <= CanvasW(frames, layout, floorW, n)
    ensures layout[i].y + frames[i].value.h <= CanvasH(frames, layout, floorH, n)
  {
    if i < n - 1 {
      CanvasHolds(frames, layout, floorW, floorH, n - 1, i);
    }
  }

  /** A rectangle at a non-negative even-rounded place fits, and so does its half. */
  lemma HalfFits(x: int, size: int, canvas: int)
    requires x >= 0 && size >= 0 && x + size <= canvas
    ensures 0 <= Even(x) && Even(x) + size <= canvas
    ensures 0 <= Even(x) / 2 && Even(x) / 2 + HalfUp(size) <= HalfUp(canvas)
  {
  }

  /** With non-negative places every luma and chroma rectangle fits its plane: nothing is clipped. */
  lemma ArmsFit(frames: seq<Option<Frame>>, layout: seq<Place>, floorW: int, floorH: int, i: nat, p: nat)
    requires i < |frames| <= |layout| && frames[i].Some? && |frames[i].value.planes| >= 3 && p < 3
    requires layout[i].x >= 0 && layout[i].y >= 0 && frames[i].value.w >= 0 && frames[i].value.h >= 0
    ensures var a := ArmOf(frames[i], layout[i], p);
      var w, h := CanvasW(frames, layout, floorW, |frames|), CanvasH(frames, layout, floorH, |frames|);
      && 0 <= a.x && a.x + a.w <= (if p == 0 then w else HalfUp(w))
      && 0 <= a.y && a.y + a.h <= (if p == 0 then h else HalfUp(h))
  {
    CanvasHolds(frames, layout, floorW, floorH, |frames|, i);
    HalfFits(layout[i].x, frames[i].value.w, CanvasW(frames, layout, floorW, |frames|));
    HalfFits(layout[i].y, frames[i].value.h, CanvasH(frames, layout, floorH, |frames|));
  }

  /** The top arm hides what is under it, wherever it covers. */
  lemma {:induction false} LastArmWins(arms: seq<Arm>, n: nat, i: nat, fill: Byte, width: int, y: int, x: int)
    requires i < n <= |arms| && Covers(arms[i], width, y, x)
    requires forall k :: i < k < n ==> !Covers(arms[k], width, y, x)
    ensures Painter(arms, n, fill, width, y, x) == Pixel(arms[i], width, y, x)
  {
    if i < n - 1 {
      LastArmWins(arms, n - 1, i, fill, width, y, x);
    }
  }

  lemma {:induction false} UncoveredIsFill(arms: seq<Arm>, n: nat, fill: Byte, width: int, y: int, x: int)
    requires n <= |arms| && forall k :: 0 <= k < n ==> !Covers(arms[k], width, y, x)
    ensures Painter(arms, n, fill, width, y, x) == fill
  {
    if n > 0 {
      UncoveredIsFill(arms, n - 1, fill, width, y, x);
    }
  }
}
