/** Pixels in device memory: the address of a pixel, its byte order, and clipped drawing
    (kernel/src/graphics/framebuffer.rs). */
module Framebuffers {
  import opened Options
  import opened Bytes

  datatype Colour = Colour(r: Byte, g: Byte, b: Byte)

  datatype Format = Rgb | Bgr | Grey | Unknown

  /** The mapping's geometry as the bootloader reports it; `stride` counts bytes. */
  datatype Geometry = Geometry(width: nat, height: nat, stride: nat, pixelBytes: nat, format: Format, len: nat)

  /** Rows do not run into one another. */
  predicate GoodGeometry(g: Geometry) {
    g.pixelBytes >= 1 && g.width * g.pixelBytes <= g.stride && g.stride >= 1
  }

  // --- Which pixel a byte belongs to ---------------------------------------------------------------

  function RowOf(g: Geometry, i: nat): nat
    requires GoodGeometry(g)
  {
    i / g.stride
  }

  function ColumnOf(g: Geometry, i: nat): nat
    requires GoodGeometry(g)
  {
    i % g.stride / g.pixelBytes
  }

  function ChannelOf(g: Geometry, i: nat): (k: nat)
    requires GoodGeometry(g)
    ensures k < g.pixelBytes
  {
    i % g.stride % g.pixelBytes
  }

  function Offset(g: Geometry, x: nat, y: nat): nat {
    y * g.stride + x * g.pixelBytes
  }

  /** Pixels do not overlap: byte `i` belongs to pixel `(x, y)` exactly when it lies in that pixel's
      run of bytes. */
  lemma ByteOfPixel(g: Geometry, x: nat, y: nat, i: nat)
    requires GoodGeometry(g) && x < g.width
    ensures Offset(g, x, y) <= i < Offset(g, x, y) + g.pixelBytes <==> RowOf(g, i) == y && ColumnOf(g, i) == x
    ensures RowOf(g, i) == y && ColumnOf(g, i) == x ==> ChannelOf(g, i) == i - Offset(g, x, y)
  {
    var s, p := g.stride, g.pixelBytes;
    AtMost(x + 1, g.width, p);
    if Offset(g, x, y) <= i < Offset(g, x, y) + p {
      Unsplit(i, s, p, x, y);
    }
    if RowOf(g, i) == y && ColumnOf(g, i) == x {
      Split(i, s, p);
    }
  }

  lemma AtMost(a: nat, b: nat, d: nat)
    ensures a <= b ==> a * d <= b * d
  {
  }

  lemma Split(i: nat, s: nat, p: nat)
    requires s > 0 && p > 0
    ensures i == i / s * s + i % s / p * p + i % s % p
  {
  }

  lemma Unsplit(i: nat, s: nat, p: nat, x: nat, y: nat)
    requires s > 0 && p > 0 && y * s + x * p <= i < y * s + x * p + p && x * p + p <= s
    ensures i / s == y && i % s / p == x && i % s % p == i - y * s - x * p
  {
    DivMod(i, s, y, i - y * s);
    DivMod(i - y * s, p, x, i - y * s - x * p);
  }

  lemma DivMod(n: nat, d: nat, q: nat, r: nat)
    requires n == q * d + r && r < d
    ensures n / d == q && n % d == r
  {
    AtMost(n / d + 1, q, d);
    AtMost(q + 1, n / d, d);
  }

  /** Is channel `k` of a pixel written at all? The fourth byte of a 32-bit pixel is not. */
  predicate Writes(format: Format, k: nat) {
    match format
    case Rgb => k < 3
    case Bgr => k < 3
    case Grey => k == 0
    case Unknown => true
  }

  function Channel(format: Format, c: Colour, k: nat): Byte {
    match format
    case Rgb => if k == 0 then c.r else if k == 1 then c.g else c.b
    case Bgr => if k == 0 then c.b else if k == 1 then c.g else c.r
    case Grey => ((c.r as int * 77 + c.g as int * 150 + c.b as int * 29) / 256) as Byte
    case Unknown => c.g
  }

  /** On a grey screen a grey keeps its level, and no colour is brighter than white. */
  lemma GreyLevels(c: Colour)
    ensures c.r == c.g == c.b ==> Channel(Grey, c, 0) == c.r
    ensures Channel(Grey, c, 0) <= Channel(Grey, Colour(255, 255, 255), 0)
    ensures Channel(Grey, Colour(255, 0, 0), 0) == 76 && Channel(Grey, Colour(0, 255, 0), 0) == 149
    ensures Channel(Grey, Colour(0, 0, 255), 0) == 28
  {
  }

  /** Can byte `i` be written by drawing? Its pixel is on the screen and inside the mapping. */
  predicate Lit(g: Geometry, i: nat)
    requires GoodGeometry(g)
  {
    var x, y := ColumnOf(g, i), RowOf(g, i);
    x < g.width && y < g.height && Offset(g, x, y) + g.pixelBytes <= g.len && Writes(g.format, ChannelOf(g, i))
  }

  // --- Pictures --------------------------------------------------------------------------------------

  /** What a piece of drawing puts where; `None` is transparent. */
  type Picture = (nat, nat) -> Option<Colour>

  ghost function Over(top: Picture, bottom: Picture): Picture {
    (x: nat, y: nat) => if top(x, y).Some? then top(x, y) else bottom(x, y)
  }

  ghost const Nothing: Picture := (x: nat, y: nat) => None

  ghost function Rectangle(x: nat, y: nat, w: nat, h: nat, c: Colour): Picture {
    (col: nat, row: nat) => if x <= col < x + w && y <= row < y + h then Some(c) else None
  }

  ghost predicate Agree(g: Geometry, p: Picture, q: Picture) {
    forall x: nat, y: nat | x < g.width && y < g.height :: p(x, y) == q(x, y)
  }

  function Shown(g: Geometry, i: nat, was: Byte, c: Option<Colour>): Byte
    requires GoodGeometry(g)
  {
    if c.Some? && Lit(g, i) then Channel(g.format, c.value, ChannelOf(g, i)) else was
  }

  /** The screen went from `before` to `after` by drawing exactly `p` on it. */
  ghost predicate Painted(g: Geometry, before: seq<Byte>, after: seq<Byte>, p: Picture)
    requires GoodGeometry(g)
  {
    && |before| == |after| == g.len
    && forall i: nat | i < g.len :: after[i] == Shown(g, i, before[i], p(ColumnOf(g, i), RowOf(g, i)))
  }

  lemma PaintedNothing(g: Geometry, s: seq<Byte>)
    requires GoodGeometry(g) && |s| == g.len
    ensures Painted(g, s, s, Nothing)
  {
  }

  /** Drawing `q` and then `p` draws `p` over `q`. */
  lemma PaintedThen(g: Geometry, a: seq<Byte>, b: seq<Byte>, c: seq<Byte>, q: Picture, p: Picture)
    requires GoodGeometry(g) && Painted(g, a, b, q) && Painted(g, b, c, p)
    ensures Painted(g, a, c, Over(p, q))
  {
    hide Lit, ColumnOf, RowOf, ChannelOf, Channel;
  }

  lemma PaintedSame(g: Geometry, a: seq<Byte>, b: seq<Byte>, p: Picture, q: Picture)
    requires GoodGeometry(g) && Painted(g, a, b, p) && Agree(g, p, q)
    ensures Painted(g, a, b, q)
  {
    hide ColumnOf, RowOf, ChannelOf, Channel, Offset;
  }

  /** `read_pixel`: the colour the device shows. */
  function ReadPixel(g: Geometry, bytes: seq<Byte>, x: nat, y: nat): Option<Colour>
    requires |bytes| == g.len
  {
    var at := Offset(g, x, y);
    if x >= g.width || y >= g.height || at + g.pixelBytes > g.len then None
    else
      var b0 := if at < g.len then bytes[at] else 0;
      var b1 := if g.pixelBytes > 1 then bytes[at + 1] else 0;
      var b2 := if g.pixelBytes > 2 then bytes[at + 2] else 0;
      Some(if g.format.Bgr? then Colour(b2, b1, b0) else Colour(b0, b1, b2))
  }

  /** On a true-colour screen what was drawn is what is read back, pixel by pixel. */
  lemma ReadBack(g: Geometry, before: seq<Byte>, after: seq<Byte>, p: Picture, x: nat, y: nat)
    requires GoodGeometry(g) && Painted(g, before, after, p) && g.pixelBytes >= 3 && (g.format.Rgb? || g.format.Bgr?)
    requires x < g.width && y < g.height && Offset(g, x, y) + g.pixelBytes <= g.len
    ensures ReadPixel(g, after, x, y) == if p(x, y).Some? then p(x, y) else ReadPixel(g, before, x, y)
  {
    hide ColumnOf, RowOf, ChannelOf, Offset, Painted;
    ReadBackByte(g, before, after, p, x, y, 0);
    ReadBackByte(g, before, after, p, x, y, 1);
    ReadBackByte(g, before, after, p, x, y, 2);
  }

  lemma ReadBackByte(g: Geometry, before: seq<Byte>, after: seq<Byte>, p: Picture, x: nat, y: nat, k: nat)
    requires GoodGeometry(g) && Painted(g, before, after, p) && k < g.pixelBytes && Writes(g.format, k)
    requires x < g.width && y < g.height && Offset(g, x, y) + g.pixelBytes <= g.len
    ensures
      var at := Offset(g, x, y) + k;
      after[at] == if p(x, y).Some? then Channel(g.format, p(x, y).value, k) else before[at]
  {
    hide ColumnOf, RowOf, ChannelOf, Offset;
    ByteOfPixel(g, x, y, Offset(g, x, y) + k);
  }

  // --- Drawing ---------------------------------------------------------------------------------------

  class Framebuffer {
    const g: Geometry
    const bytes: array<Byte>

    ghost predicate Valid() {
      GoodGeometry(g) && bytes.Length == g.len
    }

    constructor (g: Geometry, bytes: array<Byte>)
      requires GoodGeometry(g) && bytes.Length == g.len
      ensures Valid() && this.g == g && this.bytes == bytes
    {
      this.g, this.bytes := g, bytes;
    }

    method SetPixel(x: nat, y: nat, c: Colour)
      requires Valid()
      modifies bytes
      ensures Painted(g, old(bytes[..]), bytes[..], Rectangle(x, y, 1, 1, c))
    {
      hide RowOf, ColumnOf, ChannelOf, Offset;
      if x >= g.width || y >= g.height {
        return;
      }
      var at := Offset(g, x, y);
      if at + g.pixelBytes > g.len {
        return;
      }
      forall i: nat | i < g.len
        ensures at <= i < at + g.pixelBytes <==> RowOf(g, i) == y && ColumnOf(g, i) == x
        ensures RowOf(g, i) == y && ColumnOf(g, i) == x ==> ChannelOf(g, i) == i - at
      {
        ByteOfPixel(g, x, y, i);
      }
      match g.format
      case Rgb =>
        bytes[at] := c.r;
        if g.pixelBytes > 1 {
          bytes[at + 1] := c.g;
        }
        if g.pixelBytes > 2 {
          bytes[at + 2] := c.b;
        }
      case Bgr =>
        bytes[at] := c.b;
        if g.pixelBytes > 1 {
          bytes[at + 1] := c.g;
        }
        if g.pixelBytes > 2 {
          bytes[at + 2] := c.r;
        }
      case Grey =>
        bytes[at] := ((c.r as int * 77 + c.g as int * 150 + c.b as int * 29) / 256) as Byte;
      case Unknown =>
        for k := 0 to g.pixelBytes
          invariant forall i | 0 <= i < g.len :: bytes[i] == if at <= i < at + k then c.g else old(bytes[i])
        {
          bytes[at + k] := c.g;
        }
    }

    method FillRect(x: nat, y: nat, w: nat, h: nat, c: Colour)
      requires Valid()
      modifies bytes
      ensures Painted(g, old(bytes[..]), bytes[..], Rectangle(x, y, w, h, c))
    {
      hide Painted;
      var xEnd := if x + w < g.width then x + w else g.width;
      var yEnd := if y + h < g.height then y + h else g.height;
      ghost var before := bytes[..];
      PaintedNothing(g, before);
      var row := y;
      ghost var done := Nothing;
      while row < yEnd
        invariant y <= row && (row <= yEnd || row == y)
        invariant Painted(g, before, bytes[..], done)
        invariant Agree(g, done, Rectangle(x, y, w, row - y, c))
        decreases yEnd - row
      {
        var column := x;
        ghost var line := done;
        while column < xEnd
          invariant x <= column && (column <= xEnd || column == x)
          invariant Painted(g, before, bytes[..], line)
          invariant Agree(g, line, Over(Rectangle(x, row, column - x, 1, c), done))
          decreases xEnd - column
        {
          ghost var was := bytes[..];
          SetPixel(column, row, c);
          PaintedThen(g, before, was, bytes[..], line, Rectangle(column, row, 1, 1, c));
          line := Over(Rectangle(column, row, 1, 1, c), line);
          column := column + 1;
        }
        done := line;
        row := row + 1;
      }
      PaintedSame(g, before, bytes[..], done, Rectangle(x, y, w, h, c));
    }

    method StrokeRect(x: nat, y: nat, w: nat, h: nat, c: Colour)
      requires Valid()
      modifies bytes
      ensures Painted(g, old(bytes[..]), bytes[..], Outline(x, y, w, h, c))
    {
      hide Painted;
      ghost var b0 := bytes[..];
      PaintedNothing(g, b0);
      if w == 0 || h == 0 {
        PaintedSame(g, b0, b0, Nothing, Outline(x, y, w, h, c));
        return;
      }
      FillRect(x, y, w, 1, c);
      ghost var b1 := bytes[..];
      FillRect(x, y + h - 1, w, 1, c);
      ghost var b2 := bytes[..];
      ghost var p2 := Over(Rectangle(x, y + h - 1, w, 1, c), Rectangle(x, y, w, 1, c));
      PaintedThen(g, b0, b1, b2, Rectangle(x, y, w, 1, c), Rectangle(x, y + h - 1, w, 1, c));
      FillRect(x, y, 1, h, c);
      ghost var b3 := bytes[..];
      ghost var p3 := Over(Rectangle(x, y, 1, h, c), p2);
      PaintedThen(g, b0, b2, b3, p2, Rectangle(x, y, 1, h, c));
      FillRect(x + w - 1, y, 1, h, c);
      PaintedThen(g, b0, b3, bytes[..], p3, Rectangle(x + w - 1, y, 1, h, c));
      PaintedSame(g, b0, bytes[..], Over(Rectangle(x + w - 1, y, 1, h, c), p3), Outline(x, y, w, h, c));
    }
  }

  /** The one-pixel border of a rectangle: inside it, and on an edge. */
  ghost function Outline(x: nat, y: nat, w: nat, h: nat, c: Colour): Picture {
    (col: nat, row: nat) =>
      if x <= col < x + w && y <= row < y + h && (col == x || col == x + w - 1 || row == y || row == y + h - 1) then Some(c) else None
  }
}
