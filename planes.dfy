/**
 * Single-band rasters (mode "L" images) and the centred re-padding that
 * `resize_to_max` performs before the bands of a split image are merged.
 */
module Planes {

  /** An 8-bit sample. */
  newtype Byte = x: int | 0 <= x < 256

  /** A raster size, written (width, height) as the source does. */
  datatype Size = Size(width: nat, height: nat)

  /** One band: `size.height` rows of `size.width` samples; `rows[y][x]` is column x of row y. */
  datatype Plane = Plane(size: Size, rows: seq<seq<Byte>>) {
    predicate Valid() {
      |rows| == size.height && forall y :: 0 <= y < |rows| ==> |rows[y]| == size.width
    }
  }

  function Max(a: nat, b: nat): nat {
    if a < b then b else a
  }

  /**
   * Python's `(canvas - extent) // 2`. Python's `//` rounds towards minus
   * infinity, as Dafny's `/` does when the divisor is positive. A plane that
   * fits gets a left (top) margin equal to its right (bottom) margin or one
   * less; a plane larger than the canvas starts before the canvas origin.
   */
  function Offset(canvas: nat, extent: nat): (o: int)
    ensures extent <= canvas ==> 0 <= o && o + extent <= canvas
    ensures extent <= canvas ==> o <= canvas - extent - o <= o + 1
    ensures canvas < extent ==> o < 0
  {
    ((canvas as int) - (extent as int)) / 2
  }

  /** Whether canvas position (x, y) is covered by `p` pasted at the centred offsets. */
  predicate Covers(p: Plane, canvas: Size, x: int, y: int) {
    && 0 <= x - Offset(canvas.width, p.size.width) < p.size.width
    && 0 <= y - Offset(canvas.height, p.size.height) < p.size.height
  }

  /** The sample at canvas position (x, y) once `p` is pasted at the centred offsets onto a zero canvas. */
  function PastedAt(p: Plane, canvas: Size, x: int, y: int): Byte
    requires p.Valid()
  {
    if Covers(p, canvas, x, y)
    then p.rows[y - Offset(canvas.height, p.size.height)][x - Offset(canvas.width, p.size.width)]
    else 0
  }

  /**
   * `p` pasted onto a zero-filled canvas of size `canvas` at offsets
   * ((canvas.width - w) // 2, (canvas.height - h) // 2). As in PIL's paste,
   * whatever falls outside the canvas is dropped.
   */
  function Centred(p: Plane, canvas: Size): (r: Plane)
    requires p.Valid()
    ensures r.Valid() && r.size == canvas
  {
    Plane(canvas, seq(canvas.height, y requires 0 <= y < canvas.height =>
                    seq(canvas.width, x requires 0 <= x < canvas.width => PastedAt(p, canvas, x, y))))
  }

  /**
   * Where the samples go: a plane that fits the canvas is pasted at
   * non-negative offsets, source sample (x, y) landing at (x + x offset,
   * y + y offset), and every canvas sample the pasted block does not cover
   * is 0.
   */
  lemma CentredPlacement(p: Plane, canvas: Size)
    requires p.Valid()
    ensures p.size.width <= canvas.width && p.size.height <= canvas.height ==>
      && 0 <= Offset(canvas.width, p.size.width)
      && 0 <= Offset(canvas.height, p.size.height)
      && forall y, x :: 0 <= y < p.size.height && 0 <= x < p.size.width ==>
           Centred(p, canvas).rows[y + Offset(canvas.height, p.size.height)][x + Offset(canvas.width, p.size.width)] == p.rows[y][x]
    ensures forall y, x :: 0 <= y < canvas.height && 0 <= x < canvas.width && !Covers(p, canvas, x, y) ==>
      Centred(p, canvas).rows[y][x] == 0
  {
  }

  /** Pasting a plane onto a canvas of its own size gives the plane back. */
  lemma CentredAtOwnSize(p: Plane)
    requires p.Valid()
    ensures Centred(p, p.size) == p
  {
    var r := Centred(p, p.size);
    assert Offset(p.size.width, p.size.width) == 0 && Offset(p.size.height, p.size.height) == 0;
    forall y | 0 <= y < p.size.height ensures r.rows[y] == p.rows[y] {
      assert forall x :: 0 <= x < p.size.width ==> r.rows[y][x] == p.rows[y][x];
    }
  }

  /**
   * `resize_to_max`: a plane already of canvas size is returned as it is;
   * any other is pasted, centred, onto a freshly allocated zero canvas.
   */
  method ResizeToMax(channel: Plane, canvas: Size) returns (r: Plane)
    requires channel.Valid()
    ensures r == Centred(channel, canvas)
    ensures channel.size == canvas ==> r == channel
  {
    if channel.size == canvas {
      CentredAtOwnSize(channel);
      return channel;
    }
    var buf := new Byte[canvas.height, canvas.width]((_, _) => 0);
    var xOffset := Offset(canvas.width, channel.size.width);
    var yOffset := Offset(canvas.height, channel.size.height);
    var sy := 0;
    while sy < channel.size.height
      invariant 0 <= sy <= channel.size.height
      invariant forall y, x :: 0 <= y < canvas.height && 0 <= x < canvas.width ==>
        buf[y, x] == if y - yOffset < sy then PastedAt(channel, canvas, x, y) else 0
    {
      var sx := 0;
      while sx < channel.size.width
        invariant 0 <= sx <= channel.size.width
        invariant forall y, x :: 0 <= y < canvas.height && 0 <= x < canvas.width ==>
          buf[y, x] == if y - yOffset < sy || (y - yOffset == sy && x - xOffset < sx)
                       then PastedAt(channel, canvas, x, y) else 0
      {
        var ty, tx := sy + yOffset, sx + xOffset;
        if 0 <= ty < canvas.height && 0 <= tx < canvas.width {
          buf[ty, tx] := channel.rows[sy][sx];
        }
        sx := sx + 1;
      }
      sy := sy + 1;
    }
    r := Plane(canvas, seq(canvas.height, y requires 0 <= y < canvas.height reads buf =>
                         seq(canvas.width, x requires 0 <= x < canvas.width reads buf => buf[y, x])));
    ghost var expected := Centred(channel, canvas);
    forall y | 0 <= y < canvas.height ensures r.rows[y] == expected.rows[y] {
      assert forall x :: 0 <= x < canvas.width ==> r.rows[y][x] == expected.rows[y][x];
    }
  }
}
