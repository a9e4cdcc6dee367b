/**
 * `rotate_image`: rotate an image as a whole, or split it into bands,
 * rotate each colour band by its own angle (alpha by the global angle),
 * re-pad the bands, centred, onto their common canvas, merge them, and
 * rotate the composite once more when the global angle calls for it.
 */
module Rotation {
  import opened Wrappers
  import opened Planes
  import opened Images

  /** The global angle and the three channel angles, in degrees; an absent angle is 0. */
  datatype Request = Request(angle: real, red: real, green: real, blue: real)

  /** The per-channel path is taken when some channel angle is set. */
  predicate SplitsChannels(q: Request) {
    q.red != 0.0 || q.green != 0.0 || q.blue != 0.0
  }

  /** After the merge, the composite is rotated by the global angle when that is set and some channel angle differs from it. */
  predicate RotatesComposite(q: Request) {
    q.angle != 0.0 && (q.red != q.angle || q.green != q.angle || q.blue != q.angle)
  }

  /** The mode an image is converted to before it is split: palette images to RGBA, other modes that are neither RGB nor RGBA to RGB. */
  function TargetMode(m: Mode): (t: Mode)
    ensures t == RGB || t == RGBA
    ensures (m == RGB || m == RGBA) ==> t == m
    ensures t == RGBA <==> (m == RGBA || m == P)
  {
    if m == RGB || m == RGBA then m
    else if m == P then RGBA
    else RGB
  }

  /** The image as it is split: converted only when its mode is neither RGB nor RGBA. */
  function Normalised(lib: Library, img: Image): (src: Image)
    requires lib.Lawful() && img.Valid()
    ensures src.Valid() && src.mode == TargetMode(img.mode) && src.Dimensions() == img.Dimensions()
    ensures (img.mode == RGB || img.mode == RGBA) ==> src == img
  {
    if img.mode == RGB || img.mode == RGBA then img else lib.convert(img, TargetMode(img.mode))
  }

  /**
   * `rotate_channel`: the band and its size after rotating it by `angle`.
   * At angle 0 the band is returned without calling the library, which
   * gives what the library would give.
   */
  function RotateChannel(lib: Library, channel: Plane, angle: real): (res: (Plane, Size))
    requires lib.Lawful() && channel.Valid()
    ensures res.0.Valid() && res.1 == res.0.size
    ensures res.0 == lib.rotateBand(channel, angle)
    ensures angle == 0.0 ==> res.0 == channel && res.1 == channel.size
  {
    if angle != 0.0 then
      var rotated := lib.rotateBand(channel, angle);
      (rotated, rotated.size)
    else
      (channel, channel.size)
  }

  predicate ValidChannels(c: Channels) {
    c.r.Valid() && c.g.Valid() && c.b.Valid() && (c.a.Some? ==> c.a.value.Valid())
  }

  /** The split bands after `rotate_channel`: each colour band by its own angle, alpha by the global angle. */
  function Turned(lib: Library, c: Channels, q: Request): (t: Channels)
    requires lib.Lawful() && ValidChannels(c)
    ensures ValidChannels(t)
    ensures t.r == lib.rotateBand(c.r, q.red)
    ensures t.g == lib.rotateBand(c.g, q.green)
    ensures t.b == lib.rotateBand(c.b, q.blue)
    ensures t.a == if c.a.Some? then Some(lib.rotateBand(c.a.value, q.angle)) else None
  {
    Channels(RotateChannel(lib, c.r, q.red).0, RotateChannel(lib, c.g, q.green).0, RotateChannel(lib, c.b, q.blue).0,
             if c.a.Some? then Some(RotateChannel(lib, c.a.value, q.angle).0) else None)
  }

  /**
   * The common canvas: the componentwise maximum of the sizes, starting
   * from 0 (the source's `max(..., a_size[0] if a is not None else 0)`).
   */
  function CanvasOf(sizes: seq<Size>): (c: Size)
    ensures forall i :: 0 <= i < |sizes| ==> sizes[i].width <= c.width && sizes[i].height <= c.height
    ensures c.width == 0 || exists i :: 0 <= i < |sizes| && sizes[i].width == c.width
    ensures c.height == 0 || exists i :: 0 <= i < |sizes| && sizes[i].height == c.height
  {
    if |sizes| == 0 then Size(0, 0)
    else
      var c := CanvasOf(sizes[..|sizes| - 1]);
      var last := sizes[|sizes| - 1];
      assert forall i :: 0 <= i < |sizes| - 1 ==> sizes[..|sizes| - 1][i] == sizes[i];
      Size(Max(c.width, last.width), Max(c.height, last.height))
  }

  /** The sizes of the bands, in split order. */
  function SizesOf(c: Channels): (s: seq<Size>) {
    [c.r.size, c.g.size, c.b.size] + (if c.a.Some? then [c.a.value.size] else [])
  }

  /** `resize_to_max` applied to every band. */
  function Aligned(c: Channels, canvas: Size): (a: Channels)
    requires ValidChannels(c)
    ensures ValidChannels(a) && a.a.Some? == c.a.Some?
    ensures a.r.size == canvas && a.g.size == canvas && a.b.size == canvas
    ensures a.a.Some? ==> a.a.value.size == canvas
  {
    Channels(Centred(c.r, canvas), Centred(c.g, canvas), Centred(c.b, canvas),
             if c.a.Some? then Some(Centred(c.a.value, canvas)) else None)
  }

  /** The split bands of the normalised image after `rotate_channel`. */
  function TurnedBands(lib: Library, img: Image, q: Request): (t: Channels)
    requires lib.Lawful() && img.Valid()
    ensures ValidChannels(t)
  {
    Turned(lib, Split(Normalised(lib, img)), q)
  }

  /** The canvas the rotated bands of the request are re-padded to. */
  function Canvas(lib: Library, img: Image, q: Request): Size
    requires lib.Lawful() && img.Valid()
  {
    CanvasOf(SizesOf(TurnedBands(lib, img, q)))
  }

  /**
   * The bands re-padded onto `canvas` and merged, as RGBA when there is an
   * alpha band and as RGB otherwise. The merge cannot fail: every re-padded
   * band has the canvas size.
   */
  function MergedOnCanvas(t: Channels, canvas: Size): (out: Image)
    requires ValidChannels(t)
    ensures out.Valid() && out.mode == (if t.a.Some? then RGBA else RGB)
    ensures out.Dimensions() == canvas
    ensures Merge(out.mode, Bands(Aligned(t, canvas))) == Success(out)
  {
    var bands := Bands(Aligned(t, canvas));
    assert forall i :: 0 <= i < |bands| ==> bands[i].Valid() && bands[i].size == canvas;
    var merged := Merge(if t.a.Some? then RGBA else RGB, bands);
    assert merged.Success?;
    merged.value
  }

  /**
   * The merged image of the per-channel path, before any final rotation:
   * every rotated band pasted, centred, onto the common canvas.
   */
  function Composite(lib: Library, img: Image, q: Request): (out: Image)
    requires lib.Lawful() && img.Valid()
    ensures out.Valid() && out.mode == TargetMode(img.mode)
    ensures out.Dimensions() == Canvas(lib, img, q)
  {
    MergedOnCanvas(TurnedBands(lib, img, q), Canvas(lib, img, q))
  }

  /**
   * Re-pads every band to the canvas with `resize_to_max` and merges the
   * bands, as RGBA when there is an alpha band and as RGB otherwise. The
   * merge cannot fail: every re-padded band has the canvas size.
   */
  method ResizeAndMerge(t: Channels, canvas: Size) returns (merged: Image)
    requires ValidChannels(t)
    ensures merged == MergedOnCanvas(t, canvas)
  {
    var rResized := ResizeToMax(t.r, canvas);
    var gResized := ResizeToMax(t.g, canvas);
    var bResized := ResizeToMax(t.b, canvas);
    var result;
    if t.a.Some? {
      var aResized := ResizeToMax(t.a.value, canvas);
      assert Bands(Aligned(t, canvas)) == [rResized, gResized, bResized, aResized];
      result := Merge(RGBA, [rResized, gResized, bResized, aResized]);
    } else {
      assert Bands(Aligned(t, canvas)) == [rResized, gResized, bResized];
      result := Merge(RGB, [rResized, gResized, bResized]);
    }
    merged := result.value;
  }

  /**
   * `rotate_image` on a decoded image. Without a channel angle the image
   * is rotated once, as a whole, by the global angle; otherwise it is
   * split, its bands rotated and re-padded, merged, and the composite
   * rotated by the global angle only when `RotatesComposite` holds.
   */
  method RotateImage(lib: Library, img: Image, q: Request) returns (rotated: Image)
    requires lib.Lawful() && img.Valid()
    ensures rotated.Valid()
    ensures !SplitsChannels(q) ==> rotated == lib.rotate(img, q.angle) && rotated.mode == img.mode
    ensures !SplitsChannels(q) && q.angle == 0.0 ==> rotated == img
    ensures SplitsChannels(q) ==> rotated.mode == TargetMode(img.mode)
    ensures SplitsChannels(q) && RotatesComposite(q) ==> rotated == lib.rotate(Composite(lib, img, q), q.angle)
    ensures SplitsChannels(q) && !RotatesComposite(q) ==> rotated == Composite(lib, img, q)
  {
    if SplitsChannels(q) {
      var src := img;
      if src.mode != RGB && src.mode != RGBA {
        if src.mode == P {
          src := lib.convert(src, RGBA);
        } else {
          src := lib.convert(src, RGB);
        }
      }
      assert src == Normalised(lib, img);
      var c := Split(src);
      var (r, rSize) := RotateChannel(lib, c.r, q.red);
      var (g, gSize) := RotateChannel(lib, c.g, q.green);
      var (b, bSize) := RotateChannel(lib, c.b, q.blue);
      var a: Option<Plane> := None;
      var sizes := [rSize, gSize, bSize];
      if c.a.Some? {
        var (aRotated, aSize) := RotateChannel(lib, c.a.value, q.angle);
        a, sizes := Some(aRotated), sizes + [aSize];
      }
      var turned := Channels(r, g, b, a);
      assert turned == TurnedBands(lib, img, q);
      assert sizes == SizesOf(turned);
      var canvas := CanvasOf(sizes);
      rotated := ResizeAndMerge(turned, canvas);
      assert rotated == Composite(lib, img, q);
      if RotatesComposite(q) {
        rotated := lib.rotate(rotated, q.angle);
      }
    } else {
      rotated := lib.rotate(img, q.angle);
    }
  }

  /** The composite's bands are the rotated bands, each re-padded onto the canvas, in split order. */
  lemma CompositeBands(lib: Library, img: Image, q: Request)
    requires lib.Lawful() && img.Valid()
    ensures Composite(lib, img, q).bands == Bands(Aligned(TurnedBands(lib, img, q), Canvas(lib, img, q)))
  {
    var t := TurnedBands(lib, img, q);
    var canvas := Canvas(lib, img, q);
    var out := MergedOnCanvas(t, canvas);
    assert Merge(out.mode, Bands(Aligned(t, canvas))) == Success(out);
  }

  /** The alpha band is rotated by the global angle, never by a channel angle, and then re-padded. */
  lemma AlphaFollowsGlobalAngle(lib: Library, img: Image, q: Request)
    requires lib.Lawful() && img.Valid() && TargetMode(img.mode) == RGBA
    ensures |Composite(lib, img, q).bands| == 4
    ensures Composite(lib, img, q).bands[3]
         == Centred(lib.rotateBand(Normalised(lib, img).bands[3], q.angle), Canvas(lib, img, q))
  {
    CompositeBands(lib, img, q);
    var src := Normalised(lib, img);
    var t := TurnedBands(lib, img, q);
    assert t.a.Some? && t.a.value == lib.rotateBand(src.bands[3], q.angle);
  }

  /**
   * A colour band whose angle is 0 is not resampled: it reaches the
   * composite as the band of the normalised image, only re-padded.
   */
  lemma UnrotatedChannelOnlyRepadded(lib: Library, img: Image, q: Request)
    requires lib.Lawful() && img.Valid()
    ensures q.red == 0.0 ==> Composite(lib, img, q).bands[0] == Centred(Normalised(lib, img).bands[0], Canvas(lib, img, q))
    ensures q.green == 0.0 ==> Composite(lib, img, q).bands[1] == Centred(Normalised(lib, img).bands[1], Canvas(lib, img, q))
    ensures q.blue == 0.0 ==> Composite(lib, img, q).bands[2] == Centred(Normalised(lib, img).bands[2], Canvas(lib, img, q))
  {
    CompositeBands(lib, img, q);
    var src := Normalised(lib, img);
    assert Split(src).r == src.bands[0] && Split(src).g == src.bands[1] && Split(src).b == src.bands[2];
  }

  /**
   * The canvas is the source's `max(r, g, b, a if a is not None else 0)`,
   * taken separately over widths and heights of the rotated bands.
   */
  lemma CanvasIsComponentwiseMax(lib: Library, img: Image, q: Request)
    requires lib.Lawful() && img.Valid()
    ensures var t := TurnedBands(lib, img, q);
      && Canvas(lib, img, q).width
         == Max(Max(t.r.size.width, t.g.size.width), Max(t.b.size.width, if t.a.Some? then t.a.value.size.width else 0))
      && Canvas(lib, img, q).height
         == Max(Max(t.r.size.height, t.g.size.height), Max(t.b.size.height, if t.a.Some? then t.a.value.size.height else 0))
  {
    ChannelsCanvas(TurnedBands(lib, img, q));
  }

  /** `CanvasOf` over the sizes of three or four bands, unfolded one band at a time. */
  lemma ChannelsCanvas(t: Channels)
    ensures CanvasOf(SizesOf(t)).width
         == Max(Max(t.r.size.width, t.g.size.width), Max(t.b.size.width, if t.a.Some? then t.a.value.size.width else 0))
    ensures CanvasOf(SizesOf(t)).height
         == Max(Max(t.r.size.height, t.g.size.height), Max(t.b.size.height, if t.a.Some? then t.a.value.size.height else 0))
  {
    var s1 := [t.r.size];
    var s2 := s1 + [t.g.size];
    var s3 := s2 + [t.b.size];
    assert s1[..0] == [] && s2[..1] == s1 && s3[..2] == s2;
    assert CanvasOf(s1) == t.r.size;
    assert CanvasOf(s3) == Size(Max(Max(t.r.size.width, t.g.size.width), t.b.size.width),
                                Max(Max(t.r.size.height, t.g.size.height), t.b.size.height));
    if t.a.Some? {
      var s4 := s3 + [t.a.value.size];
      assert SizesOf(t) == s4 && s4[..3] == s3;
    } else {
      assert SizesOf(t) == s3;
    }
  }

  /**
   * A non-empty image yields a non-empty composite: the red band is either
   * kept (angle 0) or rotated by a non-zero angle, and either way it is
   * non-empty, and the canvas is at least as large as it.
   */
  lemma NonEmptyCompositeFromNonEmptyImage(lib: Library, img: Image, q: Request)
    requires lib.Lawful() && img.Valid()
    requires img.Dimensions().width > 0 && img.Dimensions().height > 0
    ensures Composite(lib, img, q).Dimensions().width > 0
    ensures Composite(lib, img, q).Dimensions().height > 0
  {
    var src := Normalised(lib, img);
    var red := src.bands[0];
    assert red.Valid() && red.size == img.Dimensions();
    var t := TurnedBands(lib, img, q);
    assert t.r == lib.rotateBand(red, q.red);
    assert RotatedBand(red, q.red, t.r);
    assert t.r.size.width > 0 && t.r.size.height > 0;
    assert SizesOf(t)[0] == t.r.size;
  }

  /**
   * Bands of one image rotated by one angle come out the same size, so when
   * every band turns by the same angle no band is padded: the composite's
   * bands are the rotated bands themselves.
   */
  lemma EqualAnglesNeedNoPadding(lib: Library, img: Image, q: Request)
    requires lib.Lawful() && img.Valid()
    requires q.green == q.red && q.blue == q.red
    requires TargetMode(img.mode) == RGBA ==> q.angle == q.red
    ensures Canvas(lib, img, q) == TurnedBands(lib, img, q).r.size
    ensures Composite(lib, img, q).bands == Bands(TurnedBands(lib, img, q))
  {
    var src := Normalised(lib, img);
    var t := TurnedBands(lib, img, q);
    var size := t.r.size;
    assert src.bands[1].size == src.bands[0].size && src.bands[2].size == src.bands[0].size;
    assert t.g.size == size && t.b.size == size;
    if t.a.Some? {
      assert src.bands[3].size == src.bands[0].size;
      assert t.a.value.size == size;
    }
    var sizes := SizesOf(t);
    assert forall i :: 0 <= i < |sizes| ==> sizes[i] == size;
    var canvas := CanvasOf(sizes);
    assert canvas.width == size.width && canvas.height == size.height;
    CentredAtOwnSize(t.r);
    CentredAtOwnSize(t.g);
    CentredAtOwnSize(t.b);
    if t.a.Some? {
      CentredAtOwnSize(t.a.value);
    }
    assert Aligned(t, canvas) == t;
    CompositeBands(lib, img, q);
  }
}
