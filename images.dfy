/**
 * Multi-band images, the split into bands and their merge, and the image
 * library routines the rotation pipeline calls but does not implement.
 */
module Images {
  import opened Wrappers
  import opened Planes

  /** PIL's 8-bit image modes ("1" is written Bilevel). */
  datatype Mode = Bilevel | L | P | LA | PA | RGB | RGBA | RGBX | CMYK | YCbCr | LAB | HSV

  /** How many bands `split()` yields for an image of mode `m`. */
  function BandCount(m: Mode): nat {
    match m
    case Bilevel | L | P => 1
    case LA | PA => 2
    case RGB | YCbCr | LAB | HSV => 3
    case RGBA | RGBX | CMYK => 4
  }

  /** An image: its mode and its bands, which all have one size. */
  datatype Image = Image(mode: Mode, bands: seq<Plane>) {
    predicate Valid() {
      && |bands| == BandCount(mode)
      && forall i :: 0 <= i < |bands| ==> bands[i].Valid() && bands[i].size == bands[0].size
    }

    function Dimensions(): Size
      requires Valid()
    {
      bands[0].size
    }
  }

  /** The red, green and blue bands of an RGB or RGBA image, and its alpha band if it has one. */
  datatype Channels = Channels(r: Plane, g: Plane, b: Plane, a: Option<Plane>)

  /** The bands in the order `split()` returns them and `merge` takes them. */
  function Bands(c: Channels): (bands: seq<Plane>)
    ensures |bands| == if c.a.Some? then 4 else 3
    ensures bands[0] == c.r && bands[1] == c.g && bands[2] == c.b
    ensures c.a.Some? ==> bands[3] == c.a.value
  {
    [c.r, c.g, c.b] + (if c.a.Some? then [c.a.value] else [])
  }

  /** `img.split()` on an RGB or RGBA image: three colour bands and, for RGBA only, an alpha band. */
  function Split(img: Image): (c: Channels)
    requires img.Valid() && (img.mode == RGB || img.mode == RGBA)
    ensures c.a.Some? <==> img.mode == RGBA
    ensures c.r == img.bands[0] && c.g == img.bands[1] && c.b == img.bands[2]
    ensures c.a.Some? ==> c.a.value == img.bands[3]
    ensures Bands(c) == img.bands
  {
    Channels(img.bands[0], img.bands[1], img.bands[2],
             if img.mode == RGBA then Some(img.bands[3]) else None)
  }

  datatype MergeError = WrongBandCount | SizeMismatch

  /**
   * `Image.merge(mode, bands)`: refused unless there is one band per band of
   * `mode` and all bands have the first one's size.
   */
  function Merge(mode: Mode, bands: seq<Plane>): (r: Result<Image, MergeError>)
    requires forall i :: 0 <= i < |bands| ==> bands[i].Valid()
    ensures r.Success? <==>
      |bands| == BandCount(mode) && forall i :: 0 <= i < |bands| ==> bands[i].size == bands[0].size
    ensures r.Success? ==> r.value.Valid() && r.value.mode == mode && r.value.bands == bands
    ensures r == Failure(WrongBandCount) <==> |bands| != BandCount(mode)
  {
    if |bands| != BandCount(mode) then Failure(WrongBandCount)
    else if exists i :: 0 <= i < |bands| && bands[i].size != bands[0].size then Failure(SizeMismatch)
    else Success(Image(mode, bands))
  }

  /** Merging the bands of a split image rebuilds the image. */
  lemma MergeSplitRoundTrip(img: Image)
    requires img.Valid() && (img.mode == RGB || img.mode == RGBA)
    ensures Merge(img.mode, Bands(Split(img))) == Success(img)
  {
  }

  /**
   * The library routines the pipeline relies on: mode conversion
   * (`convert`), rotation of a whole image and rotation of one band (both
   * `rotate(angle, expand=True, resample=BICUBIC)`). They are kept
   * abstract; `Lawful` states what the pipeline needs of them.
   */
  datatype Library = Library(
    convert: (Image, Mode) -> Image,
    rotate: (Image, real) -> Image,
    rotateBand: (Plane, real) -> Plane)
  {
    ghost predicate Lawful() {
      && (forall img: Image, m: Mode :: img.Valid() ==> ConvertedTo(img, m, convert(img, m)))
      && (forall img: Image, angle: real :: img.Valid() ==> RotatedImage(img, rotate(img, angle)))
      && (forall img: Image :: rotate(img, 0.0) == img)
      && (forall p: Plane, angle: real :: p.Valid() ==> RotatedBand(p, angle, rotateBand(p, angle)))
      && (forall p: Plane :: rotateBand(p, 0.0) == p)
      && (forall p: Plane, p': Plane, angle: real :: p.size == p'.size ==> rotateBand(p, angle).size == rotateBand(p', angle).size)
    }
  }

  /** A conversion yields a well-formed image of the requested mode and the same size. */
  ghost predicate ConvertedTo(img: Image, m: Mode, out: Image)
    requires img.Valid()
  {
    out.Valid() && out.mode == m && out.Dimensions() == img.Dimensions()
  }

  /** A whole-image rotation yields a well-formed image of the same mode. */
  ghost predicate RotatedImage(img: Image, out: Image) {
    out.Valid() && out.mode == img.mode
  }

  /** A band rotation yields a well-formed band, non-empty when the input is and the angle is not 0. */
  ghost predicate RotatedBand(p: Plane, angle: real, out: Plane) {
    && out.Valid()
    && (angle != 0.0 && p.size.width > 0 && p.size.height > 0 ==> out.size.width > 0 && out.size.height > 0)
  }

  /** A library that satisfies the laws exists, so requiring them excludes no caller. */
  lemma LawfulLibraryExists()
    ensures Library(
      (img: Image, m: Mode) => if img.Valid() then Image(m, seq(BandCount(m), _ => img.bands[0])) else img,
      (img: Image, angle: real) => img,
      (p: Plane, angle: real) => p).Lawful()
  {
  }
}
