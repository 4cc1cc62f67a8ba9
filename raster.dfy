/** Pixel buffers as the imaging library keeps them: a width, a height and
    the pixels in row-major order, one RGBA quadruple per pixel. */
module Raster {

  /** One 8-bit channel value. */
  type Channel = x: int | 0 <= x < 256

  datatype Rgba = Rgba(r: Channel, g: Channel, b: Channel, a: Channel)

  /** The two modes the program uses: decoded JPEGs are held as RGB, and
      transparency works on RGBA. An RGB pixel is stored with alpha 255. */
  datatype Mode = RGB | RGBA

  /** Every pixel is fully opaque. */
  predicate Opaque(pixels: seq<Rgba>) {
    forall i :: 0 <= i < |pixels| ==> pixels[i].a == 255
  }

  /** The number of pixels in `rows` rows of width `w`, counted row by row
      (it is rows * w, see AreaIsProduct). */
  function Area(rows: nat, w: nat): nat {
    if rows == 0 then 0 else Area(rows - 1, w) + w
  }

  datatype Image = Image(mode: Mode, width: nat, height: nat, pixels: seq<Rgba>) {
    /** The buffer holds exactly width * height pixels; an RGB image has no
        transparency. */
    predicate Valid() {
      |pixels| == Area(height, width) && (mode == RGB ==> Opaque(pixels))
    }
  }

  lemma {:induction false} AreaIsProduct(rows: nat, w: nat)
    ensures Area(rows, w) == rows * w
  {
    if rows > 0 {
      AreaIsProduct(rows - 1, w);
      assert rows * w == (rows - 1) * w + w;
    }
  }

  /** The first a + c rows are the first a rows followed by c more. */
  lemma {:induction false} AreaAdd(a: nat, c: nat, w: nat)
    ensures Area(a + c, w) == Area(a, w) + Area(c, w)
  {
    if c > 0 {
      AreaAdd(a, c - 1, w);
    }
  }

  /** Row `y`, column `x` of a `w`-wide, `h`-high buffer lies inside it. */
  lemma IndexInRange(x: nat, y: nat, w: nat, h: nat)
    requires x < w && y < h
    ensures Area(y, w) + x < Area(h, w)
  {
    AreaAdd(y + 1, h - y - 1, w);
  }

  /** The pixel in column `x` of row `y`. */
  function At(img: Image, x: nat, y: nat): Rgba
    requires img.Valid() && x < img.width && y < img.height
  {
    IndexInRange(x, y, img.width, img.height);
    img.pixels[Area(y, img.width) + x]
  }

  /** convert('RGBA'): an RGB image gets alpha 255 on every pixel; an RGBA
      image is returned as it is. */
  function ToRgba(img: Image): (r: Image)
    ensures r.mode == RGBA && r.width == img.width && r.height == img.height
    ensures img.Valid() ==> r.Valid() && r.pixels == img.pixels
  {
    if img.mode == RGBA then img
    else
      var p := img.pixels;
      var q := seq(|p|, i requires 0 <= i < |p| => p[i].(a := 255));
      assert img.Valid() ==> q == p;
      Image(RGBA, img.width, img.height, q)
  }

  /** convert('RGB'): the alpha channel is dropped, which in this
      representation means every pixel's alpha becomes 255. */
  function ToRgb(img: Image): (r: Image)
    ensures r.mode == RGB && r.width == img.width && r.height == img.height
    ensures |r.pixels| == |img.pixels|
    ensures forall i :: 0 <= i < |img.pixels| ==> r.pixels[i] == img.pixels[i].(a := 255)
    ensures img.Valid() ==> r.Valid()
    ensures img.Valid() && img.mode == RGB ==> r == img
  {
    var p := img.pixels;
    var q := seq(|p|, i requires 0 <= i < |p| => p[i].(a := 255));
    if img.mode == RGB then
      assert img.Valid() ==> q == p;
      Image(RGB, img.width, img.height, q)
    else Image(RGB, img.width, img.height, q)
  }

  /** An image object whose pixel buffer is overwritten in place. */
  class Bitmap {
    var mode: Mode
    const width: nat
    const height: nat
    const buffer: array<Rgba>

    function Snapshot(): Image
      reads this, buffer
    {
      Image(mode, width, height, buffer[..])
    }

    ghost predicate Valid()
      reads this, buffer
    {
      Snapshot().Valid()
    }

    /** A fresh bitmap holding `img`; also the model of copy(). */
    constructor FromImage(img: Image)
      requires img.Valid()
      ensures Valid() && Snapshot() == img && fresh(buffer)
    {
      mode, width, height := img.mode, img.width, img.height;
      buffer := new Rgba[|img.pixels|](i requires 0 <= i < |img.pixels| => img.pixels[i]);
    }

    /** convert(target): a new bitmap in the target mode; this one is left
        as it is. */
    method Convert(target: Mode) returns (c: Bitmap)
      requires Valid()
      ensures fresh(c) && fresh(c.buffer) && c.Valid()
      ensures c.Snapshot() == if target == RGBA then ToRgba(Snapshot()) else ToRgb(Snapshot())
    {
      if target == RGBA {
        c := new Bitmap.FromImage(ToRgba(Snapshot()));
      } else {
        c := new Bitmap.FromImage(ToRgb(Snapshot()));
      }
    }

    /** putdata: replace every pixel of an RGBA bitmap in place. */
    method PutData(data: seq<Rgba>)
      requires Valid() && mode == RGBA && |data| == buffer.Length
      modifies buffer
      ensures Valid() && buffer[..] == data
    {
      forall i | 0 <= i < buffer.Length {
        buffer[i] := data[i];
      }
    }
  }
}
