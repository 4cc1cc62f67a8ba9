/** make_square_crop: the centred square box of an image and the pixels it
    cuts out. */
module SquareCrop {
  import opened Raster

  /** A crop box (left, top, right, bottom), right and bottom exclusive. */
  datatype Box = Box(left: nat, top: nat, right: nat, bottom: nat)

  function Min(a: nat, b: nat): nat {
    if a <= b then a else b
  }

  predicate Within(b: Box, width: nat, height: nat) {
    b.left <= b.right <= width && b.top <= b.bottom <= height
  }

  /** The margins left and right of the box (and above and below it) differ
      by at most one pixel, the extra one going right (or below). */
  predicate Centred(b: Box, width: nat, height: nat)
    requires Within(b, width, height)
  {
    b.left <= width - b.right <= b.left + 1 && b.top <= height - b.bottom <= b.top + 1
  }

  /** The box make_square_crop cuts: side min(width, height), offset by half
      the difference (rounded down) along the longer axis. */
  function SquareBox(width: nat, height: nat): (b: Box)
    ensures Within(b, width, height)
    ensures b.right - b.left == Min(width, height) && b.bottom - b.top == Min(width, height)
    ensures Centred(b, width, height)
    ensures width <= height ==> b.left == 0 && b.right == width
    ensures height <= width ==> b.top == 0 && b.bottom == height
  {
    if width < height then
      var top := (height - width) / 2;
      Box(0, top, width, top + width)
    else
      var left := (width - height) / 2;
      Box(left, 0, left + height, height)
  }

  /** A centred square of side min(width, height) inside the image is
      SquareBox: the offsets (long - short) // 2 are forced. */
  lemma CentredSquareIsUnique(b: Box, width: nat, height: nat)
    requires Within(b, width, height)
    requires b.right - b.left == Min(width, height) && b.bottom - b.top == Min(width, height)
    requires Centred(b, width, height)
    ensures b == SquareBox(width, height)
  {
    var s := SquareBox(width, height);
    assert 2 * b.left <= width - Min(width, height) <= 2 * b.left + 1;
    assert 2 * b.top <= height - Min(width, height) <= 2 * b.top + 1;
    assert b.left == (width - Min(width, height)) / 2;
    assert b.top == (height - Min(width, height)) / 2;
  }

  /** The first `rows` rows of a `w`-wide row-major buffer, cut to columns
      left .. right - 1, in row-major order. */
  function CropRows(p: seq<Rgba>, w: nat, left: nat, right: nat, rows: nat): (r: seq<Rgba>)
    requires left <= right <= w && Area(rows, w) <= |p|
    ensures |r| == Area(rows, right - left)
    decreases rows
  {
    if rows == 0 then []
    else
      var start := Area(rows - 1, w);
      CropRows(p, w, left, right, rows - 1) + p[start + left .. start + right]
  }

  /** crop(box): the pixels of `img` inside `b`. */
  function Crop(img: Image, b: Box): (r: Image)
    requires img.Valid() && Within(b, img.width, img.height)
    ensures r.Valid() && r.mode == img.mode
    ensures r.width == b.right - b.left && r.height == b.bottom - b.top
  {
    BoxRowsFit(img, b);
    var below := img.pixels[Area(b.top, img.width)..];
    var rows := CropRows(below, img.width, b.left, b.right, b.bottom - b.top);
    CropRowsOpaque(below, img.width, b.left, b.right, b.bottom - b.top);
    Image(img.mode, b.right - b.left, b.bottom - b.top, rows)
  }

  /** make_square_crop: a square image comes back as it is, any other is
      cropped to SquareBox. */
  function MakeSquareCrop(img: Image): (r: Image)
    requires img.Valid()
    ensures r.Valid() && r.mode == img.mode
    ensures r.width == Min(img.width, img.height) && r.height == Min(img.width, img.height)
    ensures img.width == img.height ==> r == img
  {
    if img.width == img.height then img
    else Crop(img, SquareBox(img.width, img.height))
  }

  /** The rows top .. bottom - 1 of the box fit in the buffer after its
      first top rows. */
  lemma BoxRowsFit(img: Image, b: Box)
    requires img.Valid() && Within(b, img.width, img.height)
    ensures Area(b.top, img.width) + Area(b.bottom - b.top, img.width) <= |img.pixels|
  {
    var w := img.width;
    AreaAdd(b.top, b.bottom - b.top, w);
    AreaAdd(b.bottom, img.height - b.bottom, w);
  }

  /** Cutting pixels out of an opaque buffer keeps them opaque. */
  lemma {:induction false} CropRowsOpaque(p: seq<Rgba>, w: nat, left: nat, right: nat, rows: nat)
    requires left <= right <= w && Area(rows, w) <= |p|
    ensures Opaque(p) ==> Opaque(CropRows(p, w, left, right, rows))
    decreases rows
  {
    if rows > 0 && Opaque(p) {
      CropRowsOpaque(p, w, left, right, rows - 1);
      var start := Area(rows - 1, w);
      assert Opaque(p[start + left .. start + right]);
    }
  }

  lemma {:induction false} CropRowsAt(p: seq<Rgba>, w: nat, left: nat, right: nat, rows: nat, x: nat, y: nat)
    requires left <= right <= w && Area(rows, w) <= |p|
    requires x < right - left && y < rows
    ensures Area(y, right - left) + x < |CropRows(p, w, left, right, rows)|
    ensures Area(y, w) + left + x < |p|
    ensures CropRows(p, w, left, right, rows)[Area(y, right - left) + x] == p[Area(y, w) + left + x]
    decreases rows
  {
    var rw := right - left;
    var front := CropRows(p, w, left, right, rows - 1);
    var start := Area(rows - 1, w);
    var last := p[start + left .. start + right];
    assert Area(rows, w) == start + w;
    assert |front| == Area(rows - 1, rw) && Area(rows, rw) == |front| + rw;
    if y == rows - 1 {
      assert Area(y, rw) == |front|;
      assert (front + last)[|front| + x] == last[x];
    } else {
      CropRowsAt(p, w, left, right, rows - 1, x, y);
      assert (front + last)[Area(y, rw) + x] == front[Area(y, rw) + x];
    }
  }

  /** CropRows on the buffer after its first `top` rows: row y, column x
      of the result is row top + y, column left + x of the buffer. */
  lemma CropRowsBelow(p: seq<Rgba>, w: nat, top: nat, left: nat, right: nat, rows: nat, x: nat, y: nat)
    requires left <= right <= w && Area(top, w) + Area(rows, w) <= |p|
    requires x < right - left && y < rows
    ensures Area(y, right - left) + x < |CropRows(p[Area(top, w)..], w, left, right, rows)|
    ensures Area(top + y, w) + left + x < |p|
    ensures CropRows(p[Area(top, w)..], w, left, right, rows)[Area(y, right - left) + x]
         == p[Area(top + y, w) + left + x]
  {
    var below := p[Area(top, w)..];
    CropRowsAt(below, w, left, right, rows, x, y);
    AreaAdd(top, y, w);
    var j := Area(y, w) + left + x;
    assert below[j] == p[Area(top, w) + j];
  }

  lemma CropPixels(img: Image, b: Box)
    requires img.Valid() && Within(b, img.width, img.height)
    ensures Area(b.top, img.width) + Area(b.bottom - b.top, img.width) <= |img.pixels|
    ensures Crop(img, b).pixels
         == CropRows(img.pixels[Area(b.top, img.width)..], img.width, b.left, b.right, b.bottom - b.top)
  {
    BoxRowsFit(img, b);
  }

  /** Pixel (x, y) of the crop is pixel (left + x, top + y) of the image. */
  lemma CropAt(img: Image, b: Box, x: nat, y: nat)
    requires img.Valid() && Within(b, img.width, img.height)
    requires x < b.right - b.left && y < b.bottom - b.top
    ensures At(Crop(img, b), x, y) == At(img, b.left + x, b.top + y)
  {
    CropPixels(img, b);
    CropRowsBelow(img.pixels, img.width, b.top, b.left, b.right, b.bottom - b.top, x, y);
  }

  lemma {:induction false} CropFullRows(p: seq<Rgba>, w: nat, rows: nat)
    requires Area(rows, w) <= |p|
    ensures CropRows(p, w, 0, w, rows) == p[.. Area(rows, w)]
    decreases rows
  {
    if rows > 0 {
      CropFullRows(p, w, rows - 1);
      var start := Area(rows - 1, w);
      assert p[.. Area(rows, w)] == p[.. start] + p[start .. start + w];
    }
  }

  /** Cropping to the whole image gives the image back, so the early return
      for a square image agrees with cropping it to SquareBox. */
  lemma CropWholeIsIdentity(img: Image)
    requires img.Valid()
    ensures Crop(img, Box(0, 0, img.width, img.height)) == img
  {
    CropFullRows(img.pixels, img.width, img.height);
    assert img.pixels[.. Area(img.height, img.width)] == img.pixels;
  }

  /** Pixel (x, y) of the square crop is the pixel at the same place inside
      SquareBox of the original image. */
  lemma SquareCropAt(img: Image, x: nat, y: nat)
    requires img.Valid()
    requires x < Min(img.width, img.height) && y < Min(img.width, img.height)
    ensures var b := SquareBox(img.width, img.height);
      At(MakeSquareCrop(img), x, y) == At(img, b.left + x, b.top + y)
  {
    var b := SquareBox(img.width, img.height);
    if img.width != img.height {
      CropAt(img, b, x, y);
    }
  }
}
