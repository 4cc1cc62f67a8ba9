/** make_transparent: near-white pixels become fully transparent white. */
module Transparency {
  import opened Raster

  /** The pixel written for a keyed-out pixel: white, alpha 0. */
  const Clear: Rgba := Rgba(255, 255, 255, 0)

  /** Red, green and blue are all strictly above the threshold. */
  predicate NearWhite(p: Rgba, threshold: int) {
    p.r > threshold && p.g > threshold && p.b > threshold
  }

  function KeyPixel(p: Rgba, threshold: int): Rgba {
    if NearWhite(p, threshold) then Clear else p
  }

  /** The buffer make_transparent writes back: same length and order, every
      near-white pixel replaced by Clear, every other pixel copied. */
  function Keyed(pixels: seq<Rgba>, threshold: int): (r: seq<Rgba>)
    ensures |r| == |pixels|
    ensures forall i :: 0 <= i < |pixels| && NearWhite(pixels[i], threshold) ==> r[i] == Clear
    ensures forall i :: 0 <= i < |pixels| && !NearWhite(pixels[i], threshold) ==> r[i] == pixels[i]
  {
    seq(|pixels|, i requires 0 <= i < |pixels| => KeyPixel(pixels[i], threshold))
  }

  /** make_transparent as a value: convert to RGBA, then key the buffer. */
  function Transparentize(img: Image, threshold: int): (r: Image)
    ensures r.mode == RGBA && r.width == img.width && r.height == img.height
    ensures img.Valid() ==> r.Valid() && r.pixels == Keyed(img.pixels, threshold)
  {
    var c := ToRgba(img);
    Image(RGBA, c.width, c.height, Keyed(c.pixels, threshold))
  }

  /** A pixel changes exactly when it is near white and not already Clear. */
  lemma KeyedChanges(pixels: seq<Rgba>, threshold: int, i: nat)
    requires i < |pixels|
    ensures Keyed(pixels, threshold)[i] != pixels[i] <==> NearWhite(pixels[i], threshold) && pixels[i] != Clear
  {
  }

  /** The comparison is strict: a channel equal to the threshold keeps the
      pixel as it is. */
  lemma ThresholdIsStrict(pixels: seq<Rgba>, threshold: int, i: nat)
    requires i < |pixels|
    requires pixels[i].r == threshold || pixels[i].g == threshold || pixels[i].b == threshold
    ensures Keyed(pixels, threshold)[i] == pixels[i]
  {
  }

  /** A second pass changes nothing, whatever the threshold. */
  lemma KeyedIdempotent(pixels: seq<Rgba>, threshold: int)
    ensures Keyed(Keyed(pixels, threshold), threshold) == Keyed(pixels, threshold)
  {
    var once := Keyed(pixels, threshold);
    forall i | 0 <= i < |pixels|
      ensures Keyed(once, threshold)[i] == once[i]
    {
      if NearWhite(pixels[i], threshold) {
        assert once[i] == Clear;
      }
    }
  }

  /** On an RGB image the result's alpha tells which pixels were keyed out:
      alpha 0 exactly at the near-white pixels, and every other pixel is the
      original one, still opaque. */
  lemma TransparentizeAlpha(img: Image, threshold: int, i: nat)
    requires img.Valid() && img.mode == RGB && i < |img.pixels|
    ensures var out := Transparentize(img, threshold).pixels;
      i < |out| && (out[i].a == 0 <==> NearWhite(img.pixels[i], threshold))
    ensures var out := Transparentize(img, threshold).pixels;
      i < |out| && (!NearWhite(img.pixels[i], threshold) ==> out[i] == img.pixels[i] && out[i].a == 255)
  {
    assert img.pixels[i].a == 255;
  }

  lemma TransparentizeIdempotent(img: Image, threshold: int)
    requires img.Valid()
    ensures Transparentize(Transparentize(img, threshold), threshold) == Transparentize(img, threshold)
  {
    KeyedIdempotent(img.pixels, threshold);
  }

  /** The loop of make_transparent: walk the pixels, appending Clear or the
      pixel itself to new_data. */
  method KeyData(data: seq<Rgba>, threshold: int) returns (newData: seq<Rgba>)
    ensures newData == Keyed(data, threshold)
  {
    newData := [];
    for i := 0 to |data|
      invariant |newData| == i
      invariant forall j :: 0 <= j < i ==> newData[j] == KeyPixel(data[j], threshold)
    {
      var item := data[i];
      if item.r > threshold && item.g > threshold && item.b > threshold {
        newData := newData + [Clear];
      } else {
        newData := newData + [item];
      }
    }
  }

  /** make_transparent on an image object. An RGB image is converted to a
      new RGBA bitmap, which is keyed, and the caller's image is untouched;
      an RGBA image has its own buffer overwritten and is returned. */
  method MakeTransparent(image: Bitmap, threshold: int) returns (result: Bitmap)
    requires image.Valid()
    modifies image.buffer
    ensures result.Valid()
    ensures result.Snapshot() == Transparentize(old(image.Snapshot()), threshold)
    ensures old(image.mode) == RGBA ==> result == image
    ensures old(image.mode) != RGBA ==> fresh(result) && fresh(result.buffer) && unchanged(image.buffer)
  {
    var target := image;
    if image.mode != RGBA {
      target := image.Convert(RGBA);
    }
    var data := target.buffer[..];
    var newData := KeyData(data, threshold);
    target.PutData(newData);
    result := target;
  }
}
