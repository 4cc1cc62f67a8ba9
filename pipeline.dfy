/** FaviconGenerator: from one validated JPEG, ten files in one output
    directory -- two ICO sizes and an Apple touch icon PNG, each with and
    without a transparent background, and four SVG wrappers around the
    original and the square-cropped picture. */
module Pipeline {
  import opened Wrappers
  import opened Raster
  import opened Decimal
  import opened SquareCrop
  import opened Transparency
  import opened Svg
  import opened Validation

  /** resize((w, h), LANCZOS). Only the shape of the result is modelled:
      the filter is not. */
  type Resampler = (Image, nat, nat) -> Image

  /** A resampler returns a well-formed image of the size asked for, in the
      mode of its input. */
  ghost predicate Resamples(resize: Resampler) {
    forall img: Image, w: nat, h: nat :: img.Valid() ==>
      resize(img, w, h).Valid() && resize(img, w, h).width == w && resize(img, w, h).height == h &&
      resize(img, w, h).mode == img.mode
  }

  /** PNG encoding of an image followed by base64, as the text embedded in
      an SVG. */
  type Encoder = Image -> string

  /** base64 text never holds a double quote. */
  ghost predicate Base64Text(encode: Encoder) {
    forall img: Image :: QuoteFree(encode(img))
  }

  /** What the generator is built with, the image library's resampler and
      encoder, and the SVG wrapper it writes (always Favicon()). */
  datatype Config = Config(quality: int, threshold: int, resize: Resampler, encode: Encoder,
                           template: Template) {
    ghost predicate Valid() {
      Resamples(resize) && Base64Text(encode)
    }
  }

  datatype Format = Ico | Png

  /** A file's content: an image handed to an encoder with its save
      options, or SVG text. */
  datatype Content =
    | Picture(format: Format, image: Image, quality: int, optimize: bool)
    | Text(text: string)

  datatype File = File(dir: string, name: string, content: Content)

  /** The two ICO sizes, in the order they are written. */
  const IcoSizes: seq<nat> := [16, 48]

  /** The side of the Apple touch icon. */
  const TouchSize: nat := 180

  /** The ICO name, with the size written in decimal. */
  function IcoName(size: nat, transparent: bool): string {
    if transparent then "favicon-" + Show(size) + "-transparent.ico" else "favicon-" + Show(size) + ".ico"
  }

  /** An ICO name reads back: after "favicon-", reading a number gives the
      size, and what follows marks the transparent variant. */
  lemma IcoNameReadsBack(size: nat, transparent: bool)
    ensures |IcoName(size, transparent)| > 8 && IcoName(size, transparent)[..8] == "favicon-"
    ensures ReadNat(IcoName(size, transparent)[8..]) ==
      Some((size, if transparent then "-transparent.ico" else ".ico"))
  {
    var tail := if transparent then "-transparent.ico" else ".ico";
    ReadShow(size, tail);
    assert IcoName(size, transparent) == "favicon-" + (Show(size) + tail);
  }

  function PngName(transparent: bool): string {
    if transparent then "apple-touch-icon-transparent.png" else "apple-touch-icon.png"
  }

  function SvgName(square: bool, transparent: bool): string {
    if square then (if transparent then "favicon-square-transparent.svg" else "favicon-square.svg")
    else if transparent then "favicon-original-transparent.svg" else "favicon-original.svg"
  }

  /** The image an output is made from: keyed by make_transparent when the
      output is the transparent one. */
  function Treated(c: Config, img: Image, transparent: bool): Image {
    if transparent then Transparentize(img, c.threshold) else img
  }

  /** One ICO of create_ico_files: the square image resized to size x size. */
  function IcoFile(c: Config, dir: string, square: Image, size: nat, transparent: bool): (f: File)
    ensures c.Valid() && square.Valid() && square.mode == RGB ==>
      PictureFile(f, Ico, size, transparent, c.quality)
  {
    File(dir, IcoName(size, transparent), Picture(Ico, Treated(c, c.resize(square, size, size), transparent),
                                                  c.quality, false))
  }

  function IcoFiles(c: Config, dir: string, square: Image, transparent: bool): (files: seq<File>)
    ensures |files| == |IcoSizes|
  {
    seq(|IcoSizes|, i requires 0 <= i < |IcoSizes| => IcoFile(c, dir, square, IcoSizes[i], transparent))
  }

  /** The file of create_png_files: the square image resized to 180 x 180,
      saved with optimize. */
  function PngFile(c: Config, dir: string, square: Image, transparent: bool): (f: File)
    ensures c.Valid() && square.Valid() && square.mode == RGB ==>
      PictureFile(f, Png, TouchSize, transparent, c.quality)
  {
    File(dir, PngName(transparent), Picture(Png, Treated(c, c.resize(square, TouchSize, TouchSize), transparent),
                                            c.quality, true))
  }

  /** The file of _create_svg_from_image. */
  function SvgFile(c: Config, dir: string, name: string, img: Image, transparent: bool): File {
    var treated := Treated(c, img, transparent);
    File(dir, name, Text(Document(c.template, treated.width, treated.height, c.encode(treated))))
  }

  /** The four files of create_svg_files. */
  function SvgFiles(c: Config, dir: string, original: Image): (files: seq<File>)
    requires original.Valid()
    ensures |files| == 4
  {
    var square := MakeSquareCrop(original);
    [SvgFile(c, dir, SvgName(false, false), original, false),
     SvgFile(c, dir, SvgName(false, true), original, true),
     SvgFile(c, dir, SvgName(true, false), square, false),
     SvgFile(c, dir, SvgName(true, true), square, true)]
  }

  /** Everything generate_favicons writes for an RGB image, in order. */
  function Favicons(c: Config, dir: string, original: Image): (files: seq<File>)
    requires original.Valid()
    ensures |files| == 10
  {
    var square := MakeSquareCrop(original);
    IcoFiles(c, dir, square, false) + IcoFiles(c, dir, square, true) +
    [PngFile(c, dir, square, false), PngFile(c, dir, square, true)] + SvgFiles(c, dir, original)
  }

  /** get_output_dir: the output base joined with the input's stem. */
  function OutputDir(base: string, inputName: string): (dir: string)
    ensures |dir| > |base| && dir[..|base|] == base && dir[|base|] == '/'
    ensures dir[|base| + 1..] == Stem(inputName)
  {
    base + "/" + Stem(inputName)
  }

  /** The output directory is named after the input: adding back the
      input's suffix gives the input's name under the output base. */
  lemma OutputDirNamesInput(base: string, inputName: string)
    ensures OutputDir(base, inputName) + Suffix(inputName) == base + "/" + inputName
  {
    var prefix, stem, suffix := base + "/", Stem(inputName), Suffix(inputName);
    StemAndSuffix(inputName);
    assert prefix + stem + suffix == prefix + (stem + suffix);
  }

  /** The input as the program finds it: its file name, whether it exists,
      the size its header declares (None when it does not open as an
      image), and its pixels (None when they cannot be decoded, which
      Image.open does not notice: only the first use of the pixels fails). */
  datatype InputFile = InputFile(name: string, present: bool, header: Option<(nat, nat)>, decoded: Option<Image>) {
    /** Pixels that decode are a well-formed image of the declared size. */
    predicate Consistent() {
      decoded.Some? ==> decoded.value.Valid() && header == Some((decoded.value.width, decoded.value.height))
    }
  }

  function Validate(input: InputFile): Result<(), InputError> {
    ValidateInput(input.name, input.present, input.header)
  }

  /** Writing the groups one after another writes their concatenation. */
  lemma AppendInOrder(w: seq<File>, a: seq<File>, b: seq<File>, p: File, q: File, t: seq<File>)
    ensures w + a + b + [p] + [q] + t == w + (a + b + [p, q] + t)
  {
    assert [p] + [q] == [p, q];
  }

  lemma AppendFour(w: seq<File>, a: File, b: File, p: File, q: File)
    ensures w + [a] + [b] + [p] + [q] == w + [a, b, p, q]
  {
  }

  lemma FaviconsInParts(c: Config, dir: string, original: Image, square: Image)
    requires original.Valid() && square == MakeSquareCrop(original)
    ensures Favicons(c, dir, original) ==
      IcoFiles(c, dir, square, false) + IcoFiles(c, dir, square, true) +
      [PngFile(c, dir, square, false), PngFile(c, dir, square, true)] + SvgFiles(c, dir, original)
  {
  }

  /** Image.open on the input, then convert('RGB') unless the decoded image
      already is RGB. */
  method OpenRgb(decoded: Image) returns (original: Bitmap)
    requires decoded.Valid()
    ensures fresh(original) && fresh(original.buffer)
    ensures original.Valid() && original.mode == RGB && original.Snapshot() == ToRgb(decoded)
  {
    original := new Bitmap.FromImage(decoded);
    if original.mode != RGB {
      original := original.Convert(RGB);
    }
  }

  class FaviconGenerator {
    const quality: int
    const threshold: int
    const resize: Resampler
    const encode: Encoder
    const template: Template
    /** The files written so far, in order. */
    var written: seq<File>

    function Configuration(): Config {
      Config(quality, threshold, resize, encode, template)
    }

    constructor(quality: int, threshold: int, resize: Resampler, encode: Encoder)
      ensures Configuration() == Config(quality, threshold, resize, encode, Favicon()) && written == []
    {
      this.quality, this.threshold, this.resize, this.encode := quality, threshold, resize, encode;
      template := Favicon();
      written := [];
    }

    /** create_ico_files: one ICO per size, keyed when `transparent`. */
    method CreateIcoFiles(image: Image, dir: string, transparent: bool)
      requires image.Valid() && Configuration().Valid()
      modifies this
      ensures written == old(written) + IcoFiles(Configuration(), dir, image, transparent)
    {
      ghost var expected := IcoFiles(Configuration(), dir, image, transparent);
      for i := 0 to |IcoSizes|
        invariant written == old(written) + expected[..i]
      {
        var size := IcoSizes[i];
        var processed := new Bitmap.FromImage(resize(image, size, size));
        var filename;
        if transparent {
          processed := MakeTransparent(processed, threshold);
          filename := IcoName(size, true);
        } else {
          filename := IcoName(size, false);
        }
        written := written + [File(dir, filename, Picture(Ico, processed.Snapshot(), quality, false))];
        assert expected[..i + 1] == expected[..i] + [expected[i]];
      }
    }

    /** create_png_files: the 180 x 180 touch icon, keyed when
        `transparent`. */
    method CreatePngFile(image: Image, dir: string, transparent: bool)
      requires image.Valid() && Configuration().Valid()
      modifies this
      ensures written == old(written) + [PngFile(Configuration(), dir, image, transparent)]
    {
      var processed := new Bitmap.FromImage(resize(image, TouchSize, TouchSize));
      var filename;
      if transparent {
        processed := MakeTransparent(processed, threshold);
        filename := PngName(true);
      } else {
        filename := PngName(false);
      }
      written := written + [File(dir, filename, Picture(Png, processed.Snapshot(), quality, true))];
    }

    /** _create_svg_from_image. make_transparent converts an RGB image to a
        new one, but keys an RGBA image in place, so the caller's image is
        changed exactly when it is RGBA and `transparent` is set. */
    method CreateSvgFromImage(image: Bitmap, dir: string, name: string, transparent: bool)
      requires image.Valid() && Configuration().Valid()
      modifies this, image.buffer
      ensures written == old(written) + [SvgFile(Configuration(), dir, name, old(image.Snapshot()), transparent)]
      ensures image.Valid()
      ensures image.Snapshot() == if transparent && old(image.mode) == RGBA
                                  then Transparentize(old(image.Snapshot()), threshold)
                                  else old(image.Snapshot())
    {
      var target := image;
      if transparent {
        target := MakeTransparent(image, threshold);
      }
      var treated := target.Snapshot();
      var text := Document(template, treated.width, treated.height, encode(treated));
      written := written + [File(dir, name, Text(text))];
    }

    /** create_svg_files: the original and its square crop, each plain and
        keyed. The caller's RGB image is left as it was. */
    method CreateSvgFiles(image: Bitmap, dir: string)
      requires image.Valid() && image.mode == RGB && Configuration().Valid()
      modifies this, image.buffer
      ensures written == old(written) + SvgFiles(Configuration(), dir, old(image.Snapshot()))
      ensures image.Valid() && image.Snapshot() == old(image.Snapshot())
    {
      ghost var before, c, orig := written, Configuration(), image.Snapshot();
      CreateSvgFromImage(image, dir, SvgName(false, false), false);
      CreateSvgFromImage(image, dir, SvgName(false, true), true);
      var copy := new Bitmap.FromImage(image.Snapshot());
      var square := copy;
      if copy.width != copy.height {
        square := new Bitmap.FromImage(MakeSquareCrop(copy.Snapshot()));
      }
      ghost var sq := square.Snapshot();
      CreateSvgFromImage(square, dir, SvgName(true, false), false);
      CreateSvgFromImage(square, dir, SvgName(true, true), true);
      AppendFour(before, SvgFile(c, dir, SvgName(false, false), orig, false),
                 SvgFile(c, dir, SvgName(false, true), orig, true),
                 SvgFile(c, dir, SvgName(true, false), sq, false),
                 SvgFile(c, dir, SvgName(true, true), sq, true));
    }

    /** generate_favicons: validate, convert the decoded image to RGB, crop a
        square copy, then write the ICO, PNG and SVG files in order. */
    method GenerateFavicons(input: InputFile, outputBase: string) returns (success: bool)
      requires Configuration().Valid()
      requires input.Consistent()
      modifies this
      ensures success <==> Validate(input).Success? && input.decoded.Some?
      ensures success ==>
        written == old(written) + Favicons(Configuration(), OutputDir(outputBase, input.name),
                                           ToRgb(input.decoded.value))
      ensures !success ==> written == old(written)
    {
      if Validate(input).Failure? || input.decoded.None? {
        return false;
      }
      var original := OpenRgb(input.decoded.value);
      var dir := OutputDir(outputBase, input.name);
      var square := MakeSquareCrop(original.Snapshot());
      ghost var before, c, sq, orig := written, Configuration(), square, original.Snapshot();
      assert orig == ToRgb(input.decoded.value);
      CreateIcoFiles(square, dir, false);
      CreateIcoFiles(square, dir, true);
      CreatePngFile(square, dir, false);
      CreatePngFile(square, dir, true);
      CreateSvgFiles(original, dir);
      AppendInOrder(before, IcoFiles(c, dir, sq, false), IcoFiles(c, dir, sq, true),
                    PngFile(c, dir, sq, false), PngFile(c, dir, sq, true), SvgFiles(c, dir, orig));
      FaviconsInParts(c, dir, orig, sq);
      success := true;
    }
  }

  /** main after argument parsing: the range checks, then a generator run.
      The exit status is 0 exactly when the arguments are in range and the
      input is valid, and then all ten files have been written. */
  method Run(input: InputFile, outputBase: string, quality: int, threshold: int,
             resize: Resampler, encode: Encoder) returns (code: int, files: seq<File>)
    requires Resamples(resize) && Base64Text(encode)
    requires input.Consistent()
    ensures code == 0 || code == 1
    ensures code == 0 <==>
      CheckArguments(quality, threshold).Success? && Validate(input).Success? && input.decoded.Some?
    ensures code == 0 ==>
      files == Favicons(Config(quality, threshold, resize, encode, Favicon()), OutputDir(outputBase, input.name),
                        ToRgb(input.decoded.value))
    ensures code == 1 ==> files == []
  {
    if CheckArguments(quality, threshold).Failure? {
      return 1, [];
    }
    var generator := new FaviconGenerator(quality, threshold, resize, encode);
    var success := generator.GenerateFavicons(input, outputBase);
    code := if success then 0 else 1;
    files := generator.written;
  }

  /** The file names generate_favicons writes, in order. */
  const FaviconNameList: seq<string> := [
    "favicon-16.ico", "favicon-48.ico",
    "favicon-16-transparent.ico", "favicon-48-transparent.ico",
    "apple-touch-icon.png", "apple-touch-icon-transparent.png",
    "favicon-original.svg", "favicon-original-transparent.svg",
    "favicon-square.svg", "favicon-square-transparent.svg"]

  /** The names the name functions spell. */
  lemma IcoNamesSpelled()
    ensures IcoName(16, false) == "favicon-16.ico" && IcoName(48, false) == "favicon-48.ico"
    ensures IcoName(16, true) == "favicon-16-transparent.ico" && IcoName(48, true) == "favicon-48-transparent.ico"
  {
    assert Show(16) == "16" && Show(48) == "48";
  }

  /** Ten files, all in the output directory, with exactly these names. */
  lemma FaviconNames(c: Config, dir: string, original: Image)
    requires original.Valid()
    ensures forall i :: 0 <= i < 10 ==>
      Favicons(c, dir, original)[i].name == FaviconNameList[i] && Favicons(c, dir, original)[i].dir == dir
  {
    var square := MakeSquareCrop(original);
    var ico, icoT := IcoFiles(c, dir, square, false), IcoFiles(c, dir, square, true);
    var png := [PngFile(c, dir, square, false), PngFile(c, dir, square, true)];
    var svg := SvgFiles(c, dir, original);
    FaviconsInParts(c, dir, original, square);
    IcoNamesSpelled();
    var names := [ico[0].name, ico[1].name, icoT[0].name, icoT[1].name, png[0].name, png[1].name,
                  svg[0].name, svg[1].name, svg[2].name, svg[3].name];
    assert names == FaviconNameList;
    var files := ico + icoT + png + svg;
    forall i | 0 <= i < 10
      ensures files[i].name == names[i] && files[i].dir == dir
    {
      if i < 2 {
        assert files[i] == ico[i];
      } else if i < 4 {
        assert files[i] == icoT[i - 2];
      } else if i < 6 {
        assert files[i] == png[i - 4];
      } else {
        assert files[i] == svg[i - 6];
      }
    }
  }

  /** No two of the ten files share a name, so none overwrites another. */
  lemma FaviconNamesDistinct(c: Config, dir: string, original: Image)
    requires original.Valid()
    ensures forall i, j :: 0 <= i < j < 10 ==>
      Favicons(c, dir, original)[i].name != Favicons(c, dir, original)[j].name
  {
    FaviconNames(c, dir, original);
  }

  /** A picture output: the given format and side, square and well-formed,
      RGB for a plain file and RGBA for a transparent one, saved with the
      generator's quality, and optimize set for PNG only. */
  predicate PictureFile(f: File, format: Format, side: nat, transparent: bool, quality: int) {
    f.content.Picture? && f.content.format == format && f.content.quality == quality &&
    f.content.optimize == (format == Png) && f.content.image.Valid() &&
    f.content.image.width == side && f.content.image.height == side &&
    f.content.image.mode == (if transparent then RGBA else RGB)
  }

  /** The ten files one by one. */
  lemma FaviconsAt(c: Config, dir: string, original: Image)
    requires original.Valid()
    ensures var f := Favicons(c, dir, original); var square := MakeSquareCrop(original);
      f[0] == IcoFile(c, dir, square, 16, false) && f[1] == IcoFile(c, dir, square, 48, false) &&
      f[2] == IcoFile(c, dir, square, 16, true) && f[3] == IcoFile(c, dir, square, 48, true) &&
      f[4] == PngFile(c, dir, square, false) && f[5] == PngFile(c, dir, square, true) &&
      f[6..] == SvgFiles(c, dir, original)
  {
    var square := MakeSquareCrop(original);
    FaviconsInParts(c, dir, original, square);
    var ico, icoT := IcoFiles(c, dir, square, false), IcoFiles(c, dir, square, true);
    var png := [PngFile(c, dir, square, false), PngFile(c, dir, square, true)];
    var svg := SvgFiles(c, dir, original);
    var f := ico + icoT + png + svg;
    assert f[6..] == svg;
    assert f[..6] == ico + icoT + png;
  }

  /** Files 0 to 3 are the 16 and 48 pixel ICOs, plain then transparent;
      files 4 and 5 the 180 pixel PNGs; the last four are SVG text. */
  lemma FaviconPictures(c: Config, dir: string, original: Image)
    requires c.Valid() && original.Valid() && original.mode == RGB
    ensures var f := Favicons(c, dir, original);
      PictureFile(f[0], Ico, 16, false, c.quality) && PictureFile(f[1], Ico, 48, false, c.quality) &&
      PictureFile(f[2], Ico, 16, true, c.quality) && PictureFile(f[3], Ico, 48, true, c.quality) &&
      PictureFile(f[4], Png, TouchSize, false, c.quality) && PictureFile(f[5], Png, TouchSize, true, c.quality)
    ensures forall i :: 6 <= i < 10 ==> Favicons(c, dir, original)[i].content.Text?
  {
    FaviconsAt(c, dir, original);
    var f := Favicons(c, dir, original);
    forall i | 6 <= i < 10
      ensures f[i].content.Text?
    {
      assert f[i] == f[6..][i - 6];
    }
  }

  /** The plain pictures are the resampled square crop itself, and each
      transparent picture is its plain twin passed through make_transparent. */
  lemma TransparentTwins(c: Config, dir: string, original: Image)
    requires original.Valid()
    ensures var f := Favicons(c, dir, original); var square := MakeSquareCrop(original);
      f[0].content == Picture(Ico, c.resize(square, 16, 16), c.quality, false) &&
      f[1].content == Picture(Ico, c.resize(square, 48, 48), c.quality, false) &&
      f[4].content == Picture(Png, c.resize(square, TouchSize, TouchSize), c.quality, true)
    ensures var f := Favicons(c, dir, original);
      f[2].content == f[0].content.(image := Transparentize(f[0].content.image, c.threshold)) &&
      f[3].content == f[1].content.(image := Transparentize(f[1].content.image, c.threshold)) &&
      f[5].content == f[4].content.(image := Transparentize(f[4].content.image, c.threshold))
  {
    var square := MakeSquareCrop(original);
    FaviconsInParts(c, dir, original, square);
    var f := Favicons(c, dir, original);
    assert f[0] == IcoFile(c, dir, square, 16, false) && f[1] == IcoFile(c, dir, square, 48, false);
    assert f[2] == IcoFile(c, dir, square, 16, true) && f[3] == IcoFile(c, dir, square, 48, true);
    assert f[4] == PngFile(c, dir, square, false) && f[5] == PngFile(c, dir, square, true);
  }

  /** Read back, an SVG file declares the width, height and viewBox of
      the picture it wraps and embeds that picture's encoding, keyed by
      make_transparent in a transparent file. */
  lemma SvgFileReadsBack(c: Config, dir: string, name: string, img: Image, transparent: bool)
    requires Delimited(c.template) && Base64Text(c.encode)
    ensures var f := SvgFile(c, dir, name, img, transparent); var w, h := img.width, img.height;
      f.content.Text? &&
      Read(c.template, f.content.text) == Some(Header(w, h, w, h, c.encode(Treated(c, img, transparent)), w, h))
  {
    var treated := Treated(c, img, transparent);
    assert QuoteFree(c.encode(treated));
  }

  /** Read back, each SVG declares the width, height and viewBox of the
      picture it wraps -- the original for files 6 and 7, the square crop
      for files 8 and 9 -- and embeds that picture's encoding, keyed by
      make_transparent in the transparent files. */
  lemma SvgDimensions(c: Config, dir: string, original: Image)
    requires c.template == Favicon() && Base64Text(c.encode) && original.Valid()
    ensures var f := Favicons(c, dir, original); var w, h := original.width, original.height;
      f[6].content.Text? && f[7].content.Text? &&
      Read(c.template, f[6].content.text) == Some(Header(w, h, w, h, c.encode(original), w, h)) &&
      Read(c.template, f[7].content.text) ==
        Some(Header(w, h, w, h, c.encode(Transparentize(original, c.threshold)), w, h))
    ensures var f := Favicons(c, dir, original); var s := Min(original.width, original.height);
      var square := MakeSquareCrop(original);
      f[8].content.Text? && f[9].content.Text? &&
      Read(c.template, f[8].content.text) == Some(Header(s, s, s, s, c.encode(square), s, s)) &&
      Read(c.template, f[9].content.text) ==
        Some(Header(s, s, s, s, c.encode(Transparentize(square, c.threshold)), s, s))
  {
    var square := MakeSquareCrop(original);
    FaviconsAt(c, dir, original);
    var f := Favicons(c, dir, original);
    assert f[6] == f[6..][0] && f[7] == f[6..][1] && f[8] == f[6..][2] && f[9] == f[6..][3];
    SvgFileReadsBack(c, dir, SvgName(false, false), original, false);
    SvgFileReadsBack(c, dir, SvgName(false, true), original, true);
    SvgFileReadsBack(c, dir, SvgName(true, false), square, false);
    SvgFileReadsBack(c, dir, SvgName(true, true), square, true);
  }
}
