# Favicon generator, modelled in Dafny

`create_favicon.py` turns one JPEG into ten favicon files in an output
directory named after the input's stem:

- `favicon-16.ico` and `favicon-48.ico`, plus their `-transparent` twins;
- `apple-touch-icon.png` (180 × 180), plus its `-transparent` twin;
- four SVG wrappers that embed a base64 PNG of an image. Two wrap the
  original picture and two wrap its centred square crop, each plain and
  transparent.

The ICO and PNG files are cut from the centred square crop. "Transparent"
means the pixels whose red, green and blue all lie strictly above a threshold
become fully transparent white.

Before any work, the program checks four things about the input: that it
exists, that its suffix is `.jpg` or `.jpeg` in any case, that it opens as an
image, and that its declared size is at least 16 × 16. Opening reads only the
image's header, so pixels that do not decode are noticed later, when the
picture is first converted or copied, and the run then fails without writing
any file. The command line checks that the quality lies in 1..100 and
the threshold in 0..255.

The model keeps the program's structure:

| module | file | what it holds |
|---|---|---|
| `Raster` | raster.dfy | pixels, images as values (row-major, with the row arithmetic written as the recursive `Area`), `convert('RGBA')` and `convert('RGB')`, and a `Bitmap` class whose pixel buffer is an array overwritten in place |
| `SquareCrop` | square_crop.dfy | `make_square_crop`: the crop box and the crop itself |
| `Transparency` | transparency.dfy | `make_transparent`: the pointwise rule as functions, its loop as a method, and the in-place update of an RGBA bitmap |
| `Decimal` | decimal.dfy | how the f-strings write a number, and reading it back |
| `Svg` | svg.dfy | the SVG wrapper text, and a reader that recovers its dimensions and payload |
| `Validation` | validation.dfy | `validate_input` (`Path.suffix`, `Path.stem`, ASCII lower-casing) and main's range checks |
| `Pipeline` | pipeline.dfy | the `FaviconGenerator` class (its writers and `generate_favicons`), the plan of the ten files, and main's exit status |

Each writer appends a `File` record to the generator's `written` sequence.
A record holds the directory, the name and the content: an image with its
save options, or the SVG text. Each writer is proved to append exactly what
a pure plan function (`IcoFiles`, `PngFile`, `SvgFiles`, `Favicons`)
prescribes. The lemmas at the end of pipeline.dfy then state what that plan
contains.

## Model

| member | source | states |
|---|---|---|
| Raster.ToRgba | create_favicon.py:94-95 | converting to RGBA keeps the size and the pixels of a well-formed image (an RGB image's alpha is already 255), and the result is well-formed |
| Raster.ToRgb | create_favicon.py:298-299 | converting to RGB keeps the size and every colour, sets alpha to 255, yields a well-formed image, and leaves an RGB image unchanged |
| Raster.Bitmap.FromImage | create_favicon.py:186 | a copy is a fresh buffer that holds exactly the given image |
| Raster.Bitmap.Convert | create_favicon.py:94-95 | convert returns a fresh bitmap holding the converted image and leaves the receiver alone |
| Raster.Bitmap.PutData | create_favicon.py:109 | putdata overwrites the whole buffer with the new data, in order |
| SquareCrop.SquareBox | create_favicon.py:64-81 | the box lies inside the image, both sides equal min(width, height), it is centred with floor division, and it spans the full width (or height) on the short side |
| SquareCrop.CentredSquareIsUnique | create_favicon.py:69-81 | any box inside the image with side min(width, height) that is centred the same way is exactly that box |
| SquareCrop.Crop | create_favicon.py:76-81 | a crop is well-formed, keeps the mode, and has the box's width and height |
| SquareCrop.MakeSquareCrop | create_favicon.py:54-81 | the result is well-formed, square with side min(width, height), in the input's mode, and is the input itself when the input is already square |
| SquareCrop.CropAt | create_favicon.py:76-81 | pixel (x, y) of a crop is pixel (left + x, top + y) of the image |
| SquareCrop.CropWholeIsIdentity | create_favicon.py:66-67 | cropping with the whole image as the box gives the image back |
| SquareCrop.SquareCropAt | create_favicon.py:54-81 | pixel (x, y) of the square crop is the image pixel offset by the centred box's left and top |
| Transparency.Keyed | create_favicon.py:97-109 | the new pixel data has the old length and order: each near-white pixel becomes clear white, and every other pixel is copied |
| Transparency.Transparentize | create_favicon.py:83-110 | make_transparent gives an RGBA image of the same size whose pixels are the keyed pixels, and keeps it well-formed |
| Transparency.KeyedChanges | create_favicon.py:100-107 | a pixel changes exactly when it is near white and not already clear white |
| Transparency.ThresholdIsStrict | create_favicon.py:102-104 | a channel equal to the threshold keeps the pixel unchanged |
| Transparency.KeyedIdempotent | create_favicon.py:100-107 | keying twice with the same threshold equals keying once |
| Transparency.TransparentizeAlpha | create_favicon.py:93-107 | on an RGB image, the output alpha is 0 exactly at the near-white pixels; every other pixel is the original, still opaque |
| Transparency.TransparentizeIdempotent | create_favicon.py:83-110 | make_transparent applied twice equals applying it once |
| Transparency.KeyData | create_favicon.py:97-108 | the loop builds exactly the keyed pixel sequence |
| Transparency.MakeTransparent | create_favicon.py:83-110 | the result holds the transparentized image. An RGBA input is keyed in place and returned itself. Any other input is converted to a fresh bitmap, and its own buffer is left untouched |
| Decimal.Show | create_favicon.py:142-144 | a number is written as a non-empty string of digits with no leading zero |
| Decimal.ValueOfShow | create_favicon.py:142-144 | the digits written for n have value n |
| Decimal.ShowInjective | create_favicon.py:142-144 | different numbers are written differently |
| Decimal.ReadShow | create_favicon.py:212-215 | reading digits back from a written number followed by a non-digit gives the number and the rest |
| Svg.Favicon | create_favicon.py:209-216 | the program's wrapper template, literal for literal; every piece after a number starts with a non-digit, and the piece after the payload starts with a double quote |
| Svg.Document | create_favicon.py:208-216 | the wrapper written for width w, height h and a quote-free payload reads back as width w, height h, viewBox w h, that payload, and image width w and height h |
| Validation.LastDot | create_favicon.py:263 | the index of the last dot, or -1 when there is none: it is a dot, and no dot follows it |
| Validation.Suffix | create_favicon.py:263 | the suffix is empty exactly when the last dot is missing, leads the name or ends it; otherwise it is the tail of the name from the last dot on, with at least one character and no other dot after the dot |
| Validation.Stem | create_favicon.py:244 | the stem is a prefix of the name |
| Validation.StemAndSuffix | create_favicon.py:244 | the stem followed by the suffix is the name, and the stem is empty only for an empty name |
| Validation.Lower | create_favicon.py:263 | lower-casing maps each capital ASCII letter to its small letter and leaves every other character alone |
| Validation.LowerString | create_favicon.py:263 | a string is lower-cased character by character, keeping its length |
| Validation.JpegSuffixCases | create_favicon.py:263 | a suffix is accepted exactly when it is ".jpg" or ".jpeg", with each letter in either case |
| Validation.ValidateInput | create_favicon.py:249-276 | the input passes exactly when the file exists, the suffix is accepted, it opens as an image, and both declared sides are at least 16. Each failure is the first one in the source's order: missing, then wrong suffix (carrying the suffix), then unreadable, then too small (carrying the size) |
| Validation.CheckArguments | create_favicon.py:374-380 | the arguments pass exactly when quality is in 1..100 and the threshold in 0..255. The quality error is reported first, and the values are carried through unchanged |
| Validation.DefaultsAccepted | create_favicon.py:360-367 | main's default quality 95 and threshold 240 pass its range checks |
| Pipeline.IcoNameReadsBack | create_favicon.py:142-144 | an ICO name is "favicon-", then the size in decimal, then "-transparent.ico" or ".ico"; reading the number back gives the size |
| Pipeline.IcoFile | create_favicon.py:137-147 | from a well-formed RGB square, an ICO of size s holds a well-formed s × s picture, RGB when plain and RGBA when transparent, saved with the generator's quality and without optimize |
| Pipeline.PngFile | create_favicon.py:160-170 | from a well-formed RGB square, the touch icon holds a well-formed 180 × 180 picture, RGB when plain and RGBA when transparent, saved with the generator's quality and with optimize |
| Pipeline.OutputDir | create_favicon.py:244-245 | the output directory is the output base, a "/", then the input's stem |
| Pipeline.OutputDirNamesInput | create_favicon.py:244-245 | the output directory followed by the input's suffix is the input's name under the output base |
| Pipeline.IcoFiles | create_favicon.py:125-148 | create_ico_files writes one file per ICO size, two in all |
| Pipeline.SvgFiles | create_favicon.py:173-188 | create_svg_files writes four files |
| Pipeline.Favicons | create_favicon.py:278-328 | generate_favicons writes ten files |
| Pipeline.OpenRgb | create_favicon.py:296-299 | the opened image is a fresh well-formed RGB bitmap that holds the decoded image converted to RGB |
| Pipeline.FaviconGenerator.constructor | create_favicon.py:29-39 | the generator keeps its quality and threshold, and has written nothing yet |
| Pipeline.FaviconGenerator.CreateIcoFiles | create_favicon.py:125-148 | the loop appends, in size order, exactly the planned ICO files |
| Pipeline.FaviconGenerator.CreatePngFile | create_favicon.py:150-171 | appends exactly the planned touch icon |
| Pipeline.FaviconGenerator.CreateSvgFromImage | create_favicon.py:190-225 | appends the wrapper of the (keyed) image. The caller's image changes exactly when it is RGBA and transparency is asked for |
| Pipeline.FaviconGenerator.CreateSvgFiles | create_favicon.py:173-188 | appends exactly the four planned SVG files, and leaves the caller's RGB image as it was |
| Pipeline.FaviconGenerator.GenerateFavicons | create_favicon.py:278-328 | succeeds exactly when the input is valid and its pixels decode. It then appends the ten planned files for the RGB-converted input; otherwise it writes nothing |
| Pipeline.Run | create_favicon.py:374-396 | the exit status is 0 or 1. It is 0 exactly when the arguments are in range, the input is valid and its pixels decode, and then the ten planned files were written; with status 1, nothing was written |
| Pipeline.IcoNamesSpelled | create_favicon.py:142-144 | the ICO names for sizes 16 and 48, spelled out |
| Pipeline.FaviconNames | create_favicon.py:135-188 | the ten files all go to the output directory, with these names in this order |
| Pipeline.FaviconNamesDistinct | create_favicon.py:135-188 | no two of the ten files share a name |
| Pipeline.FaviconsAt | create_favicon.py:305-321 | the ten files in order: plain ICOs, transparent ICOs, plain and transparent PNG, then the SVG files |
| Pipeline.FaviconPictures | create_favicon.py:125-188 | files 0 to 3 are the 16 and 48 pixel ICOs, files 4 and 5 the 180 pixel PNGs, and files 6 to 9 SVG text, each of the promised shape |
| Pipeline.TransparentTwins | create_favicon.py:137-170 | the plain pictures are the square crop resampled to the size, and each transparent picture is its plain twin passed through make_transparent |
| Pipeline.SvgFileReadsBack | create_favicon.py:190-216 | an SVG file read back declares its picture's width, height and viewBox, and embeds the encoding of that picture, keyed when transparent |
| Pipeline.SvgDimensions | create_favicon.py:173-216 | read back, the two original SVGs declare the original's width and height (as width, height, viewBox and image size), and the two square SVGs declare the square crop's side. Each embeds the encoding of its (keyed) image |

## Left out

- Decoding, LANCZOS resampling and the ICO and PNG encoders of the image library are not modelled. Resampling is a function parameter, known only to return a well-formed image of the requested size and the input's mode. The saved files are records of the image and its save options, not bytes.
- The PNG encoding and base64 step that produce the SVG payload are not modelled. They are a function parameter, known only to produce text without a double quote.
- The temporary `.temp.png` file, `mkdir`, writing and deleting files, logging, argparse, `print` and `sys.exit` are not modelled. Writing is modelled as appending to `written`, and exiting as the returned status.
- Exceptions are modelled only where the model can tell them apart. A file that does not open as an image is the `Unreadable` outcome of validation. Pixels that fail to decode after validation make `generate_favicons` return False before anything is written. A failure while resizing, encoding or writing also makes `generate_favicons` return False; it is not modelled.
- Pipeline.OutputDir: joins the base and the stem with "/". It does not normalise paths.
- Validation.Suffix: takes the name as its final path component. The classic `Path.suffix` rule applies: a dot that leads the name or ends it starts no suffix.
- Validation.IsJpegSuffix: lower-cases ASCII letters only. No other character lower-cases to j, p, e or g, so the accept/reject result is the same as the program's.
- Image modes other than RGB and RGBA are not modelled. A decoded image is RGB or RGBA, and `convert('RGB')` is modelled as setting alpha to 255.
- Pipeline.FaviconGenerator: the wrapper template is a field set to `Favicon()` by the constructor; in the program the literal is written inside `_create_svg_from_image`.
- The `quality` option is only recorded on each picture file; its effect on the encoders is not modelled.
