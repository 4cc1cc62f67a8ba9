/** The SVG wrapper of _create_svg_from_image: a fixed template whose
    width, height and viewBox are the embedded image's dimensions, and a
    reader that recovers those numbers from the text. */
module Svg {
  import opened Wrappers
  import opened Decimal
  import opened Raster

  const Quote: char := '"'

  /** The literal pieces of an SVG wrapper, in order; the numbers and the
      base64 payload go between them. */
  datatype Template = Template(prolog: string, heightAttr: string, viewBoxOpen: string,
                               space: string, imageOpen: string, imageWidth: string,
                               close: string)

  predicate NonDigitFirst(s: string) {
    s != [] && !IsDigit(s[0])
  }

  /** Every piece that follows a number starts with a non-digit, and the
      piece after the payload starts with a double quote. */
  predicate Delimited(t: Template) {
    NonDigitFirst(t.heightAttr) && NonDigitFirst(t.viewBoxOpen) && NonDigitFirst(t.space) &&
    NonDigitFirst(t.imageOpen) && NonDigitFirst(t.close) &&
    t.imageWidth != [] && t.imageWidth[0] == Quote
  }

  /** The program's wrapper: an XML declaration, an svg element with
      width, height and viewBox "0 0 width height", and an image element
      of the same width and height whose href is a base64 PNG data URI.
      The prolog is written one source line per literal. */
  function Favicon(): (t: Template)
    ensures Delimited(t)
  {
    var t := Template(
      "<?xml version=\"1.0\" encoding=\"UTF-8\"?>\n" +
      "<svg xmlns=\"http://www.w3.org/2000/svg\" \n" +
      "     xmlns:xlink=\"http://www.w3.org/1999/xlink\"\n" +
      "     width=\"",
      [Quote] + " height=\"",
      [Quote] + " \n     viewBox=\"0 0 ",
      " ",
      [Quote] + ">\n    <image xlink:href=\"data:image/png;base64,",
      [Quote] + " \n           width=\"",
      [Quote] + "/>\n</svg>");
    assert t.heightAttr[0] == Quote && t.viewBoxOpen[0] == Quote && t.imageOpen[0] == Quote;
    assert t.imageWidth[0] == Quote && t.close[0] == Quote;
    t
  }

  /** No double quote: true of every base64 text. */
  predicate QuoteFree(s: string) {
    forall i :: 0 <= i < |s| ==> s[i] != Quote
  }

  /** The part of the document from the image element on. */
  function ImageElement(t: Template, width: nat, height: nat, payload: string): string {
    t.imageOpen + (payload + (t.imageWidth + (Show(width) + (t.heightAttr + (Show(height) + t.close)))))
  }

  /** The text of a document for an image `width` by `height` whose PNG
      encoding, in base64, is `payload`. */
  function Layout(t: Template, width: nat, height: nat, payload: string): string {
    t.prolog + (Show(width) + (t.heightAttr + (Show(height) + (t.viewBoxOpen + (Show(width) +
    (t.space + (Show(height) + ImageElement(t, width, height, payload))))))))
  }

  /** What a reader sees in a document of this shape. */
  datatype Header = Header(width: nat, height: nat, viewWidth: nat, viewHeight: nat,
                           payload: string, imageWidth: nat, imageHeight: nat)

  /** Consume the literal `lit` at the front of `s`. */
  function Expect(lit: string, s: string): (r: Option<string>)
    ensures r.Some? ==> s == lit + r.value
  {
    if lit <= s then Some(s[|lit|..]) else None
  }

  /** Consume the literal `lit`, then read a numeral. */
  function Field(lit: string, s: string): Option<(nat, string)> {
    var r :- Expect(lit, s);
    ReadNat(r)
  }

  /** The length of the longest prefix without a double quote. */
  function SpanQuoteFree(s: string): (k: nat)
    ensures k <= |s| && QuoteFree(s[..k])
    ensures k < |s| ==> s[k] == Quote
  {
    if s != [] && s[0] != Quote then
      var k := 1 + SpanQuoteFree(s[1..]);
      assert s[..k] == [s[0]] + s[1..][..k - 1];
      k
    else 0
  }

  /** The opening svg element: width, height and the viewBox's width and
      height, and what follows. */
  function ReadSvgElement(t: Template, text: string): Option<(nat, nat, nat, nat, string)> {
    var w :- Field(t.prolog, text);
    var h :- Field(t.heightAttr, w.1);
    var vw :- Field(t.viewBoxOpen, h.1);
    var vh :- Field(t.space, vw.1);
    Some((w.0, h.0, vw.0, vh.0, vh.1))
  }

  /** The image element and the end of the document: the payload and the
      image's width and height. */
  function ReadImageElement(t: Template, s: string): Option<(string, nat, nat)> {
    var r :- Expect(t.imageOpen, s);
    var k := SpanQuoteFree(r);
    var iw :- Field(t.imageWidth, r[k..]);
    var ih :- Field(t.heightAttr, iw.1);
    var end :- Expect(t.close, ih.1);
    if end == [] then Some((r[..k], iw.0, ih.0)) else None
  }

  /** Parse a document of the template's shape. */
  function Read(t: Template, text: string): Option<Header> {
    var outer :- ReadSvgElement(t, text);
    var inner :- ReadImageElement(t, outer.4);
    Some(Header(outer.0, outer.1, outer.2, outer.3, inner.0, inner.1, inner.2))
  }

  lemma ExpectFront(lit: string, rest: string)
    ensures Expect(lit, lit + rest) == Some(rest)
  {
    assert lit <= lit + rest;
  }

  lemma FieldFront(lit: string, n: nat, rest: string)
    requires rest == [] || !IsDigit(rest[0])
    ensures Field(lit, lit + (Show(n) + rest)) == Some((n, rest))
  {
    ExpectFront(lit, Show(n) + rest);
    ReadShow(n, rest);
  }

  lemma {:induction false} SpanPayload(payload: string, rest: string)
    requires QuoteFree(payload) && rest != [] && rest[0] == Quote
    ensures SpanQuoteFree(payload + rest) == |payload|
    ensures (payload + rest)[..|payload|] == payload && (payload + rest)[|payload|..] == rest
  {
    if payload != [] {
      assert (payload + rest)[1..] == payload[1..] + rest;
      SpanPayload(payload[1..], rest);
    }
  }

  lemma ReadSvgElementFront(t: Template, width: nat, height: nat, rest: string)
    requires Delimited(t) && NonDigitFirst(rest)
    ensures ReadSvgElement(t, t.prolog + (Show(width) + (t.heightAttr + (Show(height) + (t.viewBoxOpen +
              (Show(width) + (t.space + (Show(height) + rest))))))))
         == Some((width, height, width, height, rest))
  {
    var s3 := Show(height) + rest;
    var s2 := Show(width) + (t.space + s3);
    var s1 := Show(height) + (t.viewBoxOpen + s2);
    FieldFront(t.prolog, width, t.heightAttr + s1);
    FieldFront(t.heightAttr, height, t.viewBoxOpen + s2);
    FieldFront(t.viewBoxOpen, width, t.space + s3);
    FieldFront(t.space, height, rest);
  }

  lemma ReadImageElementFront(t: Template, width: nat, height: nat, payload: string)
    requires Delimited(t) && QuoteFree(payload)
    ensures ReadImageElement(t, ImageElement(t, width, height, payload)) == Some((payload, width, height))
  {
    var t2 := Show(height) + t.close;
    var t1 := Show(width) + (t.heightAttr + t2);
    ExpectFront(t.imageOpen, payload + (t.imageWidth + t1));
    SpanPayload(payload, t.imageWidth + t1);
    FieldFront(t.imageWidth, width, t.heightAttr + t2);
    FieldFront(t.heightAttr, height, t.close);
    ExpectFront(t.close, []);
    assert t.close + [] == t.close;
  }

  lemma ReadLayout(t: Template, width: nat, height: nat, payload: string)
    ensures Delimited(t) && QuoteFree(payload) ==>
      Read(t, Layout(t, width, height, payload)) == Some(Header(width, height, width, height, payload, width, height))
  {
    if Delimited(t) && QuoteFree(payload) {
      ReadSvgElementFront(t, width, height, ImageElement(t, width, height, payload));
      ReadImageElementFront(t, width, height, payload);
    }
  }

  /** The document written for an image `width` by `height` whose PNG
      encoding, in base64, is `payload`. Read back, it gives its numbers
      and payload: width and height, the viewBox "0 0 width height", and
      the inner image's width and height. */
  function Document(t: Template, width: nat, height: nat, payload: string): (text: string)
    ensures Delimited(t) && QuoteFree(payload) ==>
      Read(t, text) == Some(Header(width, height, width, height, payload, width, height))
  {
    ReadLayout(t, width, height, payload);
    Layout(t, width, height, payload)
  }
}
