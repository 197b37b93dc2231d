/** The image half of `generate_qr` (src/main.rs:395-430): the grayscale QR
    raster is recoloured pixel by pixel when the record names a colour, the
    image is PNG-encoded and Base64-encoded, and the text is returned as a
    `data:` URI. The QR symbol, PNG and Base64 encoders are foreign code and
    enter as function parameters. */
module Raster {
  import opened Common
  import Utf8
  import opened Colour
  import opened VCard

  /** A `width` x `height` image held row by row, `rows[y][x]` being the
      pixel at column `x` of row `y`, as `ImageBuffer::get_pixel(x, y)`. */
  datatype Image<P> = Image(width: nat, height: nat, rows: seq<seq<P>>) {
    /** Exactly `height` rows of exactly `width` pixels. */
    predicate Valid() {
      |rows| == height && forall y :: 0 <= y < |rows| ==> |rows[y]| == width
    }

    predicate InBounds(x: nat, y: nat) {
      y < |rows| && x < |rows[y]|
    }
  }

  /** The closure handed to `ImageBuffer::from_fn`: a dark module (luma 0)
      takes the colour, every other pixel is white. */
  function RecolourPixel(luma: Byte, c: Rgb): (p: Rgb)
    ensures p == c <==> luma == 0 || c == White
    ensures p == White <==> luma != 0 || c == White
  {
    if luma == 0 then c else White
  }

  /** `ImageBuffer::from_fn(width, height, ..)` over the QR raster: an image of
      the same size whose pixel at `(x, y)` is the closure applied to the
      gray pixel at `(x, y)`. */
  function Recolour(img: Image<Byte>, c: Rgb): (out: Image<Rgb>)
    ensures out.width == img.width && out.height == img.height
    ensures |out.rows| == |img.rows|
    ensures forall y :: 0 <= y < |img.rows| ==> |out.rows[y]| == |img.rows[y]|
    ensures forall x: nat, y: nat :: img.InBounds(x, y) ==>
      out.rows[y][x] == RecolourPixel(img.rows[y][x], c)
  {
    Image(img.width, img.height,
      seq(|img.rows|, y requires 0 <= y < |img.rows| =>
        seq(|img.rows[y]|, x requires 0 <= x < |img.rows[y]| => RecolourPixel(img.rows[y][x], c))))
  }

  /** The recoloured image is a well-formed image of the same size. */
  lemma RecolourValid(img: Image<Byte>, c: Rgb)
    requires img.Valid()
    ensures Recolour(img, c).Valid()
    ensures Recolour(img, c).width == img.width && Recolour(img, c).height == img.height
  {
    var out := Recolour(img, c);
    forall y | 0 <= y < |out.rows| ensures |out.rows[y]| == out.width {
      assert |img.rows[y]| == img.width;
    }
  }

  /** Only two colours occur in the recoloured image: the chosen one and
      white. */
  lemma RecolourTwoColours(img: Image<Byte>, c: Rgb, x: nat, y: nat)
    requires img.InBounds(x, y)
    ensures Recolour(img, c).rows[y][x] in {c, White}
  {
  }

  /** Unless the colour is white, a pixel of the result has the colour
      exactly when the QR pixel was dark: the dark modules can be read back
      from the coloured image. */
  lemma RecolourDarkModules(img: Image<Byte>, c: Rgb, x: nat, y: nat)
    requires c != White && img.InBounds(x, y)
    ensures Recolour(img, c).rows[y][x] == c <==> img.rows[y][x] == 0
    ensures Recolour(img, c).rows[y][x] == White <==> img.rows[y][x] != 0
  {
  }

  /** Every pixel of a QR raster is black (0) or white (255). */
  predicate BiLevel(img: Image<Byte>) {
    forall y, x :: 0 <= y < |img.rows| && 0 <= x < |img.rows[y]| ==>
      img.rows[y][x] == 0 || img.rows[y][x] == 255
  }

  /** The same gray image as RGB, each luma `v` becoming `(v, v, v)`. */
  function GrayToRgb(img: Image<Byte>): (out: Image<Rgb>)
    ensures out.width == img.width && out.height == img.height && |out.rows| == |img.rows|
    ensures forall y :: 0 <= y < |img.rows| ==> |out.rows[y]| == |img.rows[y]|
  {
    Image(img.width, img.height,
      seq(|img.rows|, y requires 0 <= y < |img.rows| =>
        seq(|img.rows[y]|, x requires 0 <= x < |img.rows[y]| =>
          Rgb(img.rows[y][x], img.rows[y][x], img.rows[y][x]))))
  }

  /** Asking for black reproduces the plain black-on-white code: on a
      two-level raster, recolouring with `#000000` is the gray image seen
      as RGB. */
  lemma RecolourBlack(img: Image<Byte>)
    requires BiLevel(img)
    ensures Recolour(img, Black) == GrayToRgb(img)
  {
    var a := Recolour(img, Black);
    var b := GrayToRgb(img);
    forall y | 0 <= y < |img.rows| ensures a.rows[y] == b.rows[y] {
      forall x | 0 <= x < |img.rows[y]| ensures a.rows[y][x] == b.rows[y][x] {
        assert img.InBounds(x, y);
      }
    }
  }

  /** The two kinds of image `generate_qr` can encode. */
  datatype DynamicImage = ImageLuma8(luma: Image<Byte>) | ImageRgb8(rgb: Image<Rgb>)

  /** The colour step: without a colour the gray raster passes through;
      with one (even the empty string, which resolves to black) the raster
      is recoloured, and a colour whose slicing panics aborts the request. */
  function Colourise(qr: Image<Byte>, color: Option<string>): (r: Panicking<DynamicImage>)
    ensures color.None? ==> r == Returns(ImageLuma8(qr))
    ensures color.Some? ==> (r.Panics? <==> ParseColor(color.value).Panics?)
    ensures color.Some? && r.Returns? ==>
      r.value == ImageRgb8(Recolour(qr, ParseColor(color.value).value))
  {
    match color
    case None => Returns(ImageLuma8(qr))
    case Some(s) =>
      match ParseColor(s)
      case Panics => Panics
      case Returns(c) => Returns(ImageRgb8(Recolour(qr, c)))
  }

  /** The colour step keeps the size of the code and never panics on an
      ASCII colour. */
  lemma ColouriseSize(qr: Image<Byte>, color: Option<string>)
    requires qr.Valid()
    requires color.Some? ==> Utf8.IsAscii(color.value)
    ensures Colourise(qr, color).Returns?
    ensures match Colourise(qr, color).value
      case ImageLuma8(g) => g == qr
      case ImageRgb8(img) => img.Valid() && img.width == qr.width && img.height == qr.height
  {
    if color.Some? {
      ParseColorAsciiTotal(color.value);
      RecolourValid(qr, ParseColor(color.value).value);
    }
  }

  /** The prefix of the returned text: a PNG image, Base64-encoded. */
  const DataUriPrefix: string := "data:image/png;base64,"

  /** `format!("data:image/png;base64,{}", payload)`. */
  function DataUri(payload: string): (r: string)
    ensures |r| == |DataUriPrefix| + |payload|
    ensures r[..|DataUriPrefix|] == DataUriPrefix && r[|DataUriPrefix|..] == payload
  {
    DataUriPrefix + payload
  }

  /** The inverse reading: the payload of a text carrying the prefix. */
  function DataUriPayload(uri: string): (r: Option<string>)
    ensures r.Some? ==> |r.value| == |uri| - |DataUriPrefix|
  {
    if |DataUriPrefix| <= |uri| && uri[..|DataUriPrefix|] == DataUriPrefix
    then Some(uri[|DataUriPrefix|..])
    else None
  }

  /** Reading the payload of a data URI gives back what was wrapped. */
  lemma DataUriRoundTrip(payload: string)
    ensures DataUriPayload(DataUri(payload)) == Some(payload)
  {
    var u := DataUri(payload);
    assert u[..|DataUriPrefix|] == DataUriPrefix;
    assert u[|DataUriPrefix|..] == payload;
  }

  /** A text is a data URI exactly when its payload can be read, and it is
      the wrapping of that payload. */
  lemma DataUriPayloadInverse(uri: string)
    ensures DataUriPayload(uri).Some? <==> (exists p :: DataUri(p) == uri)
    ensures DataUriPayload(uri).Some? ==> DataUri(DataUriPayload(uri).value) == uri
  {
    if DataUriPayload(uri).Some? {
      var p := DataUriPayload(uri).value;
      assert DataUri(p) == uri;
    } else {
      forall p ensures DataUri(p) != uri {
        DataUriRoundTrip(p);
      }
    }
  }

  /** Distinct payloads give distinct texts. */
  lemma DataUriInjective(p: string, q: string)
    ensures DataUri(p) == DataUri(q) ==> p == q
  {
    DataUriRoundTrip(p);
    DataUriRoundTrip(q);
  }

  /** The outcomes of `generate_qr` once the record is stored: the JSON
      `image` text, a 500 status, or a panic of the handler. */
  datatype QrResponse = Ok(image: string) | InternalServerError | Panic

  /** `generate_qr` after the database insert: the card text, as UTF-8
      bytes, is turned into a QR raster by `symbol`; the colour step runs;
      the image is PNG-encoded by `png` and Base64-encoded by `base64`; a
      failure of `symbol` or of `png` is a 500. */
  function GenerateQr(data: VCardData, symbol: seq<Byte> -> Option<Image<Byte>>,
                      png: DynamicImage -> Option<seq<Byte>>, base64: seq<Byte> -> string): (r: QrResponse)
    ensures symbol(Utf8.Encode(VCardText(data))).None? ==> r == InternalServerError
    ensures r == Panic <==>
      symbol(Utf8.Encode(VCardText(data))).Some? && data.color.Some? && ParseColor(data.color.value).Panics?
    ensures r.Ok? ==> DataUriPayload(r.image).Some?
  {
    match symbol(Utf8.Encode(VCardText(data)))
    case None => InternalServerError
    case Some(qr) =>
      match Colourise(qr, data.color)
      case Panics => Panic
      case Returns(img) =>
        match png(img)
        case None => InternalServerError
        case Some(bytes) => Ok(DataUri(base64(bytes)))
  }

  /** A successful answer is the data URI of the Base64 text of the PNG of
      the (possibly recoloured) raster of the card's QR code. */
  lemma GenerateQrOk(data: VCardData, symbol: seq<Byte> -> Option<Image<Byte>>,
                     png: DynamicImage -> Option<seq<Byte>>, base64: seq<Byte> -> string)
    requires GenerateQr(data, symbol, png, base64).Ok?
    ensures var qr := symbol(Utf8.Encode(VCardText(data)));
      qr.Some? && Colourise(qr.value, data.color).Returns?
      && png(Colourise(qr.value, data.color).value).Some?
      && DataUriPayload(GenerateQr(data, symbol, png, base64).image)
         == Some(base64(png(Colourise(qr.value, data.color).value).value))
  {
    var qr := symbol(Utf8.Encode(VCardText(data))).value;
    var img := Colourise(qr, data.color).value;
    DataUriRoundTrip(base64(png(img).value));
  }

  /** The colour is read only once the QR code exists: a card too large for
      a QR symbol is a 500 whatever the colour, even one that would panic. */
  lemma GenerateQrSymbolFirst(data: VCardData, symbol: seq<Byte> -> Option<Image<Byte>>,
                              png: DynamicImage -> Option<seq<Byte>>, base64: seq<Byte> -> string)
    requires symbol(Utf8.Encode(VCardText(data))).None?
    ensures GenerateQr(data, symbol, png, base64) == InternalServerError
  {
  }

  /** With an ASCII colour or none, the handler does not panic. */
  lemma GenerateQrNoPanic(data: VCardData, symbol: seq<Byte> -> Option<Image<Byte>>,
                          png: DynamicImage -> Option<seq<Byte>>, base64: seq<Byte> -> string)
    requires data.color.Some? ==> Utf8.IsAscii(data.color.value)
    ensures GenerateQr(data, symbol, png, base64) != Panic
  {
    if data.color.Some? {
      ParseColorAsciiTotal(data.color.value);
    }
  }
}
