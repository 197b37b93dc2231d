# vcard-qr-generator: the contact-to-image pipeline in Dafny

The vcard-qr-generator web service takes a contact record (`VCardData`),
writes it out as a vCard 3.0 text, and encodes that text as a QR code. The
QR code is returned as a PNG `data:` URI and can be recoloured. This project
models the part of `src/main.rs` that transforms data:

- `generate_vcard` is the imperative method `VCard.GenerateVCard`. It
  appends lines to a string variable, as the Rust code does with `push_str`.
  It is proved equal to the function `VCard.VCardText`, which states the card
  as a sequence of properties (`VCard.Properties`). `VCardFacts` proves what
  the card holds:
  - the envelope;
  - the two name lines right after the header;
  - one property per populated field, in a fixed order (these are the
    text's lines only when no field holds a line feed, `VCardFacts.CardLines`);
  - values copied verbatim;
  - a reader (`VCardFacts.ParseCard`) that recovers the properties exactly
    when no value holds a line feed.
- `parse_color` is `Colour.ParseColor`. It works on the UTF-8 bytes of the
  string (module `Utf8`), because Rust's `len()` counts bytes and `&hex[a..b]`
  slices bytes. It follows the code's rules:
  - every leading `#` is stripped;
  - any length other than 6 bytes gives black;
  - each pair goes through a model of `u8::from_str_radix(_, 16)`, and a bad
    pair gives 0 for its own channel only;
  - a pair boundary inside a multi-byte character is a panic (`Panics`).
- The recolouring closure of `generate_qr` is `Raster.Recolour`, over a
  width x height grid of luma bytes. Choosing between the gray and the
  coloured image is `Raster.Colourise`. The `data:image/png;base64,` wrap is
  `Raster.DataUri`. `Raster.GenerateQr` chains these steps. It takes the QR
  symbol encoder, the PNG encoder and the Base64 encoder as function
  parameters.

Where the code and its written description differ, the model follows the code:

- `parse_color` strips every leading `#`, not just one.
- The length test counts bytes, not characters.
- One leading `+` is accepted in a pair, so `+F` reads as 15.
- Values are not escaped. RFC 2426 (section 4) requires `,`, `;` and line
  breaks inside values to be escaped, but a value holding a line feed here
  splits its line (`VCardFacts.ReadBack`).
- Lines end in LF, not CRLF. No line ends the card after `END:VCARD`.
- A field is dropped only when it is `None` or exactly `""`.
  Whitespace-only values are kept.
- In `parse_color` a malformed pair gives 0 for its own channel only; the
  other channels keep their values. It does not turn the whole colour black.
- `parse_color` is not total: when the six bytes left after the markers have
  a pair boundary inside a multi-byte character, the slice panics and the
  request is aborted (`Colour.ParseColor`, `Raster.Colourise`).

## Model

| member | source | states |
|---|---|---|
| VCard.GenerateVCard | src/main.rs:79-139 | the text built step by step is exactly `VCardText(data)`: the envelope around the lines of `Properties(data)` |
| VCard.PushOptional | src/main.rs:87-115 | one guarded `push_str`: the field's `NAME:value` line is appended exactly when the field is `Some` of a non-empty string, otherwise nothing is appended |
| VCard.PushAddress | src/main.rs:117-128 | the `ADR;TYPE=WORK:;;street;city;state;;;` line is appended exactly when one of street, city or state is a non-empty `Some`; a missing part is an empty slot |
| VCardFacts.CardEnvelope | src/main.rs:80-84 | every card is `BEGIN:VCARD\nVERSION:3.0\n`, then the FN line `first last`, then the N line `last;first;;;`, then the optional lines, then `END:VCARD`; its last character is `D` (no trailing newline) |
| VCardFacts.MandatoryOnly | src/main.rs:86-137 | with no optional field populated, the card is exactly the header, the FN and N lines and `END:VCARD` |
| VCardFacts.FieldLines | src/main.rs:87-135 | for each kind of line, the card's properties hold exactly one property of that kind, carrying the field verbatim, when the record populates it, and none otherwise; FN and N always occur (these are the text's lines only when no field holds an LF, see `VCardFacts.CardLines`) |
| VCardFacts.PropertiesCanonical | src/main.rs:83-135 | the lines are those of an independent per-kind reading that walks FN, N, TEL;CELL, TEL;WORK, EMAIL, ORG, TITLE, ADR, URL and keeps each kind the record emits |
| VCardFacts.PropertiesAscending | src/main.rs:86-135 | the kinds of the card's properties strictly increase in the order FN, N, CELL, WORK, EMAIL, ORG, TITLE, ADR, URL (the text's lines only when no field holds an LF, see `VCardFacts.CardLines`) |
| VCardFacts.CardTextLines | src/main.rs:80-137 | when no property value holds an LF, splitting the card text on LF gives exactly `BEGIN:VCARD`, `VERSION:3.0`, one `NAME:value` line per property, and `END:VCARD` |
| VCardFacts.CardLines | src/main.rs:80-137 | when no field of the record holds an LF, the text's lines are exactly the envelope lines around one line per property of `Properties(d)`, so the per-kind and ordering facts hold of the text |
| VCardFacts.ParseCardText | src/main.rs:79-139 | reading a card text back (split on LF, check the envelope, split each line at its first `:`) gives the properties written iff no value holds an LF |
| VCardFacts.ReadBack | src/main.rs:83-133 | the text of a record reads back to its properties iff none of its fields holds an LF, since values are copied without escaping |
| VCardFacts.PropertiesLineBreakFree | src/main.rs:83-133 | the values on the card are LF-free iff every field of the record is |
| Colour.ParseColorBytes | src/main.rs:141-151 | on the bytes of the colour: it panics iff the six bytes left after the markers have byte 2 or byte 4 inside a character; a remainder whose length is not 6 gives black; otherwise each channel is its pair's hex value or 0 |
| Colour.ParseColor | src/main.rs:141-151 | `parse_color` on the UTF-8 bytes of the string: it panics exactly when a pair boundary of the six remaining bytes cuts a character |
| Colour.TrimStartHashes | src/main.rs:142 | `trim_start_matches('#')`: the result is a suffix of the input, everything removed is `#`, and the result does not start with `#` |
| Colour.U8FromStrRadix16 | src/main.rs:144-146 | on a two-byte slice, `u8::from_str_radix(_, 16)` is the value of two hex digits, or of one digit after a `+` sign, and an error otherwise |
| Colour.ParseColorIgnoresMarker | src/main.rs:142 | a leading `#` never changes the colour, so any number of them is stripped |
| Colour.ParseColorWrongLength | src/main.rs:143-150 | after the markers, any remainder whose UTF-8 length is not 6 bytes gives `(0,0,0)` |
| Colour.ParseColorPairs | src/main.rs:143-147 | a 6-character ASCII remainder gives, per channel, the value of its pair, or 0 when that pair alone is malformed |
| Colour.ParseColorSixNonAscii | src/main.rs:143 | six characters of which one is not ASCII are more than six bytes, so they give black |
| Colour.ParseColorNonAsciiPairExample | src/main.rs:144-146 | `é` then `abcd` is 6 bytes with intact pair boundaries; the pair `é` is malformed and reads as 0, giving `(0,171,205)` |
| Colour.ParseColorAsciiTotal | src/main.rs:141-151 | colour parsing never panics on ASCII input |
| Colour.ParseFormatColor | src/main.rs:141-151 | round trip: every colour spelled `RRGGBB` in upper or lower case, after any number of `#`, parses back to that colour |
| Colour.ParseColorBadPairExample | src/main.rs:144-146 | `#GG00FF` gives `(0,0,255)`: the bad red pair zeroes red only |
| Colour.ParseColorSignExample | src/main.rs:144-146 | `+F-1ff` gives `(15,0,255)`: `+F` is accepted and `-1` is malformed |
| Colour.ParseColorTwoMarkersExample | src/main.rs:142 | `##ff8800` gives `(255,136,0)` |
| Colour.ParseColorShortExample | src/main.rs:143-150 | `#FFF` is not expanded: it gives black |
| Colour.ParseColorPanicExample | src/main.rs:143-144 | `a` then `é` then `bcd` is 6 bytes whose first pair ends inside `é`, so the slice panics |
| Raster.RecolourPixel | src/main.rs:407-413 | the closure: the result is the colour iff the luma is 0 (or the colour is white), and white iff the luma is not 0 (or the colour is white) |
| Raster.Recolour | src/main.rs:403-414 | `ImageBuffer::from_fn` with the closure: same width and height, and each pixel is the colour where the gray pixel is 0, white elsewhere |
| Raster.RecolourValid | src/main.rs:403-406 | the recoloured image is a well-formed image of the input's width and height |
| Raster.RecolourTwoColours | src/main.rs:407-413 | only the chosen colour and white occur |
| Raster.RecolourDarkModules | src/main.rs:407-413 | for any colour but white, a pixel has the colour iff the QR pixel was dark, and is white iff it was light |
| Raster.RecolourBlack | src/main.rs:403-414 | on a black-and-white raster, recolouring with black gives the gray image seen as RGB |
| Raster.Colourise | src/main.rs:402-418 | no colour: the gray image passes through; a colour: the recoloured image, and a panic exactly when parsing the colour panics |
| Raster.ColouriseSize | src/main.rs:402-418 | with no colour or an ASCII colour, the step does not panic and keeps the image size |
| Raster.DataUri | src/main.rs:428 | the text is `data:image/png;base64,` followed by the payload, and its length is the sum of both |
| Raster.DataUriRoundTrip | src/main.rs:428 | the payload read from `data:image/png;base64,` + payload is that payload |
| Raster.DataUriPayloadInverse | src/main.rs:428 | a text has a readable payload iff it is the wrap of some payload, and then it is the wrap of that payload |
| Raster.DataUriInjective | src/main.rs:428 | distinct payloads give distinct URIs |
| Raster.GenerateQr | src/main.rs:395-430 | no QR symbol for the card's bytes gives a 500; the handler panics iff a symbol exists and the colour given panics; a success is a text from which a payload can be read as a data URI |
| Raster.GenerateQrOk | src/main.rs:395-430 | a successful answer is the data URI of the Base64 text of the PNG of the (recoloured) QR raster of the card's UTF-8 bytes |
| Raster.GenerateQrSymbolFirst | src/main.rs:397-398 | when no QR symbol can hold the card, the answer is a 500, whatever the colour |
| Raster.GenerateQrNoPanic | src/main.rs:402-418 | with no colour or an ASCII colour, the handler does not panic |

## Left out

- Authentication, sessions, routing, static pages and `main` are not modelled. They are HTTP and configuration plumbing.
- The database insert before the QR step is not modelled. It is SQLite I/O.
- `src/auth.rs` and `src/bin/gen_hash.rs` are not modelled. They are session and bcrypt wrappers.
- QR symbol construction and rendering (`QrCode::new`, `render`) are the parameter `symbol` of `Raster.GenerateQr`. They follow ISO/IEC 18004 inside the `qrcode` crate. The raster it returns is an arbitrary grid, and `Raster.RecolourBlack` assumes it is black and white.
- PNG encoding and Base64 (section 4 of RFC 4648) are the parameters `png` and `base64` of `Raster.GenerateQr`. They are foreign code.
- Raster.Recolour: `u32` image dimensions are unbounded naturals. The model does not state the `u32` limit.
- JSON (de)serialisation of the request and response is not modelled. Strings are sequences of Unicode scalar values, encoded to UTF-8 by `Utf8.Encode`.
