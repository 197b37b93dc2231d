/** `generate_vcard` (src/main.rs:79-139): a contact record written out as a
    vCard 3.0 text, one `NAME:value` line per populated field. */
module VCard {
  import opened Common
  import opened Lines

  /** The request body `VCardData`: two mandatory names and optional fields.
      `color` is not part of the card; the image step reads it. */
  datatype VCardData = VCardData(
    firstName: string, lastName: string,
    mobile: Option<string>, work: Option<string>, email: Option<string>,
    company: Option<string>, role: Option<string>,
    street: Option<string>, city: Option<string>, state: Option<string>,
    website: Option<string>, color: Option<string>)

  /** The kinds of line a card can hold, in the order they are written. */
  datatype PropName = FN | N | TelCell | TelWork | Email | Org | Title | Adr | Url {
    /** The line's name and parameters, up to the `:`. */
    function Text(): (t: string)
      ensures t != [] && ':' !in t && '\n' !in t
    {
      match this
      case FN => "FN"
      case N => "N"
      case TelCell => "TEL;TYPE=CELL"
      case TelWork => "TEL;TYPE=WORK"
      case Email => "EMAIL"
      case Org => "ORG"
      case Title => "TITLE"
      case Adr => "ADR;TYPE=WORK"
      case Url => "URL"
    }
  }

  /** Every kind once, in writing order. */
  const Order: seq<PropName> := [FN, N, TelCell, TelWork, Email, Org, Title, Adr, Url]

  /** One content line of the card: `name:value`. */
  datatype Property = Property(name: PropName, value: string)

  function PropertyLine(p: Property): string {
    p.name.Text() + ":" + p.value
  }

  function PropertyLines(ps: seq<Property>): (r: seq<string>)
    ensures |r| == |ps| && forall i :: 0 <= i < |ps| ==> r[i] == PropertyLine(ps[i])
  {
    if ps == [] then [] else [PropertyLine(ps[0])] + PropertyLines(ps[1..])
  }

  const Begin := "BEGIN:VCARD"
  const Version := "VERSION:3.0"
  const End := "END:VCARD"

  /** The envelope and the properties, each line ended by a bare LF except
      the closing `END:VCARD`, which has no newline after it. */
  function CardText(ps: seq<Property>): string {
    JoinLines([Begin, Version] + PropertyLines(ps)) + End
  }

  /** An optional field counts only as `Some` of a non-empty string;
      whitespace is a value like any other. */
  predicate Present(o: Option<string>) {
    o.Some? && o.value != ""
  }

  predicate HasAddress(d: VCardData) {
    Present(d.street) || Present(d.city) || Present(d.state)
  }

  /** A line of kind `name` holding the field's value, or no line. */
  function OptProperty(name: PropName, o: Option<string>): seq<Property> {
    if Present(o) then [Property(name, o.value)] else []
  }

  /** The structured address: two empty slots (post-office box, extended
      address), street, city, region, then empty postal code and country.
      A missing component leaves its slot empty. */
  function AddressValue(d: VCardData): string {
    ";;" + d.street.UnwrapOr("") + ";" + d.city.UnwrapOr("") + ";" + d.state.UnwrapOr("") + ";;;"
  }

  /** The two name lines every card has: `FN` (given name, space, family
      name) and `N` (family; given; three empty components). */
  function NameProperties(d: VCardData): seq<Property> {
    [Property(FN, d.firstName + " " + d.lastName),
     Property(N, d.lastName + ";" + d.firstName + ";;;")]
  }

  /** The address line, present when any of its three parts is. */
  function AddressProperties(d: VCardData): seq<Property> {
    if HasAddress(d) then [Property(Adr, AddressValue(d))] else []
  }

  /** The properties of the card for `d`, as the source appends them. */
  function Properties(d: VCardData): seq<Property> {
    NameProperties(d)
    + OptProperty(TelCell, d.mobile)
    + OptProperty(TelWork, d.work)
    + OptProperty(Email, d.email)
    + OptProperty(Org, d.company)
    + OptProperty(Title, d.role)
    + AddressProperties(d)
    + OptProperty(Url, d.website)
  }

  /** The text `generate_vcard` returns for `d`. */
  function VCardText(d: VCardData): string {
    CardText(Properties(d))
  }

  /** The text of the lines `ps` stand for, each ended by LF. */
  function Chunk(ps: seq<Property>): string {
    JoinLines(PropertyLines(ps))
  }

  lemma {:induction false} ChunkAppend(xs: seq<Property>, ys: seq<Property>)
    ensures Chunk(xs + ys) == Chunk(xs) + Chunk(ys)
  {
    assert PropertyLines(xs + ys) == PropertyLines(xs) + PropertyLines(ys);
    JoinLinesAppend(PropertyLines(xs), PropertyLines(ys));
  }

  /** The opening lines of every card. */
  lemma HeaderText()
    ensures JoinLines([Begin, Version]) == "BEGIN:VCARD\nVERSION:3.0\n"
  {
    assert JoinLines([Version]) == Version + "\n";
  }

  /** The text of one property line. */
  lemma ChunkOne(p: Property)
    ensures Chunk([p]) == p.name.Text() + ":" + p.value + "\n"
  {
    assert PropertyLines([p]) == [PropertyLine(p)];
    assert JoinLines([PropertyLine(p)]) == PropertyLine(p) + "\n";
  }

  /** The text of the two name lines. */
  lemma NamesText(d: VCardData)
    ensures Chunk(NameProperties(d)) ==
      ("FN:" + d.firstName + " " + d.lastName + "\n") + ("N:" + d.lastName + ";" + d.firstName + ";;;\n")
  {
    var ns := NameProperties(d);
    assert ns == [ns[0]] + [ns[1]];
    ChunkAppend([ns[0]], [ns[1]]);
    ChunkOne(ns[0]);
    ChunkOne(ns[1]);
  }

  /** The text of a card whose properties so far are `ps`: the opening
      lines and one line per property. */
  function Written(ps: seq<Property>): string {
    JoinLines([Begin, Version]) + Chunk(ps)
  }

  /** Writing the lines of `qs` after those of `ps`. */
  lemma WrittenAppend(ps: seq<Property>, qs: seq<Property>)
    ensures Written(ps) + Chunk(qs) == Written(ps + qs)
  {
    ChunkAppend(ps, qs);
  }

  /** The card is what has been written, closed by `END:VCARD`. */
  lemma VCardTextWritten(d: VCardData)
    ensures VCardText(d) == Written(Properties(d)) + End
  {
    JoinLinesAppend([Begin, Version], PropertyLines(Properties(d)));
  }

  /** One `if let Some(v) = field { if !v.is_empty() { push_str(..) } }`
      step of `generate_vcard`: the field's line is pushed only when the field
      is `Some` and not the empty string. */
  method PushOptional(vcard: string, name: PropName, field: Option<string>) returns (out: string)
    ensures out == vcard + Chunk(OptProperty(name, field))
  {
    out := vcard;
    if field.Some? {
      var v := field.value;
      if v != "" {
        var line := name.Text() + ":" + v + "\n";
        ChunkOne(Property(name, v));
        out := out + line;
      }
    }
  }

  /** The text of the address line. */
  lemma AddressLineText(d: VCardData)
    ensures "ADR;TYPE=WORK:;;" + d.street.UnwrapOr("") + ";" + d.city.UnwrapOr("") + ";" + d.state.UnwrapOr("") + ";;;\n"
      == Chunk([Property(Adr, AddressValue(d))])
  {
    ChunkOne(Property(Adr, AddressValue(d)));
  }

  /** The address step of `generate_vcard`: one `ADR` line when any of
      street, city or state is a non-empty `Some`, with a missing part
      written as an empty slot. */
  method PushAddress(vcard: string, data: VCardData) returns (out: string)
    ensures out == vcard + Chunk(AddressProperties(data))
  {
    out := vcard;
    var hasAddress := (data.street.Some? && data.street.value != "")
      || (data.city.Some? && data.city.value != "")
      || (data.state.Some? && data.state.value != "");
    if hasAddress {
      var street := data.street.UnwrapOr("");
      var city := data.city.UnwrapOr("");
      var state := data.state.UnwrapOr("");
      var line := "ADR;TYPE=WORK:;;" + street + ";" + city + ";" + state + ";;;\n";
      AddressLineText(data);
      out := out + line;
    }
  }

  /** `generate_vcard`: starts from the envelope header, pushes the two name
      lines, then one line per populated optional field, and closes with
      `END:VCARD`. */
  method GenerateVCard(data: VCardData) returns (vcard: string)
    ensures vcard == VCardText(data)
  {
    vcard := "BEGIN:VCARD\nVERSION:3.0\n";
    HeaderText();
    assert Chunk([]) == [];

    // Name
    ghost var header := vcard;
    var line := "FN:" + data.firstName + " " + data.lastName + "\n";
    vcard := vcard + line;
    line := "N:" + data.lastName + ";" + data.firstName + ";;;\n";
    vcard := vcard + line;
    NamesText(data);
    assert vcard == header + Chunk(NameProperties(data));
    ghost var ps := NameProperties(data);
    WrittenAppend([], ps);
    assert [] + ps == ps;

    // Phone numbers
    vcard := PushOptional(vcard, TelCell, data.mobile);
    WrittenAppend(ps, OptProperty(TelCell, data.mobile));
    ps := ps + OptProperty(TelCell, data.mobile);
    vcard := PushOptional(vcard, TelWork, data.work);
    WrittenAppend(ps, OptProperty(TelWork, data.work));
    ps := ps + OptProperty(TelWork, data.work);

    // Email
    vcard := PushOptional(vcard, Email, data.email);
    WrittenAppend(ps, OptProperty(Email, data.email));
    ps := ps + OptProperty(Email, data.email);

    // Organization
    vcard := PushOptional(vcard, Org, data.company);
    WrittenAppend(ps, OptProperty(Org, data.company));
    ps := ps + OptProperty(Org, data.company);
    vcard := PushOptional(vcard, Title, data.role);
    WrittenAppend(ps, OptProperty(Title, data.role));
    ps := ps + OptProperty(Title, data.role);

    // Address
    vcard := PushAddress(vcard, data);
    WrittenAppend(ps, AddressProperties(data));
    ps := ps + AddressProperties(data);

    // Website
    vcard := PushOptional(vcard, Url, data.website);
    WrittenAppend(ps, OptProperty(Url, data.website));
    ps := ps + OptProperty(Url, data.website);

    vcard := vcard + "END:VCARD";
    VCardTextWritten(data);
  }
}
