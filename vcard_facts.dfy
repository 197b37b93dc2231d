/** What a card produced by `generate_vcard` (src/main.rs:79-139) is known to
    hold: the envelope, one line per populated field in a fixed order, values
    copied verbatim, and a reader that recovers the properties from the text. */
module VCardFacts {
  import opened Common
  import opened Lines
  import opened VCard

  /** Whether the record yields a line of kind `n`: the name lines always,
      the address when any part is populated, any other line when its field
      is a non-empty `Some`. */
  predicate Emits(d: VCardData, n: PropName) {
    match n
    case FN => true
    case N => true
    case TelCell => Present(d.mobile)
    case TelWork => Present(d.work)
    case Email => Present(d.email)
    case Org => Present(d.company)
    case Title => Present(d.role)
    case Adr => HasAddress(d)
    case Url => Present(d.website)
  }

  /** The value a line of kind `n` carries, with fields copied verbatim. */
  function ValueOf(d: VCardData, n: PropName): string {
    match n
    case FN => d.firstName + " " + d.lastName
    case N => d.lastName + ";" + d.firstName + ";;;"
    case TelCell => d.mobile.UnwrapOr("")
    case TelWork => d.work.UnwrapOr("")
    case Email => d.email.UnwrapOr("")
    case Org => d.company.UnwrapOr("")
    case Title => d.role.UnwrapOr("")
    case Adr => ";;" + d.street.UnwrapOr("") + ";" + d.city.UnwrapOr("") + ";" + d.state.UnwrapOr("") + ";;;"
    case Url => d.website.UnwrapOr("")
  }

  /** Reference reading of a card: walk the kinds `ns` in order and keep a
      line for each kind the record emits. */
  function Canonical(ns: seq<PropName>, d: VCardData): seq<Property> {
    if ns == [] then []
    else (if Emits(d, ns[0]) then [Property(ns[0], ValueOf(d, ns[0]))] else []) + Canonical(ns[1..], d)
  }

  /** The lines of kind `n` among `ps`. */
  function Select(ps: seq<Property>, n: PropName): seq<Property> {
    if ps == [] then []
    else (if ps[0].name == n then [ps[0]] else []) + Select(ps[1..], n)
  }

  /** Position of a kind in the writing order. */
  function Rank(n: PropName): nat {
    match n
    case FN => 0
    case N => 1
    case TelCell => 2
    case TelWork => 3
    case Email => 4
    case Org => 5
    case Title => 6
    case Adr => 7
    case Url => 8
  }

  /** The kinds strictly increase in writing order. */
  predicate Ascending(ps: seq<Property>) {
    forall i, j :: 0 <= i < j < |ps| ==> Rank(ps[i].name) < Rank(ps[j].name)
  }

  predicate AscendingNames(ns: seq<PropName>) {
    forall i, j :: 0 <= i < j < |ns| ==> Rank(ns[i]) < Rank(ns[j])
  }

  /** Walking `xs` then `ys` is walking `xs + ys`. */
  lemma {:induction false} CanonicalAppend(xs: seq<PropName>, ys: seq<PropName>, d: VCardData)
    ensures Canonical(xs + ys, d) == Canonical(xs, d) + Canonical(ys, d)
  {
    if xs == [] {
      assert xs + ys == ys;
    } else {
      assert (xs + ys)[1..] == xs[1..] + ys;
      CanonicalAppend(xs[1..], ys, d);
    }
  }

  /** Walking one more kind appends what that kind contributes, which for a
      single-field kind is the source's optional line. */
  lemma CanonicalSnoc(xs: seq<PropName>, n: PropName, d: VCardData)
    ensures Canonical(xs + [n], d) == Canonical(xs, d) + Contribution(d, n)
  {
    CanonicalAppend(xs, [n], d);
    assert [n][1..] == [];
  }

  /** The lines a kind contributes, in the source's terms. */
  function Contribution(d: VCardData, n: PropName): seq<Property> {
    match n
    case FN => [NameProperties(d)[0]]
    case N => [NameProperties(d)[1]]
    case TelCell => OptProperty(TelCell, d.mobile)
    case TelWork => OptProperty(TelWork, d.work)
    case Email => OptProperty(Email, d.email)
    case Org => OptProperty(Org, d.company)
    case Title => OptProperty(Title, d.role)
    case Adr => AddressProperties(d)
    case Url => OptProperty(Url, d.website)
  }

  /** The source's sequence of appends is the reference reading over the
      fixed order FN, N, TEL;CELL, TEL;WORK, EMAIL, ORG, TITLE, ADR, URL. */
  lemma {:induction false} PropertiesCanonical(d: VCardData)
    ensures Properties(d) == Canonical(Order, d)
  {
    var o0: seq<PropName> := [FN, N];
    var o1, o2, o3 := o0 + [TelCell], o0 + [TelCell, TelWork], o0 + [TelCell, TelWork, Email];
    var o4 := o3 + [Org];
    var o5 := o4 + [Title];
    var o6 := o5 + [Adr];
    assert o1 == o0 + [TelCell] && o2 == o1 + [TelWork] && o3 == o2 + [Email];
    assert Order == o6 + [Url];
    CanonicalSnoc([], FN, d);
    assert [] + [FN] == [FN];
    CanonicalSnoc([FN], N, d);
    assert [FN] + [N] == o0;
    assert Canonical(o0, d) == NameProperties(d);
    CanonicalSnoc(o0, TelCell, d);
    CanonicalSnoc(o1, TelWork, d);
    CanonicalSnoc(o2, Email, d);
    CanonicalSnoc(o3, Org, d);
    CanonicalSnoc(o4, Title, d);
    CanonicalSnoc(o5, Adr, d);
    CanonicalSnoc(o6, Url, d);
  }

  /** Selecting from a sequence with a first element. */
  lemma SelectCons(p: Property, ys: seq<Property>, n: PropName)
    ensures Select([p] + ys, n) == (if p.name == n then [p] else []) + Select(ys, n)
  {
    assert ([p] + ys)[1..] == ys;
  }

  /** Selecting from a concatenation. */
  lemma {:induction false} SelectAppend(xs: seq<Property>, ys: seq<Property>, n: PropName)
    ensures Select(xs + ys, n) == Select(xs, n) + Select(ys, n)
  {
    if xs == [] {
      assert xs + ys == ys;
    } else {
      var h := if xs[0].name == n then [xs[0]] else [];
      var a, b := Select(xs[1..], n), Select(ys, n);
      assert xs + ys == [xs[0]] + (xs[1..] + ys);
      assert xs == [xs[0]] + xs[1..];
      SelectCons(xs[0], xs[1..] + ys, n);
      SelectCons(xs[0], xs[1..], n);
      SelectAppend(xs[1..], ys, n);
      AppendAssoc(h, a, b);
    }
  }

  /** Over kinds without repetition, the reference reading has one line of
      kind `n` when `n` is walked and emitted, and none otherwise. */
  lemma {:induction false} SelectCanonical(ns: seq<PropName>, d: VCardData, n: PropName)
    requires AscendingNames(ns)
    ensures Select(Canonical(ns, d), n) ==
      if n in ns && Emits(d, n) then [Property(n, ValueOf(d, n))] else []
  {
    if ns != [] {
      var head := if Emits(d, ns[0]) then [Property(ns[0], ValueOf(d, ns[0]))] else [];
      AscendingTail(ns);
      SelectCanonical(ns[1..], d, n);
      SelectAppend(head, Canonical(ns[1..], d), n);
      if head != [] {
        assert head[1..] == [];
      }
      if n == ns[0] {
        assert n !in ns[1..];
      } else {
        assert n in ns <==> n in ns[1..] by {
          assert ns == [ns[0]] + ns[1..];
        }
      }
    }
  }

  lemma AscendingTail(ns: seq<PropName>)
    requires ns != [] && AscendingNames(ns)
    ensures AscendingNames(ns[1..])
    ensures forall i :: 0 <= i < |ns[1..]| ==> Rank(ns[0]) < Rank(ns[1..][i])
  {
    forall i, j | 0 <= i < j < |ns[1..]| ensures Rank(ns[1..][i]) < Rank(ns[1..][j]) {
      assert ns[1..][i] == ns[i + 1] && ns[1..][j] == ns[j + 1];
    }
    forall i | 0 <= i < |ns[1..]| ensures Rank(ns[0]) < Rank(ns[1..][i]) {
      assert ns[1..][i] == ns[i + 1];
    }
  }

  /** The reference reading only holds kinds it walked. */
  lemma {:induction false} CanonicalNames(ns: seq<PropName>, d: VCardData)
    ensures forall i :: 0 <= i < |Canonical(ns, d)| ==> Canonical(ns, d)[i].name in ns
  {
    if ns != [] {
      var head := if Emits(d, ns[0]) then [Property(ns[0], ValueOf(d, ns[0]))] else [];
      var rest := Canonical(ns[1..], d);
      CanonicalNames(ns[1..], d);
      var c := head + rest;
      forall i | 0 <= i < |c| ensures c[i].name in ns {
        if i >= |head| {
          assert c[i] == rest[i - |head|];
          var k :| 0 <= k < |ns[1..]| && ns[1..][k] == rest[i - |head|].name;
          assert ns[k + 1] == c[i].name;
        }
      }
    }
  }

  /** A line ranked below every line of an ascending sequence can lead it. */
  lemma AscendingCons(p: Property, rest: seq<Property>)
    requires Ascending(rest)
    requires forall i :: 0 <= i < |rest| ==> Rank(p.name) < Rank(rest[i].name)
    ensures Ascending([p] + rest)
  {
    var c := [p] + rest;
    forall i, j | 0 <= i < j < |c| ensures Rank(c[i].name) < Rank(c[j].name) {
      assert c[j] == rest[j - 1];
      if i > 0 {
        assert c[i] == rest[i - 1];
      }
    }
  }

  /** Walking kinds in writing order yields lines in writing order. */
  lemma {:induction false} CanonicalAscending(ns: seq<PropName>, d: VCardData)
    requires AscendingNames(ns)
    ensures Ascending(Canonical(ns, d))
  {
    if ns != [] {
      var rest := Canonical(ns[1..], d);
      AscendingTail(ns);
      CanonicalAscending(ns[1..], d);
      if Emits(d, ns[0]) {
        CanonicalNames(ns[1..], d);
        forall i | 0 <= i < |rest| ensures Rank(ns[0]) < Rank(rest[i].name) {
          var k :| 0 <= k < |ns[1..]| && ns[1..][k] == rest[i].name;
        }
        AscendingCons(Property(ns[0], ValueOf(d, ns[0])), rest);
      } else {
        assert Canonical(ns, d) == [] + rest;
      }
    }
  }

  /** The writing order has no kind twice. */
  lemma OrderAscending()
    ensures AscendingNames(Order)
  {
  }

  /** Each kind of line occurs exactly once when the record emits it and
      never otherwise: mobile, work, email, company, role and website each
      give one `TEL;TYPE=CELL`, `TEL;TYPE=WORK`, `EMAIL`, `ORG`, `TITLE` or
      `URL` line iff they are `Some` of a non-empty string, the address one
      `ADR` line iff any of its parts is, and `FN` and `N` always occur; the
      line carries the field verbatim. */
  lemma FieldLines(d: VCardData, n: PropName)
    ensures Select(Properties(d), n) ==
      if Emits(d, n) then [Property(n, ValueOf(d, n))] else []
  {
    PropertiesCanonical(d);
    OrderAscending();
    SelectCanonical(Order, d, n);
    assert n in Order;
  }

  /** The lines appear in the fixed order FN, N, TEL;CELL, TEL;WORK, EMAIL,
      ORG, TITLE, ADR, URL. */
  lemma PropertiesAscending(d: VCardData)
    ensures Ascending(Properties(d))
  {
    PropertiesCanonical(d);
    OrderAscending();
    CanonicalAscending(Order, d);
  }

  /** The card opens with `BEGIN:VCARD`, `VERSION:3.0`, then the `FN` and `N`
      lines, and closes with `END:VCARD` with no newline after it, whatever
      optional fields are set. */
  lemma CardEnvelope(d: VCardData)
    ensures VCardText(d) ==
      "BEGIN:VCARD\nVERSION:3.0\n"
      + ("FN:" + d.firstName + " " + d.lastName + "\n")
      + ("N:" + d.lastName + ";" + d.firstName + ";;;\n")
      + Chunk(Properties(d)[2..])
      + "END:VCARD"
    ensures VCardText(d)[|VCardText(d)| - 1] == 'D'
  {
    var ps := Properties(d);
    VCardTextWritten(d);
    HeaderText();
    assert ps == NameProperties(d) + ps[2..];
    ChunkAppend(NameProperties(d), ps[2..]);
    NamesText(d);
  }

  /** With only the mandatory names set, the card is exactly the envelope
      and the two name lines. */
  lemma MandatoryOnly(d: VCardData)
    requires !Present(d.mobile) && !Present(d.work) && !Present(d.email)
    requires !Present(d.company) && !Present(d.role) && !HasAddress(d) && !Present(d.website)
    ensures VCardText(d) ==
      "BEGIN:VCARD\nVERSION:3.0\n"
      + ("FN:" + d.firstName + " " + d.lastName + "\n")
      + ("N:" + d.lastName + ";" + d.firstName + ";;;\n")
      + "END:VCARD"
  {
    CardEnvelope(d);
    assert Properties(d)[2..] == [];
  }

  /** The kind whose name text is `t`, searched in `ns`. */
  function NameIn(ns: seq<PropName>, t: string): (r: Option<PropName>)
    ensures r.Some? ==> r.value in ns && r.value.Text() == t
    ensures r.None? ==> forall n :: n in ns ==> n.Text() != t
  {
    if ns == [] then None
    else if ns[0].Text() == t then Some(ns[0])
    else NameIn(ns[1..], t)
  }

  /** Reads one `NAME:value` line: the name runs to the first `:`, the rest
      of the line is the value. */
  function ParseProperty(line: string): Option<Property> {
    match SplitAt(line, ':')
    case None => None
    case Some((name, value)) =>
      match NameIn(Order, name)
      case None => None
      case Some(n) => Some(Property(n, value))
  }

  function ParseProperties(ls: seq<string>): Option<seq<Property>> {
    if ls == [] then Some([])
    else
      match (ParseProperty(ls[0]), ParseProperties(ls[1..]))
      case (Some(p), Some(ps)) => Some([p] + ps)
      case _ => None
  }

  /** A reader for the text `generate_vcard` writes: split on LF, check the
      envelope, read the lines between. */
  function ParseCard(text: string): Option<seq<Property>> {
    var ls := SplitLines(text);
    if |ls| >= 3 && ls[0] == Begin && ls[1] == Version && ls[|ls| - 1] == End
    then ParseProperties(ls[2..|ls| - 1])
    else None
  }

  /** Distinct kinds have distinct name texts. */
  lemma TextInjective(m: PropName, n: PropName)
    ensures m.Text() == n.Text() ==> m == n
  {
  }

  /** A kind is found by its own name text. */
  lemma NameInOrder(n: PropName)
    ensures NameIn(Order, n.Text()) == Some(n)
  {
    assert n in Order;
    var r := NameIn(Order, n.Text());
    if r.Some? {
      TextInjective(r.value, n);
    }
  }

  /** A property line reads back as the property. */
  lemma ParsePropertyLine(p: Property)
    ensures ParseProperty(PropertyLine(p)) == Some(p)
  {
    SplitAtUnique(p.name.Text(), ':', p.value);
    NameInOrder(p.name);
  }

  /** Reading a line in front of lines already read. */
  lemma ParsePropertiesCons(l: string, ls: seq<string>, p: Property, qs: seq<Property>)
    requires ParseProperty(l) == Some(p) && ParseProperties(ls) == Some(qs)
    ensures ParseProperties([l] + ls) == Some([p] + qs)
  {
    assert ([l] + ls)[1..] == ls;
  }

  lemma {:induction false} ParsePropertyLines(ps: seq<Property>)
    ensures ParseProperties(PropertyLines(ps)) == Some(ps)
  {
    if ps != [] {
      ParsePropertyLine(ps[0]);
      ParsePropertyLines(ps[1..]);
      ParsePropertiesCons(PropertyLine(ps[0]), PropertyLines(ps[1..]), ps[0], ps[1..]);
      HeadTail(ps);
    }
  }

  /** No property value holds an LF. */
  predicate LineBreakFree(ps: seq<Property>) {
    forall i :: 0 <= i < |ps| ==> '\n' !in ps[i].value
  }

  /** A reading has one property per line read. */
  lemma {:induction false} ParsePropertiesLength(ls: seq<string>)
    ensures ParseProperties(ls).Some? ==> |ParseProperties(ls).value| == |ls|
  {
    if ls != [] {
      ParsePropertiesLength(ls[1..]);
    }
  }

  /** Reading a card text gives back its properties exactly when no value
      holds an LF: values are not escaped, so an LF starts a new line and the
      reader sees more lines than were written. */
  lemma ParseCardText(ps: seq<Property>)
    ensures ParseCard(CardText(ps)) == Some(ps) <==> LineBreakFree(ps)
  {
    if LineBreakFree(ps) {
      ParseCardTextClean(ps);
    } else {
      ParseCardTextBroken(ps);
    }
  }

  lemma ParseCardTextClean(ps: seq<Property>)
    requires LineBreakFree(ps)
    ensures ParseCard(CardText(ps)) == Some(ps)
  {
    CardTextLines(ps);
    var split := [Begin, Version] + PropertyLines(ps) + [End];
    assert split[2..|split| - 1] == PropertyLines(ps);
    ParsePropertyLines(ps);
  }

  /** Without an LF in a value, the text's lines are the envelope lines
      around exactly one line per property. */
  lemma CardTextLines(ps: seq<Property>)
    requires LineBreakFree(ps)
    ensures SplitLines(CardText(ps)) == [Begin, Version] + PropertyLines(ps) + [End]
  {
    var ls := [Begin, Version] + PropertyLines(ps);
    forall i | 0 <= i < |ls| ensures '\n' !in ls[i] {
      if i >= 2 {
        assert ls[i] == PropertyLine(ps[i - 2]);
      }
    }
    SplitJoin(ls, End);
  }

  /** A card read back has one property per line between the envelope lines. */
  lemma ParseCardLength(text: string)
    ensures ParseCard(text).Some? ==> |ParseCard(text).value| == |SplitLines(text)| - 3
  {
    var ls := SplitLines(text);
    if |ls| >= 3 {
      ParsePropertiesLength(ls[2..|ls| - 1]);
    }
  }

  /** An LF inside a value adds a line to the card text. */
  lemma CardTextLineCount(ps: seq<Property>)
    requires !LineBreakFree(ps)
    ensures |SplitLines(CardText(ps))| > |ps| + 3
  {
    var ls := [Begin, Version] + PropertyLines(ps);
    var k :| 0 <= k < |ps| && '\n' in ps[k].value;
    assert ls[k + 2] == PropertyLine(ps[k]);
    JoinLinesCount(ls);
    CountAppend('\n', JoinLines(ls), End);
    SplitLinesCount(CardText(ps));
  }

  /** An LF in a value yields more lines than properties were written. */
  lemma ParseCardTextBroken(ps: seq<Property>)
    requires !LineBreakFree(ps)
    ensures ParseCard(CardText(ps)) != Some(ps)
  {
    CardTextLineCount(ps);
    ParseCardLength(CardText(ps));
  }

  /** An optional field holds no LF. */
  predicate NoLineBreak(o: Option<string>) {
    o.Some? ==> '\n' !in o.value
  }

  /** No field of the record that reaches the card holds an LF. */
  predicate RecordLineBreakFree(d: VCardData) {
    '\n' !in d.firstName && '\n' !in d.lastName
    && NoLineBreak(d.mobile) && NoLineBreak(d.work) && NoLineBreak(d.email)
    && NoLineBreak(d.company) && NoLineBreak(d.role)
    && NoLineBreak(d.street) && NoLineBreak(d.city) && NoLineBreak(d.state)
    && NoLineBreak(d.website)
  }

  /** Every line of the reference reading carries its kind's value. */
  lemma {:induction false} CanonicalValues(ns: seq<PropName>, d: VCardData)
    ensures forall i :: 0 <= i < |Canonical(ns, d)| ==>
      Canonical(ns, d)[i].value == ValueOf(d, Canonical(ns, d)[i].name)
  {
    if ns != [] {
      var head := if Emits(d, ns[0]) then [Property(ns[0], ValueOf(d, ns[0]))] else [];
      var rest := Canonical(ns[1..], d);
      CanonicalValues(ns[1..], d);
      var c := head + rest;
      forall i | 0 <= i < |c| ensures c[i].value == ValueOf(d, c[i].name) {
        if i >= |head| {
          assert c[i] == rest[i - |head|];
        }
      }
    }
  }

  /** Values built from LF-free fields hold no LF. */
  lemma ValueOfLineBreakFree(d: VCardData, n: PropName)
    requires RecordLineBreakFree(d)
    ensures '\n' !in ValueOf(d, n)
  {
  }

  /** A line the record emits is among the card's properties. */
  lemma EmittedIn(d: VCardData, n: PropName)
    requires Emits(d, n)
    ensures Property(n, ValueOf(d, n)) in Properties(d)
  {
    FieldLines(d, n);
    SelectIn(Properties(d), n);
  }

  /** What is selected comes from the sequence selected from. */
  lemma {:induction false} SelectIn(ps: seq<Property>, n: PropName)
    ensures forall p :: p in Select(ps, n) ==> p in ps
  {
    if ps != [] {
      SelectIn(ps[1..], n);
    }
  }

  /** The card's values are LF-free exactly when the record's fields are. */
  lemma PropertiesLineBreakFree(d: VCardData)
    ensures LineBreakFree(Properties(d)) <==> RecordLineBreakFree(d)
  {
    var ps := Properties(d);
    if RecordLineBreakFree(d) {
      PropertiesCanonical(d);
      CanonicalValues(Order, d);
      forall i | 0 <= i < |ps| ensures '\n' !in ps[i].value {
        ValueOfLineBreakFree(d, ps[i].name);
      }
    } else {
      var n := BrokenKind(d);
      EmittedIn(d, n);
      var i :| 0 <= i < |ps| && ps[i] == Property(n, ValueOf(d, n));
    }
  }

  /** Round trip: reading the card text back gives exactly the properties
      written iff no field of the record holds an LF. */
  lemma ReadBack(d: VCardData)
    ensures ParseCard(VCardText(d)) == Some(Properties(d)) <==> RecordLineBreakFree(d)
  {
    ParseCardText(Properties(d));
    PropertiesLineBreakFree(d);
  }

  /** When no field holds an LF, the card's text lines are exactly
      `BEGIN:VCARD`, `VERSION:3.0`, one line per property and `END:VCARD`,
      so what `FieldLines` and `PropertiesAscending` say of the properties
      holds of the lines of the text. */
  lemma CardLines(d: VCardData)
    requires RecordLineBreakFree(d)
    ensures SplitLines(VCardText(d)) == [Begin, Version] + PropertyLines(Properties(d)) + [End]
  {
    PropertiesLineBreakFree(d);
    CardTextLines(Properties(d));
  }

  /** A kind of line whose value holds an LF when some field does. */
  function BrokenKind(d: VCardData): (n: PropName)
    requires !RecordLineBreakFree(d)
    ensures Emits(d, n) && '\n' in ValueOf(d, n)
  {
    if '\n' in d.firstName || '\n' in d.lastName then FN
    else if !NoLineBreak(d.mobile) then TelCell
    else if !NoLineBreak(d.work) then TelWork
    else if !NoLineBreak(d.email) then Email
    else if !NoLineBreak(d.company) then Org
    else if !NoLineBreak(d.role) then Title
    else if !NoLineBreak(d.website) then Url
    else Adr
  }
}
