/**
 * The reply grammar as data. A `Layout` is one way to write a value down: which whitespace
 * stands between tags, how each string is cut into text, CDATA and entities, and which
 * spelling of an empty array is used. The parser accepts exactly what layouts render to.
 */
module XmlRpcGrammar {
  import opened Basics
  import opened XmlRpc

  /** Whitespace-only text events in a place where a tag is expected. */
  type Gap = seq<string>

  datatype Piece = Plain(text: string) | Raw(text: string) | Entity(name: string)

  datatype Layout =
    | Nothing(gap: Gap)
    | Bare(gap: Gap, first: Piece, more: seq<Piece>)
    | Element(gap: Gap, body: Body, closing: Gap)

  datatype Body =
    | StringBody(text: seq<Piece>)
    | IntBody(tag: string, text: seq<Piece>)
    | ArrayBody(gap: Gap, items: Items, closing: Gap)
    | ArraySelfClosed(gap: Gap, closing: Gap)
    | StructBody(members: Members)

  datatype Items =
    | NoItems(gap: Gap)
    | Item(gap: Gap, value: Layout, others: Items)

  datatype Members =
    | NoMembers(gap: Gap)
    | Member(gap: Gap, naming: Gap, name: seq<Piece>, between: Gap, value: Layout, closing: Gap,
             others: Members)

  // ----- rendering, in front of the events `k` that follow

  function PieceEvent(p: Piece): Event {
    match p
    case Plain(t) => Text(t)
    case Raw(t) => CData(t)
    case Entity(n) => GeneralRef(n)
  }

  function GapTo(gap: Gap, k: seq<Event>): seq<Event> {
    if gap == [] then k else [Text(gap[0])] + GapTo(gap[1..], k)
  }

  function TextTo(pieces: seq<Piece>, k: seq<Event>): seq<Event> {
    if pieces == [] then k else [PieceEvent(pieces[0])] + TextTo(pieces[1..], k)
  }

  function TagOf(b: Body): string {
    match b
    case StringBody(_) => "string"
    case IntBody(tag, _) => tag
    case ArrayBody(_, _, _) => "array"
    case ArraySelfClosed(_, _) => "array"
    case StructBody(_) => "struct"
  }

  /** What stands between `<value>` and `k`, `</value>` included. */
  function ValueTo(l: Layout, k: seq<Event>): seq<Event>
    decreases l, 0
  {
    match l
    case Nothing(gap) => GapTo(gap, [End("value")] + k)
    case Bare(gap, first, more) =>
      GapTo(gap, [PieceEvent(first)] + TextTo(more, [End("value")] + k))
    case Element(gap, body, closing) =>
      GapTo(gap, [Start(TagOf(body))] + BodyTo(body, GapTo(closing, [End("value")] + k)))
  }

  function BodyTo(b: Body, k: seq<Event>): seq<Event>
    decreases b, 0
  {
    match b
    case StringBody(text) => TextTo(text, [End("string")] + k)
    case IntBody(tag, text) => TextTo(text, [End(tag)] + k)
    case ArrayBody(gap, items, closing) =>
      GapTo(gap, [Start("data")] + ItemsTo(items, GapTo(closing, [End("array")] + k)))
    case ArraySelfClosed(gap, closing) =>
      GapTo(gap, [Empty("data")] + GapTo(closing, [End("array")] + k))
    case StructBody(members) => MembersTo(members, k)
  }

  function ItemsTo(items: Items, k: seq<Event>): seq<Event>
    decreases items, 0
  {
    match items
    case NoItems(gap) => GapTo(gap, [End("data")] + k)
    case Item(gap, value, others) =>
      GapTo(gap, [Start("value")] + ValueTo(value, ItemsTo(others, k)))
  }

  function MembersTo(members: Members, k: seq<Event>): seq<Event>
    decreases members, 0
  {
    match members
    case NoMembers(gap) => GapTo(gap, [End("struct")] + k)
    case Member(gap, naming, name, between, value, closing, others) =>
      GapTo(gap, [Start("member")] + MemberTo(naming, name, between, value, closing,
                                              MembersTo(others, k)))
  }

  function MemberTo(naming: Gap, name: seq<Piece>, between: Gap, value: Layout, closing: Gap,
                    k: seq<Event>): seq<Event>
    decreases value, 1
  {
    GapTo(naming, [Start("name")] + TextTo(name, [End("name")]
          + GapTo(between, [Start("value")] + ValueTo(value, GapTo(closing, [End("member")] + k)))))
  }

  // ----- meaning

  function PieceText(p: Piece): string {
    match p
    case Plain(t) => t
    case Raw(t) => t
    case Entity(n) => if Resolve(n).Ok? then Resolve(n).value else ""
  }

  function TextOf(pieces: seq<Piece>): string {
    if pieces == [] then "" else PieceText(pieces[0]) + TextOf(pieces[1..])
  }

  function Meaning(l: Layout): XmlValue {
    match l
    case Nothing(_) => Str("")
    case Bare(_, first, more) => Str(PieceText(first) + TextOf(more))
    case Element(_, body, _) => BodyMeaning(body)
  }

  function IntOf(text: seq<Piece>): Option<I64> {
    ParseI64(TrimEnd(TrimStart(TextOf(text))))
  }

  function BodyMeaning(b: Body): XmlValue {
    match b
    case StringBody(text) => Str(TextOf(text))
    case IntBody(_, text) => Int(if IntOf(text).Some? then IntOf(text).value else 0)
    case ArrayBody(_, items, _) => Array(ItemsMeaning(items))
    case ArraySelfClosed(_, _) => Array([])
    case StructBody(members) => Struct(MembersMeaning(members))
  }

  function ItemsMeaning(items: Items): seq<XmlValue> {
    match items
    case NoItems(_) => []
    case Item(_, value, others) => [Meaning(value)] + ItemsMeaning(others)
  }

  function MembersMeaning(members: Members): seq<(string, XmlValue)> {
    match members
    case NoMembers(_) => []
    case Member(_, _, name, _, value, _, others) =>
      [(TextOf(name), Meaning(value))] + MembersMeaning(others)
  }

  // ----- which layouts are legal

  predicate GapOk(gap: Gap) {
    forall i :: 0 <= i < |gap| ==> Blank(gap[i])
  }

  predicate PieceOk(p: Piece) {
    p.Entity? ==> Resolve(p.name).Ok?
  }

  predicate TextOk(pieces: seq<Piece>) {
    forall i :: 0 <= i < |pieces| ==> PieceOk(pieces[i])
  }

  /** What may open a bare string: an entity, or text that is not all whitespace. */
  predicate OpensBare(p: Piece) {
    PieceOk(p) && (p.Entity? || (p.Plain? && !Blank(p.text)))
  }

  predicate Legal(l: Layout) {
    match l
    case Nothing(gap) => GapOk(gap)
    case Bare(gap, first, more) => GapOk(gap) && OpensBare(first) && TextOk(more)
    case Element(gap, body, closing) => GapOk(gap) && LegalBody(body) && GapOk(closing)
  }

  predicate LegalBody(b: Body) {
    match b
    case StringBody(text) => TextOk(text)
    case IntBody(tag, text) => IsIntTag(tag) && TextOk(text) && IntOf(text).Some?
    case ArrayBody(gap, items, closing) => GapOk(gap) && LegalItems(items) && GapOk(closing)
    case ArraySelfClosed(gap, closing) => GapOk(gap) && GapOk(closing)
    case StructBody(members) => LegalMembers(members)
  }

  predicate LegalItems(items: Items) {
    match items
    case NoItems(gap) => GapOk(gap)
    case Item(gap, value, others) => GapOk(gap) && Legal(value) && LegalItems(others)
  }

  predicate LegalMembers(members: Members) {
    match members
    case NoMembers(gap) => GapOk(gap)
    case Member(gap, naming, name, between, value, closing, others) =>
      && GapOk(gap) && GapOk(naming) && TextOk(name) && GapOk(between)
      && Legal(value) && GapOk(closing) && LegalMembers(others)
  }

  // ----- every legal layout is read back

  /** An event `NextStructural` stops at. */
  predicate Structural(e: Event) {
    !e.Broken? && !(e.Text? && Blank(e.text))
  }

  lemma {:induction false} SkipGap(gap: Gap, e: Event, k: seq<Event>)
    requires GapOk(gap) && Structural(e)
    ensures NextStructural(GapTo(gap, [e] + k)) == Ok((e, k))
  {
    if gap == [] {
      assert ([e] + k)[1..] == k;
    } else {
      SkipGap(gap[1..], e, k);
      var evs := GapTo(gap, [e] + k);
      assert evs[1..] == GapTo(gap[1..], [e] + k);
      assert Blank(gap[0]);
    }
  }

  lemma {:induction false} ReadPieces(tag: string, pieces: seq<Piece>, k: seq<Event>)
    requires TextOk(pieces)
    ensures ReadText(tag, TextTo(pieces, [End(tag)] + k)) == Ok((TextOf(pieces), k))
  {
    var evs := TextTo(pieces, [End(tag)] + k);
    if pieces == [] {
      assert evs[1..] == k;
    } else {
      ReadPieces(tag, pieces[1..], k);
      assert evs[1..] == TextTo(pieces[1..], [End(tag)] + k);
      assert PieceOk(pieces[0]);
    }
  }

  /** Parsing any legal layout of a value, followed by anything, gives back that value and
      exactly what followed. */
  lemma {:induction false} ValueReadBack(l: Layout, k: seq<Event>)
    requires Legal(l)
    ensures ParseValue(ValueTo(l, k)) == Ok((Meaning(l), k))
    decreases l
  {
    match l
    case Nothing(gap) =>
      SkipGap(gap, End("value"), k);
    case Bare(gap, first, more) =>
      SkipGap(gap, PieceEvent(first), TextTo(more, [End("value")] + k));
      ReadPieces("value", more, k);
    case Element(gap, body, closing) =>
      var k' := GapTo(closing, [End("value")] + k);
      SkipGap(gap, Start(TagOf(body)), BodyTo(body, k'));
      BodyReadBack(body, k');
      SkipGap(closing, End("value"), k);
  }

  lemma {:induction false} BodyReadBack(b: Body, k: seq<Event>)
    requires LegalBody(b)
    ensures ParseTyped(TagOf(b), BodyTo(b, k)) == Ok((BodyMeaning(b), k))
    decreases b
  {
    match b
    case StringBody(text) =>
      ReadPieces("string", text, k);
    case IntBody(tag, text) =>
      ReadPieces(tag, text, k);
    case ArrayBody(gap, items, closing) =>
      var k' := GapTo(closing, [End("array")] + k);
      SkipGap(gap, Start("data"), ItemsTo(items, k'));
      ItemsReadBack(items, k');
      SkipGap(closing, End("array"), k);
    case ArraySelfClosed(gap, closing) =>
      SkipGap(gap, Empty("data"), GapTo(closing, [End("array")] + k));
      SkipGap(closing, End("array"), k);
    case StructBody(members) =>
      MembersReadBack(members, k);
  }

  lemma {:induction false} ItemsReadBack(items: Items, k: seq<Event>)
    requires LegalItems(items)
    ensures ParseItems(ItemsTo(items, k)) == Ok((ItemsMeaning(items), k))
    decreases items
  {
    match items
    case NoItems(gap) =>
      SkipGap(gap, End("data"), k);
    case Item(gap, value, others) =>
      SkipGap(gap, Start("value"), ValueTo(value, ItemsTo(others, k)));
      ValueReadBack(value, ItemsTo(others, k));
      ItemsReadBack(others, k);
  }

  lemma {:induction false} MembersReadBack(members: Members, k: seq<Event>)
    requires LegalMembers(members)
    ensures ParseMembers(MembersTo(members, k)) == Ok((MembersMeaning(members), k))
    decreases members
  {
    match members
    case NoMembers(gap) =>
      SkipGap(gap, End("struct"), k);
    case Member(gap, naming, name, between, value, closing, others) =>
      var k' := MembersTo(others, k);
      SkipGap(gap, Start("member"), MemberTo(naming, name, between, value, closing, k'));
      ValueReadBack(value, GapTo(closing, [End("member")] + k'));
      MemberReadBack(naming, name, between, value, closing, k');
      MembersReadBack(others, k);
  }

  lemma MemberReadBack(naming: Gap, name: seq<Piece>, between: Gap, value: Layout, closing: Gap,
                       k: seq<Event>)
    requires GapOk(naming) && TextOk(name) && GapOk(between) && GapOk(closing)
    requires ParseValue(ValueTo(value, GapTo(closing, [End("member")] + k)))
             == Ok((Meaning(value), GapTo(closing, [End("member")] + k)))
    ensures ParseMember(MemberTo(naming, name, between, value, closing, k))
            == Ok(((TextOf(name), Meaning(value)), k))
  {
    var inner := ValueTo(value, GapTo(closing, [End("member")] + k));
    var tail := GapTo(between, [Start("value")] + inner);
    SkipGap(naming, Start("name"), TextTo(name, [End("name")] + tail));
    ReadPieces("name", name, tail);
    SkipGap(between, Start("value"), inner);
    SkipGap(closing, End("member"), k);
  }

  // ----- nothing else is read

  lemma {:induction false} GapFound(evs: seq<Event>) returns (gap: Gap)
    requires NextStructural(evs).Ok? && !NextStructural(evs).value.0.Eof?
    ensures GapOk(gap) && Structural(NextStructural(evs).value.0)
    ensures evs == GapTo(gap, [NextStructural(evs).value.0] + NextStructural(evs).value.1)
  {
    if evs[0].Text? && Blank(evs[0].text) {
      var others := GapFound(evs[1..]);
      gap := [evs[0].text] + others;
      assert gap[1..] == others;
    } else {
      gap := [];
    }
  }

  lemma {:induction false} PiecesFound(tag: string, evs: seq<Event>) returns (pieces: seq<Piece>)
    requires ReadText(tag, evs).Ok?
    ensures TextOk(pieces) && TextOf(pieces) == ReadText(tag, evs).value.0
    ensures evs == TextTo(pieces, [End(tag)] + ReadText(tag, evs).value.1)
  {
    if evs[0].End? {
      pieces := [];
    } else {
      var others := PiecesFound(tag, evs[1..]);
      var p := match evs[0]
        case Text(t) => Plain(t)
        case CData(t) => Raw(t)
        case GeneralRef(n) => Entity(n);
      pieces := [p] + others;
      assert pieces[1..] == others;
    }
  }

  lemma ExpectFound(wanted: Event, inside: string, evs: seq<Event>) returns (gap: Gap)
    requires !wanted.Eof? && Expect(wanted, inside, evs).Ok?
    ensures GapOk(gap) && evs == GapTo(gap, [wanted] + Expect(wanted, inside, evs).value)
  {
    gap := GapFound(evs);
  }

  lemma {:induction false} LayoutFound(evs: seq<Event>) returns (l: Layout)
    requires ParseValue(evs).Ok?
    ensures Legal(l) && Meaning(l) == ParseValue(evs).value.0
    ensures evs == ValueTo(l, ParseValue(evs).value.1)
    decreases |evs|, 0
  {
    var gap := GapFound(evs);
    var (e, rest) := NextStructural(evs).value;
    match e {
      case End(_) =>
        l := Nothing(gap);
      case Text(t) =>
        var more := PiecesFound("value", rest);
        l := Bare(gap, Plain(t), more);
      case GeneralRef(n) =>
        var more := PiecesFound("value", rest);
        l := Bare(gap, Entity(n), more);
      case Start(tag) =>
        var body := BodyFound(tag, rest);
        var closing := ExpectFound(End("value"), "value", ParseTyped(tag, rest).value.1);
        l := Element(gap, body, closing);
    }
  }

  lemma {:induction false} BodyFound(tag: string, evs: seq<Event>) returns (b: Body)
    requires ParseTyped(tag, evs).Ok?
    ensures LegalBody(b) && TagOf(b) == tag && BodyMeaning(b) == ParseTyped(tag, evs).value.0
    ensures evs == BodyTo(b, ParseTyped(tag, evs).value.1)
    decreases |evs|, 3
  {
    if tag == "array" {
      var gap := GapFound(evs);
      var (e, rest) := NextStructural(evs).value;
      if e == Start("data") {
        var items := ItemsFound(rest);
        var closing := ExpectFound(End("array"), "array", ParseItems(rest).value.1);
        b := ArrayBody(gap, items, closing);
      } else {
        var closing := ExpectFound(End("array"), "array", rest);
        b := ArraySelfClosed(gap, closing);
      }
    } else if tag == "struct" {
      var members := MembersFound(evs);
      b := StructBody(members);
    } else {
      var text := PiecesFound(tag, evs);
      b := if tag == "string" then StringBody(text) else IntBody(tag, text);
    }
  }

  lemma {:induction false} ItemsFound(evs: seq<Event>) returns (items: Items)
    requires ParseItems(evs).Ok?
    ensures LegalItems(items) && ItemsMeaning(items) == ParseItems(evs).value.0
    ensures evs == ItemsTo(items, ParseItems(evs).value.1)
    decreases |evs|, 1
  {
    var gap := GapFound(evs);
    var (e, rest) := NextStructural(evs).value;
    if e == End("data") {
      items := NoItems(gap);
    } else {
      var value := LayoutFound(rest);
      var others := ItemsFound(ParseValue(rest).value.1);
      items := Item(gap, value, others);
    }
  }

  lemma {:induction false} MembersFound(evs: seq<Event>) returns (members: Members)
    requires ParseMembers(evs).Ok?
    ensures LegalMembers(members) && MembersMeaning(members) == ParseMembers(evs).value.0
    ensures evs == MembersTo(members, ParseMembers(evs).value.1)
    decreases |evs|, 2
  {
    var gap := GapFound(evs);
    var (e, rest) := NextStructural(evs).value;
    if e == End("struct") {
      members := NoMembers(gap);
    } else {
      var naming := ExpectFound(Start("name"), "member", rest);
      var r1 := Expect(Start("name"), "member", rest).value;
      var name := PiecesFound("name", r1);
      var r2 := ReadText("name", r1).value.1;
      var between := ExpectFound(Start("value"), "member", r2);
      var r3 := Expect(Start("value"), "member", r2).value;
      var value := LayoutFound(r3);
      var r4 := ParseValue(r3).value.1;
      var closing := ExpectFound(End("member"), "member", r4);
      var others := MembersFound(Expect(End("member"), "member", r4).value);
      members := Member(gap, naming, name, between, value, closing, others);
    }
  }

  /** The parser reads exactly the grammar: a stream parses to `v` leaving `k` precisely when it
      is some legal layout of `v` in front of `k`. */
  lemma ParserIsTheGrammar(evs: seq<Event>, v: XmlValue, k: seq<Event>)
    ensures ParseValue(evs) == Ok((v, k))
            <==> exists l :: Legal(l) && Meaning(l) == v && evs == ValueTo(l, k)
  {
    if ParseValue(evs) == Ok((v, k)) {
      var l := LayoutFound(evs);
    }
    if exists l :: Legal(l) && Meaning(l) == v && evs == ValueTo(l, k) {
      var l :| Legal(l) && Meaning(l) == v && evs == ValueTo(l, k);
      ValueReadBack(l, k);
    }
  }

  // ----- whole replies

  /** Events a reply may hold before its `<param>` or `<fault>`. */
  predicate Skippable(e: Event) {
    !e.Broken? && !e.Eof? && e != Start("fault") && e != Start("param")
  }

  lemma {:induction false} SkipPrologue(prologue: seq<Event>, evs: seq<Event>)
    requires forall i :: 0 <= i < |prologue| ==> Skippable(prologue[i])
    ensures ParseResponse(prologue + evs) == ParseResponse(evs)
  {
    if prologue == [] {
      assert prologue + evs == evs;
    } else {
      SkipPrologue(prologue[1..], evs);
      assert Skippable(prologue[0]);
      assert (prologue + evs)[1..] == prologue[1..] + evs;
      if prologue[0].Text? && Blank(prologue[0].text) {
        assert NextStructural(prologue + evs) == NextStructural(prologue[1..] + evs);
      }
    }
  }

  /** A reply whose first `<param>` holds any legal layout decodes to that layout's value,
      whatever surrounds it; a `<fault>` there decodes to its message. */
  lemma ReplyReadBack(prologue: seq<Event>, tag: string, gap: Gap, l: Layout, k: seq<Event>)
    requires forall i :: 0 <= i < |prologue| ==> Skippable(prologue[i])
    requires GapOk(gap) && Legal(l) && (tag == "param" || tag == "fault")
    ensures ParseResponse(prologue + ([Start(tag)] + GapTo(gap, [Start("value")] + ValueTo(l, k))))
            == if tag == "param" then Ok(Meaning(l)) else Err(Fault(FaultMessage(Meaning(l))))
  {
    SkipPrologue(prologue, [Start(tag)] + GapTo(gap, [Start("value")] + ValueTo(l, k)));
    SkipGap(gap, Start("value"), ValueTo(l, k));
    ValueReadBack(l, k);
    AnswerHere(tag, GapTo(gap, [Start("value")] + ValueTo(l, k)), ValueTo(l, k));
  }

  lemma AnswerHere(tag: string, evs: seq<Event>, body: seq<Event>)
    requires tag == "param" || tag == "fault"
    requires NextStructural(evs) == Ok((Start("value"), body)) && ParseValue(body).Ok?
    ensures var v := ParseValue(body).value.0;
            ParseResponse([Start(tag)] + evs) == if tag == "param" then Ok(v) else Err(Fault(FaultMessage(v)))
  {
    assert ([Start(tag)] + evs)[1..] == evs;
  }

  /** The fault text does not depend on where its member stands: any struct whose string
      members named `faultString` all say `s` reports `s`. */
  lemma {:induction false} FaultTextWhereverItStands(members: seq<(string, XmlValue)>, s: string)
    requires ("faultString", Str(s)) in members
    requires forall m :: m in members && m.0 == "faultString" && m.1.Str? ==> m.1.s == s
    ensures FaultMessage(Struct(members)) == FaultString(s)
  {
    if members[0] != ("faultString", Str(s)) {
      FaultTextWhereverItStands(members[1..], s);
    }
  }

  // ----- bare strings

  /** The pieces of a bare `<value>text</value>` that survive: whitespace-only text ahead of the
      first entity or word is skipped as layout, and CDATA may not come first. */
  predicate BareFaithful(pieces: seq<Piece>) {
    if pieces == [] then true
    else if pieces[0].Plain? && Blank(pieces[0].text) then pieces[0].text == "" && BareFaithful(pieces[1..])
    else !pieces[0].Raw?
  }

  lemma {:induction false} BareNeverGrows(pieces: seq<Piece>, k: seq<Event>)
    requires TextOk(pieces)
    ensures var r := ParseValue(TextTo(pieces, [End("value")] + k));
            r.Ok? ==> r.value.0.Str? && |r.value.0.s| <= |TextOf(pieces)|
  {
    var evs := TextTo(pieces, [End("value")] + k);
    if pieces != [] {
      assert PieceOk(pieces[0]);
      assert evs[1..] == TextTo(pieces[1..], [End("value")] + k);
      if pieces[0].Plain? && Blank(pieces[0].text) {
        BareNeverGrows(pieces[1..], k);
        assert NextStructural(evs) == NextStructural(evs[1..]);
      } else {
        ReadPieces("value", pieces[1..], k);
      }
    }
  }

  /** A bare string is read back as its text exactly when no whitespace-only piece leads it and
      it does not open with CDATA. Inside `<string>` every split is read back. */
  lemma {:induction false} BareReadBackIff(pieces: seq<Piece>, k: seq<Event>)
    requires TextOk(pieces)
    ensures ParseValue(TextTo(pieces, [End("value")] + k)) == Ok((Str(TextOf(pieces)), k))
            <==> BareFaithful(pieces)
  {
    var evs := TextTo(pieces, [End("value")] + k);
    if pieces == [] {
      assert evs[1..] == k;
    } else {
      assert PieceOk(pieces[0]);
      assert evs[1..] == TextTo(pieces[1..], [End("value")] + k);
      if pieces[0].Plain? && Blank(pieces[0].text) {
        assert NextStructural(evs) == NextStructural(evs[1..]);
        BareReadBackIff(pieces[1..], k);
        BareNeverGrows(pieces[1..], k);
        assert ParseValue(evs) == ParseValue(evs[1..]);
        assert TextOf(pieces) == pieces[0].text + TextOf(pieces[1..]);
        assert pieces[0].text == "" ==> TextOf(pieces) == TextOf(pieces[1..]);
        assert pieces[0].text != "" ==> |TextOf(pieces)| > |TextOf(pieces[1..])|;
      } else {
        ReadPieces("value", pieces[1..], k);
      }
    }
  }

  /** ` &amp;x` as a bare value loses its leading space. */
  lemma BareLosesLeadingSpace()
    ensures var pieces := [Plain(" "), Entity("amp"), Plain("x")];
            && TextOf(pieces) == " &x"
            && ParseValue(TextTo(pieces, [End("value")])) == Ok((Str("&x"), []))
  {
    var tail := [Entity("amp"), Plain("x")];
    var pieces := [Plain(" ")] + tail;
    assert pieces == [Plain(" "), Entity("amp"), Plain("x")];
    assert pieces[1..] == tail && tail[1..] == [Plain("x")];
    var evs := TextTo(pieces, [End("value")] + []);
    assert evs[1..] == TextTo(tail, [End("value")] + []);
    assert NextStructural(evs) == NextStructural(evs[1..]);
    assert TextOk(tail);
    BareReadBackIff(tail, []);
    assert TextOf([Plain("x")]) == "x";
    assert TextOf(tail) == "&" + "x" == "&x";
    assert TextOf(pieces) == " " + "&x";
    assert [End("value")] + [] == [End("value")];
  }
}
