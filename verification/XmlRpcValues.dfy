/** Every value tree has a layout, so what is proved of layouts is proved of all values. */
module XmlRpcValues {
  import opened Basics
  import opened XmlRpc
  import opened XmlRpcGrammar
  import opened XmlRpcRequest

  lemma {:induction false} EveryValueHasALayout(v: XmlValue) returns (l: Layout)
    ensures Legal(l) && Meaning(l) == v
    decreases v
  {
    match v
    case Str(s) =>
      OnePiece(Plain(s), []);
      l := Element([], StringBody([Plain(s)]), []);
    case Int(n) =>
      OnePiece(Plain(Decimal(n)), []);
      DecimalReadBack(n);
      l := Element([], IntBody("i8", [Plain(Decimal(n))]), []);
    case Array(items) =>
      var laid := EveryListHasALayout(items);
      l := Element([], ArrayBody([], laid, []), []);
    case Struct(members) =>
      var laid := EveryStructHasALayout(members);
      l := Element([], StructBody(laid), []);
  }

  lemma {:induction false} EveryListHasALayout(vs: seq<XmlValue>) returns (items: Items)
    ensures LegalItems(items) && ItemsMeaning(items) == vs
    decreases vs
  {
    if vs == [] {
      items := NoItems([]);
    } else {
      var first := EveryValueHasALayout(vs[0]);
      var others := EveryListHasALayout(vs[1..]);
      items := Item([], first, others);
    }
  }

  lemma {:induction false} EveryMemberHasALayout(m: (string, XmlValue)) returns (l: Layout)
    ensures Legal(l) && Meaning(l) == m.1
    decreases m
  {
    match m
    case (_, value) => l := EveryValueHasALayout(value);
  }

  lemma {:induction false} EveryStructHasALayout(ms: seq<(string, XmlValue)>) returns (members: Members)
    ensures LegalMembers(members) && MembersMeaning(members) == ms
    decreases ms
  {
    if ms == [] {
      members := NoMembers([]);
    } else {
      var first := EveryMemberHasALayout(ms[0]);
      var others := EveryStructHasALayout(ms[1..]);
      OnePiece(Plain(ms[0].0), []);
      members := Member([], [], [Plain(ms[0].0)], [], first, [], others);
    }
  }

  /** Every value tree can be written down, and is read back from in front of any events. */
  lemma EveryValueReadBack(v: XmlValue, k: seq<Event>)
    ensures exists l :: Legal(l) && Meaning(l) == v && ParseValue(ValueTo(l, k)) == Ok((v, k))
  {
    var l := EveryValueHasALayout(v);
    ValueReadBack(l, k);
  }
}
