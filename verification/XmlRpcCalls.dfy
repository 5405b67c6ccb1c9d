/**
 * Whole requests read back: a reader of call documents, built from the reply parser's own
 * productions, gives back the method name and the parameters that were printed.
 */
module XmlRpcCalls {
  import opened Basics
  import opened XmlRpc
  import opened XmlRpcGrammar
  import opened XmlRpcRequest

  /** The parameters of a call, through `</params>`. */
  function ReadParams(evs: seq<Event>): Parsed<seq<XmlValue>>
    decreases |evs|
  {
    var (e, rest) :- NextStructural(evs);
    if e == Start("param") then
      var rest :- Expect(Start("value"), "param", rest);
      var (v, rest) :- ParseValue(rest);
      var rest :- Expect(End("param"), "param", rest);
      var (more, rest) :- ReadParams(rest);
      Ok(([v] + more, rest))
    else if e == End("params") then Ok(([], rest))
    else Err(Unexpected("params", e))
  }

  /** A call document: declaration, method name, parameters, and nothing after it. */
  function ReadCall(evs: seq<Event>): Result<(string, seq<XmlValue>), ParseError> {
    var rest :- Expect(Other, "document", evs);
    var rest :- Expect(Start("methodCall"), "document", rest);
    var rest :- Expect(Start("methodName"), "methodCall", rest);
    var (name, rest) :- ReadText("methodName", rest);
    var rest :- Expect(Start("params"), "methodCall", rest);
    var (params, rest) :- ReadParams(rest);
    var rest :- Expect(End("methodCall"), "methodCall", rest);
    if rest == [] then Ok((name, params)) else Err(Unexpected("document", rest[0]))
  }

  // ----- parameters

  lemma NextIs(e: Event, k: seq<Event>)
    requires Structural(e)
    ensures NextStructural([e] + k) == Ok((e, k))
  {
    assert ([e] + k)[1..] == k;
  }

  /** One parameter in front of others. */
  lemma OneParam(l: Layout, k: seq<Event>)
    requires Legal(l) && ReadParams(k).Ok?
    ensures ReadParams([Start("param")] + ([Start("value")] + ValueTo(l, [End("param")] + k)))
            == Ok(([Meaning(l)] + ReadParams(k).value.0, ReadParams(k).value.1))
  {
    var inside := ValueTo(l, [End("param")] + k);
    NextIs(Start("param"), [Start("value")] + inside);
    NextIs(Start("value"), inside);
    ValueReadBack(l, [End("param")] + k);
    NextIs(End("param"), k);
  }

  lemma NoParams(k: seq<Event>)
    ensures ReadParams([End("params")] + k) == Ok(([], k))
  {
    NextIs(End("params"), k);
  }

  const END := Close("params", Close("methodCall", Done))

  lemma EndEvents()
    ensures Events(END) == [End("params")] + [End("methodCall")]
  {
    assert Events(Close("methodCall", Done)) == [End("methodCall")] + [];
  }

  lemma FlatParamEvents(p: Param, k: Doc)
    requires Decodable(p)
    ensures Events(Open("param", Open("value", ParamTo(p, Close("value", Close("param", k))))))
            == [Start("param")] + ([Start("value")] + ValueTo(Element([], ParamBody(p), []), [End("param")] + Events(k)))
  {
    var closing := Close("value", Close("param", k));
    ParamEvents(p, closing);
    assert Events(closing) == [End("value")] + ([End("param")] + Events(k));
    TightElement(ParamBody(p), [End("param")] + Events(k));
  }

  ghost predicate ReadsAs(d: Doc, params: seq<XmlValue>, rest: seq<Event>) {
    ReadParams(Events(d)) == Ok((params, rest))
  }

  lemma FlatParamRead(p: Param, k: Doc, params: seq<XmlValue>, rest: seq<Event>)
    requires Decodable(p) && ReadsAs(k, params, rest)
    ensures ReadsAs(FlatParamTo(p, k), [ParamValue(p)] + params, rest)
  {
    FlatParamEvents(p, k);
    ParamMeaning(p);
    TightLegal(ParamBody(p));
    OneParam(Element([], ParamBody(p), []), Events(k));
  }

  /** `vs` is what `ps` stand for, one by one. */
  ghost predicate StandFor(ps: seq<Param>, vs: seq<XmlValue>) {
    |vs| == |ps| && forall i :: 0 <= i < |ps| ==> Decodable(ps[i]) && vs[i] == ParamValue(ps[i])
  }

  lemma {:induction false} FlatParamsRead(ps: seq<Param>, vs: seq<XmlValue>, k: Doc, rest: seq<Event>)
    requires StandFor(ps, vs) && ReadsAs(k, [], rest)
    ensures ReadsAs(FlatParamsTo(ps, k), vs, rest)
  {
    if ps == [] {
      assert vs == [];
    } else {
      FlatParamsRead(ps[1..], vs[1..], k, rest);
      FlatParamRead(ps[0], FlatParamsTo(ps[1..], k), vs[1..], rest);
      assert vs == [ParamValue(ps[0])] + vs[1..];
    }
  }

  // ----- whole documents

  lemma HeadUnfolds(name: string, k: Doc)
    ensures Events(HeadTo(name, k))
            == [Other] + ([Start("methodCall")] + ([Start("methodName")]
               + TextTo(PiecesOf(name), [End("methodName")] + ([Start("params")] + Events(k)))))
  {
    var k1 := Close("methodName", Open("params", k));
    assert Events(Open("params", k)) == [Start("params")] + Events(k);
    assert Events(k1) == [End("methodName")] + ([Start("params")] + Events(k));
    var d2 := Open("methodName", Escaped(name, k1));
    assert Events(d2) == [Start("methodName")] + TextTo(PiecesOf(name), Events(k1));
    assert Events(Open("methodCall", d2)) == [Start("methodCall")] + Events(d2);
  }

  lemma NameRead(name: string, k: seq<Event>)
    ensures ReadText("methodName", TextTo(PiecesOf(name), [End("methodName")] + k)) == Ok((name, k))
  {
    PiecesSayIt(name);
    ReadPieces("methodName", PiecesOf(name), k);
  }

  lemma CallRead(name: string, text: seq<Event>, params: seq<Event>)
    requires ReadText("methodName", text) == Ok((name, [Start("params")] + params))
    requires ReadParams(params).Ok? && ReadParams(params).value.1 == [End("methodCall")]
    ensures ReadCall([Other] + ([Start("methodCall")] + ([Start("methodName")] + text)))
            == Ok((name, ReadParams(params).value.0))
  {
    NextIs(Other, [Start("methodCall")] + ([Start("methodName")] + text));
    NextIs(Start("methodCall"), [Start("methodName")] + text);
    NextIs(Start("methodName"), text);
    NextIs(Start("params"), params);
    NextIs(End("methodCall"), []);
    assert [End("methodCall")] + [] == [End("methodCall")];
  }

  lemma HeadRead(name: string, k: Doc)
    requires ReadParams(Events(k)).Ok? && ReadParams(Events(k)).value.1 == [End("methodCall")]
    ensures ReadCall(Events(HeadTo(name, k))) == Ok((name, ReadParams(Events(k)).value.0))
  {
    HeadUnfolds(name, k);
    var inner := [Start("params")] + Events(k);
    NameRead(name, inner);
    CallRead(name, TextTo(PiecesOf(name), [End("methodName")] + inner), Events(k));
  }

  lemma {:induction false} TidyFlat(ps: seq<Param>, k: Doc)
    requires (forall p :: p in ps ==> Decodable(p)) && Tidy(k)
    ensures Tidy(FlatParamsTo(ps, k))
  {
    if ps != [] {
      assert ps[0] in ps;
      TidyFlat(ps[1..], k);
      TagNames();
      var rest := Close("value", Close("param", FlatParamsTo(ps[1..], k)));
      assert Tidy(rest);
      TidyParam(ps[0], rest);
    }
  }

  /** A printed call of string and integer parameters, tokenised and read, is the same method with
      the same parameters in the same order. */
  lemma RequestReadBack(name: string, ps: seq<Param>)
    requires forall p :: p in ps ==> Decodable(p)
    ensures ReadCall(Lex(Print(Request(name, ps)))) == Ok((name, ParamValues(ps)))
  {
    EndRead();
    TidyFlat(ps, END);
    TidyHead(name, FlatParamsTo(ps, END));
    LexPrint(Request(name, ps));
    FlatParamsRead(ps, ParamValues(ps), END, [End("methodCall")]);
    HeadRead(name, FlatParamsTo(ps, END));
  }

  lemma EndRead()
    ensures Tidy(END) && ReadParams(Events(END)) == Ok(([], [End("methodCall")]))
  {
    TagNames();
    EndEvents();
    NoParams([End("methodCall")]);
  }

  lemma BatchMeaning(cs: seq<MethodCall>)
    requires AllDecodable(cs)
    ensures Legal(BatchLayout(cs)) && Meaning(BatchLayout(cs)) == Array(CallValues(cs))
  {
    CallsMeaning(cs);
    TightLegal(ArrayBody([], CallItems(cs), []));
  }

  function BatchArray(cs: seq<MethodCall>): Doc {
    Open("array", Open("data", CallsTo(cs, Close("data", Close("array", Close("value", TAIL))))))
  }

  lemma BatchParamRead(cs: seq<MethodCall>)
    requires AllDecodable(cs)
    ensures ReadParams(Events(Open("param", Open("value", BatchArray(cs)))))
            == Ok(([Array(CallValues(cs))], [End("methodCall")]))
  {
    BatchBody(cs);
    ParamOpening(BatchArray(cs));
    EndRead();
    assert Events(TAIL) == [End("param")] + Events(END);
    BatchMeaning(cs);
    OneParam(BatchLayout(cs), Events(END));
    assert [Array(CallValues(cs))] + [] == [Array(CallValues(cs))];
  }

  /** A printed multicall is a call of `system.multicall` whose one argument is the array of calls. */
  lemma MulticallIsACall(cs: seq<MethodCall>)
    requires AllDecodable(cs)
    ensures ReadCall(Lex(Print(Multicall(cs)))) == Ok(("system.multicall", [Array(CallValues(cs))]))
  {
    BatchIsACall("system.multicall", cs);
  }

  lemma BatchIsACall(name: string, cs: seq<MethodCall>)
    requires AllDecodable(cs)
    ensures ReadCall(Lex(Print(Batch(name, cs)))) == Ok((name, [Array(CallValues(cs))]))
  {
    TidyBatch(name, cs);
    LexPrint(Batch(name, cs));
    BatchParamRead(cs);
    HeadRead(name, Open("param", Open("value", BatchArray(cs))));
  }
}
