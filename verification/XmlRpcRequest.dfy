/**
 * XML-RPC requests: printed as text by appending, and read back through the reply parser's own
 * grammar. `Lex` stands for the part of quick-xml's tokenisation that printed requests use.
 *
 * Every `...To(x, k)` is the document `x` in front of the document `k`.
 */
module XmlRpcRequest {
  import opened Basics
  import opened XmlRpc
  import opened XmlRpcGrammar

  /** `Base64Param` holds text that is already base64: the encoder is not part of the model. */
  datatype Param = StrParam(s: string) | IntParam(n: I64) | Base64Param(encoded: string)

  datatype MethodCall = MethodCall(name: string, params: seq<Param>)

  // ----- numbers

  function Digits(n: nat): string {
    if n < 10 then [('0' as int + n) as char]
    else Digits(n / 10) + [('0' as int + n % 10) as char]
  }

  /** `i64::to_string`. */
  function Decimal(n: int): string {
    if n < 0 then "-" + Digits(-n) else Digits(n)
  }

  lemma {:induction false} DigitsReadBack(n: nat)
    ensures Digits(n) != [] && forall i :: 0 <= i < |Digits(n)| ==> IsDigit(Digits(n)[i])
    ensures DigitsValue(Digits(n)) == n
  {
    if n >= 10 {
      DigitsReadBack(n / 10);
      var d := Digits(n);
      assert d[..|d| - 1] == Digits(n / 10);
    } else {
      assert Digits(n)[..0] == [];
      assert DigitsValue([]) == 0;
    }
  }

  lemma DecimalReadBack(n: I64)
    ensures ParseI64(TrimEnd(TrimStart(Decimal(n)))) == Some(n)
    ensures Decimal(n) != [] && '<' !in Decimal(n) && '&' !in Decimal(n)
  {
    var whole: int := n;
    var m: nat := if whole < 0 then -whole else whole;
    DigitsReadBack(m);
    var d := Decimal(n);
    assert IsDigit(Digits(m)[|Digits(m)| - 1]) && IsDigit(Digits(m)[0]);
    assert d[|d| - 1] == Digits(m)[|Digits(m)| - 1];
    assert TrimStart(d) == d;
    assert TrimEnd(d) == d;
    if n < 0 {
      assert d[1..] == Digits(m);
    }
  }

  // ----- text

  predicate Special(c: char) { c == '<' || c == '>' || c == '&' || c == '\'' || c == '"' }

  function EntityName(c: char): string
    requires Special(c)
  {
    if c == '<' then "lt" else if c == '>' then "gt" else if c == '&' then "amp"
    else if c == '\'' then "apos" else "quot"
  }

  /** `quick_xml::escape::escape`, in front of `k`. */
  function EscapeTo(s: string, k: string): string {
    if s == [] then k
    else if Special(s[0]) then "&" + EntityName(s[0]) + ";" + EscapeTo(s[1..], k)
    else [s[0]] + EscapeTo(s[1..], k)
  }

  function Escape(s: string): string { EscapeTo(s, "") }

  /** A request document, markup by markup, each in front of what follows it. */
  datatype Doc =
    | Done
    | Declaration(next: Doc)
    | Open(tag: string, next: Doc)
    | Close(tag: string, next: Doc)
    | Word(word: string, next: Doc)
    | Escaped(text: string, next: Doc)

  const DECLARATION := "<?xml version=\"1.0\"?>"

  function OpenTag(tag: string): string { "<" + tag + ">" }

  function CloseTag(tag: string): string { "</" + tag + ">" }

  function Print(d: Doc): string {
    match d
    case Done => ""
    case Declaration(next) => DECLARATION + Print(next)
    case Open(tag, next) => OpenTag(tag) + Print(next)
    case Close(tag, next) => CloseTag(tag) + Print(next)
    case Word(word, next) => word + Print(next)
    case Escaped(text, next) => EscapeTo(text, Print(next))
  }

  function ParamTo(p: Param, k: Doc): Doc {
    match p
    case StrParam(s) => Open("string", Escaped(s, Close("string", k)))
    case IntParam(n) => Open("i8", Word(Decimal(n), Close("i8", k)))
    case Base64Param(e) => Open("base64", Word(e, Close("base64", k)))
  }

  function ParamsTo(ps: seq<Param>, k: Doc): Doc {
    if ps == [] then k
    else Open("value", ParamTo(ps[0], Close("value", ParamsTo(ps[1..], k))))
  }

  function NameMemberTo(name: string, k: Doc): Doc {
    Open("member", Open("name", Word("methodName", Close("name", Open("value",
      ParamTo(StrParam(name), Close("value", Close("member", k))))))))
  }

  function ParamsMemberTo(ps: seq<Param>, k: Doc): Doc {
    Open("member", Open("name", Word("params", Close("name", Open("value", Open("array",
      Open("data", ParamsTo(ps, Close("data", Close("array", Close("value", Close("member", k)))))))))))
    )
  }

  function CallTo(c: MethodCall, k: Doc): Doc {
    Open("value", Open("struct", NameMemberTo(c.name, ParamsMemberTo(c.params,
      Close("struct", Close("value", k))))))
  }

  function CallsTo(cs: seq<MethodCall>, k: Doc): Doc {
    if cs == [] then k else CallTo(cs[0], CallsTo(cs[1..], k))
  }

  const TAIL := Close("param", Close("params", Close("methodCall", Done)))

  function HeadTo(name: string, k: Doc): Doc {
    Declaration(Open("methodCall", Open("methodName", Escaped(name, Close("methodName",
      Open("params", k))))))
  }

  /** A call of `name` whose one argument is the array of `cs`. */
  function Batch(name: string, cs: seq<MethodCall>): Doc {
    HeadTo(name, Open("param", Open("value", Open("array", Open("data",
      CallsTo(cs, Close("data", Close("array", Close("value", TAIL)))))))))
  }

  /** The `system.multicall` document for `cs`. */
  function Multicall(cs: seq<MethodCall>): Doc {
    Batch("system.multicall", cs)
  }

  function FlatParamTo(p: Param, k: Doc): Doc {
    Open("param", Open("value", ParamTo(p, Close("value", Close("param", k)))))
  }

  function FlatParamsTo(ps: seq<Param>, k: Doc): Doc {
    if ps == [] then k else FlatParamTo(ps[0], FlatParamsTo(ps[1..], k))
  }

  /** The document for one call. */
  function Request(name: string, ps: seq<Param>): Doc {
    HeadTo(name, FlatParamsTo(ps, Close("params", Close("methodCall", Done))))
  }

  // ----- the printers as written: one growing buffer
  //
  // `Printed(r, k, out, d)`: with `k` still to come, the buffer grew from `out` by `d`.

  ghost predicate Printed(r: string, k: Doc, out: string, d: Doc) {
    r + Print(k) == out + Print(d)
  }

  lemma {:induction false} EscapeAppend(s: string, k: string)
    ensures EscapeTo(s, k) == Escape(s) + k
  {
    if s != [] {
      EscapeAppend(s[1..], k);
    }
  }

  method PushText(out: string, text: string, ghost k: Doc) returns (r: string)
    ensures r + Print(k) == out + (text + Print(k))
  {
    r := out + text;
  }

  method PushOpen(out: string, tag: string, ghost k: Doc) returns (r: string)
    ensures Printed(r, k, out, Open(tag, k))
  {
    r := PushText(out, OpenTag(tag), k);
  }

  method PushClose(out: string, tag: string, ghost k: Doc) returns (r: string)
    ensures Printed(r, k, out, Close(tag, k))
  {
    r := PushText(out, CloseTag(tag), k);
  }

  method PushEscaped(out: string, text: string, ghost k: Doc) returns (r: string)
    ensures Printed(r, k, out, Escaped(text, k))
  {
    EscapeAppend(text, Print(k));
    r := PushText(out, Escape(text), k);
  }

  method WriteParamValue(out: string, p: Param, ghost k: Doc) returns (r: string)
    ensures Printed(r, k, out, ParamTo(p, k))
  {
    match p
    case StrParam(s) =>
      r := PushOpen(out, "string", Escaped(s, Close("string", k)));
      r := PushEscaped(r, s, Close("string", k));
      r := PushClose(r, "string", k);
    case IntParam(n) =>
      r := PushOpen(out, "i8", Word(Decimal(n), Close("i8", k)));
      r := PushText(r, Decimal(n), Close("i8", k));
      r := PushClose(r, "i8", k);
    case Base64Param(e) =>
      r := PushOpen(out, "base64", Word(e, Close("base64", k)));
      r := PushText(r, e, Close("base64", k));
      r := PushClose(r, "base64", k);
  }

  method WriteParams(out: string, ps: seq<Param>, ghost k: Doc) returns (r: string)
    ensures Printed(r, k, out, ParamsTo(ps, k))
  {
    r := out;
    for i := 0 to |ps|
      invariant Printed(r, ParamsTo(ps[i..], k), out, ParamsTo(ps, k))
    {
      assert ps[i..][1..] == ps[i + 1..];
      ghost var others := ParamsTo(ps[i + 1..], k);
      r := PushOpen(r, "value", ParamTo(ps[i], Close("value", others)));
      r := WriteParamValue(r, ps[i], Close("value", others));
      r := PushClose(r, "value", others);
    }
    assert ps[|ps|..] == [];
  }

  method WriteNameMember(out: string, name: string, ghost k: Doc) returns (r: string)
    ensures Printed(r, k, out, NameMemberTo(name, k))
  {
    ghost var k3 := Close("value", Close("member", k));
    ghost var k2 := Open("value", ParamTo(StrParam(name), k3));
    ghost var k1 := Word("methodName", Close("name", k2));
    r := PushOpen(out, "member", Open("name", k1));
    r := PushOpen(r, "name", k1);
    r := PushText(r, "methodName", Close("name", k2));
    r := PushClose(r, "name", k2);
    r := PushOpen(r, "value", ParamTo(StrParam(name), k3));
    r := WriteParamValue(r, StrParam(name), k3);
    r := PushClose(r, "value", Close("member", k));
    r := PushClose(r, "member", k);
  }

  method WriteParamsMember(out: string, ps: seq<Param>, ghost k: Doc) returns (r: string)
    ensures Printed(r, k, out, ParamsMemberTo(ps, k))
  {
    ghost var k5 := Close("value", Close("member", k));
    ghost var k4 := ParamsTo(ps, Close("data", Close("array", k5)));
    ghost var k3 := Open("array", Open("data", k4));
    ghost var k2 := Open("value", k3);
    ghost var k1 := Word("params", Close("name", k2));
    r := PushOpen(out, "member", Open("name", k1));
    r := PushOpen(r, "name", k1);
    r := PushText(r, "params", Close("name", k2));
    r := PushClose(r, "name", k2);
    r := PushOpen(r, "value", k3);
    r := PushOpen(r, "array", Open("data", k4));
    r := PushOpen(r, "data", k4);
    r := WriteParams(r, ps, Close("data", Close("array", k5)));
    r := PushClose(r, "data", Close("array", k5));
    r := PushClose(r, "array", k5);
    r := PushClose(r, "value", Close("member", k));
    r := PushClose(r, "member", k);
  }

  method WriteCall(out: string, c: MethodCall, ghost k: Doc) returns (r: string)
    ensures Printed(r, k, out, CallTo(c, k))
  {
    ghost var k2 := Close("struct", Close("value", k));
    ghost var k1 := ParamsMemberTo(c.params, k2);
    r := PushOpen(out, "value", Open("struct", NameMemberTo(c.name, k1)));
    r := PushOpen(r, "struct", NameMemberTo(c.name, k1));
    r := WriteNameMember(r, c.name, k1);
    r := WriteParamsMember(r, c.params, k2);
    r := PushClose(r, "struct", Close("value", k));
    r := PushClose(r, "value", k);
  }

  method WriteHead(name: string, ghost k: Doc) returns (r: string)
    ensures r + Print(k) == Print(HeadTo(name, k))
  {
    ghost var k2 := Close("methodName", Open("params", k));
    ghost var k1 := Open("methodName", Escaped(name, k2));
    r := PushText("", DECLARATION, Open("methodCall", k1));
    r := PushOpen(r, "methodCall", k1);
    r := PushOpen(r, "methodName", Escaped(name, k2));
    r := PushEscaped(r, name, k2);
    r := PushClose(r, "methodName", Open("params", k));
    r := PushOpen(r, "params", k);
  }

  method MulticallRequestXml(calls: seq<MethodCall>) returns (out: string)
    ensures out == Print(Multicall(calls))
  {
    ghost var end := Close("data", Close("array", Close("value", TAIL)));
    ghost var k := CallsTo(calls, end);
    out := WriteHead("system.multicall", Open("param", Open("value", Open("array", Open("data", k)))));
    out := PushOpen(out, "param", Open("value", Open("array", Open("data", k))));
    out := PushOpen(out, "value", Open("array", Open("data", k)));
    out := PushOpen(out, "array", Open("data", k));
    out := PushOpen(out, "data", k);
    for i := 0 to |calls|
      invariant out + Print(CallsTo(calls[i..], end)) == Print(Multicall(calls))
    {
      assert calls[i..][1..] == calls[i + 1..];
      out := WriteCall(out, calls[i], CallsTo(calls[i + 1..], end));
    }
    assert calls[|calls|..] == [];
    out := PushClose(out, "data", Close("array", Close("value", TAIL)));
    out := PushClose(out, "array", Close("value", TAIL));
    out := PushClose(out, "value", TAIL);
    out := PushClose(out, "param", Close("params", Close("methodCall", Done)));
    out := PushClose(out, "params", Close("methodCall", Done));
    out := PushClose(out, "methodCall", Done);
  }

  method RequestXml(name: string, params: seq<Param>) returns (out: string)
    ensures out == Print(Request(name, params))
  {
    ghost var end := Close("params", Close("methodCall", Done));
    out := WriteHead(name, FlatParamsTo(params, end));
    for i := 0 to |params|
      invariant out + Print(FlatParamsTo(params[i..], end)) == Print(Request(name, params))
    {
      assert params[i..][1..] == params[i + 1..];
      ghost var others := FlatParamsTo(params[i + 1..], end);
      ghost var k := Close("value", Close("param", others));
      out := PushOpen(out, "param", Open("value", ParamTo(params[i], k)));
      out := PushOpen(out, "value", ParamTo(params[i], k));
      out := WriteParamValue(out, params[i], k);
      out := PushClose(out, "value", Close("param", others));
      out := PushClose(out, "param", others);
    }
    assert params[|params|..] == [];
    out := PushClose(out, "params", Close("methodCall", Done));
    out := PushClose(out, "methodCall", Done);
  }

  // ----- tokenising

  function IndexOf(s: string, c: char): (n: nat)
    ensures n <= |s|
  {
    if s == [] || s[0] == c then 0 else 1 + IndexOf(s[1..], c)
  }

  function TextRun(s: string): (n: nat)
    ensures n <= |s|
  {
    if s == [] || s[0] == '<' || s[0] == '&' then 0 else 1 + TextRun(s[1..])
  }

  function Markup(inside: string): Event {
    if inside == [] then Broken
    else if inside[0] == '?' || inside[0] == '!' then Other
    else if inside[0] == '/' then End(inside[1..])
    else if inside[|inside| - 1] == '/' then Empty(inside[..|inside| - 1])
    else Start(inside)
  }

  function Lex(s: string): seq<Event>
    decreases |s|
  {
    if s == [] then []
    else if s[0] == '<' then
      var n := IndexOf(s, '>');
      if n == |s| then [Broken] else [Markup(s[1..n])] + Lex(s[n + 1..])
    else if s[0] == '&' then
      var n := IndexOf(s, ';');
      if n == |s| then [Broken] else [GeneralRef(s[1..n])] + Lex(s[n + 1..])
    else
      var n := TextRun(s);
      [Text(s[..n])] + Lex(s[n..])
  }

  lemma {:induction false} IndexOfEnd(a: string, c: char, k: string)
    requires c !in a
    ensures IndexOf(a + [c] + k, c) == |a|
  {
    if a != [] {
      assert (a + [c] + k)[1..] == a[1..] + [c] + k;
      IndexOfEnd(a[1..], c, k);
    }
  }

  predicate TagName(tag: string) {
    tag != [] && '>' !in tag && tag[0] !in "/?!" && tag[|tag| - 1] != '/'
  }

  lemma LexOpen(tag: string, k: string)
    requires TagName(tag)
    ensures Lex(OpenTag(tag) + k) == [Start(tag)] + Lex(k)
  {
    var s := OpenTag(tag) + k;
    var a := "<" + tag;
    assert s == a + ['>'] + k;
    IndexOfEnd(a, '>', k);
    assert s[1..|a|] == tag && s[|a| + 1..] == k;
  }

  lemma LexClose(tag: string, k: string)
    requires '>' !in tag
    ensures Lex(CloseTag(tag) + k) == [End(tag)] + Lex(k)
  {
    var s := CloseTag(tag) + k;
    var a := "</" + tag;
    assert s == a + ['>'] + k;
    IndexOfEnd(a, '>', k);
    assert s[1..|a|] == "/" + tag && s[|a| + 1..] == k;
    assert ("/" + tag)[1..] == tag;
  }

  lemma {:induction false} TextRunEnd(a: string, k: string)
    requires '<' !in a && '&' !in a && k != [] && (k[0] == '<' || k[0] == '&')
    ensures TextRun(a + k) == |a|
  {
    if a == [] {
      assert a + k == k;
    } else {
      assert (a + k)[1..] == a[1..] + k;
      TextRunEnd(a[1..], k);
    }
  }

  lemma LexText(a: string, k: string)
    requires a != [] && '<' !in a && '&' !in a && k != [] && (k[0] == '<' || k[0] == '&')
    ensures Lex(a + k) == [Text(a)] + Lex(k)
  {
    TextRunEnd(a, k);
    assert (a + k)[0] == a[0] && a[0] in a;
    assert (a + k)[..|a|] == a && (a + k)[|a|..] == k;
  }

  function PlainRun(s: string): (n: nat)
    ensures n <= |s|
    ensures forall i :: 0 <= i < n ==> !Special(s[i])
    ensures n < |s| ==> Special(s[n])
  {
    if s == [] || Special(s[0]) then 0 else 1 + PlainRun(s[1..])
  }

  /** How escaped text comes back: each escaped character as its own entity. */
  function PiecesOf(s: string): seq<Piece>
    decreases |s|
  {
    if s == [] then []
    else if Special(s[0]) then [Entity(EntityName(s[0]))] + PiecesOf(s[1..])
    else
      var n := PlainRun(s);
      [Plain(s[..n])] + PiecesOf(s[n..])
  }

  lemma {:induction false} PiecesSayIt(s: string)
    ensures TextOk(PiecesOf(s)) && TextOf(PiecesOf(s)) == s
    decreases |s|
  {
    if s != [] {
      var n := if Special(s[0]) then 1 else PlainRun(s);
      PiecesSayIt(s[n..]);
      assert PiecesOf(s)[1..] == PiecesOf(s[n..]);
      assert PieceText(PiecesOf(s)[0]) == s[..n];
      assert s == s[..n] + s[n..];
    }
  }

  lemma {:induction false} EscapePlain(s: string, n: nat, k: string)
    requires n <= |s| && forall i :: 0 <= i < n ==> !Special(s[i])
    ensures EscapeTo(s, k) == s[..n] + EscapeTo(s[n..], k)
  {
    if n == 0 {
      assert s[..0] == [] && s[0..] == s;
    } else {
      EscapePlain(s[1..], n - 1, k);
      assert s[1..][n - 1..] == s[n..];
      assert s[..n] == [s[0]] + s[1..][..n - 1];
    }
  }

  lemma LexEntity(name: string, more: string)
    requires ';' !in name
    ensures Lex("&" + name + ";" + more) == [GeneralRef(name)] + Lex(more)
  {
    var a := "&" + name;
    var s := a + [';'] + more;
    IndexOfEnd(a, ';', more);
    assert s[1..|a|] == name;
    assert s[|a| + 1..] == more;
  }

  lemma {:induction false} LexEscaped(s: string, k: string)
    requires k != [] && k[0] == '<'
    ensures Lex(EscapeTo(s, k)) == TextTo(PiecesOf(s), Lex(k))
    decreases |s|
  {
    if s == [] {
    } else if Special(s[0]) {
      LexEscaped(s[1..], k);
      LexEntity(EntityName(s[0]), EscapeTo(s[1..], k));
      assert PiecesOf(s)[1..] == PiecesOf(s[1..]);
    } else {
      var n := PlainRun(s);
      LexEscaped(s[n..], k);
      EscapePlain(s, n, k);
      var more := EscapeTo(s[n..], k);
      assert more != [] && (more[0] == '<' || more[0] == '&');
      LexText(s[..n], more);
      assert PiecesOf(s)[1..] == PiecesOf(s[n..]);
    }
  }

  lemma LexDeclaration(k: string)
    ensures Lex(DECLARATION + k) == [Other] + Lex(k)
  {
    var a := DECLARATION[..|DECLARATION| - 1];
    assert DECLARATION == a + ['>'] && '>' !in a;
    assert DECLARATION + k == a + ['>'] + k;
    IndexOfEnd(a, '>', k);
    assert (DECLARATION + k)[|a| + 1..] == k;
    assert (DECLARATION + k)[1..|a|][0] == '?';
  }

  /** The events of a document. */
  function Events(d: Doc): seq<Event> {
    match d
    case Done => []
    case Declaration(next) => [Other] + Events(next)
    case Open(tag, next) => [Start(tag)] + Events(next)
    case Close(tag, next) => [End(tag)] + Events(next)
    case Word(word, next) => [Text(word)] + Events(next)
    case Escaped(text, next) => TextTo(PiecesOf(text), Events(next))
  }

  /** Text is always followed by markup, and words and tags need no escaping. */
  predicate Tidy(d: Doc) {
    match d
    case Done => true
    case Declaration(next) => Tidy(next)
    case Open(tag, next) => TagName(tag) && Tidy(next)
    case Close(tag, next) => '>' !in tag && Tidy(next)
    case Word(word, next) =>
      word != [] && '<' !in word && '&' !in word && (next.Open? || next.Close?) && Tidy(next)
    case Escaped(_, next) => (next.Open? || next.Close?) && Tidy(next)
  }

  /** Tokenising printed text gives the document's events, whatever the escaped text holds. */
  lemma {:induction false} LexPrint(d: Doc)
    requires Tidy(d)
    ensures Lex(Print(d)) == Events(d)
  {
    match d
    case Done =>
    case Declaration(next) => LexPrint(next); LexDeclaration(Print(next));
    case Open(tag, next) => LexPrint(next); LexOpen(tag, Print(next));
    case Close(tag, next) => LexPrint(next); LexClose(tag, Print(next));
    case Word(word, next) => LexPrint(next); LexText(word, Print(next));
    case Escaped(text, next) => LexPrint(next); LexEscaped(text, Print(next));
  }

  // ----- decoding a printed request

  predicate Decodable(p: Param) { !p.Base64Param? }

  function ParamValue(p: Param): XmlValue
    requires Decodable(p)
  {
    match p
    case StrParam(s) => Str(s)
    case IntParam(n) => Int(n)
  }

  function ParamValues(ps: seq<Param>): seq<XmlValue>
    requires forall p :: p in ps ==> Decodable(p)
  {
    seq(|ps|, i requires 0 <= i < |ps| => ParamValue(ps[i]))
  }

  /** The struct a multicall entry stands for. */
  function CallValue(c: MethodCall): XmlValue
    requires forall p :: p in c.params ==> Decodable(p)
  {
    Struct([("methodName", Str(c.name)), ("params", Array(ParamValues(c.params)))])
  }

  function ParamBody(p: Param): Body
    requires Decodable(p)
  {
    match p
    case StrParam(s) => StringBody(PiecesOf(s))
    case IntParam(n) => IntBody("i8", [Plain(Decimal(n))])
  }

  lemma OnePiece(p: Piece, k: seq<Event>)
    ensures TextTo([p], k) == [PieceEvent(p)] + k && TextOf([p]) == PieceText(p)
  {
    assert [p][1..] == [];
    assert TextOf([]) == "";
    assert PieceText(p) + "" == PieceText(p);
  }

  /** An element with no layout whitespace. */
  lemma TightElement(b: Body, k: seq<Event>)
    ensures ValueTo(Element([], b, []), k) == [Start(TagOf(b))] + BodyTo(b, [End("value")] + k)
  {
  }

  /** A member with no layout whitespace, named by one word. */
  lemma TightMember(word: string, value: Layout, k: seq<Event>)
    ensures MemberTo([], [Plain(word)], [], value, [], k)
            == [Start("name")] + ([Text(word)] + ([End("name")]
               + ([Start("value")] + ValueTo(value, [End("member")] + k))))
  {
    var inner := [Start("value")] + ValueTo(value, [End("member")] + k);
    OnePiece(Plain(word), [End("name")] + inner);
  }

  lemma ParamEvents(p: Param, k: Doc)
    requires Decodable(p)
    ensures Events(ParamTo(p, k)) == [Start(TagOf(ParamBody(p)))] + BodyTo(ParamBody(p), Events(k))
  {
    match p
    case StrParam(s) =>
      assert Events(Close("string", k)) == [End("string")] + Events(k);
    case IntParam(n) =>
      assert Events(Close("i8", k)) == [End("i8")] + Events(k);
      assert Events(Word(Decimal(n), Close("i8", k))) == [Text(Decimal(n))] + ([End("i8")] + Events(k));
      OnePiece(Plain(Decimal(n)), [End("i8")] + Events(k));
  }

  lemma ParamMeaning(p: Param)
    requires Decodable(p)
    ensures LegalBody(ParamBody(p)) && BodyMeaning(ParamBody(p)) == ParamValue(p)
  {
    match p
    case StrParam(s) =>
      PiecesSayIt(s);
    case IntParam(n) =>
      DecimalReadBack(n);
      OnePiece(Plain(Decimal(n)), []);
  }

  function ParamItems(ps: seq<Param>): Items
    requires forall p :: p in ps ==> Decodable(p)
  {
    if ps == [] then NoItems([])
    else Item([], Element([], ParamBody(ps[0]), []), ParamItems(ps[1..]))
  }

  lemma {:induction false} ParamsEvents(ps: seq<Param>, k: Doc)
    requires forall p :: p in ps ==> Decodable(p)
    ensures Events(ParamsTo(ps, Close("data", k))) == ItemsTo(ParamItems(ps), Events(k))
  {
    if ps != [] {
      var others := ParamsTo(ps[1..], Close("data", k));
      ParamsEvents(ps[1..], k);
      ParamEvents(ps[0], Close("value", others));
      TightElement(ParamBody(ps[0]), Events(others));
      assert Events(Close("value", others)) == [End("value")] + Events(others);
    }
  }

  lemma {:induction false} ParamsMeaning(ps: seq<Param>)
    requires forall p :: p in ps ==> Decodable(p)
    ensures LegalItems(ParamItems(ps))
    ensures ItemsMeaning(ParamItems(ps)) == ParamValues(ps)
  {
    if ps != [] {
      ParamsMeaning(ps[1..]);
      ParamMeaning(ps[0]);
    }
  }

  function NameValue(name: string): Layout {
    Element([], StringBody(PiecesOf(name)), [])
  }

  function ParamsValue(ps: seq<Param>): Layout
    requires forall p :: p in ps ==> Decodable(p)
  {
    Element([], ArrayBody([], ParamItems(ps), []), [])
  }

  /** The four pieces of markup every member opens with. */
  lemma MemberOpening(word: string, k: Doc)
    ensures Events(Open("member", Open("name", Word(word, Close("name", Open("value", k))))))
            == [Start("member")] + ([Start("name")] + ([Text(word)] + ([End("name")]
               + ([Start("value")] + Events(k)))))
  {
    assert Events(Close("name", Open("value", k))) == [End("name")] + ([Start("value")] + Events(k));
    assert Events(Word(word, Close("name", Open("value", k))))
        == [Text(word)] + ([End("name")] + ([Start("value")] + Events(k)));
  }

  lemma MemberClosing(k: Doc)
    ensures Events(Close("value", Close("member", k))) == [End("value")] + ([End("member")] + Events(k))
  {
  }

  lemma NameMemberEvents(name: string, k: Doc)
    ensures Events(NameMemberTo(name, k))
            == [Start("member")] + MemberTo([], [Plain("methodName")], [], NameValue(name), [], Events(k))
  {
    var k3 := Close("value", Close("member", k));
    MemberOpening("methodName", ParamTo(StrParam(name), k3));
    MemberClosing(k);
    ParamEvents(StrParam(name), k3);
    TightElement(StringBody(PiecesOf(name)), [End("member")] + Events(k));
    TightMember("methodName", NameValue(name), Events(k));
  }

  lemma ParamsMemberEvents(ps: seq<Param>, k: Doc)
    requires forall p :: p in ps ==> Decodable(p)
    ensures Events(ParamsMemberTo(ps, k))
            == [Start("member")] + MemberTo([], [Plain("params")], [], ParamsValue(ps), [], Events(k))
  {
    var k5 := Close("value", Close("member", k));
    var k4 := ParamsTo(ps, Close("data", Close("array", k5)));
    MemberOpening("params", Open("array", Open("data", k4)));
    MemberClosing(k);
    ParamsEvents(ps, Close("array", k5));
    assert Events(Close("array", k5)) == [End("array")] + Events(k5);
    ArrayOpening(k4);
    TightElement(ArrayBody([], ParamItems(ps), []), [End("member")] + Events(k));
    TightMember("params", ParamsValue(ps), Events(k));
  }

  lemma ArrayOpening(k: Doc)
    ensures Events(Open("array", Open("data", k))) == [Start("array")] + ([Start("data")] + Events(k))
  {
  }

  function LastMember(ps: seq<Param>): Members
    requires forall p :: p in ps ==> Decodable(p)
  {
    Member([], [], [Plain("params")], [], ParamsValue(ps), [], NoMembers([]))
  }

  function CallMembers(c: MethodCall): Members
    requires forall p :: p in c.params ==> Decodable(p)
  {
    Member([], [], [Plain("methodName")], [], NameValue(c.name), [], LastMember(c.params))
  }

  function CallLayout(c: MethodCall): Layout
    requires forall p :: p in c.params ==> Decodable(p)
  {
    Element([], StructBody(CallMembers(c)), [])
  }

  lemma TightMembers(word: string, value: Layout, others: Members, k: seq<Event>)
    ensures MembersTo(Member([], [], [Plain(word)], [], value, [], others), k)
            == [Start("member")] + MemberTo([], [Plain(word)], [], value, [], MembersTo(others, k))
  {
  }

  lemma CallEvents(c: MethodCall, k: Doc)
    requires forall p :: p in c.params ==> Decodable(p)
    ensures Events(CallTo(c, k)) == [Start("value")] + ValueTo(CallLayout(c), Events(k))
  {
    var k2 := Close("struct", Close("value", k));
    var k1 := ParamsMemberTo(c.params, k2);
    var after := [End("value")] + Events(k);
    assert Events(Close("value", k)) == after;
    assert Events(k2) == [End("struct")] + after;
    assert MembersTo(NoMembers([]), after) == Events(k2);
    ParamsMemberEvents(c.params, k2);
    TightMembers("params", ParamsValue(c.params), NoMembers([]), after);
    assert MembersTo(LastMember(c.params), after) == Events(k1);
    NameMemberEvents(c.name, k1);
    TightMembers("methodName", NameValue(c.name), LastMember(c.params), after);
    assert MembersTo(CallMembers(c), after) == Events(NameMemberTo(c.name, k1));
    TightElement(StructBody(CallMembers(c)), Events(k));
  }

  lemma TightLegal(b: Body)
    requires LegalBody(b)
    ensures Legal(Element([], b, [])) && Meaning(Element([], b, [])) == BodyMeaning(b)
  {
  }

  lemma TightMemberMeaning(word: string, value: Layout, others: Members)
    requires Legal(value) && LegalMembers(others)
    ensures var m := Member([], [], [Plain(word)], [], value, [], others);
            LegalMembers(m) && MembersMeaning(m) == [(word, Meaning(value))] + MembersMeaning(others)
  {
    OnePiece(Plain(word), []);
    assert TextOk([Plain(word)]);
  }

  lemma CallMeaning(c: MethodCall)
    requires forall p :: p in c.params ==> Decodable(p)
    ensures Legal(CallLayout(c)) && Meaning(CallLayout(c)) == CallValue(c)
  {
    ParamsMeaning(c.params);
    TightLegal(ArrayBody([], ParamItems(c.params), []));
    ParamMeaning(StrParam(c.name));
    TightLegal(StringBody(PiecesOf(c.name)));
    TightMemberMeaning("params", ParamsValue(c.params), NoMembers([]));
    TightMemberMeaning("methodName", NameValue(c.name), LastMember(c.params));
    TightLegal(StructBody(CallMembers(c)));
    assert MembersMeaning(CallMembers(c)) == CallValue(c).members;
  }

  ghost predicate AllDecodable(cs: seq<MethodCall>) {
    forall c :: c in cs ==> forall p :: p in c.params ==> Decodable(p)
  }

  ghost function CallValues(cs: seq<MethodCall>): seq<XmlValue>
    requires AllDecodable(cs)
  {
    seq(|cs|, i requires 0 <= i < |cs| => CallValue(cs[i]))
  }

  ghost function CallItems(cs: seq<MethodCall>): Items
    requires AllDecodable(cs)
  {
    if cs == [] then NoItems([]) else Item([], CallLayout(cs[0]), CallItems(cs[1..]))
  }

  lemma {:induction false} CallsEvents(cs: seq<MethodCall>, k: Doc)
    requires AllDecodable(cs)
    ensures Events(CallsTo(cs, Close("data", k))) == ItemsTo(CallItems(cs), Events(k))
  {
    if cs != [] {
      CallsEvents(cs[1..], k);
      CallEvents(cs[0], CallsTo(cs[1..], Close("data", k)));
    }
  }

  lemma {:induction false} CallsMeaning(cs: seq<MethodCall>)
    requires AllDecodable(cs)
    ensures LegalItems(CallItems(cs)) && ItemsMeaning(CallItems(cs)) == CallValues(cs)
  {
    if cs != [] {
      CallsMeaning(cs[1..]);
      CallMeaning(cs[0]);
    }
  }

  // ----- printed documents are tidy

  lemma TagNames()
    ensures TagName("value") && TagName("struct") && TagName("member") && TagName("name")
    ensures TagName("array") && TagName("data") && TagName("string") && TagName("i8")
    ensures TagName("param") && TagName("params") && TagName("methodCall") && TagName("methodName")
  {
  }

  predicate PlainWord(word: string) {
    word != [] && '<' !in word && '&' !in word
  }

  lemma TidyParam(p: Param, k: Doc)
    requires Decodable(p) && Tidy(k)
    ensures Tidy(ParamTo(p, k))
  {
    TagNames();
    if p.IntParam? {
      DecimalReadBack(p.n);
    }
  }

  lemma {:induction false} TidyParams(ps: seq<Param>, k: Doc)
    requires (forall p :: p in ps ==> Decodable(p)) && Tidy(k)
    ensures Tidy(ParamsTo(ps, k))
  {
    TagNames();
    if ps != [] {
      TidyParams(ps[1..], k);
      TidyParam(ps[0], Close("value", ParamsTo(ps[1..], k)));
    }
  }

  lemma TidyMemberOpening(word: string, k: Doc)
    requires PlainWord(word) && Tidy(k)
    ensures Tidy(Open("member", Open("name", Word(word, Close("name", Open("value", k))))))
  {
    TagNames();
    assert Tidy(Close("name", Open("value", k)));
    assert Tidy(Word(word, Close("name", Open("value", k))));
  }

  lemma TidyCall(c: MethodCall, k: Doc)
    requires (forall p :: p in c.params ==> Decodable(p)) && Tidy(k)
    ensures Tidy(CallTo(c, k))
  {
    TagNames();
    var k2 := Close("struct", Close("value", k));
    var k5 := Close("value", Close("member", k2));
    assert Tidy(k2);
    assert Tidy(k5);
    var k4 := ParamsTo(c.params, Close("data", Close("array", k5)));
    TidyParams(c.params, Close("data", Close("array", k5)));
    assert PlainWord("params") && PlainWord("methodName");
    TidyMemberOpening("params", Open("array", Open("data", k4)));
    var k1 := ParamsMemberTo(c.params, k2);
    var k3 := Close("value", Close("member", k1));
    assert Tidy(k3);
    TidyParam(StrParam(c.name), k3);
    TidyMemberOpening("methodName", ParamTo(StrParam(c.name), k3));
    assert Tidy(NameMemberTo(c.name, k1));
  }

  lemma {:induction false} TidyCalls(cs: seq<MethodCall>, k: Doc)
    requires AllDecodable(cs) && Tidy(k)
    ensures Tidy(CallsTo(cs, k))
  {
    if cs != [] {
      TidyCalls(cs[1..], k);
      TidyCall(cs[0], CallsTo(cs[1..], k));
    }
  }

  lemma TidyHead(name: string, k: Doc)
    requires Tidy(k)
    ensures Tidy(HeadTo(name, k))
  {
    TagNames();
    assert Tidy(Close("methodName", Open("params", k)));
    assert Tidy(Escaped(name, Close("methodName", Open("params", k))));
  }

  lemma TidyTail()
    ensures Tidy(TAIL) && Tidy(Close("array", Close("value", TAIL)))
  {
    TagNames();
    assert Tidy(Close("params", Close("methodCall", Done)));
    assert Tidy(Close("value", TAIL));
  }

  // ----- whole documents

  /** The events that open a request document. */
  function Prologue(name: string): seq<Event> {
    [Other, Start("methodCall"), Start("methodName")]
    + (TextTo(PiecesOf(name), []) + [End("methodName"), Start("params")])
  }

  lemma {:induction false} TextToAppend(pieces: seq<Piece>, k: seq<Event>)
    ensures TextTo(pieces, k) == TextTo(pieces, []) + k
    ensures forall i :: 0 <= i < |TextTo(pieces, [])| ==> Skippable(TextTo(pieces, [])[i])
  {
    if pieces != [] {
      TextToAppend(pieces[1..], k);
    }
  }

  lemma OpeningJoins<T>(a: T, b: T, c: T, text: seq<T>, d: T, e: T, k: seq<T>)
    ensures [a] + ([b] + ([c] + (text + ([d] + ([e] + k))))) == [a, b, c] + (text + [d, e]) + k
  {
  }

  lemma OpeningSkippable(name: string)
    ensures forall i :: 0 <= i < |Prologue(name)| ==> Skippable(Prologue(name)[i])
  {
    var text, closing := TextTo(PiecesOf(name), []), [End("methodName"), Start("params")];
    TextToAppend(PiecesOf(name), []);
    assert forall i :: 0 <= i < |closing| ==> Skippable(closing[i]);
    assert forall i :: 0 <= i < |text + closing| ==> Skippable((text + closing)[i]);
  }

  lemma HeadEvents(name: string, k: Doc)
    ensures Events(HeadTo(name, k)) == Prologue(name) + Events(k)
    ensures forall i :: 0 <= i < |Prologue(name)| ==> Skippable(Prologue(name)[i])
  {
    var k1 := Close("methodName", Open("params", k));
    TextToAppend(PiecesOf(name), Events(k1));
    assert Events(k1) == [End("methodName")] + ([Start("params")] + Events(k));
    OpeningJoins(Other, Start("methodCall"), Start("methodName"), TextTo(PiecesOf(name), []),
                 End("methodName"), Start("params"), Events(k));
    var d2 := Open("methodName", Escaped(name, k1));
    assert Events(HeadTo(name, k)) == [Other] + ([Start("methodCall")] + Events(d2));
    OpeningSkippable(name);
  }

  ghost function BatchLayout(cs: seq<MethodCall>): Layout
    requires AllDecodable(cs)
  {
    Element([], ArrayBody([], CallItems(cs), []), [])
  }

  lemma BatchBody(cs: seq<MethodCall>)
    requires AllDecodable(cs)
    ensures Events(Open("array", Open("data", CallsTo(cs, Close("data", Close("array", Close("value", TAIL)))))))
            == ValueTo(BatchLayout(cs), Events(TAIL))
  {
    var end := Close("array", Close("value", TAIL));
    CallsEvents(cs, end);
    assert Events(Close("value", TAIL)) == [End("value")] + Events(TAIL);
    assert Events(end) == [End("array")] + ([End("value")] + Events(TAIL));
    ArrayOpening(CallsTo(cs, Close("data", end)));
    TightElement(ArrayBody([], CallItems(cs), []), Events(TAIL));
  }

  lemma ParamOpening(k: Doc)
    ensures Events(Open("param", Open("value", k))) == [Start("param")] + ([Start("value")] + Events(k))
  {
  }

  lemma TidyBatch(name: string, cs: seq<MethodCall>)
    requires AllDecodable(cs)
    ensures Tidy(Batch(name, cs))
  {
    var end := Close("array", Close("value", TAIL));
    var d := CallsTo(cs, Close("data", end));
    TidyTail();
    TagNames();
    assert Tidy(Close("data", end));
    TidyCalls(cs, Close("data", end));
    assert Tidy(Open("array", Open("data", d)));
    assert Tidy(Open("param", Open("value", Open("array", Open("data", d)))));
    TidyHead(name, Open("param", Open("value", Open("array", Open("data", d)))));
  }

  lemma BatchEvents(name: string, cs: seq<MethodCall>)
    requires AllDecodable(cs)
    ensures Lex(Print(Batch(name, cs))) == Prologue(name)
              + ([Start("param")] + ([Start("value")] + ValueTo(BatchLayout(cs), Events(TAIL))))
  {
    var d := Open("array", Open("data", CallsTo(cs, Close("data", Close("array", Close("value", TAIL))))));
    TidyBatch(name, cs);
    LexPrint(Batch(name, cs));
    BatchBody(cs);
    ParamOpening(d);
    HeadEvents(name, Open("param", Open("value", d)));
  }

  lemma BatchReadBack(name: string, cs: seq<MethodCall>)
    requires AllDecodable(cs)
    ensures ParseResponse(Lex(Print(Batch(name, cs))))
            == Ok(Array(CallValues(cs)))
  {
    BatchEvents(name, cs);
    HeadEvents(name, Done);
    CallsMeaning(cs);
    TightLegal(ArrayBody([], CallItems(cs), []));
    ReplyReadBack(Prologue(name), "param", [], BatchLayout(cs), Events(TAIL));
  }

  /** A printed multicall of string and integer parameters, tokenised and read by the reply
      parser's own grammar, is the same calls in the same order, whatever characters the method
      names and strings hold. */
  lemma MulticallReadBack(cs: seq<MethodCall>)
    requires AllDecodable(cs)
    ensures ParseResponse(Lex(Print(Multicall(cs))))
            == Ok(Array(CallValues(cs)))
  {
    BatchReadBack("system.multicall", cs);
  }

  lemma CallValueInjective(c: MethodCall, d: MethodCall)
    requires forall p :: p in c.params ==> Decodable(p)
    requires forall p :: p in d.params ==> Decodable(p)
    requires CallValue(c) == CallValue(d)
    ensures c == d
  {
    var cm, dm := CallValue(c).members, CallValue(d).members;
    assert cm[0] == dm[0] && cm[1] == dm[1];
    assert |c.params| == |ParamValues(c.params)| == |d.params|;
    forall i | 0 <= i < |c.params| ensures c.params[i] == d.params[i] {
      assert ParamValue(c.params[i]) == ParamValues(c.params)[i] == ParamValues(d.params)[i];
      assert c.params[i] in c.params && d.params[i] in d.params;
    }
  }

  /** No two batches of string and integer calls print alike. */
  lemma MulticallUnambiguous(cs: seq<MethodCall>, ds: seq<MethodCall>)
    requires AllDecodable(cs) && AllDecodable(ds)
    requires Print(Multicall(cs)) == Print(Multicall(ds))
    ensures cs == ds
  {
    MulticallReadBack(cs);
    MulticallReadBack(ds);
    assert CallValues(cs) == CallValues(ds);
    assert |cs| == |CallValues(cs)| == |ds|;
    forall i | 0 <= i < |cs| ensures cs[i] == ds[i] {
      assert CallValue(cs[i]) == CallValues(cs)[i] == CallValues(ds)[i];
      CallValueInjective(cs[i], ds[i]);
    }
  }
}
