/**
 * The characters and names the reply parser and its grammar share, each pinned to the literal
 * text it stands for: integer tags, layout whitespace, numbers, entities and escapes.
 */
module XmlRpcText {
  import opened Basics
  import opened XmlRpc
  import opened XmlRpcGrammar
  import opened XmlRpcRequest

  // ----- integers

  /** The code points of Unicode `White_Space`, one by one. */
  const WHITE_SPACE := {
    0x9, 0xA, 0xB, 0xC, 0xD, 0x20, 0x85, 0xA0, 0x1680, 0x2000, 0x2001, 0x2002, 0x2003, 0x2004, 0x2005, 0x2006,
    0x2007, 0x2008, 0x2009, 0x200A, 0x2028, 0x2029, 0x202F, 0x205F, 0x3000
  }

  lemma WhiteSpaceIs(c: char)
    ensures IsWhitespace(c) <==> c as int in WHITE_SPACE
  {
  }

  /** Whitespace an integer may stand between. */
  predicate Spaces(s: string) {
    forall i :: 0 <= i < |s| ==> s[i] as int in WHITE_SPACE
  }

  lemma {:induction false} TrimsFront(spaces: string, s: string)
    requires Spaces(spaces) && s != [] && !IsWhitespace(s[0])
    ensures TrimStart(spaces + s) == s
  {
    if spaces == [] {
      assert spaces + s == s;
    } else {
      WhiteSpaceIs(spaces[0]);
      assert (spaces + s)[1..] == spaces[1..] + s;
      TrimsFront(spaces[1..], s);
    }
  }

  lemma {:induction false} TrimsBack(s: string, spaces: string)
    requires Spaces(spaces) && s != [] && !IsWhitespace(s[|s| - 1])
    ensures TrimEnd(s + spaces) == s
  {
    if spaces == [] {
      assert s + spaces == s;
    } else {
      var shorter := spaces[..|spaces| - 1];
      WhiteSpaceIs(spaces[|spaces| - 1]);
      assert (s + spaces)[..|s + spaces| - 1] == s + shorter;
      TrimsBack(s, shorter);
    }
  }

  lemma DecimalEnds(n: I64)
    ensures Decimal(n) != [] && !IsWhitespace(Decimal(n)[0]) && !IsWhitespace(Decimal(n)[|Decimal(n)| - 1])
    ensures ParseI64(Decimal(n)) == Some(n)
  {
    var m: int := n;
    var digits := Digits(if m < 0 then -m else m);
    DigitsReadBack(if m < 0 then -m else m);
    var d := Decimal(n);
    assert IsDigit(digits[0]) && IsDigit(digits[|digits| - 1]);
    assert d[|d| - 1] == digits[|digits| - 1];
    if m < 0 {
      assert d[1..] == digits;
    }
  }

  /** Each of the three integer tags reads back every 64-bit integer, however its text is cut into
      pieces and whatever whitespace surrounds it. */
  lemma IntegerReadBack(tag: string, n: I64, before: string, after: string, text: seq<Piece>, gap: Gap,
                        closing: Gap, k: seq<Event>)
    requires tag == "i4" || tag == "int" || tag == "i8"
    requires Spaces(before) && Spaces(after) && GapOk(gap) && GapOk(closing)
    requires TextOk(text) && TextOf(text) == before + (Decimal(n) + after)
    ensures ParseValue(ValueTo(Element(gap, IntBody(tag, text), closing), k)) == Ok((Int(n), k))
  {
    DecimalEnds(n);
    var rest := Decimal(n) + after;
    assert rest[0] == Decimal(n)[0];
    TrimsFront(before, rest);
    TrimsBack(Decimal(n), after);
    ValueReadBack(Element(gap, IntBody(tag, text), closing), k);
  }

  /** A text holding anything but digits and signs is no integer, and neither is a bare sign. */
  lemma StrangerRefused(s: string, i: nat)
    requires i < |s| && !('0' <= s[i] <= '9') && s[i] != '+' && s[i] != '-'
    ensures ParseI64(s) == None
  {
    var digits := Unsigned(s);
    assert digits[if s[0] == '-' || s[0] == '+' then i - 1 else i] == s[i];
  }

  lemma {:induction false} TrimStartKeeps(s: string, i: nat) returns (j: nat)
    requires i < |s| && !IsWhitespace(s[i])
    ensures j < |TrimStart(s)| && TrimStart(s)[j] == s[i]
  {
    if IsWhitespace(s[0]) {
      j := TrimStartKeeps(s[1..], i - 1);
    } else {
      j := i;
    }
  }

  lemma {:induction false} TrimEndKeeps(s: string, i: nat)
    requires i < |s| && !IsWhitespace(s[i])
    ensures i < |TrimEnd(s)| && TrimEnd(s)[i] == s[i]
  {
    if IsWhitespace(s[|s| - 1]) {
      TrimEndKeeps(s[..|s| - 1], i);
    }
  }

  /** An integer element is refused if its text holds anything but white space, digits and signs. */
  lemma IntegerElementRefused(tag: string, text: seq<Piece>, i: nat, k: seq<Event>)
    requires (tag == "i4" || tag == "int" || tag == "i8") && TextOk(text) && i < |TextOf(text)|
    requires var c := TextOf(text)[i];
             c as int !in WHITE_SPACE && !('0' <= c <= '9') && c != '+' && c != '-'
    ensures ParseTyped(tag, TextTo(text, [End(tag)] + k)) == Err(BadInteger(TextOf(text)))
  {
    ReadPieces(tag, text, k);
    var s := TextOf(text);
    WhiteSpaceIs(s[i]);
    var j := TrimStartKeeps(s, i);
    TrimEndKeeps(TrimStart(s), j);
    StrangerRefused(TrimEnd(TrimStart(s)), j);
  }

  lemma NoDigitsRefused()
    ensures ParseI64("") == None && ParseI64("-") == None && ParseI64("+") == None
  {
    assert "-"[1..] == "" && "+"[1..] == "";
  }

  lemma UnsignedRange(digits: string)
    requires AllDigits(digits)
    ensures ParseI64(digits).Some? <==> DigitsValue(digits) <= 0x7FFF_FFFF_FFFF_FFFF
    ensures ParseI64(digits).Some? ==> ParseI64(digits).value == DigitsValue(digits)
  {
    assert IsDigit(digits[0]);
  }

  lemma SignedRange(digits: string, negative: bool)
    requires AllDigits(digits)
    ensures var r := ParseI64([if negative then '-' else '+'] + digits);
            && (r.Some? <==> DigitsValue(digits) <= if negative then 0x8000_0000_0000_0000 else 0x7FFF_FFFF_FFFF_FFFF)
            && (r.Some? ==> if negative then r.value + DigitsValue(digits) == 0 else r.value == DigitsValue(digits))
  {
    var s := [if negative then '-' else '+'] + digits;
    assert s[1..] == digits;
  }

  /** Exactly the magnitudes of 64 signed bits are read, with either sign or none. */
  lemma IntegerRange(n: nat)
    ensures ParseI64(Digits(n)).Some? <==> n <= 0x7FFF_FFFF_FFFF_FFFF
    ensures ParseI64(['+'] + Digits(n)).Some? <==> n <= 0x7FFF_FFFF_FFFF_FFFF
    ensures ParseI64(['-'] + Digits(n)).Some? <==> n <= 0x8000_0000_0000_0000
    ensures ParseI64(Digits(n)).Some? ==> ParseI64(Digits(n)).value == n
    ensures ParseI64(['+'] + Digits(n)).Some? ==> ParseI64(['+'] + Digits(n)).value == n
    ensures ParseI64(['-'] + Digits(n)).Some? ==> ParseI64(['-'] + Digits(n)).value + n == 0
  {
    DigitsReadBack(n);
    UnsignedRange(Digits(n));
    SignedRange(Digits(n), false);
    SignedRange(Digits(n), true);
  }

  /** Any other type is refused by name. */
  lemma OtherTypesRefused(tag: string, evs: seq<Event>)
    requires tag !in ["array", "struct", "string", "i4", "int", "i8"]
    ensures ParseTyped(tag, evs) == Err(UnsupportedType(tag))
  {
    var known := ["array", "struct", "string", "i4", "int", "i8"];
    assert known[0] == "array" && known[1] == "struct" && known[2] == "string";
    assert known[3] == "i4" && known[4] == "int" && known[5] == "i8";
  }

  // ----- layout

  predicate LayoutChar(c: char) {
    c as int == 32 || c as int == 9 || c as int == 10 || c as int == 13 || c as int == 12
  }

  /** Text is skipped where a tag is expected exactly when it is all spaces, tabs, line feeds,
      carriage returns and form feeds. */
  lemma LayoutSkippedIff(text: string, evs: seq<Event>)
    ensures (forall i :: 0 <= i < |text| ==> LayoutChar(text[i]))
            ==> NextStructural([Text(text)] + evs) == NextStructural(evs)
    ensures !(forall i :: 0 <= i < |text| ==> LayoutChar(text[i]))
            ==> NextStructural([Text(text)] + evs) == Ok((Text(text), evs))
  {
    assert ([Text(text)] + evs)[1..] == evs;
    assert Blank(text) <==> forall i :: 0 <= i < |text| ==> LayoutChar(text[i]);
  }

  // ----- entities

  lemma {:induction false} DecimalRadix(n: nat)
    ensures Radix(Digits(n), 10) == Some(n)
  {
    var d := Digits(n);
    if n < 10 {
      assert d[..0] == [];
    } else {
      assert d[..|d| - 1] == Digits(n / 10);
      DecimalRadix(n / 10);
    }
  }

  function HexDigitOf(d: nat, upper: bool): char
    requires d < 16
  {
    if d < 10 then ('0' as int + d) as char
    else if upper then ('A' as int + d - 10) as char
    else ('a' as int + d - 10) as char
  }

  function Hex(n: nat, upper: bool): string {
    if n < 16 then [HexDigitOf(n, upper)] else Hex(n / 16, upper) + [HexDigitOf(n % 16, upper)]
  }

  lemma {:induction false} HexRadix(n: nat, upper: bool)
    ensures Radix(Hex(n, upper), 16) == Some(n)
  {
    var d := Hex(n, upper);
    if n < 16 {
      assert d[..0] == [];
    } else {
      assert d[..|d| - 1] == Hex(n / 16, upper);
      HexRadix(n / 16, upper);
    }
  }

  lemma DigitsStart(n: nat)
    ensures Digits(n) != [] && IsDigit(Digits(n)[0])
  {
    DigitsReadBack(n);
  }

  /** A code a character can have, other than NUL. */
  predicate Codepoint(n: nat) { 0 < n < 0xD800 || 0xE000 <= n <= 0x10_FFFF }

  lemma DecimalRef(n: nat)
    ensures CharRef(Digits(n)) == if Codepoint(n) then Some(n as char) else None
  {
    DecimalRadix(n);
    DigitsStart(n);
  }

  lemma HexRef(n: nat, upper: bool)
    ensures CharRef(['x'] + Hex(n, upper)) == if Codepoint(n) then Some(n as char) else None
  {
    HexRadix(n, upper);
    assert (['x'] + Hex(n, upper))[1..] == Hex(n, upper);
  }

  lemma RefResolves(num: string)
    ensures Resolve(['#'] + num)
            == match CharRef(num) case Some(c) => Ok([c]) case None => Err(BadCharRef(['#'] + num))
  {
    assert (['#'] + num)[1..] == num;
  }

  /** `&#N;` and `&#xH;`, with hex digits of either case, read back as the character they number,
      and are refused exactly when no character has that number. */
  lemma CharRefReadBack(n: nat, upper: bool)
    ensures Codepoint(n) ==> Resolve(['#'] + Digits(n)) == Ok([n as char])
    ensures Codepoint(n) ==> Resolve(['#'] + (['x'] + Hex(n, upper))) == Ok([n as char])
    ensures !Codepoint(n) ==> Resolve(['#'] + Digits(n)).Err? && Resolve(['#'] + (['x'] + Hex(n, upper))).Err?
  {
    DecimalRef(n);
    RefResolves(Digits(n));
    HexRef(n, upper);
    RefResolves(['x'] + Hex(n, upper));
  }

  predicate RefDigit(c: char, hex: bool) {
    '0' <= c <= '9' || (hex && ('a' <= c <= 'f' || 'A' <= c <= 'F'))
  }

  lemma {:induction false} RadixRefuses(s: string, hex: bool, i: nat)
    requires i < |s| && !RefDigit(s[i], hex)
    ensures Radix(s, if hex then 16 else 10) == None
  {
    if i < |s| - 1 {
      RadixRefuses(s[..|s| - 1], hex, i);
    }
  }

  /** A character reference with no digits, or with anything but digits of its base, is refused. */
  lemma CharRefRefused(digits: string, hex: bool, i: nat)
    requires i < |digits| ==> !RefDigit(digits[i], hex)
    requires i >= |digits| ==> digits == []
    requires !hex ==> digits == [] || digits[0] != 'x'
    ensures Resolve(['#'] + if hex then ['x'] + digits else digits).Err?
  {
    var num := if hex then ['x'] + digits else digits;
    RefResolves(num);
    assert hex ==> num[1..] == digits;
    if i < |digits| {
      RadixRefuses(digits, hex, i);
    }
  }

  /** The five predefined entities, and no others. */
  lemma EntityIs(name: string)
    ensures Resolve("lt") == Ok("<") && Resolve("gt") == Ok(">") && Resolve("amp") == Ok("&")
    ensures Resolve("apos") == Ok("'") && Resolve("quot") == Ok("\"")
    ensures name !in ["lt", "gt", "amp", "apos", "quot"] && (name == [] || name[0] != '#') ==>
              Resolve(name) == Err(UnknownEntity(name))
  {
    var known := ["lt", "gt", "amp", "apos", "quot"];
    assert known[0] == "lt" && known[1] == "gt" && known[2] == "amp" && known[3] == "apos" && known[4] == "quot";
  }

  // ----- escapes

  lemma {:induction false} EscapeJoins(s: string, t: string)
    ensures Escape(s + t) == Escape(s) + Escape(t)
  {
    EscapeAppend(s, Escape(t));
    EscapeThrough(s, t);
  }

  lemma {:induction false} EscapeThrough(s: string, t: string)
    ensures Escape(s + t) == EscapeTo(s, Escape(t))
  {
    if s == [] {
      assert s + t == t;
    } else {
      assert (s + t)[1..] == s[1..] + t && (s + t)[0] == s[0];
      EscapeThrough(s[1..], t);
    }
  }

  /** Five characters are escaped, by name, and every other stands for itself. */
  lemma EscapeIs(c: char)
    ensures Escape("<") == "&lt;" && Escape(">") == "&gt;" && Escape("&") == "&amp;"
    ensures Escape("'") == "&apos;" && Escape("\"") == "&quot;"
    ensures c != '<' && c != '>' && c != '&' && c != '\'' && c != '"' ==> Escape([c]) == [c]
  {
    forall x: char
      ensures Escape([x]) == if Special(x) then "&" + EntityName(x) + ";" else [x]
    {
      assert [x][1..] == "";
      assert EscapeTo("", "") == "";
    }
    assert "<" == ['<'] && ">" == ['>'] && "&" == ['&'] && "'" == ['\''] && "\"" == ['"'];
  }

  /** A parameter as text: strings escaped, integers in decimal as `<i8>`, and encoded bytes as they
      are. */
  lemma ParamText(p: Param)
    ensures Print(ParamTo(p, Done))
            == match p
               case StrParam(s) => "<string>" + Escape(s) + "</string>"
               case IntParam(n) => "<i8>" + Decimal(n) + "</i8>"
               case Base64Param(e) => "<base64>" + e + "</base64>"
  {
    match p
    case StrParam(s) =>
      assert Print(Close("string", Done)) == "</string>";
      EscapeAppend(s, "</string>");
      assert Print(ParamTo(p, Done)) == "<string>" + (Escape(s) + "</string>");
    case IntParam(n) =>
      assert Print(Close("i8", Done)) == "</i8>";
      assert Print(ParamTo(p, Done)) == "<i8>" + (Decimal(n) + "</i8>");
    case Base64Param(e) =>
      assert Print(Close("base64", Done)) == "</base64>";
      assert Print(ParamTo(p, Done)) == "<base64>" + (e + "</base64>");
  }

  lemma {:induction false} NoLeadingZero(n: nat)
    ensures Digits(n) != [] && (Digits(n)[0] == '0' <==> n == 0) && (n == 0 ==> Digits(n) == "0")
  {
    if n >= 10 {
      NoLeadingZero(n / 10);
    }
  }

  /** Integers are printed one way: a minus sign exactly for negative ones, and no leading zero. */
  lemma DecimalIsCanonical(n: I64)
    ensures Decimal(0) == "0"
    ensures n > 0 ==> Decimal(n) != [] && '1' <= Decimal(n)[0] <= '9'
    ensures n < 0 ==> |Decimal(n)| > 1 && Decimal(n)[0] == '-' && '1' <= Decimal(n)[1] <= '9'
  {
    NoLeadingZero(0);
    var m: int := n;
    var size: nat := if m < 0 then -m else m;
    NoLeadingZero(size);
    DigitsReadBack(size);
    assert IsDigit(Digits(size)[0]);
  }

  /** How a call document opens, literally. */
  lemma DocumentOpens(name: string, k: Doc)
    ensures Print(HeadTo(name, k))
            == "<?xml version=\"1.0\"?>" + ("<methodCall>" + ("<methodName>"
               + (Escape(name) + ("</methodName>" + ("<params>" + Print(k))))))
  {
    assert OpenTag("methodCall") == "<methodCall>" && OpenTag("methodName") == "<methodName>";
    assert CloseTag("methodName") == "</methodName>" && OpenTag("params") == "<params>";
    var k1 := Close("methodName", Open("params", k));
    assert Print(k1) == "</methodName>" + ("<params>" + Print(k));
    EscapeAppend(name, Print(k1));
    var d2 := Open("methodName", Escaped(name, k1));
    assert Print(d2) == "<methodName>" + EscapeTo(name, Print(k1));
    assert Print(Open("methodCall", d2)) == "<methodCall>" + Print(d2);
  }

  /** A self-closing tag is one event. */
  lemma LexEmpty(tag: string, k: string)
    requires TagName(tag)
    ensures Lex(['<'] + tag + ['/', '>'] + k) == [Empty(tag)] + Lex(k)
  {
    var a := ['<'] + tag + ['/'];
    var s := a + ['>'] + k;
    assert s == ['<'] + tag + ['/', '>'] + k;
    IndexOfEnd(a, '>', k);
    var inside := s[1..|a|];
    assert inside == tag + ['/'];
    assert inside[0] == tag[0] && inside[..|inside| - 1] == tag;
    assert s[|a| + 1..] == k;
  }

  // ----- faults

  predicate IsFaultString(m: (string, XmlValue)) { m.0 == "faultString" && m.1.Str? }

  /** Of several string members named `faultString` the first is the message, and a struct without
      one keeps its debug form. */
  lemma {:induction false} FirstFaultStringWins(members: seq<(string, XmlValue)>, i: nat)
    requires i <= |members| && forall j :: 0 <= j < i ==> !IsFaultString(members[j])
    ensures i < |members| && IsFaultString(members[i]) ==>
              FaultMessage(Struct(members)) == FaultString(members[i].1.s)
    ensures i == |members| ==> FaultMessage(Struct(members)) == DebugForm(Struct(members))
  {
    if i > 0 {
      assert !IsFaultString(members[0]);
      FirstFaultStringWins(members[1..], i - 1);
    }
  }

  /** A reply without `<param>` or `<fault>` is an error that says so. */
  lemma NothingToRead(evs: seq<Event>)
    requires forall i :: 0 <= i < |evs| ==> Skippable(evs[i])
    ensures ParseResponse(evs) == Err(NoParamOrFault)
  {
    SkipPrologue(evs, []);
    assert evs + [] == evs;
  }

  /** The layout of rTorrent's fault struct: an `<i4>` code, then the message. */
  function FaultLayout(code: I64, message: seq<Piece>): Layout {
    Element([], StructBody(
      Member([], [], [Plain("faultCode")], [], Element([], IntBody("i4", [Plain(Decimal(code))]), []), [],
      Member([], [], [Plain("faultString")], [], Element([], StringBody(message), []), [],
      NoMembers([])))), [])
  }

  lemma IntElement(tag: string, n: I64)
    requires tag == "i4" || tag == "int" || tag == "i8"
    ensures LegalBody(IntBody(tag, [Plain(Decimal(n))])) && BodyMeaning(IntBody(tag, [Plain(Decimal(n))])) == Int(n)
  {
    OnePiece(Plain(Decimal(n)), []);
    DecimalReadBack(n);
  }

  lemma FaultMeaning(code: I64, message: seq<Piece>)
    requires TextOk(message)
    ensures Legal(FaultLayout(code, message))
    ensures Meaning(FaultLayout(code, message))
            == Struct([("faultCode", Int(code)), ("faultString", Str(TextOf(message)))])
  {
    IntElement("i4", code);
    TwoMembers("faultCode", IntBody("i4", [Plain(Decimal(code))]), "faultString", StringBody(message));
  }

  lemma TwoMembers(first: string, a: Body, second: string, b: Body)
    requires LegalBody(a) && LegalBody(b)
    ensures var last := Member([], [], [Plain(second)], [], Element([], b, []), [], NoMembers([]));
            var l := Element([], StructBody(Member([], [], [Plain(first)], [], Element([], a, []), [], last)), []);
            Legal(l) && Meaning(l) == Struct([(first, BodyMeaning(a)), (second, BodyMeaning(b))])
  {
    TightLegal(a);
    TightLegal(b);
    var last := Member([], [], [Plain(second)], [], Element([], b, []), [], NoMembers([]));
    TightMemberMeaning(second, Element([], b, []), NoMembers([]));
    TightMemberMeaning(first, Element([], a, []), last);
    TightLegal(StructBody(Member([], [], [Plain(first)], [], Element([], a, []), [], last)));
  }

  /** Every fault reply, with its `<i4>` code, reports its message. */
  lemma FaultReported(prologue: seq<Event>, code: I64, message: seq<Piece>, k: seq<Event>)
    requires forall i :: 0 <= i < |prologue| ==> Skippable(prologue[i])
    requires TextOk(message)
    ensures ParseResponse(prologue + ([Start("fault")] + ([Start("value")] + ValueTo(FaultLayout(code, message), k))))
            == Err(Fault(FaultString(TextOf(message))))
  {
    FaultMeaning(code, message);
    ReplyReadBack(prologue, "fault", [], FaultLayout(code, message), k);
    var members := [("faultCode", Int(code)), ("faultString", Str(TextOf(message)))];
    assert members[1] in members;
    assert forall m :: m in members ==> m == members[0] || m == members[1];
    assert "faultCode" != "faultString" by { assert |"faultCode"| != |"faultString"|; }
    FaultTextWhereverItStands(members, TextOf(message));
  }
}
