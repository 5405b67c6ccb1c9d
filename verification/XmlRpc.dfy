/**
 * The XML-RPC reply parser: recursive descent over quick-xml's event stream.
 *
 * The pure functions say what each production reads and what it leaves; the `Reader` class is
 * the parser itself, a cursor advanced through loops, proved equal to them.
 */
module XmlRpc {
  import opened Basics

  /** One quick-xml event. `Broken` is a reader error, `Eof` the end of the document and
      `Other` a declaration, comment or processing instruction. */
  datatype Event =
    | Start(name: string)
    | End(name: string)
    | Empty(name: string)
    | Text(text: string)
    | CData(text: string)
    | GeneralRef(name: string)
    | Other
    | Broken
    | Eof

  datatype XmlValue =
    | Str(s: string)
    | Int(n: I64)
    | Array(items: seq<XmlValue>)
    | Struct(members: seq<(string, XmlValue)>)

  /** The message of a fault: its `faultString`, or the debug form of an unreadable one. */
  datatype FaultText = FaultString(s: string) | DebugForm(v: XmlValue)

  datatype ParseError =
    | ReaderFailed
    | NoParamOrFault
    | Fault(message: FaultText)
    | Unexpected(inside: string, event: Event)
    | BadInteger(text: string)
    | UnsupportedType(tag: string)
    | UnknownEntity(name: string)
    | BadCharRef(name: string)

  type Parsed<+T> = Result<(T, seq<Event>), ParseError>

  // ----- characters and numbers

  predicate IsAsciiWhitespace(c: char) {
    c == ' ' || c == '\t' || c == '\n' || c == '\r' || c as int == 12
  }

  /** `char::is_whitespace`. */
  predicate IsWhitespace(c: char) {
    var n := c as int;
    9 <= n <= 13 || n == 32 || n == 0x85 || n == 0xA0 || n == 0x1680 || 0x2000 <= n <= 0x200A
    || n == 0x2028 || n == 0x2029 || n == 0x202F || n == 0x205F || n == 0x3000
  }

  predicate Blank(s: string) {
    forall i :: 0 <= i < |s| ==> IsAsciiWhitespace(s[i])
  }

  function TrimStart(s: string): string {
    if s != [] && IsWhitespace(s[0]) then TrimStart(s[1..]) else s
  }

  function TrimEnd(s: string): string {
    if s != [] && IsWhitespace(s[|s| - 1]) then TrimEnd(s[..|s| - 1]) else s
  }

  function DigitsValue(s: string): nat
    requires forall i :: 0 <= i < |s| ==> IsDigit(s[i])
  {
    if s == [] then 0
    else
      assert IsDigit(s[|s| - 1]);
      DigitsValue(s[..|s| - 1]) * 10 + (s[|s| - 1] as int - '0' as int)
  }

  predicate AllDigits(s: string) {
    s != [] && forall i :: 0 <= i < |s| ==> IsDigit(s[i])
  }

  function Unsigned(s: string): string {
    if s != [] && (s[0] == '-' || s[0] == '+') then s[1..] else s
  }

  /** `str::parse::<i64>`: an optional sign, at least one digit, in range. */
  function ParseI64(s: string): Option<I64> {
    var negative := s != [] && s[0] == '-';
    if !AllDigits(Unsigned(s)) then None
    else
      var magnitude: int := DigitsValue(Unsigned(s));
      var n := if negative then -magnitude else magnitude;
      if I64_MIN <= n <= I64_MAX then Some(n) else None
  }

  function HexDigit(c: char): Option<nat> {
    if IsDigit(c) then Some(c as int - '0' as int)
    else if 'a' <= c <= 'f' then Some(c as int - 'a' as int + 10)
    else if 'A' <= c <= 'F' then Some(c as int - 'A' as int + 10)
    else None
  }

  function Radix(s: string, radix: nat): Option<nat> {
    if s == [] then Some(0)
    else
      match (Radix(s[..|s| - 1], radix), HexDigit(s[|s| - 1]))
      case (Some(high), Some(d)) => if d < radix then Some(high * radix + d) else None
      case _ => None
  }

  /** The character of a numeric reference, without its `#`. */
  function CharRef(num: string): Option<char> {
    var hex := num != [] && num[0] == 'x';
    var digits := if hex then num[1..] else num;
    if digits == [] then None
    else
      match Radix(digits, if hex then 16 else 10)
      case Some(code) =>
        if 0 < code < 0xD800 || 0xE000 <= code < 0x11_0000 then Some(code as char) else None
      case None => None
  }

  /** One entity reference: a numeric one, or one of the five predefined names. */
  function Resolve(name: string): Result<string, ParseError> {
    if name != [] && name[0] == '#' then
      match CharRef(name[1..])
      case Some(c) => Ok([c])
      case None => Err(BadCharRef(name))
    else if name == "lt" then Ok("<")
    else if name == "gt" then Ok(">")
    else if name == "amp" then Ok("&")
    else if name == "apos" then Ok("'")
    else if name == "quot" then Ok("\"")
    else Err(UnknownEntity(name))
  }

  // ----- the productions

  /** The next event that is not whitespace-only text. */
  function NextStructural(evs: seq<Event>): (r: Parsed<Event>)
    ensures r.Ok? ==> r.value.0.Eof? || |r.value.1| < |evs|
    ensures r.Ok? ==> |r.value.1| <= |evs|
  {
    if evs == [] then Ok((Eof, []))
    else if evs[0].Broken? then Err(ReaderFailed)
    else if evs[0].Text? && Blank(evs[0].text) then NextStructural(evs[1..])
    else Ok((evs[0], evs[1..]))
  }

  function Expect(wanted: Event, inside: string, evs: seq<Event>): (r: Result<seq<Event>, ParseError>)
    requires !wanted.Eof?
    ensures r.Ok? ==> |r.value| < |evs|
  {
    var (e, rest) :- NextStructural(evs);
    if e == wanted then Ok(rest) else Err(Unexpected(inside, e))
  }

  /** Everything textual up to `</tag>`. */
  function ReadText(tag: string, evs: seq<Event>): (r: Parsed<string>)
    ensures r.Ok? ==> |r.value.1| < |evs|
  {
    if evs == [] then Err(Unexpected(tag, Eof))
    else
      match evs[0]
      case End(n) =>
        if n == tag then Ok(("", evs[1..])) else Err(Unexpected(tag, evs[0]))
      case Text(t) =>
        var (more, rest) :- ReadText(tag, evs[1..]);
        Ok((t + more, rest))
      case CData(t) =>
        var (more, rest) :- ReadText(tag, evs[1..]);
        Ok((t + more, rest))
      case GeneralRef(n) =>
        var t :- Resolve(n);
        var (more, rest) :- ReadText(tag, evs[1..]);
        Ok((t + more, rest))
      case Broken => Err(ReaderFailed)
      case _ => Err(Unexpected(tag, evs[0]))
  }

  /** What follows `<value>`, through `</value>`. */
  function ParseValue(evs: seq<Event>): (r: Parsed<XmlValue>)
    ensures r.Ok? ==> |r.value.1| < |evs|
    decreases |evs|, 0
  {
    var (e, rest) :- NextStructural(evs);
    match e
    case End(n) =>
      if n == "value" then Ok((Str(""), rest)) else Err(Unexpected("value", e))
    case Text(t) =>
      var (more, rest) :- ReadText("value", rest);
      Ok((Str(t + more), rest))
    case GeneralRef(n) =>
      var t :- Resolve(n);
      var (more, rest) :- ReadText("value", rest);
      Ok((Str(t + more), rest))
    case Start(tag) =>
      var (v, rest) :- ParseTyped(tag, rest);
      var rest :- Expect(End("value"), "value", rest);
      Ok((v, rest))
    case _ => Err(Unexpected("value", e))
  }

  predicate IsIntTag(tag: string) { tag == "i4" || tag == "int" || tag == "i8" }

  /** What follows `<tag>` inside a value, through `</tag>`. */
  function ParseTyped(tag: string, evs: seq<Event>): (r: Parsed<XmlValue>)
    ensures r.Ok? ==> |r.value.1| <= |evs|
    decreases |evs|, 3
  {
    if tag == "array" then
      var (items, rest) :- ParseArray(evs);
      Ok((Array(items), rest))
    else if tag == "struct" then
      var (members, rest) :- ParseMembers(evs);
      Ok((Struct(members), rest))
    else if tag == "string" then
      var (text, rest) :- ReadText(tag, evs);
      Ok((Str(text), rest))
    else if IsIntTag(tag) then
      var (text, rest) :- ReadText(tag, evs);
      match ParseI64(TrimEnd(TrimStart(text)))
      case Some(n) => Ok((Int(n), rest))
      case None => Err(BadInteger(text))
    else Err(UnsupportedType(tag))
  }

  function ParseArray(evs: seq<Event>): (r: Parsed<seq<XmlValue>>)
    ensures r.Ok? ==> |r.value.1| < |evs|
    decreases |evs|, 2
  {
    var (e, rest) :- NextStructural(evs);
    if e == Start("data") then
      var (items, rest) :- ParseItems(rest);
      var rest :- Expect(End("array"), "array", rest);
      Ok((items, rest))
    else if e == Empty("data") then
      var rest :- Expect(End("array"), "array", rest);
      Ok(([], rest))
    else Err(Unexpected("array", e))
  }

  /** The values of an array, through `</data>`. */
  function ParseItems(evs: seq<Event>): (r: Parsed<seq<XmlValue>>)
    ensures r.Ok? ==> |r.value.1| < |evs|
    decreases |evs|, 1
  {
    var (e, rest) :- NextStructural(evs);
    if e == Start("value") then
      var (v, rest) :- ParseValue(rest);
      var (more, rest) :- ParseItems(rest);
      Ok(([v] + more, rest))
    else if e == End("data") then Ok(([], rest))
    else Err(Unexpected("data", e))
  }

  /** One member, after `<member>`. */
  function ParseMember(evs: seq<Event>): (r: Parsed<(string, XmlValue)>)
    ensures r.Ok? ==> |r.value.1| < |evs|
    decreases |evs|, 1
  {
    var rest :- Expect(Start("name"), "member", evs);
    var (name, rest) :- ReadText("name", rest);
    var rest :- Expect(Start("value"), "member", rest);
    var (v, rest) :- ParseValue(rest);
    var rest :- Expect(End("member"), "member", rest);
    Ok(((name, v), rest))
  }

  /** The members of a struct, through `</struct>`. */
  function ParseMembers(evs: seq<Event>): (r: Parsed<seq<(string, XmlValue)>>)
    ensures r.Ok? ==> |r.value.1| < |evs|
    decreases |evs|, 2
  {
    var (e, rest) :- NextStructural(evs);
    if e == Start("member") then
      var (m, rest) :- ParseMember(rest);
      var (more, rest) :- ParseMembers(rest);
      Ok(([m] + more, rest))
    else if e == End("struct") then Ok(([], rest))
    else Err(Unexpected("struct", e))
  }

  /** The `faultString` of a fault struct, whatever its position. */
  function FaultMessage(v: XmlValue): FaultText {
    if v.Struct? then
      match FirstFaultString(v.members)
      case Some(s) => FaultString(s)
      case None => DebugForm(v)
    else DebugForm(v)
  }

  function FirstFaultString(members: seq<(string, XmlValue)>): Option<string> {
    if members == [] then None
    else if members[0].0 == "faultString" && members[0].1.Str? then Some(members[0].1.s)
    else FirstFaultString(members[1..])
  }

  /** A whole reply: the first `<param>`'s value, or the first `<fault>`'s message. */
  function ParseResponse(evs: seq<Event>): Result<XmlValue, ParseError>
    decreases |evs|
  {
    var (e, rest) :- NextStructural(evs);
    if e == Start("fault") then
      var rest :- Expect(Start("value"), "response", rest);
      var (v, _) :- ParseValue(rest);
      Err(Fault(FaultMessage(v)))
    else if e == Start("param") then
      var rest :- Expect(Start("value"), "response", rest);
      var (v, _) :- ParseValue(rest);
      Ok(v)
    else if e.Eof? then Err(NoParamOrFault)
    else ParseResponse(rest)
  }

  // ----- the parser as written: a cursor and loops

  /** `r`, with `done` already read before it. */
  function After<T>(done: seq<T>, r: Parsed<seq<T>>): Parsed<seq<T>> {
    match r
    case Ok((more, rest)) => Ok((done + more, rest))
    case Err(e) => Err(e)
  }

  lemma AfterOne<T>(done: seq<T>, x: T, r: Parsed<seq<T>>)
    ensures After(done, After([x], r)) == After(done + [x], r)
  {
    if r.Ok? {
      assert done + ([x] + r.value.0) == done + [x] + r.value.0;
    }
  }

  class Reader {
    var rest: seq<Event>

    constructor (events: seq<Event>)
      ensures rest == events
    {
      rest := events;
    }

    /** `r` is what a production reading `start` gave, and on success the cursor is where it
        ended. */
    ghost predicate Matches<T>(r: Result<T, ParseError>, spec: Parsed<T>)
      reads this
    {
      match spec
      case Ok((v, left)) => r == Ok(v) && rest == left
      case Err(e) => r == Err(e)
    }

    method ReadEvent() returns (e: Event)
      modifies this
      ensures old(rest) == [] ==> e == Eof && rest == []
      ensures old(rest) != [] ==> e == old(rest)[0] && rest == old(rest)[1..]
    {
      if rest == [] {
        return Eof;
      }
      e := rest[0];
      rest := rest[1..];
    }

    method NextStructuralEvent() returns (r: Result<Event, ParseError>)
      modifies this
      ensures Matches(r, NextStructural(old(rest)))
      ensures |rest| <= |old(rest)|
    {
      while true
        invariant NextStructural(rest) == NextStructural(old(rest))
        invariant |rest| <= |old(rest)|
        decreases |rest|
      {
        var e := ReadEvent();
        if e.Broken? {
          return Err(ReaderFailed);
        }
        if !(e.Text? && Blank(e.text)) {
          return Ok(e);
        }
      }
    }

    method ExpectEvent(wanted: Event, inside: string) returns (r: Result<(), ParseError>)
      requires !wanted.Eof?
      modifies this
      ensures match Expect(wanted, inside, old(rest))
              case Ok(left) => r == Ok(()) && rest == left
              case Err(e) => r == Err(e)
      ensures |rest| <= |old(rest)|
    {
      var next := NextStructuralEvent();
      match next
      case Err(e) => return Err(e);
      case Ok(e) =>
        if e == wanted {
          return Ok(());
        }
        return Err(Unexpected(inside, e));
    }

    /** Appends every text and entity event up to `</tag>` onto `already`. */
    method ReadTextUntilEnd(tag: string, already: string) returns (r: Result<string, ParseError>)
      modifies this
      ensures Matches(r, After(already, ReadText(tag, old(rest))))
      ensures |rest| <= |old(rest)|
    {
      var text := already;
      while true
        invariant After(text, ReadText(tag, rest)) == After(already, ReadText(tag, old(rest)))
        invariant |rest| <= |old(rest)|
        decreases |rest|
      {
        ghost var before := rest;
        var e := ReadEvent();
        match e {
          case End(n) =>
            if n == tag {
              assert text + "" == text;
              return Ok(text);
            }
            return Err(Unexpected(tag, e));
          case Text(t) =>
            Append(text, t, ReadText(tag, rest));
            text := text + t;
          case CData(t) =>
            Append(text, t, ReadText(tag, rest));
            text := text + t;
          case GeneralRef(n) =>
            var resolved := Resolve(n);
            if resolved.Err? {
              return Err(resolved.error);
            }
            Append(text, resolved.value, ReadText(tag, rest));
            text := text + resolved.value;
          case Broken =>
            return Err(ReaderFailed);
          case _ =>
            return Err(Unexpected(tag, e));
        }
      }
    }

    static lemma Append(a: string, b: string, r: Parsed<string>)
      ensures After(a, After(b, r)) == After(a + b, r)
    {
      if r.Ok? {
        assert a + (b + r.value.0) == a + b + r.value.0;
      }
    }

    static lemma NothingBefore<T>(r: Parsed<seq<T>>)
      ensures After([], r) == r
    {
      if r.Ok? {
        assert [] + r.value.0 == r.value.0;
      }
    }

    method ReadElementText(tag: string) returns (r: Result<string, ParseError>)
      modifies this
      ensures Matches(r, ReadText(tag, old(rest)))
      ensures |rest| <= |old(rest)|
    {
      NothingBefore(ReadText(tag, rest));
      r := ReadTextUntilEnd(tag, "");
    }

    method Value() returns (r: Result<XmlValue, ParseError>)
      modifies this
      ensures Matches(r, ParseValue(old(rest)))
      ensures |rest| <= |old(rest)|
      decreases |rest|, 0
    {
      var next := NextStructuralEvent();
      if next.Err? {
        return Err(next.error);
      }
      var e := next.value;
      match e {
        case End(n) =>
          if n == "value" {
            return Ok(Str(""));
          }
          return Err(Unexpected("value", e));
        case Text(t) =>
          var text := ReadTextUntilEnd("value", t);
          return if text.Ok? then Ok(Str(text.value)) else Err(text.error);
        case GeneralRef(n) =>
          var resolved := Resolve(n);
          if resolved.Err? {
            return Err(resolved.error);
          }
          var text := ReadTextUntilEnd("value", resolved.value);
          return if text.Ok? then Ok(Str(text.value)) else Err(text.error);
        case Start(tag) =>
          var typed := Typed(tag);
          if typed.Err? {
            return typed;
          }
          var closed := ExpectEvent(End("value"), "value");
          return if closed.Ok? then typed else Err(closed.error);
        case _ =>
          return Err(Unexpected("value", e));
      }
    }

    method Typed(tag: string) returns (r: Result<XmlValue, ParseError>)
      modifies this
      ensures Matches(r, ParseTyped(tag, old(rest)))
      ensures |rest| <= |old(rest)|
      decreases |rest|, 3
    {
      if tag == "array" {
        var items := ArrayItems();
        return if items.Ok? then Ok(Array(items.value)) else Err(items.error);
      } else if tag == "struct" {
        var members := StructMembers();
        return if members.Ok? then Ok(Struct(members.value)) else Err(members.error);
      } else if tag == "string" {
        var text := ReadElementText(tag);
        return if text.Ok? then Ok(Str(text.value)) else Err(text.error);
      } else if IsIntTag(tag) {
        var text := ReadElementText(tag);
        if text.Err? {
          return Err(text.error);
        }
        var n := ParseI64(TrimEnd(TrimStart(text.value)));
        return if n.Some? then Ok(Int(n.value)) else Err(BadInteger(text.value));
      } else {
        return Err(UnsupportedType(tag));
      }
    }

    method ArrayItems() returns (r: Result<seq<XmlValue>, ParseError>)
      modifies this
      ensures Matches(r, ParseArray(old(rest)))
      ensures |rest| <= |old(rest)|
      decreases |rest|, 2
    {
      var items := [];
      var next := NextStructuralEvent();
      if next.Err? {
        return Err(next.error);
      }
      if next.value == Start("data") {
        ghost var start := rest;
        NothingBefore(ParseItems(start));
        while true
          invariant After(items, ParseItems(rest)) == ParseItems(start)
          invariant |rest| < |old(rest)|
          decreases |rest|
        {
          var inner := NextStructuralEvent();
          if inner.Err? {
            return Err(inner.error);
          }
          if inner.value == Start("value") {
            var v := Value();
            if v.Err? {
              return Err(v.error);
            }
            AfterOne(items, v.value, ParseItems(rest));
            items := items + [v.value];
          } else if inner.value == End("data") {
            assert items + [] == items;
            break;
          } else {
            return Err(Unexpected("data", inner.value));
          }
        }
      } else if next.value != Empty("data") {
        return Err(Unexpected("array", next.value));
      }
      var closed := ExpectEvent(End("array"), "array");
      return if closed.Ok? then Ok(items) else Err(closed.error);
    }

    method StructMember() returns (r: Result<(string, XmlValue), ParseError>)
      modifies this
      ensures Matches(r, ParseMember(old(rest)))
      ensures |rest| <= |old(rest)|
      decreases |rest|, 1
    {
      var began := ExpectEvent(Start("name"), "member");
      if began.Err? {
        return Err(began.error);
      }
      var name := ReadElementText("name");
      if name.Err? {
        return Err(name.error);
      }
      began := ExpectEvent(Start("value"), "member");
      if began.Err? {
        return Err(began.error);
      }
      var v := Value();
      if v.Err? {
        return Err(v.error);
      }
      var closed := ExpectEvent(End("member"), "member");
      return if closed.Ok? then Ok((name.value, v.value)) else Err(closed.error);
    }

    method StructMembers() returns (r: Result<seq<(string, XmlValue)>, ParseError>)
      modifies this
      ensures Matches(r, ParseMembers(old(rest)))
      ensures |rest| <= |old(rest)|
      decreases |rest|, 2
    {
      var members := [];
      NothingBefore(ParseMembers(rest));
      while true
        invariant After(members, ParseMembers(rest)) == ParseMembers(old(rest))
        invariant |rest| <= |old(rest)|
        decreases |rest|
      {
        var next := NextStructuralEvent();
        if next.Err? {
          return Err(next.error);
        }
        if next.value == Start("member") {
          var m := StructMember();
          if m.Err? {
            return Err(m.error);
          }
          AfterOne(members, m.value, ParseMembers(rest));
          members := members + [m.value];
        } else if next.value == End("struct") {
          assert members + [] == members;
          return Ok(members);
        } else {
          return Err(Unexpected("struct", next.value));
        }
      }
    }

    method Response() returns (r: Result<XmlValue, ParseError>)
      modifies this
      ensures r == ParseResponse(old(rest))
    {
      while true
        invariant ParseResponse(rest) == ParseResponse(old(rest))
        decreases |rest|
      {
        var next := NextStructuralEvent();
        if next.Err? {
          return Err(next.error);
        }
        if next.value.Eof? {
          return Err(NoParamOrFault);
        }
        if next.value == Start("fault") || next.value == Start("param") {
          var began := ExpectEvent(Start("value"), "response");
          if began.Err? {
            return Err(began.error);
          }
          var v := Value();
          if v.Err? || next.value == Start("param") {
            return v;
          }
          return Err(Fault(FaultMessage(v.value)));
        }
      }
    }
  }
}
