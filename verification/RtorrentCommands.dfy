/** What the rTorrent client puts around the wire format: quoted command arguments, and the
    verdict on a batch of calls. */
module RtorrentCommands {
  import opened Basics
  import opened XmlRpc
  import opened XmlRpcRequest

  // ----- quoting

  predicate NeedsEscape(c: char) { c == '\\' || c == '"' }

  function EscapedChar(c: char): string {
    if NeedsEscape(c) then ['\\', c] else [c]
  }

  function EscapedArg(s: string): string {
    if s == [] then [] else EscapedChar(s[0]) + EscapedArg(s[1..])
  }

  lemma {:induction false} EscapedOneMore(s: string, c: char)
    ensures EscapedArg(s + [c]) == EscapedArg(s) + EscapedChar(c)
  {
    var longer := s + [c];
    if s == [] {
      assert longer[1..] == [];
      assert EscapedArg([]) == [];
    } else {
      assert longer[1..] == s[1..] + [c] && longer[0] == s[0];
      EscapedOneMore(s[1..], c);
      JoinsRegroup(EscapedChar(s[0]), EscapedArg(s[1..]), EscapedChar(c));
    }
  }

  method QuoteCommandArg(value: string) returns (out: string)
    ensures out == ['"'] + EscapedArg(value) + ['"']
  {
    out := ['"'];
    for i := 0 to |value|
      invariant out == ['"'] + EscapedArg(value[..i])
    {
      EscapedOneMore(value[..i], value[i]);
      assert value[..i + 1] == value[..i] + [value[i]];
      if NeedsEscape(value[i]) {
        out := out + ['\\'];
      }
      out := out + [value[i]];
    }
    assert value[..|value|] == value;
    out := out + ['"'];
  }

  /** Reads the body of a string literal up to its first unescaped quote: what it says, and what
      follows that quote. */
  function ReadLiteral(s: string): Option<(string, string)> {
    if s == [] then None
    else if s[0] == '"' then Some(("", s[1..]))
    else if s[0] == '\\' then
      if |s| == 1 then None
      else
        match ReadLiteral(s[2..])
        case Some((text, rest)) => Some(([s[1]] + text, rest))
        case None => None
    else
      match ReadLiteral(s[1..])
      case Some((text, rest)) => Some(([s[0]] + text, rest))
      case None => None
  }

  /** Quoting is invertible for every string and in every context: a literal followed by
      anything ends at its own closing quote, which is therefore the only unescaped one. */
  lemma {:induction false} QuotingReadBack(s: string, rest: string)
    ensures ReadLiteral(EscapedArg(s) + (['"'] + rest)) == Some((s, rest))
  {
    var all := EscapedArg(s) + (['"'] + rest);
    if s == [] {
      assert all == ['"'] + rest;
      assert all[1..] == rest;
    } else {
      QuotingReadBack(s[1..], rest);
      var tail := EscapedArg(s[1..]) + (['"'] + rest);
      if NeedsEscape(s[0]) {
        assert all == ['\\', s[0]] + tail;
        assert all[2..] == tail;
      } else {
        assert all == [s[0]] + tail;
        assert all[1..] == tail;
      }
      assert [s[0]] + s[1..] == s;
    }
  }

  function CountSpecial(s: string): nat {
    if s == [] then 0 else (if s[0] == '"' || s[0] == '\\' then 1 else 0) + CountSpecial(s[1..])
  }

  /** Nothing is escaped that need not be: quoting adds one character for each quote or backslash,
      and leaves a text without any as it is. */
  lemma {:induction false} EscapesOnlyWhatItMust(s: string)
    ensures |EscapedArg(s)| == |s| + CountSpecial(s)
    ensures '"' !in s && '\\' !in s ==> EscapedArg(s) == s
  {
    if s != [] {
      EscapesOnlyWhatItMust(s[1..]);
      assert s == [s[0]] + s[1..];
    }
  }

  // ----- a batch of calls

  datatype BatchVerdict =
    | AllSucceeded
    | Malformed(error: ParseError)
    | NotAnArray(value: XmlValue)
    | WrongCount(got: nat, expected: nat)
    | CallFaulted(name: string, message: FaultText)
    | BadRow(row: XmlValue)

  /** The multicall extension wraps a successful return value in a one-element array. */
  predicate RowSucceeded(row: XmlValue) {
    row.Array? && |row.items| == 1
  }

  /** The verdict on a reply with the right number of rows. */
  function RowsVerdict(calls: seq<MethodCall>, rows: seq<XmlValue>): BatchVerdict
    requires |rows| == |calls|
  {
    if rows == [] then AllSucceeded
    else if RowSucceeded(rows[0]) then RowsVerdict(calls[1..], rows[1..])
    else if rows[0].Struct? then CallFaulted(calls[0].name, FaultMessage(rows[0]))
    else BadRow(rows[0])
  }

  /** Every row before `i` is a one-element array, and row `i` is not. */
  ghost predicate FirstFailure(rows: seq<XmlValue>, i: int) {
    && 0 <= i < |rows|
    && !(rows[i].Array? && |rows[i].items| == 1)
    && forall j :: 0 <= j < i ==> rows[j].Array? && |rows[j].items| == 1
  }

  ghost predicate AllOneElement(rows: seq<XmlValue>) {
    forall i :: 0 <= i < |rows| ==> rows[i].Array? && |rows[i].items| == 1
  }

  /** The first row that failed decides, under the name of its own call. */
  lemma {:induction false} FirstFailureDecides(calls: seq<MethodCall>, rows: seq<XmlValue>, i: int)
    requires |rows| == |calls| && FirstFailure(rows, i)
    ensures RowsVerdict(calls, rows)
            == if rows[i].Struct? then CallFaulted(calls[i].name, FaultMessage(rows[i])) else BadRow(rows[i])
    decreases |rows|
  {
    if i > 0 {
      assert forall j :: 0 <= j < |rows| - 1 ==> rows[1..][j] == rows[j + 1];
      FirstFailureDecides(calls[1..], rows[1..], i - 1);
    }
  }

  lemma {:induction false} AllSucceededIff(calls: seq<MethodCall>, rows: seq<XmlValue>)
    requires |rows| == |calls|
    ensures RowsVerdict(calls, rows) == AllSucceeded <==> AllOneElement(rows)
    decreases |rows|
  {
    if rows != [] {
      AllSucceededIff(calls[1..], rows[1..]);
      assert forall j :: 0 <= j < |rows| - 1 ==> rows[1..][j] == rows[j + 1];
      assert forall j :: 0 < j < |rows| ==> rows[j] == rows[1..][j - 1];
    }
  }

  /** A batch succeeds exactly when the reply has one one-element row per call; otherwise the
      verdict is that of the first row that failed, named by its own call. */
  method CallMany(calls: seq<MethodCall>, reply: Result<XmlValue, ParseError>) returns (r: BatchVerdict)
    ensures r == AllSucceeded <==>
              reply.Ok? && reply.value.Array? && |reply.value.items| == |calls| && AllOneElement(reply.value.items)
    ensures reply.Err? ==> r == Malformed(reply.error)
    ensures reply.Ok? && !reply.value.Array? ==> r == NotAnArray(reply.value)
    ensures reply.Ok? && reply.value.Array? && |reply.value.items| != |calls| ==>
              r == WrongCount(|reply.value.items|, |calls|)
    ensures reply.Ok? && reply.value.Array? && |reply.value.items| == |calls| ==>
              forall i :: FirstFailure(reply.value.items, i) ==>
                var row := reply.value.items[i];
                r == if row.Struct? then CallFaulted(calls[i].name, FaultMessage(row)) else BadRow(row)
  {
    if reply.Err? {
      return Malformed(reply.error);
    }
    if !reply.value.Array? {
      return NotAnArray(reply.value);
    }
    var rows := reply.value.items;
    if |rows| != |calls| {
      return WrongCount(|rows|, |calls|);
    }
    r := CheckRows(calls, rows);
    AllSucceededIff(calls, rows);
    forall i | FirstFailure(rows, i)
      ensures r == if rows[i].Struct? then CallFaulted(calls[i].name, FaultMessage(rows[i])) else BadRow(rows[i])
    {
      FirstFailureDecides(calls, rows, i);
    }
  }

  /** The loop over the rows, which stops at the first that did not succeed. */
  method CheckRows(calls: seq<MethodCall>, rows: seq<XmlValue>) returns (r: BatchVerdict)
    requires |rows| == |calls|
    ensures r == RowsVerdict(calls, rows)
  {
    for i := 0 to |rows|
      invariant RowsVerdict(calls[i..], rows[i..]) == RowsVerdict(calls, rows)
    {
      assert rows[i..][1..] == rows[i + 1..] && calls[i..][1..] == calls[i + 1..];
      if rows[i].Array? && |rows[i].items| == 1 {
      } else if rows[i].Struct? {
        return CallFaulted(calls[i].name, FaultMessage(rows[i]));
      } else {
        return BadRow(rows[i]);
      }
    }
    return AllSucceeded;
  }
}
