/** Content-Length framing of the stdio transport, as in the Header Part of the Base Protocol of the
    Language Server Protocol. A stream is a string with one character per byte. */
module Framing {
  import opened Common

  // ---- decimal numbers ----

  function Digit(d: nat): char
    requires d < 10
  {
    '0' + d as char
  }

  predicate IsDigit(c: char)
  {
    '0' <= c <= '9'
  }

  function Decimal(n: nat): (s: string)
    ensures s != "" && forall c :: c in s ==> IsDigit(c)
  {
    if n < 10 then [Digit(n)] else Decimal(n / 10) + [Digit(n % 10)]
  }

  /** Digits, with single underscores allowed between them. */
  function ParseDigits(s: string): Option<nat>
    decreases |s|
  {
    if s == "" || !IsDigit(s[|s| - 1]) then None
    else
      var d: nat, front := s[|s| - 1] as int - '0' as int, s[..|s| - 1];
      if front == "" then Some(d)
      else
        var high := ParseDigits(if front[|front| - 1] == '_' then front[..|front| - 1] else front);
        if high.None? then None else Some(10 * high.value + d)
  }

  function ParseInt(s: string): Option<int>
  {
    if s != "" && (s[0] == '-' || s[0] == '+') then
      var n := ParseDigits(s[1..]);
      if n.None? then None
      else
        var v: int := n.value;
        Some(if s[0] == '-' then -v else v)
    else
      var n := ParseDigits(s);
      if n.None? then None else Some(n.value)
  }

  lemma {:induction false} DecimalRoundTrip(n: nat)
    ensures ParseDigits(Decimal(n)) == Some(n)
  {
    var s := Decimal(n);
    if n >= 10 {
      DecimalRoundTrip(n / 10);
      assert s[..|s| - 1] == Decimal(n / 10);
      assert s[|s| - 2] in Decimal(n / 10);
    } else {
      assert s[..0] == "";
    }
  }

  // ---- text of a header line ----

  predicate IsSpace(c: char)
  {
    9 as char <= c <= 13 as char || 28 as char <= c <= 32 as char
  }

  function StripLeft(s: string): string
  {
    if s != "" && IsSpace(s[0]) then StripLeft(s[1..]) else s
  }

  function StripRight(s: string): string
  {
    if s != "" && IsSpace(s[|s| - 1]) then StripRight(s[..|s| - 1]) else s
  }

  function Strip(s: string): string
  {
    StripRight(StripLeft(s))
  }

  function LowerChar(c: char): char
  {
    if 'A' <= c <= 'Z' then (c as int + 32) as char else c
  }

  function Lower(s: string): string
  {
    seq(|s|, i requires 0 <= i < |s| => LowerChar(s[i]))
  }

  /** The first position of c, or the length. */
  function Index(s: string, c: char): (i: nat)
    ensures i <= |s| && c !in s[..i] && (i < |s| ==> s[i] == c)
    ensures i == |s| <==> c !in s
  {
    if s == "" || s[0] == c then 0 else Index(s[1..], c) + 1
  }

  /** A line up to and including its newline, or whatever is left. */
  function Line(s: string): string
  {
    if '\n' in s then s[..Index(s, '\n') + 1] else s
  }

  function AddHeader(headers: map<string, string>, line: string): map<string, string>
  {
    if ':' !in line then headers
    else
      var i := Index(line, ':');
      headers[Lower(Strip(line[..i])) := Strip(line[i + 1..])]
  }

  datatype Headers = Headers(fields: map<string, string>, rest: string)

  function ReadHeaders(s: string, headers: map<string, string>): (h: Headers)
    ensures |h.rest| <= |s| && (s != "" ==> |h.rest| < |s|)
    decreases |s|
  {
    var line := Line(s);
    if line == "" || line == "\r\n" then Headers(headers, s[|line|..])
    else ReadHeaders(s[|line|..], AddHeader(headers, line))
  }

  // ---- messages ----

  datatype Outcome = Message(body: string) | NoMessage | BadLength | Truncated

  datatype Reading = Reading(outcome: Outcome, rest: string)

  const LENGTH := "content-length"

  function ReadMessage(s: string): (r: Reading)
    ensures s != "" ==> |r.rest| < |s|
  {
    var h := ReadHeaders(s, map[]);
    if LENGTH !in h.fields then Reading(NoMessage, h.rest)
    else
      var n := ParseInt(h.fields[LENGTH]);
      if n.None? || n.value < 0 then Reading(BadLength, h.rest)
      else if |h.rest| < n.value then Reading(Truncated, "")
      else Reading(Message(h.rest[..n.value]), h.rest[n.value..])
  }

  function Head(n: nat): string
  {
    "Content-Length: " + Decimal(n) + "\r\n\r\n"
  }

  function Frame(body: string): string
  {
    Head(|body|) + body
  }

  /** All messages of a stream, as the server's loop reads them: faulty ones are passed over. */
  function ReadAll(s: string): seq<string>
    decreases |s|
  {
    if s == "" then []
    else
      var r := ReadMessage(s);
      (if r.outcome.Message? then [r.outcome.body] else []) + ReadAll(r.rest)
  }

  function Stream(bodies: seq<string>): string
  {
    if bodies == [] then "" else Frame(bodies[0]) + Stream(bodies[1..])
  }

  lemma {:induction false} IndexOf(a: string, c: char, b: string)
    requires c !in a
    ensures Index(a + [c] + b, c) == |a|
  {
    var s, i := a + [c] + b, Index(a + [c] + b, c);
    assert s[|a|] == c && c in s;
    assert forall j :: 0 <= j < |a| ==> s[j] == a[j] && a[j] in a;
    assert forall j :: 0 <= j < i ==> s[..i][j] == s[j] && s[j] in s[..i];
  }

  lemma LineIs(a: string, b: string)
    requires '\n' !in a
    ensures Line(a + "\n" + b) == a + "\n"
  {
    IndexOf(a, '\n', b);
    assert (a + "\n" + b)[|a|] == '\n';
  }

  lemma StripDecimal(n: nat)
    ensures Strip(" " + Decimal(n) + "\r\n") == Decimal(n)
  {
    var d := Decimal(n);
    assert IsDigit(d[0]) && IsDigit(d[|d| - 1]);
    var s := " " + d + "\r\n";
    assert s[1..] == d + "\r\n";
    assert StripLeft(d + "\r\n") == d + "\r\n";
    assert (d + "\r\n")[..|d| + 1] == d + "\r" && (d + "\r")[..|d|] == d;
    assert StripRight(d + "\r") == StripRight(d) == d;
    assert StripRight(d + "\r\n") == StripRight(d + "\r");
  }

  lemma LengthHeader(n: nat)
    ensures AddHeader(map[], "Content-Length: " + Decimal(n) + "\r\n") == map[LENGTH := Decimal(n)]
  {
    hide Decimal, Strip, Lower;
    var name, value := "Content-Length", " " + Decimal(n) + "\r\n";
    var line := "Content-Length: " + Decimal(n) + "\r\n";
    assert line == name + ":" + value;
    IndexOf(name, ':', value);
    assert line[..|name|] == name && line[|name| + 1..] == value;
    StripDecimal(n);
    NameIs();
  }

  lemma NameIs()
    ensures Lower(Strip("Content-Length")) == LENGTH
  {
    var name := "Content-Length";
    assert StripLeft(name) == name;
    assert StripRight(name) == name;
    assert Lower(name) == LENGTH;
  }

  /** One header line and a blank one. */
  lemma OneHeader(a: string, b: string)
    requires '\n' !in a && a != "" && a != "\r"
    ensures ReadHeaders(a + "\n" + ("\r\n" + b), map[]) == Headers(AddHeader(map[], a + "\n"), b)
  {
    hide AddHeader, Index;
    var line, rest := a + "\n", "\r\n" + b;
    var s := line + rest;
    LineIs(a, rest);
    assert s[|line|..] == rest;
    assert line[..|a|] == a && "\r\n"[..1] == "\r";
    assert rest == "\r" + "\n" + b;
    LineIs("\r", b);
    assert rest[|"\r\n"|..] == b;
  }

  lemma HeadersOfFrame(n: nat, b: string)
    ensures ReadHeaders(Head(n) + b, map[]) == Headers(map[LENGTH := Decimal(n)], b)
  {
    hide ReadHeaders, AddHeader, Line;
    var a := "Content-Length: " + Decimal(n) + "\r";
    assert a[0] == 'C';
    assert '\n' !in a;
    OneHeader(a, b);
    assert a + "\n" == "Content-Length: " + Decimal(n) + "\r\n";
    LengthHeader(n);
    assert Head(n) + b == a + "\n" + ("\r\n" + b);
  }

  /** Headers with the length of the body give the body. */
  lemma LengthRead(s: string, fields: map<string, string>, body: string, more: string)
    requires ReadHeaders(s, map[]) == Headers(fields, body + more)
    requires LENGTH in fields && fields[LENGTH] == Decimal(|body|)
    ensures ReadMessage(s) == Reading(Message(body), more)
  {
    hide ReadHeaders, ParseDigits;
    DecimalRoundTrip(|body|);
    var d := Decimal(|body|);
    assert d[0] in d;
    assert (body + more)[..|body|] == body && (body + more)[|body|..] == more;
  }

  /** Reading a frame gives its body back, whatever it contains, and leaves what follows it. */
  lemma FrameRoundTrip(body: string, more: string)
    ensures ReadMessage(Frame(body) + more) == Reading(Message(body), more)
  {
    hide Head, ReadHeaders, ParseInt, Decimal;
    assert Frame(body) + more == Head(|body|) + (body + more);
    HeadersOfFrame(|body|, body + more);
    LengthRead(Frame(body) + more, map[LENGTH := Decimal(|body|)], body, more);
  }

  /** A frame that breaks off within its body is reported, and nothing of it is delivered. */
  lemma FrameCut(body: string, k: nat)
    requires k < |body|
    ensures ReadMessage(Head(|body|) + body[..k]) == Reading(Truncated, "")
  {
    hide Head, ReadHeaders, ParseDigits;
    HeadersOfFrame(|body|, body[..k]);
    DecimalRoundTrip(|body|);
    var d := Decimal(|body|);
    assert d[0] in d;
  }

  // ---- other headers ----

  /** The field a header line sets, if any. */
  function FieldName(line: string): Option<string>
  {
    if ':' in line then Some(Lower(Strip(line[..Index(line, ':')]))) else None
  }

  function FieldValue(line: string): string
    requires ':' in line
  {
    Strip(line[Index(line, ':') + 1..])
  }

  ghost predicate HeaderText(a: string)
  {
    '\n' !in a && a != "" && a != "\r"
  }

  /** Header lines, each with its newline. */
  function Lines(ls: seq<string>): string
  {
    if ls == [] then "" else ls[0] + "\n" + Lines(ls[1..])
  }

  function Fields(headers: map<string, string>, ls: seq<string>): map<string, string>
    decreases |ls|
  {
    if ls == [] then headers else Fields(AddHeader(headers, ls[0] + "\n"), ls[1..])
  }

  lemma {:induction false} ManyHeaders(headers: map<string, string>, ls: seq<string>, b: string)
    requires forall a :: a in ls ==> HeaderText(a)
    ensures ReadHeaders(Lines(ls) + ("\r\n" + b), headers) == Headers(Fields(headers, ls), b)
    decreases |ls|
  {
    hide AddHeader, Index;
    var end := "\r\n" + b;
    if ls == [] {
      assert end == "\r" + "\n" + b;
      LineIs("\r", b);
      assert Lines(ls) + end == end && end[|"\r\n"|..] == b;
    } else {
      var line, rest := ls[0] + "\n", Lines(ls[1..]) + end;
      assert HeaderText(ls[0]);
      assert Lines(ls) + end == line + rest;
      LineIs(ls[0], rest);
      assert (line + rest)[|line|..] == rest;
      assert line[..|ls[0]|] == ls[0] && "\r\n"[..1] == "\r";
      ManyHeaders(AddHeader(headers, line), ls[1..], b);
    }
  }

  /** Of lines only one of which sets a field, that one decides its value. */
  lemma {:induction false} FieldSet(headers: map<string, string>, ls: seq<string>, i: nat, key: string)
    requires i < |ls| && FieldName(ls[i] + "\n") == Some(key)
    requires forall j :: 0 <= j < |ls| && j != i ==> FieldName(ls[j] + "\n") != Some(key)
    ensures key in Fields(headers, ls) && Fields(headers, ls)[key] == FieldValue(ls[i] + "\n")
    decreases |ls|
  {
    hide Lower, Strip, Index;
    if i == 0 {
      FieldKept(AddHeader(headers, ls[0] + "\n"), ls[1..], key);
    } else {
      FieldSet(AddHeader(headers, ls[0] + "\n"), ls[1..], i - 1, key);
    }
  }

  lemma {:induction false} FieldKept(headers: map<string, string>, ls: seq<string>, key: string)
    requires key in headers && forall j :: 0 <= j < |ls| ==> FieldName(ls[j] + "\n") != Some(key)
    ensures key in Fields(headers, ls) && Fields(headers, ls)[key] == headers[key]
    decreases |ls|
  {
    hide Lower, Strip, Index;
    if ls != [] {
      FieldKept(AddHeader(headers, ls[0] + "\n"), ls[1..], key);
    }
  }

  /** A length header among any others, before or after it, gives the same message. */
  lemma OtherHeadersIgnored(ls: seq<string>, i: nat, body: string, more: string)
    requires (forall a :: a in ls ==> HeaderText(a)) && i < |ls|
    requires FieldName(ls[i] + "\n") == Some(LENGTH) && FieldValue(ls[i] + "\n") == Decimal(|body|)
    requires forall j :: 0 <= j < |ls| && j != i ==> FieldName(ls[j] + "\n") != Some(LENGTH)
    ensures ReadMessage(Lines(ls) + ("\r\n" + (body + more))) == Reading(Message(body), more)
  {
    ManyHeaders(map[], ls, body + more);
    FieldSet(map[], ls, i, LENGTH);
    hide *;
    LengthRead(Lines(ls) + ("\r\n" + (body + more)), Fields(map[], ls), body, more);
  }

  lemma LowerKeeps(s: string, i: nat)
    requires i < |s|
    ensures Lower(s)[i] == LowerChar(s[i])
  {
  }

  /** The name of the length header counts in any case. */
  lemma AnyCase(name: string, n: nat)
    requires Lower(name) == LENGTH
    ensures var line := name + ":" + (" " + Decimal(n) + "\r\n");
            FieldName(line) == Some(LENGTH) && FieldValue(line) == Decimal(n)
  {
    hide Decimal;
    var value := " " + Decimal(n) + "\r\n";
    var line := name + ":" + value;
    assert |name| == |LENGTH|;
    forall j | 0 <= j < |name|
      ensures name[j] != ':' && !IsSpace(name[j])
    {
      LowerKeeps(name, j);
      assert LENGTH[j] != ':' && !IsSpace(LENGTH[j]);
    }
    assert StripLeft(name) == name && StripRight(name) == name;
    IndexOf(name, ':', value);
    assert line[|name|] == ':';
    assert line[..|name|] == name && line[|name| + 1..] == value;
    StripDecimal(n);
  }

  /** Reading a stream of frames gives back exactly the bodies that were sent. */
  lemma {:induction false} StreamRoundTrip(bodies: seq<string>)
    ensures ReadAll(Stream(bodies)) == bodies
  {
    if bodies != [] {
      FrameRoundTrip(bodies[0], Stream(bodies[1..]));
      StreamRoundTrip(bodies[1..]);
      assert Frame(bodies[0]) + Stream(bodies[1..]) != "";
    }
  }

  /** So no two lists of bodies share a stream. */
  lemma StreamInjective(xs: seq<string>, ys: seq<string>)
    requires Stream(xs) == Stream(ys)
    ensures xs == ys
  {
    StreamRoundTrip(xs);
    StreamRoundTrip(ys);
  }

  // ---- the transport ----

  class Transport {
    var input: string       // bytes not yet read
    var output: string      // bytes written

    constructor (input: string)
      ensures this.input == input && output == ""
    {
      this.input, output := input, "";
    }

    method Send(body: string)
      modifies this`output
      ensures output == old(output) + Frame(body)
    {
      output := output + (Head(|body|) + body);
    }

    method ReadLine() returns (line: string)
      modifies this`input
      ensures line == Line(old(input)) && input == old(input)[|line|..]
    {
      line := Line(input);
      input := input[|line|..];
    }

    /** Reads header lines up to the blank one, then the announced number of bytes. */
    method Receive() returns (o: Outcome)
      modifies this`input
      ensures Reading(o, input) == ReadMessage(old(input))
    {
      var headers: map<string, string> := map[];
      ghost var all := ReadHeaders(input, headers);
      while true
        invariant ReadHeaders(input, headers) == all
        decreases |input|
      {
        var line := ReadLine();
        if line == "" || line == "\r\n" {
          break;
        }
        headers := AddHeader(headers, line);
      }
      assert all == Headers(headers, input);
      if LENGTH !in headers {
        return NoMessage;
      }
      var n := ParseInt(headers[LENGTH]);
      if n.None? || n.value < 0 {
        return BadLength;
      }
      if |input| < n.value {
        input := "";
        return Truncated;
      }
      o := Message(input[..n.value]);
      input := input[n.value..];
    }

    /** The read loop, until the stream ends. */
    method ReceiveAll() returns (bodies: seq<string>)
      modifies this`input
      ensures bodies == ReadAll(old(input)) && input == ""
    {
      hide ReadMessage;
      bodies := [];
      while input != ""
        invariant bodies + ReadAll(input) == ReadAll(old(input))
        decreases |input|
      {
        var o := Receive();
        if o.Message? {
          bodies := bodies + [o.body];
        }
      }
    }
  }

  /** What one side sends, the other receives. */
  method Exchange(bodies: seq<string>) returns (received: seq<string>)
    ensures received == bodies
  {
    hide Frame, ReadAll;
    var sender := new Transport("");
    var i := 0;
    assert bodies[0..] == bodies;
    while i < |bodies|
      invariant 0 <= i <= |bodies| && sender.output + Stream(bodies[i..]) == Stream(bodies)
    {
      assert bodies[i..][0] == bodies[i] && bodies[i..][1..] == bodies[i + 1..];
      sender.Send(bodies[i]);
      i := i + 1;
    }
    assert bodies[|bodies|..] == [];
    assert sender.output == Stream(bodies);
    var receiver := new Transport(sender.output);
    received := receiver.ReceiveAll();
    StreamRoundTrip(bodies);
  }
}
