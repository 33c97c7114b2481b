/**
 * How `/start-demo` writes one narration to its event stream:
 * `JSON.stringify({ message, isUser })` between `data: ` and a blank line.
 *
 * The string quoting follows QuoteJSONString of ECMA-262 (section 25.5.2.3
 * of the 2023 edition): the seven short escapes, `\u00xx` with lower-case
 * hex digits for the other control characters, everything else verbatim.
 * Dafny characters are Unicode scalar values, so the lone surrogates that
 * QuoteJSONString also escapes cannot occur.
 *
 * The decoder is the reading side, restricted to what this server writes: an
 * event stream of `data:` lines each followed by a blank line, as the
 * "Interpreting an event stream" section of the WHATWG HTML standard parses
 * it, and `JSON.parse` of an object with exactly the keys `message` and
 * `isUser` in that order.
 */
module EventStream {
  import opened Wrappers
  import opened Scan
  import opened DemoLogic

  // ---------------------------------------------------------------------------
  // Writing

  /** The hex digit of `v`, in lower case as QuoteJSONString writes it. */
  function HexChar(v: nat): (c: char)
    requires v < 16
    ensures IsHexDigit(c)
  {
    if v < 10 then ('0' as int + v) as char else ('a' as int + v - 10) as char
  }

  /** How QuoteJSONString writes one character. */
  function EscapeChar(c: char): (r: string)
    ensures 1 <= |r| <= 6
    ensures |r| == 1 <==> (c >= ' ' && c != '"' && c != '\\')
    ensures |r| == 1 ==> r == [c]
    ensures |r| > 1 ==> r[0] == '\\'
    ensures forall k :: 0 <= k < |r| ==> r[k] >= ' '
  {
    if c == '\U{0008}' then "\\b"
    else if c == '\t' then "\\t"
    else if c == '\n' then "\\n"
    else if c == '\U{000C}' then "\\f"
    else if c == '\r' then "\\r"
    else if c == '"' then "\\\""
    else if c == '\\' then "\\\\"
    else if c < ' ' then "\\u00" + [HexChar(c as int / 16), HexChar(c as int % 16)]
    else [c]
  }

  /** The escaped characters of a string, in order (QuoteJSONString without its quotes). */
  function Escape(s: string): string
    decreases |s|
  {
    if s == [] then [] else EscapeChar(s[0]) + Escape(s[1..])
  }

  /** What comes before the message: the opening brace, the key and the opening quote. */
  const JSON_HEAD := "{\"message\":\""
  /** What follows the message's closing quote for a user turn and for any other narration. */
  const USER_TAIL := ",\"isUser\":" + "true" + "}"
  const AGENT_TAIL := ",\"isUser\":" + "false" + "}"

  /** The serialised object `{ message, isUser }`. */
  function Json(e: Event): string {
    JSON_HEAD + Escape(e.text) + "\"" + (if e.isUser then USER_TAIL else AGENT_TAIL)
  }

  /** `sendMessage`: one `data:` line and the blank line that dispatches it. */
  function Frame(e: Event): string {
    "data: " + Json(e) + "\n\n"
  }

  /** The frames of a sequence of events, written one after the other. */
  function Frames(es: seq<Event>): string
    decreases |es|
  {
    if es == [] then [] else Frame(es[0]) + Frames(es[1..])
  }

  // ---------------------------------------------------------------------------
  // Reading

  /** Text read off the front of a string, and what is left after it. */
  datatype Read = Read(text: string, rest: string)

  /** The value of a hex digit in either case. */
  function HexValue(c: char): (v: nat)
    requires IsHexDigit(c)
    ensures v < 16
  {
    if '0' <= c <= '9' then c as int - '0' as int
    else if 'a' <= c <= 'f' then c as int - 'a' as int + 10
    else c as int - 'A' as int + 10
  }

  /** The character named by `\uXXXX`, when it is a scalar value. */
  function UnicodeEscape(s: string): (r: Option<Read>)
    ensures r.Some? ==> |r.value.rest| < |s|
  {
    if |s| >= 4 && IsHexDigit(s[0]) && IsHexDigit(s[1]) && IsHexDigit(s[2]) && IsHexDigit(s[3]) then
      var v := 4096 * HexValue(s[0]) + 256 * HexValue(s[1]) + 16 * HexValue(s[2]) + HexValue(s[3]);
      if 0xD800 <= v < 0xE000 then None else Some(Read([v as char], s[4..]))
    else None
  }

  /** The character an escape stands for, read after its backslash. */
  function Unescape(s: string): (r: Option<Read>)
    ensures r.Some? ==> |r.value.rest| < |s|
  {
    if s == [] then None
    else if s[0] == '"' || s[0] == '\\' || s[0] == '/' then Some(Read([s[0]], s[1..]))
    else if s[0] == 'b' then Some(Read(['\U{0008}'], s[1..]))
    else if s[0] == 't' then Some(Read(['\t'], s[1..]))
    else if s[0] == 'n' then Some(Read(['\n'], s[1..]))
    else if s[0] == 'f' then Some(Read(['\U{000C}'], s[1..]))
    else if s[0] == 'r' then Some(Read(['\r'], s[1..]))
    else if s[0] == 'u' then UnicodeEscape(s[1..])
    else None
  }

  /**
   * The characters of a JSON string literal up to its closing quote, which is
   * consumed; a raw control character or a bad escape is an error.
   */
  function ReadString(s: string): (r: Option<Read>)
    ensures r.Some? ==> |r.value.rest| < |s|
    decreases |s|
  {
    if s == [] then None
    else if s[0] == '"' then Some(Read([], s[1..]))
    else if s[0] == '\\' then
      match Unescape(s[1..])
      case None => None
      case Some(u) =>
        match ReadString(u.rest)
        case None => None
        case Some(r) => Some(Read(u.text + r.text, r.rest))
    else if s[0] < ' ' then None
    else
      match ReadString(s[1..])
      case None => None
      case Some(r) => Some(Read([s[0]] + r.text, r.rest))
  }

  /** `JSON.parse` of one serialised event. */
  function DecodeJson(line: string): (r: Option<Event>)
  {
    if |line| >= |JSON_HEAD| && line[..|JSON_HEAD|] == JSON_HEAD then
      match ReadString(line[|JSON_HEAD|..])
      case None => None
      case Some(m) =>
        if m.rest == USER_TAIL then Some(Event(m.text, true))
        else if m.rest == AGENT_TAIL then Some(Event(m.text, false))
        else None
    else None
  }

  /** The events of a stream of `data:` lines, each ended by a blank line. */
  function DecodeFrames(s: string): (r: Option<seq<Event>>)
    decreases |s|
  {
    if s == [] then Some([])
    else if |s| >= 6 && s[..6] == "data: " then
      var body := s[6..];
      var k := RunEnd(body, 0, NotLineFeed);
      if k + 2 <= |body| && body[k + 1] == '\n' then
        match DecodeJson(body[..k])
        case None => None
        case Some(e) =>
          match DecodeFrames(body[k + 2..])
          case None => None
          case Some(es) => Some([e] + es)
      else None
    else None
  }

  // ---------------------------------------------------------------------------
  // Properties

  /** No character of `s` is a control character, so none is a line feed or a carriage return. */
  predicate Printable(s: string) {
    forall k :: 0 <= k < |s| ==> s[k] >= ' '
  }

  lemma PrintableConcat(a: string, b: string)
    requires Printable(a) && Printable(b)
    ensures Printable(a + b)
  {
    forall k | 0 <= k < |a + b| ensures (a + b)[k] >= ' ' {
      if k < |a| { assert (a + b)[k] == a[k]; } else { assert (a + b)[k] == b[k - |a|]; }
    }
  }

  /** An escaped string holds no control character. */
  lemma {:induction false} EscapeIsPrintable(s: string)
    ensures Printable(Escape(s))
    decreases |s|
  {
    if s != [] {
      EscapeIsPrintable(s[1..]);
      PrintableConcat(EscapeChar(s[0]), Escape(s[1..]));
    }
  }

  /** A serialised event is a single line: the frame's blank line is the only place it can end. */
  lemma JsonIsOneLine(e: Event)
    ensures Printable(Json(e))
  {
    EscapeIsPrintable(e.text);
    FixedPartsPrintable();
    PrintableConcat(JSON_HEAD, Escape(e.text));
    PrintableConcat(JSON_HEAD + Escape(e.text), "\"");
    PrintableConcat(JSON_HEAD + Escape(e.text) + "\"", if e.isUser then USER_TAIL else AGENT_TAIL);
  }

  /** The fixed parts of a serialised event are printable. */
  lemma FixedPartsPrintable()
    ensures Printable(JSON_HEAD) && Printable("\"") && Printable(USER_TAIL) && Printable(AGENT_TAIL)
  {
    assert JSON_HEAD == ['{', '"', 'm', 'e', 's', 's', 'a', 'g', 'e', '"', ':', '"'];
    assert USER_TAIL == [',', '"', 'i', 's', 'U', 's', 'e', 'r', '"', ':', 't', 'r', 'u', 'e', '}'];
    assert AGENT_TAIL == [',', '"', 'i', 's', 'U', 's', 'e', 'r', '"', ':', 'f', 'a', 'l', 's', 'e', '}'];
  }

  /** Reading one escaped character in front of more text. */
  lemma ReadEscapedChar(c: char, more: string)
    requires ReadString(more).Some?
    ensures var r := ReadString(EscapeChar(c) + more);
      && r.Some?
      && r.value.text == [c] + ReadString(more).value.text
      && r.value.rest == ReadString(more).value.rest
  {
    var x := EscapeChar(c);
    var s := x + more;
    if |x| == 1 {
      assert s[0] == c && s[1..] == more;
    } else {
      assert s[0] == '\\' && s[1..] == x[1..] + more;
      UnescapeOf(c, more);
    }
  }

  /** The escape of a character that needs one reads back as that character. */
  lemma UnescapeOf(c: char, more: string)
    requires |EscapeChar(c)| > 1
    ensures var u := Unescape(EscapeChar(c)[1..] + more);
      u.Some? && u.value.text == [c] && u.value.rest == more
  {
    var t := EscapeChar(c)[1..] + more;
    if c < ' ' && c != '\U{0008}' && c != '\t' && c != '\n' && c != '\U{000C}' && c != '\r' {
      var hi, lo := c as int / 16, c as int % 16;
      assert EscapeChar(c)[1..] == ['u', '0', '0', HexChar(hi), HexChar(lo)];
      assert t[0] == 'u' && t[1..] == ['0', '0', HexChar(hi), HexChar(lo)] + more;
      HexRoundTrip(hi);
      HexRoundTrip(lo);
      assert (['0', '0', HexChar(hi), HexChar(lo)] + more)[4..] == more;
    } else {
      assert t[1..] == more;
    }
  }

  /** Reading back a written hex digit. */
  lemma HexRoundTrip(v: nat)
    requires v < 16
    ensures HexValue(HexChar(v)) == v
  {
  }

  /** Reading an escaped string and its closing quote gives the string back, and stops right after the quote. */
  lemma {:induction false} ReadEscaped(t: string, rest: string)
    ensures var r := ReadString(Escape(t) + "\"" + rest);
      r.Some? && r.value.text == t && r.value.rest == rest
    decreases |t|
  {
    if t == [] {
      assert Escape(t) + "\"" + rest == ['"'] + rest;
    } else {
      var more := Escape(t[1..]) + "\"" + rest;
      ReadEscaped(t[1..], rest);
      ReadEscapedChar(t[0], more);
      assert Escape(t) + "\"" + rest == EscapeChar(t[0]) + more;
      assert [t[0]] + t[1..] == t;
    }
  }

  /** `JSON.parse(JSON.stringify({ message, isUser }))` gives the event back. */
  lemma DecodeJsonOfJson(e: Event)
    ensures DecodeJson(Json(e)).Some? && DecodeJson(Json(e)).value == e
  {
    var tail := if e.isUser then USER_TAIL else AGENT_TAIL;
    var m := Escape(e.text) + "\"" + tail;
    ReadEscaped(e.text, tail);
    assert Json(e) == JSON_HEAD + m;
    assert Json(e)[..|JSON_HEAD|] == JSON_HEAD && Json(e)[|JSON_HEAD|..] == m;
    assert USER_TAIL != AGENT_TAIL by { assert USER_TAIL[11] != AGENT_TAIL[11]; }
  }

  /** A frame is its event's line, then the blank line, then whatever comes after. */
  lemma FrameLine(e: Event, more: string)
    ensures var body := (Frame(e) + more)[6..];
      && (Frame(e) + more)[..6] == "data: "
      && RunEnd(body, 0, NotLineFeed) == |Json(e)|
      && body[..|Json(e)|] == Json(e)
      && body[|Json(e)| + 1] == '\n'
      && body[|Json(e)| + 2..] == more
  {
    var j := Json(e);
    var body := j + "\n\n" + more;
    assert Frame(e) + more == "data: " + body;
    JsonIsOneLine(e);
    assert AllIn(j, NotLineFeed);
    assert At(body, 0, j) by { assert body[..|j|] == j; }
    assert body[|j|] == '\n';
    RunEndOf(body, 0, j, NotLineFeed);
    assert body[|j| + 2..] == more;
  }

  /** Reading the frames of a sequence of events gives the sequence back. */
  lemma {:induction false} DecodeFramesOfFrames(es: seq<Event>)
    ensures DecodeFrames(Frames(es)).Some? && DecodeFrames(Frames(es)).value == es
    decreases |es|
  {
    if es != [] {
      var more := Frames(es[1..]);
      DecodeFramesOfFrames(es[1..]);
      DecodeFrame(es[0], more);
      assert Frames(es) == Frame(es[0]) + more;
      assert [es[0]] + es[1..] == es;
    }
  }

  /** Reading one frame ahead of readable text gives its event ahead of the text's events. */
  lemma DecodeFrame(e: Event, more: string)
    requires DecodeFrames(more).Some?
    ensures DecodeFrames(Frame(e) + more) == Some([e] + DecodeFrames(more).value)
  {
    FrameLine(e, more);
    DecodeJsonOfJson(e);
  }

  /** The frames of two sequences of events, one after the other. */
  lemma {:induction false} FramesAppend(a: seq<Event>, b: seq<Event>)
    ensures Frames(a + b) == Frames(a) + Frames(b)
    decreases |a|
  {
    if a == [] {
      assert a + b == b;
    } else {
      assert (a + b)[0] == a[0] && (a + b)[1..] == a[1..] + b;
      FramesAppend(a[1..], b);
    }
  }
}
