/**
 * The Slack webhook payload (`src/webhook/slack.rs`): a JSON object with a
 * single `"text"` member, serialised the way `serde_json` writes strings,
 * together with a decoder for JSON text following section 7 of RFC 8259
 * that it is proved against.
 */
module Slack {
  import opened Wrappers
  import opened Text

  /** The message text: a bold title line first when a title is given. */
  function Content(text: string, title: Option<string>): string {
    match title
    case Some(t) => "*" + t + "*\n" + text
    case None => text
  }

  /** Lower-case hexadecimal digit, as `serde_json` writes `\u00XX`. */
  function HexDigit(d: nat): (c: char)
    requires d < 16
  {
    if d < 10 then ('0' as int + d) as char else ('a' as int + d - 10) as char
  }

  /** How `serde_json` writes one character inside a string literal. */
  function EscapeChar(c: char): (e: string)
    ensures e != [] && e[0] != '"'
  {
    if c == '"' then "\\\""
    else if c == '\\' then "\\\\"
    else if c == '\U{8}' then "\\b"
    else if c == '\U{C}' then "\\f"
    else if c == '\n' then "\\n"
    else if c == '\r' then "\\r"
    else if c == '\t' then "\\t"
    else if (c as int) < 0x20 then "\\u00" + [HexDigit(c as int / 16), HexDigit(c as int % 16)]
    else [c]
  }

  /** The body of a JSON string literal for `s`. */
  function Escape(s: string): (e: string)
    ensures |s| <= |e|
  {
    if s == [] then [] else EscapeChar(s[0]) + Escape(s[1..])
  }

  /** A JSON string literal, as `serde_json` writes it. */
  function StringLiteral(s: string): string {
    "\"" + Escape(s) + "\""
  }

  /** A compact JSON object with one member whose value is a string. */
  function SingleMemberObject(name: string, value: string): string {
    "{" + StringLiteral(name) + ":" + StringLiteral(value) + "}"
  }

  /**
   * `build_slack_payload`: `json!({ "text": content }).to_string()`. Read back
   * as JSON it is an object whose only member is `"text"`, holding the content.
   */
  function BuildSlackPayload(text: string, title: Option<string>): (payload: string)
    ensures ParseSingleMemberObject(payload) == Some(("text", Content(text, title)))
  {
    ObjectRoundTrip("text", Content(text, title));
    SingleMemberObject("text", Content(text, title))
  }

  // ---------------------------------------------------------------------
  // Reading JSON text (RFC 8259)

  /** The four insignificant whitespace characters of section 2 of RFC 8259. */
  predicate IsJsonWhitespace(c: char) {
    c == ' ' || c == '\t' || c == '\n' || c == '\r'
  }

  function SkipWhitespace(s: string): (r: string)
    ensures |r| <= |s| && r == s[|s| - |r|..]
    ensures r == [] || !IsJsonWhitespace(r[0])
  {
    if s != [] && IsJsonWhitespace(s[0]) then SkipWhitespace(s[1..]) else s
  }

  function HexValue(c: char): Option<nat> {
    if '0' <= c <= '9' then Some(c as int - '0' as int)
    else if 'a' <= c <= 'f' then Some(c as int - 'a' as int + 10)
    else if 'A' <= c <= 'F' then Some(c as int - 'A' as int + 10)
    else None
  }

  /** The value of four hexadecimal digits. */
  function Hex4(s: string): (r: Option<nat>)
    requires |s| == 4
    ensures r.Some? ==> r.value < 0x1_0000
  {
    match (HexValue(s[0]), HexValue(s[1]), HexValue(s[2]), HexValue(s[3]))
    case (Some(a), Some(b), Some(c), Some(d)) =>
      if a < 16 && b < 16 && c < 16 && d < 16 then Some(((a * 16 + b) * 16 + c) * 16 + d) else None
    case _ => None
  }

  /**
   * One `char` of a string literal (section 7 of RFC 8259): an unescaped character, or
   * an escape sequence. Gives the character and the text after it.
   */
  function DecodeOne(s: string): (r: Option<(char, string)>)
    ensures r.Some? ==> |r.value.1| < |s|
  {
    if s == [] || s[0] == '"' then None
    else if s[0] == '\\' then DecodeEscape(s[1..])
    else if (s[0] as int) < 0x20 then None
    else Some((s[0], s[1..]))
  }

  /** The escape sequence after a backslash. */
  function DecodeEscape(s: string): (r: Option<(char, string)>)
    ensures r.Some? ==> |r.value.1| < |s|
  {
    if s == [] then None
    else if s[0] == '"' then Some(('"', s[1..]))
    else if s[0] == '\\' then Some(('\\', s[1..]))
    else if s[0] == '/' then Some(('/', s[1..]))
    else if s[0] == 'b' then Some(('\U{8}', s[1..]))
    else if s[0] == 'f' then Some(('\U{C}', s[1..]))
    else if s[0] == 'n' then Some(('\n', s[1..]))
    else if s[0] == 'r' then Some(('\r', s[1..]))
    else if s[0] == 't' then Some(('\t', s[1..]))
    else if s[0] == 'u' then DecodeUnicode(s[1..])
    else None
  }

  /**
   * The four hexadecimal digits after `\u`; a high surrogate must be
   * followed by an escaped low surrogate and the pair is one character, and
   * a lone surrogate is rejected.
   */
  function DecodeUnicode(s: string): (r: Option<(char, string)>)
    ensures r.Some? ==> |r.value.1| < |s|
  {
    if |s| < 4 then None
    else
      match Hex4(s[..4])
      case None => None
      case Some(v) =>
        if v < 0xD800 || 0xE000 <= v then Some((v as char, s[4..]))
        else if 0xDC00 <= v || |s| < 10 || s[4] != '\\' || s[5] != 'u' then None
        else
          match Hex4(s[6..10])
          case None => None
          case Some(w) =>
            if 0xDC00 <= w < 0xE000 then
              Some(((0x1_0000 + (v - 0xD800) * 0x400 + (w - 0xDC00)) as char, s[10..]))
            else None
  }

  /**
   * A string literal whose opening quote has been read: its value and the
   * text after the closing quote.
   */
  function DecodeString(s: string): (r: Option<(string, string)>)
    ensures r.Some? ==> |r.value.1| < |s|
    decreases |s|
  {
    if s == [] then None
    else if s[0] == '"' then Some(([], s[1..]))
    else
      match DecodeOne(s)
      case None => None
      case Some((c, rest)) =>
        match DecodeString(rest)
        case None => None
        case Some((v, after)) => Some(([c] + v, after))
  }

  /** Skip whitespace and read the structural character `c`; the text after it. */
  function Expect(s: string, c: char): (r: Option<string>)
    ensures r.Some? ==> |r.value| < |s|
  {
    var t := SkipWhitespace(s);
    if t != [] && t[0] == c then Some(t[1..]) else None
  }

  /**
   * JSON text consisting of one object with exactly one member whose value
   * is a string: that member's name and value; `None` for any other text.
   */
  function ParseSingleMemberObject(s: string): Option<(string, string)> {
    match Expect(s, '{')
    case None => None
    case Some(a) =>
      match Expect(a, '"')
      case None => None
      case Some(b) => ParseMember(b)
  }

  /** `<name>": <string> }`, after the opening quote of the name. */
  function ParseMember(b: string): Option<(string, string)> {
    match DecodeString(b)
    case None => None
    case Some((name, afterName)) =>
      match Expect(afterName, ':')
      case None => None
      case Some(c) =>
        match Expect(c, '"')
        case None => None
        case Some(d) =>
          match ParseValueEnd(d)
          case None => None
          case Some(value) => Some((name, value))
  }

  /** The member's string value, after its opening quote, and the closing brace. */
  function ParseValueEnd(d: string): Option<string> {
    match DecodeString(d)
    case None => None
    case Some((value, afterValue)) =>
      match Expect(afterValue, '}')
      case None => None
      case Some(e) => if SkipWhitespace(e) == [] then Some(value) else None
  }

  // ---------------------------------------------------------------------
  // The serialised form reads back

  lemma HexDigitValue(d: nat)
    requires d < 16
    ensures HexValue(HexDigit(d)) == Some(d)
  {
  }

  /** An escaped character decodes to itself. */
  lemma DecodeEscapeChar(c: char, rest: string)
    ensures DecodeOne(EscapeChar(c) + rest) == Some((c, rest))
  {
    var e := EscapeChar(c);
    var s := e + rest;
    if c == '"' || c == '\\' || c == '\U{8}' || c == '\U{C}' || c == '\n' || c == '\r' || c == '\t' {
      assert s[0] == '\\' && s[1..] == [e[1]] + rest;
    } else if (c as int) < 0x20 {
      var hi := c as int / 16;
      var lo := c as int % 16;
      HexDigitValue(hi);
      HexDigitValue(lo);
      var u := ['0', '0', HexDigit(hi), HexDigit(lo)] + rest;
      assert s[0] == '\\' && s[1..] == ['u'] + u;
      assert u[..4] == ['0', '0', HexDigit(hi), HexDigit(lo)];
      assert Hex4(u[..4]) == Some(c as int);
      assert u[4..] == rest;
    } else {
      assert s[0] == c && s[1..] == rest;
    }
  }

  /** The escaped form of a string, closed by a quote, decodes to the string. */
  lemma {:induction false} DecodeEscaped(t: string, rest: string)
    ensures DecodeString(Escape(t) + "\"" + rest) == Some((t, rest))
  {
    if t == [] {
      assert Escape(t) + "\"" + rest == "\"" + rest;
      assert ("\"" + rest)[1..] == rest;
    } else {
      var tail := Escape(t[1..]) + "\"" + rest;
      assert Escape(t) + "\"" + rest == EscapeChar(t[0]) + tail;
      DecodeEscapeChar(t[0], tail);
      DecodeEscaped(t[1..], rest);
      assert [t[0]] + t[1..] == t;
    }
  }

  lemma ExpectNext(c: char, rest: string)
    requires !IsJsonWhitespace(c)
    ensures Expect([c] + rest, c) == Some(rest)
  {
    assert ([c] + rest)[1..] == rest;
  }

  lemma ValueEndOf(d: string, value: string)
    requires DecodeString(d) == Some((value, "}"))
    ensures ParseValueEnd(d) == Some(value)
  {
    ExpectNext('}', []);
    assert "}" == ['}'] + [];
  }

  lemma MemberOf(b: string, name: string, d: string, value: string)
    requires DecodeString(b) == Some((name, ":" + ("\"" + d)))
    requires ParseValueEnd(d) == Some(value)
    ensures ParseMember(b) == Some((name, value))
  {
    ExpectNext(':', "\"" + d);
    ExpectNext('"', d);
  }

  lemma ObjectOf(s: string, b: string, name: string, value: string)
    requires s == "{" + ("\"" + b)
    requires ParseMember(b) == Some((name, value))
    ensures ParseSingleMemberObject(s) == Some((name, value))
  {
    ExpectNext('{', "\"" + b);
    ExpectNext('"', b);
  }

  /** The text after `{"` of a single-member object, and what it reads back as. */
  lemma MemberRoundTrip(name: string, value: string) returns (b: string)
    ensures SingleMemberObject(name, value) == "{" + ("\"" + b)
    ensures ParseMember(b) == Some((name, value))
  {
    var d := Escape(value) + "\"" + "}";
    b := Escape(name) + "\"" + (":" + ("\"" + d));
    DecodeEscaped(value, "}");
    ValueEndOf(d, value);
    DecodeEscaped(name, ":" + ("\"" + d));
    MemberOf(b, name, d, value);
    ObjectShape(name, value);
  }

  lemma ObjectShape(name: string, value: string)
    ensures SingleMemberObject(name, value)
         == "{" + ("\"" + (Escape(name) + "\"" + (":" + ("\"" + (Escape(value) + "\"" + "}")))))
  {
  }

  /** A single-member object, as written, reads back as its member. */
  lemma ObjectRoundTrip(name: string, value: string)
    ensures ParseSingleMemberObject(SingleMemberObject(name, value)) == Some((name, value))
  {
    var b := MemberRoundTrip(name, value);
    ObjectOf(SingleMemberObject(name, value), b, name, value);
  }

  /** With a title the text is the bold title, a newline, then the message. */
  lemma PayloadWithTitle(text: string, title: string)
    ensures ParseSingleMemberObject(BuildSlackPayload(text, Some(title))) == Some(("text", "*" + title + "*\n" + text))
  {
  }

  /** Without a title the text is exactly the message. */
  lemma PayloadWithoutTitle(text: string)
    ensures ParseSingleMemberObject(BuildSlackPayload(text, None)) == Some(("text", text))
  {
  }
}
