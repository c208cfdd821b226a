/**
  The error envelope `{"status": "failed", "status_code": N, "error": msg}`
  that every reported failure carries, and its text form. The pipeline raises
  `Exception(json.dumps(envelope))`, so the text of a failure is the envelope
  as `json.dumps` writes it with its defaults: `", "` and `": "` separators,
  keys in insertion order, and `ensure_ascii`, which escapes every character
  outside printable ASCII as `\uXXXX` in lower-case hex (a surrogate pair above
  U+FFFF). `ParseEnvelope` reads that text back.
 */
module ErrorEnvelope {
  import opened Outcomes
  import opened PyJson
  import opened PyText

  /** The two status codes the pipeline ever puts in an envelope. */
  datatype StatusCode = BadRequest | InternalServerError {
    function Code(): nat {
      match this
      case BadRequest => 400
      case InternalServerError => 500
    }

    function Digits(): string {
      match this
      case BadRequest => "400"
      case InternalServerError => "500"
    }
  }

  /** The envelope; its `status` entry is always "failed". */
  datatype Envelope = Envelope(statusCode: StatusCode, error: string)

  /** An exception leaving a pipeline stage: an envelope raised as text, a
      Python error raised by an operator, or an exception from a collaborator
      (the model service, the decoder) known only by its text `str(e)`. */
  datatype Exc =
    | Raised(env: Envelope)
    | PyFault(err: PyError)
    | Foreign(message: string)

  /** `str(e)` of the exception: a raised envelope's text reads back as the
      envelope, and a collaborator's exception keeps its own text. */
  function Str(e: Exc): (r: string)
    ensures e.Raised? ==> ParseEnvelope(r) == Some(e.env)
    ensures e.Foreign? ==> r == e.message
  {
    match e
    case Raised(env) => DumpsRoundTrip(env); Dumps(env)
    case PyFault(err) => err.Message()
    case Foreign(m) => m
  }

  predicate Printable(c: char) {
    ' ' <= c <= '~'
  }

  function Pow16(k: nat): (r: nat)
    ensures r >= 1
  {
    if k == 0 then 1 else 16 * Pow16(k - 1)
  }

  function HexDigit(d: nat): (c: char)
    requires d < 16
    ensures Printable(c)
  {
    if d < 10 then ('0' as int + d) as char else ('a' as int + d - 10) as char
  }

  function HexValue(c: char): Option<nat> {
    if '0' <= c <= '9' then Some(c as nat - '0' as nat)
    else if 'a' <= c <= 'f' then Some(c as nat - 'a' as nat + 10)
    else if 'A' <= c <= 'F' then Some(c as nat - 'A' as nat + 10)
    else None
  }

  /** `n` as `k` lower-case hex digits, most significant first. */
  function Hex(n: nat, k: nat): (r: string)
    requires n < Pow16(k)
    ensures |r| == k && forall i :: 0 <= i < k ==> Printable(r[i])
  {
    if k == 0 then []
    else Hex(n / 16, k - 1) + [HexDigit(n % 16)]
  }

  /** The number a string of hex digits denotes. */
  function ParseHex(t: string): (r: Option<nat>)
    ensures r.Some? ==> r.value < Pow16(|t|)
  {
    if t == [] then Some(0)
    else
      var high :- ParseHex(t[..|t| - 1]);
      var low :- HexValue(t[|t| - 1]);
      if low < 16 then Some(16 * high + low) else None
  }

  lemma {:induction false} HexRoundTrip(n: nat, k: nat)
    requires n < Pow16(k)
    ensures ParseHex(Hex(n, k)) == Some(n)
  {
    if k > 0 {
      var q, d := n / 16, n % 16;
      assert n == 16 * q + d;
      assert q < Pow16(k - 1);
      HexRoundTrip(q, k - 1);
      var h := Hex(n, k);
      assert h[..k - 1] == Hex(q, k - 1);
      assert h[k - 1] == HexDigit(d);
      assert HexValue(HexDigit(d)) == Some(d);
    }
  }

  /** How `json.dumps` writes one character of a string (ensure_ascii). */
  function EscapeChar(c: char): (r: string)
    ensures forall i :: 0 <= i < |r| ==> Printable(r[i])
  {
    if c == '"' then "\\\""
    else if c == '\\' then "\\\\"
    else if c == '\n' then "\\n"
    else if c == '\r' then "\\r"
    else if c == '\t' then "\\t"
    else if c == '\U{8}' then "\\b"
    else if c == '\U{c}' then "\\f"
    else if Printable(c) then [c]
    else if c as int < 0x10000 then "\\u" + Hex(c as int, 4)
    else
      var v := c as int - 0x10000;
      "\\u" + Hex(0xD800 + v / 0x400, 4) + "\\u" + Hex(0xDC00 + v % 0x400, 4)
  }

  function Escape(s: string): (r: string)
    ensures forall i :: 0 <= i < |r| ==> Printable(r[i])
  {
    if s == [] then [] else EscapeChar(s[0]) + Escape(s[1..])
  }

  /** `json.dumps` of a Python string. */
  function Quote(s: string): string {
    "\"" + Escape(s) + "\""
  }

  const Head: string := "{\"status\": \"failed\", \"status_code\": "
  const ErrorKey: string := ", \"error\": "

  /** `json.dumps({"status": "failed", "status_code": N, "error": msg})`.
      The text is printable ASCII whatever the message holds. */
  function Dumps(e: Envelope): (r: string)
    ensures forall i :: 0 <= i < |r| ==> Printable(r[i])
  {
    Head + e.statusCode.Digits() + ErrorKey + Quote(e.error) + "}"
  }

  function Prepend(c: char, o: Option<(string, string)>): Option<(string, string)> {
    match o
    case None => None
    case Some((d, rest)) => Some(([c] + d, rest))
  }

  function SimpleEscape(e: char): Option<char> {
    if e == '"' then Some('"')
    else if e == '\\' then Some('\\')
    else if e == '/' then Some('/')
    else if e == 'b' then Some('\U{8}')
    else if e == 'f' then Some('\U{c}')
    else if e == 'n' then Some('\n')
    else if e == 'r' then Some('\r')
    else if e == 't' then Some('\t')
    else None
  }

  /** Reads the body of a JSON string up to its closing quote: the decoded
      characters and the text after the quote. */
  function DecodeBody(t: string): Option<(string, string)>
    decreases |t|
  {
    if t == [] then None
    else if t[0] == '"' then Some(([], t[1..]))
    else if t[0] != '\\' then Prepend(t[0], DecodeBody(t[1..]))
    else if |t| < 2 then None
    else if t[1] != 'u' then
      var c :- SimpleEscape(t[1]);
      Prepend(c, DecodeBody(t[2..]))
    else if |t| < 6 then None
    else
      var h :- ParseHex(t[2..6]);
      assert Pow16(4) == 0x10000;
      if 0xD800 <= h < 0xDC00 then
        if |t| < 12 || t[6..8] != "\\u" then None
        else
          var l :- ParseHex(t[8..12]);
          if 0xDC00 <= l < 0xE000 then
            Prepend((0x10000 + (h - 0xD800) * 0x400 + (l - 0xDC00)) as char, DecodeBody(t[12..]))
          else None
      else if 0xDC00 <= h < 0xE000 then None
      else Prepend(h as char, DecodeBody(t[6..]))
  }

  function ParseStatus(t: string): Option<(StatusCode, string)> {
    if "400" <= t then Some((BadRequest, t[3..]))
    else if "500" <= t then Some((InternalServerError, t[3..]))
    else None
  }

  /** Reads the text `Dumps` writes back into the envelope. */
  function ParseEnvelope(t: string): Option<Envelope> {
    var a :- AfterPrefix(t, Head);
    var status :- ParseStatus(a);
    var b :- AfterPrefix(status.1, ErrorKey + "\"");
    var body :- DecodeBody(b);
    if body.1 == "}" then Some(Envelope(status.0, body.0)) else None
  }

  /** Decoding undoes the escaping of one character. */
  lemma DecodeEscapeChar(c: char, x: string)
    ensures DecodeBody(EscapeChar(c) + x) == Prepend(c, DecodeBody(x))
  {
    if c == '"' || c == '\\' || c == '\n' || c == '\r' || c == '\t' || c == '\U{8}' || c == '\U{c}' {
      DecodeShortEscape(c, x);
    } else if Printable(c) {
      var t := EscapeChar(c) + x;
      assert t[0] == c && t[1..] == x;
    } else if c as int < 0x10000 {
      DecodeUnicodeEscape(c, x);
    } else {
      DecodeSurrogatePair(c, x);
    }
  }

  lemma DecodeShortEscape(c: char, x: string)
    requires c == '"' || c == '\\' || c == '\n' || c == '\r' || c == '\t' || c == '\U{8}' || c == '\U{c}'
    ensures DecodeBody(EscapeChar(c) + x) == Prepend(c, DecodeBody(x))
  {
    var t := EscapeChar(c) + x;
    assert t[0] == '\\' && t[2..] == x;
  }

  lemma DecodeUnicodeEscape(c: char, x: string)
    requires !Printable(c) && c as int < 0x10000
    requires !(c == '"' || c == '\\' || c == '\n' || c == '\r' || c == '\t' || c == '\U{8}' || c == '\U{c}')
    ensures DecodeBody(EscapeChar(c) + x) == Prepend(c, DecodeBody(x))
  {
    var t := EscapeChar(c) + x;
    HexRoundTrip(c as int, 4);
    assert t[0] == '\\' && t[1] == 'u';
    assert t[2..6] == Hex(c as int, 4);
    assert t[6..] == x;
  }

  lemma DecodeSurrogatePair(c: char, x: string)
    requires c as int >= 0x10000
    ensures DecodeBody(EscapeChar(c) + x) == Prepend(c, DecodeBody(x))
  {
    var t := EscapeChar(c) + x;
    var v := c as int - 0x10000;
    var h := 0xD800 + v / 0x400;
    var l := 0xDC00 + v % 0x400;
    HexRoundTrip(h, 4);
    HexRoundTrip(l, 4);
    assert t[0] == '\\' && t[1] == 'u';
    assert t[2..6] == Hex(h, 4);
    assert t[6..8] == "\\u";
    assert t[8..12] == Hex(l, 4);
    assert t[12..] == x;
    assert 0x10000 + (h - 0xD800) * 0x400 + (l - 0xDC00) == c as int;
  }

  /** Decoding the escaped string followed by the closing quote gives the
      string back, and what follows the quote. */
  lemma {:induction false} DecodeEscape(s: string, rest: string)
    ensures DecodeBody(Escape(s) + "\"" + rest) == Some((s, rest))
  {
    if s == [] {
      assert Escape(s) + "\"" + rest == "\"" + rest;
    } else {
      DecodeEscape(s[1..], rest);
      assert Escape(s) + "\"" + rest == EscapeChar(s[0]) + (Escape(s[1..]) + "\"" + rest);
      DecodeEscapeChar(s[0], Escape(s[1..]) + "\"" + rest);
      assert [s[0]] + s[1..] == s;
    }
  }

  /** The envelope text determines the envelope: status code and message
      are both recovered from it. */
  lemma DumpsRoundTrip(e: Envelope)
    ensures ParseEnvelope(Dumps(e)) == Some(e)
  {
    var digits := e.statusCode.Digits();
    var tail := Escape(e.error) + "\"" + "}";
    var t := Dumps(e);
    assert t == Head + (digits + (ErrorKey + "\"" + tail));
    assert AfterPrefix(t, Head) == Some(digits + (ErrorKey + "\"" + tail));
    var after := ErrorKey + "\"" + tail;
    assert (digits + after)[..3] == digits && (digits + after)[3..] == after;
    assert (digits + after)[0] == digits[0];
    assert ParseStatus(digits + after) == Some((e.statusCode, after));
    assert AfterPrefix(ErrorKey + "\"" + tail, ErrorKey + "\"") == Some(tail);
    DecodeEscape(e.error, "}");
  }
}
