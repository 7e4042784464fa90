/** Percent-encoding: `encodeURIComponent` (section 19.2.6 of ECMA-262) and the
    `application/x-www-form-urlencoded` format (section 5 of the WHATWG URL Standard). */
module Percent {
  import opened Wrappers
  import opened Collections
  import opened Text
  import opened Utf8

  predicate IsAlnum(c: char) {
    'a' <= c <= 'z' || 'A' <= c <= 'Z' || '0' <= c <= '9'
  }

  /** How a text is encoded: as a path component, or as a form field with `+` for a space. */
  datatype Form = Component | Field

  predicate Unreserved(c: char, form: Form) {
    match form
    case Component => IsAlnum(c) || c in "-_.!~*'()"
    case Field => IsAlnum(c) || c in "*-._"
  }

  function Digit(n: int): char
    requires 0 <= n < 16
  {
    "0123456789ABCDEF"[n]
  }

  function Value(c: char): Option<int> {
    if '0' <= c <= '9' then Some(c as int - '0' as int)
    else if 'A' <= c <= 'F' then Some(c as int - 'A' as int + 10)
    else if 'a' <= c <= 'f' then Some(c as int - 'a' as int + 10)
    else None
  }

  /** Which characters stand for themselves. */
  lemma UnreservedAre(c: char, form: Form)
    ensures Unreserved(c, form) <==>
              || c in "ABCDEFGHIJKLMNOPQRSTUVWXYZ" || c in "abcdefghijklmnopqrstuvwxyz" || c in "0123456789"
              || c in if form == Component then "-_.!~*'()" else "*-._"
  {
    UpperAre(c);
    LowerAre(c);
    DigitsAre(c);
  }

  /** Hexadecimal digits are read in either case. */
  lemma ValueIs(c: char)
    ensures Value(c).Some? <==> c in "0123456789ABCDEF" || c in "0123456789abcdef"
    ensures Value(c).Some? ==>
              0 <= Value(c).value < 16
              && ("0123456789ABCDEF"[Value(c).value] == c || "0123456789abcdef"[Value(c).value] == c)
  {
    if 'A' <= c <= 'F' {
      assert "0123456789ABCDEF"[10 + c as int - 'A' as int] == c;
    } else if 'a' <= c <= 'f' {
      assert "0123456789abcdef"[10 + c as int - 'a' as int] == c;
    } else if '0' <= c <= '9' {
      assert "0123456789ABCDEF"[c as int - '0' as int] == c;
    }
  }

  function EscapeOf(b: byte): string {
    ['%', Digit(b / 16), Digit(b % 16)]
  }

  function Percents(bytes: seq<byte>): string {
    if bytes == [] then "" else EscapeOf(bytes[0]) + Percents(bytes[1..])
  }

  function EncodedChar(c: char, form: Form): string {
    if Unreserved(c, form) then [c]
    else if form == Field && c == ' ' then "+"
    else Percents(EncodeChar(c))
  }

  function Encoded(s: string, form: Form): string {
    if s == "" then "" else EncodedChar(s[0], form) + Encoded(s[1..], form)
  }

  /** A `%` and two hexadecimal digits at the start. */
  function Escape(s: string): (r: Option<byte>)
    ensures r.Some? ==> |s| >= 3
  {
    if |s| >= 3 && s[0] == '%' && Value(s[1]).Some? && Value(s[2]).Some? then
      Some(Value(s[1]).value * 16 + Value(s[2]).value)
    else None
  }

  /** The bytes a text stands for; a `%` that escapes nothing stands for itself. */
  function Bytes(s: string, form: Form): seq<byte> {
    if s == "" then []
    else match Escape(s)
      case Some(b) => [b] + Bytes(s[3..], form)
      case None => EncodeChar(if form == Field && s[0] == '+' then ' ' else s[0]) + Bytes(s[1..], form)
  }

  /** Every `%` escapes a byte. */
  predicate WellEscaped(s: string) {
    s == "" || (if s[0] == '%' then Escape(s).Some? && WellEscaped(s[3..]) else WellEscaped(s[1..]))
  }

  /** `decodeURIComponent`; `None` is the URIError it throws. */
  function DecodeComponent(s: string): Option<string> {
    if WellEscaped(s) then Decode(Bytes(s, Component)) else None
  }

  lemma DigitValue(n: int)
    requires 0 <= n < 16
    ensures Value(Digit(n)) == Some(n)
  {
  }

  lemma OneEscape(b: byte, rest: string, form: Form)
    ensures Bytes(EscapeOf(b) + rest, form) == [b] + Bytes(rest, form)
    ensures WellEscaped(EscapeOf(b) + rest) <==> WellEscaped(rest)
  {
    DigitValue(b / 16);
    DigitValue(b % 16);
    var s := EscapeOf(b) + rest;
    assert s[3..] == rest;
  }

  lemma {:induction false} PercentsAre(bytes: seq<byte>, rest: string, form: Form)
    ensures Bytes(Percents(bytes) + rest, form) == bytes + Bytes(rest, form)
    ensures WellEscaped(Percents(bytes) + rest) <==> WellEscaped(rest)
  {
    if bytes == [] {
      assert Percents(bytes) + rest == rest;
    } else {
      hide Bytes, WellEscaped, EscapeOf;
      var b, tail := bytes[0], bytes[1..];
      Assoc(EscapeOf(b), Percents(tail), rest);
      OneEscape(b, Percents(tail) + rest, form);
      PercentsAre(tail, rest, form);
      Assoc([b], tail, Bytes(rest, form));
      assert bytes == [b] + tail;
    }
  }

  lemma EncodedCharIs(c: char, rest: string, form: Form)
    ensures Bytes(EncodedChar(c, form) + rest, form) == EncodeChar(c) + Bytes(rest, form)
    ensures WellEscaped(EncodedChar(c, form) + rest) <==> WellEscaped(rest)
  {
    if Unreserved(c, form) || (form == Field && c == ' ') {
      var s := EncodedChar(c, form) + rest;
      assert s[1..] == rest;
    } else {
      PercentsAre(EncodeChar(c), rest, form);
    }
  }

  /** Encoding gives the bytes of the text back. */
  lemma {:induction false} EncodedIs(s: string, form: Form)
    ensures Bytes(Encoded(s, form), form) == Encode(s) && WellEscaped(Encoded(s, form))
  {
    hide EncodeChar, EncodedChar;
    if s != "" {
      EncodedIs(s[1..], form);
      EncodedCharIs(s[0], Encoded(s[1..], form), form);
    }
  }

  /** `decodeURIComponent(encodeURIComponent(s))` is `s`. */
  lemma ComponentRoundTrip(s: string)
    ensures DecodeComponent(Encoded(s, Component)) == Some(s)
  {
    EncodedIs(s, Component);
    RoundTrip(s);
  }

  /** A character that stands for itself in an encoded text. */
  predicate Plain(c: char) {
    IsAlnum(c) || c in "-_.!~*'()+%"
  }

  lemma {:induction false} PercentsPlain(bytes: seq<byte>)
    ensures forall c | c in Percents(bytes) :: Plain(c)
    ensures bytes != [] ==> Percents(bytes) != ""
  {
    if bytes != [] {
      PercentsPlain(bytes[1..]);
    }
  }

  lemma {:induction false} EncodedPlain(s: string, form: Form)
    ensures forall c | c in Encoded(s, form) :: Plain(c)
    ensures Encoded(s, form) == "" <==> s == ""
  {
    if s != "" {
      EncodedPlain(s[1..], form);
      PercentsPlain(EncodeChar(s[0]));
      assert EncodedChar(s[0], form) != "";
    }
  }
}
