/** UTF-8 (RFC 3629), as strings are hashed and percent-encoded. */
module Utf8 {
  import opened Wrappers

  type byte = x: int | 0 <= x < 256

  function EncodeChar(c: char): seq<byte> {
    var x := c as int;
    if x < 0x80 then [x]
    else if x < 0x800 then [0xC0 + x / 0x40, 0x80 + x % 0x40]
    else if x < 0x1_0000 then [0xE0 + x / 0x1000, 0x80 + x / 0x40 % 0x40, 0x80 + x % 0x40]
    else [0xF0 + x / 0x4_0000, 0x80 + x / 0x1000 % 0x40, 0x80 + x / 0x40 % 0x40, 0x80 + x % 0x40]
  }

  function Encode(s: string): seq<byte> {
    if s == [] then [] else EncodeChar(s[0]) + Encode(s[1..])
  }

  predicate IsScalar(x: int) {
    0 <= x < 0xD800 || 0xE000 <= x < 0x11_0000
  }

  predicate Tail(bytes: seq<byte>, i: nat) {
    i < |bytes| && 0x80 <= bytes[i] < 0xC0
  }

  /** The first character of a byte string and how many bytes it takes; `None` for a bad
      lead byte, a missing tail byte, an overlong form, a surrogate or a value out of range. */
  function DecodeChar(bytes: seq<byte>): (r: Option<(char, nat)>)
    requires bytes != []
    ensures r.Some? ==> 0 < r.value.1 <= |bytes|
  {
    var b: int := bytes[0];
    if b < 0x80 then Some((b as char, 1))
    else if 0xC0 <= b < 0xE0 && Tail(bytes, 1) then
      var x: int := (b - 0xC0) * 0x40 + (bytes[1] as int - 0x80);
      if x >= 0x80 then Some((x as char, 2)) else None
    else if 0xE0 <= b < 0xF0 && Tail(bytes, 1) && Tail(bytes, 2) then
      var x: int := (b - 0xE0) * 0x1000 + (bytes[1] as int - 0x80) * 0x40 + (bytes[2] as int - 0x80);
      if x >= 0x800 && IsScalar(x) then Some((x as char, 3)) else None
    else if 0xF0 <= b < 0xF8 && Tail(bytes, 1) && Tail(bytes, 2) && Tail(bytes, 3) then
      var x: int := (b - 0xF0) * 0x4_0000 + (bytes[1] as int - 0x80) * 0x1000 + (bytes[2] as int - 0x80) * 0x40
        + (bytes[3] as int - 0x80);
      if x >= 0x1_0000 && IsScalar(x) then Some((x as char, 4)) else None
    else None
  }

  function Decode(bytes: seq<byte>): Option<string> {
    if bytes == [] then Some("")
    else match DecodeChar(bytes)
      case None => None
      case Some((c, n)) =>
        match Decode(bytes[n..])
        case None => None
        case Some(s) => Some([c] + s)
  }

  lemma CharRoundTrip(c: char, rest: seq<byte>)
    ensures EncodeChar(c) != []
    ensures DecodeChar(EncodeChar(c) + rest) == Some((c, |EncodeChar(c)|))
    ensures (EncodeChar(c) + rest)[|EncodeChar(c)|..] == rest
  {
    var x := c as int;
    var bytes := EncodeChar(c) + rest;
    assert IsScalar(x);
    if x < 0x80 {
    } else if x < 0x800 {
      assert Tail(bytes, 1);
    } else if x < 0x1_0000 {
      assert Tail(bytes, 1) && Tail(bytes, 2);
      assert x / 0x40 == x / 0x1000 * 0x40 + x / 0x40 % 0x40;
    } else {
      assert Tail(bytes, 1) && Tail(bytes, 2) && Tail(bytes, 3);
      assert x / 0x40 == x / 0x1000 * 0x40 + x / 0x40 % 0x40;
      assert x / 0x1000 == x / 0x4_0000 * 0x40 + x / 0x1000 % 0x40;
    }
  }

  lemma {:induction false} RoundTrip(s: string)
    ensures Decode(Encode(s)) == Some(s)
  {
    if s != [] {
      CharRoundTrip(s[0], Encode(s[1..]));
      RoundTrip(s[1..]);
      assert s == [s[0]] + s[1..];
    }
  }

  /** Different strings have different bytes. */
  lemma Injective(s: string, t: string)
    requires Encode(s) == Encode(t)
    ensures s == t
  {
    RoundTrip(s);
    RoundTrip(t);
  }

  lemma {:induction false} EncodeConcat(s: string, t: string)
    ensures Encode(s + t) == Encode(s) + Encode(t)
  {
    hide EncodeChar;
    if s == [] {
      assert s + t == t;
    } else {
      EncodeConcat(s[1..], t);
      assert (s + t)[1..] == s[1..] + t;
    }
  }
}
