/** The question sent to a decision model: re-spacing and escaping JSON, as `spaced` and the
    `escape` of `prompt` in crates/decision/src/lib.rs do. */
module DecisionPrompt {
  import opened Wrappers
  import opened Collections

  // ── Spacing ──

  datatype Mode = Outside | Inside | Escaped

  function Step(mode: Mode, c: char): Mode {
    match mode
    case Escaped => Inside
    case Inside => if c == '\\' then Escaped else if c == '"' then Outside else Inside
    case Outside => if c == '"' then Inside else Outside
  }

  predicate Spaces(mode: Mode, c: char) {
    mode == Outside && (c == ':' || c == ',')
  }

  /** A space after each `:` and `,` outside strings. */
  function SpacedFrom(mode: Mode, s: string): string
    decreases |s|
  {
    if s == "" then ""
    else [s[0]] + (if Spaces(mode, s[0]) then " " else "") + SpacedFrom(Step(mode, s[0]), s[1..])
  }

  function SpacedText(s: string): string {
    SpacedFrom(Outside, s)
  }

  lemma SpacedStep(mode: Mode, c: char, s: string)
    ensures SpacedFrom(mode, [c] + s) == [c] + (if Spaces(mode, c) then " " else "") + SpacedFrom(Step(mode, c), s)
  {
    assert ([c] + s)[1..] == s;
  }

  method Spaced(compact: string) returns (out: string)
    ensures out == SpacedText(compact)
  {
    hide SpacedFrom;
    out := "";
    var inString, escaped := false, false;
    assert compact[0..] == compact;
    for i := 0 to |compact|
      invariant escaped ==> inString
      invariant out + SpacedFrom(if escaped then Escaped else if inString then Inside else Outside, compact[i..])
                == SpacedText(compact)
    {
      var c := compact[i];
      ghost var mode := if escaped then Escaped else if inString then Inside else Outside;
      ghost var before, rest := out, compact[i + 1..];
      assert compact[i..] == [c] + rest;
      SpacedStep(mode, c, rest);
      out := out + [c];
      if inString {
        if escaped {
          escaped := false;
        } else if c == '\\' {
          escaped := true;
        } else if c == '"' {
          inString := false;
        }
      } else if c == '"' {
        inString := true;
      } else if c == ':' || c == ',' {
        out := out + " ";
      }
      Regroup(before, [c], if Spaces(mode, c) then " " else "", SpacedFrom(Step(mode, c), rest));
      assert out == before + [c] + if Spaces(mode, c) then " " else "";
    }
    assert compact[|compact|..] == "";
    SpacedEnd(if escaped then Escaped else if inString then Inside else Outside);
  }

  lemma Regroup(a: string, b: string, c: string, d: string)
    ensures a + (b + c + d) == a + b + c + d
  {
  }

  lemma SpacedEnd(mode: Mode)
    ensures SpacedFrom(mode, "") == ""
  {
  }

  /** Dropping the character after each `:` and `,` outside strings. */
  function UnspacedFrom(mode: Mode, s: string): string
    decreases |s|
  {
    if s == "" then ""
    else if Spaces(mode, s[0]) then [s[0]] + if |s| == 1 then "" else UnspacedFrom(mode, s[2..])
    else [s[0]] + UnspacedFrom(Step(mode, s[0]), s[1..])
  }

  /** Spacing loses nothing, whatever the text. */
  lemma {:induction false} UnspacedIsCompact(mode: Mode, s: string)
    ensures UnspacedFrom(mode, SpacedFrom(mode, s)) == s
    decreases |s|
  {
    if s != "" {
      var next := Step(mode, s[0]);
      UnspacedIsCompact(next, s[1..]);
      var t := SpacedFrom(mode, s);
      if Spaces(mode, s[0]) {
        assert t[2..] == SpacedFrom(next, s[1..]);
      } else {
        assert t[1..] == SpacedFrom(next, s[1..]);
      }
      assert s == [s[0]] + s[1..];
    }
  }

  // ── Escaping ──

  function EscapeChar(c: char): string {
    if c == '<' then "\\u003c" else if c == '>' then "\\u003e" else [c]
  }

  /** `escape`: the delimiters of a chat template become JSON escapes. */
  function Escape(s: string): string {
    if s == "" then "" else EscapeChar(s[0]) + Escape(s[1..])
  }

  lemma {:induction false} NoDelimiters(s: string)
    ensures '<' !in Escape(s) && '>' !in Escape(s)
  {
    if s != "" {
      NoDelimiters(s[1..]);
    }
  }

  // ── What a JSON text says (RFC 8259) ──

  /** A UTF-16 code unit, as `\u` escapes name them. */
  type Unit = x: int | 0 <= x < 0x1_0000

  /** A structural character, a string by its value, or a number or literal name. */
  datatype Token = Punct(c: char) | Str(value: seq<Unit>) | Word(text: string)

  predicate IsBlank(c: char) {
    c == ' ' || c == '\t' || c == '\n' || c == '\r'
  }

  predicate IsPunct(c: char) {
    c == '{' || c == '}' || c == '[' || c == ']' || c == ':' || c == ','
  }

  predicate IsWordChar(c: char) {
    'a' <= c <= 'z' || 'A' <= c <= 'Z' || '0' <= c <= '9' || c == '+' || c == '-' || c == '.'
  }

  function Units(c: char): seq<Unit> {
    var x := c as int;
    if x < 0x1_0000 then [x] else [0xD800 + (x - 0x1_0000) / 0x400, 0xDC00 + (x - 0x1_0000) % 0x400]
  }

  function Hex(c: char): Option<int> {
    if '0' <= c <= '9' then Some(c as int - '0' as int)
    else if 'a' <= c <= 'f' then Some(c as int - 'a' as int + 10)
    else if 'A' <= c <= 'F' then Some(c as int - 'A' as int + 10)
    else None
  }

  function Hex4(s: string): (r: Option<Unit>)
    requires |s| >= 4
  {
    match (Hex(s[0]), Hex(s[1]), Hex(s[2]), Hex(s[3]))
    case (Some(a), Some(b), Some(c), Some(d)) =>
      HexDigit(s[0]); HexDigit(s[1]); HexDigit(s[2]); HexDigit(s[3]);
      Some(((a * 16 + b) * 16 + c) * 16 + d)
    case _ => None
  }

  lemma HexDigit(c: char)
    ensures Hex(c).Some? ==> 0 <= Hex(c).value < 16
  {
  }

  /** Hexadecimal digits, in either case, four to a unit. */
  lemma HexIs(c: char)
    ensures Hex(c).Some? <==> c in "0123456789ABCDEF" || c in "0123456789abcdef"
    ensures Hex(c).Some? ==>
              0 <= Hex(c).value < 16
              && ("0123456789ABCDEF"[Hex(c).value] == c || "0123456789abcdef"[Hex(c).value] == c)
  {
    if 'A' <= c <= 'F' {
      assert "0123456789ABCDEF"[10 + c as int - 'A' as int] == c;
    } else if 'a' <= c <= 'f' {
      assert "0123456789abcdef"[10 + c as int - 'a' as int] == c;
    } else if '0' <= c <= '9' {
      assert "0123456789ABCDEF"[c as int - '0' as int] == c;
    }
  }

  /** The escapes of one letter, section 7. */
  function Short(c: char): Option<Unit> {
    match c
    case '"' => Some(0x22)
    case '\\' => Some(0x5C)
    case '/' => Some(0x2F)
    case 'b' => Some(0x08)
    case 'f' => Some(0x0C)
    case 'n' => Some(0x0A)
    case 'r' => Some(0x0D)
    case 't' => Some(0x09)
    case _ => None
  }

  /** A string's value and what follows its closing quote; `None` if it is not well formed. */
  function Scan(s: string): (r: Option<(seq<Unit>, string)>)
    ensures r.Some? ==> |r.value.1| < |s|
  {
    if s == "" then None
    else if s[0] == '"' then Some(([], s[1..]))
    else if s[0] == '\\' then
      if |s| >= 2 && Short(s[1]).Some? then After([Short(s[1]).value], Scan(s[2..]))
      else if |s| >= 6 && s[1] == 'u' && Hex4(s[2..]).Some? then After([Hex4(s[2..]).value], Scan(s[6..]))
      else None
    else if s[0] < ' ' then None
    else After(Units(s[0]), Scan(s[1..]))
  }

  function After(units: seq<Unit>, rest: Option<(seq<Unit>, string)>): Option<(seq<Unit>, string)> {
    match rest
    case None => None
    case Some((value, end)) => Some((units + value, end))
  }

  /** The longest number or name at the start. */
  function WordLength(s: string): (n: nat)
    ensures n <= |s| && (s != "" && IsWordChar(s[0]) ==> n > 0)
  {
    if s == "" || !IsWordChar(s[0]) then 0 else 1 + WordLength(s[1..])
  }

  function Then(t: Token, rest: Option<seq<Token>>): Option<seq<Token>> {
    match rest
    case None => None
    case Some(tokens) => Some([t] + tokens)
  }

  /** The tokens of a text; `None` if it has none. */
  function Lex(s: string): Option<seq<Token>>
    decreases |s|
  {
    if s == "" then Some([])
    else if IsBlank(s[0]) then Lex(s[1..])
    else if IsPunct(s[0]) then Then(Punct(s[0]), Lex(s[1..]))
    else if s[0] == '"' then
      match Scan(s[1..])
      case None => None
      case Some((value, rest)) => Then(Str(value), Lex(rest))
    else if IsWordChar(s[0]) then
      var n := WordLength(s);
      Then(Word(s[..n]), Lex(s[n..]))
    else None
  }

  // ── Spacing and escaping keep it ──

  lemma ScanShort(e: char, t: string)
    requires Short(e).Some?
    ensures Scan(['\\', e] + t) == After([Short(e).value], Scan(t))
  {
    assert (['\\', e] + t)[2..] == t;
  }

  lemma ScanHex(h: string, t: string)
    requires |h| == 4 && Hex4(h).Some?
    ensures Scan(['\\', 'u'] + h + t) == After([Hex4(h).value], Scan(t))
  {
    var s := ['\\', 'u'] + h + t;
    assert s[2..][0] == h[0] && s[2..][1] == h[1] && s[2..][2] == h[2] && s[2..][3] == h[3];
    assert s[6..] == t;
  }

  lemma ScanPlain(c: char, t: string)
    requires c != '"' && c != '\\' && c >= ' '
    ensures Scan([c] + t) == After(Units(c), Scan(t))
  {
    assert ([c] + t)[1..] == t;
  }

  lemma ScanQuote(t: string)
    ensures Scan(['"'] + t) == Some(([], t))
  {
    assert (['"'] + t)[1..] == t;
  }

  predicate Keeps(c: char) {
    c != '<' && c != '>'
  }

  lemma {:induction false} EscapeKeeps(a: string, t: string)
    requires forall c | c in a :: Keeps(c)
    ensures Escape(a + t) == a + Escape(t)
  {
    if a == "" {
      assert a + t == t;
    } else {
      hide Escape;
      var rest := a[1..];
      assert a[0] in a && forall c | c in rest :: c in a;
      EscapeKeeps(rest, t);
      EscapeStep(a[0], rest + t);
      Peel(a, t, Escape(t));
    }
  }

  lemma Peel(a: string, t: string, u: string)
    requires a != ""
    ensures a + t == [a[0]] + (a[1..] + t) && a + u == [a[0]] + (a[1..] + u)
  {
  }

  lemma EscapeStep(c: char, t: string)
    ensures Escape([c] + t) == EscapeChar(c) + Escape(t)
  {
    assert ([c] + t)[1..] == t;
  }

  /** A delimiter and its escape have one value. */
  lemma EscapedValue(c: char, t: string)
    requires c == '<' || c == '>'
    ensures Scan(EscapeChar(c) + t) == After(Units(c), Scan(t))
  {
    var h := if c == '<' then "003c" else "003e";
    assert EscapeChar(c) == ['\\', 'u'] + h;
    assert Hex4(h) == Some(c as int);
    ScanHex(h, t);
  }

  /** What the scan of a string does first. */
  datatype Head = Quote | OneChar(c: char) | OneEscape(text: string)

  function HeadOf(s: string): Head
    requires Scan(s).Some?
  {
    if s[0] == '"' then Quote
    else if s[0] != '\\' then OneChar(s[0])
    else if |s| >= 2 && Short(s[1]).Some? then OneEscape(s[..2])
    else OneEscape(s[..6])
  }

  /** The text is an escape for `u`: read as such in front of anything, without delimiters,
      and `spaced` is back inside the string after it. */
  ghost predicate IsEscape(text: string, u: Unit) {
    && |text| >= 2
    && (forall c | c in text :: Keeps(c))
    && (forall t :: Scan(text + t) == After([u], Scan(t)))
    && (forall t :: SpacedFrom(Inside, text + t) == text + SpacedFrom(Inside, t))
  }

  lemma ShortIsEscape(e: char)
    requires Short(e).Some?
    ensures IsEscape(['\\', e], Short(e).value)
  {
    var text := ['\\', e];
    forall t: string
      ensures Scan(text + t) == After([Short(e).value], Scan(t))
      ensures SpacedFrom(Inside, text + t) == text + SpacedFrom(Inside, t)
    {
      ScanShort(e, t);
      SpacedBackslash(e, t);
    }
  }

  lemma HexIsEscape(h: string)
    requires |h| == 4 && Hex4(h).Some?
    ensures IsEscape(['\\', 'u'] + h, Hex4(h).value)
  {
    var text := ['\\', 'u'] + h;
    forall c | c in h ensures Keeps(c) && c != '"' && c != '\\' {
      assert Hex(c).Some?;
    }
    forall t: string
      ensures Scan(text + t) == After([Hex4(h).value], Scan(t))
      ensures SpacedFrom(Inside, text + t) == text + SpacedFrom(Inside, t)
    {
      ScanHex(h, t);
      SpacedBackslash('u', h + t);
      SpacedInside(h, t);
      assert text + t == ['\\', 'u'] + (h + t);
    }
  }

  lemma SpacedBackslash(e: char, t: string)
    ensures SpacedFrom(Inside, ['\\', e] + t) == ['\\', e] + SpacedFrom(Inside, t)
  {
    SpacedStep(Inside, '\\', [e] + t);
    SpacedStep(Escaped, e, t);
    assert ['\\', e] + t == ['\\'] + ([e] + t);
  }

  lemma EscapeHead(s: string) returns (u: Unit)
    requires Scan(s).Some? && HeadOf(s).OneEscape?
    ensures var text := HeadOf(s).text;
            && IsEscape(text, u) && |text| <= |s| && s == text + s[|text|..] && Scan(s[|text|..]).Some?
  {
    var text := HeadOf(s).text;
    assert s == text + s[|text|..];
    if Short(s[1]).Some? {
      assert text == ['\\', s[1]];
      ShortIsEscape(s[1]);
      u := Short(s[1]).value;
    } else {
      var h := s[2..6];
      assert text == ['\\', 'u'] + h;
      assert Hex4(h) == Hex4(s[2..]);
      HexIsEscape(h);
      u := Hex4(h).value;
    }
  }

  lemma {:induction false} SpacedInside(a: string, t: string)
    requires forall c | c in a :: c != '"' && c != '\\'
    ensures SpacedFrom(Inside, a + t) == a + SpacedFrom(Inside, t)
  {
    if a == "" {
      assert a + t == t;
    } else {
      hide SpacedFrom;
      var rest := a[1..];
      assert a[0] in a && forall c | c in rest :: c in a;
      SpacedInside(rest, t);
      SpacedStep(Inside, a[0], rest + t);
      Peel(a, t, SpacedFrom(Inside, t));
    }
  }

  lemma {:induction false} EscapeScan(s: string)
    requires Scan(s).Some?
    ensures Scan(Escape(s)) == Some((Scan(s).value.0, Escape(Scan(s).value.1)))
  {
    match HeadOf(s)
    case Quote =>
      assert s == ['"'] + s[1..];
      EscapeStep('"', s[1..]);
      ScanQuote(s[1..]);
      ScanQuote(Escape(s[1..]));
    case OneChar(c) =>
      assert s == [c] + s[1..];
      EscapeScan(s[1..]);
      EscapeStep(c, s[1..]);
      ScanPlain(c, s[1..]);
      if Keeps(c) {
        ScanPlain(c, Escape(s[1..]));
      } else {
        EscapedValue(c, Escape(s[1..]));
      }
    case OneEscape(text) =>
      var u := EscapeHead(s);
      var rest := s[|text|..];
      EscapeScan(rest);
      EscapeKeeps(text, rest);
      assert Scan(text + rest) == After([u], Scan(rest));
      assert Scan(text + Escape(rest)) == After([u], Scan(Escape(rest)));
  }

  lemma {:induction false} SpacedScan(s: string)
    requires Scan(s).Some?
    ensures Scan(SpacedFrom(Inside, s)) == Some((Scan(s).value.0, SpacedFrom(Outside, Scan(s).value.1)))
  {
    match HeadOf(s)
    case Quote =>
      assert s == ['"'] + s[1..];
      SpacedStep(Inside, '"', s[1..]);
      ScanQuote(s[1..]);
      ScanQuote(SpacedFrom(Outside, s[1..]));
    case OneChar(c) =>
      assert s == [c] + s[1..];
      SpacedScan(s[1..]);
      SpacedStep(Inside, c, s[1..]);
      ScanPlain(c, s[1..]);
      ScanPlain(c, SpacedFrom(Inside, s[1..]));
    case OneEscape(text) =>
      var u := EscapeHead(s);
      var rest := s[|text|..];
      SpacedScan(rest);
      assert Scan(text + rest) == After([u], Scan(rest));
      assert Scan(text + SpacedFrom(Inside, rest)) == After([u], Scan(SpacedFrom(Inside, rest)));
  }

  // ── Outside strings ──

  lemma LexBlank(c: char, t: string)
    requires IsBlank(c)
    ensures Lex([c] + t) == Lex(t)
  {
    assert ([c] + t)[1..] == t;
  }

  lemma LexPunct(c: char, t: string)
    requires IsPunct(c)
    ensures Lex([c] + t) == Then(Punct(c), Lex(t))
  {
    assert ([c] + t)[1..] == t;
  }

  lemma LexString(t: string)
    requires Scan(t).Some?
    ensures Lex(['"'] + t) == Then(Str(Scan(t).value.0), Lex(Scan(t).value.1))
  {
    assert (['"'] + t)[1..] == t;
  }

  predicate EndsWord(t: string) {
    t == "" || !IsWordChar(t[0])
  }

  lemma {:induction false} WordLengthIs(w: string, t: string)
    requires (forall c | c in w :: IsWordChar(c)) && EndsWord(t)
    ensures WordLength(w + t) == |w|
  {
    if w == "" {
      assert w + t == t;
    } else {
      assert (w + t)[1..] == w[1..] + t;
      WordLengthIs(w[1..], t);
    }
  }

  lemma {:induction false} WordLengthSplits(s: string)
    ensures var n := WordLength(s); (forall c | c in s[..n] :: IsWordChar(c)) && EndsWord(s[n..])
  {
    if s != "" && IsWordChar(s[0]) {
      WordLengthSplits(s[1..]);
      var n := WordLength(s[1..]);
      assert s[..n + 1] == [s[0]] + s[1..][..n];
      assert s[n + 1..] == s[1..][n..];
    }
  }

  lemma LexWord(w: string, t: string)
    requires w != "" && (forall c | c in w :: IsWordChar(c)) && EndsWord(t)
    ensures Lex(w + t) == Then(Word(w), Lex(t))
  {
    WordLengthIs(w, t);
    assert (w + t)[0] in w;
    assert (w + t)[..|w|] == w && (w + t)[|w|..] == t;
  }

  lemma {:induction false} SpacedWord(w: string, t: string)
    requires forall c | c in w :: IsWordChar(c)
    ensures SpacedFrom(Outside, w + t) == w + SpacedFrom(Outside, t)
  {
    if w == "" {
      assert w + t == t;
    } else {
      hide SpacedFrom;
      var rest := w[1..];
      assert w[0] in w && forall c | c in rest :: c in w;
      SpacedWord(rest, t);
      SpacedStep(Outside, w[0], rest + t);
      Peel(w, t, SpacedFrom(Outside, t));
    }
  }

  lemma EscapedWord(w: string, t: string)
    requires w != "" && (forall c | c in w :: IsWordChar(c)) && EndsWord(t)
    ensures Lex(Escape(w + t)) == Then(Word(w), Lex(Escape(t)))
  {
    EscapeKeeps(w, t);
    if t != "" {
      Peel(t, "", "");
      EscapeStep(t[0], t[1..]);
    }
    hide Lex;
    LexWord(w, Escape(t));
  }

  lemma SpacedWordToken(w: string, t: string)
    requires w != "" && (forall c | c in w :: IsWordChar(c)) && EndsWord(t)
    ensures Lex(SpacedText(w + t)) == Then(Word(w), Lex(SpacedText(t)))
  {
    SpacedWord(w, t);
    if t != "" {
      Peel(t, "", "");
      SpacedStep(Outside, t[0], t[1..]);
    }
    hide Lex;
    LexWord(w, SpacedText(t));
  }

  /** Escaping changes no token of a text that has tokens. */
  lemma {:induction false} EscapeMeansTheSame(s: string)
    requires Lex(s).Some?
    ensures Lex(Escape(s)) == Lex(s)
    decreases |s|
  {
    if s != "" {
      var c, rest := s[0], s[1..];
      assert s == [c] + rest;
      if IsBlank(c) {
        EscapeStep(c, rest);
        LexBlank(c, Escape(rest));
        EscapeMeansTheSame(rest);
      } else if IsPunct(c) {
        EscapeStep(c, rest);
        LexPunct(c, Escape(rest));
        EscapeMeansTheSame(rest);
      } else if c == '"' {
        EscapeStep(c, rest);
        EscapeScan(rest);
        LexString(Escape(rest));
        EscapeMeansTheSame(Scan(rest).value.1);
      } else {
        WordLengthSplits(s);
        var n := WordLength(s);
        var w, t := s[..n], s[n..];
        assert s == w + t;
        EscapeMeansTheSame(t);
        EscapedWord(w, t);
      }
    }
  }

  lemma SpacedPunct(c: char, t: string)
    requires IsPunct(c)
    ensures Lex(SpacedText([c] + t)) == Then(Punct(c), Lex(SpacedText(t)))
  {
    SpacedStep(Outside, c, t);
    hide Lex, SpacedFrom;
    LexPunct(c, SpacedText(t));
    LexPunct(c, " " + SpacedText(t));
    LexBlank(' ', SpacedText(t));
    assert [c] + " " + SpacedText(t) == [c] + (" " + SpacedText(t));
    assert [c] + "" + SpacedText(t) == [c] + SpacedText(t);
  }

  /** So does spacing. */
  lemma {:induction false} SpacedMeansTheSame(s: string)
    requires Lex(s).Some?
    ensures Lex(SpacedText(s)) == Lex(s)
    decreases |s|
  {
    if s != "" {
      var c, rest := s[0], s[1..];
      assert s == [c] + rest;
      if IsBlank(c) {
        SpacedStep(Outside, c, rest);
        LexBlank(c, SpacedText(rest));
        SpacedMeansTheSame(rest);
      } else if IsPunct(c) {
        SpacedMeansTheSame(rest);
        SpacedPunct(c, rest);
      } else if c == '"' {
        SpacedStep(Outside, c, rest);
        SpacedScan(rest);
        LexString(SpacedFrom(Inside, rest));
        SpacedMeansTheSame(Scan(rest).value.1);
      } else {
        WordLengthSplits(s);
        var n := WordLength(s);
        var w, t := s[..n], s[n..];
        assert s == w + t;
        SpacedMeansTheSame(t);
        SpacedWordToken(w, t);
      }
    }
  }

  // ── Serializing ──

  function HexDigitOf(n: int): char
    requires 0 <= n < 16
  {
    "0123456789abcdef"[n]
  }

  /** A character of a string as the serializer writes it. */
  function WrittenChar(c: char): string {
    match c
    case '"' => ['\\', '"']
    case '\\' => ['\\', '\\']
    case '\n' => ['\\', 'n']
    case '\r' => ['\\', 'r']
    case '\t' => ['\\', 't']
    case _ =>
      if c == '\U{08}' then ['\\', 'b']
      else if c == '\U{0C}' then ['\\', 'f']
      else if c < ' ' then ['\\', 'u', '0', '0', HexDigitOf(c as int / 16), HexDigitOf(c as int % 16)]
      else [c]
  }

  /** The characters that are written otherwise; a control character without a letter of its
      own is written by its number. */
  lemma WrittenIs(c: char)
    ensures WrittenChar('"') == "\\\"" && WrittenChar('\\') == "\\\\"
    ensures WrittenChar('\U{08}') == "\\b" && WrittenChar('\t') == "\\t" && WrittenChar('\n') == "\\n"
    ensures WrittenChar('\U{0C}') == "\\f" && WrittenChar('\r') == "\\r"
    ensures WrittenChar('\U{1F}') == "\\u001f" && WrittenChar('\U{0B}') == "\\u000b"
    ensures c >= ' ' && c != '"' && c != '\\' ==> WrittenChar(c) == [c]
  {
  }

  function WrittenText(s: string): string {
    if s == "" then "" else WrittenChar(s[0]) + WrittenText(s[1..])
  }

  /** A text as UTF-16 code units. */
  function UnitsOf(s: string): seq<Unit> {
    if s == "" then [] else Units(s[0]) + UnitsOf(s[1..])
  }

  lemma WrittenCharScans(c: char, t: string)
    ensures Scan(WrittenChar(c) + t) == After(Units(c), Scan(t))
  {
    var w := WrittenChar(c);
    if c >= ' ' && c != '"' && c != '\\' {
      ScanPlain(c, t);
    } else if c < ' ' && |w| == 6 {
      var h := w[2..];
      HexOf(c as int / 16);
      HexOf(c as int % 16);
      assert Hex4(h) == Some(c as int);
      assert w + t == ['\\', 'u'] + h + t;
      ScanHex(h, t);
    } else {
      ScanShort(w[1], t);
      assert w == ['\\', w[1]];
      assert Short(w[1]) == Some(c as int);
    }
  }

  lemma HexOf(n: int)
    requires 0 <= n < 16
    ensures Hex(HexDigitOf(n)) == Some(n)
  {
  }

  /** A written string is read back, whatever it holds. */
  lemma {:induction false} WrittenScans(s: string, rest: string)
    ensures Scan(WrittenText(s) + (['"'] + rest)) == Some((UnitsOf(s), rest))
  {
    if s == "" {
      assert WrittenText(s) + (['"'] + rest) == ['"'] + rest;
      ScanQuote(rest);
    } else {
      hide Scan, WrittenChar, Units;
      WrittenScans(s[1..], rest);
      var tail := WrittenText(s[1..]) + (['"'] + rest);
      WrittenCharScans(s[0], tail);
      Assoc(WrittenChar(s[0]), WrittenText(s[1..]), ['"'] + rest);
    }
  }

  /** What a compact JSON text is made of: structural characters, strings, other values. */
  datatype Piece = P(c: char) | S(text: string) | W(text: string)

  function PieceText(p: Piece): string {
    match p
    case P(c) => [c]
    case S(text) => ['"'] + WrittenText(text) + ['"']
    case W(text) => text
  }

  function PieceToken(p: Piece): Token {
    match p
    case P(c) => Punct(c)
    case S(text) => Str(UnitsOf(text))
    case W(text) => Word(text)
  }

  function Compact(pieces: seq<Piece>): string {
    if pieces == [] then "" else PieceText(pieces[0]) + Compact(pieces[1..])
  }

  function TokensOf(pieces: seq<Piece>): seq<Token> {
    seq(|pieces|, i requires 0 <= i < |pieces| => PieceToken(pieces[i]))
  }

  /** A word has a structural character after it. */
  predicate PieceOk(pieces: seq<Piece>, i: nat)
    requires i < |pieces|
  {
    match pieces[i]
    case P(c) => IsPunct(c)
    case S(_) => true
    case W(text) =>
      text != "" && (forall c | c in text :: IsWordChar(c)) && i + 1 < |pieces| && pieces[i + 1].P?
      && IsPunct(pieces[i + 1].c)
  }

  predicate WellFormed(pieces: seq<Piece>) {
    forall i | 0 <= i < |pieces| :: PieceOk(pieces, i)
  }

  /** The compact text is read back as its pieces. */
  lemma {:induction false} CompactLexes(pieces: seq<Piece>)
    requires WellFormed(pieces)
    ensures Lex(Compact(pieces)) == Some(TokensOf(pieces))
  {
    if pieces != [] {
      var p, rest := pieces[0], pieces[1..];
      var t := Compact(rest);
      forall i | 0 <= i < |rest| ensures PieceOk(rest, i) {
        assert PieceOk(pieces, i + 1);
      }
      CompactLexes(rest);
      OneLexes(pieces);
      assert TokensOf(pieces) == [PieceToken(p)] + TokensOf(rest);
    }
  }

  lemma OneLexes(pieces: seq<Piece>)
    requires pieces != [] && WellFormed(pieces)
    ensures Lex(Compact(pieces)) == Then(PieceToken(pieces[0]), Lex(Compact(pieces[1..])))
  {
    hide Lex, Scan, WrittenText, Then;
    assert PieceOk(pieces, 0);
    var p, t := pieces[0], Compact(pieces[1..]);
    match p
    case P(c) =>
      LexPunct(c, t);
    case S(text) =>
      Assoc(['"'] + WrittenText(text), ['"'], t);
      Assoc(['"'], WrittenText(text), ['"'] + t);
      WrittenScans(text, t);
      LexString(WrittenText(text) + (['"'] + t));
    case W(text) =>
      assert t == PieceText(pieces[1]) + Compact(pieces[1..][1..]);
      assert t[0] == pieces[1].c;
      LexWord(text, t);
  }

  // ── The prompt ──

  const MAX_CHOICES: nat := 26

  datatype Question = YesNo(instructions: string) | Choice(instructions: string, criteria: seq<(string, string)>)

  /** `value` is an option's name, or nothing for the Booleans of a yes-no question. */
  datatype Offer = Offer(value: Piece, description: string)

  function Offers(q: Question): seq<Offer> {
    match q
    case YesNo(_) => [Offer(W("false"), "No"), Offer(W("true"), "Yes")]
    case Choice(_, criteria) =>
      seq(|criteria|, i requires 0 <= i < |criteria| => Offer(S(criteria[i].0), criteria[i].1))
  }

  function Code(i: nat): string
    requires i < MAX_CHOICES
  {
    ['A' + i as char]
  }

  function OfferPieces(offers: seq<Offer>, n: nat): seq<Piece>
    requires n <= |offers| <= MAX_CHOICES
  {
    if n == 0 then []
    else
      var o := offers[n - 1];
      OfferPieces(offers, n - 1)
      + (if n == 1 then [] else [P(',')])
      + [P('{'), S("code"), P(':'), S(Code(n - 1)), P(','), S("value"), P(':'), o.value, P(','),
         S("description"), P(':'), S(o.description), P('}')]
  }

  /** The schema: the state, already serialized, as a string, and one field with its options. */
  function SchemaPieces(context: string, name: string, q: Question): seq<Piece>
    requires |Offers(q)| <= MAX_CHOICES
  {
    StatePieces(context) + FieldPieces(name, q.instructions)
    + OfferPieces(Offers(q), |Offers(q)|)
    + [P(']'), P('}'), P(']'), P('}')]
  }

  function StatePieces(context: string): seq<Piece> {
    [P('{'), S("context"), P(':'), S(context), P(','), S("schema"), P(':'), P('['), P('{')]
  }

  function FieldPieces(name: string, instructions: string): seq<Piece> {
    [S("name"), P(':'), S(name), P(','), S("description"), P(':'), S(instructions), P(','),
     S("choices"), P(':'), P('[')]
  }

  predicate Askable(q: Question) {
    q.Choice? ==> 2 <= |q.criteria| <= MAX_CHOICES
  }

  const REQUESTED: string := "\n\nRequested field: "

  /** The user message; none when a question has too few or too many options. */
  function Prompt(context: string, name: string, q: Question): Option<string> {
    if !Askable(q) then None
    else Some(Escape(SpacedText(Compact(SchemaPieces(context, name, q)))) + REQUESTED + Escape(Compact([S(name)])))
  }

  lemma {:induction false} OffersWellFormed(offers: seq<Offer>, n: nat)
    requires n <= |offers| <= MAX_CHOICES
    requires forall i | 0 <= i < |offers| :: offers[i].value.S? || offers[i].value in {W("true"), W("false")}
    ensures WellFormed(OfferPieces(offers, n))
  {
    if n > 0 {
      OffersWellFormed(offers, n - 1);
      var before, o := OfferPieces(offers, n - 1), offers[n - 1];
      var comma: seq<Piece> := if n == 1 then [] else [P(',')];
      var last := [P('{'), S("code"), P(':'), S(Code(n - 1)), P(','), S("value"), P(':'), o.value, P(','),
                   S("description"), P(':'), S(o.description), P('}')];
      assert WellFormed(last);
      WellFormedConcat(before, comma);
      WellFormedConcat(before + comma, last);
    }
  }

  lemma WellFormedConcat(a: seq<Piece>, b: seq<Piece>)
    requires WellFormed(a) && WellFormed(b)
    ensures WellFormed(a + b)
  {
    forall i | 0 <= i < |a + b| ensures PieceOk(a + b, i) {
      if i < |a| {
        assert PieceOk(a, i);
      } else {
        assert PieceOk(b, i - |a|);
      }
    }
  }

  lemma SchemaWellFormed(context: string, name: string, q: Question)
    requires Askable(q)
    ensures WellFormed(SchemaPieces(context, name, q))
  {
    var state, field := StatePieces(context), FieldPieces(name, q.instructions);
    var front, back := state + field, [P(']'), P('}'), P(']'), P('}')];
    var offers := Offers(q);
    OffersWellFormed(offers, |offers|);
    assert WellFormed(state) && WellFormed(field) && WellFormed(back);
    hide OfferPieces, StatePieces, FieldPieces;
    WellFormedConcat(state, field);
    WellFormedConcat(front, OfferPieces(offers, |offers|));
    WellFormedConcat(front + OfferPieces(offers, |offers|), back);
  }

  lemma NameLexes(name: string)
    ensures Lex(Compact([S(name)])) == Some([Str(UnitsOf(name))])
  {
    CompactLexes([S(name)]);
    assert TokensOf([S(name)]) == [Str(UnitsOf(name))];
  }

  /** Whatever the state, name and options hold: the model reads exactly the schema's tokens
      and strings, and the name, and no delimiter of its chat template. */
  lemma PromptSaysTheSchema(context: string, name: string, q: Question)
    ensures Prompt(context, name, q).Some? <==> Askable(q)
    ensures Askable(q) ==>
              var said, asked := Escape(SpacedText(Compact(SchemaPieces(context, name, q)))),
                Escape(Compact([S(name)]));
              && Prompt(context, name, q) == Some(said + REQUESTED + asked)
              && Lex(said) == Some(TokensOf(SchemaPieces(context, name, q)))
              && Lex(asked) == Some([Str(UnitsOf(name))])
              && '<' !in said && '>' !in said && '<' !in asked && '>' !in asked
  {
    if Askable(q) {
      var pieces := SchemaPieces(context, name, q);
      var schema, requested := Compact(pieces), Compact([S(name)]);
      SchemaWellFormed(context, name, q);
      CompactLexes(pieces);
      NameLexes(name);
      hide SchemaPieces, Compact, TokensOf, Escape, SpacedText, Lex;
      SpacedMeansTheSame(schema);
      EscapeMeansTheSame(SpacedText(schema));
      EscapeMeansTheSame(requested);
      NoDelimiters(SpacedText(schema));
      NoDelimiters(requested);
    }
  }

  // ── The prompt, written out ──

  predicate IsPlain(c: char) {
    c != '"' && c != '\\'
  }

  /** Characters of a string other than quotes and backslashes are taken over. */
  lemma {:induction false} SpacedPlain(w: string, t: string)
    requires forall c | c in w :: IsPlain(c)
    ensures SpacedFrom(Inside, w + t) == w + SpacedFrom(Inside, t)
  {
    if w == "" {
      assert w + t == t;
    } else {
      var rest := w[1..];
      assert w == [w[0]] + rest && w[0] in w;
      SpacedPlain(rest, t);
      SpacedStep(Inside, w[0], rest + t);
      assert w + t == [w[0]] + (rest + t) && w == [w[0]] + rest;
    }
  }

  lemma TwoFirst(a: char, b: char, t: string)
    ensures [a, b] + t == [a] + ([b] + t)
    ensures [a] + "" + ([b] + "" + t) == [a, b] + t
  {
  }

  lemma SpacedEscape(c: char, w: string, t: string)
    requires forall x | x in w :: IsPlain(x)
    ensures SpacedFrom(Inside, ['\\', c] + w + t) == ['\\', c] + w + SpacedFrom(Inside, t)
  {
    hide SpacedFrom;
    SpacedPlain(w, t);
    SpacedStep(Escaped, c, w + t);
    SpacedStep(Inside, '\\', [c] + (w + t));
    TwoFirst('\\', c, w + t);
    TwoFirst('\\', c, w + SpacedFrom(Inside, t));
    Assoc(['\\', c], w, t);
    Assoc(['\\', c], w, SpacedFrom(Inside, t));
  }

  lemma SpacedInString(c: char, t: string)
    ensures SpacedFrom(Inside, WrittenChar(c) + t) == WrittenChar(c) + SpacedFrom(Inside, t)
  {
    var w := WrittenChar(c);
    hide SpacedFrom;
    if |w| == 1 {
      SpacedPlain(w, t);
    } else {
      SpacedEscape(w[1], w[2..], t);
      assert w == ['\\', w[1]] + w[2..];
    }
  }

  lemma {:induction false} SpacedString(s: string, t: string)
    ensures SpacedFrom(Inside, WrittenText(s) + (['"'] + t)) == WrittenText(s) + (['"'] + SpacedFrom(Outside, t))
  {
    if s == "" {
      SpacedStep(Inside, '"', t);
      assert WrittenText(s) + (['"'] + t) == ['"'] + t;
    } else {
      hide SpacedFrom, WrittenChar;
      var tail := WrittenText(s[1..]) + (['"'] + t);
      SpacedString(s[1..], t);
      SpacedInString(s[0], tail);
      Assoc(WrittenChar(s[0]), WrittenText(s[1..]), ['"'] + t);
      Assoc(WrittenChar(s[0]), WrittenText(s[1..]), ['"'] + SpacedFrom(Outside, t));
    }
  }

  /** A string as it is serialized. */
  function Quoted(s: string): string {
    "\"" + WrittenText(s) + "\""
  }

  /** A piece with a space after each colon and comma. */
  function Shown(p: Piece): string {
    match p
    case P(c) => if c == ':' then ": " else if c == ',' then ", " else [c]
    case S(text) => Quoted(text)
    case W(text) => text
  }

  function AllShown(pieces: seq<Piece>): string {
    if pieces == [] then "" else Shown(pieces[0]) + AllShown(pieces[1..])
  }

  lemma StringShown(text: string, t: string)
    ensures SpacedText(PieceText(S(text)) + t) == Quoted(text) + SpacedText(t)
  {
    var inner := WrittenText(text) + (['"'] + t);
    SpacedStep(Outside, '"', inner);
    SpacedString(text, t);
    hide SpacedFrom, WrittenText;
    assert PieceText(S(text)) + t == ['"'] + inner;
    assert ['"'] + "" + SpacedFrom(Inside, inner) == ['"'] + (WrittenText(text) + (['"'] + SpacedText(t)));
  }

  lemma OneShown(p: Piece, t: string)
    requires match p case P(c) => IsPunct(c) case S(_) => true case W(text) => forall c | c in text :: IsWordChar(c)
    ensures SpacedText(PieceText(p) + t) == Shown(p) + SpacedText(t)
  {
    match p
    case P(c) => SpacedStep(Outside, c, t);
    case S(text) =>
      StringShown(text, t);
    case W(text) => SpacedWord(text, t);
  }

  /** Spacing a compact text puts a space after the colons and commas between its strings. */
  lemma {:induction false} SpacedIs(pieces: seq<Piece>)
    requires WellFormed(pieces)
    ensures SpacedText(Compact(pieces)) == AllShown(pieces)
  {
    if pieces != [] {
      assert PieceOk(pieces, 0);
      forall i | 0 <= i < |pieces[1..]| ensures PieceOk(pieces[1..], i) {
        assert PieceOk(pieces, i + 1);
      }
      SpacedIs(pieces[1..]);
      OneShown(pieces[0], Compact(pieces[1..]));
    }
  }

  lemma {:induction false} ShownConcat(a: seq<Piece>, b: seq<Piece>)
    ensures AllShown(a + b) == AllShown(a) + AllShown(b)
  {
    if a == [] {
      assert a + b == b;
    } else {
      hide Shown;
      ShownConcat(a[1..], b);
      assert (a + b)[1..] == a[1..] + b;
      Assoc(Shown(a[0]), AllShown(a[1..]), AllShown(b));
    }
  }

  lemma {:induction false} PlainText(s: string)
    requires forall c | c in s :: IsPlain(c) && c >= ' '
    ensures WrittenText(s) == s
  {
    if s != "" {
      assert s == [s[0]] + s[1..] && s[0] in s;
      PlainText(s[1..]);
    }
  }

  /** Nothing in it is written otherwise. */
  predicate IsKey(name: string) {
    forall c | c in name :: IsPlain(c) && c >= ' '
  }

  lemma SchemaKeys()
    ensures IsKey("context") && IsKey("schema") && IsKey("name") && IsKey("description") && IsKey("choices")
    ensures IsKey("code") && IsKey("value")
  {
  }

  /** A property and its value. */
  function Field(name: string, value: string): string {
    "\"" + name + "\": " + value
  }

  lemma Key(name: string)
    requires IsKey(name)
    ensures Quoted(name) == "\"" + name + "\""
  {
    PlainText(name);
  }

  lemma FieldJoins(name: string, value: string)
    ensures "\"" + name + "\"" + (": " + value) == Field(name, value)
  {
  }

  lemma Pair(name: string, value: Piece)
    requires IsKey(name)
    ensures AllShown([S(name), P(':'), value]) == Field(name, Shown(value))
  {
    Key(name);
    var pieces := [S(name), P(':'), value];
    assert pieces[1..] == [P(':'), value] && pieces[1..][1..] == [value] && [value][1..] == [];
    var shown := Shown(value);
    assert Shown(S(name)) == Quoted(name) && Shown(P(':')) == ": ";
    hide Quoted, WrittenText, Shown;
    assert shown + "" == shown;
    assert AllShown([value]) == shown;
    assert AllShown([P(':'), value]) == ": " + shown;
    assert AllShown(pieces) == Quoted(name) + (": " + shown);
    FieldJoins(name, shown);
  }

  lemma Brackets(c: char)
    requires c != ':' && c != ','
    ensures AllShown([P(c)]) == [c] && AllShown([P(',')]) == ", "
  {
    assert [P(c)][1..] == [] && [P(',')][1..] == [];
  }

  /** One option, as the model reads it. */
  function OptionText(letter: char, value: string, description: string): string {
    "{" + Field("code", Quoted([letter])) + ", " + Field("value", value) + ", "
    + Field("description", Quoted(description)) + "}"
  }

  lemma OfferShown(letter: char, o: Offer)
    requires 'A' <= letter <= 'Z'
    ensures AllShown([P('{'), S("code"), P(':'), S([letter]), P(','), S("value"), P(':'), o.value, P(','),
                      S("description"), P(':'), S(o.description), P('}')])
            == OptionText(letter, Shown(o.value), o.description)
  {
    var a, b, c := [S("code"), P(':'), S([letter])], [S("value"), P(':'), o.value],
      [S("description"), P(':'), S(o.description)];
    SchemaKeys();
    hide Quoted, Field, IsKey;
    Pair("code", S([letter]));
    Pair("value", o.value);
    Pair("description", S(o.description));
    Brackets('{');
    Brackets('}');
    hide AllShown, Shown;
    var open, comma, close := [P('{')], [P(',')], [P('}')];
    ShownConcat(open, a);
    ShownConcat(open + a, comma);
    ShownConcat(open + a + comma, b);
    ShownConcat(open + a + comma + b, comma);
    ShownConcat(open + a + comma + b + comma, c);
    ShownConcat(open + a + comma + b + comma + c, close);
    Parts(P('{'), S("code"), P(':'), S([letter]), P(','), S("value"), o.value, S("description"), S(o.description),
          P('}'));
  }

  lemma Parts(open: Piece, k: Piece, colon: Piece, code: Piece, comma: Piece, v: Piece, value: Piece, d: Piece,
              description: Piece, close: Piece)
    ensures [open, k, colon, code, comma, v, colon, value, comma, d, colon, description, close]
            == [open] + [k, colon, code] + [comma] + [v, colon, value] + [comma] + [d, colon, description] + [close]
  {
  }

  const LETTERS: string := "ABCDEFGHIJKLMNOPQRSTUVWXYZ"

  lemma CodeIs(i: nat)
    requires i < 26
    ensures Code(i) == [LETTERS[i]] && 'A' <= LETTERS[i] <= 'Z'
  {
  }

  /** The options, one after another, under the letters from A on. */
  function OptionTexts(options: seq<(string, string)>, n: nat): string
    requires n <= |options| <= 26
  {
    if n == 0 then ""
    else
      OptionTexts(options, n - 1) + (if n == 1 then "" else ", ")
      + OptionText(LETTERS[n - 1], options[n - 1].0, options[n - 1].1)
  }

  lemma {:induction false} OffersShown(offers: seq<Offer>, options: seq<(string, string)>, n: nat)
    requires n <= |offers| <= 26 && |options| == |offers|
    requires forall i | 0 <= i < |offers| :: options[i] == (Shown(offers[i].value), offers[i].description)
    ensures AllShown(OfferPieces(offers, n)) == OptionTexts(options, n)
  {
    if n > 0 {
      OffersShown(offers, options, n - 1);
      CodeIs(n - 1);
      var before, o := OfferPieces(offers, n - 1), offers[n - 1];
      var comma: seq<Piece> := if n == 1 then [] else [P(',')];
      var last := [P('{'), S("code"), P(':'), S(Code(n - 1)), P(','), S("value"), P(':'), o.value, P(','),
                   S("description"), P(':'), S(o.description), P('}')];
      OfferShown(LETTERS[n - 1], o);
      Brackets('{');
      assert OfferPieces(offers, n) == before + comma + last;
      hide AllShown, Shown, OptionText, OfferPieces, Code;
      ShownConcat(before, comma);
      ShownConcat(before + comma, last);
      NoneShown();
    }
  }

  lemma NoneShown()
    ensures AllShown([]) == ""
  {
  }

  /** What a question offers: its options by name, or false and true. */
  function Options(q: Question): seq<(string, string)> {
    match q
    case YesNo(_) => [("false", "No"), ("true", "Yes")]
    case Choice(_, criteria) =>
      seq(|criteria|, i requires 0 <= i < |criteria| => (Quoted(criteria[i].0), criteria[i].1))
  }

  lemma OptionsAre(q: Question)
    requires Askable(q)
    ensures |Options(q)| == |Offers(q)| <= 26
    ensures forall i | 0 <= i < |Offers(q)| :: Options(q)[i] == (Shown(Offers(q)[i].value), Offers(q)[i].description)
  {
  }

  /** The schema as the model reads it, before its angle brackets are escaped. */
  function SchemaText(context: string, name: string, q: Question): string
    requires Askable(q)
  {
    ("{" + Field("context", Quoted(context)) + ", " + Field("schema", "[") + "{")
    + (Field("name", Quoted(name)) + ", " + Field("description", Quoted(q.instructions)) + ", " + Field("choices", "["))
    + (OptionsAre(q); OptionTexts(Options(q), |Options(q)|)) + "]}]}"
  }

  lemma FiveShown(a: seq<Piece>, b: seq<Piece>, c: seq<Piece>, d: seq<Piece>, e: seq<Piece>)
    ensures AllShown(a + b + c + d + e) == AllShown(a) + AllShown(b) + AllShown(c) + AllShown(d) + AllShown(e)
    ensures AllShown(a + b + c + d) == AllShown(a) + AllShown(b) + AllShown(c) + AllShown(d)
  {
    hide AllShown;
    ShownConcat(a, b);
    ShownConcat(a + b, c);
    ShownConcat(a + b + c, d);
    ShownConcat(a + b + c + d, e);
  }

  lemma StateShown(context: string)
    ensures AllShown(StatePieces(context))
            == "{" + Field("context", Quoted(context)) + ", " + Field("schema", "[") + "{"
  {
    var a, schema := [S("context"), P(':'), S(context)], [S("schema"), P(':'), P('[')];
    SchemaKeys();
    hide IsKey;
    Pair("context", S(context));
    Pair("schema", P('['));
    Brackets('{');
    StateParts(P('{'), S("context"), P(':'), S(context), P(','), S("schema"), P('['));
    assert Shown(P('[')) == "[" && Shown(S(context)) == Quoted(context);
    hide AllShown, Quoted, Field, Shown;
    FiveShown([P('{')], a, [P(',')], schema, [P('{')]);
  }

  lemma StateParts(open: Piece, k: Piece, colon: Piece, context: Piece, comma: Piece, s: Piece, bracket: Piece)
    ensures [open, k, colon, context, comma, s, colon, bracket, open]
            == [open] + [k, colon, context] + [comma] + [s, colon, bracket] + [open]
  {
  }

  lemma FieldShown(name: string, instructions: string)
    ensures AllShown(FieldPieces(name, instructions))
            == Field("name", Quoted(name)) + ", " + Field("description", Quoted(instructions)) + ", "
               + Field("choices", "[")
  {
    var b, c := [S("name"), P(':'), S(name)], [S("description"), P(':'), S(instructions)];
    var choices := [S("choices"), P(':'), P('[')];
    SchemaKeys();
    hide IsKey;
    Pair("name", S(name));
    Pair("description", S(instructions));
    Pair("choices", P('['));
    Brackets('{');
    FieldParts(S("name"), P(':'), S(name), P(','), S("description"), S(instructions), S("choices"), P('['));
    assert Shown(P('[')) == "[" && Shown(S(name)) == Quoted(name) && Shown(S(instructions)) == Quoted(instructions);
    hide AllShown, Quoted, Field, Shown;
    FiveShown(b, [P(',')], c, [P(',')], choices);
  }

  lemma FieldParts(k: Piece, colon: Piece, name: Piece, comma: Piece, d: Piece, instructions: Piece, choices: Piece,
                   bracket: Piece)
    ensures [k, colon, name, comma, d, colon, instructions, comma, choices, colon, bracket]
            == [k, colon, name] + [comma] + [d, colon, instructions] + [comma] + [choices, colon, bracket]
  {
  }

  lemma BackShown()
    ensures AllShown([P(']'), P('}'), P(']'), P('}')]) == "]}]}"
  {
    var a, b := P(']'), P('}');
    assert [a, b, a, b][1..] == [b, a, b] && [b, a, b][1..] == [a, b] && [a, b][1..] == [b] && [b][1..] == [];
  }

  lemma SchemaShown(context: string, name: string, q: Question)
    requires Askable(q)
    ensures SpacedText(Compact(SchemaPieces(context, name, q))) == SchemaText(context, name, q)
  {
    var offers := Offers(q);
    OptionsAre(q);
    OffersShown(offers, Options(q), |offers|);
    SchemaWellFormed(context, name, q);
    SpacedIs(SchemaPieces(context, name, q));
    StateShown(context);
    FieldShown(name, q.instructions);
    BackShown();
    hide AllShown, OfferPieces, StatePieces, FieldPieces, Quoted, Field, SpacedText, Compact;
    hide OptionTexts, Options, Offers;
    FiveShown(StatePieces(context), FieldPieces(name, q.instructions), OfferPieces(offers, |offers|),
              [P(']'), P('}'), P(']'), P('}')], []);
  }

  lemma NameShown(name: string)
    ensures Compact([S(name)]) == Quoted(name)
  {
    assert [S(name)][1..] == [];
  }

  /** The message, character by character: the schema spaced as the model was taught, with the
      state, the name, the instructions and each option under its letter, then the name again,
      and every angle bracket escaped; none exactly for a choice of fewer than 2 or more than
      26 options. */
  lemma PromptReads(context: string, name: string, q: Question)
    ensures Prompt(context, name, q).None? <==> q.Choice? && (|q.criteria| < 2 || |q.criteria| > 26)
    ensures Askable(q) ==>
              Prompt(context, name, q)
              == Some(Escape(SchemaText(context, name, q)) + "\n\nRequested field: " + Escape(Quoted(name)))
  {
    if Askable(q) {
      SchemaShown(context, name, q);
      NameShown(name);
      hide SchemaText, SchemaPieces, Compact, SpacedText, Escape, Quoted;
    }
  }
}
