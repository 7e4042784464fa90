/** Finding the names a text mentions: `words` and `contains_word` of crates/api/src/refs.rs.
    Texts are taken as already lower-cased, and `alnum` tells the letters and digits. */
module RefWords {
  import opened Collections
  import opened Text

  type Alphabet = alnum: char -> bool | !alnum(' ') && alnum('a') && !alnum('_')
    witness (c: char) => c == 'a'

  // ── Words ──

  /** The maximal runs of letters and digits. */
  function Tokens(s: string, alnum: Alphabet): seq<string> {
    if s == "" then []
    else
      var but, c := s[..|s| - 1], s[|s| - 1];
      var before := Tokens(but, alnum);
      if !alnum(c) then before
      else if but != "" && alnum(but[|but| - 1]) && before != [] then
        before[..|before| - 1] + [before[|before| - 1] + [c]]
      else before + [[c]]
  }

  /** Each token with a space after it. */
  function Joined(tokens: seq<string>): string {
    if tokens == [] then "" else tokens[0] + " " + Joined(tokens[1..])
  }

  /** A second space in front, for a text that does not start with a letter or digit. */
  function Lead(s: string, alnum: Alphabet): string {
    if s == "" || !alnum(s[0]) then " " else ""
  }

  function Padded(s: string, alnum: Alphabet): string {
    " " + Lead(s, alnum) + Joined(Tokens(s, alnum))
  }

  predicate IsToken(t: string, alnum: Alphabet) {
    t != "" && forall c | c in t :: alnum(c)
  }

  predicate AreTokens(tokens: seq<string>, alnum: Alphabet) {
    forall k | 0 <= k < |tokens| :: IsToken(tokens[k], alnum)
  }

  lemma {:induction false} TokensAre(s: string, alnum: Alphabet)
    ensures AreTokens(Tokens(s, alnum), alnum)
    ensures s != "" && alnum(s[|s| - 1]) ==> Tokens(s, alnum) != []
  {
    if s != "" {
      TokensAre(s[..|s| - 1], alnum);
    }
  }

  /** A token is one word, and words on both sides of a gap do not touch: with the runs
      being maximal, these two say what the tokens of any text are. */
  lemma {:induction false} TokenIsOne(s: string, alnum: Alphabet)
    requires IsToken(s, alnum)
    ensures Tokens(s, alnum) == [s]
  {
    var but := s[..|s| - 1];
    assert s == but + [s[|s| - 1]];
    if but != "" {
      TokenIsOne(but, alnum);
    } else {
      assert Tokens("", alnum) == [];
    }
  }

  lemma {:induction false} GapSplits(a: string, gap: char, b: string, alnum: Alphabet)
    requires !alnum(gap)
    ensures Tokens(a + [gap] + b, alnum) == Tokens(a, alnum) + Tokens(b, alnum)
    decreases |b|
  {
    NoTokens(alnum);
    hide Tokens;
    if b == "" {
      TokensNext(a, gap, alnum);
      assert a + [gap] + b == a + [gap];
    } else {
      var but, c := b[..|b| - 1], b[|b| - 1];
      var front := a + [gap] + but;
      assert b == but + [c] && a + [gap] + b == front + [c];
      GapSplits(a, gap, but, alnum);
      TokensNext(front, c, alnum);
      TokensNext(but, c, alnum);
      assert front[|front| - 1] == if but == "" then gap else but[|but| - 1];
      var before, after := Tokens(a, alnum), Tokens(but, alnum);
      if alnum(c) && but != "" && alnum(but[|but| - 1]) {
        LastOf(before, after);
      } else {
        assert before + (after + [[c]]) == before + after + [[c]];
      }
    }
  }

  lemma NoTokens(alnum: Alphabet)
    ensures Tokens("", alnum) == []
  {
  }

  lemma LastOf(a: seq<string>, b: seq<string>)
    requires b != []
    ensures (a + b)[..|a + b| - 1] == a + b[..|b| - 1] && (a + b)[|a + b| - 1] == b[|b| - 1]
  {
  }

  lemma {:induction false} JoinedConcat(a: seq<string>, b: seq<string>)
    ensures Joined(a + b) == Joined(a) + Joined(b)
  {
    if a == [] {
      assert a + b == b;
    } else {
      var rest, head := a[1..], a[0] + " ";
      assert (a + b)[1..] == rest + b;
      JoinedConcat(rest, b);
      assert head + (Joined(rest) + Joined(b)) == head + Joined(rest) + Joined(b);
    }
  }

  lemma JoinedOne(t: string)
    ensures Joined([t]) == t + " "
  {
    assert [t][1..] == [];
    assert Joined([t]) == t + " " + "";
  }

  lemma LastGrows(front: seq<string>, t: string, c: char)
    ensures Joined(front + [t]) == Joined(front) + t + " "
    ensures Joined(front + [t + [c]]) == Joined(front) + t + [c] + " "
  {
    hide Joined;
    JoinedConcat(front, [t]);
    JoinedConcat(front, [t + [c]]);
    JoinedOne(t);
    JoinedOne(t + [c]);
    Assoc(Joined(front), t, " ");
    Assoc(Joined(front), t + [c], " ");
    Assoc(Joined(front), t, [c]);
  }

  lemma TokensNext(s: string, c: char, alnum: Alphabet)
    ensures var before, after := Tokens(s, alnum), Tokens(s + [c], alnum);
            if !alnum(c) then after == before
            else if s == "" || !alnum(s[|s| - 1]) then after == before + [[c]]
            else before != [] && after == before[..|before| - 1] + [before[|before| - 1] + [c]]
  {
    assert (s + [c])[..|s|] == s;
    TokensAre(s, alnum);
  }

  lemma LeadNext(s: string, c: char, alnum: Alphabet)
    ensures s != "" ==> Lead(s + [c], alnum) == Lead(s, alnum)
    ensures s == "" ==> Lead(s + [c], alnum) == if alnum(c) then "" else " "
  {
  }

  /** How the padded text grows with one more character. */
  lemma PaddedNext(s: string, c: char, alnum: Alphabet, out: string)
    requires Padded(s, alnum) == out + if s != "" && !alnum(s[|s| - 1]) then "" else " "
    ensures Padded(s + [c], alnum)
            == if alnum(c) then out + [c] + " " else if s != "" && !alnum(s[|s| - 1]) then out else out + " "
  {
    TokensNext(s, c, alnum);
    LeadNext(s, c, alnum);
    if s == "" {
      assert Padded(s, alnum) == " " + " ";
      SameButLast(out, " ");
      assert Tokens(s, alnum) + [[c]] == [[c]];
      JoinedOne([c]);
    } else if alnum(c) {
      GrowsByLetter(s, c, alnum, out);
    }
  }

  lemma GrowsByLetter(s: string, c: char, alnum: Alphabet, out: string)
    requires s != "" && alnum(c)
    requires Padded(s, alnum) == out + if !alnum(s[|s| - 1]) then "" else " "
    ensures Padded(s + [c], alnum) == out + [c] + " "
  {
    TokensNext(s, c, alnum);
    LeadNext(s, c, alnum);
    var before, lead := Tokens(s, alnum), " " + Lead(s, alnum);
    var after := Tokens(s + [c], alnum);
    hide Tokens, Joined, Lead;
    if alnum(s[|s| - 1]) {
      var first, t := before[..|before| - 1], before[|before| - 1];
      assert before == first + [t];
      LastGrows(first, t, c);
      var f := Joined(first);
      Assoc(lead, f + t, " ");
      Assoc(lead, f, t);
      SameButLast(out, lead + f + t);
      assert out == lead + f + t;
      Assoc(lead, f + t + [c], " ");
      Assoc(lead, f + t, [c]);
    } else {
      JoinedConcat(before, [[c]]);
      JoinedOne([c]);
      Assoc(lead, Joined(before), [c] + " ");
      Assoc(out, [c], " ");
      assert out + "" == out;
    }
  }

  lemma SameButLast(a: string, b: string)
    ensures a + " " == b + " " ==> a == b
  {
    assert (a + " ")[..|a + " "| - 1] == a && (b + " ")[..|b + " "| - 1] == b;
  }

  /** `words`: one space for every gap, and one at each end. */
  method Words(s: string, alnum: Alphabet) returns (out: string)
    ensures out == Padded(s, alnum)
  {
    hide Padded;
    out := " ";
    var gap := false;
    NoWords(alnum);
    for i := 0 to |s|
      invariant Padded(s[..i], alnum) == out + if gap then "" else " "
      invariant gap == (i > 0 && !alnum(s[i - 1]))
    {
      assert s[..i + 1] == s[..i] + [s[i]];
      PaddedNext(s[..i], s[i], alnum, out);
      if alnum(s[i]) {
        out := out + [s[i]];
        gap := false;
      } else if !gap {
        out := out + " ";
        gap := true;
      }
    }
    assert s[..|s|] == s;
    if !gap {
      out := out + " ";
    }
  }

  lemma NoWords(alnum: Alphabet)
    ensures Padded("", alnum) == "  "
  {
  }

  // ── What containment of padded words means ──

  /** The tokens of a name one after another in the text. */
  ghost predicate Mentions(text: seq<string>, name: seq<string>) {
    exists k | 0 <= k <= |text| - |name| :: TokensAt(text, k, name)
  }

  predicate TokensAt(text: seq<string>, k: nat, name: seq<string>) {
    k + |name| <= |text| && text[k..k + |name|] == name
  }

  /** The first space of `t + " " + x` is after `t`. */
  lemma FirstSpace(t: string, x: string, u: string, y: string)
    requires ' ' !in t && ' ' !in u
    requires t + " " + x <= u + " " + y
    ensures t == u && x <= y
  {
    var a, b := t + " " + x, u + " " + y;
    assert a == b[..|a|];
    assert a[|t|] == ' ' && b[|u|] == ' ';
    assert |u| <= |t| by {
      assert forall i | 0 <= i < |u| :: b[i] == u[i] && u[i] in u;
    }
    assert |t| <= |u| by {
      assert forall i | 0 <= i < |t| :: a[i] == t[i] && t[i] in t;
    }
    assert t == a[..|t|] && u == b[..|t|];
    assert x == a[|t| + 1..] && y == b[|t| + 1..];
  }

  lemma NoSpace(t: string, alnum: Alphabet)
    requires IsToken(t, alnum)
    ensures ' ' !in t
  {
  }

  lemma {:induction false} JoinedPrefix(name: seq<string>, text: seq<string>, alnum: Alphabet)
    requires AreTokens(name, alnum) && AreTokens(text, alnum)
    requires Joined(name) <= Joined(text)
    ensures name <= text
  {
    if name != [] {
      assert text != [];
      NoSpace(name[0], alnum);
      NoSpace(text[0], alnum);
      FirstSpace(name[0], Joined(name[1..]), text[0], Joined(text[1..]));
      JoinedPrefix(name[1..], text[1..], alnum);
      assert name == [name[0]] + name[1..] && text == [text[0]] + text[1..];
    }
  }

  /** A character that is no space, at the start or after a space, starts a token. */
  lemma {:induction false} Boundary(text: seq<string>, j: nat, alnum: Alphabet) returns (k: nat)
    requires AreTokens(text, alnum) && j < |Joined(text)| && Joined(text)[j] != ' '
    requires j == 0 || Joined(text)[j - 1] == ' '
    ensures k < |text| && j == |Joined(text[..k])|
  {
    var n := |text[0]|;
    NoSpace(text[0], alnum);
    if j == 0 {
      k := 0;
    } else {
      assert forall i | 0 <= i < n :: Joined(text)[i] == text[0][i] && text[0][i] in text[0];
      assert j >= n + 1;
      if j == n + 1 {
        assert Joined(text[1..])[0] == Joined(text)[j];
      } else {
        assert Joined(text[1..])[j - n - 2] == Joined(text)[j - 1];
      }
      assert Joined(text[1..])[j - n - 1] == Joined(text)[j];
      k := Boundary(text[1..], j - n - 1, alnum);
      assert text[..k + 1][1..] == text[1..][..k];
      k := k + 1;
    }
  }

  lemma {:induction false} JoinedEnds(tokens: seq<string>)
    requires tokens != []
    ensures Joined(tokens) != "" && Joined(tokens)[|Joined(tokens)| - 1] == ' '
  {
    if |tokens| > 1 {
      JoinedEnds(tokens[1..]);
    } else {
      JoinedOne(tokens[0]);
      assert tokens == [tokens[0]];
    }
  }

  lemma LeadIs(s: string, alnum: Alphabet)
    ensures Lead(s, alnum) == "" || Lead(s, alnum) == " "
    ensures Lead(s, alnum) == "" <==> s != "" && alnum(s[0])
  {
  }

  lemma {:induction false} StartsToken(s: string, alnum: Alphabet)
    requires s != "" && alnum(s[0])
    ensures Tokens(s, alnum) != []
  {
    if |s| > 1 {
      StartsToken(s[..|s| - 1], alnum);
    }
  }

  predicate IsPad(pad: string) {
    pad == " " || pad == "  "
  }

  lemma PadEnds(pad: string, tokens: seq<string>)
    requires IsPad(pad)
    ensures var front := pad + Joined(tokens); front != "" && front[|front| - 1] == ' '
  {
    if tokens != [] {
      JoinedEnds(tokens);
    }
  }

  lemma JoinedAround(text: seq<string>, k: nat, name: seq<string>)
    requires TokensAt(text, k, name)
    ensures Joined(text) == Joined(text[..k]) + Joined(name) + Joined(text[k + |name|..])
  {
    hide Joined;
    assert text == text[..k] + (name + text[k + |name|..]);
    JoinedConcat(text[..k], name + text[k + |name|..]);
    JoinedConcat(name, text[k + |name|..]);
  }

  lemma MentionIsFound(pad: string, text: seq<string>, k: nat, name: seq<string>)
    requires IsPad(pad) && TokensAt(text, k, name)
    ensures Contains(pad + Joined(text), " " + Joined(name))
  {
    JoinedAround(text, k, name);
    PadEnds(pad, text[..k]);
    hide Joined, TokensAt, IsPad;
    var front, after := pad + Joined(text[..k]), Joined(text[k + |name|..]);
    SpaceBefore(front, Joined(name), after);
    Assoc(pad, Joined(text[..k]) + Joined(name), after);
    Assoc(pad, Joined(text[..k]), Joined(name));
  }

  lemma SpaceBefore(front: string, x: string, after: string)
    requires front != "" && front[|front| - 1] == ' '
    ensures Contains(front + x + after, " " + x)
  {
    var i := |front| - 1;
    assert front == front[..i] + " ";
    assert front + x + after == front[..i] + (" " + x) + after;
    assert IsAt(front + x + after, i, " " + x);
  }

  lemma JoinedHead(name: seq<string>, alnum: Alphabet)
    requires AreTokens(name, alnum) && name != []
    ensures Joined(name) != "" && Joined(name)[0] != ' '
  {
    NoSpace(name[0], alnum);
    assert name[0][0] in name[0];
  }

  lemma JoinedFrom(text: seq<string>, k: nat)
    requires k <= |text|
    ensures |Joined(text[..k])| <= |Joined(text)|
    ensures Joined(text)[|Joined(text[..k])|..] == Joined(text[k..])
  {
    assert text == text[..k] + text[k..];
    JoinedConcat(text[..k], text[k..]);
  }

  lemma FoundIsMention(pad: string, text: seq<string>, name: seq<string>, i: nat, alnum: Alphabet)
    requires IsPad(pad) && AreTokens(text, alnum) && AreTokens(name, alnum) && name != []
    requires IsAt(pad + Joined(text), i, " " + Joined(name))
    ensures Mentions(text, name)
  {
    JoinedHead(name, alnum);
    hide Joined, AreTokens, IsAt, IsPad;
    var j := Spot(pad, Joined(text), Joined(name), i);
    var k := Boundary(text, j, alnum);
    JoinedFrom(text, k);
    TokensFrom(text, k, alnum);
    JoinedPrefix(name, text[k..], alnum);
    assert TokensAt(text, k, name);
  }

  /** A word found after a space is found in what is padded, at its start or after a space. */
  lemma Spot(pad: string, body: string, x: string, i: nat) returns (j: nat)
    requires IsPad(pad) && x != "" && x[0] != ' ' && IsAt(pad + body, i, " " + x)
    ensures j < |body| && x <= body[j..] && body[j] != ' ' && (j > 0 ==> body[j - 1] == ' ')
  {
    var hay, needle := pad + body, " " + x;
    assert hay[i..][..|needle|] == needle;
    assert hay[i] == needle[0] && hay[i + 1] == needle[1];
    assert i + 1 >= |pad|;
    j := i + 1 - |pad|;
    assert hay[i + 1..] == body[j..];
    assert hay[i..i + |needle|][1..] == x;
  }

  lemma TokensFrom(text: seq<string>, k: nat, alnum: Alphabet)
    requires AreTokens(text, alnum) && k <= |text|
    ensures AreTokens(text[k..], alnum)
  {
  }

  /** For a name that starts with a letter or digit, the padded text contains the padded
      name exactly when the text mentions the name's tokens one after another. */
  lemma WordsMatchTokens(text: string, name: string, alnum: Alphabet)
    requires name != "" && alnum(name[0])
    ensures Contains(Padded(text, alnum), Padded(name, alnum))
            <==> Mentions(Tokens(text, alnum), Tokens(name, alnum))
  {
    var u, t, pad := Tokens(text, alnum), Tokens(name, alnum), " " + Lead(text, alnum);
    TokensAre(text, alnum);
    TokensAre(name, alnum);
    LeadIs(text, alnum);
    LeadIs(name, alnum);
    StartsToken(name, alnum);
    assert Padded(name, alnum) == " " + Joined(t);
    hide Tokens, Joined, Lead, AreTokens, IsAt;
    var hay, needle := pad + Joined(u), " " + Joined(t);
    if Contains(hay, needle) {
      var i :| 0 <= i <= |hay| && IsAt(hay, i, needle);
      FoundIsMention(pad, u, t, i, alnum);
    }
    if Mentions(u, t) {
      var k :| 0 <= k <= |u| - |t| && TokensAt(u, k, t);
      MentionIsFound(pad, u, k, t);
    }
  }

  /** A name that starts otherwise has two spaces in front: only a text that starts
      otherwise too can contain it, and only as its first words. */
  lemma OddNamesMatchAtStart(text: string, name: string, alnum: Alphabet)
    requires name == "" || !alnum(name[0])
    ensures Contains(Padded(text, alnum), Padded(name, alnum))
            <==> (text == "" || !alnum(text[0])) && Tokens(name, alnum) <= Tokens(text, alnum)
  {
    var u, t, pad := Tokens(text, alnum), Tokens(name, alnum), " " + Lead(text, alnum);
    TokensAre(text, alnum);
    TokensAre(name, alnum);
    LeadIs(text, alnum);
    LeadIs(name, alnum);
    assert Padded(name, alnum) == "  " + Joined(t);
    hide Tokens, Joined, Lead, AreTokens, IsAt;
    var hay, needle := pad + Joined(u), "  " + Joined(t);
    if Contains(hay, needle) {
      var i :| 0 <= i <= |hay| && IsAt(hay, i, needle);
      FoundAtStart(pad, u, t, i, alnum);
    }
    if pad == "  " && t <= u {
      StartIsFound(u, t);
    }
  }

  lemma FoundAtStart(pad: string, text: seq<string>, name: seq<string>, i: nat, alnum: Alphabet)
    requires IsPad(pad) && AreTokens(text, alnum) && AreTokens(name, alnum)
    requires IsAt(pad + Joined(text), i, "  " + Joined(name))
    ensures pad == "  " && name <= text
  {
    hide Joined, AreTokens;
    var hay, needle := pad + Joined(text), "  " + Joined(name);
    assert hay[i..][..|needle|] == needle;
    assert hay[i] == needle[0] == ' ' && hay[i + 1] == needle[1] == ' ';
    OneSpace(pad, text, i, alnum);
    assert hay[2..] == Joined(text) && needle[2..] == Joined(name);
    assert hay[..|needle|] == needle;
    assert needle[2..] == hay[2..][..|needle| - 2];
    JoinedPrefix(name, text, alnum);
  }

  lemma StartIsFound(text: seq<string>, name: seq<string>)
    requires name <= text
    ensures Contains("  " + Joined(text), "  " + Joined(name))
  {
    assert text == name + text[|name|..];
    JoinedConcat(name, text[|name|..]);
    hide Joined;
    assert "  " + Joined(text) == "  " + Joined(name) + Joined(text[|name|..]);
    assert IsAt("  " + Joined(text), 0, "  " + Joined(name));
  }

  /** Two spaces in a row are only at the very start. */
  lemma OneSpace(pad: string, text: seq<string>, i: nat, alnum: Alphabet)
    requires IsPad(pad) && AreTokens(text, alnum)
    requires i + 1 < |pad + Joined(text)| && (pad + Joined(text))[i] == ' ' && (pad + Joined(text))[i + 1] == ' '
    ensures i == 0 && pad == "  "
  {
    var body := Joined(text);
    if i + 1 >= |pad| {
      assert body[i + 1 - |pad|] == ' ';
      SpaceAfterToken(text, i + 1 - |pad|, alnum);
    }
  }

  lemma {:induction false} SpaceAfterToken(text: seq<string>, j: nat, alnum: Alphabet)
    requires AreTokens(text, alnum) && j < |Joined(text)| && Joined(text)[j] == ' '
    ensures j > 0 && Joined(text)[j - 1] != ' '
  {
    var n := |text[0]|;
    NoSpace(text[0], alnum);
    assert forall i | 0 <= i < n :: Joined(text)[i] == text[0][i] && text[0][i] in text[0];
    if j > n {
      assert forall i | n < i < |Joined(text)| :: Joined(text)[i] == Joined(text[1..])[i - n - 1];
      SpaceAfterToken(text[1..], j - n - 1, alnum);
    }
  }

  // ── Words by search ──

  predicate IsIdent(c: char, alnum: Alphabet) {
    alnum(c) || c == '_'
  }

  /** Nothing of an identifier touches it. */
  predicate Bounded(hay: string, i: nat, n: nat, alnum: Alphabet)
    requires i + n <= |hay|
  {
    && (i > 0 ==> !IsIdent(hay[i - 1], alnum))
    && (i + n < |hay| ==> !IsIdent(hay[i + n], alnum))
  }

  /** `contains_word`: of the occurrences that do not overlap, from the left, one is bounded. */
  predicate ContainsWordFrom(hay: string, word: string, i: nat, alnum: Alphabet)
    requires i <= |hay| + 1
    decreases |hay| + 1 - i
  {
    var j := Find(hay, word, i);
    j <= |hay|
    && (Bounded(hay, j, |word|, alnum) || ContainsWordFrom(hay, word, j + if word == "" then 1 else |word|, alnum))
  }

  predicate ContainsWord(hay: string, word: string, alnum: Alphabet) {
    ContainsWordFrom(hay, word, 0, alnum)
  }

  /** What it is for: the word is somewhere, not touching an identifier. */
  predicate IsWordAt(hay: string, i: nat, word: string, alnum: Alphabet) {
    IsAt(hay, i, word) && Bounded(hay, i, |word|, alnum)
  }

  ghost predicate HasWord(hay: string, word: string, alnum: Alphabet) {
    exists i: nat :: IsWordAt(hay, i, word, alnum)
  }

  /** The word is there exactly when the text is something, the word and something, and what
      comes before does not end, and what comes after not begin, in a character of identifiers. */
  lemma HasWordIff(hay: string, word: string, alnum: Alphabet)
    ensures HasWord(hay, word, alnum) <==>
              exists before, after :: StandsAlone(hay, before, word, after, alnum)
  {
    if i: nat :| IsWordAt(hay, i, word, alnum) {
      assert hay == hay[..i] + word + hay[i + |word|..];
      assert StandsAlone(hay, hay[..i], word, hay[i + |word|..], alnum);
    }
    if before, after :| StandsAlone(hay, before, word, after, alnum) {
      assert IsWordAt(hay, |before|, word, alnum);
    }
  }

  predicate StandsAlone(hay: string, before: string, word: string, after: string, alnum: Alphabet) {
    && hay == before + word + after
    && (before == "" || (!alnum(before[|before| - 1]) && before[|before| - 1] != '_'))
    && (after == "" || (!alnum(after[0]) && after[0] != '_'))
  }

  /** The word can start again inside itself, right after a character of no identifier. */
  predicate Restarts(word: string, d: nat, alnum: Alphabet) {
    0 < d < |word| && word[d..] == word[..|word| - d] && !IsIdent(word[d - 1], alnum)
  }

  lemma {:induction false} FoundIsWord(hay: string, word: string, i: nat, alnum: Alphabet)
    requires i <= |hay| + 1 && ContainsWordFrom(hay, word, i, alnum)
    ensures HasWord(hay, word, alnum)
    decreases |hay| + 1 - i
  {
    var j := Find(hay, word, i);
    if Bounded(hay, j, |word|, alnum) {
      assert IsWordAt(hay, j, word, alnum);
    } else {
      FoundIsWord(hay, word, j + if word == "" then 1 else |word|, alnum);
    }
  }

  lemma {:induction false} WordIsFound(hay: string, word: string, i: nat, at: nat, alnum: Alphabet)
    requires i <= at && IsWordAt(hay, at, word, alnum)
    requires forall d: nat :: !Restarts(word, d, alnum)
    ensures ContainsWordFrom(hay, word, i, alnum)
    decreases |hay| + 1 - i
  {
    var j := Find(hay, word, i);
    assert j <= at;
    var next := j + if word == "" then 1 else |word|;
    if j < at && !Bounded(hay, j, |word|, alnum) {
      if at < next {
        NoRestart(hay, word, j, at, alnum);
      }
      WordIsFound(hay, word, next, at, alnum);
    }
  }

  lemma NoRestart(hay: string, word: string, j: nat, at: nat, alnum: Alphabet)
    requires IsAt(hay, j, word) && IsWordAt(hay, at, word, alnum) && j < at < j + |word|
    ensures Restarts(word, at - j, alnum)
  {
    var d := at - j;
    assert word[d..] == hay[j..j + |word|][d..] == hay[at..j + |word|];
    assert word[..|word| - d] == hay[at..at + |word|][..|word| - d] == hay[at..j + |word|];
    assert word[d - 1] == hay[j..j + |word|][d - 1] == hay[at - 1];
  }

  /** The search by non-overlapping occurrences is right for every text exactly when the
      word cannot restart inside itself after a character of no identifier. */
  lemma SearchIsRightIff(word: string, alnum: Alphabet)
    ensures (forall hay :: ContainsWord(hay, word, alnum) <==> HasWord(hay, word, alnum))
            <==> forall d: nat :: !Restarts(word, d, alnum)
  {
    if forall d: nat :: !Restarts(word, d, alnum) {
      forall hay ensures ContainsWord(hay, word, alnum) <==> HasWord(hay, word, alnum) {
        if ContainsWord(hay, word, alnum) {
          FoundIsWord(hay, word, 0, alnum);
        }
        if HasWord(hay, word, alnum) {
          var at: nat :| IsWordAt(hay, at, word, alnum);
          WordIsFound(hay, word, 0, at, alnum);
        }
      }
    } else {
      var d: nat :| Restarts(word, d, alnum);
      var hay := Missed(word, d, alnum);
    }
  }

  /** A text in which the search misses such a word. */
  lemma Missed(word: string, d: nat, alnum: Alphabet) returns (hay: string)
    requires Restarts(word, d, alnum)
    ensures hay == [if word[0] == '_' then 'a' else '_'] + (word[..d] + word)
    ensures HasWord(hay, word, alnum) && !ContainsWord(hay, word, alnum)
  {
    var x := if word[0] == '_' then 'a' else '_';
    var twice := word[..d] + word;
    hay := [x] + twice;
    var n := |word|;
    assert twice[..n] == word by {
      assert word == word[..d] + word[d..];
      assert twice[..n] == word[..d] + word[..n - d];
    }
    assert twice[d..] == word;
    InTail(x, twice, 0, word);
    InTail(x, twice, d, word);
    assert hay[d] == word[d - 1];
    assert IsWordAt(hay, 1 + d, word, alnum);
    NotAtHead(x, twice, word);
    MissesIt(hay, word, alnum);
  }

  lemma InTail(x: char, s: string, i: nat, word: string)
    requires IsAt(s, i, word)
    ensures IsAt([x] + s, i + 1, word)
  {
    assert ([x] + s)[i + 1..i + 1 + |word|] == s[i..i + |word|];
  }

  lemma NotAtHead(x: char, s: string, word: string)
    requires word != "" && word[0] != x && |word| <= |s|
    ensures !IsAt([x] + s, 0, word)
  {
    assert ([x] + s)[0..|word|][0] == x;
  }

  lemma MissesIt(hay: string, word: string, alnum: Alphabet)
    requires !IsAt(hay, 0, word) && IsAt(hay, 1, word) && IsIdent(hay[0], alnum) && word != ""
    requires |hay| <= 2 * |word|
    ensures !ContainsWord(hay, word, alnum)
  {
    var n := |word|;
    assert Find(hay, word, 0) == 1;
    assert !Bounded(hay, 1, n, alnum);
    assert forall k | 1 + n <= k :: !IsAt(hay, k, word);
    assert !ContainsWordFrom(hay, word, 1 + n, alnum);
  }

  /** For example "a-a" in "_a-a-a". */
  lemma SearchCanMiss(alnum: Alphabet)
    requires !alnum('-')
    ensures HasWord("_a-a-a", "a-a", alnum) && !ContainsWord("_a-a-a", "a-a", alnum)
  {
    var word := "a-a";
    assert word[2..] == word[..1];
    assert Restarts(word, 2, alnum);
    var hay := Missed(word, 2, alnum);
    assert hay == "_" + (word[..2] + word) == "_a-a-a";
  }

  /** So the search is right for identifiers. */
  lemma IdentifiersAreFound(hay: string, word: string, alnum: Alphabet)
    requires forall c | c in word :: IsIdent(c, alnum)
    ensures ContainsWord(hay, word, alnum) <==> HasWord(hay, word, alnum)
  {
    forall d: nat ensures !Restarts(word, d, alnum) {
      if 0 < d < |word| {
        assert word[d - 1] in word;
      }
    }
    SearchIsRightIff(word, alnum);
  }

  /** And for any name, with spaces or not, in which no word begins with the same character
      as the first: such as "working memory". */
  lemma NamesAreFound(hay: string, name: string, alnum: Alphabet)
    requires forall d | 0 < d < |name| && !IsIdent(name[d - 1], alnum) :: name[d] != name[0]
    ensures ContainsWord(hay, name, alnum) <==> HasWord(hay, name, alnum)
  {
    forall d: nat ensures !Restarts(name, d, alnum) {
      if 0 < d < |name| {
        assert name[d..][0] == name[d] && name[..|name| - d][0] == name[0];
      }
    }
    SearchIsRightIff(name, alnum);
  }

  /** A label in brackets, in the middle of a text. */
  lemma OddNameIsMissed(alnum: Alphabet)
    requires !alnum('(')
    ensures Mentions(Tokens("a (a", alnum), Tokens("(a", alnum))
    ensures !Contains(Padded("a (a", alnum), Padded("(a", alnum))
  {
    hide Tokens, Padded;
    var text, name := "a (a", "(a";
    OddNamesMatchAtStart(text, name, alnum);
    TokenIsOne("a", alnum);
    NoTokens(alnum);
    GapSplits("", '(', "a", alnum);
    assert name == "" + ['('] + "a";
    GapSplits("a", ' ', name, alnum);
    assert text == "a" + [' '] + name;
    assert Tokens(name, alnum) == ["a"];
    assert Tokens(text, alnum) == ["a", "a"];
    assert TokensAt(["a", "a"], 0, ["a"]);
  }
}
