/** White space and trimming of strings. */
module Text {

  /** The characters Unicode calls white space. */
  predicate IsSpace(c: char) {
    || c == ' ' || '\t' <= c <= '\r' || c == '\U{85}' || c == '\U{A0}' || c == '\U{1680}'
    || '\U{2000}' <= c <= '\U{200A}' || c == '\U{2028}' || c == '\U{2029}' || c == '\U{202F}'
    || c == '\U{205F}' || c == '\U{3000}'
  }

  lemma UpperAre(c: char)
    ensures 'A' <= c <= 'Z' <==> c in "ABCDEFGHIJKLMNOPQRSTUVWXYZ"
  {
  }

  lemma LowerAre(c: char)
    ensures 'a' <= c <= 'z' <==> c in "abcdefghijklmnopqrstuvwxyz"
  {
  }

  lemma DigitsAre(c: char)
    ensures '0' <= c <= '9' <==> c in "0123456789"
  {
  }

  /** White space, one by one. */
  lemma SpacesAre(c: char)
    ensures IsSpace(c) <==>
              || c in "\t\n\U{0B}\U{0C}\r \U{85}\U{A0}"
              || c in "\U{1680}\U{2000}\U{2001}\U{2002}\U{2003}\U{2004}\U{2005}\U{2006}\U{2007}\U{2008}"
              || c in "\U{2009}\U{200A}\U{2028}\U{2029}\U{202F}\U{205F}\U{3000}"
  {
  }

  function TrimStart(s: string): string {
    if s != [] && IsSpace(s[0]) then TrimStart(s[1..]) else s
  }

  function TrimEnd(s: string): string {
    if s != [] && IsSpace(s[|s| - 1]) then TrimEnd(s[..|s| - 1]) else s
  }

  function Trim(s: string): string {
    TrimEnd(TrimStart(s))
  }

  /** Trimming leaves nothing exactly of white space. */
  lemma BlankIff(s: string)
    ensures Trim(s) == "" <==> forall c | c in s :: IsSpace(c)
  {
    StartIs(s);
    EndIs(TrimStart(s));
  }

  lemma {:induction false} StartIs(s: string)
    ensures TrimStart(s) == "" <==> forall c | c in s :: IsSpace(c)
    ensures TrimStart(s) != "" ==> !IsSpace(TrimStart(s)[0])
  {
    if s != [] && IsSpace(s[0]) {
      StartIs(s[1..]);
      assert s == [s[0]] + s[1..];
    }
  }

  lemma {:induction false} EndIs(s: string)
    ensures s != "" && !IsSpace(s[0]) ==> TrimEnd(s) != "" && TrimEnd(s)[0] == s[0]
    ensures s == "" ==> TrimEnd(s) == ""
  {
    if s != [] && IsSpace(s[|s| - 1]) {
      EndIs(s[..|s| - 1]);
    }
  }

  predicate IsAt(hay: string, i: int, needle: string) {
    0 <= i && i + |needle| <= |hay| && hay[i..i + |needle|] == needle
  }

  predicate Contains(hay: string, needle: string) {
    exists i | 0 <= i <= |hay| :: IsAt(hay, i, needle)
  }

  /** The first occurrence from `i` on; the length of `hay` plus one if there is none. */
  function Find(hay: string, word: string, i: nat): (j: nat)
    requires i <= |hay| + 1
    ensures i <= j <= |hay| + 1 && (j <= |hay| ==> IsAt(hay, j, word))
    ensures forall k | i <= k < j :: !IsAt(hay, k, word)
    decreases |hay| + 1 - i
  {
    if i > |hay| || IsAt(hay, i, word) then i else Find(hay, word, i + 1)
  }
}
