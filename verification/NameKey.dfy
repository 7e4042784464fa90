/** The comparison key of a name: `Rules::key` of crates/graph/src/entity_resolution.rs. A name
    is given as its cleaned tokens and its display form. */
module NameKey {

  type Tokens = seq<string>

  /** The rules' leading articles and titles, each as tokens, and the names never folded. */
  datatype Rules = Rules(articles: seq<Tokens>, titles: seq<Tokens>, keepDistinct: set<string>) {
    /** A rule has at least one token. */
    predicate Valid() {
      NoneEmpty(articles) && NoneEmpty(titles)
    }
  }

  predicate NoneEmpty(list: seq<Tokens>) {
    forall i | 0 <= i < |list| :: list[i] != []
  }

  /** The name starts with `p` and at least `keep` tokens follow. */
  predicate Leads(p: Tokens, keep: nat, toks: Tokens) {
    |toks| >= |p| + keep && toks[..|p|] == p
  }

  /** The first rule that may be dropped, by its length; 0 if none. */
  function FirstLead(list: seq<Tokens>, keep: nat, toks: Tokens): (n: nat)
    requires NoneEmpty(list)
    ensures n <= |toks|
    ensures n > 0 ==> Leads(toks[..n], keep, toks) && toks[..n] in list
  {
    if list == [] then 0
    else if Leads(list[0], keep, toks) then |list[0]|
    else FirstLead(list[1..], keep, toks)
  }

  /** What is dropped next: an article before a word, else a title before two. */
  function Drop(r: Rules, toks: Tokens): (n: nat)
    requires r.Valid()
    ensures n <= |toks|
  {
    var n := FirstLead(r.articles, 1, toks);
    if n > 0 then n else FirstLead(r.titles, 2, toks)
  }

  function Stripped(r: Rules, toks: Tokens): Tokens
    requires r.Valid()
    decreases |toks|
  {
    var n := Drop(r, toks);
    if n == 0 then toks else Stripped(r, toks[n..])
  }

  /** Nothing more may be dropped. */
  ghost predicate Bare(r: Rules, toks: Tokens) {
    (forall p | p in r.articles :: !Leads(p, 1, toks)) && (forall p | p in r.titles :: !Leads(p, 2, toks))
  }

  /** `dropped` is articles and titles, one after another. */
  ghost predicate OnlyRules(r: Rules, dropped: Tokens)
    decreases |dropped|
  {
    dropped == [] ||
    exists n: nat :: 0 < n <= |dropped| && (dropped[..n] in r.articles || dropped[..n] in r.titles)
      && OnlyRules(r, dropped[n..])
  }

  lemma {:induction false} FirstLeadNone(list: seq<Tokens>, keep: nat, toks: Tokens)
    requires NoneEmpty(list)
    ensures FirstLead(list, keep, toks) == 0 <==> forall p | p in list :: !Leads(p, keep, toks)
  {
    if list != [] {
      assert list[0] in list && forall p | p in list[1..] :: p in list;
      assert list == [list[0]] + list[1..];
      FirstLeadNone(list[1..], keep, toks);
    }
  }

  lemma DropIs(r: Rules, toks: Tokens)
    requires r.Valid()
    ensures Drop(r, toks) == 0 <==> Bare(r, toks)
    ensures Drop(r, toks) > 0 ==>
              var p := toks[..Drop(r, toks)];
              (p in r.articles || p in r.titles) && Drop(r, toks) < |toks|
  {
    FirstLeadNone(r.articles, 1, toks);
    FirstLeadNone(r.titles, 2, toks);
  }

  /** Something is dropped exactly when the name is an article and at least one more token, or
      a title and at least two. */
  lemma DroppedIff(r: Rules, toks: Tokens)
    requires r.Valid()
    ensures Drop(r, toks) > 0 <==>
              || (exists p, rest :: p in r.articles && toks == p + rest && |rest| >= 1)
              || (exists p, rest :: p in r.titles && toks == p + rest && |rest| >= 2)
  {
    DropIs(r, toks);
    forall p: Tokens, keep: nat ensures Leads(p, keep, toks) <==> exists rest :: toks == p + rest && |rest| >= keep {
      if Leads(p, keep, toks) {
        assert toks == p + toks[|p|..];
      }
    }
    hide Leads, Drop;
  }

  /** Dropping leaves the end of the name, never nothing; what goes is articles and titles
      only, and none is left that could go. */
  lemma {:induction false} StrippedIs(r: Rules, toks: Tokens) returns (dropped: Tokens)
    requires r.Valid()
    ensures toks == dropped + Stripped(r, toks) && OnlyRules(r, dropped)
    ensures Bare(r, Stripped(r, toks))
    ensures toks != [] ==> Stripped(r, toks) != []
    decreases |toks|
  {
    DropIs(r, toks);
    hide Drop, Bare;
    var n := Drop(r, toks);
    if n == 0 {
      dropped := [];
    } else {
      var rest := StrippedIs(r, toks[n..]);
      dropped := toks[..n] + rest;
      OneMoreRule(r, toks[..n], rest);
      var left := Stripped(r, toks);
      Glue(toks, n, rest, left);
    }
  }

  lemma Glue(toks: Tokens, n: nat, rest: Tokens, left: Tokens)
    requires n <= |toks| && toks[n..] == rest + left
    ensures toks == toks[..n] + rest + left
  {
    assert toks == toks[..n] + toks[n..];
  }

  lemma OneMoreRule(r: Rules, p: Tokens, rest: Tokens)
    requires p != [] && (p in r.articles || p in r.titles) && OnlyRules(r, rest)
    ensures OnlyRules(r, p + rest)
  {
    var all := p + rest;
    assert all[..|p|] == p && all[|p|..] == rest;
  }

  /** A bare name stays as it is: stripping twice is stripping once. */
  lemma StrippedTwice(r: Rules, toks: Tokens)
    requires r.Valid()
    ensures Stripped(r, Stripped(r, toks)) == Stripped(r, toks)
    ensures Bare(r, toks) <==> Stripped(r, toks) == toks
  {
    var dropped := StrippedIs(r, toks);
    var bare := Stripped(r, toks);
    DropIs(r, bare);
    DropIs(r, toks);
  }

  method Strip(r: Rules, tokens: Tokens) returns (toks: Tokens)
    requires r.Valid()
    ensures toks == Stripped(r, tokens)
  {
    toks := tokens;
    var again := true;
    while again
      invariant Stripped(r, toks) == Stripped(r, tokens)
      invariant !again ==> Drop(r, toks) == 0
      decreases |toks|, again
    {
      again := false;
      var n := First(r.articles, 1, toks);
      if n == 0 {
        n := First(r.titles, 2, toks);
      }
      if n > 0 {
        toks := toks[n..];
        again := true;
      }
    }
  }

  method First(list: seq<Tokens>, keep: nat, toks: Tokens) returns (n: nat)
    requires NoneEmpty(list)
    ensures n == FirstLead(list, keep, toks)
  {
    for i := 0 to |list|
      invariant NoneEmpty(list[i..]) && FirstLead(list, keep, toks) == FirstLead(list[i..], keep, toks)
    {
      if Leads(list[i], keep, toks) {
        return |list[i]|;
      }
    }
    n := 0;
  }

  function Concat(toks: Tokens): string {
    if toks == [] then "" else toks[0] + Concat(toks[1..])
  }

  lemma {:induction false} ConcatIs(a: Tokens, x: string, b: Tokens)
    ensures Concat(a + [x] + b) == Concat(a) + x + Concat(b)
  {
    var all := a + [x] + b;
    if a == [] {
      assert all[0] == x && all[1..] == b;
    } else {
      assert all[0] == a[0] && all[1..] == a[1..] + [x] + b;
      ConcatIs(a[1..], x, b);
    }
  }

  function Letters(s: string, alnum: char -> bool): string {
    if s == "" then "" else (if alnum(s[0]) then [s[0]] else "") + Letters(s[1..], alnum)
  }

  function Key(r: Rules, display: string, toks: Tokens, alnum: char -> bool): string
    requires r.Valid()
  {
    if display in r.keepDistinct then display
    else
      var k := Letters(Concat(Stripped(r, toks)), alnum);
      if k == "" then display else k
  }

  /** A key is of letters and digits only, unless it is the display form itself. */
  lemma {:induction false} LettersAre(s: string, alnum: char -> bool)
    ensures forall c | c in Letters(s, alnum) :: alnum(c) && c in s
    ensures Letters(s, alnum) == "" <==> forall c | c in s :: !alnum(c)
  {
    if s != "" {
      LettersAre(s[1..], alnum);
      assert s == [s[0]] + s[1..];
    }
  }

  /** A name with leading articles and titles has the key of the name without them, unless
      one of the two is kept distinct and the other's letters differ from it, or the name has
      no letter or digit and the two are written differently. */
  lemma KeyOfBareName(r: Rules, display: string, bareDisplay: string, toks: Tokens, alnum: char -> bool)
    requires r.Valid()
    ensures var letters := Letters(Concat(Stripped(r, toks)), alnum);
            var own, bare := display in r.keepDistinct || letters == "", bareDisplay in r.keepDistinct || letters == "";
            && (Key(r, display, toks, alnum) == Key(r, bareDisplay, Stripped(r, toks), alnum) <==>
                  || (!own && !bare) || (own && bare && display == bareDisplay)
                  || (own && !bare && display == letters) || (!own && bare && bareDisplay == letters))
            && (letters == "" <==> forall c | c in Concat(Stripped(r, toks)) :: !alnum(c))
            && (!own ==> forall c | c in Key(r, display, toks, alnum) :: alnum(c))
  {
    StrippedTwice(r, toks);
    LettersAre(Concat(Stripped(r, toks)), alnum);
  }
}
