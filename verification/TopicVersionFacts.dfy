/** What the topics version tells apart, and what it does not depend on. */
module TopicVersionFacts {
  import opened Wrappers
  import opened Ordering
  import opened Text
  import opened TopicVersion
  import opened Utf8

  // ── Order and dormancy do not matter ──

  ghost predicate UniqueDefs(defs: seq<TopicDef>) {
    forall i, j | 0 <= i < j < |defs| :: defs[i].name != defs[j].name
  }

  lemma SameNameSameDef(defs: seq<TopicDef>, a: TopicDef, b: TopicDef)
    requires UniqueDefs(defs) && a in defs && b in defs && a.name == b.name
    ensures a == b
  {
    var i :| 0 <= i < |defs| && defs[i] == a;
    var j :| 0 <= j < |defs| && defs[j] == b;
  }

  lemma PermutedDefs(defs: seq<TopicDef>, perm: seq<TopicDef>)
    requires UniqueDefs(defs) && multiset(defs) == multiset(perm)
    ensures UniqueDefs(perm)
  {
    PermutedNoDup(defs, perm);
    forall i, j | 0 <= i < j < |perm| ensures perm[i].name != perm[j].name {
      assert perm[i] in multiset(perm) && perm[j] in multiset(perm);
    }
  }

  lemma {:induction false} DedupUnique(defs: seq<TopicDef>)
    requires UniqueDefs(defs)
    ensures Dedup(defs) == defs
    decreases |defs|
  {
    if |defs| >= 2 {
      assert defs == [defs[0]] + defs[1..];
      DedupUnique(defs[1..]);
    }
  }

  lemma ByNameIsTotal()
    ensures TotalPreorder(ByName())
  {
    forall a, b ensures ByName()(a, b) || ByName()(b, a) { LeTotal(a.name, b.name); }
    forall a, b, c | ByName()(a, b) && ByName()(b, c) ensures ByName()(a, c) { LeTransitive(a.name, b.name, c.name); }
  }

  lemma TidyIs(defs: seq<TopicDef>)
    requires UniqueDefs(defs)
    ensures multiset(Tidy(defs)) == multiset(defs) && UniqueDefs(Tidy(defs))
    ensures Sorted(Tidy(defs), ByName())
  {
    ByNameIsTotal();
    SortOk(defs, ByName());
    PermutedDefs(defs, Sort(defs, ByName()));
    DedupUnique(Sort(defs, ByName()));
  }

  /** Sorting uniquely named definitions gives one result, whatever order they came in. */
  lemma TidyCanonical(a: seq<TopicDef>, b: seq<TopicDef>)
    requires UniqueDefs(a) && multiset(a) == multiset(b)
    ensures Tidy(a) == Tidy(b)
  {
    PermutedDefs(a, b);
    TidyIs(a);
    TidyIs(b);
    ByNameIsTotal();
    var s, t := Tidy(a), Tidy(b);
    forall x, y | x in s && y in s && ByName()(x, y) && ByName()(y, x) ensures x == y {
      LeAntisymmetric(x.name, y.name);
      SameNameSameDef(s, x, y);
    }
    SortedUnique(s, t, ByName());
  }

  lemma CountedIs(defs: seq<TopicDef>, dormant: seq<TopicDef>)
    requires UniqueDefs(defs + dormant)
    ensures Counted(defs, dormant) == Tidy(defs + dormant)
  {
    assert UniqueDefs(defs) by {
      assert forall i | 0 <= i < |defs| :: (defs + dormant)[i] == defs[i];
    }
    TidyIs(defs);
    assert multiset(Tidy(defs) + dormant) == multiset(defs + dormant);
    TidyCanonical(defs + dormant, Tidy(defs) + dormant);
  }

  /** The version stays when definitions are reordered, or move between offered and
      dormant, as long as one is offered. */
  lemma VersionIgnoresOrderAndDormancy(defs: seq<TopicDef>, dormant: seq<TopicDef>,
                                       defs': seq<TopicDef>, dormant': seq<TopicDef>, skip: seq<SkipRule>)
    requires UniqueDefs(defs + dormant) && multiset(defs + dormant) == multiset(defs' + dormant')
    requires defs != [] && defs' != []
    ensures Stream(defs, skip, dormant) == Stream(defs', skip, dormant')
    ensures VersionOf(defs, skip, dormant) == VersionOf(defs', skip, dormant')
  {
    PermutedDefs(defs + dormant, defs' + dormant');
    CountedIs(defs, dormant);
    CountedIs(defs', dormant');
    TidyCanonical(defs + dormant, defs' + dormant');
  }

  // ── The stream can be read back ──

  const UNIT: char := '\U{1F}'
  const RECORD: char := '\U{1E}'

  predicate Clean(s: string) {
    UNIT !in s && RECORD !in s
  }

  lemma FirstBreak(c: char, a: string, x: string, b: string, y: string)
    requires c !in a && c !in b
    requires a + [c] + x == b + [c] + y
    ensures a == b && x == y
  {
    var s := a + [c] + x;
    assert s[|a|] == c && s[|b|] == c;
    assert |b| <= |a| by {
      assert forall i | 0 <= i < |b| :: s[i] == b[i] && b[i] != c;
    }
    assert |a| <= |b| by {
      assert forall i | 0 <= i < |a| :: s[i] == a[i] && a[i] != c;
    }
    assert a == s[..|a|] && b == s[..|b|];
    assert x == s[|a| + 1..] && y == s[|b| + 1..];
  }

  lemma {:induction false} EndedInjective(r: seq<string>, r': seq<string>)
    requires forall s | s in r :: RECORD !in s
    requires forall s | s in r' :: RECORD !in s
    requires Ended(r) == Ended(r')
    ensures r == r'
  {
    if r != [] && r' != [] {
      assert RS == [RECORD];
      FirstBreak(RECORD, r[0], Ended(r[1..]), r'[0], Ended(r'[1..]));
      EndedInjective(r[1..], r'[1..]);
      assert r == [r[0]] + r[1..] && r' == [r'[0]] + r'[1..];
    }
  }

  lemma HasUnit(a: string, f: seq<string>)
    requires UNIT !in a
    ensures UNIT in a + Separated(f) <==> f != []
  {
    assert US == [UNIT];
    if f != [] {
      assert (a + Separated(f))[|a|] == UNIT;
    }
  }

  lemma {:induction false} SeparatedInjective(a: string, f: seq<string>, a': string, f': seq<string>)
    requires UNIT !in a && UNIT !in a'
    requires forall s | s in f + f' :: UNIT !in s
    requires a + Separated(f) == a' + Separated(f')
    ensures a == a' && f == f'
    decreases |f|
  {
    assert US == [UNIT];
    HasUnit(a, f);
    HasUnit(a', f');
    if f == [] {
      assert a + "" == a && a' + "" == a';
    } else {
      var rest, rest' := f[0] + Separated(f[1..]), f'[0] + Separated(f'[1..]);
      assert a + Separated(f) == a + [UNIT] + rest;
      assert a' + Separated(f') == a' + [UNIT] + rest';
      FirstBreak(UNIT, a, rest, a', rest');
      assert f[0] in f + f' && f'[0] in f + f';
      forall s | s in f[1..] + f'[1..] ensures UNIT !in s {
        assert s in f + f';
      }
      SeparatedInjective(f[0], f[1..], f'[0], f'[1..]);
      assert f == [f[0]] + f[1..] && f' == [f'[0]] + f'[1..];
    }
  }

  lemma {:induction false} SeparatedClean(fields: seq<string>)
    requires forall s | s in fields :: RECORD !in s
    ensures RECORD !in Separated(fields)
  {
    if fields != [] {
      SeparatedClean(fields[1..]);
    }
  }

  predicate FieldOf(s: string, r: MemberRule) {
    s == Field(r.noteType) || s == Field(r.sourceContext) || s == Field(r.contentContains)
  }

  lemma {:induction false} MemberFieldsAre(members: seq<MemberRule>)
    ensures |MemberFields(members)| == 3 * |members|
    ensures forall i | 0 <= i < |members| ::
              && MemberFields(members)[3 * i] == Field(members[i].noteType)
              && MemberFields(members)[3 * i + 1] == Field(members[i].sourceContext)
              && MemberFields(members)[3 * i + 2] == Field(members[i].contentContains)
    ensures forall s | s in MemberFields(members) :: exists r :: r in members && FieldOf(s, r)
  {
    if members != [] {
      MemberFieldsAre(members[1..]);
      assert members == [members[0]] + members[1..];
      var head := [Field(members[0].noteType), Field(members[0].sourceContext), Field(members[0].contentContains)];
      assert MemberFields(members) == head + MemberFields(members[1..]);
      forall i | 1 <= i < |members|
        ensures MemberFields(members)[3 * i] == Field(members[i].noteType)
        ensures MemberFields(members)[3 * i + 1] == Field(members[i].sourceContext)
        ensures MemberFields(members)[3 * i + 2] == Field(members[i].contentContains)
      {
        assert members[i] == members[1..][i - 1];
        assert MemberFields(members)[3 * i] == MemberFields(members[1..])[3 * (i - 1)];
      }
      forall s | s in MemberFields(members)
        ensures exists r :: r in members && FieldOf(s, r)
      {
        if s in head {
          assert members[0] in members && FieldOf(s, members[0]);
        }
      }
    }
  }

  // ── What the version means ──

  /** Two member rules say the same, a missing field counting as an empty one. */
  predicate SameRule(a: MemberRule, b: MemberRule) {
    && Field(a.noteType) == Field(b.noteType)
    && Field(a.sourceContext) == Field(b.sourceContext)
    && Field(a.contentContains) == Field(b.contentContains)
  }

  /** Two definitions classify alike: name, trimmed description and, for a rules topic,
      its rules. Captions, links, aliases and the plugin do not count. */
  predicate SameTopic(a: TopicDef, b: TopicDef) {
    && a.name == b.name
    && Trim(a.description) == Trim(b.description)
    && a.assign == b.assign
    && (a.assign == Rules ==>
          |a.members| == |b.members| && forall i | 0 <= i < |a.members| :: SameRule(a.members[i], b.members[i]))
  }

  predicate SameSkip(a: SkipRule, b: SkipRule) {
    Field(a.noteType) == Field(b.noteType) && Field(a.sourceContext) == Field(b.sourceContext)
  }

  /** No field holds a separator. */
  ghost predicate CleanTopic(d: TopicDef) {
    && Clean(d.name) && Clean(Trim(d.description))
    && forall r | r in d.members ::
      Clean(Field(r.noteType)) && Clean(Field(r.sourceContext)) && Clean(Field(r.contentContains))
  }

  ghost predicate CleanSkip(r: SkipRule) {
    Clean(Field(r.noteType)) && Clean(Field(r.sourceContext))
  }

  ghost predicate CleanAll(defs: seq<TopicDef>, skip: seq<SkipRule>) {
    (forall d | d in defs :: CleanTopic(d)) && forall r | r in skip :: CleanSkip(r)
  }

  lemma TopicFieldsClean(d: TopicDef)
    requires CleanTopic(d)
    ensures forall s | s in TopicFields(d) :: Clean(s)
    ensures RECORD !in TopicRecord(d)
  {
    MemberFieldsAre(d.members);
    forall s | s in TopicFields(d) ensures Clean(s) {
      assert s == Trim(d.description) || s == "rules" || s in MemberFields(d.members);
    }
    SeparatedClean(TopicFields(d));
  }

  lemma TopicRecordInjective(a: TopicDef, b: TopicDef)
    requires CleanTopic(a) && CleanTopic(b)
    ensures TopicRecord(a) == TopicRecord(b) <==> SameTopic(a, b)
  {
    TopicFieldsClean(a);
    TopicFieldsClean(b);
    MemberFieldsAre(a.members);
    MemberFieldsAre(b.members);
    if TopicRecord(a) == TopicRecord(b) {
      SeparatedInjective(a.name, TopicFields(a), b.name, TopicFields(b));
      SameFields(a, b);
    }
    if SameTopic(a, b) && a.assign == Rules {
      SameMembers(a.members, b.members);
    }
  }

  lemma SameFields(a: TopicDef, b: TopicDef)
    requires a.name == b.name && TopicFields(a) == TopicFields(b)
    ensures SameTopic(a, b)
  {
    MemberFieldsAre(a.members);
    MemberFieldsAre(b.members);
    assert TopicFields(a)[0] == Trim(a.description) && TopicFields(b)[0] == Trim(b.description);
    assert |TopicFields(a)| == |TopicFields(b)|;
    if a.assign == Rules {
      assert TopicFields(a)[2..] == MemberFields(a.members) && TopicFields(b)[2..] == MemberFields(b.members);
      forall i | 0 <= i < |a.members| ensures SameRule(a.members[i], b.members[i]) {
        assert MemberFields(a.members)[3 * i] == MemberFields(b.members)[3 * i];
      }
    }
  }

  lemma {:induction false} SameMembers(a: seq<MemberRule>, b: seq<MemberRule>)
    requires |a| == |b| && forall i | 0 <= i < |a| :: SameRule(a[i], b[i])
    ensures MemberFields(a) == MemberFields(b)
  {
    if a != [] {
      assert SameRule(a[0], b[0]);
      forall i | 0 <= i < |a[1..]| ensures SameRule(a[1..][i], b[1..][i]) {
        assert SameRule(a[i + 1], b[i + 1]);
      }
      SameMembers(a[1..], b[1..]);
    }
  }

  lemma SkipRecordInjective(a: SkipRule, b: SkipRule)
    requires CleanSkip(a) && CleanSkip(b)
    ensures SkipRecord(a) == SkipRecord(b) <==> SameSkip(a, b)
    ensures RECORD !in SkipRecord(a)
  {
    var f, f' := [Field(a.noteType), Field(a.sourceContext)], [Field(b.noteType), Field(b.sourceContext)];
    SeparatedClean(f);
    if SkipRecord(a) == SkipRecord(b) {
      SeparatedInjective("skip", f, "skip", f');
    }
  }

  /** A rules topic named `skip` with no rules: its record is that of a skip rule. */
  predicate BareSkip(d: TopicDef) {
    d.name == "skip" && d.assign == Rules && d.members == []
  }

  /** By name it is the last one counted. */
  predicate EndsInSkip(counted: seq<TopicDef>) {
    counted != [] && BareSkip(counted[|counted| - 1])
  }

  function RuleFor(d: TopicDef): SkipRule {
    SkipRule(Some(Trim(d.description)), Some("rules"))
  }

  /** A topic's record is a skip rule's exactly for such a topic and the rule it reads as. */
  lemma TopicIsSkipIff(d: TopicDef, r: SkipRule)
    requires CleanTopic(d) && CleanSkip(r)
    ensures TopicRecord(d) == SkipRecord(r) <==> BareSkip(d) && SameSkip(r, RuleFor(d))
  {
    TopicFieldsClean(d);
    MemberFieldsAre(d.members);
    var f := [Field(r.noteType), Field(r.sourceContext)];
    if TopicRecord(d) == SkipRecord(r) {
      SeparatedInjective(d.name, TopicFields(d), "skip", f);
      assert |TopicFields(d)| == 2 && TopicFields(d)[0] == f[0] && TopicFields(d)[1] == f[1];
    }
    if BareSkip(d) {
      assert TopicFields(d) == [Trim(d.description), "rules"];
    }
  }

  ghost predicate SameCounted(c: seq<TopicDef>, c': seq<TopicDef>) {
    |c| == |c'| && forall i | 0 <= i < |c| :: SameTopic(c[i], c'[i])
  }

  ghost predicate SameScope(s: seq<SkipRule>, s': seq<SkipRule>) {
    |s| == |s'| && forall i | 0 <= i < |s| :: SameSkip(s[i], s'[i])
  }

  lemma RecordsClean(c: seq<TopicDef>, s: seq<SkipRule>)
    requires CleanAll(c, s)
    ensures forall r | r in TopicRecords(c) + SkipRecords(s) :: RECORD !in r
  {
    var all := TopicRecords(c) + SkipRecords(s);
    forall r | r in all ensures RECORD !in r {
      var i :| 0 <= i < |all| && all[i] == r;
      if i < |c| {
        TopicFieldsClean(c[i]);
      } else {
        SkipRecordInjective(s[i - |c|], s[i - |c|]);
      }
    }
  }

  lemma NoMoreTopics(c: seq<TopicDef>, s: seq<SkipRule>, c': seq<TopicDef>, s': seq<SkipRule>)
    requires CleanAll(c, s) && CleanAll(c', s') && !EndsInSkip(c')
    requires TopicRecords(c) + SkipRecords(s) == TopicRecords(c') + SkipRecords(s')
    ensures |c| >= |c'|
  {
    if |c| < |c'| {
      var n := |c'| - 1;
      assert (TopicRecords(c') + SkipRecords(s'))[n] == TopicRecord(c'[n]);
      assert (TopicRecords(c) + SkipRecords(s))[n] == SkipRecord(s[n - |c|]);
      TopicIsSkipIff(c'[n], s[n - |c|]);
    }
  }

  /** The byte stream tells apart exactly what classifies differently: two clean sets of
      counted topics and scopes, with no bare topic `skip` at the end, have one stream if and
      only if they say the same. */
  lemma StreamTellsApart(c: seq<TopicDef>, s: seq<SkipRule>, c': seq<TopicDef>, s': seq<SkipRule>)
    requires CleanAll(c, s) && CleanAll(c', s') && !EndsInSkip(c) && !EndsInSkip(c')
    ensures StreamOf(c, s) == StreamOf(c', s') <==> SameCounted(c, c') && SameScope(s, s')
    ensures Encode(StreamOf(c, s)) == Encode(StreamOf(c', s')) <==> SameCounted(c, c') && SameScope(s, s')
  {
    TextsTellApart(c, s, c', s');
    if Encode(StreamOf(c, s)) == Encode(StreamOf(c', s')) {
      Injective(StreamOf(c, s), StreamOf(c', s'));
    }
  }

  lemma TextsTellApart(c: seq<TopicDef>, s: seq<SkipRule>, c': seq<TopicDef>, s': seq<SkipRule>)
    requires CleanAll(c, s) && CleanAll(c', s') && !EndsInSkip(c) && !EndsInSkip(c')
    ensures StreamOf(c, s) == StreamOf(c', s') <==> SameCounted(c, c') && SameScope(s, s')
  {
    var all, all' := TopicRecords(c) + SkipRecords(s), TopicRecords(c') + SkipRecords(s');
    if StreamOf(c, s) == StreamOf(c', s') {
      RecordsClean(c, s);
      RecordsClean(c', s');
      EndedInjective(all, all');
      NoMoreTopics(c, s, c', s');
      NoMoreTopics(c', s', c, s);
      forall i | 0 <= i < |c| ensures SameTopic(c[i], c'[i]) {
        assert all[i] == all'[i];
        TopicRecordInjective(c[i], c'[i]);
      }
      forall i | 0 <= i < |s| ensures SameSkip(s[i], s'[i]) {
        assert all[|c| + i] == all'[|c| + i];
        SkipRecordInjective(s[i], s'[i]);
      }
    }
    if SameCounted(c, c') && SameScope(s, s') {
      forall i | 0 <= i < |c| ensures TopicRecord(c[i]) == TopicRecord(c'[i]) {
        TopicRecordInjective(c[i], c'[i]);
      }
      forall i | 0 <= i < |s| ensures SkipRecord(s[i]) == SkipRecord(s'[i]) {
        SkipRecordInjective(s[i], s'[i]);
      }
      assert TopicRecords(c) == TopicRecords(c') && SkipRecords(s) == SkipRecords(s');
    }
  }

  /** A bare topic `skip` at the end reads as one more skip rule at the front. */
  lemma SkipTopicReadsAsRule(c: seq<TopicDef>, s: seq<SkipRule>)
    requires EndsInSkip(c)
    ensures var n := |c| - 1; StreamOf(c, s) == StreamOf(c[..n], [RuleFor(c[n])] + s)
  {
    var n := |c| - 1;
    var d, r := c[n], RuleFor(c[n]);
    assert TopicFields(d) == [Trim(d.description), "rules"];
    assert TopicRecord(d) == SkipRecord(r);
    hide TopicRecord, SkipRecord, Trim;
    assert TopicRecords(c) == TopicRecords(c[..n]) + [TopicRecord(d)];
    assert SkipRecords([r] + s) == [SkipRecord(r)] + SkipRecords(s);
    assert TopicRecords(c) + SkipRecords(s) == TopicRecords(c[..n]) + SkipRecords([r] + s);
  }

  /** So the stream of a clean set is its own among those of all clean sets without such an
      end exactly when it has no such end itself. */
  lemma TellsApartIff(c: seq<TopicDef>, s: seq<SkipRule>)
    requires CleanAll(c, s) && UniqueDefs(c)
    ensures !EndsInSkip(c) <==>
            forall c', s' | CleanAll(c', s') && !EndsInSkip(c') ::
              StreamOf(c, s) == StreamOf(c', s') ==> SameCounted(c, c') && SameScope(s, s')
  {
    if EndsInSkip(c) {
      var n := |c| - 1;
      var c', s' := c[..n], [RuleFor(c[n])] + s;
      SkipTopicReadsAsRule(c, s);
      assert c[n] in c && forall d | d in c' :: d in c;
      assert Clean("rules");
      assert CleanAll(c', s');
      if n > 0 {
        assert c[n - 1].name != c[n].name;
      }
      assert !EndsInSkip(c') && !SameCounted(c, c');
    } else {
      forall c', s' | CleanAll(c', s') && !EndsInSkip(c') && StreamOf(c, s) == StreamOf(c', s')
        ensures SameCounted(c, c') && SameScope(s, s')
      {
        TextsTellApart(c, s, c', s');
      }
    }
  }

  lemma TidyPair(a: TopicDef, b: TopicDef)
    requires Le(a.name, b.name) && a.name != b.name
    ensures Tidy([a, b]) == [a, b] && Tidy([a]) == [a]
  {
    assert [a, b][1..] == [b] && [b][1..] == [] && [a][1..] == [];
    assert Sort([b], ByName()) == [b];
    assert Insert(a, [b], ByName()) == [a] + [b];
    assert Sort([a, b], ByName()) == [a] + [b];
    DedupUnique([a, b]);
  }

  /** A topic may be named `skip`, and then its record can be read as a skip rule: two
      different sets of definitions with one version. */
  lemma SkipTopicCollides()
    ensures var news := TopicDef("news", "", "n", [], Classifier, [], None, [], None);
            var odd := TopicDef("skip", "", "episodic", [], Rules, [], None, [], None);
            var rule := SkipRule(Some("episodic"), Some("rules"));
            VersionOf([news, odd], [], []) == VersionOf([news], [rule], [])
  {
    var news := TopicDef("news", "", "n", [], Classifier, [], None, [], None);
    var odd := TopicDef("skip", "", "episodic", [], Rules, [], None, [], None);
    var rule := SkipRule(Some("episodic"), Some("rules"));
    CountedIs([news, odd], []);
    CountedIs([news], []);
    assert [news, odd] + [] == [news, odd] && [news] + [] == [news];
    TidyPair(news, odd);
    assert TrimStart("episodic") == "episodic" && TrimEnd("episodic") == "episodic";
    assert Separated(["episodic", "rules"][1..]) == US + "rules";
    assert TopicFields(odd) == ["episodic", "rules"];
    assert TopicRecord(odd) == SkipRecord(rule);
    hide TopicRecord, SkipRecord, Tidy, TrimStart, TrimEnd, Separated, HashFrom;
    assert TopicRecords([news, odd]) + SkipRecords([]) == [TopicRecord(news), TopicRecord(odd)];
    assert TopicRecords([news]) + SkipRecords([rule]) == [TopicRecord(news), SkipRecord(rule)];
  }
}
