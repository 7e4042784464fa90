/** What every plan of `plan_merges` is like, for any entities and aliases. */
module MergePlanFacts {
  import opened Wrappers
  import opened Ordering
  import opened MergePlan

  /** Entity names are unique in the database. */
  ghost predicate UniqueNames(rows: seq<EntityRow>) {
    forall i, j | 0 <= i < j < |rows| :: rows[i].name != rows[j].name
  }

  ghost predicate UniqueSources(merges: seq<PlannedMerge>) {
    forall i, j | 0 <= i < j < |merges| :: merges[i].from != merges[j].from
  }

  lemma SameNameSameRow(rows: seq<EntityRow>, a: EntityRow, b: EntityRow)
    requires UniqueNames(rows) && a in rows && b in rows && a.name == b.name
    ensures a == b
  {
    var i :| 0 <= i < |rows| && rows[i] == a;
    var j :| 0 <= j < |rows| && rows[j] == b;
  }

  lemma NameTells(rows: seq<EntityRow>, a: EntityRow, b: EntityRow)
    requires UniqueNames(rows) && a in rows && b in rows
    ensures a.name == b.name <==> a == b
  {
    if a.name == b.name {
      SameNameSameRow(rows, a, b);
    }
  }

  // ── First phase ──

  lemma {:induction false} SeedMergesAre(rows: seq<EntityRow>, entities: seq<EntityRow>, aliases: seq<AliasRow>)
    ensures forall m :: m in SeedMerges(rows, entities, aliases) <==>
              exists e :: e in rows && Folds(e, entities, aliases) && m == FoldOf(e, entities, aliases)
    ensures UniqueNames(rows) ==> UniqueSources(SeedMerges(rows, entities, aliases))
  {
    if rows != [] {
      var n := |rows| - 1;
      var before := SeedMerges(rows[..n], entities, aliases);
      SeedMergesAre(rows[..n], entities, aliases);
      assert rows == rows[..n] + [rows[n]];
      if UniqueNames(rows) && Folds(rows[n], entities, aliases) {
        forall i | 0 <= i < |before| ensures before[i].from != rows[n].name {
          assert before[i] in before;
          var e :| e in rows[..n] && Folds(e, entities, aliases) && before[i] == FoldOf(e, entities, aliases);
        }
      }
    }
  }

  // ── Second phase ──

  lemma {:induction false} MembersAre(rows: seq<EntityRow>, gone: set<Name>)
    ensures forall e :: e in Members(rows, gone) <==> e in rows && Groupable(e, gone)
    ensures UniqueNames(rows) ==> UniqueNames(Members(rows, gone))
  {
    if rows != [] {
      var n := |rows| - 1;
      MembersAre(rows[..n], gone);
      assert rows == rows[..n] + [rows[n]];
      var before := Members(rows[..n], gone);
      assert forall i | 0 <= i < |before| :: before[i] in before;
    }
  }

  lemma {:induction false} GroupIs(members: seq<EntityRow>, key: Key)
    ensures forall e :: e in GroupOf(members, key) <==> e in members && e.key == key
    ensures UniqueNames(members) ==> UniqueNames(GroupOf(members, key))
  {
    if members != [] {
      var n := |members| - 1;
      GroupIs(members[..n], key);
      assert members == members[..n] + [members[n]];
      var before := GroupOf(members[..n], key);
      assert forall i | 0 <= i < |before| :: before[i] in before;
    }
  }

  lemma {:induction false} KeysAre(members: seq<EntityRow>)
    ensures forall k :: k in DistinctKeys(members) <==> exists e :: e in members && e.key == k
    ensures NoDup(DistinctKeys(members))
  {
    if members != [] {
      var n := |members| - 1;
      KeysAre(members[..n]);
      assert members == members[..n] + [members[n]];
    }
  }

  lemma PermutedUnique(rows: seq<EntityRow>, perm: seq<EntityRow>)
    requires UniqueNames(rows) && multiset(rows) == multiset(perm)
    ensures UniqueNames(perm)
  {
    PermutedNoDup(rows, perm);
    forall i, j | 0 <= i < j < |perm| ensures perm[i].name != perm[j].name {
      assert perm[i] in multiset(perm) && perm[j] in multiset(perm);
      NameTells(rows, perm[i], perm[j]);
    }
  }

  /** The first of its group: the one no other outranks. */
  ghost predicate IsCanon(members: seq<EntityRow>, c: EntityRow) {
    c in members && forall x | x in members && x.key == c.key :: RankLe(c, x)
  }

  /** A member that is not the first of its group, nor seeded, nor folded by an alias. */
  ghost predicate NormFolds(seed: seq<PlannedMerge>, members: seq<EntityRow>, e: EntityRow, c: EntityRow) {
    && IsCanon(members, c)
    && e in members && e != c && e.key == c.key
    && !e.seeded && e.name !in Sources(seed)
  }

  function NormMerge(e: EntityRow, c: EntityRow): PlannedMerge {
    PlannedMerge(e.name, c.name, Normalise, None)
  }

  lemma RankedIs(members: seq<EntityRow>, key: Key)
    requires UniqueNames(members)
    ensures var g := Ranked(GroupOf(members, key));
            && (forall e :: e in g <==> e in members && e.key == key)
            && UniqueNames(g)
            && (g != [] ==> IsCanon(members, g[0])
                            && forall e :: e in g[1..] <==> e in members && e.key == key && e != g[0])
  {
    var group := GroupOf(members, key);
    var g := Ranked(group);
    GroupIs(members, key);
    RankIsTotal();
    SortOk(group, RankLe);
    PermutedUnique(group, g);
    if g != [] {
      assert g == [g[0]] + g[1..];
      forall e | e in g[1..] ensures e != g[0] {
        var i :| 0 <= i < |g[1..]| && g[1..][i] == e;
        assert g[i + 1] == e;
      }
      forall x | x in members && x.key == key ensures RankLe(g[0], x) {
        HeadFirst(g, RankLe, x);
      }
      assert g[0].key == key;
    }
  }

  lemma {:induction false} AddGroupIs(merges: seq<PlannedMerge>, canon: EntityRow, rest: seq<EntityRow>)
    ensures forall m :: m in AddGroup(merges, canon, rest) <==>
              m in merges ||
              exists e :: e in rest && !e.seeded && e.name !in Sources(merges) && m == NormMerge(e, canon)
    ensures UniqueSources(merges) ==> UniqueSources(AddGroup(merges, canon, rest))
  {
    if rest != [] {
      var n := |rest| - 1;
      AddGroupIs(merges, canon, rest[..n]);
      assert rest == rest[..n] + [rest[n]];
    }
  }

  ghost predicate KeyFolds(seed: seq<PlannedMerge>, members: seq<EntityRow>, keys: seq<Key>, m: PlannedMerge) {
    exists e: EntityRow, c: EntityRow :: e.key in keys && NormFolds(seed, members, e, c) && m == NormMerge(e, c)
  }

  lemma CanonUnique(members: seq<EntityRow>, c: EntityRow, d: EntityRow)
    requires UniqueNames(members) && IsCanon(members, c) && IsCanon(members, d) && c.key == d.key
    ensures c == d
  {
    assert RankLe(c, d) && RankLe(d, c);
    LeTotal(c.name, d.name);
    LeAntisymmetric(c.name, d.name);
    SameNameSameRow(members, c, d);
  }

  /** One more key adds exactly the folds of its group. */
  lemma GroupFolds(seed: seq<PlannedMerge>, members: seq<EntityRow>, before: seq<PlannedMerge>, keys: seq<Key>,
                   key: Key)
    requires UniqueNames(members) && key !in keys
    requires forall m :: m in before <==> m in seed || KeyFolds(seed, members, keys, m)
    ensures var g := Ranked(GroupOf(members, key));
            var after := if |g| < 2 then before else AddGroup(before, g[0], g[1..]);
            && (forall m :: m in after <==>
                            m in before ||
                            exists e: EntityRow, c: EntityRow ::
                              e.key == key && NormFolds(seed, members, e, c) && m == NormMerge(e, c))
            && (UniqueSources(before) ==> UniqueSources(after))
  {
    var g := Ranked(GroupOf(members, key));
    RankedIs(members, key);
    if |g| >= 2 {
      AddGroupIs(before, g[0], g[1..]);
      forall e | e in g[1..] ensures e.name in Sources(before) <==> e.name in Sources(seed) {
        assert e in g;
        forall e' | e' in members && e'.name == e.name ensures e' == e {
          NameTells(members, e, e');
        }
        forall m | m in before && m.from == e.name ensures !KeyFolds(seed, members, keys, m) {
        }
      }
    }
    forall e: EntityRow, c: EntityRow | e.key == key && NormFolds(seed, members, e, c)
      ensures |g| >= 2 && e in g[1..] && c == g[0]
    {
      assert e in g && c in g;
      CanonUnique(members, c, g[0]);
    }
  }

  lemma {:induction false} AddKeysIs(seed: seq<PlannedMerge>, members: seq<EntityRow>, keys: seq<Key>)
    requires UniqueNames(members)
    requires NoDup(keys)
    ensures forall m :: m in AddKeys(seed, members, keys) <==> m in seed || KeyFolds(seed, members, keys, m)
    ensures UniqueSources(seed) ==> UniqueSources(AddKeys(seed, members, keys))
  {
    if keys != [] {
      var n := |keys| - 1;
      AddKeysIs(seed, members, keys[..n]);
      GroupFolds(seed, members, AddKeys(seed, members, keys[..n]), keys[..n], keys[n]);
      assert keys == keys[..n] + [keys[n]];
    }
  }

  // ── Both phases together ──

  function SeedOf(entities: seq<EntityRow>, aliases: seq<AliasRow>): seq<PlannedMerge> {
    SeedMerges(entities, entities, aliases)
  }

  function MembersOf(entities: seq<EntityRow>, aliases: seq<AliasRow>): seq<EntityRow> {
    Members(entities, FullSources(SeedOf(entities, aliases)))
  }

  /** Entity `e` folds into `c` because they share a key. */
  ghost predicate KeyFold(entities: seq<EntityRow>, aliases: seq<AliasRow>, e: EntityRow, c: EntityRow) {
    NormFolds(SeedOf(entities, aliases), MembersOf(entities, aliases), e, c)
  }

  /** What the two phases propose: the fold of each aliased entity, and of each entity
      that shares its key with a better ranked one. */
  lemma ProposedAre(entities: seq<EntityRow>, aliases: seq<AliasRow>)
    requires UniqueNames(entities)
    ensures forall m :: m in Proposed(entities, aliases) <==>
              || (exists e :: e in entities && Folds(e, entities, aliases) && m == FoldOf(e, entities, aliases))
              || (exists e, c :: KeyFold(entities, aliases, e, c) && m == NormMerge(e, c))
    ensures UniqueSources(Proposed(entities, aliases))
  {
    var seed, members := SeedOf(entities, aliases), MembersOf(entities, aliases);
    var keys := SortedKeys(members);
    SeedMergesAre(entities, entities, aliases);
    MembersAre(entities, FullSources(seed));
    KeysAre(members);
    OrderIsTotal();
    SortOk(DistinctKeys(members), Le);
    PermutedNoDup(DistinctKeys(members), keys);
    AddKeysIs(seed, members, keys);
    forall e, c | NormFolds(seed, members, e, c) ensures e.key in keys {
    }
  }

  // ── Which entity of a key survives ──

  /** It can be folded by its key: no one split it out, the key is no number, and no alias
      folds it for good. */
  predicate TakesPart(e: EntityRow, entities: seq<EntityRow>, aliases: seq<AliasRow>) {
    && !e.distinct && (exists c | c in e.key :: c < '0' || c > '9')
    && (Folds(e, entities, aliases) ==> CapitalsOnly(e.key, aliases))
  }

  /** The first is curated and the second is not; or they do not differ in that and the first
      has more mentions; or neither in that, and its name is shorter, or as short and before
      the other's. */
  predicate Beats(a: EntityRow, b: EntityRow) {
    || (a.seeded && !b.seeded)
    || (a.seeded == b.seeded && a.mentions > b.mentions)
    || (a.seeded == b.seeded && a.mentions == b.mentions && ByteLength(a.name) < ByteLength(b.name))
    || (a.seeded == b.seeded && a.mentions == b.mentions && ByteLength(a.name) == ByteLength(b.name)
        && a.name != b.name && Le(a.name, b.name))
  }

  lemma BeatsIsRank(a: EntityRow, b: EntityRow)
    requires a.name != b.name
    ensures RankLe(a, b) <==> Beats(a, b)
  {
  }

  /** A merge by key goes into the entity of the key that beats all others: a curated one if
      there is one, else the most mentioned, else the one with the shortest name, else the
      first by name. */
  lemma NormalisedIntoBest(entities: seq<EntityRow>, aliases: seq<AliasRow>, m: PlannedMerge)
      returns (e: EntityRow, c: EntityRow)
    requires UniqueNames(entities) && m in Proposed(entities, aliases) && m.origin.Normalise?
    ensures e in entities && c in entities && m == PlannedMerge(e.name, c.name, Normalise, None)
    ensures e.key == c.key && e.name != c.name && !e.seeded
    ensures TakesPart(e, entities, aliases) && TakesPart(c, entities, aliases)
    ensures forall x | x in entities && TakesPart(x, entities, aliases) && x.key == c.key && x != c ::
              && (x.seeded ==> c.seeded)
              && (x.seeded == c.seeded ==> x.mentions <= c.mentions)
              && (x.seeded == c.seeded && x.mentions == c.mentions ==>
                    && ByteLength(c.name) <= ByteLength(x.name)
                    && (ByteLength(c.name) == ByteLength(x.name) ==> Le(c.name, x.name)))
  {
    ProposedAre(entities, aliases);
    hide Proposed, Folds, CapitalsOnly;
    e, c :| KeyFold(entities, aliases, e, c) && m == NormMerge(e, c);
    MembersAre(entities, FullSources(SeedOf(entities, aliases)));
    NameTells(entities, e, c);
    forall x | x in entities ensures x in MembersOf(entities, aliases) <==> TakesPart(x, entities, aliases) {
      FoldsInPhase(entities, aliases, x);
    }
    forall x | x in entities && TakesPart(x, entities, aliases) && x.key == c.key && x != c ensures Beats(c, x) {
      NameTells(entities, x, c);
      assert RankLe(c, x);
      BeatsIsRank(c, x);
    }
  }

  /** An entity is folded by its key exactly when it takes part, is not curated, no alias
      folds it at all, and another that takes part beats it. */
  lemma NormalisedIff(entities: seq<EntityRow>, aliases: seq<AliasRow>, e: EntityRow)
    requires UniqueNames(entities) && e in entities
    ensures (exists m :: m in Proposed(entities, aliases) && m.from == e.name && m.origin.Normalise?) <==>
              && TakesPart(e, entities, aliases) && !e.seeded && !Folds(e, entities, aliases)
              && exists x :: x in entities && TakesPart(x, entities, aliases) && x.key == e.key && Beats(x, e)
  {
    ProposedAre(entities, aliases);
    hide Proposed, CapitalsOnly, Folds;
    var members := MembersOf(entities, aliases);
    MembersAre(entities, FullSources(SeedOf(entities, aliases)));
    forall x | x in entities ensures x in members <==> TakesPart(x, entities, aliases) {
      FoldsInPhase(entities, aliases, x);
    }
    FoldsInPhase(entities, aliases, e);
    if m :| m in Proposed(entities, aliases) && m.from == e.name && m.origin.Normalise? {
      var x, c :| KeyFold(entities, aliases, x, c) && m == NormMerge(x, c);
      NameTells(entities, x, e);
      NameTells(entities, e, c);
      BeatsIsRank(c, e);
    }
    if TakesPart(e, entities, aliases) && !e.seeded && !Folds(e, entities, aliases) {
      if x :| x in entities && TakesPart(x, entities, aliases) && x.key == e.key && Beats(x, e) {
        var c := FirstOfKey(members, e);
        NameTells(entities, x, e);
        if c == e {
          CanonUnbeaten(members, e, x);
        }
        assert KeyFold(entities, aliases, e, c);
        assert NormMerge(e, c) in Proposed(entities, aliases);
      }
    }
  }

  lemma CanonUnbeaten(members: seq<EntityRow>, c: EntityRow, x: EntityRow)
    requires IsCanon(members, c) && x in members && x.key == c.key && x.name != c.name
    ensures !Beats(x, c)
  {
    assert RankLe(c, x);
    BeatsIsRank(c, x);
    if Beats(x, c) {
      BeatsIsRank(x, c);
      LeAntisymmetric(c.name, x.name);
    }
  }

  /** The best of the key of `e`. */
  lemma FirstOfKey(members: seq<EntityRow>, e: EntityRow) returns (c: EntityRow)
    requires UniqueNames(members) && e in members
    ensures IsCanon(members, c) && c.key == e.key
  {
    RankedIs(members, e.key);
    assert e in Ranked(GroupOf(members, e.key));
    c := Ranked(GroupOf(members, e.key))[0];
    assert c in Ranked(GroupOf(members, e.key));
  }

  lemma FoldsInPhase(entities: seq<EntityRow>, aliases: seq<AliasRow>, e: EntityRow)
    requires UniqueNames(entities) && e in entities
    ensures e.name in Sources(SeedOf(entities, aliases)) <==> Folds(e, entities, aliases)
    ensures e in MembersOf(entities, aliases) <==>
              !e.distinct && !AllDigits(e.key) && !(Folds(e, entities, aliases) && !CapitalsOnly(e.key, aliases))
  {
    var seed := SeedOf(entities, aliases);
    SeedMergesAre(entities, entities, aliases);
    MembersAre(entities, FullSources(seed));
    if Folds(e, entities, aliases) {
      assert FoldOf(e, entities, aliases) in seed;
    }
    forall m | m in seed && m.from == e.name ensures Folds(e, entities, aliases) && m == FoldOf(e, entities, aliases) {
      var x :| x in entities && Folds(x, entities, aliases) && m == FoldOf(x, entities, aliases);
      SameNameSameRow(entities, x, e);
    }
  }

  /** In a proposal the source is an entity that is neither seeded nor split out by a
      person, and the target another entity that exists. */
  lemma ProposedSound(entities: seq<EntityRow>, aliases: seq<AliasRow>, m: PlannedMerge)
    requires UniqueNames(entities) && m in Proposed(entities, aliases)
    ensures exists e :: e in entities && e.name == m.from && !e.seeded && !e.distinct
    ensures Named(entities, m.into) && m.into != m.from
  {
    ProposedAre(entities, aliases);
    if e :| e in entities && Folds(e, entities, aliases) && m == FoldOf(e, entities, aliases) {
    } else {
      var e, c :| KeyFold(entities, aliases, e, c) && m == NormMerge(e, c);
      MembersAre(entities, FullSources(SeedOf(entities, aliases)));
      if e.name == c.name {
        SameNameSameRow(entities, e, c);
      }
    }
  }

  // ── Chains ──

  /** The chain of full merges from `x` reaches `y` in `k` steps and goes no further. */
  predicate EndsIn(full: map<Name, Name>, x: Name, y: Name, k: nat)
    decreases k
  {
    if x in full then k > 0 && EndsIn(full, full[x], y, k - 1) else k == 0 && x == y
  }

  ghost predicate EndsAt(full: map<Name, Name>, x: Name, y: Name) {
    exists k: nat :: EndsIn(full, x, y, k)
  }

  lemma {:induction false} EndsOnce(full: map<Name, Name>, x: Name, y: Name, k: nat, y': Name, k': nat)
    requires EndsIn(full, x, y, k) && EndsIn(full, x, y', k')
    ensures y == y' && k == k'
    decreases k
  {
    if x in full {
      EndsOnce(full, full[x], y, k - 1, y', k' - 1);
    }
  }

  /** Everything passed on the way, and the source when it is being folded away, is
      further from the end than `k`. */
  ghost predicate Farther(full: map<Name, Name>, x: Name, y: Name, k: nat) {
    exists d: nat :: d > k && EndsIn(full, x, y, d)
  }

  lemma {:induction false} FollowReachesEnd(full: map<Name, Name>, from: Name, x: Name, seen: set<Name>, y: Name,
                                            k: nat)
    requires EndsIn(full, x, y, k) && y != from
    requires forall s | s in seen :: Farther(full, s, y, k)
    requires from in full ==> Farther(full, from, y, k)
    ensures Follow(full, from, x, seen) == y
    decreases k
  {
    if x in full {
      if x in seen {
        var d: nat :| d > k && EndsIn(full, x, y, d);
        EndsOnce(full, x, y, k, y, d);
      }
      if full[x] == from && from in full {
        var d: nat :| d > k && EndsIn(full, from, y, d);
        EndsOnce(full, from, y, k - 1, y, d);
      }
      forall s | s in seen + {x} ensures Farther(full, s, y, k - 1) {
        if s in seen {
          var d: nat :| d > k && EndsIn(full, s, y, d);
        } else {
          assert EndsIn(full, x, y, k);
        }
      }
      if from in full {
        var d: nat :| d > k && EndsIn(full, from, y, d);
        assert Farther(full, from, y, k - 1);
      }
      FollowReachesEnd(full, from, full[x], seen + {x}, y, k - 1);
    }
  }

  lemma {:induction false} FollowStays(full: map<Name, Name>, from: Name, x: Name, seen: set<Name>)
    requires x != from
    ensures Follow(full, from, x, seen) != from
    ensures Follow(full, from, x, seen) !in full ==> EndsAt(full, x, Follow(full, from, x, seen))
    ensures Follow(full, from, x, seen) == x || Follow(full, from, x, seen) in full.Values
    decreases full.Keys - seen
  {
    if x !in full {
      assert EndsIn(full, x, x, 0);
    } else if x !in seen && full[x] != from {
      FollowStays(full, from, full[x], seen + {x});
      var y := Follow(full, from, full[x], seen + {x});
      if y !in full {
        var k: nat :| EndsIn(full, full[x], y, k);
        assert EndsIn(full, x, y, k + 1);
      }
    }
  }

  /** Where a merge is sent: to the end of the chain from its first target, exactly when
      the chain has an end and that is not the source itself. Otherwise (a cycle) it is
      left pointing at an entity that another full merge removes. */
  lemma FollowExact(full: map<Name, Name>, from: Name, into: Name)
    requires into != from && (from in full ==> full[from] == into)
    ensures var x := Follow(full, from, into, {});
            && x != from
            && (x !in full <==> exists y :: EndsAt(full, into, y) && y != from)
            && (x !in full ==> EndsAt(full, into, x))
  {
    FollowStays(full, from, into, {});
    if y :| EndsAt(full, into, y) && y != from {
      var k: nat :| EndsIn(full, into, y, k);
      if from in full {
        assert EndsIn(full, from, y, k + 1);
      }
      FollowReachesEnd(full, from, into, {}, y, k);
      EndIsOut(full, into, y, k);
    }
  }

  lemma {:induction false} EndIsOut(full: map<Name, Name>, x: Name, y: Name, k: nat)
    requires EndsIn(full, x, y, k)
    ensures y !in full
    decreases k
  {
    if x in full {
      EndIsOut(full, full[x], y, k - 1);
    }
  }

  // ── The whole plan ──

  lemma {:induction false} FullMapIs(merges: seq<PlannedMerge>)
    requires UniqueSources(merges)
    ensures forall x :: x in FullMap(merges) <==> x in FullSources(merges)
    ensures forall m | m in merges && m.onlyUpper.None? :: FullMap(merges)[m.from] == m.into
    ensures forall m | m in merges && m.onlyUpper.Some? :: m.from !in FullMap(merges)
  {
    if merges != [] {
      var n := |merges| - 1;
      FullMapIs(merges[..n]);
      assert merges == merges[..n] + [merges[n]];
      forall m | m in merges[..n] ensures m.from != merges[n].from {
      }
    }
  }

  lemma {:induction false} RetainedAll(merges: seq<PlannedMerge>)
    requires forall m | m in merges :: m.from != m.into
    ensures Retained(merges) == merges
  {
    if merges != [] {
      var n := |merges| - 1;
      RetainedAll(merges[..n]);
      assert merges[n] in merges;
      assert merges == merges[..n] + [merges[n]];
    }
  }

  function FullOf(entities: seq<EntityRow>, aliases: seq<AliasRow>): map<Name, Name> {
    FullMap(Proposed(entities, aliases))
  }

  lemma RedirectedSources(full: map<Name, Name>, merges: seq<PlannedMerge>)
    ensures FullSources(Redirected(full, merges)) == FullSources(merges)
    ensures UniqueSources(merges) ==> UniqueSources(Redirected(full, merges))
  {
    var redirected := Redirected(full, merges);
    forall m | m in merges ensures exists m' :: m' in redirected && m'.from == m.from && m'.onlyUpper == m.onlyUpper {
      var i :| 0 <= i < |merges| && merges[i] == m;
      assert redirected[i] in redirected;
    }
    forall m | m in redirected ensures exists m' :: m' in merges && m'.from == m.from && m'.onlyUpper == m.onlyUpper {
      var i :| 0 <= i < |merges| && redirected[i] == m;
      assert merges[i] in merges;
    }
  }

  /** The plan is the proposals, in order, each sent along its chain. */
  lemma PlanIs(entities: seq<EntityRow>, aliases: seq<AliasRow>)
    requires UniqueNames(entities)
    ensures Plan(entities, aliases) == Redirected(FullOf(entities, aliases), Proposed(entities, aliases))
    ensures UniqueSources(Plan(entities, aliases))
    ensures FullSources(Plan(entities, aliases)) == FullOf(entities, aliases).Keys
  {
    hide Proposed, FullMap, Retained;
    var ms, full := Proposed(entities, aliases), FullOf(entities, aliases);
    var redirected := Redirected(full, ms);
    ProposedAre(entities, aliases);
    FullMapIs(ms);
    RedirectedSources(full, ms);
    forall m | m in redirected ensures m.from != m.into {
      var i :| 0 <= i < |ms| && redirected[i] == m;
      ProposedSound(entities, aliases, ms[i]);
      FollowStays(full, ms[i].from, ms[i].into, {});
    }
    RetainedAll(redirected);
  }

  /** Every plan: each entity is a source at most once; no source is seeded or was split
      out by a person; no merge points at itself. */
  lemma PlanSound(entities: seq<EntityRow>, aliases: seq<AliasRow>)
    requires UniqueNames(entities)
    ensures UniqueSources(Plan(entities, aliases))
    ensures forall m | m in Plan(entities, aliases) ::
              && m.from != m.into
              && Named(entities, m.into)
              && exists e :: e in entities && e.name == m.from && !e.seeded && !e.distinct
  {
    PlanIs(entities, aliases);
    ProposedAre(entities, aliases);
    var ms, full := Proposed(entities, aliases), FullOf(entities, aliases);
    FullMapIs(ms);
    forall m | m in Plan(entities, aliases)
      ensures m.from != m.into && Named(entities, m.into)
      ensures exists e :: e in entities && e.name == m.from && !e.seeded && !e.distinct
    {
      var i :| 0 <= i < |ms| && Redirect(full, ms[i]) == m;
      ProposedSound(entities, aliases, ms[i]);
      FollowStays(full, ms[i].from, ms[i].into, {});
      if m.into != ms[i].into {
        var x :| x in full && full[x] == m.into;
        var m' :| m' in ms && m'.onlyUpper.None? && m'.from == x;
        ProposedSound(entities, aliases, m');
      }
    }
  }

  /** The chain from a proposal's target ends, and not at the proposal's own source. */
  ghost predicate Escapes(full: map<Name, Name>, m: PlannedMerge) {
    exists y :: EndsAt(full, m.into, y) && y != m.from
  }

  lemma TargetSurvives(entities: seq<EntityRow>, aliases: seq<AliasRow>, m: PlannedMerge)
    requires UniqueNames(entities) && m in Proposed(entities, aliases)
    ensures var full := FullOf(entities, aliases);
            && (Redirect(full, m).into !in full <==> Escapes(full, m))
            && (Redirect(full, m).into !in full ==> EndsAt(full, m.into, Redirect(full, m).into))
  {
    ProposedAre(entities, aliases);
    FullMapIs(Proposed(entities, aliases));
    ProposedSound(entities, aliases, m);
    FollowExact(FullOf(entities, aliases), m.from, m.into);
  }

  /** No merge of the plan has a target that another full merge removes, exactly when
      every proposal escapes: there is no cycle of full folds, or of full folds closed by
      one capitals-only fold. */
  lemma TargetsSurviveIffAcyclic(entities: seq<EntityRow>, aliases: seq<AliasRow>)
    requires UniqueNames(entities)
    ensures (forall m | m in Plan(entities, aliases) :: m.into !in FullSources(Plan(entities, aliases)))
        <==> (forall m | m in Proposed(entities, aliases) :: Escapes(FullOf(entities, aliases), m))
  {
    PlanIs(entities, aliases);
    var ms, full, plan := Proposed(entities, aliases), FullOf(entities, aliases), Plan(entities, aliases);
    hide Plan, Proposed, FullOf, FullMap, FullSources, Escapes, Follow;
    forall i | 0 <= i < |ms| ensures plan[i].into !in full <==> Escapes(full, ms[i]) {
      assert ms[i] in ms;
      TargetSurvives(entities, aliases, ms[i]);
    }
    if forall m | m in plan :: m.into !in full {
      forall m | m in ms ensures Escapes(full, m) {
        var i :| 0 <= i < |ms| && ms[i] == m;
        assert plan[i] in plan;
      }
    }
    if forall m | m in ms :: Escapes(full, m) {
      forall m | m in plan ensures m.into !in full {
        var i :| 0 <= i < |ms| && plan[i] == m;
        assert ms[i] in ms;
      }
    }
  }
}
