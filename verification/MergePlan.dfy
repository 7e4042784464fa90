/** Which entities fold into which: `plan_merges` of crates/graph/src/entity_resolution.rs. */
module MergePlan {
  import opened Wrappers
  import opened Ordering
  import Utf8

  type Name = string
  type Key = string

  datatype EntityRow = EntityRow(name: Name, key: Key, mentions: int, seeded: bool, distinct: bool)

  datatype AliasRow = AliasRow(name: Name, key: Key, target: Name, caseSensitive: bool)

  /** `Seed` for a curated alias, `Normalise` for a shared key. */
  datatype Origin = Seed | Normalise

  datatype PlannedMerge = PlannedMerge(from: Name, into: Name, origin: Origin, onlyUpper: Option<Key>)

  // ── First phase: aliases ──

  /** The alias a name finds: the last one listed, as when a map is collected. */
  function LastByName(aliases: seq<AliasRow>, name: Name): Option<AliasRow> {
    if aliases == [] then None
    else
      var a := aliases[|aliases| - 1];
      if a.name == name then Some(a) else LastByName(aliases[..|aliases| - 1], name)
  }

  function WithKey(aliases: seq<AliasRow>, key: Key): seq<AliasRow> {
    if aliases == [] then []
    else
      WithKey(aliases[..|aliases| - 1], key)
      + if aliases[|aliases| - 1].key == key then [aliases[|aliases| - 1]] else []
  }

  function TargetOf(e: EntityRow, aliases: seq<AliasRow>): Option<Name> {
    var byName := LastByName(aliases, e.name);
    if byName.Some? then Some(byName.value.target)
    else
      var byKey := WithKey(aliases, e.key);
      if byKey == [] then None else Some(byKey[0].target)
  }

  predicate CapitalsOnly(key: Key, aliases: seq<AliasRow>) {
    exists a | a in aliases :: a.caseSensitive && a.key == key
  }

  predicate Named(entities: seq<EntityRow>, name: Name) {
    exists e | e in entities :: e.name == name
  }

  /** Does an alias fold this entity into another one that exists? */
  predicate Folds(e: EntityRow, entities: seq<EntityRow>, aliases: seq<AliasRow>) {
    && !e.distinct && !e.seeded
    && TargetOf(e, aliases).Some?
    && TargetOf(e, aliases).value != e.name
    && Named(entities, TargetOf(e, aliases).value)
  }

  function FoldOf(e: EntityRow, entities: seq<EntityRow>, aliases: seq<AliasRow>): PlannedMerge
    requires Folds(e, entities, aliases)
  {
    PlannedMerge(e.name, TargetOf(e, aliases).value, Seed,
                 if CapitalsOnly(e.key, aliases) then Some(e.key) else None)
  }

  function SeedMerges(rows: seq<EntityRow>, entities: seq<EntityRow>, aliases: seq<AliasRow>): seq<PlannedMerge> {
    if rows == [] then []
    else
      var e := rows[|rows| - 1];
      SeedMerges(rows[..|rows| - 1], entities, aliases)
      + if Folds(e, entities, aliases) then [FoldOf(e, entities, aliases)] else []
  }

  function FullSources(merges: seq<PlannedMerge>): set<Name> {
    set m | m in merges && m.onlyUpper.None? :: m.from
  }

  function Sources(merges: seq<PlannedMerge>): set<Name> {
    set m | m in merges :: m.from
  }

  // ── Second phase: shared keys ──

  predicate AllDigits(key: Key) {
    forall c | c in key :: '0' <= c <= '9'
  }

  predicate Groupable(e: EntityRow, gone: set<Name>) {
    !e.distinct && e.name !in gone && !AllDigits(e.key)
  }

  function Members(rows: seq<EntityRow>, gone: set<Name>): seq<EntityRow> {
    if rows == [] then []
    else
      Members(rows[..|rows| - 1], gone)
      + if Groupable(rows[|rows| - 1], gone) then [rows[|rows| - 1]] else []
  }

  function GroupOf(members: seq<EntityRow>, key: Key): seq<EntityRow> {
    if members == [] then []
    else
      GroupOf(members[..|members| - 1], key)
      + if members[|members| - 1].key == key then [members[|members| - 1]] else []
  }

  function DistinctKeys(members: seq<EntityRow>): seq<Key> {
    if members == [] then []
    else
      var ks := DistinctKeys(members[..|members| - 1]);
      if members[|members| - 1].key in ks then ks else ks + [members[|members| - 1].key]
  }

  /** Bytes of a string in UTF-8, which is what a length is measured in. */
  function ByteLength(s: string): nat {
    |Utf8.Encode(s)|
  }

  /** Seeded first, then the most mentioned, then the shortest name, then the name. */
  predicate RankLe(a: EntityRow, b: EntityRow) {
    if a.seeded != b.seeded then a.seeded
    else if a.mentions != b.mentions then a.mentions > b.mentions
    else if ByteLength(a.name) != ByteLength(b.name) then ByteLength(a.name) < ByteLength(b.name)
    else Le(a.name, b.name)
  }

  function Ranked(g: seq<EntityRow>): seq<EntityRow> {
    Sort(g, RankLe)
  }

  /** Each ranked member after the first folds into it, unless seeded or folded already. */
  function AddGroup(merges: seq<PlannedMerge>, canon: EntityRow, rest: seq<EntityRow>): seq<PlannedMerge> {
    if rest == [] then merges
    else
      var ms := AddGroup(merges, canon, rest[..|rest| - 1]);
      var e := rest[|rest| - 1];
      if e.seeded || (exists m | m in ms :: m.from == e.name) then ms
      else ms + [PlannedMerge(e.name, canon.name, Normalise, None)]
  }

  function AddKeys(merges: seq<PlannedMerge>, members: seq<EntityRow>, keys: seq<Key>): seq<PlannedMerge> {
    if keys == [] then merges
    else
      var ms := AddKeys(merges, members, keys[..|keys| - 1]);
      var g := Ranked(GroupOf(members, keys[|keys| - 1]));
      if |g| < 2 then ms else AddGroup(ms, g[0], g[1..])
  }

  function SortedKeys(members: seq<EntityRow>): seq<Key> {
    Sort(DistinctKeys(members), Le)
  }

  /** The merges of both phases, before chains are followed. */
  function Proposed(entities: seq<EntityRow>, aliases: seq<AliasRow>): seq<PlannedMerge> {
    var seed := SeedMerges(entities, entities, aliases);
    var members := Members(entities, FullSources(seed));
    AddKeys(seed, members, SortedKeys(members))
  }

  // ── Chains ──

  function FullMap(merges: seq<PlannedMerge>): map<Name, Name> {
    if merges == [] then map[]
    else
      var m := merges[|merges| - 1];
      var full := FullMap(merges[..|merges| - 1]);
      if m.onlyUpper.None? then full[m.from := m.into] else full
  }

  /** Where a chain of full merges leads from `into`, stopping before a repeat or `from`. */
  function Follow(full: map<Name, Name>, from: Name, into: Name, seen: set<Name>): Name
    decreases full.Keys - seen
  {
    if into !in full || into in seen || full[into] == from then into
    else Follow(full, from, full[into], seen + {into})
  }

  function Redirect(full: map<Name, Name>, m: PlannedMerge): PlannedMerge {
    m.(into := Follow(full, m.from, m.into, {}))
  }

  function Redirected(full: map<Name, Name>, merges: seq<PlannedMerge>): seq<PlannedMerge> {
    seq(|merges|, i requires 0 <= i < |merges| => Redirect(full, merges[i]))
  }

  function Retained(merges: seq<PlannedMerge>): seq<PlannedMerge> {
    if merges == [] then []
    else
      Retained(merges[..|merges| - 1])
      + if merges[|merges| - 1].from != merges[|merges| - 1].into then [merges[|merges| - 1]] else []
  }

  function Plan(entities: seq<EntityRow>, aliases: seq<AliasRow>): seq<PlannedMerge> {
    var merges := Proposed(entities, aliases);
    Retained(Redirected(FullMap(merges), merges))
  }

  // ── The planner ──

  method IndexAliases(aliases: seq<AliasRow>)
      returns (byName: map<Name, AliasRow>, byKey: map<Key, seq<AliasRow>>, csKeys: set<Key>)
    ensures forall x :: (x in byName <==> LastByName(aliases, x).Some?)
                        && (x in byName ==> LastByName(aliases, x) == Some(byName[x]))
    ensures forall k :: (k in byKey <==> WithKey(aliases, k) != [])
                        && (k in byKey ==> WithKey(aliases, k) == byKey[k])
    ensures forall k :: k in csKeys <==> CapitalsOnly(k, aliases)
  {
    byName := IndexByName(aliases);
    byKey := IndexByKey(aliases);
    csKeys := set a | a in aliases && a.caseSensitive :: a.key;
  }

  method IndexByName(aliases: seq<AliasRow>) returns (byName: map<Name, AliasRow>)
    ensures forall x :: (x in byName <==> LastByName(aliases, x).Some?)
                        && (x in byName ==> LastByName(aliases, x) == Some(byName[x]))
  {
    byName := map[];
    for i := 0 to |aliases|
      invariant forall x :: (x in byName <==> LastByName(aliases[..i], x).Some?)
                            && (x in byName ==> LastByName(aliases[..i], x) == Some(byName[x]))
    {
      assert aliases[..i + 1][..i] == aliases[..i];
      byName := byName[aliases[i].name := aliases[i]];
    }
    assert aliases[..|aliases|] == aliases;
  }

  method IndexByKey(aliases: seq<AliasRow>) returns (byKey: map<Key, seq<AliasRow>>)
    ensures forall k :: (k in byKey <==> WithKey(aliases, k) != [])
                        && (k in byKey ==> WithKey(aliases, k) == byKey[k])
  {
    byKey := map[];
    for i := 0 to |aliases|
      invariant forall k :: (k in byKey <==> WithKey(aliases[..i], k) != [])
                            && (k in byKey ==> WithKey(aliases[..i], k) == byKey[k])
    {
      var a := aliases[i];
      assert aliases[..i + 1][..i] == aliases[..i];
      byKey := byKey[a.key := (if a.key in byKey then byKey[a.key] else []) + [a]];
    }
    assert aliases[..|aliases|] == aliases;
  }

  method FoldAliases(entities: seq<EntityRow>, aliases: seq<AliasRow>)
      returns (merges: seq<PlannedMerge>, gone: set<Name>)
    ensures merges == SeedMerges(entities, entities, aliases)
    ensures gone == FullSources(merges)
  {
    var byName: map<Name, AliasRow>, byKey: map<Key, seq<AliasRow>>, csKeys: set<Key> := IndexAliases(aliases);
    var exist := set e | e in entities :: e.name;
    merges, gone := [], {};
    for i := 0 to |entities|
      invariant merges == SeedMerges(entities[..i], entities, aliases)
      invariant gone == FullSources(merges)
    {
      var e := entities[i];
      assert entities[..i + 1][..i] == entities[..i];
      if !e.distinct && !e.seeded {
        var target := if e.name in byName then Some(byName[e.name].target)
                      else if e.key in byKey then Some(byKey[e.key][0].target)
                      else None;
        assert target == TargetOf(e, aliases);
        if target.Some? && target.value != e.name && target.value in exist {
          assert Folds(e, entities, aliases);
          var onlyUpper := if e.key in csKeys then Some(e.key) else None;
          if onlyUpper.None? {
            gone := gone + {e.name};
          }
          merges := merges + [PlannedMerge(e.name, target.value, Seed, onlyUpper)];
        }
      }
    }
    assert entities[..|entities|] == entities;
  }

  method GroupByKey(entities: seq<EntityRow>, gone: set<Name>)
      returns (groups: map<Key, seq<EntityRow>>, keys: seq<Key>)
    ensures keys == DistinctKeys(Members(entities, gone))
    ensures forall k :: k in groups <==> k in keys
    ensures forall k | k in groups :: groups[k] == GroupOf(Members(entities, gone), k)
  {
    groups, keys := map[], [];
    ghost var members: seq<EntityRow> := [];
    for i := 0 to |entities|
      invariant members == Members(entities[..i], gone)
      invariant keys == DistinctKeys(members)
      invariant forall k :: k in groups <==> k in keys
      invariant forall k :: GroupOf(members, k) == if k in groups then groups[k] else []
    {
      var e := entities[i];
      assert entities[..i + 1][..i] == entities[..i];
      if Groupable(e, gone) {
        groups := groups[e.key := (if e.key in groups then groups[e.key] else []) + [e]];
        if e.key !in keys {
          keys := keys + [e.key];
        }
        assert (members + [e])[..|members|] == members;
        members := members + [e];
      }
    }
    assert entities[..|entities|] == entities;
  }

  method FoldGroup(before: seq<PlannedMerge>, unranked: seq<EntityRow>) returns (merges: seq<PlannedMerge>)
    ensures var g := Ranked(unranked);
            merges == if |g| < 2 then before else AddGroup(before, g[0], g[1..])
  {
    RankIsTotal();
    SortOk(unranked, RankLe);
    if |unranked| < 2 {
      return before;
    }
    var g := Sort(unranked, RankLe);
    var canon, rest := g[0], g[1..];
    merges := before;
    for j := 0 to |rest|
      invariant merges == AddGroup(before, canon, rest[..j])
    {
      assert rest[..j + 1][..j] == rest[..j];
      var e := rest[j];
      if !e.seeded && !(exists m | m in merges :: m.from == e.name) {
        merges := merges + [PlannedMerge(e.name, canon.name, Normalise, None)];
      }
    }
    assert rest[..|rest|] == rest;
  }

  method FoldKeys(entities: seq<EntityRow>, seed: seq<PlannedMerge>, gone: set<Name>)
      returns (merges: seq<PlannedMerge>)
    ensures var members := Members(entities, gone);
            merges == AddKeys(seed, members, SortedKeys(members))
  {
    hide AddGroup, Ranked, Members, GroupOf, Sort, Sorted, RankLe, Le;
    var groups, unsorted := GroupByKey(entities, gone);
    ghost var members := Members(entities, gone);
    OrderIsTotal();
    SortOk(unsorted, Le);
    var keys := Sort(unsorted, Le);
    merges := seed;
    for i := 0 to |keys|
      invariant merges == AddKeys(seed, members, keys[..i])
    {
      assert keys[..i + 1][..i] == keys[..i];
      assert keys[i] in keys;
      merges := FoldGroup(merges, groups[keys[i]]);
    }
    assert keys[..|keys|] == keys;
  }

  method FollowChain(full: map<Name, Name>, from: Name, start: Name) returns (into: Name)
    ensures into == Follow(full, from, start, {})
  {
    into := start;
    var seen := {};
    while into in full
      invariant Follow(full, from, into, seen) == Follow(full, from, start, {})
      decreases full.Keys - seen
    {
      var next := full[into];
      var repeat := into in seen;
      if repeat || next == from {
        break;
      }
      seen := seen + {into};
      into := next;
    }
  }

  method FullMergesOf(merges: seq<PlannedMerge>) returns (full: map<Name, Name>)
    ensures full == FullMap(merges)
  {
    full := map[];
    for i := 0 to |merges|
      invariant full == FullMap(merges[..i])
    {
      assert merges[..i + 1][..i] == merges[..i];
      if merges[i].onlyUpper.None? {
        full := full[merges[i].from := merges[i].into];
      }
    }
    assert merges[..|merges|] == merges;
  }

  method FollowChains(full: map<Name, Name>, proposed: seq<PlannedMerge>) returns (merges: seq<PlannedMerge>)
    ensures merges == Redirected(full, proposed)
  {
    merges := proposed;
    for i := 0 to |merges|
      invariant |merges| == |proposed|
      invariant forall j | 0 <= j < |merges| :: merges[j] == if j < i then Redirect(full, proposed[j]) else proposed[j]
    {
      var into := FollowChain(full, merges[i].from, merges[i].into);
      merges := merges[i := merges[i].(into := into)];
    }
  }

  method PlanMerges(entities: seq<EntityRow>, aliases: seq<AliasRow>) returns (plan: seq<PlannedMerge>)
    ensures plan == Plan(entities, aliases)
  {
    var seed, gone := FoldAliases(entities, aliases);
    var merges := FoldKeys(entities, seed, gone);
    var full := FullMergesOf(merges);
    merges := FollowChains(full, merges);
    plan := [];
    for i := 0 to |merges|
      invariant plan == Retained(merges[..i])
    {
      assert merges[..i + 1][..i] == merges[..i];
      if merges[i].from != merges[i].into {
        plan := plan + [merges[i]];
      }
    }
    assert merges[..|merges|] == merges;
  }

  lemma OrderIsTotal()
    ensures TotalPreorder(Le)
  {
    forall a, b ensures Le(a, b) || Le(b, a) { LeTotal(a, b); }
    forall a, b, c | Le(a, b) && Le(b, c) ensures Le(a, c) { LeTransitive(a, b, c); }
  }

  lemma RankIsTotal()
    ensures TotalPreorder(RankLe)
  {
    forall a, b ensures RankLe(a, b) || RankLe(b, a) { LeTotal(a.name, b.name); }
    forall a, b, c | RankLe(a, b) && RankLe(b, c) ensures RankLe(a, c) {
      if Le(a.name, b.name) && Le(b.name, c.name) {
        LeTransitive(a.name, b.name, c.name);
      }
    }
  }
}
