/** One whole `sync` of crates/graph/src/entity_resolution.rs: what the planner is given, what
    is seeded, and the merges that run. */
module EntitySync {
  import opened Wrappers
  import opened EntityGraph
  import opened Conservation
  import opened MergePlan
  import opened MergePlanFacts
  import opened PlanRun

  /** A curated entity, its type if the rules give one, and its curated aliases. */
  datatype Canonical = Canonical(name: Name, entityType: Option<string>, aliases: seq<Name>)

  /** `key` is the name key of the rules; `caps` the keys that resolve only in capitals. */
  datatype Curated = Curated(canonicals: seq<Canonical>, key: string -> string, caps: set<string>) {
    /** The rules list `alias` under the entity `target`. */
    predicate Lists(alias: Name, target: Name) {
      exists c | c in canonicals :: c.name == target && alias in c.aliases
    }

    predicate IsAlias(alias: Name) {
      exists c | c in canonicals :: alias in c.aliases
    }

    /** No alias, except of a split-out name, is listed under two entities. */
    ghost predicate Consistent(g: Graph) {
      forall a: Name, t: Name, t': Name | Lists(a, t) && Lists(a, t') && !IsDistinct(g, a) :: t == t'
    }

    function Row(alias: Name, target: Name): AliasRow {
      AliasRow(alias, key(alias), target, key(alias) in caps)
    }
  }

  predicate Curates(canonicals: seq<Canonical>, x: Name) {
    exists c | c in canonicals :: c.name == x
  }

  predicate IsDistinct(g: Graph, x: Name) {
    x in g.entities && g.entities[x].distinct
  }

  predicate IsSeeded(g: Graph, x: Name) {
    x in g.entities && g.entities[x].seeded
  }

  function KeyOf(g: Graph, x: Name, key: string -> string): Key {
    if IsDistinct(g, x) then "~" + x else key(x)
  }

  // ── What the planner is given ──

  function RowOf(g: Graph, x: Name, key: string -> string): EntityRow
    requires x in g.entities
  {
    EntityRow(x, KeyOf(g, x, key), |NotesOf(g.mentions, x)|, IsSeeded(g, x), IsDistinct(g, x))
  }

  /** The entities of the graph and the curated ones, each once, as they will be. */
  ghost predicate RowsOk(rows: seq<EntityRow>, g: Graph, curated: Curated, done: seq<Canonical>) {
    && UniqueNames(rows)
    && (forall x :: Named(rows, x) <==> x in g.entities || Curates(done, x))
    && (forall e | e in rows ::
          && e.key == KeyOf(g, e.name, curated.key) && e.distinct == IsDistinct(g, e.name)
          && e.mentions == |NotesOf(g.mentions, e.name)|
          && (e.seeded <==> IsSeeded(g, e.name) || Curates(done, e.name)))
  }

  method FindRow(rows: seq<EntityRow>, x: Name) returns (i: nat)
    ensures i <= |rows| && (i < |rows| ==> rows[i].name == x)
    ensures i == |rows| ==> !Named(rows, x)
  {
    i := 0;
    while i < |rows| && rows[i].name != x
      invariant i <= |rows| && forall j | 0 <= j < i :: rows[j].name != x
    {
      i := i + 1;
    }
  }

  /** The entity rows: `names` are those of the graph, in the order they are read. */
  method ReadEntities(g: Graph, names: seq<Name>, curated: Curated) returns (rows: seq<EntityRow>)
    requires Inv(g) && Ordered(names, g.entities.Keys)
    ensures RowsOk(rows, g, curated, curated.canonicals)
  {
    rows := [];
    for i := 0 to |names|
      invariant |rows| == i && forall j | 0 <= j < i :: rows[j] == RowOf(g, names[j], curated.key)
    {
      assert names[i] in names;
      rows := rows + [RowOf(g, names[i], curated.key)];
    }
    GraphRows(g, names, curated, rows);
    for i := 0 to |curated.canonicals|
      invariant RowsOk(rows, g, curated, curated.canonicals[..i])
    {
      var c := curated.canonicals[i];
      assert curated.canonicals[..i + 1] == curated.canonicals[..i] + [c];
      var at := FindRow(rows, c.name);
      if at < |rows| {
        MarkSeeded(rows, g, curated, curated.canonicals[..i], c, at);
        rows := rows[at := rows[at].(seeded := true)];
      } else {
        AddSeeded(rows, g, curated, curated.canonicals[..i], c);
        rows := rows + [EntityRow(c.name, curated.key(c.name), 0, true, false)];
      }
    }
    assert curated.canonicals[..|curated.canonicals|] == curated.canonicals;
  }

  /** Some listing of a set. */
  ghost predicate Ordered(names: seq<Name>, s: set<Name>) {
    (forall i, j | 0 <= i < j < |names| :: names[i] != names[j]) && forall x :: x in names <==> x in s
  }

  lemma GraphRows(g: Graph, names: seq<Name>, curated: Curated, rows: seq<EntityRow>)
    requires Ordered(names, g.entities.Keys) && |rows| == |names|
    requires forall j | 0 <= j < |rows| :: names[j] in g.entities && rows[j] == RowOf(g, names[j], curated.key)
    ensures RowsOk(rows, g, curated, [])
  {
    hide NotesOf, KeyOf;
    forall x ensures Named(rows, x) <==> x in g.entities {
      if x in g.entities {
        var j :| 0 <= j < |names| && names[j] == x;
        assert rows[j] in rows;
      }
    }
  }

  lemma CuratesOneMore(done: seq<Canonical>, c: Canonical)
    ensures forall x :: Curates(done + [c], x) <==> Curates(done, x) || x == c.name
  {
    assert c in done + [c];
    assert forall d :: d in done + [c] <==> d in done || d == c;
  }

  lemma MarkSeeded(rows: seq<EntityRow>, g: Graph, curated: Curated, done: seq<Canonical>, c: Canonical, at: nat)
    requires RowsOk(rows, g, curated, done) && at < |rows| && rows[at].name == c.name
    ensures RowsOk(rows[at := rows[at].(seeded := true)], g, curated, done + [c])
  {
    hide NotesOf, KeyOf;
    var rows' := rows[at := rows[at].(seeded := true)];
    CuratesOneMore(done, c);
    forall x ensures Named(rows', x) <==> Named(rows, x) {
      if j :| 0 <= j < |rows| && rows[j].name == x {
        assert rows'[j] in rows' && rows[j] in rows;
      }
    }
    assert rows[at] in rows;
    assert Named(rows, c.name);
    forall e | e in rows'
      ensures e == rows[at].(seeded := true) || (e in rows && e.name != c.name)
    {
      var j :| 0 <= j < |rows'| && rows'[j] == e;
      if j != at {
        assert rows[j] in rows;
      }
    }
  }

  lemma AddSeeded(rows: seq<EntityRow>, g: Graph, curated: Curated, done: seq<Canonical>, c: Canonical)
    requires Inv(g) && RowsOk(rows, g, curated, done) && !Named(rows, c.name)
    ensures RowsOk(rows + [EntityRow(c.name, curated.key(c.name), 0, true, false)], g, curated, done + [c])
  {
    var e := EntityRow(c.name, curated.key(c.name), 0, true, false);
    assert c.name !in g.entities;
    assert NotesOf(g.mentions, c.name) == {};
    hide NotesOf, KeyOf;
    assert KeyOf(g, c.name, curated.key) == curated.key(c.name) by { AbsentKey(g, c.name, curated.key); }
    CuratesOneMore(done, c);
    assert forall x :: x in rows + [e] <==> x in rows || x == e;
    forall i | 0 <= i < |rows| ensures rows[i].name != c.name {
      assert rows[i] in rows;
    }
    forall x ensures Named(rows + [e], x) <==> Named(rows, x) || x == c.name {
      assert e in rows + [e];
    }
  }

  lemma AbsentKey(g: Graph, x: Name, key: string -> string)
    requires x !in g.entities
    ensures KeyOf(g, x, key) == key(x)
  {
  }

  /** An alias row of the rules: not for a name a person split out. */
  predicate FromRules(a: AliasRow, g: Graph, curated: Curated) {
    curated.Lists(a.name, a.target) && !IsDistinct(g, a.name) && a == curated.Row(a.name, a.target)
  }

  predicate NamedByRules(x: Name, g: Graph, curated: Curated) {
    curated.IsAlias(x) && !IsDistinct(g, x)
  }

  function GraphAlias(g: Graph, x: Name, key: string -> string): AliasRow
    requires x in g.aliases
  {
    AliasRow(x, key(x), g.aliases[x].target, g.aliases[x].caseSensitive)
  }

  /** The rows of one curated entity, in its order. */
  function ListedRows(g: Graph, curated: Curated, target: Name, names: seq<Name>): seq<AliasRow> {
    if names == [] then []
    else
      var x := names[|names| - 1];
      ListedRows(g, curated, target, names[..|names| - 1])
      + if IsDistinct(g, x) then [] else [curated.Row(x, target)]
  }

  /** The curated rows, in the order of the rules. */
  function RulesRows(g: Graph, curated: Curated, canonicals: seq<Canonical>): seq<AliasRow> {
    if canonicals == [] then []
    else
      var c := canonicals[|canonicals| - 1];
      RulesRows(g, curated, canonicals[..|canonicals| - 1]) + ListedRows(g, curated, c.name, c.aliases)
  }

  /** The graph's other aliases, in the order they are read. */
  function OtherRows(g: Graph, curated: Curated, names: seq<Name>): seq<AliasRow>
    requires forall x | x in names :: x in g.aliases
  {
    if names == [] then []
    else
      var x := names[|names| - 1];
      OtherRows(g, curated, names[..|names| - 1])
      + if NamedByRules(x, g, curated) then [] else [GraphAlias(g, x, curated.key)]
  }

  /** The curated aliases, and those of the graph whose names are not curated. */
  ghost predicate AliasesOk(aliases: seq<AliasRow>, g: Graph, curated: Curated) {
    forall a :: a in aliases <==>
      || FromRules(a, g, curated)
      || (a.name in g.aliases && a == GraphAlias(g, a.name, curated.key) && !NamedByRules(a.name, g, curated))
  }

  predicate HasAlias(aliases: seq<AliasRow>, x: Name) {
    exists a | a in aliases :: a.name == x
  }

  lemma {:induction false} ListedRowsAre(g: Graph, curated: Curated, target: Name, names: seq<Name>)
    ensures forall a :: a in ListedRows(g, curated, target, names)
                        <==> a.name in names && !IsDistinct(g, a.name) && a == curated.Row(a.name, target)
  {
    if names != [] {
      ListedRowsAre(g, curated, target, names[..|names| - 1]);
      assert names == names[..|names| - 1] + [names[|names| - 1]];
    }
  }

  lemma {:induction false} RulesRowsAre(g: Graph, curated: Curated, canonicals: seq<Canonical>)
    ensures forall a :: a in RulesRows(g, curated, canonicals)
                        <==> !IsDistinct(g, a.name) && a == curated.Row(a.name, a.target)
                             && exists c :: c in canonicals && c.name == a.target && a.name in c.aliases
  {
    hide IsDistinct;
    if canonicals != [] {
      var c := canonicals[|canonicals| - 1];
      RulesRowsAre(g, curated, canonicals[..|canonicals| - 1]);
      ListedRowsAre(g, curated, c.name, c.aliases);
      assert canonicals == canonicals[..|canonicals| - 1] + [c];
    }
  }

  lemma {:induction false} OtherRowsAre(g: Graph, curated: Curated, names: seq<Name>)
    requires forall x | x in names :: x in g.aliases
    ensures forall a :: a in OtherRows(g, curated, names) <==>
              a.name in names && !NamedByRules(a.name, g, curated) && a == GraphAlias(g, a.name, curated.key)
  {
    hide NamedByRules;
    if names != [] {
      OtherRowsAre(g, curated, names[..|names| - 1]);
      assert names == names[..|names| - 1] + [names[|names| - 1]];
    }
  }

  /** Whatever order the graph's aliases are read in, the rows are these. */
  lemma AliasRowsAre(g: Graph, curated: Curated, names: seq<Name>)
    requires Ordered(names, g.aliases.Keys)
    ensures AliasesOk(RulesRows(g, curated, curated.canonicals) + OtherRows(g, curated, names), g, curated)
  {
    hide NamedByRules, IsDistinct;
    RulesRowsAre(g, curated, curated.canonicals);
    OtherRowsAre(g, curated, names);
    var rules, others := RulesRows(g, curated, curated.canonicals), OtherRows(g, curated, names);
    assert forall a :: a in rules + others <==> a in rules || a in others;
    forall a ensures a in rules <==> FromRules(a, g, curated) {
    }
  }

  /** The rows of the rules come entity by entity, and for each alias by alias. */
  lemma {:induction false} RowsInOrder(g: Graph, curated: Curated, before: seq<Canonical>, c: Canonical,
                                       after: seq<Canonical>)
    ensures RulesRows(g, curated, before + [c] + after)
            == RulesRows(g, curated, before) + ListedRows(g, curated, c.name, c.aliases) + RulesRows(g, curated, after)
    decreases |after|
  {
    var all := before + [c] + after;
    if after == [] {
      assert all[..|all| - 1] == before;
    } else {
      var but := after[..|after| - 1];
      assert all[..|all| - 1] == before + [c] + but;
      RowsInOrder(g, curated, before, c, but);
    }
  }

  lemma {:induction false} AliasesInOrder(g: Graph, curated: Curated, target: Name, before: seq<Name>, x: Name,
                                          after: seq<Name>)
    ensures ListedRows(g, curated, target, before + [x] + after)
            == ListedRows(g, curated, target, before) + (if IsDistinct(g, x) then [] else [curated.Row(x, target)])
               + ListedRows(g, curated, target, after)
    decreases |after|
  {
    var all := before + [x] + after;
    if after == [] {
      assert all[..|all| - 1] == before;
    } else {
      var but := after[..|after| - 1];
      assert all[..|all| - 1] == before + [x] + but;
      AliasesInOrder(g, curated, target, before, x, but);
    }
  }

  lemma NamedHasRow(g: Graph, curated: Curated, x: Name)
    ensures NamedByRules(x, g, curated) <==> HasAlias(RulesRows(g, curated, curated.canonicals), x)
  {
    RulesRowsAre(g, curated, curated.canonicals);
    if NamedByRules(x, g, curated) {
      var c :| c in curated.canonicals && x in c.aliases;
      assert curated.Row(x, c.name) in RulesRows(g, curated, curated.canonicals);
    }
  }

  lemma MoreAliases(aliases: seq<AliasRow>, row: AliasRow)
    ensures forall x :: HasAlias(aliases + [row], x) <==> HasAlias(aliases, x) || x == row.name
  {
    forall x ensures HasAlias(aliases + [row], x) <==> HasAlias(aliases, x) || x == row.name {
      assert row in aliases + [row];
      assert forall a :: a in aliases + [row] <==> a in aliases || a == row;
    }
  }

  method ReadAliases(g: Graph, names: seq<Name>, curated: Curated) returns (aliases: seq<AliasRow>)
    requires Ordered(names, g.aliases.Keys)
    ensures aliases == RulesRows(g, curated, curated.canonicals) + OtherRows(g, curated, names)
  {
    hide NamedByRules, RulesRows;
    aliases := CuratedAliases(g, curated);
    ghost var rules := aliases;
    assert rules + [] == rules;
    forall x ensures NamedByRules(x, g, curated) <==> HasAlias(rules, x) {
      NamedHasRow(g, curated, x);
    }
    for i := 0 to |names|
      invariant aliases == rules + OtherRows(g, curated, names[..i])
      invariant forall x :: HasAlias(aliases, x) ==> NamedByRules(x, g, curated) || x in names[..i]
      invariant forall x :: NamedByRules(x, g, curated) ==> HasAlias(aliases, x)
    {
      var x := names[i];
      assert x in names && x !in names[..i];
      assert names[..i + 1][..i] == names[..i] && names[..i + 1] == names[..i] + [x];
      if !HasAlias(aliases, x) {
        var row := GraphAlias(g, x, curated.key);
        MoreAliases(aliases, row);
        assert aliases + [row] == rules + (OtherRows(g, curated, names[..i]) + [row]);
        aliases := aliases + [row];
      }
    }
    assert names[..|names|] == names;
  }

  method CuratedAliases(g: Graph, curated: Curated) returns (aliases: seq<AliasRow>)
    ensures aliases == RulesRows(g, curated, curated.canonicals)
  {
    hide IsDistinct;
    aliases := [];
    for i := 0 to |curated.canonicals|
      invariant aliases == RulesRows(g, curated, curated.canonicals[..i])
    {
      var c := curated.canonicals[i];
      ghost var before := aliases;
      assert curated.canonicals[..i + 1][..i] == curated.canonicals[..i];
      for j := 0 to |c.aliases|
        invariant aliases == before + ListedRows(g, curated, c.name, c.aliases[..j])
      {
        assert c.aliases[..j + 1][..j] == c.aliases[..j];
        var x := c.aliases[j];
        if !IsDistinct(g, x) {
          aliases := aliases + [AliasRow(x, curated.key(x), c.name, curated.key(x) in curated.caps)];
        }
      }
      assert c.aliases[..|c.aliases|] == c.aliases;
    }
    assert curated.canonicals[..|curated.canonicals|] == curated.canonicals;
  }

  // ── What is seeded ──

  /** Writing the curated entities; `newEntity` is what a missing one is created as. */
  function EntityOps(canonicals: seq<Canonical>, newEntity: Name -> Entity): seq<Op> {
    seq(|canonicals|, i requires 0 <= i < |canonicals| =>
      SeedEntityOp(canonicals[i].name, canonicals[i].entityType, newEntity(canonicals[i].name)))
  }

  /** Writing the alias rows that the rules list, wherever they came from. */
  function AliasOps(aliases: seq<AliasRow>, curated: Curated): seq<Op> {
    if aliases == [] then []
    else
      var a := aliases[0];
      (if curated.Lists(a.name, a.target) then [SeedAliasOp(a.name, a.target, a.caseSensitive)] else [])
      + AliasOps(aliases[1..], curated)
  }

  function SeedOps(aliases: seq<AliasRow>, curated: Curated, newEntity: Name -> Entity): seq<Op> {
    EntityOps(curated.canonicals, newEntity) + AliasOps(aliases, curated)
  }

  lemma {:induction false} RunConcat(g: Graph, a: seq<Op>, b: seq<Op>)
    ensures Run(g, a + b) == Run(Run(g, a), b)
    decreases |a|
  {
    hide Apply;
    if a == [] {
      assert a + b == b;
    } else {
      assert (a + b)[1..] == a[1..] + b;
      RunConcat(Apply(g, a[0]), a[1..], b);
    }
  }

  /** Seeding entities adds the curated ones and marks them, and nothing else. */
  lemma {:induction false} SeededEntities(g: Graph, canonicals: seq<Canonical>, newEntity: Name -> Entity)
    requires forall x :: !newEntity(x).distinct
    ensures var g' := Run(g, EntityOps(canonicals, newEntity));
            && g'.aliases == g.aliases && g'.mentions == g.mentions && g'.hidden == g.hidden
            && (forall x :: x in g'.entities <==> x in g.entities || Curates(canonicals, x))
            && (forall x | x in g'.entities ::
                  && IsDistinct(g', x) == IsDistinct(g, x)
                  && (x in g.entities ==> g'.entities[x].id == g.entities[x].id)
                  && (IsSeeded(g', x) <==> IsSeeded(g, x) || Curates(canonicals, x)))
    decreases |canonicals|
  {
    var ops := EntityOps(canonicals, newEntity);
    if canonicals != [] {
      var c, rest := canonicals[0], canonicals[1..];
      assert canonicals == [c] + rest;
      assert ops[1..] == EntityOps(rest, newEntity);
      SeededEntities(Apply(g, ops[0]), rest, newEntity);
      assert forall x :: Curates(canonicals, x) <==> x == c.name || Curates(rest, x);
    }
  }

  /** The type the rules give an entity: the last one listed. */
  function ListedType(canonicals: seq<Canonical>, x: Name): Option<string> {
    if canonicals == [] then None
    else
      var later := ListedType(canonicals[1..], x);
      if later.Some? then later else if canonicals[0].name == x then canonicals[0].entityType else None
  }

  /** What seeding makes of an entity's type. */
  function TypeAfter(canonicals: seq<Canonical>, x: Name, entityType: Option<string>): Option<string> {
    var listed := ListedType(canonicals, x);
    if listed.Some? then listed
    else if Curates(canonicals, x) then Some(entityType.GetOr("unknown")) else entityType
  }

  function EntityOr(g: Graph, x: Name, newEntity: Name -> Entity): Entity {
    if x in g.entities then g.entities[x] else newEntity(x)
  }

  lemma TypeStep(canonicals: seq<Canonical>, x: Name, entityType: Option<string>)
    requires canonicals != []
    ensures var c, rest := canonicals[0], canonicals[1..];
            TypeAfter(canonicals, x, entityType)
            == TypeAfter(rest, x, if c.name == x then Some(c.entityType.GetOr(entityType.GetOr("unknown")))
                                  else entityType)
  {
    var c, rest := canonicals[0], canonicals[1..];
    assert canonicals == [c] + rest;
    assert Curates(canonicals, x) <==> x == c.name || Curates(rest, x);
  }

  lemma {:induction false} SeededTypes(g: Graph, canonicals: seq<Canonical>, newEntity: Name -> Entity, x: Name)
    ensures var g', e := Run(g, EntityOps(canonicals, newEntity)), EntityOr(g, x, newEntity);
            && (x in g'.entities <==> x in g.entities || Curates(canonicals, x))
            && (x in g'.entities ==>
                  g'.entities[x] == e.(seeded := e.seeded || Curates(canonicals, x),
                                       entityType := TypeAfter(canonicals, x, e.entityType)))
    decreases |canonicals|
  {
    var ops := EntityOps(canonicals, newEntity);
    if canonicals != [] {
      var c, rest := canonicals[0], canonicals[1..];
      assert canonicals == [c] + rest;
      assert ops[1..] == EntityOps(rest, newEntity);
      var g1 := Apply(g, ops[0]);
      SeedEntityIs(g, c, newEntity(c.name));
      SeededTypes(g1, rest, newEntity, x);
      assert Curates(canonicals, x) <==> x == c.name || Curates(rest, x);
      TypeStep(canonicals, x, EntityOr(g, x, newEntity).entityType);
      hide Run, Apply, TypeAfter;
    }
  }

  /** Rows with one name agree. */
  ghost predicate Agree(aliases: seq<AliasRow>) {
    forall a, b | a in aliases && b in aliases && a.name == b.name :: a == b
  }

  /** A row for `x` that is written. */
  predicate WritesAlias(aliases: seq<AliasRow>, curated: Curated, x: Name) {
    exists a | a in aliases :: a.name == x && curated.Lists(a.name, a.target)
  }

  lemma {:induction false} OnlyAliases(g: Graph, aliases: seq<AliasRow>, curated: Curated)
    ensures Run(g, AliasOps(aliases, curated)) == g.(aliases := Run(g, AliasOps(aliases, curated)).aliases)
    decreases |aliases|
  {
    hide Curated.Lists;
    if aliases == [] {
      RunNone(g);
    } else {
      FirstAlias(g, aliases, curated);
      SeedAliasIs(g, aliases[0].name, aliases[0].target, aliases[0].caseSensitive);
      hide Run, Apply, AliasOps;
      OnlyAliases(g, aliases[1..], curated);
      OnlyAliases(AfterFirst(g, aliases[0]), aliases[1..], curated);
    }
  }

  function AfterFirst(g: Graph, a: AliasRow): Graph {
    Apply(g, SeedAliasOp(a.name, a.target, a.caseSensitive))
  }

  lemma FirstAlias(g: Graph, aliases: seq<AliasRow>, curated: Curated)
    requires aliases != []
    ensures var a := aliases[0];
            Run(g, AliasOps(aliases, curated))
            == Run(if curated.Lists(a.name, a.target) then AfterFirst(g, a) else g, AliasOps(aliases[1..], curated))
  {
    hide Curated.Lists, Run, Apply;
    var a, ops := aliases[0], AliasOps(aliases[1..], curated);
    RunFirst(g, SeedAliasOp(a.name, a.target, a.caseSensitive), ops);
    assert [] + ops == ops;
  }

  lemma {:induction false} SeededAlias(g: Graph, aliases: seq<AliasRow>, curated: Curated, x: Name)
    requires Agree(aliases) && forall a | a in aliases && curated.Lists(a.name, a.target) :: a.target in g.entities
    ensures var g' := Run(g, AliasOps(aliases, curated));
            && (WritesAlias(aliases, curated, x) ==> x in g'.aliases)
            && (forall a | a in aliases && a.name == x && curated.Lists(a.name, a.target) ::
                  g'.aliases[x].target == a.target && g'.aliases[x].caseSensitive == a.caseSensitive)
            && (!WritesAlias(aliases, curated, x) ==>
                  (x in g'.aliases <==> x in g.aliases) && (x in g.aliases ==> g'.aliases[x] == g.aliases[x]))
    decreases |aliases|
  {
    hide Curated.Lists;
    if aliases == [] {
      RunNone(g);
    } else {
      var a, rest := aliases[0], aliases[1..];
      assert aliases == [a] + rest;
      FirstAlias(g, aliases, curated);
      SeedAliasIs(g, a.name, a.target, a.caseSensitive);
      var g1 := if curated.Lists(a.name, a.target) then AfterFirst(g, a) else g;
      hide Run, Apply, AliasOps;
      SeededAlias(g1, rest, curated, x);
      assert WritesAlias(aliases, curated, x) <==>
               WritesAlias(rest, curated, x) || (a.name == x && curated.Lists(a.name, a.target));
    }
  }

  lemma SeededAliases(g: Graph, aliases: seq<AliasRow>, curated: Curated)
    requires Agree(aliases) && forall a | a in aliases && curated.Lists(a.name, a.target) :: a.target in g.entities
    ensures var g' := Run(g, AliasOps(aliases, curated));
            && g'.entities == g.entities && g'.mentions == g.mentions && g'.hidden == g.hidden
            && (forall a | a in aliases && curated.Lists(a.name, a.target) ::
                  && a.name in g'.aliases && g'.aliases[a.name].target == a.target
                  && g'.aliases[a.name].caseSensitive == a.caseSensitive)
            && (forall x :: x in g'.aliases <==> x in g.aliases || WritesAlias(aliases, curated, x))
            && (forall x | x in g.aliases && !WritesAlias(aliases, curated, x) :: g'.aliases[x] == g.aliases[x])
  {
    OnlyAliases(g, aliases, curated);
    hide Curated.Lists, Run, Apply, AliasOps, WritesAlias;
    var g' := Run(g, AliasOps(aliases, curated));
    forall a | a in aliases && curated.Lists(a.name, a.target)
      ensures a.name in g'.aliases && g'.aliases[a.name].target == a.target
              && g'.aliases[a.name].caseSensitive == a.caseSensitive
    {
      WritesIt(aliases, curated, a);
      SeededAlias(g, aliases, curated, a.name);
    }
    forall x
      ensures x in g'.aliases <==> x in g.aliases || WritesAlias(aliases, curated, x)
      ensures x in g.aliases && !WritesAlias(aliases, curated, x) ==> g'.aliases[x] == g.aliases[x]
    {
      SeededAlias(g, aliases, curated, x);
    }
  }

  lemma WritesIt(aliases: seq<AliasRow>, curated: Curated, a: AliasRow)
    requires a in aliases && curated.Lists(a.name, a.target)
    ensures WritesAlias(aliases, curated, a.name)
  {
  }

  /** Rows of one name agree exactly when the rules are consistent. */
  lemma RowsAgree(aliases: seq<AliasRow>, g: Graph, curated: Curated)
    requires AliasesOk(aliases, g, curated)
    ensures Agree(aliases) <==> curated.Consistent(g)
  {
    if curated.Consistent(g) {
      forall a, b | a in aliases && b in aliases && a.name == b.name ensures a == b {
        ListedIsNamed(a, g, curated);
        ListedIsNamed(b, g, curated);
      }
    }
    if Agree(aliases) {
      forall a: Name, t: Name, t': Name | curated.Lists(a, t) && curated.Lists(a, t')
        && !IsDistinct(g, a) ensures t == t' {
        assert FromRules(curated.Row(a, t), g, curated) && FromRules(curated.Row(a, t'), g, curated);
        assert curated.Row(a, t) in aliases && curated.Row(a, t') in aliases;
      }
    }
  }

  lemma ListedIsNamed(a: AliasRow, g: Graph, curated: Curated)
    ensures FromRules(a, g, curated) ==> NamedByRules(a.name, g, curated)
  {
  }

  lemma ListedIsCanonical(curated: Curated, alias: Name, target: Name)
    requires curated.Lists(alias, target)
    ensures Curates(curated.canonicals, target)
  {
  }

  /** The graph as the merges find it: curated entities and aliases written. */
  function SeededGraph(g: Graph, aliases: seq<AliasRow>, curated: Curated, newEntity: Name -> Entity): Graph {
    Run(g, SeedOps(aliases, curated, newEntity))
  }

  /** What the planner was given describes the graph that its merges run on, even though the
      curated entities and aliases were only written in between: exactly when the rules list
      no alias under two entities. */
  lemma RowsDescribe(g: Graph, rows: seq<EntityRow>, aliases: seq<AliasRow>, curated: Curated,
                     newEntity: Name -> Entity)
    requires Inv(g) && forall x :: !newEntity(x).distinct
    requires RowsOk(rows, g, curated, curated.canonicals) && AliasesOk(aliases, g, curated)
    ensures Describes(rows, aliases, SeededGraph(g, aliases, curated, newEntity), curated.key)
            <==> curated.Consistent(g)
    ensures SeededGraph(g, aliases, curated, newEntity).mentions == g.mentions
  {
    hide Run, EntityOps, AliasOps, NotesOf, Curated.Lists, NamedByRules, Curates, RowsOk, AliasesOk, Inv, WritesAlias;
    var g1 := Run(g, EntityOps(curated.canonicals, newEntity));
    RunConcat(g, EntityOps(curated.canonicals, newEntity), AliasOps(aliases, curated));
    SeededEntities(g, curated.canonicals, newEntity);
    OnlyAliases(g1, aliases, curated);
    RowsAgree(aliases, g, curated);
    var g2 := SeededGraph(g, aliases, curated, newEntity);
    if Agree(aliases) {
      forall a | a in aliases && curated.Lists(a.name, a.target) ensures a.target in g1.entities {
        ListedIsCanonical(curated, a.name, a.target);
      }
      SeededAliases(g1, aliases, curated);
      EntitiesDescribed(rows, g, g2, curated);
      AliasesDescribed(aliases, g, g2, curated);
      RowNames(rows, g, curated);
    } else {
      DescribedRowsAgree(rows, aliases, g2, curated.key);
    }
  }

  /** Seeding leaves each alias the rules list, but of a split-out name, on its entity, and
      good only in capitals exactly when its key is among those; all other aliases are as
      they were. */
  lemma SeededAliasIs(g: Graph, aliases: seq<AliasRow>, curated: Curated, newEntity: Name -> Entity, a: Name, t: Name)
    requires Inv(g) && (forall x :: !newEntity(x).distinct)
    requires AliasesOk(aliases, g, curated) && curated.Consistent(g)
    ensures var g2 := SeededGraph(g, aliases, curated, newEntity);
            && (curated.Lists(a, t) && !IsDistinct(g, a) ==>
                  && a in g2.aliases && g2.aliases[a].target == t
                  && (g2.aliases[a].caseSensitive <==> curated.key(a) in curated.caps))
            && ((!curated.IsAlias(a) || IsDistinct(g, a)) && a !in g.aliases ==> a !in g2.aliases)
            && (!curated.IsAlias(a) && a in g.aliases ==> a in g2.aliases && g2.aliases[a] == g.aliases[a])
  {
    hide Run, EntityOps, AliasOps, NotesOf, Curates, Inv;
    var g1 := Run(g, EntityOps(curated.canonicals, newEntity));
    RunConcat(g, EntityOps(curated.canonicals, newEntity), AliasOps(aliases, curated));
    SeededEntities(g, curated.canonicals, newEntity);
    RowsAgree(aliases, g, curated);
    forall b | b in aliases && curated.Lists(b.name, b.target) ensures b.target in g1.entities {
      ListedIsCanonical(curated, b.name, b.target);
    }
    SeededAliases(g1, aliases, curated);
    if curated.Lists(a, t) && !IsDistinct(g, a) {
      assert FromRules(curated.Row(a, t), g, curated);
      assert curated.Row(a, t) in aliases;
    }
  }

  lemma DescribedRowsAgree(rows: seq<EntityRow>, aliases: seq<AliasRow>, g: Graph, key: string -> string)
    ensures Describes(rows, aliases, g, key) ==> Agree(aliases)
  {
  }

  lemma RowNames(rows: seq<EntityRow>, g: Graph, curated: Curated)
    requires RowsOk(rows, g, curated, curated.canonicals)
    ensures UniqueNames(rows)
  {
  }

  lemma EntitiesDescribed(rows: seq<EntityRow>, g: Graph, g2: Graph, curated: Curated)
    requires RowsOk(rows, g, curated, curated.canonicals)
    requires forall x :: x in g2.entities <==> x in g.entities || Curates(curated.canonicals, x)
    requires forall x | x in g2.entities ::
               && IsDistinct(g2, x) == IsDistinct(g, x)
               && (IsSeeded(g2, x) <==> IsSeeded(g, x) || Curates(curated.canonicals, x))
    ensures forall e | e in rows ::
              && e.name in g2.entities
              && e.seeded == g2.entities[e.name].seeded && e.distinct == g2.entities[e.name].distinct
              && (!e.distinct ==> e.key == curated.key(e.name))
    ensures forall x | x in g2.entities :: Named(rows, x)
  {
    hide Curates, NotesOf;
    forall e | e in rows ensures Named(rows, e.name) {
    }
  }

  lemma AliasesDescribed(aliases: seq<AliasRow>, g: Graph, g2: Graph, curated: Curated)
    requires AliasesOk(aliases, g, curated) && Agree(aliases)
    requires forall a | a in aliases && curated.Lists(a.name, a.target) ::
               && a.name in g2.aliases && g2.aliases[a.name].target == a.target
               && g2.aliases[a.name].caseSensitive == a.caseSensitive
    requires forall x :: x in g2.aliases <==> x in g.aliases || WritesAlias(aliases, curated, x)
    requires forall x | x in g.aliases && !WritesAlias(aliases, curated, x) :: g2.aliases[x] == g.aliases[x]
    ensures forall a | a in aliases ::
              && a.name in g2.aliases && a.key == curated.key(a.name)
              && a.target == g2.aliases[a.name].target && a.caseSensitive == g2.aliases[a.name].caseSensitive
    ensures forall x | x in g2.aliases :: exists a :: a in aliases && a.name == x
  {
    hide Curated.Lists, NamedByRules;
    forall a | a in aliases
      ensures a.name in g2.aliases && a.key == curated.key(a.name)
      ensures a.target == g2.aliases[a.name].target && a.caseSensitive == g2.aliases[a.name].caseSensitive
    {
      if !curated.Lists(a.name, a.target) {
        assert a.name in g.aliases && a == GraphAlias(g, a.name, curated.key);
        assert forall b | b in aliases && b.name == a.name :: b == a;
      }
    }
    forall x | x in g2.aliases ensures exists a :: a in aliases && a.name == x {
      if x in g.aliases {
        HasRow(aliases, g, curated, x);
      }
    }
  }

  lemma HasRow(aliases: seq<AliasRow>, g: Graph, curated: Curated, x: Name)
    requires AliasesOk(aliases, g, curated) && (x in g.aliases || NamedByRules(x, g, curated))
    ensures HasAlias(aliases, x)
  {
    if NamedByRules(x, g, curated) {
      var c :| c in curated.canonicals && x in c.aliases;
      assert FromRules(curated.Row(x, c.name), g, curated);
      assert curated.Row(x, c.name) in aliases;
    } else {
      assert GraphAlias(g, x, curated.key) in aliases;
    }
  }

  // ── The pass ──

  /** A capitals-only merge runs when its source is not mentioned at all (it goes), or some
      note that mentions it has the key in capitals (that moves). */
  predicate MustRun(g: Graph, m: PlannedMerge, capitals: string -> set<NoteId>) {
    m.onlyUpper.None? || NotesOf(g.mentions, m.from) == {}
    || NotesOf(g.mentions, m.from) * capitals(m.onlyUpper.value) != {}
  }

  /** The merges of a plan that run, in its order. */
  function ToRun(g: Graph, plan: seq<PlannedMerge>, capitals: string -> set<NoteId>): seq<PlannedMerge> {
    if plan == [] then []
    else
      var m := plan[|plan| - 1];
      ToRun(g, plan[..|plan| - 1], capitals) + if MustRun(g, m, capitals) then [m] else []
  }

  method Thin(g: Graph, rows: seq<EntityRow>, plan: seq<PlannedMerge>, capitals: string -> set<NoteId>)
    returns (run: seq<PlannedMerge>)
    requires Inv(g) && forall e | e in rows :: e.mentions == |NotesOf(g.mentions, e.name)|
    requires forall x | x in g.entities :: Named(rows, x)
    ensures run == ToRun(g, plan, capitals)
  {
    run := [];
    for i := 0 to |plan|
      invariant run == ToRun(g, plan[..i], capitals)
    {
      var m := plan[i];
      assert plan[..i + 1][..i] == plan[..i];
      if m.onlyUpper.Some? {
        var at := FindRow(rows, m.from);
        var left := if at < |rows| then rows[at].mentions else 0;
        assert left == |NotesOf(g.mentions, m.from)| by {
          if at < |rows| {
            assert rows[at] in rows;
          } else {
            assert NotesOf(g.mentions, m.from) == {};
          }
        }
        var movable := NotesOf(g.mentions, m.from) * capitals(m.onlyUpper.value);
        if left > 0 && movable == {} {
          continue;
        }
      }
      run := run + [m];
    }
    assert plan[..|plan|] == plan;
  }

  lemma {:induction false} ToRunIs(g: Graph, plan: seq<PlannedMerge>, capitals: string -> set<NoteId>)
    ensures forall m :: m in ToRun(g, plan, capitals) <==> m in plan && MustRun(g, m, capitals)
    ensures UniqueSources(plan) ==> Thinned(plan, ToRun(g, plan, capitals))
  {
    hide MustRun;
    if plan != [] {
      var but, m := plan[..|plan| - 1], plan[|plan| - 1];
      ToRunIs(g, but, capitals);
      assert plan == but + [m];
      var run := ToRun(g, but, capitals);
      if UniqueSources(plan) {
        forall i, j | 0 <= i < j < |but| ensures but[i].from != but[j].from {
          assert plan[i].from != plan[j].from;
        }
        forall j | 0 <= j < |run| ensures run[j].from != m.from {
          assert run[j] in but;
          var k :| 0 <= k < |but| && but[k] == run[j];
          assert plan[k].from != plan[|but|].from;
        }
        FullMustRun(g, m, capitals);
      }
    }
  }

  lemma FullMustRun(g: Graph, m: PlannedMerge, capitals: string -> set<NoteId>)
    ensures m.onlyUpper.None? ==> MustRun(g, m, capitals)
  {
  }

  method Seed(store: EntityStore, aliases: seq<AliasRow>, curated: Curated, newEntity: Name -> Entity)
    modifies store
    ensures store.State() == SeededGraph(old(store.State()), aliases, curated, newEntity)
  {
    hide Run, Apply;
    ghost var start := store.State();
    ghost var entityOps := EntityOps(curated.canonicals, newEntity);
    RunNone(start);
    for i := 0 to |curated.canonicals|
      invariant store.State() == Run(start, entityOps[..i])
    {
      var c := curated.canonicals[i];
      NextOp(start, entityOps, i);
      SeedEntityIs(store.State(), c, newEntity(c.name));
      var e := if c.name in store.entities then store.entities[c.name] else newEntity(c.name);
      var entityType := if c.entityType.Some? then c.entityType.value else e.entityType.GetOr("unknown");
      store.entities := store.entities[c.name := e.(seeded := true, entityType := Some(entityType))];
    }
    assert entityOps[..|curated.canonicals|] == entityOps;
    ghost var seeded := store.State();
    RunNone(seeded);
    for i := 0 to |aliases|
      invariant store.State() == Run(seeded, AliasOps(aliases[..i], curated))
    {
      var a := aliases[i];
      NextAlias(seeded, aliases, i, curated);
      if curated.Lists(a.name, a.target) {
        SeedAliasIs(store.State(), a.name, a.target, a.caseSensitive);
        if a.target in store.entities {
          store.aliases := store.aliases[a.name :=
            if a.name in store.aliases then store.aliases[a.name].(target := a.target, caseSensitive := a.caseSensitive)
            else Alias(a.target, None, None, None, a.caseSensitive, "seed")];
        }
      }
    }
    assert aliases[..|aliases|] == aliases;
    RunConcat(start, entityOps, AliasOps(aliases, curated));
  }

  lemma RunFirst(g: Graph, op: Op, ops: seq<Op>)
    ensures Run(g, [op] + ops) == Run(Apply(g, op), ops)
  {
    hide Apply;
    assert ([op] + ops)[1..] == ops;
  }

  lemma RunNone(g: Graph)
    ensures Run(g, []) == g
  {
  }

  lemma NextOp(g: Graph, ops: seq<Op>, i: nat)
    requires i < |ops|
    ensures Run(g, ops[..i + 1]) == Apply(Run(g, ops[..i]), ops[i])
  {
    assert ops[..i + 1] == ops[..i] + [ops[i]];
    RunConcat(g, ops[..i], [ops[i]]);
    hide Apply;
    assert [ops[i]][1..] == [];
  }

  lemma NextAlias(g: Graph, aliases: seq<AliasRow>, i: nat, curated: Curated)
    requires i < |aliases|
    ensures var a := aliases[i];
            Run(g, AliasOps(aliases[..i + 1], curated))
            == if curated.Lists(a.name, a.target)
               then Apply(Run(g, AliasOps(aliases[..i], curated)), SeedAliasOp(a.name, a.target, a.caseSensitive))
               else Run(g, AliasOps(aliases[..i], curated))
  {
    hide Apply, Curated.Lists;
    var a := aliases[i];
    assert aliases[..i + 1] == aliases[..i] + [a];
    AliasOpsAppend(aliases[..i], a, curated);
    if curated.Lists(a.name, a.target) {
      var op := SeedAliasOp(a.name, a.target, a.caseSensitive);
      RunConcat(g, AliasOps(aliases[..i], curated), [op]);
      assert [op][1..] == [];
    }
  }

  lemma {:induction false} AliasOpsAppend(aliases: seq<AliasRow>, a: AliasRow, curated: Curated)
    ensures AliasOps(aliases + [a], curated)
            == if curated.Lists(a.name, a.target) then AliasOps(aliases, curated)
              + [SeedAliasOp(a.name, a.target, a.caseSensitive)]
               else AliasOps(aliases, curated)
  {
    hide Curated.Lists;
    if aliases == [] {
      assert [a][1..] == [];
    } else {
      assert (aliases + [a])[1..] == aliases[1..] + [a];
      AliasOpsAppend(aliases[1..], a, curated);
    }
  }

  lemma SeedEntityIs(g: Graph, c: Canonical, seed: Entity)
    ensures Apply(g, SeedEntityOp(c.name, c.entityType, seed))
            == g.(entities := g.entities[c.name :=
                 Seeding(if c.name in g.entities then g.entities[c.name] else seed, c.entityType)])
  {
  }

  lemma SeedAliasIs(g: Graph, x: Name, target: Name, cs: bool)
    ensures Apply(g, SeedAliasOp(x, target, cs))
            == if target !in g.entities then g
               else g.(aliases := g.aliases[x := if x in g.aliases then
                 g.aliases[x].(target := target, caseSensitive := cs)
                                                 else Alias(target, None, None, None, cs, "seed")])
  {
  }

  /** The whole pass: read, plan, thin, seed, merge. */
  method SyncGraph(store: EntityStore, entityNames: seq<Name>, aliasNames: seq<Name>, curated: Curated,
                   newEntity: Name -> Entity, capitals: string -> set<NoteId>)
      returns (rows: seq<EntityRow>, aliases: seq<AliasRow>, run: seq<PlannedMerge>)
    requires Inv(store.State()) && forall x :: !newEntity(x).distinct
    requires Ordered(entityNames, store.entities.Keys) && Ordered(aliasNames, store.aliases.Keys)
    modifies store
    ensures Pass(rows, aliases, run, curated, newEntity, capitals).Of(old(store.State()))
    ensures store.State() == Pass(rows, aliases, run, curated, newEntity, capitals).After(old(store.State()))
  {
    hide Plan, SeededGraph, RunPlan, AliasesOk, ToRun, NotesOf, Inv, RulesRows, OtherRows;
    ghost var g := store.State();
    var before := Graph(store.entities, store.aliases, store.mentions, store.hidden);
    rows := ReadEntities(before, entityNames, curated);
    aliases := ReadAliases(before, aliasNames, curated);
    AliasRowsAre(before, curated, aliasNames);
    var plan := PlanMerges(rows, aliases);
    run := Thin(before, rows, plan, capitals);
    Seed(store, aliases, curated, newEntity);
    var outcomes := ApplyPlan(store, run, capitals);
  }

  /** One pass of `sync`: the rows read, what ran, and what it was given. */
  datatype Pass = Pass(rows: seq<EntityRow>, aliases: seq<AliasRow>, run: seq<PlannedMerge>,
                       curated: Curated, newEntity: Name -> Entity, capitals: string -> set<NoteId>) {
    ghost predicate Of(g: Graph) {
      && Inv(g) && (forall x :: !newEntity(x).distinct)
      && RowsOk(rows, g, curated, curated.canonicals) && AliasesOk(aliases, g, curated)
      && run == ToRun(g, Plan(rows, aliases), capitals)
    }

    function Seeded(g: Graph): Graph {
      SeededGraph(g, aliases, curated, newEntity)
    }

    function After(g: Graph): Graph {
      RunPlan(Seeded(g), run, capitals)
    }
  }

  lemma PassRuns(g: Graph, pass: Pass)
    requires pass.Of(g)
    ensures UniqueNames(pass.rows) && UniqueSources(pass.run) && Thinned(Plan(pass.rows, pass.aliases), pass.run)
  {
    hide Plan, AliasesOk, Inv;
    RowNames(pass.rows, g, pass.curated);
    PlanSound(pass.rows, pass.aliases);
    ToRunIs(g, Plan(pass.rows, pass.aliases), pass.capitals);
  }

  ghost predicate SeedsOnly(ops: seq<Op>) {
    forall op | op in ops :: op.SeedEntityOp? || op.SeedAliasOp?
  }

  lemma {:induction false} SeedsConserve(g: Graph, ops: seq<Op>, n: NoteId)
    requires Inv(g) && SeedsOnly(ops)
    ensures Inv(Run(g, ops)) && NoteTotal(Run(g, ops), n) == NoteTotal(g, n)
    decreases |ops|
  {
    hide Inv, Apply, NoteTotal;
    if ops != [] {
      assert ops[0] in ops && forall op | op in ops[1..] :: op in ops;
      SeedConserves(g, ops[0], n);
      SeedsConserve(Apply(g, ops[0]), ops[1..], n);
    }
  }

  lemma {:induction false} AliasOpsSeed(aliases: seq<AliasRow>, curated: Curated)
    ensures SeedsOnly(AliasOps(aliases, curated))
  {
    hide Curated.Lists;
    if aliases != [] {
      AliasOpsSeed(aliases[1..], curated);
    }
  }

  lemma {:induction false} MergesConserve(g: Graph, run: seq<PlannedMerge>, capitals: string -> set<NoteId>, n: NoteId)
    requires Inv(g)
    ensures Inv(RunPlan(g, run, capitals)) && NoteTotal(RunPlan(g, run, capitals), n) == NoteTotal(g, n)
    decreases |run|
  {
    hide Inv, Merge, NoteTotal;
    if run != [] {
      var m, but := run[|run| - 1], run[..|run| - 1];
      MergesConserve(g, but, capitals, n);
      MergeConserves(RunPlan(g, but, capitals), m.from, m.into,
                     if m.onlyUpper.Some? then Some(capitals(m.onlyUpper.value)) else None,
                     if m.origin.Seed? then "seed" else "normalise", n);
    }
  }

  /** No pass loses or invents a mention: whatever it seeds and merges, every note's total
      stays. */
  lemma SyncConserves(g: Graph, aliases: seq<AliasRow>, curated: Curated, newEntity: Name -> Entity,
                      run: seq<PlannedMerge>, capitals: string -> set<NoteId>, n: NoteId)
    requires Inv(g)
    ensures var end := RunPlan(SeededGraph(g, aliases, curated, newEntity), run, capitals);
            Inv(end) && NoteTotal(end, n) == NoteTotal(g, n)
  {
    hide Inv, NoteTotal, RunPlan, Run;
    AliasOpsSeed(aliases, curated);
    assert SeedsOnly(SeedOps(aliases, curated, newEntity));
    SeedsConserve(g, SeedOps(aliases, curated, newEntity), n);
    MergesConserve(SeededGraph(g, aliases, curated, newEntity), run, capitals, n);
  }
}
