/** Running a whole plan on the graph, and planning again on the result: the merging part
    of `sync` (crates/graph/src/entity_resolution.rs). */
module PlanRun {
  import opened Wrappers
  import opened EntityGraph
  import opened Conservation
  import opened MergePlan
  import opened MergePlanFacts

  /** The rows and aliases the planner is given are those of the graph: `key` is the name
      key of the rules, and a split-out entity has a key of its own. */
  ghost predicate Describes(entities: seq<EntityRow>, aliases: seq<AliasRow>, g: Graph, key: string -> string) {
    && UniqueNames(entities)
    && (forall e | e in entities ::
          && e.name in g.entities
          && e.seeded == g.entities[e.name].seeded && e.distinct == g.entities[e.name].distinct
          && (!e.distinct ==> e.key == key(e.name)))
    && (forall x | x in g.entities :: Named(entities, x))
    && (forall a | a in aliases ::
          && a.name in g.aliases && a.key == key(a.name)
          && a.target == g.aliases[a.name].target && a.caseSensitive == g.aliases[a.name].caseSensitive)
    && (forall x | x in g.aliases :: exists a :: a in aliases && a.name == x)
  }

  ghost predicate OneTargetPerKey(aliases: seq<AliasRow>) {
    forall a, b | a in aliases && b in aliases && a.key == b.key :: a.target == b.target
  }

  /** Keys that resolve only in capitals point at curated entities. */
  ghost predicate CapitalsPointAtSeeded(entities: seq<EntityRow>, aliases: seq<AliasRow>) {
    forall a | a in aliases && CapitalsOnly(a.key, aliases) ::
      exists e :: e in entities && e.name == a.target && e.seeded
  }

  /** Following the full folds from an alias's target comes to an end. */
  ghost predicate AliasChainsEnd(entities: seq<EntityRow>, aliases: seq<AliasRow>) {
    forall a | a in aliases :: exists y :: EndsAt(FullOf(entities, aliases), a.target, y)
  }

  predicate CapitalsFold(e: EntityRow, entities: seq<EntityRow>, aliases: seq<AliasRow>) {
    Folds(e, entities, aliases) && CapitalsOnly(e.key, aliases)
  }

  ghost predicate NoCapitalsTarget(entities: seq<EntityRow>, aliases: seq<AliasRow>) {
    forall a, e | a in aliases && e in entities && e.name == a.target :: !CapitalsFold(e, entities, aliases)
  }

  ghost predicate Ready(entities: seq<EntityRow>, aliases: seq<AliasRow>, g: Graph, key: string -> string) {
    && Describes(entities, aliases, g, key)
    && Inv(g)
    && OneTargetPerKey(aliases)
    && CapitalsPointAtSeeded(entities, aliases)
    && AliasChainsEnd(entities, aliases)
    && NoCapitalsTarget(entities, aliases)
  }

  // ── Running the plan ──

  function RunOne(g: Graph, m: PlannedMerge, capitals: string -> set<NoteId>): Graph {
    Merge(g, m.from, m.into, if m.onlyUpper.Some? then Some(capitals(m.onlyUpper.value)) else None,
          if m.origin.Seed? then "seed" else "normalise")
  }

  /** `capitals(key)` are the notes whose text has the key in capitals. */
  function RunPlan(g: Graph, plan: seq<PlannedMerge>, capitals: string -> set<NoteId>): Graph {
    if plan == [] then g
    else RunOne(RunPlan(g, plan[..|plan| - 1], capitals), plan[|plan| - 1], capitals)
  }

  method ApplyPlan(store: EntityStore, plan: seq<PlannedMerge>, capitals: string -> set<NoteId>)
      returns (outcomes: seq<MergeOutcome>)
    modifies store
    ensures store.State() == RunPlan(old(store.State()), plan, capitals)
    ensures |outcomes| == |plan|
  {
    outcomes := [];
    for i := 0 to |plan|
      invariant store.State() == RunPlan(old(store.State()), plan[..i], capitals)
      invariant |outcomes| == i
    {
      assert plan[..i + 1][..i] == plan[..i];
      var m := plan[i];
      var outcome := store.MergeInto(m.from, m.into,
                                     if m.onlyUpper.Some? then Some(capitals(m.onlyUpper.value)) else None,
                                     if m.origin.Seed? then "seed" else "normalise");
      outcomes := outcomes + [outcome];
    }
    assert plan[..|plan|] == plan;
  }

  /** What `sync` runs: the plan with some capitals-only merges (that would move nothing)
      left out. Nothing here depends on the order. */
  ghost predicate Thinned(plan: seq<PlannedMerge>, run: seq<PlannedMerge>) {
    && UniqueSources(run)
    && (forall m | m in run :: m in plan)
    && (forall m | m in plan && m.onlyUpper.None? :: m in run)
  }

  // ── What a ready graph proposes ──

  /** An entity's target depends only on its key. */
  lemma KeyTarget(entities: seq<EntityRow>, aliases: seq<AliasRow>, g: Graph, key: string -> string, e: EntityRow)
    requires Describes(entities, aliases, g, key) && OneTargetPerKey(aliases)
    requires e in entities && !e.distinct
    ensures forall a | a in aliases && a.key == e.key :: TargetOf(e, aliases) == Some(a.target)
    ensures TargetOf(e, aliases).Some? ==> exists a :: a in aliases && a.key == e.key
  {
    ByNameIs(aliases, e.name);
    ByKeyIs(aliases, e.key);
  }

  lemma {:induction false} ByNameIs(aliases: seq<AliasRow>, name: string)
    ensures LastByName(aliases, name).Some? ==>
              LastByName(aliases, name).value in aliases && LastByName(aliases, name).value.name == name
    ensures LastByName(aliases, name).None? ==> forall a | a in aliases :: a.name != name
  {
    if aliases != [] {
      ByNameIs(aliases[..|aliases| - 1], name);
    }
  }

  lemma {:induction false} ByKeyIs(aliases: seq<AliasRow>, key: string)
    ensures forall a :: a in WithKey(aliases, key) <==> a in aliases && a.key == key
  {
    if aliases != [] {
      var n := |aliases| - 1;
      ByKeyIs(aliases[..n], key);
      assert aliases == aliases[..n] + [aliases[n]];
    }
  }

  lemma TargetNamed(entities: seq<EntityRow>, aliases: seq<AliasRow>, g: Graph, key: string -> string, a: AliasRow)
    requires Describes(entities, aliases, g, key) && Inv(g) && a in aliases
    ensures Named(entities, a.target)
  {
  }

  /** With a capitals-only key every ordinary entity folds, into a curated one. */
  lemma CapitalsAlwaysFold(entities: seq<EntityRow>, aliases: seq<AliasRow>, g: Graph, key: string -> string,
                           e: EntityRow)
    requires Describes(entities, aliases, g, key) && Inv(g) && OneTargetPerKey(aliases)
    requires CapitalsPointAtSeeded(entities, aliases)
    requires e in entities && !e.distinct && !e.seeded && CapitalsOnly(e.key, aliases)
    ensures Folds(e, entities, aliases)
    ensures exists t :: t in entities && t.seeded && TargetOf(e, aliases) == Some(t.name)
  {
    KeyTarget(entities, aliases, g, key, e);
    var a :| a in aliases && a.caseSensitive && a.key == e.key;
    var t :| t in entities && t.name == a.target && t.seeded;
    assert t != e;
    if t.name == e.name {
      SameNameSameRow(entities, t, e);
    }
  }

  /** A seeded entity is never removed. */
  lemma SeededStays(entities: seq<EntityRow>, aliases: seq<AliasRow>, t: EntityRow)
    requires UniqueNames(entities) && t in entities && (t.seeded || t.distinct)
    ensures t.name !in FullOf(entities, aliases)
    ensures t.name !in Sources(Plan(entities, aliases))
  {
    PlanSound(entities, aliases);
    PlanIs(entities, aliases);
    forall m | m in Plan(entities, aliases) ensures m.from != t.name {
      var e :| e in entities && e.name == m.from && !e.seeded && !e.distinct;
      if e.name == t.name {
        SameNameSameRow(entities, e, t);
      }
    }
    assert FullSources(Plan(entities, aliases)) <= Sources(Plan(entities, aliases));
  }

  /** Which of the planner's entities are removed by a full merge. */
  lemma FullSourceIs(entities: seq<EntityRow>, aliases: seq<AliasRow>, e: EntityRow)
    requires UniqueNames(entities) && e in entities
    ensures e.name in FullOf(entities, aliases) <==>
              || (Folds(e, entities, aliases) && !CapitalsOnly(e.key, aliases))
              || exists c :: KeyFold(entities, aliases, e, c)
  {
    var ms := Proposed(entities, aliases);
    ProposedAre(entities, aliases);
    FullMapIs(ms);
    if Folds(e, entities, aliases) && !CapitalsOnly(e.key, aliases) {
      assert FoldOf(e, entities, aliases) in ms;
    }
    if c :| KeyFold(entities, aliases, e, c) {
      assert NormMerge(e, c) in ms;
    }
    if e.name in FullOf(entities, aliases) {
      var m :| m in ms && m.onlyUpper.None? && m.from == e.name;
      if x :| x in entities && Folds(x, entities, aliases) && m == FoldOf(x, entities, aliases) {
        SameNameSameRow(entities, x, e);
      } else {
        var x, c :| KeyFold(entities, aliases, x, c) && m == NormMerge(x, c);
        MembersAre(entities, FullSources(SeedOf(entities, aliases)));
        SameNameSameRow(entities, x, e);
      }
    }
  }

  /** The entity a shared key folds into is not itself folded. */
  lemma CanonStays(entities: seq<EntityRow>, aliases: seq<AliasRow>, g: Graph, key: string -> string, e: EntityRow,
                   c: EntityRow)
    requires Describes(entities, aliases, g, key) && Inv(g) && OneTargetPerKey(aliases)
    requires CapitalsPointAtSeeded(entities, aliases)
    requires KeyFold(entities, aliases, e, c)
    ensures c.name !in FullOf(entities, aliases) && !CapitalsFold(c, entities, aliases)
    ensures e in entities && c in entities && !Folds(e, entities, aliases)
    ensures !e.distinct && !c.distinct
  {
    MembersAre(entities, FullSources(SeedOf(entities, aliases)));
    FoldsInPhase(entities, aliases, e);
    FoldsInPhase(entities, aliases, c);
    FullSourceIs(entities, aliases, c);
    if d :| KeyFold(entities, aliases, c, d) {
      CanonUnique(MembersOf(entities, aliases), c, d);
    }
    if CapitalsFold(c, entities, aliases) {
      CapitalsAlwaysFold(entities, aliases, g, key, e);
    }
  }

  // ── Where the plan sends things ──

  lemma AtOnce(full: map<string, string>, x: string)
    requires x !in full
    ensures EndsAt(full, x, x)
  {
    assert EndsIn(full, x, x, 0);
  }

  lemma EndUnique(full: map<string, string>, x: string, y: string, y': string)
    requires EndsAt(full, x, y) && EndsAt(full, x, y')
    ensures y == y' && y !in full
  {
    var k: nat :| EndsIn(full, x, y, k);
    var k': nat :| EndsIn(full, x, y', k');
    EndsOnce(full, x, y, k, y', k');
    EndIsOut(full, x, y, k);
  }

  lemma EndNext(full: map<string, string>, x: string, y: string)
    requires x in full && EndsAt(full, full[x], y)
    ensures EndsAt(full, x, y)
  {
    var k: nat :| EndsIn(full, full[x], y, k);
    assert EndsIn(full, x, y, k + 1);
  }

  /** Every planned merge ends at an entity that the plan never folds away. For an entity
      that an alias folds, it is the end of the alias's chain. */
  lemma PlannedTarget(entities: seq<EntityRow>, aliases: seq<AliasRow>, g: Graph, key: string -> string,
                      m: PlannedMerge)
    requires Ready(entities, aliases, g, key)
    requires m in Plan(entities, aliases)
    ensures exists e :: e in entities && e.name == m.from && !e.seeded && !e.distinct
              && (forall a | a in aliases && a.key == e.key :: EndsAt(FullOf(entities, aliases), a.target, m.into))
              && ((forall a | a in aliases :: a.key != e.key) ==>
                    exists c :: KeyFold(entities, aliases, e, c) && m.into == c.name)
    ensures m.into !in FullOf(entities, aliases)
  {
    hide Plan, Proposed, FullMap, Follow, Folds, KeyFold, EndsAt, TargetOf, Ready;
    var p := Proposal(entities, aliases, g, key, m);
    if e :| e in entities && Folds(e, entities, aliases) && p == FoldOf(e, entities, aliases) {
      AliasFoldTarget(entities, aliases, g, key, e, p);
    } else {
      var e, c :| KeyFold(entities, aliases, e, c) && p == NormMerge(e, c);
      KeyFoldTarget(entities, aliases, g, key, e, c);
    }
  }

  /** The proposal that a planned merge was redirected from. */
  lemma Proposal(entities: seq<EntityRow>, aliases: seq<AliasRow>, g: Graph, key: string -> string, m: PlannedMerge)
      returns (p: PlannedMerge)
    requires Ready(entities, aliases, g, key)
    requires m in Plan(entities, aliases)
    ensures p in Proposed(entities, aliases) && Redirect(FullOf(entities, aliases), p) == m
    ensures || (exists e :: e in entities && Folds(e, entities, aliases) && p == FoldOf(e, entities, aliases))
            || (exists e, c :: KeyFold(entities, aliases, e, c) && p == NormMerge(e, c))
  {
    hide Plan, Proposed, FullMap, Follow, Folds, KeyFold;
    var ms, full := Proposed(entities, aliases), FullOf(entities, aliases);
    PlanIs(entities, aliases);
    ProposedAre(entities, aliases);
    var i :| 0 <= i < |ms| && Redirect(full, ms[i]) == m;
    p := ms[i];
  }

  /** A full merge sends its source to the end of its chain. */
  lemma FullMergeEnds(entities: seq<EntityRow>, aliases: seq<AliasRow>, m: PlannedMerge)
    requires UniqueNames(entities)
    requires m in Plan(entities, aliases) && m.onlyUpper.None? && m.into !in FullOf(entities, aliases)
    ensures EndsAt(FullOf(entities, aliases), m.from, m.into)
  {
    var ms, full := Proposed(entities, aliases), FullOf(entities, aliases);
    PlanIs(entities, aliases);
    ProposedAre(entities, aliases);
    FullMapIs(ms);
    var i :| 0 <= i < |ms| && Redirect(full, ms[i]) == m;
    assert ms[i] in ms;
    hide Plan, Proposed, FullMap, Follow, Folds, KeyFold, EndsAt, TargetOf;
    TargetSurvives(entities, aliases, ms[i]);
    EndNext(full, m.from, m.into);
  }

  lemma AliasFoldTarget(entities: seq<EntityRow>, aliases: seq<AliasRow>, g: Graph, key: string -> string,
                        e: EntityRow, m: PlannedMerge)
    requires Ready(entities, aliases, g, key)
    requires e in entities && Folds(e, entities, aliases) && m == FoldOf(e, entities, aliases)
    requires m in Proposed(entities, aliases)
    ensures var full := FullOf(entities, aliases);
            && Redirect(full, m).into !in full
            && (forall a | a in aliases && a.key == e.key :: EndsAt(full, a.target, Redirect(full, m).into))
            && exists a :: a in aliases && a.key == e.key
    ensures e.name == m.from && !e.seeded && !e.distinct
  {
    var full := FullOf(entities, aliases);
    KeyTarget(entities, aliases, g, key, e);
    var a :| a in aliases && a.key == e.key;
    var y :| EndsAt(full, a.target, y);
    FullSourceIs(entities, aliases, e);
    EndUnique(full, a.target, y, y);
    if CapitalsOnly(e.key, aliases) {
      CapitalsAlwaysFold(entities, aliases, g, key, e);
      var t :| t in entities && t.seeded && TargetOf(e, aliases) == Some(t.name);
      SeededStays(entities, aliases, t);
      AtOnce(full, t.name);
      EndUnique(full, t.name, t.name, y);
    }
    assert y != m.from;
    assert Escapes(full, m);
    TargetSurvives(entities, aliases, m);
  }

  lemma KeyFoldTarget(entities: seq<EntityRow>, aliases: seq<AliasRow>, g: Graph, key: string -> string,
                      e: EntityRow, c: EntityRow)
    requires Ready(entities, aliases, g, key)
    requires KeyFold(entities, aliases, e, c)
    ensures var full := FullOf(entities, aliases);
            && Redirect(full, NormMerge(e, c)).into == c.name && c.name !in full
            && (forall a | a in aliases && a.key == e.key :: EndsAt(full, a.target, c.name))
    ensures e in entities && !e.seeded && !e.distinct
  {
    var full := FullOf(entities, aliases);
    CanonStays(entities, aliases, g, key, e, c);
    KeyTarget(entities, aliases, g, key, e);
    forall a | a in aliases && a.key == e.key ensures EndsAt(full, a.target, c.name) {
      // The alias points at `e` itself, which folds into `c`.
      TargetNamed(entities, aliases, g, key, a);
      assert a.target == e.name;
      ProposedAre(entities, aliases);
      FullMapIs(Proposed(entities, aliases));
      assert NormMerge(e, c) in Proposed(entities, aliases);
      AtOnce(full, c.name);
      EndNext(full, e.name, c.name);
    }
  }

  /** No entity is both a source and a target of the plan. */
  lemma TargetIsNoSource(entities: seq<EntityRow>, aliases: seq<AliasRow>, g: Graph, key: string -> string,
                         m: PlannedMerge)
    requires Ready(entities, aliases, g, key)
    requires m in Plan(entities, aliases)
    ensures m.into !in Sources(Plan(entities, aliases))
  {
    hide Plan, Proposed, FullMap, Follow, Folds, KeyFold, EndsAt, TargetOf;
    var ms, full, plan := Proposed(entities, aliases), FullOf(entities, aliases), Plan(entities, aliases);
    PlanIs(entities, aliases);
    PlannedTarget(entities, aliases, g, key, m);
    if m.into in Sources(plan) {
      var m' :| m' in plan && m'.from == m.into;
      assert m'.onlyUpper.Some? by {
        assert m.into !in FullSources(plan);
      }
      var i :| 0 <= i < |ms| && Redirect(full, ms[i]) == m';
      ProposedAre(entities, aliases);
      assert ms[i] in ms;
      var e' :| e' in entities && Folds(e', entities, aliases) && ms[i] == FoldOf(e', entities, aliases);
      assert CapitalsFold(e', entities, aliases);
      FirstTargets(entities, aliases, g, key, m);
      SameTarget(entities, aliases, g, key, m.into, e');
    }
  }

  /** An entity with a capitals-only key is the source of a capitals-only merge. */
  lemma CapitalsFoldPlanned(entities: seq<EntityRow>, aliases: seq<AliasRow>, e: EntityRow) returns (m: PlannedMerge)
    requires UniqueNames(entities) && e in entities && CapitalsFold(e, entities, aliases)
    ensures m in Plan(entities, aliases) && m.from == e.name && m.onlyUpper == Some(e.key)
  {
    hide Plan, Proposed, FullMap, Follow, Folds, TargetOf;
    var ms, full := Proposed(entities, aliases), FullOf(entities, aliases);
    PlanIs(entities, aliases);
    ProposedAre(entities, aliases);
    assert FoldOf(e, entities, aliases) in ms;
    var i :| 0 <= i < |ms| && ms[i] == FoldOf(e, entities, aliases);
    m := Redirect(full, ms[i]);
    assert m == Redirected(full, ms)[i];
  }

  /** A planned capitals-only merge comes from an entity with such a key. */
  lemma CapitalsMergeFolds(entities: seq<EntityRow>, aliases: seq<AliasRow>, g: Graph, key: string -> string,
                           m: PlannedMerge) returns (e: EntityRow)
    requires Ready(entities, aliases, g, key) && m in Plan(entities, aliases) && m.onlyUpper.Some?
    ensures e in entities && e.name == m.from && CapitalsFold(e, entities, aliases) && m.onlyUpper == Some(e.key)
  {
    hide Plan, Proposed, FullMap, Follow, Folds, KeyFold, TargetOf, Ready;
    var p := Proposal(entities, aliases, g, key, m);
    e :| e in entities && Folds(e, entities, aliases) && p == FoldOf(e, entities, aliases);
  }

  /** A planned merge ends at an alias's target or at the first of a key's group. */
  ghost predicate FirstTarget(entities: seq<EntityRow>, aliases: seq<AliasRow>, x: string) {
    || (exists a :: a in aliases && a.target == x)
    || (exists e, c :: KeyFold(entities, aliases, e, c) && c.name == x)
  }

  lemma FirstTargets(entities: seq<EntityRow>, aliases: seq<AliasRow>, g: Graph, key: string -> string, m: PlannedMerge)
    requires Ready(entities, aliases, g, key) && m in Plan(entities, aliases)
    ensures FirstTarget(entities, aliases, m.into)
  {
    var ms, full := Proposed(entities, aliases), FullOf(entities, aliases);
    PlanIs(entities, aliases);
    ProposedAre(entities, aliases);
    FullMapIs(ms);
    forall p | p in ms ensures FirstTarget(entities, aliases, p.into) {
      if e :| e in entities && Folds(e, entities, aliases) && p == FoldOf(e, entities, aliases) {
        KeyTarget(entities, aliases, g, key, e);
      } else {
        var e, c :| KeyFold(entities, aliases, e, c) && p == NormMerge(e, c);
      }
    }
    var i :| 0 <= i < |ms| && Redirect(full, ms[i]) == m;
    assert ms[i] in ms;
    ProposedSound(entities, aliases, ms[i]);
    FollowStays(full, ms[i].from, ms[i].into, {});
    if m.into != ms[i].into {
      var x :| x in full && full[x] == m.into;
      var p :| p in ms && p.onlyUpper.None? && p.from == x;
      assert p.into == m.into;
    }
  }

  lemma SameTarget(entities: seq<EntityRow>, aliases: seq<AliasRow>, g: Graph, key: string -> string, x: string,
                   e: EntityRow)
    requires Ready(entities, aliases, g, key)
    requires FirstTarget(entities, aliases, x) && e in entities && e.name == x
    ensures !CapitalsFold(e, entities, aliases)
  {
    if a :| a in aliases && a.target == x {
    } else {
      var b, c :| KeyFold(entities, aliases, b, c) && c.name == x;
      CanonStays(entities, aliases, g, key, b, c);
      SameNameSameRow(entities, c, e);
    }
  }

  // ── The graph part-way through the plan ──

  /** Where the run sends an alias that pointed at `x`: on, if `x` is gone. */
  ghost predicate SentOn(run: seq<PlannedMerge>, g: Graph, x: string, y: string) {
    if x in g.entities then y == x else exists m :: m in run && m.from == x && m.into == y
  }

  /** `run` has been executed on `start`: its full sources are gone and nothing but its
      sources is; a gone entity's alias points where its merge went, and the others follow. */
  ghost predicate RanSoFar(start: Graph, g: Graph, run: seq<PlannedMerge>) {
    && g.entities.Keys <= start.entities.Keys
    && (forall x | x in g.entities :: g.entities[x] == start.entities[x])
    && (forall x | x in start.entities && x !in g.entities :: x in Sources(run))
    && (forall m | m in run && m.onlyUpper.None? :: m.from !in g.entities)
    && (forall x | x in start.entities && x !in g.entities ::
          && x in g.aliases
          && (g.aliases[x].caseSensitive <==> x in start.aliases && start.aliases[x].caseSensitive)
          && exists m :: m in run && m.from == x && m.into == g.aliases[x].target)
    && (forall x | x in g.entities || x !in start.entities ::
          && (x in g.aliases <==> x in start.aliases)
          && (x in g.aliases ==>
                && g.aliases[x].caseSensitive == start.aliases[x].caseSensitive
                && SentOn(run, g, start.aliases[x].target, g.aliases[x].target)))
  }

  /** Everything a run needs of its merges: no target is a source, sources differ. */
  ghost predicate Separate(start: Graph, run: seq<PlannedMerge>) {
    && UniqueSources(run)
    && (forall m | m in run :: m.from in start.entities && m.into in start.entities)
    && (forall m, m' | m in run && m' in run :: m.into != m'.from)
  }

  /** The aliases after `finish_merge`. */
  ghost predicate FinishedAliases(g: Graph, m: PlannedMerge, g': Graph)
    requires m.from in g.entities
  {
    && m.from in g'.aliases && g'.aliases[m.from].target == m.into
    && g'.aliases[m.from].caseSensitive == (m.from in g.aliases && g.aliases[m.from].caseSensitive)
    && (forall x | x != m.from ::
          && (x in g'.aliases <==> x in g.aliases)
          && (x in g.aliases ==>
                && g'.aliases[x].caseSensitive == g.aliases[x].caseSensitive
                && g'.aliases[x].target == if g.aliases[x].target == m.from then m.into else g.aliases[x].target))
  }

  /** A merge either leaves nodes and aliases alone (capitals-only, with mentions left) or
      finishes. */
  lemma RunOneShape(g: Graph, m: PlannedMerge, capitals: string -> set<NoteId>)
    requires m.from in g.entities && m.into in g.entities && m.from != m.into
    ensures var g' := RunOne(g, m, capitals);
            || (m.onlyUpper.Some? && g'.entities == g.entities && g'.aliases == g.aliases)
            || (g'.entities == g.entities - {m.from} && FinishedAliases(g, m, g'))
  {
    hide Statement.Effect, NotesOf, MovedHidden;
  }

  lemma RunOneStep(start: Graph, g: Graph, run: seq<PlannedMerge>, m: PlannedMerge, capitals: string -> set<NoteId>)
    requires Separate(start, run + [m])
    requires RanSoFar(start, g, run)
    ensures m.from in g.entities && m.into in g.entities
    ensures RanSoFar(start, RunOne(g, m, capitals), run + [m])
  {
    hide RunOne;
    var all, g' := run + [m], RunOne(g, m, capitals);
    assert m in all && forall p | p in run :: p in all;
    forall p | p in run ensures p.from != m.from {
      var i :| 0 <= i < |run| && run[i] == p;
      assert all[i] == p && all[|run|] == m;
    }
    assert m.from !in Sources(run) && m.into !in Sources(run);
    assert Sources(all) == Sources(run) + {m.from};
    RunOneShape(g, m, capitals);
    if g'.entities == g.entities {
      UnfinishedStep(start, g, run, m, g');
    } else {
      FinishedStep(start, g, run, m, g');
    }
  }

  lemma UnfinishedStep(start: Graph, g: Graph, run: seq<PlannedMerge>, m: PlannedMerge, g': Graph)
    requires RanSoFar(start, g, run)
    requires g'.entities == g.entities && g'.aliases == g.aliases && m.onlyUpper.Some?
    ensures RanSoFar(start, g', run + [m])
  {
    assert forall p | p in run :: p in run + [m];
    assert forall x, y :: SentOn(run, g, x, y) ==> SentOn(run + [m], g', x, y);
    assert Sources(run) <= Sources(run + [m]);
  }

  lemma FinishedStep(start: Graph, g: Graph, run: seq<PlannedMerge>, m: PlannedMerge, g': Graph)
    requires RanSoFar(start, g, run)
    requires forall p | p in run :: p.into != m.from
    requires m.from in g.entities && m.into in g.entities && m.from != m.into
    requires g'.entities == g.entities - {m.from} && FinishedAliases(g, m, g')
    ensures RanSoFar(start, g', run + [m])
  {
    var all := run + [m];
    assert m in all && forall p | p in run :: p in all;
    assert Sources(all) == Sources(run) + {m.from};
    forall x | x in start.entities && x !in g'.entities
      ensures x in g'.aliases
      ensures g'.aliases[x].caseSensitive <==> x in start.aliases && start.aliases[x].caseSensitive
      ensures exists p :: p in all && p.from == x && p.into == g'.aliases[x].target
    {
      if x != m.from {
        var p :| p in run && p.from == x && p.into == g.aliases[x].target;
        assert p in all && p.into == g'.aliases[x].target;
      } else {
        assert m in all && m.into == g'.aliases[x].target;
      }
    }
    forall x | x in g'.entities || x !in start.entities
      ensures x in g'.aliases <==> x in start.aliases
      ensures x in g'.aliases ==> g'.aliases[x].caseSensitive == start.aliases[x].caseSensitive
      ensures x in g'.aliases ==> SentOn(all, g', start.aliases[x].target, g'.aliases[x].target)
    {
      if x in g'.aliases {
        StillSentOn(g, run, m, g', start.aliases[x].target, g.aliases[x].target);
      }
    }
  }

  lemma StillSentOn(g: Graph, run: seq<PlannedMerge>, m: PlannedMerge, g': Graph, t: string, y: string)
    requires SentOn(run, g, t, y)
    requires forall p | p in run :: p.into != m.from
    requires g'.entities == g.entities - {m.from}
    ensures SentOn(run + [m], g', t, if y == m.from then m.into else y)
  {
    var all := run + [m];
    if t !in g.entities {
      var p :| p in run && p.from == t && p.into == y;
      assert p in all;
    } else if t == m.from {
      assert m in all;
    }
  }

  /** The run never fails to find a node, and leaves the graph as `RanSoFar` says. */
  lemma {:induction false} RunFinds(start: Graph, run: seq<PlannedMerge>, capitals: string -> set<NoteId>)
    requires Separate(start, run)
    requires forall x | x in start.aliases :: start.aliases[x].target in start.entities
    ensures RanSoFar(start, RunPlan(start, run, capitals), run)
    ensures forall i | 0 <= i < |run| ::
              run[i].from in RunPlan(start, run[..i], capitals).entities
              && run[i].into in RunPlan(start, run[..i], capitals).entities
  {
    hide RanSoFar, RunOne, Separate;
    if run == [] {
      NothingRan(start);
    } else {
      var n := |run| - 1;
      var before := run[..n];
      assert run == before + [run[n]];
      SeparatePrefix(start, run);
      RunFinds(start, before, capitals);
      RunOneStep(start, RunPlan(start, before, capitals), before, run[n], capitals);
      forall i | 0 <= i < |run|
        ensures run[i].from in RunPlan(start, run[..i], capitals).entities
        ensures run[i].into in RunPlan(start, run[..i], capitals).entities
      {
        if i < n {
          assert before[i] == run[i] && before[..i] == run[..i];
        }
      }
    }
  }

  lemma SeparatePrefix(start: Graph, run: seq<PlannedMerge>)
    requires Separate(start, run) && run != []
    ensures Separate(start, run[..|run| - 1])
  {
    assert forall m | m in run[..|run| - 1] :: m in run;
  }

  lemma NothingRan(start: Graph)
    requires forall x | x in start.aliases :: start.aliases[x].target in start.entities
    ensures RanSoFar(start, start, [])
  {
  }

  // ── Safety ──

  lemma RunIsSeparate(entities: seq<EntityRow>, aliases: seq<AliasRow>, g: Graph, key: string -> string,
                      run: seq<PlannedMerge>)
    requires Ready(entities, aliases, g, key)
    requires Thinned(Plan(entities, aliases), run)
    ensures Separate(g, run)
  {
    PlanSound(entities, aliases);
    forall m, m' | m in run && m' in run ensures m.into != m'.from {
      TargetIsNoSource(entities, aliases, g, key, m);
    }
  }

  /** Running the plan (or any of its merges that includes the full ones, in any order)
      never fails to find a node. */
  lemma PlanIsSafe(entities: seq<EntityRow>, aliases: seq<AliasRow>, g: Graph, key: string -> string,
                   run: seq<PlannedMerge>, capitals: string -> set<NoteId>)
    requires Ready(entities, aliases, g, key)
    requires Thinned(Plan(entities, aliases), run)
    ensures forall i | 0 <= i < |run| ::
              run[i].from in RunPlan(g, run[..i], capitals).entities
              && run[i].into in RunPlan(g, run[..i], capitals).entities
    ensures RanSoFar(g, RunPlan(g, run, capitals), run)
  {
    RunIsSeparate(entities, aliases, g, key, run);
    RunFinds(g, run, capitals);
  }

  // ── What a run leaves of its sources ──

  /** None of `notes` has the key of this capitals-only merge in capitals. */
  predicate InSmall(notes: set<NoteId>, m: PlannedMerge, capitals: string -> set<NoteId>) {
    m.onlyUpper.Some? && notes != {} && notes !! capitals(m.onlyUpper.value)
  }

  /** The notes of `x`, which nothing is merged into: all of them unless `x` is a source, and
      if it is one and still there, some, none of which has its key in capitals. */
  ghost predicate LeavesOf(start: Graph, g: Graph, run: seq<PlannedMerge>, capitals: string -> set<NoteId>, x: string) {
    if x in Sources(run) then
      x in g.entities ==> forall m | m in run && m.from == x :: InSmall(NotesOf(g.mentions, x), m, capitals)
    else
      NotesOf(g.mentions, x) == NotesOf(start.mentions, x)
  }

  lemma OneLeaves(g: Graph, m: PlannedMerge, capitals: string -> set<NoteId>, x: string)
    requires m.from in g.entities && m.into in g.entities && m.from != m.into && m.into != x
    ensures var g' := RunOne(g, m, capitals);
            && (m.from != x ==> NotesOf(g'.mentions, x) == NotesOf(g.mentions, x))
            && (m.from == x && x in g'.entities ==> InSmall(NotesOf(g'.mentions, x), m, capitals))
            && (x in g'.entities ==> x in g.entities)
  {
    var upper := if m.onlyUpper.Some? then Some(capitals(m.onlyUpper.value)) else None;
    var moved := MoveStatement(g, m.from, m.into, upper).Effect(g.mentions);
    MovedNotes(g, m.from, m.into, upper, x);
    hide Statement.Effect, NotesOf, MovedHidden, Repointed;
    if x != m.from {
      NotesLeft(moved, m.from, x);
    }
  }

  /** A statement moves the selected notes of its source, and those of nothing else. */
  lemma MovedNotes(g: Graph, from: string, into: string, upper: Option<set<NoteId>>, x: string)
    requires from in g.entities && from != into && into != x
    ensures var moved := MoveStatement(g, from, into, upper).Effect(g.mentions);
            NotesOf(moved, x) == if from != x then NotesOf(g.mentions, x)
                                 else if upper.Some? then NotesOf(g.mentions, x) - upper.value else {}
  {
    var st := MoveStatement(g, from, into, upper);
    forall n ensures Edge(n, x) in st.Effect(g.mentions)
                     <==> Edge(n, x) in g.mentions && (from != x || !st.Selects(g.mentions, n))
    {
      EffectAt(st, g.mentions, Edge(n, x));
      if x != from {
        RowFrame(st, g.mentions, n, Edge(n, x));
      }
    }
    hide Statement.Effect, Statement.RowOrSame;
    NotesAre(st.Effect(g.mentions), x);
    NotesAre(g.mentions, x);
    hide NotesOf;
  }

  lemma NotesAre(ms: Mentions, x: string)
    ensures forall n :: n in NotesOf(ms, x) <==> Edge(n, x) in ms
  {
  }

  lemma NotesLeft(ms: Mentions, gone: string, x: string)
    requires x != gone
    ensures NotesOf(ms - (set k | k in ms && k.entity == gone), x) == NotesOf(ms, x)
  {
  }

  lemma {:induction false} RunLeaves(start: Graph, run: seq<PlannedMerge>, capitals: string -> set<NoteId>, x: string)
    requires UniqueSources(run) && forall m | m in run :: m.from != m.into && m.into != x
    requires forall i | 0 <= i < |run| ::
               && run[i].from in RunPlan(start, run[..i], capitals).entities
               && run[i].into in RunPlan(start, run[..i], capitals).entities
    ensures LeavesOf(start, RunPlan(start, run, capitals), run, capitals, x)
  {
    hide InSmall, RunOne, LeavesOf;
    if run == [] {
      NothingLeft(start, capitals, x);
    } else {
      var m, but := run[|run| - 1], run[..|run| - 1];
      assert run == but + [m];
      forall i | 0 <= i < |but|
        ensures but[i].from in RunPlan(start, but[..i], capitals).entities
        ensures but[i].into in RunPlan(start, but[..i], capitals).entities
      {
        assert but[..i] == run[..i] && but[i] == run[i];
      }
      RunLeaves(start, but, capitals, x);
      OneLeaves(RunPlan(start, but, capitals), m, capitals, x);
      OtherSource(run, but, m);
      LeavesStep(start, RunPlan(start, but, capitals), but, m, capitals, x);
    }
  }

  lemma NothingLeft(start: Graph, capitals: string -> set<NoteId>, x: string)
    ensures LeavesOf(start, start, [], capitals, x)
  {
  }

  lemma LeavesStep(start: Graph, g: Graph, but: seq<PlannedMerge>, m: PlannedMerge, capitals: string -> set<NoteId>,
                   x: string)
    requires LeavesOf(start, g, but, capitals, x) && m.from !in Sources(but)
    requires var g' := RunOne(g, m, capitals);
             && (m.from != x ==> NotesOf(g'.mentions, x) == NotesOf(g.mentions, x))
             && (m.from == x && x in g'.entities ==> InSmall(NotesOf(g'.mentions, x), m, capitals))
             && (x in g'.entities ==> x in g.entities)
    ensures LeavesOf(start, RunOne(g, m, capitals), but + [m], capitals, x)
  {
    hide InSmall, RunOne, NotesOf;
    assert forall p :: p in but + [m] <==> p in but || p == m;
    assert Sources(but + [m]) == Sources(but) + {m.from};
  }

  lemma OtherSource(run: seq<PlannedMerge>, but: seq<PlannedMerge>, m: PlannedMerge)
    requires UniqueSources(run) && run == but + [m]
    ensures m.from !in Sources(but)
  {
    forall i | 0 <= i < |but| ensures but[i].from != m.from {
      assert run[i] == but[i] && run[|but|] == m;
    }
  }

  // ── Stability ──

  /** One sync and the rows of the next: `entities` and `aliases` describe `g`, the plan's
      merges `run` took it to `g'`, which `entities'` and `aliases'` describe. */
  ghost predicate Synced(entities: seq<EntityRow>, aliases: seq<AliasRow>, g: Graph, run: seq<PlannedMerge>,
                         entities': seq<EntityRow>, aliases': seq<AliasRow>, g': Graph, key: string -> string) {
    && Ready(entities, aliases, g, key)
    && Thinned(Plan(entities, aliases), run)
    && RanSoFar(g, g', run)
    && Describes(entities', aliases', g', key) && Inv(g')
  }

  lemma RowBefore(entities: seq<EntityRow>, aliases: seq<AliasRow>, g: Graph, run: seq<PlannedMerge>,
                  entities': seq<EntityRow>, aliases': seq<AliasRow>, g': Graph, key: string -> string, e': EntityRow)
      returns (e: EntityRow)
    requires Synced(entities, aliases, g, run, entities', aliases', g', key)
    requires e' in entities'
    ensures e in entities && e.name == e'.name && e.seeded == e'.seeded && e.distinct == e'.distinct
    ensures !e.distinct ==> e.key == e'.key
    ensures e.name !in FullOf(entities, aliases)
  {
    assert Named(entities, e'.name);
    e :| e in entities && e.name == e'.name;
    PlanIs(entities, aliases);
    forall m | m in Plan(entities, aliases) && m.onlyUpper.None? ensures m.from != e.name {
      assert m in run;
    }
  }

  /** After the plan an alias points at the end of its key's old chain, or, for a key that
      had no alias, at the first of the group that was folded. */
  ghost predicate AliasAfter(entities: seq<EntityRow>, aliases: seq<AliasRow>, a': AliasRow) {
    && (forall a | a in aliases && a.key == a'.key :: EndsAt(FullOf(entities, aliases), a.target, a'.target))
    && ((forall a | a in aliases :: a.key != a'.key) ==>
          exists e, c :: KeyFold(entities, aliases, e, c) && e.key == a'.key && a'.target == c.name)
  }

  lemma AliasesAfter(entities: seq<EntityRow>, aliases: seq<AliasRow>, g: Graph, run: seq<PlannedMerge>,
                     entities': seq<EntityRow>, aliases': seq<AliasRow>, g': Graph, key: string -> string, a': AliasRow)
    requires Synced(entities, aliases, g, run, entities', aliases', g', key)
    requires a' in aliases'
    ensures AliasAfter(entities, aliases, a')
    ensures FirstTarget(entities, aliases, a'.target)
  {
    hide Plan, FullOf, KeyFold, EndsAt, FirstTarget, SentOn, AliasAfter;
    var x := a'.name;
    if x in g.entities && x !in g'.entities {
      var m :| m in run && m.from == x && m.into == g'.aliases[x].target;
      NewAliasAfter(entities, aliases, g, key, m, a');
    } else {
      var a :| a in aliases && a.name == x;
      OldAliasAfter(entities, aliases, g, run, g', key, a, a'.target);
      SameKeyAfter(entities, aliases, a, a');
    }
  }

  lemma SameKeyAfter(entities: seq<EntityRow>, aliases: seq<AliasRow>, a: AliasRow, a': AliasRow)
    requires OneTargetPerKey(aliases) && a in aliases && a.key == a'.key
    requires EndsAt(FullOf(entities, aliases), a.target, a'.target)
    ensures AliasAfter(entities, aliases, a')
  {
  }

  lemma NewAliasAfter(entities: seq<EntityRow>, aliases: seq<AliasRow>, g: Graph, key: string -> string,
                      m: PlannedMerge, a': AliasRow)
    requires Ready(entities, aliases, g, key) && m in Plan(entities, aliases)
    requires a'.target == m.into && a'.key == key(m.from)
    ensures AliasAfter(entities, aliases, a')
    ensures FirstTarget(entities, aliases, a'.target)
  {
    FirstTargets(entities, aliases, g, key, m);
    PlannedTarget(entities, aliases, g, key, m);
    hide Plan, FullOf, KeyFold, EndsAt, FirstTarget;
  }

  lemma OldAliasAfter(entities: seq<EntityRow>, aliases: seq<AliasRow>, g: Graph, run: seq<PlannedMerge>,
                      g': Graph, key: string -> string, a: AliasRow, y: string)
    requires Ready(entities, aliases, g, key) && Thinned(Plan(entities, aliases), run) && RanSoFar(g, g', run)
    requires a in aliases && SentOn(run, g', a.target, y)
    ensures EndsAt(FullOf(entities, aliases), a.target, y)
    ensures FirstTarget(entities, aliases, y)
  {
    var t := a.target;
    PlanIs(entities, aliases);
    if t in g'.entities {
      assert t !in FullOf(entities, aliases) by {
        forall m | m in Plan(entities, aliases) && m.onlyUpper.None? ensures m.from != t {
          assert m in run;
        }
      }
      AtOnce(FullOf(entities, aliases), t);
    } else {
      var m :| m in run && m.from == t && m.into == y;
      FirstTargets(entities, aliases, g, key, m);
      PlannedTarget(entities, aliases, g, key, m);
      AliasTargetIsFull(entities, aliases, m, a);
      FullMergeEnds(entities, aliases, m);
    }
  }

  /** A planned merge of an alias's target is a full one. */
  lemma AliasTargetIsFull(entities: seq<EntityRow>, aliases: seq<AliasRow>, m: PlannedMerge, a: AliasRow)
    requires UniqueNames(entities) && NoCapitalsTarget(entities, aliases)
    requires m in Plan(entities, aliases) && a in aliases && a.target == m.from
    ensures m.onlyUpper.None?
  {
    var ms, full := Proposed(entities, aliases), FullOf(entities, aliases);
    PlanIs(entities, aliases);
    ProposedAre(entities, aliases);
    var i :| 0 <= i < |ms| && Redirect(full, ms[i]) == m;
    assert ms[i] in ms;
    hide Plan, Proposed, FullOf, Follow, KeyFold, TargetOf, Folds;
    if e :| e in entities && Folds(e, entities, aliases) && ms[i] == FoldOf(e, entities, aliases) {
      assert !CapitalsFold(e, entities, aliases);
    }
  }

  lemma CapitalsAfter(entities: seq<EntityRow>, aliases: seq<AliasRow>, g: Graph, run: seq<PlannedMerge>,
                      entities': seq<EntityRow>, aliases': seq<AliasRow>, g': Graph, key: string -> string, k: string)
    requires Synced(entities, aliases, g, run, entities', aliases', g', key)
    ensures CapitalsOnly(k, aliases') <==> CapitalsOnly(k, aliases)
  {
    hide Plan, SentOn;
    if CapitalsOnly(k, aliases') {
      var a' :| a' in aliases' && a'.caseSensitive && a'.key == k;
      assert a'.name in g.aliases;
    }
    if CapitalsOnly(k, aliases) {
      var a :| a in aliases && a.caseSensitive && a.key == k;
      assert a.name in g'.aliases;
    }
  }

  lemma OneTargetAfter(entities: seq<EntityRow>, aliases: seq<AliasRow>, g: Graph, run: seq<PlannedMerge>,
                       entities': seq<EntityRow>, aliases': seq<AliasRow>, g': Graph, key: string -> string)
    requires Synced(entities, aliases, g, run, entities', aliases', g', key)
    ensures OneTargetPerKey(aliases')
  {
    hide AliasAfter;
    forall a', b' | a' in aliases' && b' in aliases' && a'.key == b'.key ensures a'.target == b'.target {
      AliasesAfter(entities, aliases, g, run, entities', aliases', g', key, a');
      AliasesAfter(entities, aliases, g, run, entities', aliases', g', key, b');
      SameAfter(entities, aliases, a', b');
    }
  }

  lemma SameAfter(entities: seq<EntityRow>, aliases: seq<AliasRow>, a': AliasRow, b': AliasRow)
    requires UniqueNames(entities)
    requires AliasAfter(entities, aliases, a') && AliasAfter(entities, aliases, b') && a'.key == b'.key
    ensures a'.target == b'.target
  {
    if a :| a in aliases && a.key == a'.key {
      EndUnique(FullOf(entities, aliases), a.target, a'.target, b'.target);
    } else {
      var e, c :| KeyFold(entities, aliases, e, c) && e.key == a'.key && a'.target == c.name;
      var f, d :| KeyFold(entities, aliases, f, d) && f.key == a'.key && b'.target == d.name;
      MembersAre(entities, FullSources(SeedOf(entities, aliases)));
      CanonUnique(MembersOf(entities, aliases), c, d);
    }
  }

  lemma CapitalsPointAfter(entities: seq<EntityRow>, aliases: seq<AliasRow>, g: Graph, run: seq<PlannedMerge>,
                           entities': seq<EntityRow>, aliases': seq<AliasRow>, g': Graph, key: string -> string)
    requires Synced(entities, aliases, g, run, entities', aliases', g', key)
    ensures CapitalsPointAtSeeded(entities', aliases')
  {
    forall a' | a' in aliases' && CapitalsOnly(a'.key, aliases')
      ensures exists e' :: e' in entities' && e'.name == a'.target && e'.seeded
    {
      CapitalsAfter(entities, aliases, g, run, entities', aliases', g', key, a'.key);
      AliasesAfter(entities, aliases, g, run, entities', aliases', g', key, a');
      var a :| a in aliases && a.caseSensitive && a.key == a'.key;
      var t :| t in entities && t.name == a.target && t.seeded;
      SeededStays(entities, aliases, t);
      AtOnce(FullOf(entities, aliases), t.name);
      EndUnique(FullOf(entities, aliases), t.name, t.name, a'.target);
      assert Named(entities', a'.target);
    }
  }

  /** No entity that is left is folded by an alias outright. */
  lemma NoAliasFoldAfter(entities: seq<EntityRow>, aliases: seq<AliasRow>, g: Graph, run: seq<PlannedMerge>,
                         entities': seq<EntityRow>, aliases': seq<AliasRow>, g': Graph, key: string -> string,
                           e': EntityRow)
    requires Synced(entities, aliases, g, run, entities', aliases', g', key)
    requires e' in entities' && !CapitalsOnly(e'.key, aliases')
    ensures !Folds(e', entities', aliases')
  {
    OneTargetAfter(entities, aliases, g, run, entities', aliases', g', key);
    CapitalsAfter(entities, aliases, g, run, entities', aliases', g', key, e'.key);
    var e := RowBefore(entities, aliases, g, run, entities', aliases', g', key, e');
    if !e'.distinct && !e'.seeded && TargetOf(e', aliases').Some? {
      KeyTarget(entities', aliases', g', key, e');
      var a' :| a' in aliases' && a'.key == e'.key;
      AliasesAfter(entities, aliases, g, run, entities', aliases', g', key, a');
      OwnAlias(entities, aliases, g, key, e, a');
    }
  }

  /** An alias with the key of an ordinary entity that was not folded points at it. */
  lemma OwnAlias(entities: seq<EntityRow>, aliases: seq<AliasRow>, g: Graph, key: string -> string,
                 e: EntityRow, a': AliasRow)
    requires Ready(entities, aliases, g, key)
    requires e in entities && !e.distinct && !e.seeded && !CapitalsOnly(e.key, aliases)
    requires e.name !in FullOf(entities, aliases)
    requires AliasAfter(entities, aliases, a') && a'.key == e.key
    ensures a'.target == e.name
  {
    var full := FullOf(entities, aliases);
    FullSourceIs(entities, aliases, e);
    KeyTarget(entities, aliases, g, key, e);
    if a :| a in aliases && a.key == e.key {
      // It would have been folded unless the alias points at it.
      TargetNamed(entities, aliases, g, key, a);
      assert a.target == e.name;
      AtOnce(full, e.name);
      EndUnique(full, e.name, e.name, a'.target);
    } else {
      var x, c :| KeyFold(entities, aliases, x, c) && x.key == e.key && a'.target == c.name;
      MembersAre(entities, FullSources(SeedOf(entities, aliases)));
      FoldsInPhase(entities, aliases, e);
      assert e == c || KeyFold(entities, aliases, e, c);
    }
  }

  /** No two entities that are left still share a key they would be folded by. */
  lemma NoKeyFoldAfter(entities: seq<EntityRow>, aliases: seq<AliasRow>, g: Graph, run: seq<PlannedMerge>,
                       entities': seq<EntityRow>, aliases': seq<AliasRow>, g': Graph, key: string -> string,
                       e': EntityRow, c': EntityRow)
    requires Synced(entities, aliases, g, run, entities', aliases', g', key)
    ensures !KeyFold(entities', aliases', e', c')
  {
    if KeyFold(entities', aliases', e', c') {
      MembersAre(entities', FullSources(SeedOf(entities', aliases')));
      if e'.name == c'.name {
        SameNameSameRow(entities', e', c');
      }
      OneTargetAfter(entities, aliases, g, run, entities', aliases', g', key);
      CapitalsPointAfter(entities, aliases, g, run, entities', aliases', g', key);
      CanonStays(entities', aliases', g', key, e', c');
      CapitalsAfter(entities, aliases, g, run, entities', aliases', g', key, e'.key);
      var e := RowBefore(entities, aliases, g, run, entities', aliases', g', key, e');
      var c := RowBefore(entities, aliases, g, run, entities', aliases', g', key, c');
      FoldsInPhase(entities', aliases', e');
      FoldsInPhase(entities', aliases', c');
      if CapitalsOnly(e.key, aliases) {
        CapitalsAlwaysFold(entities', aliases', g', key, e');
      }
      var d := LeftAlone(entities, aliases, e);
      var d' := LeftAlone(entities, aliases, c);
      CanonUnique(MembersOf(entities, aliases), d, d');
      assert false;
    }
  }

  /** An entity that was not folded, with a key that needs no capitals, is seeded or the
      first of its key's group. */
  lemma LeftAlone(entities: seq<EntityRow>, aliases: seq<AliasRow>, e: EntityRow) returns (d: EntityRow)
    requires UniqueNames(entities)
    requires e in entities && !e.distinct && !AllDigits(e.key) && !CapitalsOnly(e.key, aliases)
    requires e.name !in FullOf(entities, aliases)
    ensures IsCanon(MembersOf(entities, aliases), d) && d.key == e.key && UniqueNames(MembersOf(entities, aliases))
    ensures e == d || (e.seeded && d.seeded)
  {
    var members := MembersOf(entities, aliases);
    MembersAre(entities, FullSources(SeedOf(entities, aliases)));
    FullSourceIs(entities, aliases, e);
    FoldsInPhase(entities, aliases, e);
    RankedIs(members, e.key);
    d := Ranked(GroupOf(members, e.key))[0];
    assert d in Ranked(GroupOf(members, e.key));
    assert e == d || e.seeded || KeyFold(entities, aliases, e, d);
    assert RankLe(d, e);
  }

  /** Planning again on the result proposes capitals-only merges at most. */
  lemma PlanIsStable(entities: seq<EntityRow>, aliases: seq<AliasRow>, g: Graph, run: seq<PlannedMerge>,
                     entities': seq<EntityRow>, aliases': seq<AliasRow>, g': Graph, key: string -> string)
    requires Synced(entities, aliases, g, run, entities', aliases', g', key)
    ensures forall m | m in Plan(entities', aliases') :: m.onlyUpper.Some?
    ensures FullOf(entities', aliases') == map[]
  {
    PlanSound(entities', aliases');
    PlanIs(entities', aliases');
    forall m | m in Plan(entities', aliases') ensures m.onlyUpper.Some? {
      var e' :| e' in entities' && e'.name == m.from;
      FullSourceIs(entities', aliases', e');
      if !CapitalsOnly(e'.key, aliases') {
        NoAliasFoldAfter(entities, aliases, g, run, entities', aliases', g', key, e');
      }
      forall c' ensures !KeyFold(entities', aliases', e', c') {
        NoKeyFoldAfter(entities, aliases, g, run, entities', aliases', g', key, e', c');
      }
      assert m.from !in FullSources(Plan(entities', aliases'));
    }
    assert FullSources(Plan(entities', aliases')) == {};
  }

  /** A graph that was ready for a sync is ready for the next one. */
  lemma StaysReady(entities: seq<EntityRow>, aliases: seq<AliasRow>, g: Graph, run: seq<PlannedMerge>,
                   entities': seq<EntityRow>, aliases': seq<AliasRow>, g': Graph, key: string -> string)
    requires Synced(entities, aliases, g, run, entities', aliases', g', key)
    ensures Ready(entities', aliases', g', key)
  {
    OneTargetAfter(entities, aliases, g, run, entities', aliases', g', key);
    CapitalsPointAfter(entities, aliases, g, run, entities', aliases', g', key);
    PlanIsStable(entities, aliases, g, run, entities', aliases', g', key);
    forall a' | a' in aliases' ensures exists y :: EndsAt(FullOf(entities', aliases'), a'.target, y) {
      AtOnce(FullOf(entities', aliases'), a'.target);
    }
    forall a', e' | a' in aliases' && e' in entities' && e'.name == a'.target
      ensures !CapitalsFold(e', entities', aliases')
    {
      NoCapitalsAfter(entities, aliases, g, run, entities', aliases', g', key, a', e');
    }
  }

  lemma NoCapitalsAfter(entities: seq<EntityRow>, aliases: seq<AliasRow>, g: Graph, run: seq<PlannedMerge>,
                        entities': seq<EntityRow>, aliases': seq<AliasRow>, g': Graph, key: string -> string,
                        a': AliasRow, e': EntityRow)
    requires Synced(entities, aliases, g, run, entities', aliases', g', key)
    requires a' in aliases' && e' in entities' && e'.name == a'.target
    ensures !CapitalsFold(e', entities', aliases')
  {
    AliasesAfter(entities, aliases, g, run, entities', aliases', g', key, a');
    CapitalsAfter(entities, aliases, g, run, entities', aliases', g', key, e'.key);
    var e := RowBefore(entities, aliases, g, run, entities', aliases', g', key, e');
    SameTarget(entities, aliases, g, key, a'.target, e);
    if CapitalsFold(e', entities', aliases') {
      CapitalsAlwaysFold(entities, aliases, g, key, e);
    }
  }

  // ── Split-out entities ──

  lemma {:induction false} UntouchedStays(g: Graph, run: seq<PlannedMerge>, capitals: string -> set<NoteId>, x: string)
    requires x in g.entities && x !in Sources(run)
    ensures x in RunPlan(g, run, capitals).entities
    ensures RunPlan(g, run, capitals).entities[x] == g.entities[x]
    ensures forall n | Edge(n, x) in g.mentions :: Edge(n, x) in RunPlan(g, run, capitals).mentions
  {
    if run != [] {
      var n := |run| - 1;
      var m, before := run[n], RunPlan(g, run[..n], capitals);
      assert forall p | p in run[..n] :: p in run;
      UntouchedStays(g, run[..n], capitals, x);
      assert m in run;
      MergeLeaves(before, m, capitals, x);
    }
  }

  lemma MergeLeaves(g: Graph, m: PlannedMerge, capitals: string -> set<NoteId>, x: string)
    requires x in g.entities && m.from != x
    ensures x in RunOne(g, m, capitals).entities && RunOne(g, m, capitals).entities[x] == g.entities[x]
    ensures forall n | Edge(n, x) in g.mentions :: Edge(n, x) in RunOne(g, m, capitals).mentions
  {
    if m.from != m.into && m.from in g.entities && m.into in g.entities {
      var st := MoveStatement(g, m.from, m.into, if m.onlyUpper.Some? then Some(capitals(m.onlyUpper.value)) else None);
      forall n | Edge(n, x) in g.mentions ensures Edge(n, x) in st.Effect(g.mentions) {
        EffectAt(st, g.mentions, Edge(n, x));
        if x != m.into {
          RowFrame(st, g.mentions, n, Edge(n, x));
        }
      }
    }
  }
}
