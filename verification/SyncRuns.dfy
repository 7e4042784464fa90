/** Any number of syncs under the same rules, and what happens in between to a name that a
    person split out (crates/graph/src/entity_resolution.rs and the pruning of
    crates/knowledge/src/knowledge/maintenance.rs). */
module SyncRuns {
  import opened Wrappers
  import opened EntityGraph
  import opened Conservation
  import opened MergePlan
  import opened MergePlanFacts
  import opened PlanRun
  import opened EntitySync
  import opened Resolution

  // ── Seeding again writes nothing new ──

  /** An alias that leads to a curated entity is the same after the merges, also when the
      entity of its name was one of those folded. */
  lemma SeededAliasStays(entities: seq<EntityRow>, aliases: seq<AliasRow>, g: Graph, key: string -> string,
                         run: seq<PlannedMerge>, g': Graph, a: AliasRow, t: EntityRow)
    requires Ready(entities, aliases, g, key) && Thinned(Plan(entities, aliases), run) && RanSoFar(g, g', run)
    requires a in aliases && t in entities && t.seeded && t.name == a.target
    ensures a.target in g'.entities && a.name in g'.aliases
    ensures g'.aliases[a.name].target == a.target && g'.aliases[a.name].caseSensitive == a.caseSensitive
  {
    hide Inv, OneTargetPerKey, Plan, FullOf, EndsAt, AliasChainsEnd, NoCapitalsTarget, CapitalsPointAtSeeded;
    var full := FullOf(entities, aliases);
    SeededStays(entities, aliases, t);
    assert forall m | m in run :: m in Plan(entities, aliases);
    assert a.target in g'.entities;
    if a.name in g.entities && a.name !in g'.entities {
      var m :| m in run && m.from == a.name && m.into == g'.aliases[a.name].target;
      PlannedTarget(entities, aliases, g, key, m);
      var e :| e in entities && e.name == m.from && !e.seeded && !e.distinct
               && forall b | b in aliases && b.key == e.key :: EndsAt(full, b.target, m.into);
      assert e.key == key(a.name) == a.key;
      AtOnce(full, t.name);
      EndUnique(full, t.name, t.name, m.into);
    }
  }

  /** The entity is there with the curated mark and a type that seeding keeps. */
  ghost predicate EntityThere(g: Graph, canonicals: seq<Canonical>, x: Name) {
    IsSeeded(g, x) && g.entities[x].entityType == TypeAfter(canonicals, x, g.entities[x].entityType)
  }

  lemma EntitiesThere(g: Graph, canonicals: seq<Canonical>, newEntity: Name -> Entity)
    requires forall x :: !newEntity(x).distinct
    requires forall c | c in canonicals :: EntityThere(g, canonicals, c.name)
    ensures Run(g, EntityOps(canonicals, newEntity)) == g
  {
    var g' := Run(g, EntityOps(canonicals, newEntity));
    SeededEntities(g, canonicals, newEntity);
    hide Run, EntityOps, TypeAfter;
    forall x ensures Curates(canonicals, x) ==> EntityThere(g, canonicals, x) {
    }
    forall x | x in g.entities ensures x in g'.entities && g'.entities[x] == g.entities[x] {
      SeededTypes(g, canonicals, newEntity, x);
      Uncurated(canonicals, x, g.entities[x].entityType);
    }
    assert g'.entities.Keys == g.entities.Keys;
    assert g'.entities == g.entities;
  }

  lemma {:induction false} Uncurated(canonicals: seq<Canonical>, x: Name, entityType: Option<string>)
    ensures !Curates(canonicals, x) ==> TypeAfter(canonicals, x, entityType) == entityType
    ensures ListedType(canonicals, x).Some? ==> Curates(canonicals, x)
  {
    if canonicals != [] {
      assert canonicals == [canonicals[0]] + canonicals[1..];
      Uncurated(canonicals[1..], x, entityType);
    }
  }

  predicate AliasThere(g: Graph, a: AliasRow) {
    && a.target in g.entities && a.name in g.aliases
    && g.aliases[a.name].target == a.target && g.aliases[a.name].caseSensitive == a.caseSensitive
  }

  lemma {:induction false} AliasesThere(g: Graph, aliases: seq<AliasRow>, curated: Curated)
    requires forall a | a in aliases && curated.Lists(a.name, a.target) :: AliasThere(g, a)
    ensures Run(g, AliasOps(aliases, curated)) == g
    decreases |aliases|
  {
    hide Curated.Lists;
    if aliases == [] {
      RunNone(g);
    } else {
      var a, rest := aliases[0], aliases[1..];
      assert a in aliases && forall b | b in rest :: b in aliases;
      FirstAlias(g, aliases, curated);
      if curated.Lists(a.name, a.target) {
        SeedAliasIs(g, a.name, a.target, a.caseSensitive);
        assert g.aliases[a.name := g.aliases[a.name].(target := a.target, caseSensitive := a.caseSensitive)]
               == g.aliases;
        assert AfterFirst(g, a) == g;
      }
      AliasesThere(g, rest, curated);
    }
  }

  /** A name is split out after the merges exactly if it was before. */
  lemma SameDistinct(g: Graph, pass: Pass, x: Name)
    requires pass.Of(g) && RanSoFar(pass.Seeded(g), pass.After(g), pass.run)
    ensures IsDistinct(pass.After(g), x) == IsDistinct(g, x)
  {
    PassRuns(g, pass);
    RunConcat(g, EntityOps(pass.curated.canonicals, pass.newEntity), AliasOps(pass.aliases, pass.curated));
    SeededEntities(g, pass.curated.canonicals, pass.newEntity);
    OnlyAliases(Run(g, EntityOps(pass.curated.canonicals, pass.newEntity)), pass.aliases, pass.curated);
    if IsDistinct(g, x) {
      NeverASource(g, pass, x);
    }
    hide Run, EntityOps, AliasOps, Plan, RowsOk, AliasesOk, RunPlan, Inv;
  }

  /** A split-out name is no source of a pass. */
  lemma NeverASource(g: Graph, pass: Pass, x: Name)
    requires pass.Of(g) && IsDistinct(g, x)
    ensures x !in Sources(pass.run)
  {
    hide Plan, AliasesOk, Inv, ToRun;
    PassRuns(g, pass);
    PlanSound(pass.rows, pass.aliases);
    forall m | m in pass.run ensures m.from != x {
      var e :| e in pass.rows && e.name == m.from && !e.seeded && !e.distinct;
    }
  }

  lemma CuratedRowSeeded(rows: seq<EntityRow>, g: Graph, curated: Curated, t: Name) returns (row: EntityRow)
    requires RowsOk(rows, g, curated, curated.canonicals) && Curates(curated.canonicals, t)
    ensures row in rows && row.name == t && row.seeded
  {
    assert Named(rows, t);
    row :| row in rows && row.name == t;
  }

  /** Under the same rules the next pass finds every curated entity and alias already there. */
  lemma SeedingAgain(g: Graph, pass: Pass, next: Pass)
    requires pass.Of(g) && Ready(pass.rows, pass.aliases, pass.Seeded(g), pass.curated.key)
    requires next.curated == pass.curated && next.Of(pass.After(g))
    ensures next.Seeded(pass.After(g)) == pass.After(g)
  {
    var g2, g', curated := pass.Seeded(g), pass.After(g), pass.curated;
    PassRuns(g, pass);
    PlanIsSafe(pass.rows, pass.aliases, g2, curated.key, pass.run, pass.capitals);
    forall c | c in curated.canonicals ensures EntityThere(g', curated.canonicals, c.name) {
      CanonicalStays(g, pass, c.name);
    }
    forall a | a in next.aliases && curated.Lists(a.name, a.target) ensures AliasThere(g', a) {
      ListedIsThere(g, pass, next, a);
    }
    hide Run, Plan, RowsOk, AliasesOk, RunPlan, Inv, Ready, Pass.After, AliasThere, EntityThere, EntityOps, AliasOps;
    EntitiesThere(g', curated.canonicals, next.newEntity);
    AliasesThere(g', next.aliases, curated);
    RunConcat(g', EntityOps(curated.canonicals, next.newEntity), AliasOps(next.aliases, curated));
  }

  lemma CanonicalStays(g: Graph, pass: Pass, x: Name)
    requires pass.Of(g) && Ready(pass.rows, pass.aliases, pass.Seeded(g), pass.curated.key)
    requires RanSoFar(pass.Seeded(g), pass.After(g), pass.run) && Curates(pass.curated.canonicals, x)
    ensures EntityThere(pass.After(g), pass.curated.canonicals, x)
  {
    SeededType(g, pass, x);
    hide Plan, AliasesOk, RunPlan, SeededGraph, Inv, ToRun, TypeAfter;
    PassRuns(g, pass);
    var row := CuratedRowSeeded(pass.rows, g, pass.curated, x);
    SeededStays(pass.rows, pass.aliases, row);
    assert forall m | m in pass.run :: m in Plan(pass.rows, pass.aliases);
  }

  /** Seeding leaves each entity with a type that seeding again would keep. */
  lemma SeededType(g: Graph, pass: Pass, x: Name)
    ensures var canonicals, g2, e := pass.curated.canonicals, pass.Seeded(g), EntityOr(g, x, pass.newEntity);
            && (x in g2.entities <==> x in g.entities || Curates(canonicals, x))
            && (x in g2.entities ==>
                  && g2.entities[x].seeded == (e.seeded || Curates(canonicals, x))
                  && g2.entities[x].entityType == TypeAfter(canonicals, x, e.entityType)
                  && g2.entities[x].entityType == TypeAfter(canonicals, x, g2.entities[x].entityType))
  {
    var canonicals := pass.curated.canonicals;
    RunConcat(g, EntityOps(canonicals, pass.newEntity), AliasOps(pass.aliases, pass.curated));
    OnlyAliases(Run(g, EntityOps(canonicals, pass.newEntity)), pass.aliases, pass.curated);
    SeededTypes(g, canonicals, pass.newEntity, x);
    hide Run, EntityOps, AliasOps, ListedType, Curates;
  }

  lemma ListedIsThere(g: Graph, pass: Pass, next: Pass, a: AliasRow)
    requires pass.Of(g) && Ready(pass.rows, pass.aliases, pass.Seeded(g), pass.curated.key)
    requires RanSoFar(pass.Seeded(g), pass.After(g), pass.run)
    requires next.curated == pass.curated && next.Of(pass.After(g))
    requires a in next.aliases && pass.curated.Lists(a.name, a.target)
    ensures AliasThere(pass.After(g), a)
  {
    var curated, g' := pass.curated, pass.After(g);
    PassRuns(g, pass);
    ListedIsCanonical(curated, a.name, a.target);
    CanonicalStays(g, pass, a.target);
    SameDistinct(g, pass, a.name);
    hide Plan, RunPlan, SeededGraph, Inv, ToRun, Ready, RanSoFar, Curated.Lists, RowsOk;
    if FromRules(a, g', curated) {
      assert FromRules(a, g, curated);
      assert a in pass.aliases;
      var row := CuratedRowSeeded(pass.rows, g, curated, a.target);
      SeededAliasStays(pass.rows, pass.aliases, pass.Seeded(g), curated.key, pass.run, g', a, row);
    }
  }

  // ── Any number of passes ──

  ghost predicate PassesFrom(g: Graph, passes: seq<Pass>)
    decreases |passes|
  {
    passes == [] || (passes[0].Of(g) && PassesFrom(passes[0].After(g), passes[1..]))
  }

  function AfterAll(g: Graph, passes: seq<Pass>): Graph
    decreases |passes|
  {
    if passes == [] then g else AfterAll(passes[0].After(g), passes[1..])
  }

  /** Every merge of every pass finds both its entities. */
  ghost predicate AllFound(g: Graph, passes: seq<Pass>)
    decreases |passes|
  {
    passes == [] ||
    (var p := passes[0];
     && (forall i | 0 <= i < |p.run| ::
           && p.run[i].from in RunPlan(p.Seeded(g), p.run[..i], p.capitals).entities
           && p.run[i].into in RunPlan(p.Seeded(g), p.run[..i], p.capitals).entities)
     && AllFound(p.After(g), passes[1..]))
  }

  ghost predicate SameRules(passes: seq<Pass>) {
    forall i, j | 0 <= i < |passes| && 0 <= j < |passes| :: passes[i].curated == passes[j].curated
  }

  /** The rows of the next pass describe the graph that this one leaves. */
  lemma PassSynced(g: Graph, pass: Pass, next: Pass)
    requires pass.Of(g) && Ready(pass.rows, pass.aliases, pass.Seeded(g), pass.curated.key)
    requires next.curated == pass.curated && next.Of(pass.After(g))
    ensures Synced(pass.rows, pass.aliases, pass.Seeded(g), pass.run, next.rows, next.aliases, pass.After(g),
                   pass.curated.key)
    ensures next.Seeded(pass.After(g)) == pass.After(g)
  {
    var g2, g', key := pass.Seeded(g), pass.After(g), pass.curated.key;
    PassRuns(g, pass);
    PassRuns(g', next);
    PlanIsSafe(pass.rows, pass.aliases, g2, key, pass.run, pass.capitals);
    SeedingAgain(g, pass, next);
    StillConsistent(g, pass);
    RowsDescribe(g', next.rows, next.aliases, next.curated, next.newEntity);
    hide Plan, RowsOk, AliasesOk, RunPlan, Ready, ToRun, Describes, RanSoFar, SeededGraph, Curated.Consistent;
  }

  /** After a pass from a ready graph, the next one starts from a ready graph too, and runs
      capitals-only merges at most. */
  lemma NextPass(g: Graph, pass: Pass, next: Pass)
    requires pass.Of(g) && Ready(pass.rows, pass.aliases, pass.Seeded(g), pass.curated.key)
    requires next.curated == pass.curated && next.Of(pass.After(g))
    ensures Ready(next.rows, next.aliases, next.Seeded(pass.After(g)), next.curated.key)
    ensures forall m | m in Plan(next.rows, next.aliases) :: m.onlyUpper.Some?
    ensures forall m | m in next.run :: m.onlyUpper.Some?
  {
    var g2, g', key := pass.Seeded(g), pass.After(g), pass.curated.key;
    PassSynced(g, pass, next);
    PassRuns(g', next);
    hide Plan, RowsOk, AliasesOk, RunPlan, Ready, ToRun, SeededGraph, Synced;
    PlanIsStable(pass.rows, pass.aliases, g2, pass.run, next.rows, next.aliases, g', key);
    StaysReady(pass.rows, pass.aliases, g2, pass.run, next.rows, next.aliases, g', key);
  }

  lemma StillConsistent(g: Graph, pass: Pass)
    requires pass.Of(g) && Ready(pass.rows, pass.aliases, pass.Seeded(g), pass.curated.key)
    requires RanSoFar(pass.Seeded(g), pass.After(g), pass.run)
    ensures pass.curated.Consistent(pass.After(g))
  {
    RowsDescribe(g, pass.rows, pass.aliases, pass.curated, pass.newEntity);
    forall x ensures IsDistinct(pass.After(g), x) == IsDistinct(g, x) {
      SameDistinct(g, pass, x);
    }
    hide Plan, RowsOk, AliasesOk, RunPlan, Inv, ToRun, RanSoFar, SeededGraph, Curated.Lists, IsDistinct;
  }

  /** From a graph that is ready once it is seeded, any number of passes under the same rules
      is safe, and after the first none makes a full merge. */
  lemma {:induction false} PassesAreSafe(g: Graph, passes: seq<Pass>)
    requires passes != [] && PassesFrom(g, passes) && SameRules(passes)
    requires Ready(passes[0].rows, passes[0].aliases, passes[0].Seeded(g), passes[0].curated.key)
    ensures AllFound(g, passes)
    ensures forall i | 1 <= i < |passes| :: forall m | m in passes[i].run :: m.onlyUpper.Some?
    decreases |passes|
  {
    hide Plan, Ready, RunPlan, RanSoFar, Pass.Of, Pass.After, Pass.Seeded;
    var p, rest := passes[0], passes[1..];
    PassIsSafe(g, p);
    if rest != [] {
      assert rest[0] == passes[1];
      NextPass(g, p, rest[0]);
      assert forall i | 0 <= i < |rest| :: rest[i] == passes[i + 1];
      PassesAreSafe(p.After(g), rest);
      forall i | 1 <= i < |passes| ensures forall m | m in passes[i].run :: m.onlyUpper.Some? {
        if i > 1 {
          assert passes[i] == rest[i - 1];
        }
      }
    }
  }

  lemma PassIsSafe(g: Graph, p: Pass)
    requires p.Of(g) && Ready(p.rows, p.aliases, p.Seeded(g), p.curated.key)
    ensures forall i | 0 <= i < |p.run| ::
              && p.run[i].from in RunPlan(p.Seeded(g), p.run[..i], p.capitals).entities
              && p.run[i].into in RunPlan(p.Seeded(g), p.run[..i], p.capitals).entities
  {
    hide Plan, Ready, RunPlan, RanSoFar, SeededGraph, RowsOk, AliasesOk;
    PassRuns(g, p);
    PlanIsSafe(p.rows, p.aliases, p.Seeded(g), p.curated.key, p.run, p.capitals);
  }

  // ── A second pass ──

  /** A capitals-only source of the next plan was one of this plan, under the same key. */
  lemma FoldedBefore(g: Graph, pass: Pass, next: Pass, m: PlannedMerge) returns (p: PlannedMerge)
    requires pass.Of(g) && Ready(pass.rows, pass.aliases, pass.Seeded(g), pass.curated.key)
    requires next.curated == pass.curated && next.Of(pass.After(g))
    requires m in Plan(next.rows, next.aliases)
    ensures p in Plan(pass.rows, pass.aliases) && p.from == m.from && p.onlyUpper == m.onlyUpper
    ensures m.onlyUpper.Some? && m.from in pass.After(g).entities
  {
    var g2, g', key := pass.Seeded(g), pass.After(g), pass.curated.key;
    PassSynced(g, pass, next);
    NextPass(g, pass, next);
    hide Plan, RowsOk, AliasesOk, RunPlan, ToRun, SeededGraph, RanSoFar, Folds, Pass.Of, Pass.After, Pass.Seeded;
    var e' := CapitalsMergeFolds(next.rows, next.aliases, g', key, m);
    var e := RowBefore(pass.rows, pass.aliases, g2, pass.run, next.rows, next.aliases, g', key, e');
    FoldsOrdinary(e', next.rows, next.aliases);
    CapitalsAfter(pass.rows, pass.aliases, g2, pass.run, next.rows, next.aliases, g', key, e.key);
    CapitalsAlwaysFold(pass.rows, pass.aliases, g2, key, e);
    p := CapitalsFoldPlanned(pass.rows, pass.aliases, e);
  }

  lemma FoldsOrdinary(e: EntityRow, entities: seq<EntityRow>, aliases: seq<AliasRow>)
    requires Folds(e, entities, aliases)
    ensures !e.distinct && !e.seeded
  {
  }

  /** A planned merge that does not run leaves notes, none with the key in capitals. */
  lemma NotRun(g: Graph, pass: Pass, p: PlannedMerge)
    requires pass.Of(g) && p in Plan(pass.rows, pass.aliases) && p.onlyUpper.Some? && p !in pass.run
    ensures p.from !in Sources(pass.run) && InSmall(NotesOf(g.mentions, p.from), p, pass.capitals)
  {
    hide Plan, RowsOk, AliasesOk, NotesOf, ToRun;
    var plan := Plan(pass.rows, pass.aliases);
    PassRuns(g, pass);
    PlanSound(pass.rows, pass.aliases);
    ToRunIs(g, plan, pass.capitals);
    forall q | q in pass.run ensures q.from != p.from {
      var i :| 0 <= i < |plan| && plan[i] == q;
      var j :| 0 <= j < |plan| && plan[j] == p;
    }
    var notes, upper := NotesOf(g.mentions, p.from), pass.capitals(p.onlyUpper.value);
    assert notes * upper == {};
    assert forall n :: n in notes && n in upper ==> n in notes * upper;
  }

  /** What a pass leaves to a planned merge of the next one: some notes, and none that had the
      key in capitals. */
  lemma LeftInSmall(g: Graph, pass: Pass, next: Pass, m: PlannedMerge)
    requires pass.Of(g) && Ready(pass.rows, pass.aliases, pass.Seeded(g), pass.curated.key)
    requires next.curated == pass.curated && next.Of(pass.After(g))
    requires m in Plan(next.rows, next.aliases)
    ensures InSmall(NotesOf(pass.After(g).mentions, m.from), m, pass.capitals)
  {
    hide Plan, Ready, NotesOf, InSmall, Pass.Of, Pass.After;
    var p := FoldedBefore(g, pass, next, m);
    PassLeaves(g, pass, p);
    if p !in pass.run {
      NotRun(g, pass, p);
    }
    SameKeyInSmall(NotesOf(pass.After(g).mentions, m.from), p, m, pass.capitals);
  }

  lemma SameKeyInSmall(notes: set<NoteId>, p: PlannedMerge, m: PlannedMerge, capitals: string -> set<NoteId>)
    requires p.onlyUpper == m.onlyUpper
    ensures InSmall(notes, p, capitals) <==> InSmall(notes, m, capitals)
  {
  }

  /** What a pass leaves to the source of a planned merge. */
  lemma PassLeaves(g: Graph, pass: Pass, p: PlannedMerge)
    requires pass.Of(g) && Ready(pass.rows, pass.aliases, pass.Seeded(g), pass.curated.key)
    requires p in Plan(pass.rows, pass.aliases)
    ensures LeavesOf(g, pass.After(g), pass.run, pass.capitals, p.from)
  {
    var g2, key := pass.Seeded(g), pass.curated.key;
    PassRuns(g, pass);
    PlanSound(pass.rows, pass.aliases);
    RowsDescribe(g, pass.rows, pass.aliases, pass.curated, pass.newEntity);
    PlanIsSafe(pass.rows, pass.aliases, g2, key, pass.run, pass.capitals);
    hide Plan, RowsOk, AliasesOk, RunPlan, ToRun, SeededGraph, RanSoFar, Ready, NotesOf, Describes, Curated.Consistent;
    forall q | q in pass.run ensures q.from != q.into && q.into != p.from {
      TargetIsNoSource(pass.rows, pass.aliases, g2, key, q);
    }
    RunLeaves(g2, pass.run, pass.capitals, p.from);
  }

  /** A note that mentions the merge's source has the key in capitals now, and had not. */
  ghost predicate NewInCapitals(g: Graph, m: PlannedMerge, before: string -> set<NoteId>, now: string -> set<NoteId>)
    requires m.onlyUpper.Some?
  {
    exists n :: n in now(m.onlyUpper.value) && n !in before(m.onlyUpper.value) && Edge(n, m.from) in g.mentions
  }

  lemma MustRunIff(g: Graph, m: PlannedMerge, before: string -> set<NoteId>, now: string -> set<NoteId>)
    requires InSmall(NotesOf(g.mentions, m.from), m, before)
    ensures MustRun(g, m, now) <==> NewInCapitals(g, m, before, now)
    ensures (forall k :: now(k) <= before(k)) ==> !NewInCapitals(g, m, before, now)
  {
    NotesAre(g.mentions, m.from);
    hide NotesOf;
    var notes, upper := NotesOf(g.mentions, m.from), now(m.onlyUpper.value);
    assert forall n :: n in notes * upper <==> n in notes && n in upper;
  }

  /** A second pass under the same rules runs exactly the capitals-only merges for which some
      note has come to have the key in capitals; without such a note it changes nothing. */
  lemma SecondPass(g: Graph, pass: Pass, next: Pass)
    requires pass.Of(g) && Ready(pass.rows, pass.aliases, pass.Seeded(g), pass.curated.key)
    requires next.curated == pass.curated && next.Of(pass.After(g))
    ensures forall m | m in Plan(next.rows, next.aliases) :: m.onlyUpper.Some?
    ensures forall m :: m in next.run <==>
              m in Plan(next.rows, next.aliases) && NewInCapitals(pass.After(g), m, pass.capitals, next.capitals)
    ensures (forall k :: next.capitals(k) <= pass.capitals(k)) ==>
              next.run == [] && next.After(pass.After(g)) == pass.After(g)
  {
    hide Plan, RowsOk, AliasesOk, ToRun, Ready, NewInCapitals, MustRun, Pass.After, Pass.Seeded;
    var g', plan := pass.After(g), Plan(next.rows, next.aliases);
    NextPass(g, pass, next);
    ToRunIs(g', plan, next.capitals);
    forall m | m in plan
      ensures MustRun(g', m, next.capitals) <==> NewInCapitals(g', m, pass.capitals, next.capitals)
      ensures (forall k :: next.capitals(k) <= pass.capitals(k)) ==> !NewInCapitals(g', m, pass.capitals, next.capitals)
    {
      LeftInSmall(g, pass, next, m);
      MustRunIff(g', m, pass.capitals, next.capitals);
    }
    if forall k :: next.capitals(k) <= pass.capitals(k) {
      FirstOf(next.run);
      SeedingAgain(g, pass, next);
      NothingRuns(g', next);
    }
  }

  lemma FirstOf(run: seq<PlannedMerge>)
    ensures run == [] || run[0] in run
  {
  }

  lemma NothingRuns(g: Graph, pass: Pass)
    requires pass.run == [] && pass.Seeded(g) == g
    ensures pass.After(g) == g
  {
  }

  /** No pass sees a note with a key in capitals that the first one did not. */
  ghost predicate NoNewCapitals(pass: Pass, later: seq<Pass>) {
    forall p, k | p in later :: p.capitals(k) <= pass.capitals(k)
  }

  lemma {:induction false} LaterPasses(g: Graph, pass: Pass, later: seq<Pass>)
    requires pass.Of(g) && Ready(pass.rows, pass.aliases, pass.Seeded(g), pass.curated.key)
    requires PassesFrom(pass.After(g), later) && NoNewCapitals(pass, later)
    requires forall p | p in later :: p.curated == pass.curated
    ensures AfterAll(pass.After(g), later) == pass.After(g) && forall p | p in later :: p.run == []
    decreases |later|
  {
    hide Pass.Of, Pass.After, Pass.Seeded, Ready, Plan;
    if later != [] {
      assert later[0] in later && forall p | p in later[1..] :: p in later;
      SecondPass(g, pass, later[0]);
      LaterPasses(g, pass, later[1..]);
    }
  }

  /** `sync` is idempotent: from a graph that is ready once it is seeded, all passes but the
      first merge nothing and leave the graph as it is, as long as the rules stay and no note
      comes to have a key in capitals. */
  lemma SyncIsIdempotent(g: Graph, passes: seq<Pass>)
    requires passes != [] && PassesFrom(g, passes) && SameRules(passes) && NoNewCapitals(passes[0], passes[1..])
    requires Ready(passes[0].rows, passes[0].aliases, passes[0].Seeded(g), passes[0].curated.key)
    ensures AfterAll(g, passes) == passes[0].After(g)
    ensures forall i | 1 <= i < |passes| :: passes[i].run == []
  {
    hide Pass.Of, Pass.After, Pass.Seeded, Ready;
    var rest := passes[1..];
    forall p | p in rest ensures p.curated == passes[0].curated {
      var i :| 0 <= i < |rest| && rest[i] == p;
      assert passes[i + 1] == p;
    }
    LaterPasses(g, passes[0], rest);
    forall i | 1 <= i < |passes| ensures passes[i].run == [] {
      assert passes[i] == rest[i - 1];
    }
  }

  // ── Types ──

  lemma {:induction false} RunKeepsEntities(g: Graph, run: seq<PlannedMerge>, capitals: string -> set<NoteId>)
    ensures var g' := RunPlan(g, run, capitals);
            forall x | x in g'.entities :: x in g.entities && g'.entities[x] == g.entities[x]
  {
    hide Statement.Effect, NotesOf, MovedHidden, Repointed;
    if run != [] {
      RunKeepsEntities(g, run[..|run| - 1], capitals);
    }
  }

  /** A pass leaves the type of an entity that it leaves, one set by hand included, exactly
      when the entity is not curated, or has a type and the rules give it no other. */
  lemma TypeStaysIff(g: Graph, pass: Pass, x: Name)
    requires x in g.entities && x in pass.After(g).entities
    ensures var canonicals, entityType := pass.curated.canonicals, g.entities[x].entityType;
            pass.After(g).entities[x].entityType == entityType <==>
              (Curates(canonicals, x) ==>
                entityType.Some? && (ListedType(canonicals, x).None? || ListedType(canonicals, x) == entityType))
  {
    SeededType(g, pass, x);
    RunKeepsEntities(pass.Seeded(g), pass.run, pass.capitals);
    Uncurated(pass.curated.canonicals, x, g.entities[x].entityType);
    hide SeededGraph, RunPlan, Curates, ListedType;
  }

  /** A curated entity stays, with the type the rules give it. */
  lemma CuratedTypeIs(g: Graph, pass: Pass, x: Name)
    requires pass.Of(g) && ListedType(pass.curated.canonicals, x).Some?
    ensures x in pass.After(g).entities && IsSeeded(pass.After(g), x)
    ensures pass.After(g).entities[x].entityType == ListedType(pass.curated.canonicals, x)
  {
    SeededType(g, pass, x);
    Uncurated(pass.curated.canonicals, x, None);
    var row := CuratedRowSeeded(pass.rows, g, pass.curated, x);
    PassRuns(g, pass);
    SeededStays(pass.rows, pass.aliases, row);
    assert x !in Sources(pass.run);
    hide Plan, RowsOk, AliasesOk, Pass.Seeded, RunPlan, ListedType, ToRun, Inv, Curates;
    UntouchedStays(pass.Seeded(g), pass.run, pass.capitals, x);
  }

  /** A person types the curated "usa" as a country. */
  function RetypedExample(): Graph {
    Apply(Graph(map["usa" := Entity("1", Some("place"), Some(0), true, false)], map[], map[], map[]),
          SetTypeOp("usa", "country"))
  }

  /** The next pass writes the rules' type again. */
  lemma HandTypeIsOverwritten(pass: Pass)
    requires pass.Of(RetypedExample()) && pass.curated.canonicals == [Canonical("usa", Some("place"), [])]
    ensures RetypedExample().entities["usa"].entityType == Some("country")
    ensures "usa" in pass.After(RetypedExample()).entities
    ensures pass.After(RetypedExample()).entities["usa"].entityType == Some("place")
  {
    hide Pass.Of, Pass.After;
    assert pass.curated.canonicals[1..] == [];
    CuratedTypeIs(RetypedExample(), pass, "usa");
  }

  /** And until then the pruning no longer spares the entity. */
  lemma RetypedCanBePruned()
    ensures "usa" !in Prune(RetypedExample(), 100).entities
  {
    assert NotesOf(RetypedExample().mentions, "usa") == {};
    assert Stale(RetypedExample(), "usa", 100);
  }

  // ── Names a person split out ──

  /** What happens later: passes of `sync`, and any other write. */
  datatype Event = PassRan(pass: Pass) | Wrote(op: Op)

  function After(g: Graph, event: Event): Graph {
    match event
    case PassRan(pass) => pass.After(g)
    case Wrote(op) => Apply(g, op)
  }

  /** No one merges the name away again. */
  ghost predicate EventsOk(g: Graph, events: seq<Event>, x: Name)
    decreases |events|
  {
    events == [] ||
    (&& (match events[0]
         case PassRan(pass) => pass.Of(g)
         case Wrote(op) => op.MergeOp? ==> op.from != x)
     && EventsOk(After(g, events[0]), events[1..], x))
  }

  /** The pruning spares it: a curated entity, one an alias leads to, one that two notes
      mention, or a young one that one note mentions. */
  ghost predicate Spared(g: Graph, x: Name, cutoff: int)
    requires x in g.entities
  {
    var e, mentions := g.entities[x], |NotesOf(g.mentions, x)|;
    || e.seeded || (exists a :: a in g.aliases && g.aliases[a].target == x)
    || mentions >= 2 || (mentions == 1 && e.createdAt.Some? && e.createdAt.value >= cutoff)
  }

  ghost predicate SparedThrough(g: Graph, events: seq<Event>, x: Name)
    decreases |events|
  {
    events == [] ||
    (&& x in g.entities
     && (events[0].Wrote? && events[0].op.PruneOp? ==> Spared(g, x, events[0].op.cutoff))
     && SparedThrough(After(g, events[0]), events[1..], x))
  }

  /** After each event it is still the entity with this id, marked as split out. */
  ghost predicate StaysThrough(g: Graph, events: seq<Event>, x: Name, id: Id)
    decreases |events|
  {
    && IsDistinct(g, x) && g.entities[x].id == id
    && (events == [] || StaysThrough(After(g, events[0]), events[1..], x, id))
  }

  lemma PrunedIff(g: Graph, x: Name, cutoff: int)
    requires x in g.entities
    ensures x in Prune(g, cutoff).entities <==> Spared(g, x, cutoff)
    ensures x in Prune(g, cutoff).entities ==> Prune(g, cutoff).entities[x] == g.entities[x]
  {
    hide NotesOf;
    if a :| a in g.aliases && g.aliases[a].target == x {
      assert !Stale(g, x, cutoff);
    }
  }

  lemma PassKeepsDistinct(g: Graph, pass: Pass, x: Name)
    requires pass.Of(g) && IsDistinct(g, x)
    ensures IsDistinct(pass.After(g), x) && pass.After(g).entities[x].id == g.entities[x].id
    ensures x !in g.aliases ==> x !in pass.After(g).aliases
  {
    NeverASource(g, pass, x);
    SeedingLeaves(g, pass, x);
    hide SeededGraph, Plan, RowsOk, AliasesOk, RunPlan, Inv, ToRun;
    UntouchedStays(pass.Seeded(g), pass.run, pass.capitals, x);
    if x !in g.aliases {
      NoNewAlias(pass.Seeded(g), pass.run, pass.capitals, x);
    }
  }

  lemma SeedingLeaves(g: Graph, pass: Pass, x: Name)
    requires pass.Of(g) && IsDistinct(g, x)
    ensures IsDistinct(pass.Seeded(g), x) && pass.Seeded(g).entities[x].id == g.entities[x].id
    ensures x !in g.aliases ==> x !in pass.Seeded(g).aliases
  {
    var g1 := Run(g, EntityOps(pass.curated.canonicals, pass.newEntity));
    RunConcat(g, EntityOps(pass.curated.canonicals, pass.newEntity), AliasOps(pass.aliases, pass.curated));
    SeededEntities(g, pass.curated.canonicals, pass.newEntity);
    OnlyAliases(g1, pass.aliases, pass.curated);
    if x !in g.aliases {
      NotWritten(g, pass.aliases, pass.curated, x);
      UnwrittenStays(g1, pass.aliases, pass.curated, x);
    }
    hide Run, EntityOps, AliasOps, Plan, AliasesOk, RowsOk, WritesAlias, Inv, ToRun;
  }

  lemma NotWritten(g: Graph, aliases: seq<AliasRow>, curated: Curated, x: Name)
    requires AliasesOk(aliases, g, curated) && IsDistinct(g, x) && x !in g.aliases
    ensures !WritesAlias(aliases, curated, x)
  {
    hide Curated.Lists;
  }

  lemma {:induction false} UnwrittenStays(g: Graph, aliases: seq<AliasRow>, curated: Curated, x: Name)
    requires x !in g.aliases && !WritesAlias(aliases, curated, x)
    ensures x !in Run(g, AliasOps(aliases, curated)).aliases
    decreases |aliases|
  {
    hide Curated.Lists;
    if aliases == [] {
      RunNone(g);
    } else {
      var a, rest := aliases[0], aliases[1..];
      assert aliases == [a] + rest;
      FirstAlias(g, aliases, curated);
      SeedAliasIs(g, a.name, a.target, a.caseSensitive);
      hide Run, Apply, AliasOps;
      UnwrittenStays(if curated.Lists(a.name, a.target) then AfterFirst(g, a) else g, rest, curated, x);
    }
  }

  lemma {:induction false} NoNewAlias(g: Graph, run: seq<PlannedMerge>, capitals: string -> set<NoteId>, x: Name)
    requires x !in g.aliases && x !in Sources(run)
    ensures x !in RunPlan(g, run, capitals).aliases
    decreases |run|
  {
    hide Statement.Effect;
    if run != [] {
      var m, but := run[|run| - 1], run[..|run| - 1];
      assert m in run && forall p | p in but :: p in run;
      NoNewAlias(g, but, capitals, x);
    }
  }

  lemma WriteLeaves(g: Graph, op: Op, x: Name)
    requires IsDistinct(g, x) && !op.PruneOp? && (op.MergeOp? ==> op.from != x)
    ensures IsDistinct(Apply(g, op), x) && Apply(g, op).entities[x].id == g.entities[x].id
  {
    hide Statement.Effect, NotesOf, SplitMentions, Repointed;
  }

  /** A name a person split out stays an entity of its own, with its id, through every later
      sync and every other write but its being merged away: exactly when each pruning
      spares it. */
  lemma {:induction false} SplitOutStaysIff(g: Graph, events: seq<Event>, x: Name)
    requires IsDistinct(g, x) && EventsOk(g, events, x)
    ensures StaysThrough(g, events, x, g.entities[x].id) <==> SparedThrough(g, events, x)
    decreases |events|
  {
    hide Pass.Of, Pass.After, Apply, Spared, Prune;
    if events != [] {
      var next := After(g, events[0]);
      match events[0] {
        case PassRan(pass) => PassKeepsDistinct(g, pass, x);
        case Wrote(op) =>
          if op.PruneOp? {
            PrunedIff(g, x, op.cutoff);
            PruneIs(g, op.cutoff);
          } else {
            WriteLeaves(g, op, x);
          }
      }
      if IsDistinct(next, x) {
        SplitOutStaysIff(next, events[1..], x);
      }
    }
  }

  lemma PruneIs(g: Graph, cutoff: int)
    ensures Apply(g, PruneOp(cutoff)) == Prune(g, cutoff)
  {
  }

  // ── A split-out name that is pruned ──

  /** "us" was merged into "usa" and split out again; one old note mentions it. */
  function SplitOutExample(): Graph {
    Graph(
      map["us" := Entity("1", None, Some(0), false, true), "usa" := Entity("2", None, Some(0), true, false)],
      map[],
      map[Edge("n", "us") := Mention(Some(1), None, None, None, None, [])],
      map[])
  }

  lemma SplitOutExampleArises()
    ensures var us := SplitOutExample().entities["us"];
            var start := SplitOutExample().(entities := SplitOutExample().entities["us" := us.(distinct := false)]);
            Unmerge(FinishMerge(start, "us", "usa", "proposal"), "us", "", 0).entities["us"] == us
  {
    var us := SplitOutExample().entities["us"];
    var start := SplitOutExample().(entities := SplitOutExample().entities["us" := us.(distinct := false)]);
    assert CanUnmerge(FinishMerge(start, "us", "usa", "proposal"), "us");
  }

  /** The pruning takes it and its mention; the next seeding of the curated alias then sends
      the name to "usa" again. */
  lemma SplitOutCanBePruned(p: Probe, f: Found, key: string -> string)
    requires p.name == "us"
    requires Finds(Apply(Prune(SplitOutExample(), 100), SeedAliasOp("us", "usa", false)), p, f, key)
    ensures IsDistinct(SplitOutExample(), "us")
    ensures Prune(SplitOutExample(), 100).entities.Keys == {"usa"} && Prune(SplitOutExample(), 100).mentions == map[]
    ensures Resolve(p, f) == Existing("2", true)
  {
    var g := SplitOutExample();
    assert NotesOf(g.mentions, "us") == {"n"};
    assert Stale(g, "us", 100) && !Stale(g, "usa", 100);
    assert StaleNames(g, 100) == {"us"};
  }

  // ── Whose mentions a split-out name gets ──

  /** A person split the name out. */
  predicate SplitOut(g: Graph, x: Name) {
    IsDistinct(g, x) && x !in g.aliases
  }

  /** An undo splits its name out. */
  lemma UnmergeSplitsOut(g: Graph, x: Name, freshId: Id, now: int)
    requires CanUnmerge(g, x)
    ensures SplitOut(Unmerge(g, x, freshId, now), x)
  {
  }

  /** A split-out name keeps its own entity, and gets its own mentions, after any number of
      syncs, even when the rules list it as an alias. */
  lemma {:induction false} SplitOutResolves(g: Graph, passes: seq<Pass>, p: Probe, f: Found, key: string -> string)
    requires SplitOut(g, p.name) && PassesFrom(g, passes)
    requires Finds(AfterAll(g, passes), p, f, key)
    ensures Resolve(p, f) == Existing(g.entities[p.name].id, false)
    decreases |passes|
  {
    hide Pass.Of, Pass.After, Finds;
    if passes == [] {
      OwnNameResolves(g, p, f, key);
    } else {
      PassKeepsDistinct(g, passes[0], p.name);
      SplitOutResolves(passes[0].After(g), passes[1..], p, f, key);
    }
  }

  /** So after an undo the name gets its own mentions, through any number of syncs. */
  lemma UndoneNameResolves(g: Graph, freshId: Id, now: int, passes: seq<Pass>, p: Probe, f: Found,
                           key: string -> string)
    requires CanUnmerge(g, p.name) && PassesFrom(Unmerge(g, p.name, freshId, now), passes)
    requires Finds(AfterAll(Unmerge(g, p.name, freshId, now), passes), p, f, key)
    ensures p.name in Unmerge(g, p.name, freshId, now).entities
    ensures Resolve(p, f) == Existing(Unmerge(g, p.name, freshId, now).entities[p.name].id, false)
  {
    hide Unmerge, CanUnmerge, Finds, AfterAll, PassesFrom;
    UnmergeSplitsOut(g, p.name, freshId, now);
    SplitOutResolves(Unmerge(g, p.name, freshId, now), passes, p, f, key);
  }
}
