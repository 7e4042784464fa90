/** Where the extractor's next mention of a name goes (`resolve` and `lookup` of
    crates/graph/src/entity_resolution.rs), after merges, undos and syncs. */
module Resolution {
  import opened Wrappers
  import opened EntityGraph
  import opened Conservation
  import opened Reversibility
  import opened EntitySync

  /** A name in a note; `upper` when the note's text has it in capitals. */
  datatype Probe = Probe(name: Name, key: string, upper: bool)

  /** What the graph holds for it; `byKey` in the order the database collects them. */
  datatype Found = Found(
    aliasByName: Option<(Id, bool)>, entityByName: Option<Id>,
    byKey: seq<Id>, byKeyCapitals: bool, entityByKey: Option<Id>)

  datatype Target = Existing(id: Id, viaAlias: bool) | Create

  function Resolve(p: Probe, f: Found): Target {
    if f.aliasByName.Some? && (!f.aliasByName.value.1 || p.upper) then Existing(f.aliasByName.value.0, true)
    else if f.entityByName.Some? then Existing(f.entityByName.value, false)
    else if f.byKey != [] && (!f.byKeyCapitals || p.upper) then Existing(f.byKey[0], true)
    else if f.entityByKey.Some? then Existing(f.entityByKey.value, false)
    else Create
  }

  /** The alias points at an entity that exists. */
  predicate Points(g: Graph, a: Name) {
    a in g.aliases && g.aliases[a].target in g.entities
  }

  function TargetId(g: Graph, a: Name): Id
    requires Points(g, a)
  {
    g.entities[g.aliases[a].target].id
  }

  predicate HasKey(g: Graph, x: Name, k: string, key: string -> string) {
    x in g.entities && KeyOf(g, x, key) == k
  }

  /** `lookup` finds this, up to the order of rows. */
  ghost predicate Finds(g: Graph, p: Probe, f: Found, key: string -> string) {
    && f.aliasByName == (if Points(g, p.name) then Some((TargetId(g, p.name), g.aliases[p.name].caseSensitive))
      else None)
    && f.entityByName == (if p.name in g.entities then Some(g.entities[p.name].id) else None)
    && (forall i :: i in f.byKey <==> exists a :: Points(g, a) && key(a) == p.key && TargetId(g, a) == i)
    && (f.byKeyCapitals <==> exists a :: Points(g, a) && key(a) == p.key && g.aliases[a].caseSensitive)
    && (f.entityByKey.None? ==> forall x :: !HasKey(g, x, p.key, key))
    && (f.entityByKey.Some? ==> exists x :: HasKey(g, x, p.key, key) && g.entities[x].id == f.entityByKey.value)
  }

  ghost predicate IdExists(g: Graph, i: Id) {
    exists x :: x in g.entities && g.entities[x].id == i
  }

  /** A mention always goes to an entity that exists, or to a new one: a new one exactly
      when no entity has the name or key and no alias that may be used leads anywhere. */
  lemma ResolveIsSound(g: Graph, p: Probe, f: Found, key: string -> string)
    requires Finds(g, p, f, key)
    ensures Resolve(p, f).Existing? ==> IdExists(g, Resolve(p, f).id)
    ensures Resolve(p, f).Create? <==>
              && p.name !in g.entities && (forall x :: !HasKey(g, x, p.key, key))
              && (Points(g, p.name) ==> g.aliases[p.name].caseSensitive && !p.upper)
              && ((exists a :: Points(g, a) && key(a) == p.key) ==>
                    !p.upper && exists a :: Points(g, a) && key(a) == p.key && g.aliases[a].caseSensitive)
  {
    hide KeyOf;
    if f.byKey != [] {
      var i := f.byKey[0];
      assert i in f.byKey;
      var a :| Points(g, a) && key(a) == p.key && TargetId(g, a) == i;
      assert g.aliases[a].target in g.entities;
    }
    if a :| Points(g, a) && key(a) == p.key {
      assert TargetId(g, a) in f.byKey;
    }
  }

  /** An entity whose name is no alias gets its own mentions, whatever its key. */
  lemma OwnNameResolves(g: Graph, p: Probe, f: Found, key: string -> string)
    requires Finds(g, p, f, key) && p.name in g.entities && p.name !in g.aliases
    ensures Resolve(p, f) == Existing(g.entities[p.name].id, false)
  {
  }

  /** A new name goes by its key: to an entity with that key that no person split out, and it
      becomes an entity of its own exactly when there is none. */
  lemma KeyResolves(g: Graph, p: Probe, f: Found, key: string -> string)
    requires Finds(g, p, f, key) && p.name !in g.entities && !Points(g, p.name)
    requires (forall a :: Points(g, a) ==> key(a) != p.key) && '~' !in p.key
    ensures Resolve(p, f).Create? <==> forall x | x in g.entities && !g.entities[x].distinct :: key(x) != p.key
    ensures Resolve(p, f).Existing? ==>
              && !Resolve(p, f).viaAlias
              && exists x :: x in g.entities && !g.entities[x].distinct && key(x) == p.key
                             && g.entities[x].id == Resolve(p, f).id
  {
    forall x ensures HasKey(g, x, p.key, key) <==> x in g.entities && !g.entities[x].distinct && key(x) == p.key {
      if IsDistinct(g, x) {
        assert KeyOf(g, x, key)[0] == '~';
      }
    }
    HeadIn(f.byKey);
  }

  /** A new name goes by its key to what an alias with that key leads to, as a mention through
      an alias, unless such an alias counts only in capitals and the name has none. */
  lemma AliasKeyResolves(g: Graph, p: Probe, f: Found, key: string -> string)
    requires Finds(g, p, f, key) && p.name !in g.entities && !Points(g, p.name)
    requires exists a :: Points(g, a) && key(a) == p.key
    requires p.upper || forall a :: Points(g, a) && key(a) == p.key ==> !g.aliases[a].caseSensitive
    ensures exists a :: Points(g, a) && key(a) == p.key && Resolve(p, f) == Existing(TargetId(g, a), true)
  {
    var a :| Points(g, a) && key(a) == p.key;
    assert TargetId(g, a) in f.byKey;
    HeadIn(f.byKey);
  }

  lemma HeadIn(ids: seq<Id>)
    ensures ids == [] || ids[0] in ids
  {
  }

  /** After a merge the old name, and every alias it had, lead to the entity it went into
      (names that count only in capitals, when they are). */
  lemma MergedNamesResolve(g: Graph, from: Name, into: Name, origin: string, p: Probe, f: Found, key: string -> string)
    requires from in g.entities && into in g.entities && from != into
    requires p.name == from || (p.name in g.aliases && g.aliases[p.name].target == from)
    requires Finds(FinishMerge(g, from, into, origin), p, f, key)
    requires p.upper || !(p.name in g.aliases && g.aliases[p.name].caseSensitive)
    ensures Resolve(p, f) == Existing(g.entities[into].id, true)
  {
  }

  /** After the undo of a merge the name leads to its own entity again, with its old id. */
  lemma RestoredNameResolves(g: Graph, from: Name, into: Name, origin: string, freshId: Id, now: int,
                             p: Probe, f: Found, key: string -> string)
    requires from in g.entities && into in g.entities && from != into && p.name == from
    requires Finds(Unmerge(FinishMerge(g, from, into, origin), from, freshId, now), p, f, key)
    ensures Resolve(p, f) == Existing(g.entities[from].id, false)
  {
    var merged := FinishMerge(g, from, into, origin);
    assert CanUnmerge(merged, from);
  }

  // ── Mentions extracted through an alias ──

  /** The edge is new, or is counted and came through the alias. An edge the note has to the
      alias's own name without a count takes a new one's mention for nothing. */
  predicate GoesBack(ms: Mentions, n: NoteId, x: Name, t: Name) {
    if Edge(n, t) !in ms then !(Edge(n, x) in ms && ms[Edge(n, x)].count.None?)
    else if x == t then ms[Edge(n, t)].count.Some?
    else ms[Edge(n, t)].via == Some(x) && ms[Edge(n, t)].count.Some?
  }

  /** A mention that was extracted through an alias goes back with it in an undo exactly when
      the note had no edge to the target yet, or a counted one that came through the same
      alias; otherwise it stays with the target or is lost. */
  lemma ExtractedComesBackIff(g: Graph, x: Name, n: NoteId, newEntity: Entity, freshId: Id, now: int)
    requires Inv(g) && CanUnmerge(g, x)
    ensures var t := g.aliases[x].target;
            var g1 := Apply(g, MentionOp(n, t, x, newEntity));
            CanUnmerge(g1, x)
            && WeightAt(Unmerge(g1, x, freshId, now).mentions, n, x)
               == WeightAt(Unmerge(g, x, freshId, now).mentions, n, x) + if GoesBack(g.mentions, n, x, t) then 1 else 0
  {
    var t := g.aliases[x].target;
    var g1 := Apply(g, MentionOp(n, t, x, newEntity));
    MentionConserves(g, MentionOp(n, t, x, newEntity), n);
    hide Unmerge, Inv, WriteMention, GoesBack, Regained;
    if t == x {
      SelfUnmerged(g, x, freshId, now, n);
      SelfUnmerged(g1, x, freshId, now, n);
      SelfWritten(g.mentions, n, x);
    } else {
      UnmergedIs(g, x, freshId, now, n);
      UnmergedIs(g1, x, freshId, now, n);
      WrittenRegained(g.mentions, n, x, t, g.aliases[x].mergedFrom);
    }
  }

  lemma SelfWritten(ms: Mentions, n: NoteId, x: Name)
    ensures WeightAt(WriteMention(ms, n, x, x), n, x) == WeightAt(ms, n, x) + if GoesBack(ms, n, x, x) then 1 else 0
  {
  }

  lemma WrittenRegained(ms: Mentions, n: NoteId, x: Name, t: Name, mergedFrom: Option<Id>)
    requires t != x
    ensures var ms1 := WriteMention(ms, n, t, x);
            Regained(Lookup(ms1, Edge(n, t)), Lookup(ms1, Edge(n, x)), x, mergedFrom)
            == Regained(Lookup(ms, Edge(n, t)), Lookup(ms, Edge(n, x)), x, mergedFrom)
               + if GoesBack(ms, n, x, t) then 1 else 0
  {
  }

  /** An alias of its own name takes nothing with it. */
  lemma SelfUnmerged(g: Graph, x: Name, freshId: Id, now: int, n: NoteId)
    requires Inv(g) && CanUnmerge(g, x) && g.aliases[x].target == x
    ensures WeightAt(Unmerge(g, x, freshId, now).mentions, n, x) == WeightAt(g.mentions, n, x)
  {
    var ms, a := g.mentions, g.aliases[x];
    var via := SplitVia(x, x);
    EffectAt(via, ms, Edge(n, x));
    if a.mergedFrom.Some? {
      EffectAt(SplitAbsorbed(x, x, a.mergedFrom.value), via.Effect(ms), Edge(n, x));
    }
    if Edge(n, x) in ms {
      assert EdgeOk(x, ms[Edge(n, x)]);
    }
    hide Statement.Effect, FirstEntry, Without, Sum;
  }

  function StayingExample(): Graph {
    var once := Mention(Some(1), None, None, None, None, []);
    Graph(
      map["usa" := Entity("2", None, None, true, false)],
      map["us" := Alias("usa", None, None, None, false, "seed")],
      map[Edge("n", "usa") := once], map[])
  }

  /** A note that mentions the target under its own name keeps what it then says as "us". */
  lemma ExtractedCanStay()
    ensures var g := StayingExample();
            var g1 := Apply(g, MentionOp("n", "usa", "us", Entity("3", None, None, false, false)));
            && WeightAt(g1.mentions, "n", "usa") == 2
            && WeightAt(Unmerge(g1, "us", "", 0).mentions, "n", "us") == 0
  {
    var g := StayingExample();
    ExtractedComesBackIff(g, "us", "n", Entity("3", None, None, false, false), "", 0);
    UnmergedIs(g, "us", "", 0, "n");
    hide Unmerge;
  }
}
