/** The entity graph and the Cypher steps that merge one entity into another and undo it
    (crates/graph/src/entity_resolution.rs).

    A node or edge property that may be missing is an `Option`. Entity names and alias
    names are unique in the database, so both are maps keyed by name; a note has at most
    one MENTIONS edge to an entity, so those edges are a map keyed by (note, entity). */
module EntityGraph {
  import opened Wrappers

  type Name = string
  type Id = string
  type NoteId = string
  type TopicName = string

  datatype Entity = Entity(
    id: Id, entityType: Option<string>, createdAt: Option<int>, seeded: bool, distinct: bool)

  /** `ALIAS_OF` is the field `target`; the rest is what an undo needs. */
  datatype Alias = Alias(
    target: Name, mergedFrom: Option<Id>, entityType: Option<string>, createdAt: Option<int>,
    caseSensitive: bool, origin: string)

  /** One `"<id>:<count>"` string of an `absorbed` list. */
  datatype Entry = Entry(id: Id, count: int)

  datatype Edge = Edge(note: NoteId, entity: Name)

  datatype Mention = Mention(
    count: Option<int>, surface: Option<string>, mentionType: Option<string>,
    via: Option<Name>, mergedFrom: Option<Id>, absorbed: seq<Entry>)
  {
    /** `coalesce(r.count, 1)`: an edge written before counts existed is one mention. */
    function Weight(): int {
      count.GetOr(1)
    }
  }

  type Mentions = map<Edge, Mention>

  datatype Graph = Graph(
    entities: map<Name, Entity>, aliases: map<Name, Alias>, mentions: Mentions,
    hidden: map<(Name, TopicName), int>)

  function Lookup(ms: Mentions, k: Edge): Option<Mention> {
    if k in ms then Some(ms[k]) else None
  }

  function Sum(absorbed: seq<Entry>): int {
    if absorbed == [] then 0 else absorbed[0].count + Sum(absorbed[1..])
  }

  function FirstEntry(absorbed: seq<Entry>, id: Id): Option<Entry> {
    if absorbed == [] then None
    else if absorbed[0].id == id then Some(absorbed[0])
    else FirstEntry(absorbed[1..], id)
  }

  /** Every entry but the ones equal to `entry` (`[x IN r.absorbed WHERE x <> entry]`). */
  function Without(absorbed: seq<Entry>, entry: Entry): seq<Entry> {
    if absorbed == [] then []
    else (if absorbed[0] == entry then [] else [absorbed[0]]) + Without(absorbed[1..], entry)
  }

  // ── One Cypher statement over the MENTIONS edges ──

  /** The three statements that rewrite MENTIONS edges. Each selects at most one row per
      note and, for that note, rewrites the edges to a `Source` and a `Dest` entity. */
  datatype Statement =
    | MoveTo(from: Name, fromId: Id, into: Name, upper: Option<set<NoteId>>)
    | SplitVia(alias: Name, target: Name)
    | SplitAbsorbed(alias: Name, target: Name, fid: Id)
  {
    function Source(): Name {
      if MoveTo? then from else target
    }

    function Dest(): Name {
      if MoveTo? then into else alias
    }

    /** Does the statement's MATCH … WHERE give a row for note `n`? `upper` is the set of
        notes whose text has the name in capitals. */
    predicate Selects(ms: Mentions, n: NoteId) {
      Edge(n, Source()) in ms
      && match this
         case MoveTo(_, _, _, upper) => upper.None? || n in upper.value
         case SplitVia(alias, target) => ms[Edge(n, target)].via == Some(alias)
         case SplitAbsorbed(_, target, fid) => FirstEntry(ms[Edge(n, target)].absorbed, fid).Some?
    }

    /** What the statement's writes do to the edges of a selected note, in clause order. */
    function Row(ms: Mentions, n: NoteId): Mentions
      requires Selects(ms, n)
    {
      match this
      case MoveTo(from, fromId, into, _) => MoveRow(ms, n, from, fromId, into)
      case SplitVia(alias, target) => SplitViaRow(ms, n, alias, target)
      case SplitAbsorbed(alias, target, fid) => SplitAbsorbedRow(ms, n, alias, target, fid)
    }

    function RowOrSame(ms: Mentions, n: NoteId): Mentions {
      if Selects(ms, n) then Row(ms, n) else ms
    }

    function Rows(ms: Mentions): set<NoteId> {
      set k | k in ms.Keys && Selects(ms, k.note) :: k.note
    }

    /** The whole statement: every selected row, all reading the edges as they were. */
    function Effect(ms: Mentions): Mentions {
      var keys := ms.Keys + (set n | n in Rows(ms) :: Edge(n, Dest()));
      map k | k in keys && k in RowOrSame(ms, k.note) :: RowOrSame(ms, k.note)[k]
    }
  }

  function MoveRow(ms: Mentions, n: NoteId, from: Name, fromId: Id, into: Name): Mentions
    requires Edge(n, from) in ms
  {
    var r := ms[Edge(n, from)];
    var moved :=
      if Edge(n, into) in ms then
        var ex := ms[Edge(n, into)];
        ex.(count := Some(ex.Weight() + r.Weight()),
            absorbed := ex.absorbed + [Entry(fromId, r.Weight())])
      else
        r.(surface := Some(r.surface.GetOr(from)), via := Some(from), mergedFrom := Some(fromId));
    ms[Edge(n, into) := moved] - {Edge(n, from)}
  }

  function SplitViaRow(ms: Mentions, n: NoteId, alias: Name, target: Name): Mentions
    requires Edge(n, target) in ms
  {
    var r := ms[Edge(n, target)];
    var kept := Sum(r.absorbed);
    var restored :=
      if Edge(n, alias) in ms then
        var nr := ms[Edge(n, alias)];
        nr.(count := Some(nr.count.GetOr(0) + r.Weight() - kept))
      else
        Mention(Some(r.Weight() - kept), r.surface, r.mentionType, None, None, []);
    var ms1 := ms[Edge(n, alias) := restored];
    if kept > 0 then
      ms1[Edge(n, target) := ms1[Edge(n, target)].(count := Some(kept), via := None, mergedFrom := None)]
    else
      ms1 - {Edge(n, target)}
  }

  function SplitAbsorbedRow(ms: Mentions, n: NoteId, alias: Name, target: Name, fid: Id): Mentions
    requires Edge(n, target) in ms
    requires FirstEntry(ms[Edge(n, target)].absorbed, fid).Some?
  {
    var entry := FirstEntry(ms[Edge(n, target)].absorbed, fid).value;
    var restored :=
      if Edge(n, alias) in ms then
        var nr := ms[Edge(n, alias)];
        nr.(count := Some(nr.count.GetOr(0) + entry.count))
      else
        Mention(Some(entry.count), None, None, None, None, []);
    var ms1 := ms[Edge(n, alias) := restored];
    var r := ms1[Edge(n, target)];
    var left := r.(count := if r.count.Some? then Some(r.count.value - entry.count) else None,
                   absorbed := Without(r.absorbed, entry));
    if left.count.Some? && left.count.value <= 0 then ms1 - {Edge(n, target)}
    else ms1[Edge(n, target) := left]
  }

  /** A row writes only the note's own edges to `Source` and `Dest`. */
  lemma RowFrame(st: Statement, ms: Mentions, n: NoteId, k: Edge)
    requires k.note != n || (k.entity != st.Source() && k.entity != st.Dest())
    ensures Lookup(st.RowOrSame(ms, n), k) == Lookup(ms, k)
  {
  }

  /** A row depends only on the note's own edges. */
  lemma RowLocal(st: Statement, ms: Mentions, ms': Mentions, n: NoteId)
    requires forall x :: Lookup(ms, Edge(n, x)) == Lookup(ms', Edge(n, x))
    ensures st.Selects(ms, n) == st.Selects(ms', n)
    ensures forall x :: Lookup(st.RowOrSame(ms, n), Edge(n, x)) == Lookup(st.RowOrSame(ms', n), Edge(n, x))
  {
    assert Lookup(ms, Edge(n, st.Source())) == Lookup(ms', Edge(n, st.Source()));
    assert Lookup(ms, Edge(n, st.Dest())) == Lookup(ms', Edge(n, st.Dest()));
    forall x
      ensures Lookup(st.RowOrSame(ms, n), Edge(n, x)) == Lookup(st.RowOrSame(ms', n), Edge(n, x))
    {
      if x != st.Source() && x != st.Dest() {
        RowFrame(st, ms, n, Edge(n, x));
        RowFrame(st, ms', n, Edge(n, x));
      }
    }
  }

  /** The edges when the rows of `done` have been written and the others have not. */
  ghost predicate Partly(st: Statement, before: Mentions, ms: Mentions, done: set<NoteId>) {
    forall k :: Lookup(ms, k) ==
                if k.note in done then Lookup(st.RowOrSame(before, k.note), k) else Lookup(before, k)
  }

  lemma RowsDone(st: Statement, before: Mentions, ms: Mentions, done: set<NoteId>, n: NoteId)
    requires Partly(st, before, ms, done) && n !in done
    ensures Partly(st, before, st.RowOrSame(ms, n), done + {n})
  {
    forall k
      ensures Lookup(st.RowOrSame(ms, n), k) ==
              if k.note in done + {n} then Lookup(st.RowOrSame(before, k.note), k) else Lookup(before, k)
    {
      if k.note == n {
        RowLocal(st, before, ms, n);
        assert k == Edge(n, k.entity);
      } else {
        RowFrame(st, ms, n, k);
      }
    }
  }

  lemma SelectedIsARow(st: Statement, ms: Mentions, n: NoteId)
    ensures n in st.Rows(ms) <==> st.Selects(ms, n)
  {
    if st.Selects(ms, n) {
      assert Edge(n, st.Source()) in ms.Keys;
    }
  }

  /** After a statement each edge is what its own note's row makes of it. */
  lemma EffectAt(st: Statement, ms: Mentions, k: Edge)
    ensures Lookup(st.Effect(ms), k) == Lookup(st.RowOrSame(ms, k.note), k)
  {
    if k in st.RowOrSame(ms, k.note) && k !in ms.Keys {
      assert Lookup(ms, k) == None;
      if k.entity != st.Source() && k.entity != st.Dest() {
        RowFrame(st, ms, k.note, k);
      }
      SelectedIsARow(st, ms, k.note);
      assert k.entity == st.Dest();
    }
  }

  lemma MentionsEqual(a: Mentions, b: Mentions)
    requires forall k :: Lookup(a, k) == Lookup(b, k)
    ensures a == b
  {
    assert forall k :: k in a <==> Lookup(a, k).Some?;
    assert forall k :: k in b <==> Lookup(b, k).Some?;
    assert a.Keys == b.Keys;
    forall k | k in a ensures a[k] == b[k] {
      assert Lookup(a, k) == Lookup(b, k);
    }
  }

  lemma AllDone(st: Statement, before: Mentions, ms: Mentions)
    requires Partly(st, before, ms, st.Rows(before))
    ensures ms == st.Effect(before)
  {
    forall k ensures Lookup(ms, k) == Lookup(st.Effect(before), k) {
      EffectAt(st, before, k);
      SelectedIsARow(st, before, k.note);
    }
    MentionsEqual(ms, st.Effect(before));
  }

  // ── Merge and unmerge as functions of the graph ──

  function Repointed(aliases: map<Name, Alias>, from: Name, into: Name): map<Name, Alias> {
    map o | o in aliases :: if aliases[o].target == from then aliases[o].(target := into) else aliases[o]
  }

  function MergedAlias(aliases: map<Name, Alias>, name: Name, f: Entity, into: Name, origin: string): Alias {
    var prior := if name in aliases then Some(aliases[name]) else None;
    Alias(into, Some(f.id), f.entityType, f.createdAt,
          if prior.Some? then prior.value.caseSensitive else false,
          if prior.Some? then prior.value.origin else origin)
  }

  function MovedHidden(hidden: map<(Name, TopicName), int>, from: Name, into: Name): map<(Name, TopicName), int> {
    (map h | h in hidden.Keys + (set h | h in hidden.Keys && h.0 == from :: (into, h.1)) ::
       if h in hidden then hidden[h] else hidden[(from, h.1)])
    - (set h | h in hidden && h.0 == from)
  }

  /** `finish_merge`: the alias, the aliases of `from`, its hidden topics, then the node. */
  function FinishMerge(g: Graph, from: Name, into: Name, origin: string): Graph
    requires from in g.entities && into in g.entities
  {
    var f := g.entities[from];
    Graph(
      g.entities - {from},
      Repointed(g.aliases[from := MergedAlias(g.aliases, from, f, into, origin)], from, into),
      g.mentions - (set k | k in g.mentions && k.entity == from),
      MovedHidden(g.hidden, from, into))
  }

  /** Notes that still mention `x` (the `kept` count of a capitals-only merge). */
  function NotesOf(ms: Mentions, x: Name): set<NoteId> {
    set k | k in ms.Keys && k.entity == x :: k.note
  }

  datatype MergeOutcome =
    | SelfMerge
    | Merged(moved: nat, kept: nat, fromDeleted: bool)

  function MoveStatement(g: Graph, from: Name, into: Name, upper: Option<set<NoteId>>): Statement
    requires from in g.entities
  {
    MoveTo(from, g.entities[from].id, into, upper)
  }

  /** `merge`. Its first query aggregates, so it returns a row even when a node is
      missing: the call then changes nothing and still reports success. */
  function Merge(g: Graph, from: Name, into: Name, upper: Option<set<NoteId>>, origin: string): Graph {
    if from == into || from !in g.entities || into !in g.entities then g
    else
      var g1 := g.(mentions := MoveStatement(g, from, into, upper).Effect(g.mentions));
      if upper.Some? && NotesOf(g1.mentions, from) != {} then g1
      else FinishMerge(g1, from, into, origin)
  }

  function Restored(g: Graph, alias: Name, freshId: Id, now: int): Entity
    requires alias in g.aliases && g.aliases[alias].target in g.entities
  {
    if alias in g.entities then g.entities[alias].(distinct := true)
    else
      var a, t := g.aliases[alias], g.entities[g.aliases[alias].target];
      Entity(a.mergedFrom.GetOr(freshId), if a.entityType.Some? then a.entityType else t.entityType,
             Some(a.createdAt.GetOr(now)), false, true)
  }

  predicate CanUnmerge(g: Graph, alias: Name) {
    alias in g.aliases && g.aliases[alias].target in g.entities
  }

  function SplitMentions(ms: Mentions, alias: Name, a: Alias): Mentions {
    var ms1 := SplitVia(alias, a.target).Effect(ms);
    if a.mergedFrom.Some? then SplitAbsorbed(alias, a.target, a.mergedFrom.value).Effect(ms1) else ms1
  }

  /** `unmerge`; with no such alias it fails and changes nothing. */
  function Unmerge(g: Graph, alias: Name, freshId: Id, now: int): Graph {
    if !CanUnmerge(g, alias) then g
    else
      Graph(g.entities[alias := Restored(g, alias, freshId, now)],
            g.aliases - {alias},
            SplitMentions(g.mentions, alias, g.aliases[alias]),
            g.hidden)
  }

  // ── What maintenance removes ──

  /** No curated entity, no alias points at it, and at most one note mentions it, an old
      one: `cutoff` is thirty days ago. Being split out by a person does not matter. */
  predicate Stale(g: Graph, x: Name, cutoff: int) {
    && x in g.entities && !g.entities[x].seeded
    && (forall a | a in g.aliases :: g.aliases[a].target != x)
    && var mentions := |NotesOf(g.mentions, x)|;
       mentions == 0
       || (mentions == 1 && (g.entities[x].createdAt.None? || g.entities[x].createdAt.value < cutoff))
  }

  function StaleNames(g: Graph, cutoff: int): set<Name> {
    set x | x in g.entities && Stale(g, x, cutoff)
  }

  /** `prune_stale_entities`: aliases of nothing go, then every stale entity with its edges. */
  function Prune(g: Graph, cutoff: int): Graph {
    Detached(g.(aliases := map a | a in g.aliases && g.aliases[a].target in g.entities :: g.aliases[a]),
             StaleNames(g, cutoff))
  }

  /** The graph without some entities and their edges. */
  function Detached(g: Graph, gone: set<Name>): Graph {
    Graph(
      g.entities - gone,
      g.aliases,
      map k | k in g.mentions && k.entity !in gone :: g.mentions[k],
      map h | h in g.hidden && h.0 !in gone :: g.hidden[h])
  }

  lemma DetachNone(g: Graph)
    ensures Detached(g, {}) == g
  {
  }

  lemma DetachOne(g: Graph, gone: set<Name>, x: Name)
    ensures Detached(Detached(g, gone), {x}) == Detached(g, gone + {x})
  {
    assert g.entities - (gone + {x}) == g.entities - gone - {x};
  }

  /** A note is deleted, or repaired: its mentions go. */
  function Forget(g: Graph, n: NoteId): Graph {
    g.(mentions := map k | k in g.mentions && k.note != n :: g.mentions[k])
  }

  // ── The graph as the program changes it, step by step ──

  class EntityStore {
    var entities: map<Name, Entity>
    var aliases: map<Name, Alias>
    var mentions: Mentions
    var hidden: map<(Name, TopicName), int>

    ghost function State(): Graph
      reads this
    {
      Graph(entities, aliases, mentions, hidden)
    }

    constructor (g: Graph)
      ensures State() == g
    {
      entities, aliases, mentions, hidden := g.entities, g.aliases, g.mentions, g.hidden;
    }

    /** Run one statement row by row, in whatever order the database gives the rows:
        the result does not depend on it. Returns how many rows there were. */
    method Execute(st: Statement) returns (rows: nat)
      modifies this`mentions
      ensures mentions == st.Effect(old(mentions))
      ensures rows == |st.Rows(old(mentions))|
    {
      hide MoveRow, SplitViaRow, SplitAbsorbedRow, Statement.Effect;
      ghost var before := mentions;
      var todo := st.Rows(mentions);
      rows := 0;
      ghost var done: set<NoteId> := {};
      while todo != {}
        invariant done !! todo && done + todo == st.Rows(before)
        invariant rows == |done|
        invariant Partly(st, before, mentions, done)
        decreases todo
      {
        var n :| n in todo;
        SelectedIsARow(st, before, n);
        RowLocal(st, before, mentions, n);
        RowsDone(st, before, mentions, done, n);
        mentions := st.Row(mentions, n);
        todo, done, rows := todo - {n}, done + {n}, rows + 1;
      }
      AllDone(st, before, mentions);
    }

    method Finish(from: Name, into: Name, origin: string)
      requires from in entities && into in entities
      modifies this
      ensures State() == FinishMerge(old(State()), from, into, origin)
    {
      aliases := aliases[from := MergedAlias(aliases, from, entities[from], into, origin)];
      ghost var before := aliases;
      var todo := set o | o in aliases && aliases[o].target == from;
      while todo != {}
        invariant entities == old(entities) && mentions == old(mentions) && hidden == old(hidden)
        invariant todo <= set o | o in before && before[o].target == from
        invariant aliases == map o | o in before ::
                    if before[o].target == from && o !in todo then before[o].(target := into) else before[o]
        decreases todo
      {
        var o :| o in todo;
        aliases := aliases[o := aliases[o].(target := into)];
        todo := todo - {o};
      }
      assert aliases == Repointed(before, from, into);
      hidden := MovedHidden(hidden, from, into);
      mentions := mentions - (set k | k in mentions && k.entity == from);
      entities := entities - {from};
    }

    method MergeInto(from: Name, into: Name, upper: Option<set<NoteId>>, origin: string)
        returns (outcome: MergeOutcome)
      modifies this
      ensures State() == Merge(old(State()), from, into, upper, origin)
      ensures outcome.SelfMerge? <==> from == into
      ensures outcome.Merged? && from in old(entities) && into in old(entities) ==>
        && outcome.fromDeleted == (from !in entities)
        && outcome.moved == |MoveStatement(old(State()), from, into, upper).Rows(old(mentions))|
        && outcome.kept == |NotesOf(mentions, from)|
      ensures outcome.Merged? && (from !in old(entities) || into !in old(entities)) ==>
        && outcome.moved == 0
        && outcome.kept == (if upper.Some? then |NotesOf(mentions, from)| else 0)
        && outcome.fromDeleted == (outcome.kept == 0)
    {
      if from == into {
        return SelfMerge;
      }
      var moved := 0;
      if from in entities && into in entities {
        moved := Execute(MoveTo(from, entities[from].id, into, upper));
      }
      if upper.Some? {
        var kept := |NotesOf(mentions, from)|;
        if kept != 0 {
          return Merged(moved, kept, false);
        }
      }
      if from in entities && into in entities {
        Finish(from, into, origin);
      }
      outcome := Merged(moved, 0, true);
      if old(from in entities) && old(into in entities) {
        assert NotesOf(mentions, from) == {};
      }
    }

    method Split(alias: Name, freshId: Id, now: int) returns (found: bool)
      modifies this
      ensures State() == Unmerge(old(State()), alias, freshId, now)
      ensures found == CanUnmerge(old(State()), alias)
    {
      if alias !in aliases || aliases[alias].target !in entities {
        return false;
      }
      var a := aliases[alias];
      entities := entities[alias := Restored(Graph(entities, aliases, mentions, hidden), alias, freshId, now)];
      var _ := Execute(SplitVia(alias, a.target));
      if a.mergedFrom.Some? {
        var _ := Execute(SplitAbsorbed(alias, a.target, a.mergedFrom.value));
      }
      aliases := aliases - {alias};
      found := true;
    }

    method Detach(x: Name)
      modifies this
      ensures State() == Detached(old(State()), {x})
    {
      entities := entities - {x};
      mentions := mentions - (set k | k in mentions && k.entity == x);
      hidden := hidden - (set h | h in hidden && h.0 == x);
    }

    method PruneStale(cutoff: int) returns (deleted: nat)
      modifies this
      ensures State() == Prune(old(State()), cutoff)
      ensures deleted == |StaleNames(old(State()), cutoff)|
    {
      hide Stale, Detached;
      aliases := map a | a in aliases && aliases[a].target in entities :: aliases[a];
      ghost var before := State();
      var todo := StaleNames(Graph(entities, aliases, mentions, hidden), cutoff);
      OrphansDoNotMatter(old(State()), aliases, cutoff);
      ghost var stale := todo;
      ghost var gone: set<Name> := {};
      DetachNone(before);
      deleted := 0;
      // Which entities go is settled before the first is deleted with its edges.
      while todo != {}
        invariant gone !! todo && gone + todo == stale && deleted == |gone|
        invariant State() == Detached(before, gone)
        decreases todo
      {
        var x :| x in todo;
        DetachOne(before, gone, x);
        Detach(x);
        todo, gone, deleted := todo - {x}, gone + {x}, deleted + 1;
      }
      assert gone == stale;
    }

    method ForgetNote(n: NoteId)
      modifies this`mentions
      ensures State() == Forget(old(State()), n)
    {
      ghost var before := mentions;
      var todo := set k | k in mentions && k.note == n;
      while todo != {}
        invariant todo <= set k | k in before && k.note == n
        invariant mentions == map k | k in before && (k.note != n || k in todo) :: before[k]
        decreases todo
      {
        var k :| k in todo;
        mentions, todo := mentions - {k}, todo - {k};
      }
    }
  }

  /** With neither entity there, the call reports a success that moved nothing. */
  method MergeOfNothing() returns (outcome: MergeOutcome)
    ensures outcome == Merged(0, 0, true)
  {
    var store := new EntityStore(Graph(map[], map[], map[], map[]));
    outcome := store.MergeInto("us", "usa", None, "proposal");
  }

  lemma OrphansDoNotMatter(g: Graph, kept: map<Name, Alias>, cutoff: int)
    requires kept == map a | a in g.aliases && g.aliases[a].target in g.entities :: g.aliases[a]
    ensures StaleNames(g.(aliases := kept), cutoff) == StaleNames(g, cutoff)
  {
    hide NotesOf;
    forall x | x in g.entities ensures Stale(g.(aliases := kept), x, cutoff) == Stale(g, x, cutoff) {
      forall a | a in g.aliases && g.aliases[a].target == x ensures a in kept && kept[a].target == x {
      }
    }
  }
}
