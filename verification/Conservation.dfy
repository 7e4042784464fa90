/** No mention is lost or invented: what every run of merges, unmerges, extractor writes
    and seeding keeps true of the entity graph. */
module Conservation {
  import opened Wrappers
  import opened EntityGraph

  function WeightAt(ms: Mentions, n: NoteId, x: Name): int {
    if Edge(n, x) in ms then ms[Edge(n, x)].Weight() else 0
  }

  /** How often note `n` mentions the entities `names`, all together. */
  ghost function Total(ms: Mentions, n: NoteId, names: set<Name>): int {
    if names == {} then 0
    else
      var x :| x in names;
      WeightAt(ms, n, x) + Total(ms, n, names - {x})
  }

  ghost function NoteTotal(g: Graph, n: NoteId): int {
    Total(g.mentions, n, g.entities.Keys)
  }

  lemma {:induction false} TotalSplit(ms: Mentions, n: NoteId, names: set<Name>, x: Name)
    requires x in names
    ensures Total(ms, n, names) == WeightAt(ms, n, x) + Total(ms, n, names - {x})
    decreases names
  {
    var y :| y in names && Total(ms, n, names) == WeightAt(ms, n, y) + Total(ms, n, names - {y});
    if y != x {
      TotalSplit(ms, n, names - {y}, x);
      TotalSplit(ms, n, names - {x}, y);
      assert names - {y} - {x} == names - {x} - {y};
    }
  }

  lemma {:induction false} TotalFrame(ms: Mentions, ms': Mentions, n: NoteId, names: set<Name>)
    requires forall x | x in names :: WeightAt(ms, n, x) == WeightAt(ms', n, x)
    ensures Total(ms, n, names) == Total(ms', n, names)
    decreases names
  {
    if names != {} {
      var x :| x in names;
      TotalFrame(ms, ms', n, names - {x});
      TotalSplit(ms, n, names, x);
      TotalSplit(ms', n, names, x);
    }
  }

  lemma {:induction false} TotalWiden(ms: Mentions, n: NoteId, names: set<Name>, more: set<Name>)
    requires forall x | x in more - names :: WeightAt(ms, n, x) == 0
    ensures Total(ms, n, names + more) == Total(ms, n, names)
    decreases more - names
  {
    if more - names == {} {
      assert forall x | x in more :: x in names || x in more - names;
      assert names + more == names;
    } else {
      var x :| x in more - names;
      TotalSplit(ms, n, names + more, x);
      assert names + more - {x} == names + (more - {x});
      TotalWiden(ms, n, names, more - {x});
    }
  }

  /** Two edges change and their weights add up to `delta` more than before. */
  lemma TotalShift(ms: Mentions, ms': Mentions, n: NoteId, names: set<Name>, a: Name, b: Name, delta: int)
    requires a in names && b in names && a != b
    requires forall x | x in names - {a, b} :: WeightAt(ms, n, x) == WeightAt(ms', n, x)
    requires WeightAt(ms', n, a) + WeightAt(ms', n, b) == WeightAt(ms, n, a) + WeightAt(ms, n, b) + delta
    ensures Total(ms', n, names) == Total(ms, n, names) + delta
  {
    TotalSplit(ms, n, names, a);
    TotalSplit(ms', n, names, a);
    TotalSplit(ms, n, names - {a}, b);
    TotalSplit(ms', n, names - {a}, b);
    TotalFrame(ms, ms', n, names - {a} - {b});
  }

  // ── The invariant ──

  ghost predicate EdgeOk(x: Name, m: Mention) {
    && m.via != Some(x)
    && (forall e | e in m.absorbed :: e.count >= 0)
    && Sum(m.absorbed) <= m.Weight()
    && 0 <= m.Weight()
    && (m.absorbed != [] ==> m.count.Some?)
  }

  ghost predicate MentionsOk(ms: Mentions) {
    forall k | k in ms :: EdgeOk(k.entity, ms[k])
  }

  ghost predicate Inv(g: Graph) {
    && (forall k | k in g.mentions :: k.entity in g.entities)
    && (forall a | a in g.aliases :: g.aliases[a].target in g.entities)
    && MentionsOk(g.mentions)
  }

  ghost predicate AllCounted(ms: Mentions) {
    forall k | k in ms :: ms[k].count.Some?
  }

  lemma {:induction false} SumAppend(a: seq<Entry>, e: Entry)
    ensures Sum(a + [e]) == Sum(a) + e.count
  {
    if a != [] {
      assert (a + [e])[1..] == a[1..] + [e];
      SumAppend(a[1..], e);
    }
  }

  lemma {:induction false} WithoutKeeps(a: seq<Entry>, entry: Entry)
    ensures forall e :: e in Without(a, entry) <==> e in a && e != entry
  {
    if a != [] {
      WithoutKeeps(a[1..], entry);
    }
  }

  lemma {:induction false} SumNonNegative(a: seq<Entry>)
    requires forall e | e in a :: e.count >= 0
    ensures 0 <= Sum(a)
  {
    if a != [] {
      SumNonNegative(a[1..]);
    }
  }

  lemma {:induction false} WithoutSum(a: seq<Entry>, entry: Entry)
    requires forall e | e in a :: e.count >= 0
    ensures Sum(Without(a, entry)) <= Sum(a)
    ensures entry in a ==> Sum(Without(a, entry)) <= Sum(a) - entry.count
  {
    if a != [] {
      WithoutSum(a[1..], entry);
      var rest := Without(a[1..], entry);
      assert [] + rest == rest;
      assert ([a[0]] + rest)[1..] == rest;
    }
  }

  lemma {:induction false} FirstEntryIsThere(a: seq<Entry>, id: Id)
    requires FirstEntry(a, id).Some?
    ensures FirstEntry(a, id).value in a && FirstEntry(a, id).value.id == id
  {
    if a[0].id != id {
      FirstEntryIsThere(a[1..], id);
    }
  }

  // ── One row ──

  /** An unmerge adds to the restored entity's edge as if an uncounted one weighed 0,
      though everywhere else it weighs 1. */
  predicate LosesOne(st: Statement, ms: Mentions, n: NoteId) {
    && !st.MoveTo?
    && st.Source() != st.Dest()
    && st.Selects(ms, n)
    && Edge(n, st.Dest()) in ms
    && ms[Edge(n, st.Dest())].count.None?
  }

  lemma RowKeeps(st: Statement, ms: Mentions, n: NoteId)
    requires MentionsOk(ms)
    requires st.MoveTo? ==> st.from != st.into
    ensures forall k | k in st.RowOrSame(ms, n) :: EdgeOk(k.entity, st.RowOrSame(ms, n)[k])
    ensures AllCounted(ms) ==> AllCounted(st.RowOrSame(ms, n))
  {
    if st.Selects(ms, n) {
      var ms' := st.Row(ms, n);
      var src, dst := Edge(n, st.Source()), Edge(n, st.Dest());
      var r := ms[src];
      assert EdgeOk(st.Source(), r);
      SumNonNegative(r.absorbed);
      forall k | k in ms' ensures EdgeOk(k.entity, ms'[k]) && (AllCounted(ms) ==> ms'[k].count.Some?) {
        if k != src && k != dst {
          RowFrame(st, ms, n, k);
          assert k in ms && ms'[k] == ms[k];
        } else {
          match st
          case MoveTo(_, fromId, _, _) =>
            if dst in ms {
              SumAppend(ms[dst].absorbed, Entry(fromId, r.Weight()));
            }
          case SplitVia(_, _) =>
          case SplitAbsorbed(_, _, fid) =>
            FirstEntryIsThere(r.absorbed, fid);
            var entry := FirstEntry(r.absorbed, fid).value;
            WithoutKeeps(r.absorbed, entry);
            WithoutSum(r.absorbed, entry);
            SumNonNegative(Without(r.absorbed, entry));
        }
      }
    }
  }

  lemma RowTotal(st: Statement, ms: Mentions, n: NoteId, names: set<Name>)
    requires MentionsOk(ms)
    requires st.MoveTo? ==> st.from != st.into
    requires st.Source() in names && st.Dest() in names
    ensures Total(st.RowOrSame(ms, n), n, names)
         == Total(ms, n, names) - if LosesOne(st, ms, n) then 1 else 0
  {
    if st.Selects(ms, n) {
      var ms' := st.Row(ms, n);
      var src, dst := Edge(n, st.Source()), Edge(n, st.Dest());
      var r := ms[src];
      assert EdgeOk(st.Source(), r);
      SumNonNegative(r.absorbed);
      if st.SplitAbsorbed? {
        FirstEntryIsThere(r.absorbed, st.fid);
        WithoutSum(r.absorbed, FirstEntry(r.absorbed, st.fid).value);
        WithoutKeeps(r.absorbed, FirstEntry(r.absorbed, st.fid).value);
        SumNonNegative(Without(r.absorbed, FirstEntry(r.absorbed, st.fid).value));
      }
      forall x | x in names - {st.Source(), st.Dest()} ensures WeightAt(ms, n, x) == WeightAt(ms', n, x) {
        RowFrame(st, ms, n, Edge(n, x));
        assert Lookup(ms, Edge(n, x)) == Lookup(ms', Edge(n, x));
      }
      if src == dst {
        TotalSplit(ms, n, names, st.Source());
        TotalSplit(ms', n, names, st.Source());
        TotalFrame(ms, ms', n, names - {st.Source()});
      } else {
        TotalShift(ms, ms', n, names, st.Source(), st.Dest(), if LosesOne(st, ms, n) then -1 else 0);
      }
    }
  }

  // ── One statement ──

  lemma EffectKeeps(st: Statement, ms: Mentions)
    requires MentionsOk(ms)
    requires st.MoveTo? ==> st.from != st.into
    ensures MentionsOk(st.Effect(ms))
    ensures AllCounted(ms) ==> AllCounted(st.Effect(ms))
  {
    forall k | k in st.Effect(ms)
      ensures EdgeOk(k.entity, st.Effect(ms)[k]) && (AllCounted(ms) ==> st.Effect(ms)[k].count.Some?)
    {
      EffectAt(st, ms, k);
      RowKeeps(st, ms, k.note);
    }
  }

  lemma EffectEntities(st: Statement, ms: Mentions, k: Edge)
    requires k in st.Effect(ms)
    ensures k in ms || k.entity == st.Dest()
  {
    EffectAt(st, ms, k);
    if k.entity != st.Source() && k.entity != st.Dest() {
      RowFrame(st, ms, k.note, k);
    }
  }

  lemma EffectTotal(st: Statement, ms: Mentions, n: NoteId, names: set<Name>)
    requires MentionsOk(ms)
    requires st.MoveTo? ==> st.from != st.into
    requires st.Source() in names && st.Dest() in names
    ensures Total(st.Effect(ms), n, names)
         == Total(ms, n, names) - if LosesOne(st, ms, n) then 1 else 0
  {
    RowTotal(st, ms, n, names);
    forall x | x in names ensures WeightAt(st.Effect(ms), n, x) == WeightAt(st.RowOrSame(ms, n), n, x) {
      EffectAt(st, ms, Edge(n, x));
    }
    TotalFrame(st.Effect(ms), st.RowOrSame(ms, n), n, names);
  }

  // ── One operation ──

  lemma FullMoveLeavesNothing(g: Graph, from: Name, into: Name)
    requires from in g.entities && from != into
    ensures NotesOf(MoveStatement(g, from, into, None).Effect(g.mentions), from) == {}
  {
    var st := MoveStatement(g, from, into, None);
    forall n ensures Edge(n, from) !in st.Effect(g.mentions) {
      EffectAt(st, g.mentions, Edge(n, from));
    }
    assert forall k | k in st.Effect(g.mentions) :: k == Edge(k.note, k.entity);
  }

  /** Dropping a node nothing mentions any more loses no mention. */
  lemma FinishConserves(g: Graph, from: Name, into: Name, origin: string, n: NoteId)
    requires Inv(g)
    requires from in g.entities && into in g.entities && from != into
    requires NotesOf(g.mentions, from) == {}
    ensures Inv(FinishMerge(g, from, into, origin))
    ensures FinishMerge(g, from, into, origin).mentions == g.mentions
    ensures NoteTotal(FinishMerge(g, from, into, origin), n) == NoteTotal(g, n)
  {
    assert forall k | k in g.mentions :: k.entity == from ==> k.note in NotesOf(g.mentions, from);
    assert FinishMerge(g, from, into, origin).mentions == g.mentions;
    TotalWiden(g.mentions, n, g.entities.Keys - {from}, {from});
    assert g.entities.Keys - {from} + {from} == g.entities.Keys;
  }

  /** A merge, full or capitals-only, keeps every note's total and the invariant. */
  lemma MergeConserves(g: Graph, from: Name, into: Name, upper: Option<set<NoteId>>, origin: string, n: NoteId)
    requires Inv(g)
    ensures Inv(Merge(g, from, into, upper, origin))
    ensures AllCounted(g.mentions) ==> AllCounted(Merge(g, from, into, upper, origin).mentions)
    ensures NoteTotal(Merge(g, from, into, upper, origin), n) == NoteTotal(g, n)
  {
    if from != into && from in g.entities && into in g.entities {
      var st := MoveStatement(g, from, into, upper);
      var g1 := g.(mentions := st.Effect(g.mentions));
      EffectKeeps(st, g.mentions);
      EffectTotal(st, g.mentions, n, g.entities.Keys);
      forall k | k in g1.mentions ensures k.entity in g.entities {
        EffectEntities(st, g.mentions, k);
      }
      if upper.None? {
        FullMoveLeavesNothing(g, from, into);
      }
      if NotesOf(g1.mentions, from) == {} {
        FinishConserves(g1, from, into, origin, n);
      }
    }
  }

  /** When an unmerge drops one mention of a note: the restored entity's own edge has no
      count, and something of that note moves back onto it. */
  predicate UnmergeLosesOne(g: Graph, alias: Name, n: NoteId)
    requires CanUnmerge(g, alias)
  {
    var a := g.aliases[alias];
    && alias != a.target
    && Edge(n, alias) in g.mentions
    && g.mentions[Edge(n, alias)].count.None?
    && (SplitVia(alias, a.target).Selects(g.mentions, n)
        || (a.mergedFrom.Some? && SplitAbsorbed(alias, a.target, a.mergedFrom.value).Selects(g.mentions, n)))
  }

  lemma SplitKeeps(ms: Mentions, alias: Name, a: Alias)
    requires MentionsOk(ms)
    ensures MentionsOk(SplitMentions(ms, alias, a))
    ensures AllCounted(ms) ==> AllCounted(SplitMentions(ms, alias, a))
    ensures forall k | k in SplitMentions(ms, alias, a) :: k in ms || k.entity == alias
  {
    hide EdgeOk, Statement.Effect;
    var via := SplitVia(alias, a.target);
    var ms1 := via.Effect(ms);
    EffectKeeps(via, ms);
    forall k | k in ms1 ensures k in ms || k.entity == alias {
      EffectEntities(via, ms, k);
    }
    if a.mergedFrom.Some? {
      var absorbed := SplitAbsorbed(alias, a.target, a.mergedFrom.value);
      EffectKeeps(absorbed, ms1);
      forall k | k in absorbed.Effect(ms1) ensures k in ms || k.entity == alias {
        EffectEntities(absorbed, ms1, k);
      }
    }
  }

  /** The second step can lose a mention only of a note the first step left alone. */
  lemma LosesOnce(ms: Mentions, alias: Name, target: Name, fid: Id, n: NoteId)
    ensures var via, absorbed := SplitVia(alias, target), SplitAbsorbed(alias, target, fid);
            && !(LosesOne(via, ms, n) && LosesOne(absorbed, via.Effect(ms), n))
            && (LosesOne(via, ms, n) || LosesOne(absorbed, via.Effect(ms), n)
                <==> LosesOne(via, ms, n) || LosesOne(absorbed, ms, n))
  {
    var via := SplitVia(alias, target);
    EffectAt(via, ms, Edge(n, target));
    EffectAt(via, ms, Edge(n, alias));
    hide Statement.Effect;
  }

  lemma SplitTotal(ms: Mentions, alias: Name, a: Alias, n: NoteId, names: set<Name>)
    requires MentionsOk(ms)
    requires alias in names && a.target in names
    ensures Total(SplitMentions(ms, alias, a), n, names) == Total(ms, n, names)
         - (if LosesOne(SplitVia(alias, a.target), ms, n)
               || (a.mergedFrom.Some? && LosesOne(SplitAbsorbed(alias, a.target, a.mergedFrom.value), ms, n))
            then 1 else 0)
  {
    hide Statement.Effect, EdgeOk, LosesOne, MentionsOk, Total;
    var via := SplitVia(alias, a.target);
    EffectKeeps(via, ms);
    EffectTotal(via, ms, n, names);
    if a.mergedFrom.Some? {
      var absorbed := SplitAbsorbed(alias, a.target, a.mergedFrom.value);
      EffectTotal(absorbed, via.Effect(ms), n, names);
      LosesOnce(ms, alias, a.target, a.mergedFrom.value, n);
    }
  }

  /** An unmerge keeps the invariant always, and a note's total exactly when
      `UnmergeLosesOne` does not hold. */
  lemma UnmergeConserves(g: Graph, alias: Name, freshId: Id, now: int, n: NoteId)
    requires Inv(g) && CanUnmerge(g, alias)
    ensures Inv(Unmerge(g, alias, freshId, now))
    ensures AllCounted(g.mentions) ==> AllCounted(Unmerge(g, alias, freshId, now).mentions)
    ensures NoteTotal(Unmerge(g, alias, freshId, now), n)
         == NoteTotal(g, n) - if UnmergeLosesOne(g, alias, n) then 1 else 0
  {
    var g' := Unmerge(g, alias, freshId, now);
    var a := g.aliases[alias];
    SplitKeeps(g.mentions, alias, a);
    SplitTotal(g.mentions, alias, a, n, g'.entities.Keys);
    assert g'.entities.Keys == g.entities.Keys + {alias};
    TotalWiden(g.mentions, n, g.entities.Keys, {alias});
  }

  /** A note with an uncounted mention of "us" and one of "united states" through it. */
  function UncountedExample(): Graph {
    var plain := Mention(None, None, None, None, None, []);
    Graph(
      map["us" := Entity("1", None, None, false, false), "usa" := Entity("2", None, None, true, false)],
      map["us" := Alias("usa", None, None, None, true, "seed")],
      map[Edge("n", "us") := plain, Edge("n", "usa") := plain.(count := Some(1), via := Some("us"))],
      map[])
  }

  /** The loss is real: undoing the alias of that note leaves it one mention short. */
  lemma UnmergeCanLoseAMention()
    ensures Inv(UncountedExample()) && CanUnmerge(UncountedExample(), "us")
    ensures NoteTotal(Unmerge(UncountedExample(), "us", "x", 0), "n") == NoteTotal(UncountedExample(), "n") - 1
  {
    var g := UncountedExample();
    assert Edge("n", "usa") in g.mentions && g.mentions[Edge("n", "usa")].via == Some("us");
    assert SplitVia("us", "usa").Selects(g.mentions, "n");
    UnmergeConserves(g, "us", "x", 0, "n");
  }

  // ── Hidden topics ──

  /** A merged entity's hidden topics are its target's from then on, with the time the target
      had them hidden since, if it had; nothing else is hidden or shown. While the source is
      there it keeps its own. */
  lemma HiddenTopicsFollow(g: Graph, from: Name, into: Name, upper: Option<set<NoteId>>, origin: string)
    ensures var g' := Merge(g, from, into, upper, origin);
            if from in g'.entities || from !in g.entities then g'.hidden == g.hidden
            else
              && (forall t :: (into, t) in g'.hidden <==> (into, t) in g.hidden || (from, t) in g.hidden)
              && (forall t | (into, t) in g.hidden :: g'.hidden[(into, t)] == g.hidden[(into, t)])
              && (forall t | (from, t) in g.hidden && (into, t) !in g.hidden ::
                    g'.hidden[(into, t)] == g.hidden[(from, t)])
              && (forall t :: (from, t) !in g'.hidden)
              && (forall x, t | x != from && x != into ::
                    && ((x, t) in g'.hidden <==> (x, t) in g.hidden)
                    && ((x, t) in g.hidden ==> g'.hidden[(x, t)] == g.hidden[(x, t)]))
  {
    hide Statement.Effect, NotesOf, Repointed;
    if from != into {
      MovedHiddenIs(g.hidden, from, into);
    }
    hide MovedHidden;
  }

  lemma MovedHiddenIs(hidden: map<(Name, TopicName), int>, from: Name, into: Name)
    requires from != into
    ensures var moved := MovedHidden(hidden, from, into);
            && (forall t :: (into, t) in moved <==> (into, t) in hidden || (from, t) in hidden)
            && (forall t | (into, t) in hidden :: moved[(into, t)] == hidden[(into, t)])
            && (forall t | (from, t) in hidden && (into, t) !in hidden :: moved[(into, t)] == hidden[(from, t)])
            && (forall t :: (from, t) !in moved)
            && (forall x, t | x != from && x != into ::
                  && ((x, t) in moved <==> (x, t) in hidden)
                  && ((x, t) in hidden ==> moved[(x, t)] == hidden[(x, t)]))
  {
    forall t | (from, t) in hidden ensures (into, t) in MovedHidden(hidden, from, into) {
      var h := (from, t);
      assert h in hidden.Keys && h.0 == from && (into, h.1) == (into, t);
    }
  }

  // ── Whole runs ──

  /** What writes entities, aliases or mentions: the merge calls (from a plan or a person),
      the undo, the extractor and its vote on types, a type set by hand, the seeding part of
      `sync`, the pruning of stale entities, and what deletes or repairs a note. */
  datatype Op =
    | MergeOp(from: Name, into: Name, upper: Option<set<NoteId>>, origin: string)
    | UnmergeOp(alias: Name, freshId: Id, now: int)
    | MentionOp(note: NoteId, entity: Name, through: Name, newEntity: Entity)
    | VoteOp(name: Name, entityType: string)
    | SetTypeOp(name: Name, entityType: string)
    | SeedEntityOp(name: Name, listed: Option<string>, seed: Entity)
    | SeedAliasOp(name: Name, target: Name, caseSensitive: bool)
    | PruneOp(cutoff: int)
    | ForgetOp(note: NoteId)

  /** The extractor's write of one mention: a new edge counts 1 and keeps the name it came
      through, an existing one counts one more (adding to a missing count leaves it missing). */
  function WriteMention(ms: Mentions, n: NoteId, x: Name, through: Name): Mentions {
    var k := Edge(n, x);
    ms[k := if k in ms then
              ms[k].(count := if ms[k].count.Some? then Some(ms[k].count.value + 1) else None)
            else
              Mention(Some(1), Some(through), None, if through != x then Some(through) else None, None, [])]
  }

  /** A curated entity is marked, and typed as the rules say; without a type there it keeps
      its own. */
  function Seeding(e: Entity, listed: Option<string>): Entity {
    e.(seeded := true, entityType := Some(listed.GetOr(e.entityType.GetOr("unknown"))))
  }

  function Apply(g: Graph, op: Op): Graph {
    match op
    case MergeOp(from, into, upper, origin) => Merge(g, from, into, upper, origin)
    case UnmergeOp(alias, freshId, now) => Unmerge(g, alias, freshId, now)
    case MentionOp(n, x, through, newEntity) =>
      g.(entities := if x in g.entities then g.entities else g.entities[x := newEntity],
         mentions := WriteMention(g.mentions, n, x, through))
    case VoteOp(x, entityType) =>
      // The type of a curated entity is final.
      if x !in g.entities || g.entities[x].seeded then g
      else g.(entities := g.entities[x := g.entities[x].(entityType := Some(entityType))])
    case SetTypeOp(x, entityType) =>
      // `type_source` holds one mark: "manual" takes the place of "seed".
      if x !in g.entities then g
      else g.(entities := g.entities[x := g.entities[x].(entityType := Some(entityType), seeded := false)])
    case SeedEntityOp(x, listed, seed) =>
      g.(entities := g.entities[x := Seeding(if x in g.entities then g.entities[x] else seed, listed)])
    case SeedAliasOp(name, target, cs) =>
      if target !in g.entities then g
      else
        g.(aliases := g.aliases[name :=
             if name in g.aliases then g.aliases[name].(target := target, caseSensitive := cs)
             else Alias(target, None, None, None, cs, "seed")])
    case PruneOp(cutoff) => Prune(g, cutoff)
    case ForgetOp(n) => Forget(g, n)
  }

  function Run(g: Graph, ops: seq<Op>): Graph
    decreases |ops|
  {
    if ops == [] then g else Run(Apply(g, ops[0]), ops[1..])
  }

  /** How many mentions of note `n` the extractor wrote during the run. */
  function Written(ops: seq<Op>, n: NoteId): nat {
    if ops == [] then 0
    else (if ops[0].MentionOp? && ops[0].note == n then 1 else 0) + Written(ops[1..], n)
  }

  /** The extractor's mention is not counted: the edge it is added to has no count. */
  predicate Uncounted(g: Graph, n: NoteId, x: Name) {
    Edge(n, x) in g.mentions && g.mentions[Edge(n, x)].count.None?
  }

  /** How many mentions of note `n` one write loses. */
  ghost function Lost(g: Graph, op: Op, n: NoteId): int {
    match op
    case UnmergeOp(alias, _, _) => if CanUnmerge(g, alias) && UnmergeLosesOne(g, alias, n) then 1 else 0
    case MentionOp(m, x, _, _) => if m == n && Uncounted(g, n, x) then 1 else 0
    case PruneOp(cutoff) => Total(g.mentions, n, StaleNames(g, cutoff))
    case ForgetOp(m) => if m == n then NoteTotal(g, n) else 0
    case _ => 0
  }

  ghost function LostIn(g: Graph, ops: seq<Op>, n: NoteId): int
    decreases |ops|
  {
    if ops == [] then 0 else Lost(g, ops[0], n) + LostIn(Apply(g, ops[0]), ops[1..], n)
  }

  /** The extractor's write keeps the invariant, and adds one to its note's total exactly
      when the edge is new or counted. */
  lemma MentionConserves(g: Graph, op: Op, n: NoteId)
    requires op.MentionOp? && Inv(g)
    ensures Inv(Apply(g, op))
    ensures AllCounted(g.mentions) ==> AllCounted(Apply(g, op).mentions)
    ensures NoteTotal(Apply(g, op), n)
            == NoteTotal(g, n) + if op.note == n && !Uncounted(g, n, op.entity) then 1 else 0
  {
    hide Total;
    var g' := Apply(g, op);
    var x := op.entity;
    assert g'.entities.Keys == g.entities.Keys + {x};
    TotalWiden(g.mentions, n, g.entities.Keys, {x});
    TotalSplit(g.mentions, n, g'.entities.Keys, x);
    TotalSplit(g'.mentions, n, g'.entities.Keys, x);
    TotalFrame(g.mentions, g'.mentions, n, g'.entities.Keys - {x});
  }

  lemma SeedConserves(g: Graph, op: Op, n: NoteId)
    requires op.SeedEntityOp? || op.SeedAliasOp?
    requires Inv(g)
    ensures Inv(Apply(g, op)) && Apply(g, op).mentions == g.mentions
    ensures NoteTotal(Apply(g, op), n) == NoteTotal(g, n)
  {
    var g' := Apply(g, op);
    if op.SeedEntityOp? {
      assert g'.entities.Keys == g.entities.Keys + {op.name};
      TotalWiden(g.mentions, n, g.entities.Keys, {op.name});
    }
  }

  lemma TypesConserve(g: Graph, op: Op, n: NoteId)
    requires op.VoteOp? || op.SetTypeOp?
    requires Inv(g)
    ensures Inv(Apply(g, op)) && Apply(g, op).mentions == g.mentions
    ensures NoteTotal(Apply(g, op), n) == NoteTotal(g, n)
  {
    assert Apply(g, op).entities.Keys == g.entities.Keys;
  }

  lemma {:induction false} TotalUnion(ms: Mentions, n: NoteId, a: set<Name>, b: set<Name>)
    requires a !! b
    ensures Total(ms, n, a + b) == Total(ms, n, a) + Total(ms, n, b)
    decreases b
  {
    if b == {} {
      assert a + b == a;
    } else {
      var x :| x in b;
      TotalSplit(ms, n, a + b, x);
      TotalSplit(ms, n, b, x);
      assert a + b - {x} == a + (b - {x});
      TotalUnion(ms, n, a, b - {x});
    }
  }

  /** A prune keeps the invariant and loses exactly the mentions of what it deletes. */
  lemma PruneConserves(g: Graph, cutoff: int, n: NoteId)
    requires Inv(g)
    ensures Inv(Prune(g, cutoff))
    ensures NoteTotal(Prune(g, cutoff), n) == NoteTotal(g, n) - Total(g.mentions, n, StaleNames(g, cutoff))
  {
    hide Total, NotesOf, EdgeOk;
    var gone := StaleNames(g, cutoff);
    var g' := Prune(g, cutoff);
    assert g.entities.Keys == g'.entities.Keys + gone;
    TotalUnion(g.mentions, n, g'.entities.Keys, gone);
    TotalFrame(g.mentions, g'.mentions, n, g'.entities.Keys);
  }

  lemma {:induction false} TotalNone(ms: Mentions, n: NoteId, names: set<Name>)
    requires forall x | x in names :: Edge(n, x) !in ms
    ensures Total(ms, n, names) == 0
    decreases names
  {
    if names != {} {
      var x :| x in names;
      TotalSplit(ms, n, names, x);
      TotalNone(ms, n, names - {x});
    }
  }

  lemma ForgetConserves(g: Graph, m: NoteId, n: NoteId)
    requires Inv(g)
    ensures Inv(Forget(g, m))
    ensures NoteTotal(Forget(g, m), n) == if m == n then 0 else NoteTotal(g, n)
  {
    hide Total, EdgeOk;
    if m == n {
      TotalNone(Forget(g, m).mentions, n, g.entities.Keys);
    } else {
      TotalFrame(g.mentions, Forget(g, m).mentions, n, g.entities.Keys);
    }
  }

  /** One write: the invariant stays, and the note's total changes by what was written and
      what was lost. */
  lemma StepConserves(g: Graph, op: Op, n: NoteId)
    requires Inv(g)
    ensures Inv(Apply(g, op))
    ensures NoteTotal(Apply(g, op), n)
            == NoteTotal(g, n) + (if op.MentionOp? && op.note == n then 1 else 0) - Lost(g, op, n)
  {
    hide Inv, NoteTotal, Merge, Unmerge, Prune, Forget, UnmergeLosesOne, Total;
    match op
    case MergeOp(from, into, upper, origin) => MergeConserves(g, from, into, upper, origin, n);
    case UnmergeOp(alias, freshId, now) =>
      if CanUnmerge(g, alias) {
        UnmergeConserves(g, alias, freshId, now, n);
      } else {
        NoUndo(g, alias, freshId, now);
      }
    case MentionOp(_, _, _, _) => MentionConserves(g, op, n);
    case VoteOp(_, _) => TypesConserve(g, op, n);
    case SetTypeOp(_, _) => TypesConserve(g, op, n);
    case SeedEntityOp(_, _, _) => SeedConserves(g, op, n);
    case SeedAliasOp(_, _, _) => SeedConserves(g, op, n);
    case PruneOp(cutoff) => PruneConserves(g, cutoff, n);
    case ForgetOp(m) => ForgetConserves(g, m, n);
  }

  lemma NoUndo(g: Graph, alias: Name, freshId: Id, now: int)
    requires !CanUnmerge(g, alias)
    ensures Unmerge(g, alias, freshId, now) == g
  {
  }

  /** Over every run each note's mentions are conserved but for the losses of single writes,
      no edge holds more absorbed mentions than it counts, and every alias points at an
      entity that exists. */
  lemma {:induction false} RunConserves(g: Graph, ops: seq<Op>, n: NoteId)
    requires Inv(g)
    ensures Inv(Run(g, ops))
    ensures NoteTotal(Run(g, ops), n) == NoteTotal(g, n) + Written(ops, n) - LostIn(g, ops, n)
    decreases |ops|
  {
    hide Inv, NoteTotal, Apply, Lost;
    if ops != [] {
      StepConserves(g, ops[0], n);
      RunConserves(Apply(g, ops[0]), ops[1..], n);
    }
  }

  /** Nothing is lost where every edge has a count and nothing is pruned or forgotten. */
  lemma {:induction false} CountedRunsLoseNothing(g: Graph, ops: seq<Op>, n: NoteId)
    requires Inv(g) && AllCounted(g.mentions)
    requires forall op | op in ops :: !op.PruneOp? && !op.ForgetOp?
    ensures AllCounted(Run(g, ops).mentions) && LostIn(g, ops, n) == 0
    decreases |ops|
  {
    if ops != [] {
      var op := ops[0];
      assert op in ops && forall o | o in ops[1..] :: o in ops;
      StepConserves(g, op, n);
      match op {
        case MergeOp(from, into, upper, origin) => MergeConserves(g, from, into, upper, origin, n);
        case UnmergeOp(alias, freshId, now) =>
          if CanUnmerge(g, alias) {
            UnmergeConserves(g, alias, freshId, now, n);
          }
        case MentionOp(_, _, _, _) => MentionConserves(g, op, n);
        case VoteOp(_, _) => TypesConserve(g, op, n);
        case SetTypeOp(_, _) => TypesConserve(g, op, n);
        case _ => SeedConserves(g, op, n);
      }
      hide Inv, Apply, Merge, Unmerge;
      CountedRunsLoseNothing(Apply(g, op), ops[1..], n);
    }
  }

  /** A mention extracted onto an edge without a count is lost. */
  lemma ExtractionCanLoseAMention()
    ensures var g, op := UncountedExample(), MentionOp("n", "us", "us", Entity("3", None, None, false, false));
            Inv(g) && NoteTotal(Apply(g, op), "n") == NoteTotal(g, "n") && Lost(g, op, "n") == 1
  {
    MentionConserves(UncountedExample(), MentionOp("n", "us", "us", Entity("3", None, None, false, false)), "n");
  }
}
