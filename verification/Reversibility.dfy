/** A merge can be undone: entities folded into one target, and split out again in any
    order, get back exactly the mentions they had. */
module Reversibility {
  import opened Wrappers
  import opened EntityGraph
  import opened Conservation

  // ── `absorbed` lists ──

  /** The counts an `absorbed` list holds for one merged entity. */
  function Counts(a: seq<Entry>, id: Id): seq<int> {
    if a == [] then []
    else (if a[0].id == id then [a[0].count] else []) + Counts(a[1..], id)
  }

  /** The entries that are not of the entities `ids`. */
  function Foreign(a: seq<Entry>, ids: set<Id>): seq<Entry> {
    if a == [] then []
    else (if a[0].id in ids then [] else [a[0]]) + Foreign(a[1..], ids)
  }

  lemma {:induction false} Appended(a: seq<Entry>, e: Entry, ids: set<Id>)
    ensures forall id :: Counts(a + [e], id) == Counts(a, id) + if e.id == id then [e.count] else []
    ensures Foreign(a + [e], ids) == Foreign(a, ids) + if e.id in ids then [] else [e]
    ensures Sum(a + [e]) == Sum(a) + e.count
  {
    if a != [] {
      assert (a + [e])[1..] == a[1..] + [e];
      Appended(a[1..], e, ids);
    }
  }

  lemma {:induction false} NoCounts(a: seq<Entry>, e: Entry)
    ensures Counts(a, e.id) == [] <==> FirstEntry(a, e.id).None?
    ensures Counts(a, e.id) == [] ==> Without(a, e) == a
  {
    if a != [] {
      NoCounts(a[1..], e);
    }
  }

  lemma {:induction false} OneRemoved(a: seq<Entry>, e: Entry, ids: set<Id>)
    requires Counts(a, e.id) == [e.count] && e.id in ids
    ensures FirstEntry(a, e.id) == Some(e)
    ensures forall id :: Counts(Without(a, e), id) == if id == e.id then [] else Counts(a, id)
    ensures Foreign(Without(a, e), ids) == Foreign(a, ids)
    ensures Sum(Without(a, e)) == Sum(a) - e.count
  {
    if a[0].id == e.id {
      assert Counts(a, e.id)[0] == a[0].count;
      assert Counts(a[1..], e.id) == [];
      NoCounts(a[1..], e);
      assert Without(a, e) == a[1..];
      forall id ensures Counts(a[1..], id) == if id == e.id then [] else Counts(a, id) {}
    } else {
      OneRemoved(a[1..], e, ids);
      var rest := Without(a[1..], e);
      assert Without(a, e) == [a[0]] + rest;
      assert ([a[0]] + rest)[1..] == rest;
    }
  }

  /** With only positive entries of `ids` beside the foreign ones, the sum says whether any are there. */
  lemma {:induction false} OwnEntries(a: seq<Entry>, ids: set<Id>)
    requires forall e | e in a && e.id in ids :: e.count >= 1
    ensures Sum(a) >= Sum(Foreign(a, ids))
    ensures Foreign(a, ids) == [] && a != [] ==> Sum(a) >= 1
  {
    if a != [] {
      OwnEntries(a[1..], ids);
      var rest := Foreign(a[1..], ids);
      assert ([a[0]] + rest)[1..] == rest;
      assert [] + rest == rest;
    }
  }

  lemma {:induction false} AllForeign(a: seq<Entry>, ids: set<Id>)
    requires forall e | e in a :: e.id !in ids
    ensures Foreign(a, ids) == a
  {
    if a != [] {
      AllForeign(a[1..], ids);
    }
  }

  lemma {:induction false} EntryCounted(a: seq<Entry>, e: Entry)
    requires e in a
    ensures Counts(a, e.id) != []
  {
    if a[0] != e {
      EntryCounted(a[1..], e);
    }
  }

  lemma {:induction false} EntryIsOwn(a: seq<Entry>, ids: set<Id>, e: Entry)
    requires e in a && Foreign(a, ids) == []
    ensures e.id in ids
  {
    if a[0] != e {
      EntryIsOwn(a[1..], ids, e);
    }
  }

  // ── One note's edge to the target ──

  /** What a note had at the start: its edge to the target and its weight on each source
      it mentioned; `ids` are the ids of all the sources. */
  datatype View = View(base: Option<Mention>, weights: map<Name, int>, ids: map<Name, Id>) {
    ghost predicate Valid() {
      && weights.Keys <= ids.Keys
      && (forall f, f' | f in ids && f' in ids :: ids[f] == ids[f'] ==> f == f')
      && (forall f | f in weights :: weights[f] >= 1)
      && (base.Some? ==>
            && base.value.Weight() >= 1
            && (base.value.absorbed != [] ==> base.value.count.Some?)
            && (base.value.via.Some? ==> base.value.via.value !in ids)
            && (forall e | e in base.value.absorbed :: e.id !in ids.Values))
    }

    /** Each source inside has its own entry, unless it is the edge's `via`. */
    ghost predicate EntriesFor(a: seq<Entry>, inside: set<Name>)
      requires inside <= weights.Keys
    {
      && (forall e | e in a && e.id in ids.Values :: e.count >= 1)
      && (forall f | f in ids :: Counts(a, ids[f]) == if f in inside then [weights[f]] else [])
    }

    function ViaSet(m: Mention): set<Name> {
      if m.via.Some? then {m.via.value} else {}
    }

    /** The target's edge counts the note's own mentions of the target plus those of the
        sources `inside`, each held by its own entry or (at most one) by `via`. */
    ghost predicate EdgeHolds(m: Mention, inside: set<Name>)
      requires inside <= weights.Keys
    {
      && (m.absorbed != [] ==> m.count.Some?)
      && EntriesFor(m.absorbed, inside - ViaSet(m))
      && match base
         case Some(b) =>
           && m.via == b.via
           && Foreign(m.absorbed, ids.Values) == b.absorbed
           && m.Weight() == b.Weight() + Sum(m.absorbed) - Sum(b.absorbed)
         case None =>
           && Foreign(m.absorbed, ids.Values) == []
           && (m.via.None? ==> m.Weight() == Sum(m.absorbed))
           && (m.via.Some? ==> m.via.value in inside && m.Weight() == Sum(m.absorbed) + weights[m.via.value])
    }

    ghost predicate Holds(o: Option<Mention>, inside: set<Name>)
      requires inside <= weights.Keys
    {
      && (o.Some? <==> base.Some? || inside != {})
      && (o.Some? ==> EdgeHolds(o.value, inside))
    }
  }

  lemma NoEntries(v: View, a: seq<Entry>)
    requires v.Valid()
    requires forall e | e in a :: e.id !in v.ids.Values
    ensures v.EntriesFor(a, {}) && Foreign(a, v.ids.Values) == a
  {
    hide Counts, Foreign, Sum, Without, FirstEntry;
    AllForeign(a, v.ids.Values);
    forall f | f in v.ids ensures Counts(a, v.ids[f]) == [] {
      NoCounts(a, Entry(v.ids[f], 0));
      if Counts(a, v.ids[f]) != [] {
        FirstEntryIsThere(a, v.ids[f]);
      }
    }
  }

  lemma ViewStart(v: View)
    requires v.Valid()
    ensures v.Holds(v.base, {})
  {
    hide Counts, Foreign, Sum, Without, FirstEntry;
    if v.base.Some? {
      NoEntries(v, v.base.value.absorbed);
      assert {} - v.ViaSet(v.base.value) == {};
    }
  }

  /** A list with nothing but source entries is empty exactly when no source is inside. */
  lemma OnlyOwnEntries(v: View, a: seq<Entry>, inside: set<Name>)
    requires v.Valid() && inside <= v.weights.Keys
    requires v.EntriesFor(a, inside)
    requires Foreign(a, v.ids.Values) == []
    ensures a == [] <==> inside == {}
    ensures Sum(a) >= 0 && (a != [] <==> Sum(a) >= 1)
  {
    hide Foreign, Without, FirstEntry;
    OwnEntries(a, v.ids.Values);
    if a != [] {
      EntryIsOwn(a, v.ids.Values, a[0]);
      var f :| f in v.ids && v.ids[f] == a[0].id;
      EntryCounted(a, a[0]);
      assert f in inside;
    } else {
      forall f | f in v.ids ensures f !in inside {
        assert Counts(a, v.ids[f]) == [];
      }
    }
  }

  lemma EntriesAppend(v: View, a: seq<Entry>, inside: set<Name>, f: Name)
    requires v.Valid() && inside <= v.weights.Keys && f in v.weights && f !in inside
    requires v.EntriesFor(a, inside)
    ensures v.EntriesFor(a + [Entry(v.ids[f], v.weights[f])], inside + {f})
    ensures Foreign(a + [Entry(v.ids[f], v.weights[f])], v.ids.Values) == Foreign(a, v.ids.Values)
    ensures Sum(a + [Entry(v.ids[f], v.weights[f])]) == Sum(a) + v.weights[f]
  {
    hide Counts, Foreign, Sum, Without, FirstEntry;
    var e := Entry(v.ids[f], v.weights[f]);
    assert e.id in v.ids.Values;
    Appended(a, e, v.ids.Values);
    forall x | x in v.ids
      ensures Counts(a + [e], v.ids[x]) == if x in inside + {f} then [v.weights[x]] else []
    {
      assert v.ids[x] == e.id <==> x == f;
    }
  }

  lemma EntriesRemove(v: View, a: seq<Entry>, inside: set<Name>, f: Name)
    requires v.Valid() && inside <= v.weights.Keys && f in inside
    requires v.EntriesFor(a, inside)
    ensures FirstEntry(a, v.ids[f]) == Some(Entry(v.ids[f], v.weights[f]))
    ensures v.EntriesFor(Without(a, Entry(v.ids[f], v.weights[f])), inside - {f})
    ensures Foreign(Without(a, Entry(v.ids[f], v.weights[f])), v.ids.Values) == Foreign(a, v.ids.Values)
    ensures Sum(Without(a, Entry(v.ids[f], v.weights[f]))) == Sum(a) - v.weights[f]
  {
    hide Counts, Foreign, Sum, Without, FirstEntry;
    var e := Entry(v.ids[f], v.weights[f]);
    assert e.id in v.ids.Values;
    OneRemoved(a, e, v.ids.Values);
    WithoutKeeps(a, e);
    forall x | x in v.ids
      ensures Counts(Without(a, e), v.ids[x]) == if x in inside - {f} then [v.weights[x]] else []
    {
      assert v.ids[x] == e.id <==> x == f;
    }
  }

  /** The target's edge after `merge` moves a source's edge `r` onto it. */
  function Folded(o: Option<Mention>, r: Mention, f: Name, id: Id): Mention {
    match o
    case Some(ex) => ex.(count := Some(ex.Weight() + r.Weight()), absorbed := ex.absorbed + [Entry(id, r.Weight())])
    case None => r.(surface := Some(r.surface.GetOr(f)), via := Some(f), mergedFrom := Some(id))
  }

  lemma ViewFoldIn(v: View, o: Option<Mention>, r: Mention, inside: set<Name>, f: Name)
    requires v.Valid() && inside <= v.weights.Keys && f in v.weights && f !in inside
    requires v.Holds(o, inside)
    requires (r.absorbed == [] || v.base.Some?) && r.Weight() == v.weights[f]
    ensures v.Holds(Some(Folded(o, r, f, v.ids[f])), inside + {f})
  {
    hide Counts, Foreign, Without, FirstEntry;
    match o
    case Some(ex) =>
      assert f !in v.ViaSet(ex);
      EntriesAppend(v, ex.absorbed, inside - v.ViaSet(ex), f);
      assert inside + {f} - v.ViaSet(ex) == inside - v.ViaSet(ex) + {f};
    case None =>
      NoEntries(v, []);
      assert inside + {f} - {f} == {};
  }

  /** The target's edge after the first step of `unmerge`, when it came through the source. */
  function AfterVia(m: Mention): Option<Mention> {
    if Sum(m.absorbed) > 0 then Some(m.(count := Some(Sum(m.absorbed)), via := None, mergedFrom := None)) else None
  }

  lemma ViewSplitVia(v: View, m: Mention, inside: set<Name>, f: Name)
    requires v.Valid() && inside <= v.weights.Keys && f in v.ids && m.via == Some(f)
    requires v.Holds(Some(m), inside)
    ensures f in inside && v.Holds(AfterVia(m), inside - {f})
    ensures m.Weight() - Sum(m.absorbed) == v.weights[f]
    ensures FirstEntry(m.absorbed, v.ids[f]).None?
  {
    hide Counts, Foreign, Sum, Without, FirstEntry;
    assert v.base.None?;
    OnlyOwnEntries(v, m.absorbed, inside - {f});
    NoCounts(m.absorbed, Entry(v.ids[f], 0));
    if AfterVia(m).Some? {
      assert inside - {f} - v.ViaSet(AfterVia(m).value) == inside - {f};
    }
  }

  /** The target's edge after the second step of `unmerge` takes the entry `e` out. */
  function AfterEntry(m: Mention, e: Entry): Option<Mention>
    requires m.count.Some?
  {
    if m.Weight() - e.count <= 0 then None
    else Some(m.(count := Some(m.Weight() - e.count), absorbed := Without(m.absorbed, e)))
  }

  lemma ViewSplitEntry(v: View, m: Mention, inside: set<Name>, f: Name)
    requires v.Valid() && inside <= v.weights.Keys && f in v.ids
    requires v.Holds(Some(m), inside)
    requires FirstEntry(m.absorbed, v.ids[f]).Some?
    ensures f in inside && m.count.Some?
    ensures FirstEntry(m.absorbed, v.ids[f]) == Some(Entry(v.ids[f], v.weights[f]))
    ensures v.Holds(AfterEntry(m, Entry(v.ids[f], v.weights[f])), inside - {f})
  {
    hide Counts, Foreign, Sum, Without;
    NoCounts(m.absorbed, Entry(v.ids[f], 0));
    var others := inside - v.ViaSet(m);
    assert f in others;
    EntriesRemove(v, m.absorbed, others, f);
    EdgeWithoutEntry(v, m, inside, f);
  }

  lemma EdgeWithoutEntry(v: View, m: Mention, inside: set<Name>, f: Name)
    requires v.Valid() && inside <= v.weights.Keys && f in inside - v.ViaSet(m)
    requires v.EdgeHolds(m, inside) && m.count.Some?
    ensures v.Holds(AfterEntry(m, Entry(v.ids[f], v.weights[f])), inside - {f})
  {
    hide Counts, Foreign, Sum, Without, FirstEntry;
    var e := Entry(v.ids[f], v.weights[f]);
    var others := inside - v.ViaSet(m);
    EntriesRemove(v, m.absorbed, others, f);
    var left := Without(m.absorbed, e);
    var m' := m.(count := Some(m.Weight() - e.count), absorbed := left);
    assert inside - {f} - v.ViaSet(m') == others - {f};
    assert v.EdgeHolds(m', inside - {f});
    OwnEntries(left, v.ids.Values);
    if v.base.None? {
      OnlyOwnEntries(v, left, others - {f});
    }
  }

  // ── Folding entities into one target ──

  /** A graph, the entity that is merged into, and the entities merged directly into it. */
  datatype Fold = Fold(start: Graph, target: Name, sources: set<Name>) {
    /** Ids tell the sources apart and are fresh to the target's edges; counts are
        positive; no target edge came through a source. */
    ghost predicate Sound() {
      && target in start.entities && target !in sources
      && sources <= start.entities.Keys
      && (forall n :: ViewOf(n).Valid())
    }

    /** A source's edge that has absorbed others is on a note that mentions the target. */
    ghost predicate Valid() {
      && Sound()
      && (forall k | k in start.mentions && k.entity in sources ::
            start.mentions[k].absorbed == [] || Edge(k.note, target) in start.mentions)
    }

    function ViewOf(n: NoteId): View
      requires sources <= start.entities.Keys
    {
      View(Lookup(start.mentions, Edge(n, target)),
           map f | f in sources && Edge(n, f) in start.mentions :: start.mentions[Edge(n, f)].Weight(),
           map f | f in sources :: start.entities[f].id)
    }
  }

  datatype Step = FoldIn(name: Name) | SplitOut(name: Name)

  function ApplyStep(fold: Fold, g: Graph, step: Step): Graph {
    match step
    case FoldIn(f) => Merge(g, f, fold.target, None, "proposal")
    case SplitOut(f) => Unmerge(g, f, "", 0)
  }

  function ApplySteps(fold: Fold, g: Graph, steps: seq<Step>): Graph
    decreases |steps|
  {
    if steps == [] then g else ApplySteps(fold, ApplyStep(fold, g, steps[0]), steps[1..])
  }

  /** The sources folded in after a step, and whether the step makes sense. */
  function MergedAfter(merged: set<Name>, step: Step): set<Name> {
    match step
    case FoldIn(f) => merged + {f}
    case SplitOut(f) => merged - {f}
  }

  predicate Legal(fold: Fold, merged: set<Name>, step: Step) {
    match step
    case FoldIn(f) => f in fold.sources - merged
    case SplitOut(f) => f in merged
  }

  predicate LegalSteps(fold: Fold, merged: set<Name>, steps: seq<Step>)
    decreases |steps|
  {
    steps == [] || (Legal(fold, merged, steps[0]) && LegalSteps(fold, MergedAfter(merged, steps[0]), steps[1..]))
  }

  function MergedAfterAll(merged: set<Name>, steps: seq<Step>): set<Name>
    decreases |steps|
  {
    if steps == [] then merged else MergedAfterAll(MergedAfter(merged, steps[0]), steps[1..])
  }

  // ── What holds while some of the sources are folded in ──

  /** A source that is not folded in has the edge it started with, but for its wording. */
  predicate SourceHolds(v: View, o: Option<Mention>, merged: set<Name>, f: Name) {
    && (o.Some? <==> f !in merged && f in v.weights)
    && (o.Some? ==>
          (o.value.absorbed == [] || v.base.Some?) && f in v.weights && o.value.Weight() == v.weights[f])
  }

  ghost predicate NoteHolds(fold: Fold, ms: Mentions, merged: set<Name>, n: NoteId)
    requires fold.Valid()
  {
    var v := fold.ViewOf(n);
    && (forall x | x != fold.target && x !in fold.sources ::
          Lookup(ms, Edge(n, x)) == Lookup(fold.start.mentions, Edge(n, x)))
    && (forall f | f in fold.sources :: SourceHolds(v, Lookup(ms, Edge(n, f)), merged, f))
    && v.Holds(Lookup(ms, Edge(n, fold.target)), merged * v.weights.Keys)
  }

  ghost predicate Holds(fold: Fold, g: Graph, merged: set<Name>)
    requires fold.Valid()
  {
    && merged <= fold.sources
    && g.entities.Keys == fold.start.entities.Keys - merged
    && (forall x | x in g.entities && x !in fold.sources :: g.entities[x] == fold.start.entities[x])
    && (forall f | f in fold.sources - merged :: g.entities[f].id == fold.start.entities[f].id)
    && (forall f | f in merged :: f in g.aliases && g.aliases[f].target == fold.target
                                  && g.aliases[f].mergedFrom == Some(fold.start.entities[f].id))
    && (forall n :: NoteHolds(fold, g.mentions, merged, n))
  }

  lemma NoteStart(fold: Fold, n: NoteId)
    requires fold.Valid()
    ensures NoteHolds(fold, fold.start.mentions, {}, n)
  {
    hide Counts, Foreign, Sum, Without, FirstEntry, View.Holds;
    var v := fold.ViewOf(n);
    ViewStart(v);
    assert {} * v.weights.Keys == {};
    forall f | f in fold.sources ensures SourceHolds(v, Lookup(fold.start.mentions, Edge(n, f)), {}, f) {
    }
  }

  lemma StartHolds(fold: Fold)
    requires fold.Valid()
    ensures Holds(fold, fold.start, {})
  {
    hide NoteHolds;
    forall n ensures NoteHolds(fold, fold.start.mentions, {}, n) {
      NoteStart(fold, n);
    }
  }

  lemma MoveEdges(st: Statement, ms: Mentions, n: NoteId)
    requires st.MoveTo? && st.from != st.into && st.upper.None?
    ensures var ms', t, src := st.RowOrSame(ms, n), Edge(n, st.into), Edge(n, st.from);
            && Lookup(ms', src) == None
            && Lookup(ms', t) == (if src in ms then Some(Folded(Lookup(ms, t), ms[src], st.from, st.fromId))
              else Lookup(ms, t))
  {
  }

  lemma NoteFoldIn(fold: Fold, ms: Mentions, ms': Mentions, merged: set<Name>, n: NoteId, f: Name)
    requires fold.Valid() && merged <= fold.sources && f in fold.sources - merged
    requires NoteHolds(fold, ms, merged, n)
    requires forall x | x != fold.target && x != f :: Lookup(ms', Edge(n, x)) == Lookup(ms, Edge(n, x))
    requires Lookup(ms', Edge(n, f)) == None
    requires Lookup(ms', Edge(n, fold.target)) ==
               if Edge(n, f) in ms
               then Some(Folded(Lookup(ms, Edge(n, fold.target)), ms[Edge(n, f)], f, fold.start.entities[f].id))
               else Lookup(ms, Edge(n, fold.target))
    ensures NoteHolds(fold, ms', merged + {f}, n)
  {
    hide Counts, Foreign, Sum, Without, FirstEntry;
    var v := fold.ViewOf(n);
    forall x | x in fold.sources ensures SourceHolds(v, Lookup(ms', Edge(n, x)), merged + {f}, x) {
      assert SourceHolds(v, Lookup(ms, Edge(n, x)), merged, x);
    }
    assert SourceHolds(v, Lookup(ms, Edge(n, f)), merged, f);
    ViewFold(v, Lookup(ms, Edge(n, fold.target)), Lookup(ms, Edge(n, f)), merged, f);
  }

  /** A merge of a source that the note may or may not mention. */
  lemma ViewFold(v: View, o: Option<Mention>, r: Option<Mention>, merged: set<Name>, f: Name)
    requires v.Valid() && f in v.ids && f !in merged
    requires v.Holds(o, merged * v.weights.Keys)
    requires SourceHolds(v, r, merged, f)
    ensures v.Holds(if r.Some? then Some(Folded(o, r.value, f, v.ids[f])) else o, (merged + {f}) * v.weights.Keys)
  {
    hide Counts, Foreign, Sum, Without, FirstEntry;
    var inside := merged * v.weights.Keys;
    if r.Some? {
      ViewFoldIn(v, o, r.value, inside, f);
      assert (merged + {f}) * v.weights.Keys == inside + {f};
    } else {
      assert (merged + {f}) * v.weights.Keys == inside;
    }
  }

  lemma FoldInNotes(fold: Fold, ms: Mentions, merged: set<Name>, f: Name)
    requires fold.Valid() && merged <= fold.sources && f in fold.sources - merged
    requires forall n :: NoteHolds(fold, ms, merged, n)
    ensures var moved := MoveTo(f, fold.start.entities[f].id, fold.target, None).Effect(ms);
            forall n :: NoteHolds(fold, moved, merged + {f}, n)
  {
    hide Counts, Foreign, Sum, Without, FirstEntry, View.Valid, View.Holds, Statement.Effect, SourceHolds;
    var st := MoveTo(f, fold.start.entities[f].id, fold.target, None);
    var ms1 := st.Effect(ms);
    forall n ensures NoteHolds(fold, ms1, merged + {f}, n) {
      forall x | x != fold.target && x != f ensures Lookup(ms1, Edge(n, x)) == Lookup(ms, Edge(n, x)) {
        EffectAt(st, ms, Edge(n, x));
        RowFrame(st, ms, n, Edge(n, x));
      }
      EffectAt(st, ms, Edge(n, f));
      EffectAt(st, ms, Edge(n, fold.target));
      MoveEdges(st, ms, n);
      NoteFoldIn(fold, ms, ms1, merged, n, f);
    }
  }

  lemma FoldInHolds(fold: Fold, g: Graph, merged: set<Name>, f: Name)
    requires fold.Valid() && Holds(fold, g, merged)
    requires f in fold.sources - merged
    ensures Holds(fold, ApplyStep(fold, g, FoldIn(f)), merged + {f})
  {
    hide View.Valid, NoteHolds, Statement.Effect, NotesOf, MovedHidden;
    var g' := Merge(g, f, fold.target, None, "proposal");
    FullMerge(g, f, fold.target, "proposal");
    FoldInNotes(fold, g.mentions, merged, f);
  }

  /** A full merge leaves no edge to drop with the node. */
  lemma FullMerge(g: Graph, from: Name, into: Name, origin: string)
    requires from != into && from in g.entities && into in g.entities
    ensures Merge(g, from, into, None, origin).mentions == MoveStatement(g, from, into, None).Effect(g.mentions)
  {
    var ms1 := MoveStatement(g, from, into, None).Effect(g.mentions);
    FullMoveLeavesNothing(g, from, into);
    assert forall k | k in ms1 :: k.entity == from ==> k.note in NotesOf(ms1, from);
  }

  /** The target's edge after both steps of `unmerge`. */
  function AfterSplit(o: Option<Mention>, f: Name, id: Id): Option<Mention> {
    if o.None? then None
    else if o.value.via == Some(f) then AfterVia(o.value)
    else
      var e := FirstEntry(o.value.absorbed, id);
      if e.Some? && o.value.count.Some? then AfterEntry(o.value, e.value) else o
  }

  /** What `unmerge` gives the restored entity of a note, when it had no edge. */
  function GivenBack(o: Option<Mention>, f: Name, id: Id): Option<int> {
    if o.None? then None
    else if o.value.via == Some(f) then Some(o.value.Weight() - Sum(o.value.absorbed))
    else
      var e := FirstEntry(o.value.absorbed, id);
      if e.Some? then Some(e.value.count) else None
  }

  lemma SplitEdges(ms: Mentions, ms1: Mentions, ms2: Mentions, n: NoteId, f: Name, t: Name, id: Id)
    requires f != t && Edge(n, f) !in ms
    requires Edge(n, t) in ms ==>
               var m := ms[Edge(n, t)];
               && (m.via == Some(f) ==> FirstEntry(m.absorbed, id).None?)
               && (FirstEntry(m.absorbed, id).Some? ==> m.count.Some?)
    requires forall x | x == f || x == t ::
               Lookup(ms1, Edge(n, x)) == Lookup(SplitVia(f, t).RowOrSame(ms, n), Edge(n, x))
    requires forall x | x == f || x == t ::
               Lookup(ms2, Edge(n, x)) == Lookup(SplitAbsorbed(f, t, id).RowOrSame(ms1, n), Edge(n, x))
    ensures Lookup(ms2, Edge(n, t)) == AfterSplit(Lookup(ms, Edge(n, t)), f, id)
    ensures var back := GivenBack(Lookup(ms, Edge(n, t)), f, id);
            match Lookup(ms2, Edge(n, f))
            case Some(m) => back.Some? && m.absorbed == [] && m.Weight() == back.value
            case None => back.None?
  {
    assert Lookup(ms1, Edge(n, t)) == Lookup(SplitVia(f, t).RowOrSame(ms, n), Edge(n, t));
    assert Lookup(ms1, Edge(n, f)) == Lookup(SplitVia(f, t).RowOrSame(ms, n), Edge(n, f));
    assert Lookup(ms2, Edge(n, t)) == Lookup(SplitAbsorbed(f, t, id).RowOrSame(ms1, n), Edge(n, t));
    assert Lookup(ms2, Edge(n, f)) == Lookup(SplitAbsorbed(f, t, id).RowOrSame(ms1, n), Edge(n, f));
  }

  /** The two steps of `unmerge` give a folded source its weight back, and leave the
      target's edge with the others. */
  lemma ViewSplit(v: View, o: Option<Mention>, inside: set<Name>, f: Name)
    requires v.Valid() && inside <= v.weights.Keys && f in v.ids
    requires v.Holds(o, inside)
    ensures v.Holds(AfterSplit(o, f, v.ids[f]), inside - {f})
    ensures GivenBack(o, f, v.ids[f]) == if f in inside then Some(v.weights[f]) else None
    ensures o.Some? && o.value.via == Some(f) ==> FirstEntry(o.value.absorbed, v.ids[f]).None?
    ensures o.Some? && FirstEntry(o.value.absorbed, v.ids[f]).Some? ==> o.value.count.Some?
  {
    hide Counts, Foreign, Sum, Without, FirstEntry;
    if o.None? {
      assert inside - {f} == {};
    } else if o.value.via == Some(f) {
      ViewSplitVia(v, o.value, inside, f);
    } else if FirstEntry(o.value.absorbed, v.ids[f]).Some? {
      ViewSplitEntry(v, o.value, inside, f);
    } else {
      NotInside(v, o.value, inside, f);
      assert inside - {f} == inside;
    }
  }

  lemma NotInside(v: View, m: Mention, inside: set<Name>, f: Name)
    requires v.Valid() && inside <= v.weights.Keys && f in v.ids
    requires v.EdgeHolds(m, inside)
    requires m.via != Some(f) && FirstEntry(m.absorbed, v.ids[f]).None?
    ensures f !in inside
  {
    hide Counts, Foreign, Sum, Without, FirstEntry;
    NoCounts(m.absorbed, Entry(v.ids[f], 0));
    assert f in inside - v.ViaSet(m) <==> f in inside;
  }

  lemma NoteSplitOut(fold: Fold, ms: Mentions, ms2: Mentions, merged: set<Name>, n: NoteId, f: Name)
    requires fold.Valid() && merged <= fold.sources && f in merged
    requires NoteHolds(fold, ms, merged, n)
    requires forall x | x != fold.target && x != f :: Lookup(ms2, Edge(n, x)) == Lookup(ms, Edge(n, x))
    requires var id := fold.start.entities[f].id;
             Lookup(ms2, Edge(n, fold.target)) == AfterSplit(Lookup(ms, Edge(n, fold.target)), f, id)
    requires var back := GivenBack(Lookup(ms, Edge(n, fold.target)), f, fold.start.entities[f].id);
             match Lookup(ms2, Edge(n, f))
             case Some(m) => back.Some? && m.absorbed == [] && m.Weight() == back.value
             case None => back.None?
    ensures NoteHolds(fold, ms2, merged - {f}, n)
  {
    var v := fold.ViewOf(n);
    assert v.Valid() && v.ids.Keys == fold.sources && v.ids[f] == fold.start.entities[f].id;
    hide Fold.Valid, Fold.ViewOf, View.Valid, View.Holds, GivenBack, AfterSplit, SourceHolds, Lookup;
    ViewSplitOut(v, Lookup(ms, Edge(n, fold.target)), Lookup(ms2, Edge(n, f)), merged, f);
    forall x | x in fold.sources ensures SourceHolds(v, Lookup(ms2, Edge(n, x)), merged - {f}, x) {
      if x != f {
        SourceStays(v, Lookup(ms, Edge(n, x)), merged, f, x);
      }
    }
  }

  lemma ViewSplitOut(v: View, o: Option<Mention>, back: Option<Mention>, merged: set<Name>, f: Name)
    requires v.Valid() && f in merged && f in v.ids && v.Holds(o, merged * v.weights.Keys)
    requires match back
             case Some(m) => m.absorbed == [] && GivenBack(o, f, v.ids[f]) == Some(m.Weight())
             case None => GivenBack(o, f, v.ids[f]).None?
    ensures v.Holds(AfterSplit(o, f, v.ids[f]), (merged - {f}) * v.weights.Keys)
    ensures SourceHolds(v, back, merged - {f}, f)
  {
    hide View.Valid, View.Holds, GivenBack, AfterSplit;
    var inside := merged * v.weights.Keys;
    ViewSplit(v, o, inside, f);
    assert (merged - {f}) * v.weights.Keys == inside - {f};
    SourceIsBack(v, back, merged, f);
  }

  lemma SourceStays(v: View, o: Option<Mention>, merged: set<Name>, f: Name, x: Name)
    requires x != f && SourceHolds(v, o, merged, x)
    ensures SourceHolds(v, o, merged - {f}, x)
  {
  }

  lemma SourceIsBack(v: View, o: Option<Mention>, merged: set<Name>, f: Name)
    requires o.Some? <==> f in v.weights
    requires o.Some? ==> o.value.absorbed == [] && o.value.Weight() == v.weights[f]
    ensures SourceHolds(v, o, merged - {f}, f)
  {
  }

  lemma SplitOutNotes(fold: Fold, ms: Mentions, merged: set<Name>, f: Name)
    requires fold.Valid() && merged <= fold.sources && f in merged
    requires forall n :: NoteHolds(fold, ms, merged, n)
    ensures var ms1 := SplitVia(f, fold.target).Effect(ms);
            var ms2 := SplitAbsorbed(f, fold.target, fold.start.entities[f].id).Effect(ms1);
            forall n :: NoteHolds(fold, ms2, merged - {f}, n)
  {
    hide Counts, Foreign, Sum, Without, FirstEntry, View.Valid, View.Holds, Statement.Effect;
    var id := fold.start.entities[f].id;
    var via, absorbed := SplitVia(f, fold.target), SplitAbsorbed(f, fold.target, id);
    var ms1 := via.Effect(ms);
    var ms2 := absorbed.Effect(ms1);
    forall n ensures NoteHolds(fold, ms2, merged - {f}, n) {
      var v := fold.ViewOf(n);
      assert NoteHolds(fold, ms, merged, n);
      assert SourceHolds(v, Lookup(ms, Edge(n, f)), merged, f);
      forall x
        ensures Lookup(ms1, Edge(n, x)) == Lookup(via.RowOrSame(ms, n), Edge(n, x))
        ensures Lookup(ms2, Edge(n, x)) == Lookup(absorbed.RowOrSame(ms1, n), Edge(n, x))
      {
        EffectAt(via, ms, Edge(n, x));
        EffectAt(absorbed, ms1, Edge(n, x));
      }
      forall x | x != fold.target && x != f ensures Lookup(ms2, Edge(n, x)) == Lookup(ms, Edge(n, x)) {
        RowFrame(via, ms, n, Edge(n, x));
        RowFrame(absorbed, ms1, n, Edge(n, x));
      }
      ViewSplit(v, Lookup(ms, Edge(n, fold.target)), merged * v.weights.Keys, f);
      SplitEdges(ms, ms1, ms2, n, f, fold.target, id);
      NoteSplitOut(fold, ms, ms2, merged, n, f);
    }
  }

  lemma SplitOutHolds(fold: Fold, g: Graph, merged: set<Name>, f: Name)
    requires fold.Valid() && Holds(fold, g, merged)
    requires f in merged
    ensures Holds(fold, ApplyStep(fold, g, SplitOut(f)), merged - {f})
  {
    hide Counts, Foreign, Sum, Without, FirstEntry, NoteHolds, Statement.Effect;
    SplitOutNotes(fold, g.mentions, merged, f);
  }

  /** Merges into the target and undos may be interleaved in any way. */
  lemma {:induction false} StepsHold(fold: Fold, g: Graph, merged: set<Name>, steps: seq<Step>)
    requires fold.Valid() && Holds(fold, g, merged)
    requires LegalSteps(fold, merged, steps)
    ensures Holds(fold, ApplySteps(fold, g, steps), MergedAfterAll(merged, steps))
    decreases |steps|
  {
    if steps != [] {
      match steps[0] {
        case FoldIn(f) => FoldInHolds(fold, g, merged, f);
        case SplitOut(f) => SplitOutHolds(fold, g, merged, f);
      }
      StepsHold(fold, ApplyStep(fold, g, steps[0]), MergedAfter(merged, steps[0]), steps[1..]);
    }
  }

  /** Once every merge has been undone, in whatever order and however merges and undos were
      mixed, each note mentions the target and every source exactly as often as before,
      the other entities' edges are untouched, and each source has its old id back. */
  lemma MergesUndone(fold: Fold, steps: seq<Step>)
    requires fold.Valid()
    requires LegalSteps(fold, {}, steps) && MergedAfterAll({}, steps) == {}
    ensures var g := ApplySteps(fold, fold.start, steps);
            && g.entities.Keys == fold.start.entities.Keys
            && (forall x | x in g.entities :: g.entities[x].id == fold.start.entities[x].id)
            && (forall n :: NoteSame(fold, g.mentions, n))
  {
    StartHolds(fold);
    StepsHold(fold, fold.start, {}, steps);
    forall n ensures NoteSame(fold, ApplySteps(fold, fold.start, steps).mentions, n) {
      AllOut(fold, ApplySteps(fold, fold.start, steps).mentions, n);
    }
  }

  /** A note's edges are back: the target's and the sources' in weight, the rest exactly. */
  ghost predicate NoteSame(fold: Fold, ms: Mentions, n: NoteId) {
    && (forall x :: WeightAt(ms, n, x) == WeightAt(fold.start.mentions, n, x))
    && (forall x :: Edge(n, x) in ms <==> Edge(n, x) in fold.start.mentions)
    && (forall x | x != fold.target && x !in fold.sources ::
          Lookup(ms, Edge(n, x)) == Lookup(fold.start.mentions, Edge(n, x)))
  }

  lemma AllOut(fold: Fold, ms: Mentions, n: NoteId)
    requires fold.Valid() && NoteHolds(fold, ms, {}, n)
    ensures NoteSame(fold, ms, n)
  {
    var v := fold.ViewOf(n);
    assert v.Valid();
    hide Fold.Valid, View.Valid, View.Holds, SourceHolds;
    forall x
      ensures WeightAt(ms, n, x) == WeightAt(fold.start.mentions, n, x)
      ensures Edge(n, x) in ms <==> Edge(n, x) in fold.start.mentions
    {
      if x == fold.target {
        NothingInside(v, Lookup(ms, Edge(n, x)));
      } else if x in fold.sources {
        SourceIsOut(v, Lookup(ms, Edge(n, x)), x);
      } else {
        assert Lookup(ms, Edge(n, x)) == Lookup(fold.start.mentions, Edge(n, x));
      }
    }
  }

  lemma SourceIsOut(v: View, o: Option<Mention>, x: Name)
    requires SourceHolds(v, o, {}, x)
    ensures o.Some? <==> x in v.weights
    ensures o.Some? ==> o.value.Weight() == v.weights[x]
  {
  }

  lemma NothingInside(v: View, o: Option<Mention>)
    requires v.Valid() && v.Holds(o, {} * v.weights.Keys)
    ensures o.Some? <==> v.base.Some?
    ensures o.Some? ==> o.value.Weight() == v.base.value.Weight()
  {
    hide Counts, Foreign, Sum, Without, FirstEntry;
    assert {} * v.weights.Keys == {};
    if o.Some? {
      var a := o.value.absorbed;
      assert {} - v.ViaSet(o.value) == {};
      forall e | e in a ensures e.id !in v.ids.Values {
        EntryCounted(a, e);
        assert forall f | f in v.ids :: Counts(a, v.ids[f]) == [];
      }
      AllForeign(a, v.ids.Values);
    }
  }

  /** All folded in one after another, then split out in any order. */
  function FoldAll(names: seq<Name>): seq<Step> {
    seq(|names|, i requires 0 <= i < |names| => FoldIn(names[i]))
  }

  function SplitAll(names: seq<Name>): seq<Step> {
    seq(|names|, i requires 0 <= i < |names| => SplitOut(names[i]))
  }

  predicate NoRepeats(names: seq<Name>) {
    forall i, j | 0 <= i < j < |names| :: names[i] != names[j]
  }

  lemma {:induction false} SplitAllLegal(fold: Fold, merged: set<Name>, names: seq<Name>)
    requires NoRepeats(names)
    requires forall f :: f in names <==> f in merged
    ensures LegalSteps(fold, merged, SplitAll(names)) && MergedAfterAll(merged, SplitAll(names)) == {}
    decreases |names|
  {
    if names != [] {
      assert SplitAll(names)[1..] == SplitAll(names[1..]);
      forall f ensures f in names[1..] <==> f in merged - {names[0]} {
        if f in merged - {names[0]} { assert f in names; }
      }
      SplitAllLegal(fold, merged - {names[0]}, names[1..]);
    }
  }

  lemma {:induction false} FoldAllLegal(fold: Fold, merged: set<Name>, names: seq<Name>, undo: seq<Step>)
    requires NoRepeats(names)
    requires forall f | f in names :: f in fold.sources - merged
    requires LegalSteps(fold, merged + (set f | f in names), undo)
    requires MergedAfterAll(merged + (set f | f in names), undo) == {}
    ensures LegalSteps(fold, merged, FoldAll(names) + undo) && MergedAfterAll(merged, FoldAll(names) + undo) == {}
    decreases |names|
  {
    if names == [] {
      assert FoldAll(names) + undo == undo;
      assert merged + (set f | f in names) == merged;
    } else {
      assert (FoldAll(names) + undo)[1..] == FoldAll(names[1..]) + undo;
      assert merged + (set f | f in names) == merged + {names[0]} + (set f | f in names[1..]);
      forall f | f in names[1..] ensures f in fold.sources - (merged + {names[0]}) {
        assert f in names;
      }
      FoldAllLegal(fold, merged + {names[0]}, names[1..], undo);
    }
  }

  /** The undo order does not matter: any order of merging followed by any order of
      unmerging restores every count. */
  lemma AnyOrderUndoes(fold: Fold, folds: seq<Name>, splits: seq<Name>)
    requires fold.Valid()
    requires NoRepeats(folds) && NoRepeats(splits)
    requires forall f :: f in folds <==> f in fold.sources
    requires forall f :: f in splits <==> f in fold.sources
    ensures var g := ApplySteps(fold, fold.start, FoldAll(folds) + SplitAll(splits));
            forall n :: NoteSame(fold, g.mentions, n)
  {
    assert {} + (set f | f in folds) == fold.sources;
    SplitAllLegal(fold, fold.sources, splits);
    FoldAllLegal(fold, {}, folds, SplitAll(splits));
    MergesUndone(fold, FoldAll(folds) + SplitAll(splits));
  }

  // ── Entities that have absorbed others ──

  /** A note's edge to the restored name after `unmerge`: `o` is its edge to the target,
      `own` the one it may have to the name. */
  function Regained(o: Option<Mention>, own: Option<Mention>, f: Name, fid: Option<Id>): int {
    var back :=
      if o.Some? && o.value.via == Some(f) then Some(BaseOf(own) + o.value.Weight() - Sum(o.value.absorbed))
      else None;
    var left := if back.Some? then AfterVia(o.value) else o;
    var entry := if left.Some? && fid.Some? then FirstEntry(left.value.absorbed, fid.value) else None;
    if entry.Some? then (if back.Some? then back.value else BaseOf(own)) + entry.value.count
    else if back.Some? then back.value
    else WeightOf(own)
  }

  function WeightOf(o: Option<Mention>): int {
    if o.Some? then o.value.Weight() else 0
  }

  /** What an undo adds to: a missing count is taken as 0. */
  function BaseOf(o: Option<Mention>): int {
    if o.Some? then o.value.count.GetOr(0) else 0
  }

  lemma UnmergedIs(g: Graph, f: Name, freshId: Id, now: int, n: NoteId)
    requires CanUnmerge(g, f) && g.aliases[f].target != f
    ensures var a := g.aliases[f];
            WeightAt(Unmerge(g, f, freshId, now).mentions, n, f)
            == Regained(Lookup(g.mentions, Edge(n, a.target)), Lookup(g.mentions, Edge(n, f)), f, a.mergedFrom)
  {
    hide Statement.Effect, Statement.RowOrSame, FirstEntry, Sum;
    var ms, a := g.mentions, g.aliases[f];
    var via := SplitVia(f, a.target);
    var ms1 := via.Effect(ms);
    EffectAt(via, ms, Edge(n, a.target));
    EffectAt(via, ms, Edge(n, f));
    ViaStep(ms, n, f, a.target);
    if a.mergedFrom.Some? {
      EffectAt(SplitAbsorbed(f, a.target, a.mergedFrom.value), ms1, Edge(n, f));
      EntryStep(ms1, n, f, a.target, a.mergedFrom.value);
    }
  }

  lemma ViaStep(ms: Mentions, n: NoteId, f: Name, t: Name)
    requires f != t
    ensures var ms1, o, own := SplitVia(f, t).RowOrSame(ms, n), Lookup(ms, Edge(n, t)), Lookup(ms, Edge(n, f));
            if o.Some? && o.value.via == Some(f)
            then Lookup(ms1, Edge(n, t)) == AfterVia(o.value)
                 && Lookup(ms1, Edge(n, f)).Some?
                 && Lookup(ms1, Edge(n, f)).value.count == Some(BaseOf(own) + o.value.Weight() - Sum(o.value.absorbed))
            else Lookup(ms1, Edge(n, t)) == o && Lookup(ms1, Edge(n, f)) == own
  {
    hide Sum;
  }

  lemma EntryStep(ms: Mentions, n: NoteId, f: Name, t: Name, fid: Id)
    requires f != t
    ensures var ms1 := SplitAbsorbed(f, t, fid).RowOrSame(ms, n);
            var o, own := Lookup(ms, Edge(n, t)), Lookup(ms, Edge(n, f));
            WeightOf(Lookup(ms1, Edge(n, f)))
            == if o.Some? && FirstEntry(o.value.absorbed, fid).Some?
               then BaseOf(own) + FirstEntry(o.value.absorbed, fid).value.count
               else WeightOf(own)
  {
    hide FirstEntry, Without;
  }

  lemma {:induction false} FirstEntryAppend(a: seq<Entry>, e: Entry, id: Id)
    ensures FirstEntry(a + [e], id)
            == if FirstEntry(a, id).Some? then FirstEntry(a, id) else if e.id == id then Some(e) else None
  {
    if a != [] {
      assert (a + [e])[1..] == a[1..] + [e];
      FirstEntryAppend(a[1..], e, id);
    }
  }

  /** The edges of one note after a full merge. */
  lemma MergedEdges(g: Graph, f: Name, t: Name, origin: string, n: NoteId, x: Name)
    requires f in g.entities && t in g.entities && f != t
    ensures var ms, ms' := g.mentions, Merge(g, f, t, None, origin).mentions;
            Lookup(ms', Edge(n, x)) ==
              if x == f then None
              else if x == t && Edge(n, f) in ms
              then Some(Folded(Lookup(ms, Edge(n, t)), ms[Edge(n, f)], f, g.entities[f].id))
              else Lookup(ms, Edge(n, x))
  {
    var st := MoveStatement(g, f, t, None);
    FullMerge(g, f, t, origin);
    EffectAt(st, g.mentions, Edge(n, x));
    MoveEdges(st, g.mentions, n);
    if x != f && x != t {
      RowFrame(st, g.mentions, n, Edge(n, x));
    }
  }

  /** No entry of `id`, and not through `f`: what a merge of `f` will leave is told apart. */
  predicate Fresh(o: Option<Mention>, f: Name, id: Id) {
    o.Some? ==> o.value.via != Some(f) && FirstEntry(o.value.absorbed, id).None?
  }

  /** One merge and its undo: a note that mentions the target gets its whole count back; one
      that does not gets only what the entity had not absorbed itself. */
  lemma UndoneWeight(g: Graph, f: Name, t: Name, origin: string, freshId: Id, now: int, n: NoteId)
    requires f in g.entities && t in g.entities && f != t && Edge(n, f) in g.mentions
    requires Fresh(Lookup(g.mentions, Edge(n, t)), f, g.entities[f].id)
    requires FirstEntry(g.mentions[Edge(n, f)].absorbed, g.entities[f].id).None?
    ensures var r, g' := g.mentions[Edge(n, f)], Unmerge(Merge(g, f, t, None, origin), f, freshId, now);
            WeightAt(g'.mentions, n, f) == r.Weight() - if Edge(n, t) in g.mentions then 0 else Sum(r.absorbed)
  {
    var g1, r := Merge(g, f, t, None, origin), g.mentions[Edge(n, f)];
    FullMergeAliases(g, f, t, origin);
    MergedEdges(g, f, t, origin, n, t);
    MergedEdges(g, f, t, origin, n, f);
    UnmergedIs(g1, f, freshId, now, n);
    hide Merge, Unmerge;
    if Edge(n, t) in g.mentions {
      FirstEntryAppend(g.mentions[Edge(n, t)].absorbed, Entry(g.entities[f].id, r.Weight()), g.entities[f].id);
    }
  }

  lemma FullMergeAliases(g: Graph, f: Name, t: Name, origin: string)
    requires f in g.entities && t in g.entities && f != t
    ensures var g' := Merge(g, f, t, None, origin);
            && g'.entities == g.entities - {f}
            && f in g'.aliases && g'.aliases[f].target == t && g'.aliases[f].mergedFrom == Some(g.entities[f].id)
            && (forall x | x in g.aliases && x != f && g.aliases[x].target == f ::
                  x in g'.aliases && g'.aliases[x] == g.aliases[x].(target := t))
  {
    hide Statement.Effect, NotesOf;
  }

  lemma {:induction false} PositiveSum(a: seq<Entry>)
    requires a != [] && forall e | e in a :: e.count >= 1
    ensures Sum(a) >= 1
  {
    if |a| > 1 {
      PositiveSum(a[1..]);
    }
  }

  /** Merges into a target are undone in every order exactly when no source has absorbed
      others on a note that does not mention the target. */
  lemma AllOrdersUndoIff(fold: Fold)
    requires fold.Sound()
    requires forall k, e | k in fold.start.mentions && k.entity in fold.sources
             && e in fold.start.mentions[k].absorbed ::
               e.count >= 1 && e.id != fold.start.entities[k.entity].id
    ensures (forall steps | LegalSteps(fold, {}, steps) && MergedAfterAll({}, steps) == {} ::
               forall n :: NoteSame(fold, ApplySteps(fold, fold.start, steps).mentions, n))
            <==> fold.Valid()
  {
    if fold.Valid() {
      forall steps | LegalSteps(fold, {}, steps) && MergedAfterAll({}, steps) == {}
        ensures forall n :: NoteSame(fold, ApplySteps(fold, fold.start, steps).mentions, n)
      {
        MergesUndone(fold, steps);
      }
    } else {
      var k :| k in fold.start.mentions && k.entity in fold.sources
               && fold.start.mentions[k].absorbed != [] && Edge(k.note, fold.target) !in fold.start.mentions;
      OneOrderFails(fold, k);
    }
  }

  lemma OneOrderFails(fold: Fold, k: Edge)
    requires fold.Sound() && k in fold.start.mentions && k.entity in fold.sources
    requires fold.start.mentions[k].absorbed != [] && Edge(k.note, fold.target) !in fold.start.mentions
    requires forall e | e in fold.start.mentions[k].absorbed :: e.count >= 1 && e.id != fold.start.entities[k.entity].id
    ensures var steps := [FoldIn(k.entity), SplitOut(k.entity)];
            && LegalSteps(fold, {}, steps) && MergedAfterAll({}, steps) == {}
            && !NoteSame(fold, ApplySteps(fold, fold.start, steps).mentions, k.note)
  {
    var f, g := k.entity, fold.start;
    OneStepEach(fold, f);
    var g' := Unmerge(Merge(g, f, fold.target, None, "proposal"), f, "", 0);
    var a := g.mentions[k].absorbed;
    assert k == Edge(k.note, f);
    hide Merge, Unmerge, View.Valid, Fold.ViewOf, ApplySteps, LegalSteps, MergedAfterAll, NoteSame;
    PositiveSum(a);
    if FirstEntry(a, g.entities[f].id).Some? {
      FirstEntryIsThere(a, g.entities[f].id);
    }
    UndoneWeight(g, f, fold.target, "proposal", "", 0, k.note);
    NoteSameWeight(fold, g'.mentions, k.note, f);
  }

  lemma OneStepEach(fold: Fold, f: Name)
    requires f in fold.sources
    ensures var steps := [FoldIn(f), SplitOut(f)];
            && LegalSteps(fold, {}, steps) && MergedAfterAll({}, steps) == {}
            && ApplySteps(fold, fold.start, steps)
               == Unmerge(Merge(fold.start, f, fold.target, None, "proposal"), f, "", 0)
  {
    hide Merge, Unmerge;
    var steps := [FoldIn(f), SplitOut(f)];
    var last, none: seq<Step> := [SplitOut(f)], [];
    var all: set<Name> := {};
    var g1 := Merge(fold.start, f, fold.target, None, "proposal");
    assert steps[1..] == last && last[1..] == none && all + {f} == {f} && {f} - {f} == all;
    assert LegalSteps(fold, all, none) && MergedAfterAll(all, none) == all;
    assert LegalSteps(fold, {f}, last) && MergedAfterAll({f}, last) == all;
    assert ApplySteps(fold, g1, last) == ApplySteps(fold, Unmerge(g1, f, "", 0), none);
  }

  lemma NoteSameWeight(fold: Fold, ms: Mentions, n: NoteId, x: Name)
    ensures NoteSame(fold, ms, n) ==> WeightAt(ms, n, x) == WeightAt(fold.start.mentions, n, x)
  {
  }

  /** A chain: `x` goes into `f`, then `f` into `t`. On one note, undoing `x` gives its count
      back exactly when the note mentioned `f` and not `t`, and nothing otherwise: folding
      `f`'s edge into another drops what it had absorbed, and re-creating it overwrites
      the name it came through. */
  lemma ChainUndone(g: Graph, x: Name, f: Name, t: Name, freshId: Id, now: int, n: NoteId)
    requires x in g.entities && f in g.entities && t in g.entities && x != f && x != t && f != t
    requires g.entities[x].id != g.entities[f].id
    requires Fresh(Lookup(g.mentions, Edge(n, f)), x, g.entities[x].id)
    requires Fresh(Lookup(g.mentions, Edge(n, t)), x, g.entities[x].id)
    requires Fresh(Lookup(g.mentions, Edge(n, x)), x, g.entities[x].id)
    ensures var g' := Unmerge(Merge(Merge(g, x, f, None, "proposal"), f, t, None, "proposal"), x, freshId, now);
            WeightAt(g'.mentions, n, x)
            == if Edge(n, f) in g.mentions && Edge(n, t) !in g.mentions then WeightAt(g.mentions, n, x) else 0
  {
    var ms, id := g.mentions, g.entities[x].id;
    var ox, of, ot := Lookup(ms, Edge(n, x)), Lookup(ms, Edge(n, f)), Lookup(ms, Edge(n, t));
    var g1 := Merge(g, x, f, None, "proposal");
    var g2 := Merge(g1, f, t, None, "proposal");
    FullMergeAliases(g, x, f, "proposal");
    FullMergeAliases(g1, f, t, "proposal");
    MergedEdges(g, x, f, "proposal", n, x);
    MergedEdges(g, x, f, "proposal", n, f);
    MergedEdges(g, x, f, "proposal", n, t);
    MergedEdges(g1, f, t, "proposal", n, x);
    MergedEdges(g1, f, t, "proposal", n, t);
    UnmergedIs(g2, x, freshId, now, n);
    hide Merge, Unmerge, Folded, Regained, Fresh;
    ChainedEdge(ox, of, ot, x, id, f, g.entities[f].id);
  }

  function FoldedIn(o: Option<Mention>, r: Option<Mention>, f: Name, id: Id): Option<Mention> {
    if r.Some? then Some(Folded(o, r.value, f, id)) else o
  }

  lemma ChainedEdge(ox: Option<Mention>, of: Option<Mention>, ot: Option<Mention>, x: Name, id: Id, f: Name, fid: Id)
    requires x != f && id != fid && Fresh(ox, x, id) && Fresh(of, x, id) && Fresh(ot, x, id)
    ensures Regained(FoldedIn(ot, FoldedIn(of, ox, x, id), f, fid), None, x, Some(id))
            == if of.Some? && ot.None? then WeightOf(ox) else 0
  {
    hide Sum;
    if ox.Some? && of.Some? {
      FirstEntryAppend(of.value.absorbed, Entry(id, ox.value.Weight()), id);
    }
    var mid := FoldedIn(of, ox, x, id);
    if ot.Some? && mid.Some? {
      FirstEntryAppend(ot.value.absorbed, Entry(fid, mid.value.Weight()), id);
    }
  }

  function ChainExample(): Graph {
    var once := Mention(Some(1), None, None, None, None, []);
    Graph(
      map["us" := Entity("1", None, None, false, false), "usa" := Entity("2", None, None, false, false),
          "united states" := Entity("3", None, None, false, false)],
      map[],
      map[Edge("n", "us") := once, Edge("n", "usa") := once, Edge("n", "united states") := once],
      map[])
  }

  /** A note that mentions all three loses its mention of the first for good. */
  lemma ChainCanLoseAMention()
    ensures var g := ChainExample();
            var chained := Merge(Merge(g, "us", "usa", None, "proposal"), "usa", "united states", None, "proposal");
            WeightAt(g.mentions, "n", "us") == 1 && WeightAt(Unmerge(chained, "us", "", 0).mentions, "n", "us") == 0
  {
    hide Merge, Unmerge;
    ChainUndone(ChainExample(), "us", "usa", "united states", "", 0, "n");
  }

  /** Beside its mentions, an entity comes back from a merge and its undo as it was, but for
      being marked as split out: exactly when it had a type, or the target has none, it had a
      time of creation, and it was no curated one. */
  lemma EntityIsBackIff(g: Graph, from: Name, into: Name, origin: string, freshId: Id, now: int)
    requires from in g.entities && into in g.entities && from != into
    ensures var g', f := Unmerge(FinishMerge(g, from, into, origin), from, freshId, now), g.entities[from];
            && from in g'.entities
            && (g'.entities[from] == f.(distinct := true)
                <==> !f.seeded && f.createdAt.Some? && (f.entityType.Some? || g.entities[into].entityType.None?))
            && g'.entities - {from} == g.entities - {from} && from !in g'.aliases
  {
    var merged := FinishMerge(g, from, into, origin);
    assert CanUnmerge(merged, from);
  }

  /** An untyped entity comes back with the type of the one it was merged into. */
  lemma UntypedComesBackTyped()
    ensures var us, usa := Entity("1", None, Some(0), false, false), Entity("2", Some("place"), Some(0), false, false);
            var g := Graph(map["us" := us, "usa" := usa], map[], map[], map[]);
            var g' := Unmerge(FinishMerge(g, "us", "usa", "proposal"), "us", "", 0);
            "us" in g'.entities && g'.entities["us"].entityType == Some("place")
  {
    var us, usa := Entity("1", None, Some(0), false, false), Entity("2", Some("place"), Some(0), false, false);
    var merged := FinishMerge(Graph(map["us" := us, "usa" := usa], map[], map[], map[]), "us", "usa", "proposal");
    assert CanUnmerge(merged, "us") && merged.aliases["us"].target == "usa";
  }
}
