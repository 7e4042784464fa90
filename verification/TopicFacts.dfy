/** What every run of topic operations keeps, and what the coverage counts say about the
    notes the classifier will pick. */
module TopicFacts {
  import opened Wrappers
  import opened Collections
  import opened Text
  import opened TopicVersion
  import opened TopicVersionFacts
  import opened TopicStore

  // ── Coverage ──

  function Total(s: State): set<NoteId> {
    set i | i in s.notes && s.notes[i].top
  }

  function SkippedNotes(s: State): set<NoteId> {
    set i | i in Total(s) && Skipped(s.notes[i], s.current.skip)
  }

  function WithTopic(s: State): set<NoteId> {
    set i | i in Total(s) - SkippedNotes(s) && s.notes[i].version == Some(s.current.version)
      && s.notes[i].edges != map[]
  }

  function NoTopic(s: State): set<NoteId> {
    set i | i in Total(s) - SkippedNotes(s) && s.notes[i].version == Some(s.current.version)
      && s.notes[i].edges == map[]
  }

  function Failed(s: State): set<NoteId> {
    set i | i in Total(s) - SkippedNotes(s) && Outdated(s.notes[i], s.current) && s.notes[i].failed >= MAX_FAILURES
  }

  /** The number the page shows as waiting. */
  function Waiting(s: State): int {
    var rest := |Total(s)| - |SkippedNotes(s)| - |WithTopic(s)| - |NoTopic(s)| - |Failed(s)|;
    if rest < 0 then 0 else rest
  }

  /** The same number as `reclassify_status` counts it. */
  function WaitingForVersion(s: State): set<NoteId> {
    set i | i in Total(s) - SkippedNotes(s) && Outdated(s.notes[i], s.current) && s.notes[i].failed < MAX_FAILURES
  }

  /** The fifth bucket: what the other four leave. */
  function Rest(s: State): set<NoteId> {
    Total(s) - SkippedNotes(s) - WithTopic(s) - NoTopic(s) - Failed(s)
  }

  /** A locked note that still waits for the current version. */
  predicate Stuck(s: State, i: NoteId) {
    i in WaitingForVersion(s) && s.notes[i].locked
  }

  /** A note no one has classified, in a brain with no topics: it has no version, and the
      current version is the empty one. */
  predicate Unversioned(s: State, i: NoteId) {
    i in Total(s) - SkippedNotes(s) && s.notes[i].version == None && s.current.version == NoVersion
  }

  lemma FiveParts<T>(all: set<T>, a: set<T>, b: set<T>, c: set<T>, d: set<T>)
    requires a !! b !! c !! d && a + b + c + d <= all
    ensures |a| + |b| + |c| + |d| + |all - a - b - c - d| == |all|
  {
    assert |all| == |a| + |all - a|;
    assert |all - a| == |b| + |all - a - b|;
    assert |all - a - b| == |c| + |all - a - b - c|;
    assert |all - a - b - c| == |d| + |all - a - b - c - d|;
  }

  /** The five buckets partition the top-level notes, so the difference is never negative. */
  lemma BucketsPartition(s: State)
    ensures SkippedNotes(s) !! WithTopic(s) !! NoTopic(s) !! Failed(s) !! Rest(s)
    ensures SkippedNotes(s) + WithTopic(s) + NoTopic(s) + Failed(s) + Rest(s) == Total(s)
    ensures |SkippedNotes(s)| + |WithTopic(s)| + |NoTopic(s)| + |Failed(s)| + |Rest(s)| == |Total(s)|
    ensures Waiting(s) == |Rest(s)|
  {
    var total, a, b, c, d := Total(s), SkippedNotes(s), WithTopic(s), NoTopic(s), Failed(s);
    BucketsApart(s);
    hide Total, SkippedNotes, WithTopic, NoTopic, Failed;
    FiveParts(total, a, b, c, d);
  }

  lemma BucketsApart(s: State)
    ensures SkippedNotes(s) !! WithTopic(s) !! NoTopic(s) !! Failed(s)
    ensures SkippedNotes(s) + WithTopic(s) + NoTopic(s) + Failed(s) <= Total(s)
  {
    hide Skipped, Total;
  }

  /** The shown number is what the classifier will pick, unless a locked note is stuck or a
      note is without version in a brain without topics. */
  lemma WaitingIsPending(s: State)
    ensures Pending(s) <= Rest(s)
    ensures Waiting(s) == |Pending(s)| <==> forall i | i in s.notes :: !Stuck(s, i) && !Unversioned(s, i)
  {
    BucketsPartition(s);
    forall i ensures i in Rest(s) <==> i in Pending(s) || (i in s.notes && (Stuck(s, i) || Unversioned(s, i)))
      ensures i in s.notes && (Stuck(s, i) || Unversioned(s, i)) ==> i !in Pending(s)
    {
      InRest(s, i);
    }
    hide Rest, Pending, Stuck, Unversioned, Waiting;
    SubsetSize(Pending(s), Rest(s));
    if i: NoteId :| i in s.notes && (Stuck(s, i) || Unversioned(s, i)) {
      assert i in Rest(s) && i !in Pending(s);
    } else {
      assert Pending(s) == Rest(s);
    }
  }

  lemma InRest(s: State, i: NoteId)
    ensures i in Rest(s) <==> i in Pending(s) || (i in s.notes && (Stuck(s, i) || Unversioned(s, i)))
    ensures i in s.notes && (Stuck(s, i) || Unversioned(s, i)) ==> i !in Pending(s)
  {
    hide Skipped;
  }

  lemma ReclassifyIsPending(s: State)
    ensures Pending(s) <= WaitingForVersion(s)
    ensures |WaitingForVersion(s)| == |Pending(s)| <==> forall i | i in s.notes :: !Stuck(s, i)
  {
    SubsetSize(Pending(s), WaitingForVersion(s));
    if i: NoteId :| i in s.notes && Stuck(s, i) {
      assert i in WaitingForVersion(s) && i !in Pending(s);
    } else {
      forall i | i in WaitingForVersion(s) ensures i in Pending(s) {
        assert !Stuck(s, i);
      }
    }
  }

  /** A brain without topics shows its one note as waiting, and would classify none. */
  lemma NoTopicsYetWaiting()
    ensures var n := Note(true, None, None, "text", None, None, false, 0, map[]);
            var s := State(map[], {}, map["n" := n], TopicsOf([], [], []));
            Waiting(s) == 1 && Pending(s) == {} && WaitingForVersion(s) == {}
  {
    hide HashFrom, Tidy;
    var n := Note(true, None, None, "text", None, None, false, 0, map[]);
    var s := State(map[], {}, map["n" := n], TopicsOf([], [], []));
    BucketsPartition(s);
    assert s.current.version == NoVersion && s.current.skip == [];
    assert !Skipped(n, []);
    InRest(s, "n");
    hide TopicsOf, Skipped;
    assert Total(s) == {"n"};
    assert Rest(s) == {"n"};
    hide Rest, SkippedNotes;
  }

  // ── Runs ──

  datatype Op =
    | OpStartup(env: Env)
    | OpSync(env: Env)
    | OpSave(env: Env, def: TopicDef, create: bool, otherwiseFine: bool)
    | OpDelete(env: Env, name: string, scheduled: bool)
    | OpReset(env: Env, name: string)
    | OpSetTopics(id: NoteId, names: seq<string>)
    | OpUnlock(id: NoteId)
    | OpClassify(env: Env, id: NoteId, answer: Option<seq<string>>)
    | OpAdd(id: NoteId, note: Note)

  ghost function Step(s: State, op: Op): State {
    match op
    case OpStartup(env) => Startup(s, env)
    case OpSync(env) => Sync(s, env)
    case OpSave(env, def, create, otherwiseFine) => Save(s, env, def, create, otherwiseFine)
    case OpDelete(env, name, scheduled) => Delete(s, env, name, scheduled)
    case OpReset(env, name) => Reset(s, env, name)
    case OpSetTopics(id, names) => SetNoteTopics(s, id, names)
    case OpUnlock(id) => Unlock(s, id)
    case OpClassify(env, id, answer) => Classify(s, env, id, answer)
    case OpAdd(id, n) => AddNote(s, id, n)
  }

  ghost function Run(s: State, ops: seq<Op>): State
    decreases |ops|
  {
    if |ops| == 0 then s else Step(Run(s, ops[..|ops| - 1]), ops[|ops| - 1])
  }

  ghost predicate EdgesOk(notes: map<NoteId, Note>, topics: map<string, Topic>) {
    forall i | i in notes :: notes[i].edges.Keys <= topics.Keys
  }

  /** Topics are stored under their names, no topic is both there and retired, and every
      edge leads to a topic. */
  ghost predicate Inv(s: State) {
    NamesOk(s.topics) && s.topics.Keys !! s.retired && EdgesOk(s.notes, s.topics)
  }

  predicate LockedCurrent(notes: map<NoteId, Note>, version: Version) {
    forall i | i in notes && notes[i].locked :: notes[i].version == Some(version)
  }

  predicate LockedOk(s: State) {
    LockedCurrent(s.notes, s.current.version)
  }

  /** What is offered after a reload that finds a topic to offer. */
  lemma KnownIs(topics: map<string, Topic>, skip: seq<SkipRule>, loaded: set<string>)
    requires NamesOk(topics)
    ensures forall d :: d in CurrentOf(topics, skip, loaded).defs <==> d in Offered(topics, loaded).Values
    ensures forall x :: Known(CurrentOf(topics, skip, loaded), x) <==> x in Offered(topics, loaded)
    ensures CurrentOf(topics, skip, loaded).skip == skip
  {
    hide Tidy, VersionOf, ListOf;
    OfferedNames(topics, loaded);
    var offered := Offered(topics, loaded);
    var list := ListOf(offered);
    ListIs(offered);
    TidyIs(list);
    forall d ensures d in Tidy(list) <==> d in offered.Values {
      assert d in Tidy(list) <==> d in multiset(Tidy(list));
      assert d in list <==> d in multiset(list);
    }
    var current := CurrentOf(topics, skip, loaded);
    forall x ensures Known(current, x) <==> x in offered {
      if x in offered {
        assert offered[x] in current.defs;
      }
    }
  }

  lemma ReloadKeeps(s: State, env: Env)
    requires Inv(s)
    ensures Inv(Reload(s, env))
    ensures LockedOk(Reload(s, env)) <==> (Offered(s.topics, env.loaded) != map[] || LockedOk(s))
  {
    hide CurrentOf, QueryMatches, Skipped;
    if Offered(s.topics, env.loaded) != map[] {
      KnownIs(s.topics, env.skip, env.loaded);
      var current := CurrentOf(s.topics, env.skip, env.loaded);
      forall i | i in s.notes ensures Refresh(s.notes[i], s.topics, current, env.lower).edges.Keys <= s.topics.Keys {
        forall d | d in current.defs ensures d.name in s.topics {
          assert d in Offered(s.topics, env.loaded).Values;
        }
      }
    }
  }

  lemma SyncTopicsInv(s: State, env: Env)
    requires Inv(s)
    ensures Inv(s.(topics := SyncedTopics(s, env), notes := SyncedNotes(s, env)))
    ensures LockedOk(s.(topics := SyncedTopics(s, env), notes := SyncedNotes(s, env))) <==> LockedOk(s)
  {
    SyncedNames(s, env);
    SyncedApart(s, env);
    hide SyncedTopics, Skipped;
    forall i | i in s.notes
      ensures SyncedNotes(s, env)[i] == s.notes[i].(edges := SyncedNotes(s, env)[i].edges)
      ensures SyncedNotes(s, env)[i].edges.Keys <= SyncedTopics(s, env).Keys
    {
      SyncedScope(s, env, i);
    }
  }

  lemma SyncedApart(s: State, env: Env)
    requires s.topics.Keys !! s.retired
    ensures SyncedTopics(s, env).Keys !! s.retired
  {
    hide ByKey, Stored, IsDormant;
  }

  lemma SyncKeeps(s: State, env: Env)
    requires Inv(s)
    ensures Inv(Sync(s, env))
    ensures LockedOk(Sync(s, env)) <==> (Offered(SyncedTopics(s, env), env.loaded) != map[] || LockedOk(s))
  {
    hide Reload, SyncedTopics, SyncedNotes, Offered, LockedOk, Inv;
    SyncTopicsInv(s, env);
    ReloadKeeps(s.(topics := SyncedTopics(s, env), notes := SyncedNotes(s, env)), env);
  }

  /** The version a new process starts with, before it has read the graph. */
  function SeedVersion(env: Env): Version {
    TopicsOf(env.seeds, env.skip, []).version
  }

  /** A startup leaves a locked note behind exactly when the graph offers no topic and the
      note does not happen to carry the version of the declared topics. */
  lemma StartupKeepsLocks(s: State, env: Env)
    requires Inv(s)
    ensures Inv(Startup(s, env))
    ensures LockedOk(Startup(s, env))
            <==> (Offered(SyncedTopics(s, env), env.loaded) != map[] || LockedCurrent(s.notes, SeedVersion(env)))
  {
    hide Sync, TopicsOf, Offered, Seeded, StillDeclared;
    var began := s.(current := TopicsOf(env.seeds, env.skip, []));
    SyncKeeps(began, env);
    assert SyncedTopics(began, env) == SyncedTopics(s, env);
  }

  /** A startup that finds a topic to offer, or no locked note of another version. */
  predicate Settles(s: State, op: Op) {
    op.OpStartup? ==>
      Offered(SyncedTopics(s, op.env), op.env.loaded) != map[] || LockedCurrent(s.notes, SeedVersion(op.env))
  }

  lemma SaveKeeps(s: State, env: Env, def: TopicDef, create: bool, otherwiseFine: bool)
    requires Inv(s)
    ensures Inv(Save(s, env, def, create, otherwiseFine))
    ensures LockedOk(s) ==> LockedOk(Save(s, env, def, create, otherwiseFine))
  {
    hide Reload, Offered, SaveAllowed;
    if SaveAllowed(s, def, create, otherwiseFine) {
      ReloadKeeps(s.(retired := s.retired - {def.name}, topics := s.topics[def.name := SavedTopic(s, def)]), env);
    }
  }

  lemma DeleteKeeps(s: State, env: Env, name: string, scheduled: bool)
    requires Inv(s)
    ensures Inv(Delete(s, env, name, scheduled))
    ensures LockedOk(s) ==> LockedOk(Delete(s, env, name, scheduled))
  {
    hide Reload, Offered, DeleteAllowed;
    if DeleteAllowed(s, name, scheduled) {
      ReloadKeeps(s.(topics := s.topics - {name}, notes := EvictedNotes(s, name),
                     retired := s.retired + if name in env.Declared() then {name} else {}), env);
    }
  }

  lemma ResetKeeps(s: State, env: Env, name: string)
    requires Inv(s)
    ensures Inv(Reset(s, env, name))
    ensures LockedOk(s) ==> LockedOk(Reset(s, env, name))
  {
    hide Reload, Offered;
    DeclaredNames(env.seeds);
    if name in env.Declared() {
      var topics := s.topics[name := ResetTopic(s, env.Declared()[name])];
      ReloadKeeps(s.(retired := s.retired - {name}, topics := topics), env);
    }
  }

  /** One note changes: its edges lead to topics, and if it is locked it is current or was
      locked with this version. */
  lemma OneNoteKeeps(s: State, i: NoteId, n: Note)
    requires Inv(s) && n.edges.Keys <= s.topics.Keys
    requires n.locked ==> n.version == Some(s.current.version)
                          || (i in s.notes && s.notes[i].locked && s.notes[i].version == n.version)
    ensures Inv(s.(notes := s.notes[i := n]))
    ensures LockedOk(s) ==> LockedOk(s.(notes := s.notes[i := n]))
  {
  }

  lemma NoteOpsKeep(s: State, op: Op)
    requires Inv(s) && (op.OpSetTopics? || op.OpUnlock? || op.OpClassify? || op.OpAdd?)
    ensures Inv(Step(s, op)) && (LockedOk(s) ==> LockedOk(Step(s, op)))
  {
    hide Ranked, Picked, Skipped, Classified, LockedOk;
    match op
    case OpSetTopics(id, names) =>
      if SetAllowed(s, id, names) {
        RankedIs(Picked(names, s.current).value, s.topics, ByHand());
        OneNoteKeeps(s, id, Step(s, op).notes[id]);
      }
    case OpClassify(env, id, answer) =>
      if id in Pending(s) {
        if answer.Some? {
          ClassifiedShape(s, env, s.notes[id], answer.value);
        }
        OneNoteKeeps(s, id, Step(s, op).notes[id]);
      }
    case OpUnlock(id) =>
      if id in s.notes {
        OneNoteKeeps(s, id, Step(s, op).notes[id]);
      }
    case OpAdd(id, n) =>
      if id !in s.notes {
        OneNoteKeeps(s, id, Step(s, op).notes[id]);
      }
  }

  /** The edges of a classified note: those to dormant topics it had, and the picked ones. */
  lemma ClassifiedShape(s: State, env: Env, n: Note, answer: seq<string>)
    ensures var n' := Classified(s, env, n, answer);
            var rules := RuleTopics(s.current.defs, n, env.lower);
            var picked := Truncated(Merged(rules, Truncated(Answered(answer, s.current, env.lower))));
            var edges := Ranked(picked, s.topics, ByRules(rules));
            && n' == n.(version := Some(s.current.version), failed := 0, edges := n'.edges)
            && n'.edges.Keys == DormantEdges(s, n, env.loaded) + edges.Keys && edges.Keys <= s.topics.Keys
            && (forall t | t in edges :: n'.edges[t] == edges[t])
  {
    hide RuleTopics, Answered, Merged, Truncated, IsDormant;
    var rules := RuleTopics(s.current.defs, n, env.lower);
    var picked := Truncated(Merged(rules, Truncated(Answered(answer, s.current, env.lower))));
    RankedIs(picked, s.topics, ByRules(rules));
    hide Ranked, ByRules;
  }

  lemma StepKeeps(s: State, op: Op)
    requires Inv(s)
    ensures Inv(Step(s, op)) && (LockedOk(s) && Settles(s, op) ==> LockedOk(Step(s, op)))
  {
    hide Startup, Sync, Save, Delete, Reset, Offered, SyncedTopics;
    match op
    case OpStartup(env) => StartupKeepsLocks(s, env);
    case OpSync(env) => SyncKeeps(s, env);
    case OpSave(env, def, create, otherwiseFine) => SaveKeeps(s, env, def, create, otherwiseFine);
    case OpDelete(env, name, scheduled) => DeleteKeeps(s, env, name, scheduled);
    case OpReset(env, name) => ResetKeeps(s, env, name);
    case _ => NoteOpsKeep(s, op);
  }

  /** Over every run, edges lead to existing topics and no retired topic exists; locked
      notes carry the current version as long as every startup finds a topic to offer. */
  lemma {:induction false} RunKeeps(s: State, ops: seq<Op>)
    requires Inv(s)
    ensures Inv(Run(s, ops))
    ensures LockedOk(s) && (forall k | 0 <= k < |ops| :: Settles(Run(s, ops[..k]), ops[k])) ==> LockedOk(Run(s, ops))
    decreases |ops|
  {
    hide Step, Inv, LockedOk, Settles;
    if |ops| > 0 {
      var but := ops[..|ops| - 1];
      RunKeeps(s, but);
      forall k | 0 <= k < |but| ensures but[..k] == ops[..k] && but[k] == ops[k] {
      }
      StepKeeps(Run(s, but), ops[|ops| - 1]);
    }
  }

  /** The claim of the coverage page, over every run: with topics offered, what it shows as
      waiting is the number of notes the classifier will pick. */
  lemma CoverageOverRuns(s: State, ops: seq<Op>)
    requires Inv(s) && LockedOk(s)
    requires forall k | 0 <= k < |ops| :: Settles(Run(s, ops[..k]), ops[k])
    ensures var end := Run(s, ops);
            && |WaitingForVersion(end)| == |Pending(end)|
            && (Waiting(end) == |Pending(end)| <==> forall i | i in end.notes :: !Unversioned(end, i))
  {
    hide Run, Settles;
    RunKeeps(s, ops);
    var end := Run(s, ops);
    assert forall i | i in end.notes :: !Stuck(end, i);
    WaitingIsPending(end);
    ReclassifyIsPending(end);
  }

  // ── Who owns a topic ──

  predicate Names(op: Op, x: string) {
    match op
    case OpSave(_, def, _, _) => def.name == x
    case OpDelete(_, name, _) => name == x
    case OpReset(_, name) => name == x
    case _ => false
  }

  /** A sync leaves it alone: it was edited by hand, or its plugin is off and nothing
      declares it. */
  predicate SyncLeaves(op: Op, x: string, t: Topic) {
    op.OpSync? || op.OpStartup? ==> t.runtime || (IsDormant(t, op.env.loaded) && x !in op.env.Declared())
  }

  lemma StepLeaves(s: State, op: Op, x: string)
    requires x in s.topics && !Names(op, x) && SyncLeaves(op, x, s.topics[x])
    ensures x in Step(s, op).topics && Step(s, op).topics[x] == s.topics[x]
  {
    hide CurrentOf, RefreshAll, SaveAllowed, DeleteAllowed, SyncedNotes, Classified, SetAllowed, TopicsOf;
  }

  /** A topic keeps its definition over every run that does not save, delete or reset it:
      one edited by hand always, one of a plugin that is off while nothing declares it. */
  lemma {:induction false} TopicStays(s: State, ops: seq<Op>, x: string)
    requires x in s.topics
    requires forall op | op in ops :: !Names(op, x) && SyncLeaves(op, x, s.topics[x])
    ensures x in Run(s, ops).topics && Run(s, ops).topics[x] == s.topics[x]
    decreases |ops|
  {
    hide Step, Names, SyncLeaves;
    if |ops| > 0 {
      TopicStays(s, ops[..|ops| - 1], x);
      StepLeaves(Run(s, ops[..|ops| - 1]), ops[|ops| - 1], x);
    }
  }

  /** What a person saved is what the graph holds until the topic is saved, deleted or reset. */
  lemma SavedStays(s: State, env: Env, def: TopicDef, create: bool, ops: seq<Op>)
    requires SaveAllowed(s, def, create, true)
    requires forall op | op in ops :: !Names(op, def.name)
    ensures var end := Run(Save(s, env, def, create, true), ops);
            def.name in end.topics && end.topics[def.name] == SavedTopic(s, def) && end.topics[def.name].runtime
  {
    hide CurrentOf, SaveAllowed, Run, RefreshAll;
    TopicStays(Save(s, env, def, create, true), ops, def.name);
  }

  lemma StepLeavesRetired(s: State, op: Op, x: string)
    requires x in s.retired && x !in s.topics
    requires Names(op, x) ==> op.OpDelete?
    ensures x in Step(s, op).retired && x !in Step(s, op).topics
  {
    hide CurrentOf, RefreshAll, SaveAllowed, DeleteAllowed, SyncedNotes, Classified, SetAllowed, TopicsOf;
  }

  /** A deleted topic that the YAML declares stays away, over every later sync and startup,
      until it is saved or reset. */
  lemma {:induction false} RetiredStaysAway(s: State, ops: seq<Op>, x: string)
    requires x in s.retired && x !in s.topics
    requires forall op | op in ops :: Names(op, x) ==> op.OpDelete?
    ensures x in Run(s, ops).retired && x !in Run(s, ops).topics
    decreases |ops|
  {
    hide Step, Names;
    if |ops| > 0 {
      RetiredStaysAway(s, ops[..|ops| - 1], x);
      StepLeavesRetired(Run(s, ops[..|ops| - 1]), ops[|ops| - 1], x);
    }
  }

  lemma DeletedStaysAway(s: State, env: Env, x: string, ops: seq<Op>)
    requires DeleteAllowed(s, x, false) && x in env.Declared()
    requires forall op | op in ops :: Names(op, x) ==> op.OpDelete?
    ensures x !in Run(Delete(s, env, x, false), ops).topics
  {
    hide CurrentOf, DeleteAllowed, Run, RefreshAll;
    RetiredStaysAway(Delete(s, env, x, false), ops, x);
  }

  /** A reset restores the declared definition exactly when the aliases it does not write
      are the declared ones already; a sync after it always does. */
  lemma ResetRestores(s: State, env: Env, x: string)
    requires x in env.Declared()
    ensures var seed := Stored(env.Declared()[x]);
            var before := if x in s.topics then s.topics[x].def.aliases else [];
            && x in Reset(s, env, x).topics
            && (Reset(s, env, x).topics[x] == Topic(seed, false) <==> before == seed.aliases)
            && x in Sync(Reset(s, env, x), env).topics
            && Sync(Reset(s, env, x), env).topics[x] == Topic(seed, false)
  {
    hide CurrentOf, RefreshAll, SyncedNotes, ByKey;
    DeclaredNames(env.seeds);
  }

  // ── Sync twice ──

  lemma SyncedTwice(s: State, s': State, env: Env)
    requires s'.topics == SyncedTopics(s, env) && s'.retired == s.retired
    ensures SyncedTopics(s', env) == s'.topics
  {
    hide ByKey, Stored, IsDormant;
  }

  /** A note a sync has passed: its edges lead to topics, none when the scope skips it, and
      the rules' edges are there. */
  ghost predicate Settled(n: Note, topics: map<string, Topic>, current: Topics, lower: string -> string) {
    && n.edges.Keys <= topics.Keys
    && (Skipped(n, current.skip) ==> n.edges == map[])
    && Refresh(n, topics, current, lower) == n
  }

  lemma SameForRules(n: Note, n': Note, current: Topics, lower: string -> string)
    requires n' == n.(edges := n'.edges, version := n'.version)
    ensures Skipped(n', current.skip) == Skipped(n, current.skip)
    ensures RuleEdges(n', current, lower) == RuleEdges(n, current, lower)
  {
  }

  lemma RuleEdgesAre(n: Note, current: Topics, lower: string -> string)
    ensures forall t | t in RuleEdges(n, current, lower) ::
              && RuleEdges(n, current, lower)[t].how == Rule
              && exists d :: d in current.defs && d.name == t
  {
    hide RulePicksInQuery;
  }

  lemma RefreshSettles(n: Note, topics: map<string, Topic>, current: Topics, lower: string -> string)
    requires n.edges.Keys <= topics.Keys && (Skipped(n, current.skip) ==> n.edges == map[])
    requires forall d | d in current.defs :: d.name in topics
    ensures Settled(Refresh(n, topics, current, lower), topics, current, lower)
  {
    hide Skipped, RuleEdges;
    var n1 := WithoutLlm(n, topics);
    var n2 := WithRules(n1, current, lower);
    var n' := Refresh(n, topics, current, lower);
    SameForRules(n, n', current, lower);
    SameForRules(n, n1, current, lower);
    RuleEdgesAre(n, current, lower);
    WithoutLlmTwice(n1, n2, topics, RuleEdges(n, current, lower));
    assert n'.edges == n2.edges;
    hide Known;
    assert WithoutLlm(n', topics) == n';
    assert WithRules(n', current, lower).edges == n'.edges;
  }

  lemma WithoutLlmTwice(n1: Note, n2: Note, topics: map<string, Topic>, rules: map<string, InTopic>)
    requires WithoutLlm(n1, topics) == n1 && (forall t | t in rules :: rules[t].how == Rule)
    requires n2.edges == n1.edges || n2.edges == rules + n1.edges
    ensures WithoutLlm(n2, topics).edges == n2.edges
  {
    forall t | t in n1.edges ensures !(n1.edges[t].how == Llm && t in topics && topics[t].def.assign == Rules) {
      assert t in WithoutLlm(n1, topics).edges;
    }
  }

  lemma SettledStays(n: Note, topics: map<string, Topic>, current: Topics, lower: string -> string)
    requires Settled(n, topics, current, lower)
    ensures InScope(OnlyTopics(n, topics), current.skip) == n
  {
    hide Skipped, Refresh;
    assert OnlyTopics(n, topics).edges == n.edges;
    SameForRules(n, OnlyTopics(n, topics), current, lower);
  }

  lemma SyncSettles(s: State, env: Env, i: NoteId)
    requires NamesOk(s.topics) && i in s.notes
    requires Offered(SyncedTopics(s, env), env.loaded) != map[]
    ensures var end := Sync(s, env);
            i in end.notes && Settled(end.notes[i], end.topics, end.current, env.lower)
  {
    hide CurrentOf, Refresh, Offered, Skipped, SyncedTopics, Settled;
    var topics := SyncedTopics(s, env);
    SyncedNames(s, env);
    KnownIs(topics, env.skip, env.loaded);
    var current := CurrentOf(topics, env.skip, env.loaded);
    OfferedAreTopics(topics, current, env);
    var n := SyncedNotes(s, env)[i];
    SyncedScope(s, env, i);
    RefreshSettles(n, topics, current, env.lower);
  }

  lemma SyncedScope(s: State, env: Env, i: NoteId)
    requires i in s.notes
    ensures var n := SyncedNotes(s, env)[i];
            n.edges.Keys <= SyncedTopics(s, env).Keys && (Skipped(n, env.skip) ==> n.edges == map[])
  {
    hide SyncedTopics;
  }

  lemma SyncedNames(s: State, env: Env)
    requires NamesOk(s.topics)
    ensures NamesOk(SyncedTopics(s, env))
  {
    hide ByKey;
    DeclaredNames(env.seeds);
  }

  lemma OfferedAreTopics(topics: map<string, Topic>, current: Topics, env: Env)
    requires NamesOk(topics)
    requires forall d :: d in current.defs <==> d in Offered(topics, env.loaded).Values
    ensures forall d | d in current.defs :: d.name in topics
  {
    OfferedNames(topics, env.loaded);
  }

  /** Syncing again changes nothing. */
  lemma SyncTwice(s: State, env: Env)
    requires NamesOk(s.topics)
    ensures Sync(Sync(s, env), env) == Sync(s, env)
  {
    hide CurrentOf, Refresh, Offered, Skipped, SyncedTopics, Settled, InScope, OnlyTopics;
    var once := Sync(s, env);
    SyncedTwice(s, once, env);
    if Offered(SyncedTopics(s, env), env.loaded) == map[] {
      forall i | i in s.notes ensures InScope(OnlyTopics(once.notes[i], once.topics), env.skip) == once.notes[i] {
        ScopedTwice(s.notes[i], once.topics, env.skip);
      }
      assert SyncedNotes(once, env) == once.notes;
    } else {
      SyncedNames(s, env);
      KnownIs(once.topics, env.skip, env.loaded);
      forall i | i in s.notes
        ensures InScope(OnlyTopics(once.notes[i], once.topics), env.skip) == once.notes[i]
        ensures Refresh(once.notes[i], once.topics, once.current, env.lower) == once.notes[i]
      {
        SyncSettles(s, env, i);
        SettledStays(once.notes[i], once.topics, once.current, env.lower);
        SettledIsRefreshed(once.notes[i], once.topics, once.current, env.lower);
      }
      assert SyncedNotes(once, env) == once.notes;
      assert RefreshAll(once.notes, once.topics, once.current, env.lower) == once.notes;
    }
  }

  lemma SettledIsRefreshed(n: Note, topics: map<string, Topic>, current: Topics, lower: string -> string)
    requires Settled(n, topics, current, lower)
    ensures Refresh(n, topics, current, lower) == n
  {
  }

  lemma ScopedTwice(n: Note, topics: map<string, Topic>, skip: seq<SkipRule>)
    ensures InScope(OnlyTopics(InScope(OnlyTopics(n, topics), skip), topics), skip)
            == InScope(OnlyTopics(n, topics), skip)
  {
    var n' := InScope(OnlyTopics(n, topics), skip);
    assert OnlyTopics(n', topics).edges == n'.edges;
  }

  // ── Notes and dormant plugins ──

  /** A note keeps its edge to a topic whose plugin is off over a sync, unless the scope
      skips the note or the edge is the classifier's on a rules topic. */
  lemma SyncKeepsDormantEdges(s: State, env: Env, i: NoteId, x: string)
    requires Inv(s) && i in s.notes && x in s.notes[i].edges
    requires IsDormant(s.topics[x], env.loaded) && x !in env.Declared()
    ensures var end := Sync(s, env);
            && x in end.topics && end.topics[x] == s.topics[x]
            && (!Skipped(s.notes[i], env.skip) && !(s.notes[i].edges[x].how == Llm && s.topics[x].def.assign == Rules)
                ==> x in end.notes[i].edges && end.notes[i].edges[x] == s.notes[i].edges[x])
  {
    hide CurrentOf, RuleEdges, ByKey;
    SameForRules(s.notes[i], OnlyTopics(s.notes[i], SyncedTopics(s, env)), s.current.(skip := env.skip), env.lower);
  }

  // ── The user's word ──

  /** What a sync makes of each topic: a declared one is written unless it was edited by
      hand or retired; an undeclared one stays if it was edited by hand or its plugin is off. */
  lemma SyncedTopicIs(s: State, env: Env, x: string)
    ensures var after := SyncedTopics(s, env);
            && (x in after <==>
                  if x in env.Declared() then x in s.topics || x !in s.retired
                  else x in s.topics && (s.topics[x].runtime || IsDormant(s.topics[x], env.loaded)))
            && (x in after ==>
                  after[x] == if x in env.Declared() && x !in s.retired && !(x in s.topics && s.topics[x].runtime)
                              then Topic(Stored(env.Declared()[x]), false) else s.topics[x])
  {
    hide ByKey, Stored, IsDormant;
  }

  /** The notes of a deleted topic are out of it, unlocked and without a version, so they
      wait to be classified; all other notes keep their lock and failures. */
  lemma DeletedNotesWait(s: State, env: Env, x: string, i: NoteId)
    requires DeleteAllowed(s, x, false) && x in s.topics && i in s.notes
    ensures var n, n' := s.notes[i], Delete(s, env, x, false).notes[i];
            if x in n.edges then n'.version == None && !n'.locked
            else n'.locked == n.locked && (!n.locked ==> n'.version == n.version)
    ensures NamesOk(s.topics) ==> x !in Delete(s, env, x, false).notes[i].edges
  {
    hide DeleteAllowed, QueryMatches, Skipped, CurrentOf, ByKey;
    var topics := s.topics - {x};
    if NamesOk(s.topics) && Offered(topics, env.loaded) != map[] {
      KnownIs(topics, env.skip, env.loaded);
      OfferedAreTopics(topics, CurrentOf(topics, env.skip, env.loaded), env);
    }
  }

  /** Unlocking puts a note back among those to classify, exactly when nothing else keeps it out. */
  lemma UnlockedWaits(s: State, i: NoteId)
    requires i in s.notes
    ensures i in Pending(Unlock(s, i))
            <==> s.current.version != NoVersion && s.notes[i].failed < MAX_FAILURES && s.notes[i].top
                 && !Skipped(s.notes[i], s.current.skip)
    ensures forall j | j != i :: j in Pending(Unlock(s, i)) <==> j in Pending(s)
  {
    var n := s.notes[i];
    assert Skipped(n.(locked := false, version := None), s.current.skip) == Skipped(n, s.current.skip);
  }

  /** Touches the note by hand, or deletes a topic it is in (which unlocks it). */
  predicate Handles(op: Op, i: NoteId, n: Note) {
    match op
    case OpSetTopics(id, _) => id == i
    case OpUnlock(id) => id == i
    case OpDelete(_, name, _) => name in n.edges
    case _ => false
  }

  lemma RefreshLocked(n: Note, topics: map<string, Topic>, current: Topics, lower: string -> string)
    requires n.locked
    ensures var n' := Refresh(n, topics, current, lower);
            n'.locked && n'.failed == n.failed && n'.noteType == n.noteType && n'.sourceContext == n.sourceContext
    ensures forall t :: t in Refresh(n, topics, current, lower).edges
                        <==> t in n.edges && !(n.edges[t].how == Llm && t in topics && topics[t].def.assign == Rules)
    ensures forall t | t in Refresh(n, topics, current, lower).edges ::
              Refresh(n, topics, current, lower).edges[t] == n.edges[t]
  {
  }

  /** One step on a note the user set: nothing is added to it, and a topic the user gave it
      stays as long as the topic is there and the scope does not skip the note. */
  lemma StepKeepsHandSet(s: State, op: Op, i: NoteId)
    requires i in s.notes && s.notes[i].locked && !Handles(op, i, s.notes[i])
    ensures i in Step(s, op).notes && Step(s, op).notes[i].locked
    ensures forall t | t in Step(s, op).notes[i].edges ::
              t in s.notes[i].edges && Step(s, op).notes[i].edges[t] == s.notes[i].edges[t]
    ensures forall t | t in s.notes[i].edges && s.notes[i].edges[t].how == Manual && t in s.topics
            && t in Step(s, op).topics
                       && (op.OpSync? || op.OpStartup? ==> !Skipped(s.notes[i], op.env.skip)) ::
              t in Step(s, op).notes[i].edges
    ensures Step(s, op).notes[i].noteType == s.notes[i].noteType
    ensures Step(s, op).notes[i].sourceContext == s.notes[i].sourceContext
  {
    hide CurrentOf, Refresh, Skipped, SyncedTopics, SaveAllowed, SetAllowed, Classified, Offered, ByKey, TopicsOf;
    var n := s.notes[i];
    match op {
      case OpSync(env) =>
        SyncKeepsHandSet(s, env, i);
      case OpStartup(env) =>
        SyncKeepsHandSet(s.(current := TopicsOf(env.seeds, env.skip, [])), env, i);
      case OpSave(env, def, create, otherwiseFine) =>
        RefreshLocked(n, s.topics[def.name := SavedTopic(s, def)],
                      CurrentOf(s.topics[def.name := SavedTopic(s, def)], env.skip, env.loaded), env.lower);
      case OpReset(env, name) =>
        if name in env.Declared() {
          var topics := s.topics[name := ResetTopic(s, env.Declared()[name])];
          RefreshLocked(n, topics, CurrentOf(topics, env.skip, env.loaded), env.lower);
        }
      case OpDelete(env, name, scheduled) =>
        RefreshLocked(n, s.topics - {name}, CurrentOf(s.topics - {name}, env.skip, env.loaded), env.lower);
      case _ =>
    }
  }

  /** What does not handle a note does not handle it with fewer topics either. */
  lemma HandlesLess(op: Op, i: NoteId, n: Note, n': Note)
    requires n'.edges.Keys <= n.edges.Keys && !Handles(op, i, n)
    ensures !Handles(op, i, n')
  {
  }

  lemma SyncKeepsHandSet(s: State, env: Env, i: NoteId)
    requires i in s.notes && s.notes[i].locked
    ensures var n, n' := s.notes[i], Sync(s, env).notes[i];
            && n'.locked && n'.noteType == n.noteType && n'.sourceContext == n.sourceContext
            && (forall t | t in n'.edges :: t in n.edges && n'.edges[t] == n.edges[t])
            && (forall t | t in n.edges && n.edges[t].how == Manual && t in Sync(s, env).topics
              && !Skipped(n, env.skip) ::
                  t in n'.edges)
  {
    hide CurrentOf, Refresh, Skipped, SyncedTopics, Offered;
    var topics, n := SyncedTopics(s, env), SyncedNotes(s, env)[i];
    SameForRules(s.notes[i], OnlyTopics(s.notes[i], topics), s.current.(skip := env.skip), env.lower);
    RefreshLocked(n, topics, CurrentOf(topics, env.skip, env.loaded), env.lower);
  }

  /** The user's word is final: over every run that does not touch the note by hand or delete
      a topic it is in, it stays locked, is never picked, and gains no topic. */
  lemma {:induction false} HandSetStays(s: State, ops: seq<Op>, i: NoteId)
    requires i in s.notes && s.notes[i].locked
    requires forall op | op in ops :: !Handles(op, i, s.notes[i])
    ensures var end := Run(s, ops);
            && i in end.notes && end.notes[i].locked && i !in Pending(end)
            && (forall t | t in end.notes[i].edges ::
                  t in s.notes[i].edges && end.notes[i].edges[t] == s.notes[i].edges[t])
    decreases |ops|
  {
    hide Step, Handles, Skipped;
    if |ops| > 0 {
      var but, last := ops[..|ops| - 1], ops[|ops| - 1];
      HandSetStays(s, but, i);
      HandlesLess(last, i, s.notes[i], Run(s, but).notes[i]);
      StepKeepsHandSet(Run(s, but), last, i);
    }
  }

  /** And it keeps each topic the user gave it that every step leaves there, while the scope
      does not skip it. */
  lemma {:induction false} HandSetTopicStays(s: State, ops: seq<Op>, i: NoteId, t: string)
    requires i in s.notes && s.notes[i].locked && t in s.notes[i].edges && s.notes[i].edges[t].how == Manual
    requires t in s.topics
    requires forall op | op in ops :: !Handles(op, i, s.notes[i]) && !Names(op, t) && SyncLeaves(op, t, s.topics[t])
    requires forall op | op in ops && (op.OpSync? || op.OpStartup?) :: !Skipped(s.notes[i], op.env.skip)
    ensures var end := Run(s, ops);
            && i in end.notes && t in end.notes[i].edges && end.notes[i].edges[t] == s.notes[i].edges[t]
            && end.notes[i].noteType == s.notes[i].noteType && end.notes[i].sourceContext == s.notes[i].sourceContext
    decreases |ops|
  {
    hide Step, Handles, Names, SyncLeaves, Skipped;
    if |ops| > 0 {
      var but, last := ops[..|ops| - 1], ops[|ops| - 1];
      HandSetTopicStays(s, but, i, t);
      HandSetStays(s, but, i);
      TopicStays(s, but, t);
      StepLeaves(Run(s, but), last, t);
      HandlesLess(last, i, s.notes[i], Run(s, but).notes[i]);
      StepKeepsHandSet(Run(s, but), last, i);
      SkipsAlike(s.notes[i], Run(s, but).notes[i]);
    }
  }

  lemma SkipsAlike(n: Note, n': Note)
    requires n'.noteType == n.noteType && n'.sourceContext == n.sourceContext
    ensures forall skip :: Skipped(n', skip) == Skipped(n, skip)
  {
  }

  // ── Classifying ──

  lemma {:induction false} MergedIs(rules: seq<string>, classified: seq<string>)
    ensures rules <= Merged(rules, classified)
    ensures forall t :: t in Merged(rules, classified) <==> t in rules || t in classified
  {
    if classified != [] {
      var but := classified[..|classified| - 1];
      MergedIs(rules, but);
      assert classified == but + [classified[|classified| - 1]];
    }
  }

  /** The note matches a rule of the offered rules topic `t`. */
  ghost predicate MeetsRule(defs: seq<TopicDef>, n: Note, t: string, lower: string -> string) {
    exists d :: d in defs && d.name == t && d.assign == Rules
                && exists r :: r in d.members && RuleMatches(r, n, PendingText(n), lower)
  }

  /** The model named the offered classifier topic `t`. */
  ghost predicate IsAnswered(answer: seq<string>, defs: seq<TopicDef>, t: string, lower: string -> string) {
    && (exists d :: d in defs && d.assign == Classifier && d.name == t)
    && (exists a :: a in answer && lower(Trim(a)) == t)
  }

  lemma {:induction false} RuleTopicsAre(defs: seq<TopicDef>, n: Note, lower: string -> string)
    ensures forall t :: t in RuleTopics(defs, n, lower) <==> MeetsRule(defs, n, t, lower)
  {
    hide RuleMatches, PendingText;
    if defs != [] {
      RuleTopicsAre(defs[1..], n, lower);
      assert defs == [defs[0]] + defs[1..];
    }
  }

  lemma {:induction false} AnsweredAre(answer: seq<string>, current: Topics, lower: string -> string)
    ensures forall t | t in Answered(answer, current, lower) :: IsAnswered(answer, current.defs, t, lower)
  {
    if answer != [] {
      AnsweredAre(answer[..|answer| - 1], current, lower);
      assert answer[|answer| - 1] in answer;
      assert answer == answer[..|answer| - 1] + [answer[|answer| - 1]];
    }
  }

  lemma {:induction false} AtMostAsMany(names: seq<string>, chosen: set<string>)
    requires forall t | t in chosen :: t in names
    ensures |chosen| <= |names|
  {
    if names != [] {
      AtMostAsMany(names[1..], chosen - {names[0]});
    } else {
      assert chosen == {};
    }
  }

  lemma {:induction false} RankedIs(names: seq<string>, topics: map<string, Topic>, how: string -> Method)
    ensures forall t :: t in Ranked(names, topics, how) <==> t in names && t in topics
    ensures forall t | t in Ranked(names, topics, how) :: Ranked(names, topics, how)[t].how == how(t)
    ensures |Ranked(names, topics, how).Keys| <= |names|
  {
    if names != [] {
      RankedIs(names[..|names| - 1], topics, how);
      assert names == names[..|names| - 1] + [names[|names| - 1]];
    }
    AtMostAsMany(names, Ranked(names, topics, how).Keys);
  }

  function DormantEdges(s: State, n: Note, loaded: set<string>): set<string> {
    set t | t in n.edges && t in s.topics && IsDormant(s.topics[t], loaded)
  }

  lemma ClassifiedEdges(s: State, env: Env, n: Note, answer: seq<string>)
    ensures var n' := Classified(s, env, n, answer);
            var dormant := DormantEdges(s, n, env.loaded);
            && dormant <= n'.edges.Keys && |n'.edges.Keys - dormant| <= MAX_TOPICS_PER_NOTE
            && (forall t | t in n'.edges && t !in dormant ::
                  if n'.edges[t].how == Rule then MeetsRule(s.current.defs, n, t, env.lower)
                  else n'.edges[t].how == Llm && IsAnswered(answer, s.current.defs, t, env.lower))
  {
    ClassifiedShape(s, env, n, answer);
    hide RuleTopics, Answered, Merged, IsDormant, Ranked, Classified, DormantEdges;
    var rules := RuleTopics(s.current.defs, n, env.lower);
    var answered := Answered(answer, s.current, env.lower);
    AnsweredAre(answer, s.current, env.lower);
    RuleTopicsAre(s.current.defs, n, env.lower);
    hide MeetsRule, IsAnswered;
    MergedIs(rules, Truncated(answered));
    var picked := Truncated(Merged(rules, Truncated(answered)));
    assert |picked| <= MAX_TOPICS_PER_NOTE && forall t | t in picked :: t in rules || t in answered;
    var how := ByRules(rules);
    RankedIs(picked, s.topics, how);
    assert forall t :: how(t) == if t in rules then Rule else Llm;
    hide ByRules, Truncated;
    var edges := Ranked(picked, s.topics, how);
    var n' := Classified(s, env, n, answer);
    var dormant := DormantEdges(s, n, env.loaded);
    SubsetSize(n'.edges.Keys - dormant, edges.Keys);
  }

  /** An answer takes the note out of the waiting ones and touches nothing else. The note
      keeps its edges to dormant topics; beside them it has at most two, each to a topic of
      a rule it matches or one the model named, and marked accordingly. */
  lemma AnswerClassifies(s: State, env: Env, id: NoteId, answer: seq<string>)
    requires id in Pending(s)
    ensures var s' := Classify(s, env, id, Some(answer));
            var n, n' := s.notes[id], s'.notes[id];
            var dormant := DormantEdges(s, n, env.loaded);
            && s' == s.(notes := s.notes[id := n']) && Pending(s') == Pending(s) - {id}
            && dormant <= n'.edges.Keys && |n'.edges.Keys - dormant| <= MAX_TOPICS_PER_NOTE
            && (forall t | t in n'.edges && t !in dormant ::
                  if n'.edges[t].how == Rule then MeetsRule(s.current.defs, n, t, env.lower)
                  else n'.edges[t].how == Llm && IsAnswered(answer, s.current.defs, t, env.lower))
  {
    ClassifiedEdges(s, env, s.notes[id], answer);
    hide MeetsRule, IsAnswered, DormantEdges, Skipped;
    var n' := Classified(s, env, s.notes[id], answer);
    assert n'.version == Some(s.current.version);
    hide Classified;
    assert !IsPending(n', s.current);
  }

  /** How often a note can still be picked. */
  function TurnsLeft(s: State, id: NoteId): nat {
    if id in Pending(s) then MAX_FAILURES - s.notes[id].failed else 0
  }

  predicate ClassifyOnly(ops: seq<Op>) {
    forall k | 0 <= k < |ops| :: ops[k].OpClassify?
  }

  /** The turns in which a note was picked and asked about. */
  ghost function Turns(s: State, ops: seq<Op>, id: NoteId): nat
    requires ClassifyOnly(ops)
    decreases |ops|
  {
    if |ops| == 0 then 0
    else
      var last := ops[|ops| - 1];
      Turns(s, ops[..|ops| - 1], id)
      + if last.id == id && id in Pending(Run(s, ops[..|ops| - 1])) then 1 else 0
  }

  lemma TurnIsSpent(s: State, env: Env, id: NoteId, answer: Option<seq<string>>, other: NoteId)
    ensures TurnsLeft(Classify(s, env, id, answer), other)
            <= TurnsLeft(s, other) - if other == id && id in Pending(s) then 1 else 0
  {
    hide Classified, Skipped;
    if id in Pending(s) && answer.Some? {
      AnswerClassifies(s, env, id, answer.value);
    }
  }

  /** The assigner gives up: however it goes, a note is asked about at most as often as it
      has failures left. */
  lemma {:induction false} AssignerEnds(s: State, ops: seq<Op>, id: NoteId)
    requires ClassifyOnly(ops)
    ensures Turns(s, ops, id) + TurnsLeft(Run(s, ops), id) <= TurnsLeft(s, id)
    decreases |ops|
  {
    hide Classify, TurnsLeft, Pending;
    if |ops| > 0 {
      var last := ops[|ops| - 1];
      AssignerEnds(s, ops[..|ops| - 1], id);
      TurnIsSpent(Run(s, ops[..|ops| - 1]), last.env, last.id, last.answer, id);
    }
  }

  // ── The two readings of a rule ──

  /** A given but blank field: the classifier then asks for a note whose field is blank. */
  predicate BlankAgrees(want: Option<string>, have: Option<string>) {
    want.Some? && Trim(want.value) == "" ==> have == Some("")
  }

  predicate FieldsMatch(r: MemberRule, n: Note) {
    && !EmptyRule(r)
    && (TrimField(r.noteType) == "" || n.noteType == Some(TrimField(r.noteType)))
    && (TrimField(r.sourceContext) == "" || n.sourceContext == Some(TrimField(r.sourceContext)))
  }

  /** The classifier and the database query, on the text the classifier reads, agree on a rule
      but for a given field that is blank, unless the note's is the empty text. */
  lemma RulesAgree(r: MemberRule, n: Note, lower: string -> string)
    requires lower("") == ""
    ensures RuleMatches(r, n, PendingText(n), lower)
            <==> QueryMatches(r, n.(content := PendingText(n)), lower)
                 && BlankAgrees(r.noteType, n.noteType) && BlankAgrees(r.sourceContext, n.sourceContext)
  {
    var text := PendingText(n);
    assert Take(text, CLASSIFY_CHARS) == text;
    assert Contains(lower(text), "") by {
      assert IsAt(lower(text), 0, "");
    }
    FieldsAgree(r.noteType, n.noteType);
    FieldsAgree(r.sourceContext, n.sourceContext);
    FieldsAgree(r.contentContains, None);
    hide Trim, PendingText, Take, Contains;
  }

  /** Lower-casing a text does not look beyond the end of a line. */
  ghost predicate KeepsLines(lower: string -> string) {
    forall a, b :: lower(a) <= lower(a + "\n" + b)
  }

  /** A short claim whose title, and not its content, completes the text the rule looks for. */
  predicate TitleAdds(r: MemberRule, n: Note, lower: string -> string) {
    var wanted := lower(TrimField(r.contentContains));
    && FieldsMatch(r, n) && TrimField(r.contentContains) != ""
    && n.noteType == Some("claim") && n.sourceTitle.Some? && |n.content| < CLASSIFY_CHARS
    && !Contains(lower(n.content), wanted) && Contains(lower(PendingText(n)), wanted)
  }

  lemma ContainsMore(hay: string, more: string, needle: string)
    requires hay <= more && Contains(hay, needle)
    ensures Contains(more, needle)
  {
    var i :| 0 <= i <= |hay| && IsAt(hay, i, needle);
    assert more[i..i + |needle|] == hay[i..i + |needle|];
    assert IsAt(more, i, needle);
  }

  /** The text the classifier reads goes on after the content only for a short claim with a
      title, and then with a new line. */
  lemma ReadText(n: Note) returns (more: string)
    ensures if n.noteType == Some("claim") && n.sourceTitle.Some? && |n.content| < CLASSIFY_CHARS then
              Take(n.content, CLASSIFY_CHARS) == n.content && PendingText(n) == n.content + "\n" + more
            else PendingText(n) == Take(n.content, CLASSIFY_CHARS)
  {
    more := "";
    if n.noteType == Some("claim") && n.sourceTitle.Some? && |n.content| < CLASSIFY_CHARS {
      var title := "\n(Source: " + n.sourceTitle.value + ")";
      more := Take(title, CLASSIFY_CHARS - |n.content|)[1..];
      assert Take(title, CLASSIFY_CHARS - |n.content|) == "\n" + more;
      assert PendingText(n) == n.content + Take(title, CLASSIFY_CHARS - |n.content|);
    }
  }

  /** A source's title only ever adds a match: the classifier's reading of a rule is the
      database's, or one that the title adds, but for blank fields. */
  lemma TitleOnlyAdds(r: MemberRule, n: Note, lower: string -> string)
    requires lower("") == "" && KeepsLines(lower)
    ensures RuleMatches(r, n, PendingText(n), lower)
            <==> (QueryMatches(r, n, lower) || TitleAdds(r, n, lower))
                 && BlankAgrees(r.noteType, n.noteType) && BlankAgrees(r.sourceContext, n.sourceContext)
    ensures !(QueryMatches(r, n, lower) && TitleAdds(r, n, lower))
  {
    RulesAgree(r, n, lower);
    var more := ReadText(n);
    var text, wanted := PendingText(n), lower(TrimField(r.contentContains));
    assert Take(text, CLASSIFY_CHARS) == text;
    if text == n.content + "\n" + more && Contains(lower(n.content), wanted) {
      ContainsMore(lower(n.content), lower(text), wanted);
    }
    hide Trim, PendingText, Contains, RuleMatches;
  }

  lemma FieldsAgree(want: Option<string>, have: Option<string>)
    ensures FieldEquals(want, have)
            <==> (TrimField(want) == "" || have == Some(TrimField(want))) && BlankAgrees(want, have)
    ensures want.None? ==> TrimField(want) == ""
  {
    assert TrimField(None) == "" by { assert Trim("") == ""; }
  }

  // ── Where the two differ, and other inputs ──

  /** A rule with a blank note type takes a note for the query and not for the classifier;
      a claim whose title holds the wanted text, the other way round. */
  lemma ReadingsDiffer()
    ensures var same := (t: string) => t;
            var blank := MemberRule(Some(" "), Some("mail"), None);
            var titled := MemberRule(None, None, Some("Z"));
            var n := Note(true, None, Some("mail"), "", None, None, false, 0, map[]);
            var claim := Note(true, Some("claim"), None, "", Some("Z"), None, false, 0, map[]);
            && QueryMatches(blank, n, same) && !RuleMatches(blank, n, PendingText(n), same)
            && !QueryMatches(titled, claim, same) && RuleMatches(titled, claim, PendingText(claim), same)
  {
    var same := (t: string) => t;
    assert Trim(" ") == "" by {
      assert TrimStart(" ") == TrimStart("");
    }
    assert TrimStart("mail") == "mail" && TrimEnd("mail") == "mail";
    assert TrimStart("Z") == "Z" && TrimEnd("Z") == "Z" && TrimStart("") == "" && TrimEnd("") == "";
    var claim := Note(true, Some("claim"), None, "", Some("Z"), None, false, 0, map[]);
    var text := "\n(Source: Z)";
    assert PendingText(claim) == text;
    assert text[10..11] == "Z";
    assert IsAt(text, 10, "Z");
    assert forall i | 0 <= i <= 0 :: !IsAt("", i, "Z");
  }

  /** A brain whose one declared topic was deleted, with a note locked under an old version. */
  function RetiredExample(): (State, Env) {
    var news := TopicDef("news", "", "n", [], Classifier, [], None, [], None);
    var n := Note(true, None, None, "", None, Some(NoVersion), true, 0, map[]);
    (State(map[], {"news"}, map["n" := n], TopicsOf([news], [], [])), Env([news], [], {}, t => t))
  }

  /** The next startup leaves it behind. */
  lemma StartupCanLeaveALockBehind()
    ensures var (s, env) := RetiredExample();
            Inv(s) && Offered(SyncedTopics(s, env), env.loaded) == map[] && !LockedOk(Startup(s, env))
  {
    hide HashFrom, Tidy;
    var (s, env) := RetiredExample();
    var news := TopicDef("news", "", "n", [], Classifier, [], None, [], None);
    assert env.Declared().Keys == {"news"} by {
      assert env.seeds[1..] == [];
    }
    assert SyncedTopics(s, env) == map[];
    StartupKeepsLocks(s, env);
    assert SeedVersion(env) != NoVersion;
    assert s.notes["n"].locked;
  }

  /** A topic whose aliases were edited keeps them over a reset. */
  lemma ResetCanKeepAliases()
    ensures var news := TopicDef("news", "", "n", [], Classifier, [], None, [], None);
            var s := State(map["news" := Topic(news.(aliases := ["press"]), true)], {}, map[],
              TopicsOf([news], [], []));
            var env := Env([news], [], {}, t => t);
            && "news" in Reset(s, env, "news").topics
            && Reset(s, env, "news").topics["news"].def.aliases == ["press"]
            && env.Declared()["news"].aliases == []
  {
    hide CurrentOf, RefreshAll, TopicsOf;
    var news := TopicDef("news", "", "n", [], Classifier, [], None, [], None);
    var env := Env([news], [], {}, t => t);
    var none: seq<TopicDef> := [];
    assert env.seeds[1..] == none && ByKey(none) == map[];
    assert env.Declared() == map["news" := news];
  }
}
