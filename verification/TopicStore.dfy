/** Topics and the notes in them as a state machine: sync, reload, save, delete, reset,
    hand-set topics, unlocking and classifying (crates/graph/src/topics.rs), and the
    coverage counts shown for them (crates/api/src/topics.rs). Each operation is one step. */
module TopicStore {
  import opened Wrappers
  import opened Collections
  import opened Ordering
  import opened Text
  import opened TopicVersion
  import opened TopicVersionFacts

  type NoteId = string

  const CLASSIFY_CHARS: nat := 1500
  const MAX_TOPICS_PER_NOTE: nat := 2
  const MAX_FAILURES: int := 3

  datatype Method = Llm | Rule | Manual

  datatype InTopic = InTopic(rank: nat, how: Method)

  /** A note: `top` unless it is a chunk of another, `edges` are its `IN_TOPIC` edges. */
  datatype Note = Note(
    top: bool, noteType: Option<string>, sourceContext: Option<string>, content: string,
    sourceTitle: Option<string>, version: Option<Version>, locked: bool, failed: int,
    edges: map<string, InTopic>)

  /** A topic node; `runtime` when it was edited by hand, otherwise the YAML owns it. */
  datatype Topic = Topic(def: TopicDef, runtime: bool)

  datatype State = State(
    topics: map<string, Topic>, retired: set<string>, notes: map<NoteId, Note>, current: Topics)

  /** What the process runs with: the declared topics and scope, the loaded plugins, and
      lower-casing. */
  datatype Env = Env(seeds: seq<TopicDef>, skip: seq<SkipRule>, loaded: set<string>, lower: string -> string) {
    function Declared(): map<string, TopicDef> {
      ByKey(seeds)
    }
  }

  /** Definitions by name; the first with a name counts. */
  function ByKey(defs: seq<TopicDef>): map<string, TopicDef> {
    if defs == [] then map[] else ByKey(defs[1..])[defs[0].name := defs[0]]
  }

  // ── Rules ──

  function TrimField(f: Option<string>): string {
    Trim(Field(f))
  }

  function Take(s: string, n: nat): string {
    if |s| <= n then s else s[..n]
  }

  predicate EmptyRule(r: MemberRule) {
    TrimField(r.noteType) == "" && TrimField(r.sourceContext) == "" && TrimField(r.contentContains) == ""
  }

  /** What the classifier reads of a note: a claim comes with its source's title. */
  function PendingText(n: Note): string {
    Take(n.content + if n.noteType == Some("claim") && n.sourceTitle.Some?
                     then "\n(Source: " + n.sourceTitle.value + ")" else "",
         CLASSIFY_CHARS)
  }

  /** `MemberRule::matches`: a given field must equal the note's, blank or not. */
  predicate FieldEquals(want: Option<string>, have: Option<string>) {
    want.None? || have == Some(Trim(want.value))
  }

  predicate RuleMatches(r: MemberRule, n: Note, text: string, lower: string -> string) {
    && !EmptyRule(r)
    && FieldEquals(r.noteType, n.noteType)
    && FieldEquals(r.sourceContext, n.sourceContext)
    && (r.contentContains.None? || Contains(lower(text), lower(Trim(r.contentContains.value))))
  }

  /** The same rule as `reload` runs it in the database: a blank field matches anything. */
  predicate QueryMatches(r: MemberRule, n: Note, lower: string -> string) {
    && !EmptyRule(r)
    && (TrimField(r.noteType) == "" || n.noteType == Some(TrimField(r.noteType)))
    && (TrimField(r.sourceContext) == "" || n.sourceContext == Some(TrimField(r.sourceContext)))
    && (TrimField(r.contentContains) == ""
        || Contains(lower(Take(n.content, CLASSIFY_CHARS)), lower(TrimField(r.contentContains))))
  }

  /** The scope skips the note: some rule has every field empty or equal to the note's. */
  predicate Skipped(n: Note, skip: seq<SkipRule>) {
    exists r | r in skip ::
      (Field(r.noteType) == "" || Field(n.noteType) == Field(r.noteType))
      && (Field(r.sourceContext) == "" || Field(n.sourceContext) == Field(r.sourceContext))
  }

  // ── The topics the classifier is offered ──

  /** A definition as stored: texts trimmed, empty aliases dropped. */
  function Stored(d: TopicDef): TopicDef {
    d.(caption := Trim(d.caption), description := Trim(d.description),
       reference := if d.reference.Some? then Some(Trim(d.reference.value)) else None,
       aliases := TrimmedAliases(d.aliases))
  }

  function TrimmedAliases(aliases: seq<string>): seq<string> {
    if aliases == [] then []
    else (if Trim(aliases[0]) == "" then [] else [Trim(aliases[0])]) + TrimmedAliases(aliases[1..])
  }

  function NonEmpty(o: Option<string>): Option<string> {
    if o == Some("") then None else o
  }

  function ReadDef(d: TopicDef): TopicDef {
    d.(reference := NonEmpty(d.reference), plugin := NonEmpty(d.plugin))
  }

  predicate IsDormant(t: Topic, loaded: set<string>) {
    NonEmpty(t.def.plugin).Some? && t.def.plugin.value !in loaded
  }

  function Offered(topics: map<string, Topic>, loaded: set<string>): map<string, TopicDef> {
    map x | x in topics && Trim(topics[x].def.description) != ""
      && !IsDormant(topics[x], loaded) :: ReadDef(topics[x].def)
  }

  function Dormant(topics: map<string, Topic>, loaded: set<string>): map<string, TopicDef> {
    map x | x in topics && Trim(topics[x].def.description) != ""
      && IsDormant(topics[x], loaded) :: ReadDef(topics[x].def)
  }

  /** The values of a map, in some order. */
  ghost function ListOf(m: map<string, TopicDef>): seq<TopicDef> {
    if m == map[] then []
    else
      var x :| x in m;
      [m[x]] + ListOf(m - {x})
  }

  ghost function CurrentOf(topics: map<string, Topic>, skip: seq<SkipRule>, loaded: set<string>): Topics {
    TopicsOf(ListOf(Offered(topics, loaded)), skip, ListOf(Dormant(topics, loaded)))
  }

  predicate Known(current: Topics, name: string) {
    exists d | d in current.defs :: d.name == name
  }

  // ── Reload ──

  /** A rules topic holds no classifier edges. */
  function WithoutLlm(n: Note, topics: map<string, Topic>): Note {
    n.(edges := map t | t in n.edges
                        && !(n.edges[t].how == Llm && t in topics && topics[t].def.assign == Rules) :: n.edges[t])
  }

  predicate RulePicksInQuery(d: TopicDef, n: Note, lower: string -> string) {
    d.assign == Rules && exists r | r in d.members :: QueryMatches(r, n, lower)
  }

  function RuleEdges(n: Note, current: Topics, lower: string -> string): map<string, InTopic> {
    map d | d in current.defs && RulePicksInQuery(d, n, lower) :: d.name := InTopic(1, Rule)
  }

  function WithRules(n: Note, current: Topics, lower: string -> string): Note {
    if !n.top || n.locked || Skipped(n, current.skip) then n
    else n.(edges := RuleEdges(n, current, lower) + n.edges)
  }

  function Stamped(n: Note, version: Version): Note {
    if n.locked then n.(version := Some(version)) else n
  }

  function Refresh(n: Note, topics: map<string, Topic>, current: Topics, lower: string -> string): Note {
    Stamped(WithRules(WithoutLlm(n, topics), current, lower), current.version)
  }

  function RefreshAll(notes: map<NoteId, Note>, topics: map<string, Topic>, current: Topics, lower: string -> string)
    : map<NoteId, Note>
  {
    map i | i in notes :: Refresh(notes[i], topics, current, lower)
  }

  /** `reload`: with no topic to offer it changes nothing. */
  ghost function Reload(s: State, env: Env): State {
    if Offered(s.topics, env.loaded) == map[] then s
    else
      var current := CurrentOf(s.topics, env.skip, env.loaded);
      s.(current := current, notes := RefreshAll(s.notes, s.topics, current, env.lower))
  }

  // ── Sync ──

  /** Each declared topic that is not retired is written, unless it was edited by hand. */
  function Seeded(topics: map<string, Topic>, retired: set<string>, seeds: map<string, TopicDef>): map<string, Topic> {
    map x | x in topics.Keys + (seeds.Keys - retired) ::
      if x in topics && (topics[x].runtime || x in retired || x !in seeds) then topics[x]
      else Topic(Stored(seeds[x]), false)
  }

  /** A YAML-owned topic no longer declared, whose plugin (if any) is loaded. */
  predicate Undeclared(x: string, t: Topic, env: Env) {
    x !in env.Declared() && !t.runtime && !IsDormant(t, env.loaded)
  }

  function StillDeclared(topics: map<string, Topic>, env: Env): map<string, Topic> {
    map x | x in topics && !Undeclared(x, topics[x], env) :: topics[x]
  }

  /** A node goes with its edges. */
  function OnlyTopics(n: Note, topics: map<string, Topic>): Note {
    n.(edges := map t | t in n.edges && t in topics :: n.edges[t])
  }

  function InScope(n: Note, skip: seq<SkipRule>): Note {
    if Skipped(n, skip) then n.(edges := map[]) else n
  }

  function SyncedTopics(s: State, env: Env): map<string, Topic> {
    StillDeclared(Seeded(s.topics, s.retired, env.Declared()), env)
  }

  /** Edges of removed topics go, and all edges of a note the scope now skips. */
  function SyncedNotes(s: State, env: Env): map<NoteId, Note> {
    map i | i in s.notes :: InScope(OnlyTopics(s.notes[i], SyncedTopics(s, env)), env.skip)
  }

  ghost function Sync(s: State, env: Env): State {
    Reload(s.(topics := SyncedTopics(s, env), notes := SyncedNotes(s, env)), env)
  }

  /** A new process: the topics are the YAML ones until the sync. */
  ghost function Startup(s: State, env: Env): State {
    Sync(s.(current := TopicsOf(env.seeds, env.skip, [])), env)
  }

  // ── Save, delete, reset ──

  /** The checks that matter here; `otherwiseFine` stands for the rest (name syntax,
      lengths, URL, alias clashes, prompt budget). */
  predicate SaveAllowed(s: State, def: TopicDef, create: bool, otherwiseFine: bool) {
    && otherwiseFine
    && create == !Known(s.current, def.name)
    && Trim(def.description) != ""
    && (forall r | r in def.members :: !EmptyRule(r))
    && (def.assign == Classifier ==> def.members == [])
  }

  function SavedTopic(s: State, def: TopicDef): Topic {
    Topic(Stored(def).(plugin := if def.name in s.topics then s.topics[def.name].def.plugin else None), true)
  }

  ghost function Save(s: State, env: Env, def: TopicDef, create: bool, otherwiseFine: bool): State {
    if !SaveAllowed(s, def, create, otherwiseFine) then s
    else Reload(s.(retired := s.retired - {def.name}, topics := s.topics[def.name := SavedTopic(s, def)]), env)
  }

  /** The notes of a deleted topic wait to be classified again, even locked ones. */
  function Evicted(n: Note, name: string): Note {
    if name in n.edges then n.(version := None, locked := false, edges := n.edges - {name}) else n
  }

  predicate DeleteAllowed(s: State, name: string, scheduled: bool) {
    Known(s.current, name) && !scheduled
  }

  function EvictedNotes(s: State, name: string): map<NoteId, Note> {
    if name in s.topics then map i | i in s.notes :: Evicted(s.notes[i], name) else s.notes
  }

  ghost function Delete(s: State, env: Env, name: string, scheduled: bool): State {
    if !DeleteAllowed(s, name, scheduled) then s
    else
      Reload(s.(topics := s.topics - {name}, notes := EvictedNotes(s, name),
                retired := s.retired + if name in env.Declared() then {name} else {}), env)
  }

  /** The YAML definition, except the aliases, which `reset` does not write. */
  function ResetTopic(s: State, seed: TopicDef): Topic {
    Topic(Stored(seed).(aliases := if seed.name in s.topics then s.topics[seed.name].def.aliases else []), false)
  }

  ghost function Reset(s: State, env: Env, name: string): State {
    if name !in env.Declared() then s
    else
      Reload(s.(retired := s.retired - {name}, topics := s.topics[name := ResetTopic(s, env.Declared()[name])]), env)
  }

  // ── Notes ──

  /** `check_note_topics`: known names, trimmed, without repeats; `None` if one is unknown. */
  function Picked(names: seq<string>, current: Topics): Option<seq<string>> {
    if names == [] then Some([])
    else match Picked(names[..|names| - 1], current)
      case None => None
      case Some(out) =>
        var n := Trim(names[|names| - 1]);
        if !Known(current, n) then None else if n in out then Some(out) else Some(out + [n])
  }

  /** Edges to the named topics that exist, ranked from 1; a later repeat overwrites. */
  function Ranked(names: seq<string>, topics: map<string, Topic>, how: string -> Method): map<string, InTopic> {
    if names == [] then map[]
    else
      var before, t := Ranked(names[..|names| - 1], topics, how), names[|names| - 1];
      if t in topics then before[t := InTopic(|names|, how(t))] else before
  }

  function ByHand(): string -> Method {
    t => Manual
  }

  function ByRules(rules: seq<string>): string -> Method {
    t => if t in rules then Rule else Llm
  }

  predicate SetAllowed(s: State, id: NoteId, names: seq<string>) {
    && Picked(names, s.current).Some? && |Picked(names, s.current).value| <= MAX_TOPICS_PER_NOTE
    && id in s.notes && s.notes[id].top
  }

  function SetNoteTopics(s: State, id: NoteId, names: seq<string>): State {
    if !SetAllowed(s, id, names) then s
    else
      var edges := Ranked(Picked(names, s.current).value, s.topics, ByHand());
      var version := Some(s.current.version);
      s.(notes := s.notes[id := s.notes[id].(locked := true, version := version, failed := 0, edges := edges)])
  }

  function Unlock(s: State, id: NoteId): State {
    if id !in s.notes then s
    else s.(notes := s.notes[id := s.notes[id].(locked := false, version := None)])
  }

  /** `coalesce(version, '')` against the current version. */
  predicate Outdated(n: Note, current: Topics) {
    n.version.GetOr(NoVersion) != current.version
  }

  /** What `pending_batch` selects when it has no limit. */
  predicate IsPending(n: Note, current: Topics) {
    Outdated(n, current) && n.failed < MAX_FAILURES && n.top && !n.locked && !Skipped(n, current.skip)
  }

  function Pending(s: State): set<NoteId> {
    set i | i in s.notes && IsPending(s.notes[i], s.current)
  }

  /** The rules topics of a note, in name order. */
  function RuleTopics(defs: seq<TopicDef>, n: Note, lower: string -> string): seq<string> {
    if defs == [] then []
    else
      (if defs[0].assign == Rules && exists r | r in defs[0].members :: RuleMatches(r, n, PendingText(n), lower)
       then [defs[0].name] else [])
      + RuleTopics(defs[1..], n, lower)
  }

  /** The model's answer: known classifier topics, in its order, without repeats. */
  function Answered(answer: seq<string>, current: Topics, lower: string -> string): seq<string> {
    if answer == [] then []
    else
      var out := Answered(answer[..|answer| - 1], current, lower);
      var t := lower(Trim(answer[|answer| - 1]));
      if t !in out && exists d | d in current.defs :: d.assign == Classifier && d.name == t then out + [t] else out
  }

  function Merged(rules: seq<string>, classified: seq<string>): seq<string> {
    if classified == [] then rules
    else
      var out := Merged(rules, classified[..|classified| - 1]);
      var t := classified[|classified| - 1];
      if t in out then out else out + [t]
  }

  function Truncated(names: seq<string>): seq<string> {
    if |names| <= MAX_TOPICS_PER_NOTE then names else names[..MAX_TOPICS_PER_NOTE]
  }

  function Classified(s: State, env: Env, n: Note, answer: seq<string>): Note {
    var rules := RuleTopics(s.current.defs, n, env.lower);
    var picked := Truncated(Merged(rules, Truncated(Answered(answer, s.current, env.lower))));
    var kept := map t | t in n.edges && t in s.topics && IsDormant(s.topics[t], env.loaded) :: n.edges[t];
    n.(version := Some(s.current.version), failed := 0,
       edges := kept + Ranked(picked, s.topics, ByRules(rules)))
  }

  /** Pick a pending note and classify it: an answer, or a failure. */
  function Classify(s: State, env: Env, id: NoteId, answer: Option<seq<string>>): State {
    if id !in Pending(s) then s
    else
      var n := s.notes[id];
      s.(notes := s.notes[id := match answer
           case Some(a) => Classified(s, env, n, a)
           case None => n.(failed := n.failed + 1)])
  }

  function AddNote(s: State, id: NoteId, n: Note): State {
    if id in s.notes then s
    else s.(notes := s.notes[id := n.(version := None, locked := false, failed := 0, edges := map[])])
  }

  // ── The store as the program changes it ──

  ghost predicate NamesOk(topics: map<string, Topic>) {
    forall x | x in topics :: topics[x].def.name == x
  }

  ghost predicate KeyedByName(m: map<string, TopicDef>) {
    forall x | x in m :: m[x].name == x
  }

  lemma {:induction false} ListIs(m: map<string, TopicDef>)
    requires KeyedByName(m)
    ensures forall d :: d in ListOf(m) <==> d.name in m && m[d.name] == d
    ensures UniqueDefs(ListOf(m))
    decreases m
  {
    if m != map[] {
      var x :| x in m && ListOf(m) == [m[x]] + ListOf(m - {x});
      ListIs(m - {x});
      var rest := ListOf(m - {x});
      assert forall i | 0 <= i < |rest| :: rest[i] in rest;
    }
  }

  lemma UniqueIsNoDup(defs: seq<TopicDef>)
    requires UniqueDefs(defs)
    ensures NoDup(defs)
  {
  }

  /** Two listings of one map hold the same definitions. */
  lemma SameListing(m: map<string, TopicDef>, list: seq<TopicDef>)
    requires KeyedByName(m) && UniqueDefs(list)
    requires forall d :: d in list <==> d.name in m && m[d.name] == d
    ensures multiset(list) == multiset(ListOf(m))
  {
    ListIs(m);
    UniqueIsNoDup(list);
    UniqueIsNoDup(ListOf(m));
    SameElements(list, ListOf(m));
  }

  /** What is offered does not depend on the order in which the database lists topics. */
  lemma ListingDoesNotMatter(offered: map<string, TopicDef>, dormant: map<string, TopicDef>, skip: seq<SkipRule>,
                             list: seq<TopicDef>, list': seq<TopicDef>)
    requires KeyedByName(offered) && KeyedByName(dormant) && offered.Keys !! dormant.Keys
    requires UniqueDefs(list) && UniqueDefs(list')
    requires forall d :: d in list <==> d.name in offered && offered[d.name] == d
    requires forall d :: d in list' <==> d.name in dormant && dormant[d.name] == d
    ensures TopicsOf(list, skip, list') == TopicsOf(ListOf(offered), skip, ListOf(dormant))
  {
    hide ListOf, Tidy;
    SameListing(offered, list);
    SameListing(dormant, list');
    TidyCanonical(list, ListOf(offered));
    if list != [] {
      assert list[0] in multiset(ListOf(offered));
      forall i, j | 0 <= i < |list| && 0 <= j < |list'| ensures list[i].name != list'[j].name {
        assert list[i] in list && list'[j] in list';
      }
      VersionIgnoresOrderAndDormancy(list, list', ListOf(offered), ListOf(dormant), skip);
    } else {
      assert |multiset(list)| == |multiset(ListOf(offered))|;
    }
  }

  lemma OfferedNames(topics: map<string, Topic>, loaded: set<string>)
    requires NamesOk(topics)
    ensures KeyedByName(Offered(topics, loaded)) && KeyedByName(Dormant(topics, loaded))
    ensures Offered(topics, loaded).Keys !! Dormant(topics, loaded).Keys
  {
  }

  class TopicGraph {
    var topics: map<string, Topic>
    var retired: set<string>
    var notes: map<NoteId, Note>
    var current: Topics

    ghost function Now(): State
      reads this
    {
      State(topics, retired, notes, current)
    }

    ghost predicate Valid()
      reads this
    {
      NamesOk(topics)
    }

    constructor (s: State)
      requires NamesOk(s.topics)
      ensures Now() == s && Valid()
    {
      topics, retired, notes, current := s.topics, s.retired, s.notes, s.current;
    }

    /** The rows of a query, in whatever order the database gives them. */
    method List(m: map<string, TopicDef>) returns (list: seq<TopicDef>)
      requires KeyedByName(m)
      ensures UniqueDefs(list) && forall d :: d in list <==> d.name in m && m[d.name] == d
    {
      list := [];
      var todo := m.Keys;
      while todo != {}
        invariant todo <= m.Keys && UniqueDefs(list)
        invariant forall d :: d in list <==> d.name in m && d.name !in todo && m[d.name] == d
        decreases todo
      {
        var x :| x in todo;
        assert forall i | 0 <= i < |list| :: list[i] in list;
        list := list + [m[x]];
        todo := todo - {x};
      }
    }

    method ReloadTopics(env: Env)
      requires Valid()
      modifies this
      ensures Valid() && Now() == Reload(old(Now()), env)
    {
      hide WithoutLlm, WithRules, Stamped, ListOf, TopicsOf, Offered, Dormant;
      OfferedNames(topics, env.loaded);
      var offered, dormant := Offered(topics, env.loaded), Dormant(topics, env.loaded);
      if offered == map[] {
        return;
      }
      var defs := List(offered);
      var sleeping := List(dormant);
      current := WithDormant(defs, env.skip, sleeping);
      ListingDoesNotMatter(offered, dormant, env.skip, defs, sleeping);
      notes := map i | i in notes :: WithoutLlm(notes[i], topics);
      notes := map i | i in notes :: WithRules(notes[i], current, env.lower);
      notes := map i | i in notes :: Stamped(notes[i], current.version);
      assert notes == RefreshAll(old(notes), topics, current, env.lower);
    }

    method SyncTopics(env: Env)
      requires Valid()
      modifies this
      ensures Valid() && Now() == Sync(old(Now()), env)
    {
      DeclaredNames(env.seeds);
      topics := Seeded(topics, retired, env.Declared());
      topics := StillDeclared(topics, env);
      notes := map i | i in notes :: OnlyTopics(notes[i], topics);
      notes := map i | i in notes :: InScope(notes[i], env.skip);
      assert notes == SyncedNotes(old(Now()), env);
      ReloadTopics(env);
    }

    method SaveTopic(env: Env, def: TopicDef, create: bool, otherwiseFine: bool) returns (saved: bool)
      requires Valid()
      modifies this
      ensures Valid() && Now() == Save(old(Now()), env, def, create, otherwiseFine)
      ensures saved == SaveAllowed(old(Now()), def, create, otherwiseFine)
    {
      saved := SaveAllowed(State(topics, retired, notes, current), def, create, otherwiseFine);
      if saved {
        retired := retired - {def.name};
        var plugin := if def.name in topics then topics[def.name].def.plugin else None;
        topics := topics[def.name := Topic(Stored(def).(plugin := plugin), true)];
        ReloadTopics(env);
      }
    }

    method DeleteTopic(env: Env, name: string, scheduled: bool) returns (deleted: bool)
      requires Valid()
      modifies this
      ensures Valid() && Now() == Delete(old(Now()), env, name, scheduled)
      ensures deleted == DeleteAllowed(old(Now()), name, scheduled)
    {
      deleted := Known(current, name) && !scheduled;
      if deleted {
        if name in topics {
          notes := map i | i in notes :: Evicted(notes[i], name);
          topics := topics - {name};
        }
        assert topics == old(topics) - {name};
        if name in env.Declared() {
          retired := retired + {name};
        }
        ReloadTopics(env);
      }
    }

    method ResetToSeed(env: Env, name: string) returns (declared: bool)
      requires Valid()
      modifies this
      ensures Valid() && Now() == Reset(old(Now()), env, name)
      ensures declared == (name in env.Declared())
    {
      declared := name in env.Declared();
      if declared {
        DeclaredNames(env.seeds);
        retired := retired - {name};
        var seed := env.Declared()[name];
        var aliases := if name in topics then topics[name].def.aliases else [];
        topics := topics[name := Topic(Stored(seed).(aliases := aliases), false)];
        ReloadTopics(env);
      }
    }

    /** Names in order, each kept once; refused at the first unknown one. */
    method CheckNames(names: seq<string>) returns (picked: Option<seq<string>>)
      ensures picked == Picked(names, current)
    {
      var out: seq<string> := [];
      for i := 0 to |names|
        invariant Picked(names[..i], current) == Some(out)
      {
        assert names[..i + 1][..i] == names[..i];
        var n := Trim(names[i]);
        if !Known(current, n) {
          PickedNone(names, current, i + 1);
          return None;
        }
        if n !in out {
          out := out + [n];
        }
      }
      assert names[..|names|] == names;
      picked := Some(out);
    }

    method SetByHand(id: NoteId, names: seq<string>) returns (done: bool)
      requires Valid()
      modifies this`notes
      ensures Valid() && Now() == SetNoteTopics(old(Now()), id, names)
      ensures done == SetAllowed(old(Now()), id, names)
    {
      var picked := CheckNames(names);
      if picked.None? || |picked.value| > MAX_TOPICS_PER_NOTE || id !in notes || !notes[id].top {
        return false;
      }
      var n := notes[id].(locked := true, version := Some(current.version), failed := 0, edges := map[]);
      var edges := RankTopics(picked.value, topics, ByHand());
      notes := notes[id := n.(edges := edges)];
      done := true;
    }

    method UnlockNote(id: NoteId) returns (found: bool)
      requires Valid()
      modifies this`notes
      ensures Valid() && Now() == Unlock(old(Now()), id)
      ensures found == (id in old(notes))
    {
      found := id in notes;
      if found {
        notes := notes[id := notes[id].(locked := false, version := None)];
      }
    }

    /** One turn of the assigner: any pending note, and the model's answer or its failure. */
    method ClassifyOne(env: Env, id: NoteId, answer: Option<seq<string>>) returns (turn: bool)
      requires Valid()
      modifies this`notes
      ensures Valid() && Now() == Classify(old(Now()), env, id, answer)
      ensures turn == (id in Pending(old(Now())))
    {
      turn := id in notes && IsPending(notes[id], current);
      if turn {
        var n := notes[id];
        match answer {
          case Some(a) =>
            var rules := RuleTopicsOf(current.defs, n, env.lower);
            var classified := ParseAnswer(a, current, env.lower);
            var picked := AddClassified(rules, classified);
            if |picked| > MAX_TOPICS_PER_NOTE {
              picked := picked[..MAX_TOPICS_PER_NOTE];
            }
            var kept := map t | t in n.edges && t in topics && IsDormant(topics[t], env.loaded) :: n.edges[t];
            var edges := RankTopics(picked, topics, ByRules(rules));
            notes := notes[id := n.(version := Some(current.version), failed := 0, edges := kept + edges)];
          case None =>
            notes := notes[id := n.(failed := n.failed + 1)];
        }
      }
    }
  }

  /** `rule_topics`: the rules topics with a rule the note matches, in name order. */
  method RuleTopicsOf(defs: seq<TopicDef>, n: Note, lower: string -> string) returns (names: seq<string>)
    ensures names == RuleTopics(defs, n, lower)
  {
    hide RuleMatches, PendingText;
    names := [];
    assert defs[0..] == defs;
    for i := 0 to |defs|
      invariant names + RuleTopics(defs[i..], n, lower) == RuleTopics(defs, n, lower)
    {
      var d := defs[i];
      assert defs[i..][0] == d && defs[i..][1..] == defs[i + 1..];
      var matches := false;
      for j := 0 to |d.members|
        invariant matches <==> exists r | r in d.members[..j] :: RuleMatches(r, n, PendingText(n), lower)
      {
        assert d.members[..j + 1] == d.members[..j] + [d.members[j]];
        if RuleMatches(d.members[j], n, PendingText(n), lower) {
          matches := true;
        }
      }
      assert d.members[..|d.members|] == d.members;
      if d.assign == Rules && matches {
        Assoc(names, [d.name], RuleTopics(defs[i + 1..], n, lower));
        names := names + [d.name];
      } else {
        assert [] + RuleTopics(defs[i + 1..], n, lower) == RuleTopics(defs[i + 1..], n, lower);
      }
    }
  }

  /** `parse`: known names from the answer, in its order, without repeats, at most two. */
  method ParseAnswer(answer: seq<string>, current: Topics, lower: string -> string) returns (out: seq<string>)
    ensures out == Truncated(Answered(answer, current, lower))
  {
    var known := set d | d in current.defs && d.assign == Classifier :: d.name;
    out := [];
    for i := 0 to |answer|
      invariant out == Answered(answer[..i], current, lower)
    {
      assert answer[..i + 1][..i] == answer[..i];
      var t := lower(Trim(answer[i]));
      if t in known && t !in out {
        out := out + [t];
      }
    }
    assert answer[..|answer|] == answer;
    if |out| > MAX_TOPICS_PER_NOTE {
      out := out[..MAX_TOPICS_PER_NOTE];
    }
  }

  /** The classifier's topics after the rules', each once. */
  method AddClassified(rules: seq<string>, classified: seq<string>) returns (picked: seq<string>)
    ensures picked == Merged(rules, classified)
  {
    picked := rules;
    for i := 0 to |classified|
      invariant picked == Merged(rules, classified[..i])
    {
      assert classified[..i + 1][..i] == classified[..i];
      if classified[i] !in picked {
        picked := picked + [classified[i]];
      }
    }
    assert classified[..|classified|] == classified;
  }

  method RankTopics(names: seq<string>, topics: map<string, Topic>, how: string -> Method)
    returns (edges: map<string, InTopic>)
    ensures edges == Ranked(names, topics, how)
  {
    edges := map[];
    for i := 0 to |names|
      invariant edges == Ranked(names[..i], topics, how)
    {
      assert names[..i + 1][..i] == names[..i];
      if names[i] in topics {
        edges := edges[names[i] := InTopic(i + 1, how(names[i]))];
      }
    }
    assert names[..|names|] == names;
  }

  lemma {:induction false} PickedNone(names: seq<string>, current: Topics, i: nat)
    requires i <= |names| && Picked(names[..i], current).None?
    ensures Picked(names, current).None?
    decreases |names|
  {
    if i < |names| {
      assert names[..|names| - 1][..i] == names[..i];
      PickedNone(names[..|names| - 1], current, i);
    } else {
      assert names[..i] == names;
    }
  }

  lemma {:induction false} DeclaredNames(seeds: seq<TopicDef>)
    ensures KeyedByName(ByKey(seeds))
    ensures forall x :: x in ByKey(seeds) <==> exists d :: d in seeds && d.name == x
  {
    if seeds != [] {
      DeclaredNames(seeds[1..]);
      assert seeds == [seeds[0]] + seeds[1..];
    }
  }
}
