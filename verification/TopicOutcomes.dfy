/** What single topic operations do to a note and to a topic, told in terms of what the user,
    the model or the rules say (crates/graph/src/topics.rs). */
module TopicOutcomes {
  import opened Wrappers
  import opened Ordering
  import opened Text
  import opened TopicVersion
  import opened TopicVersionFacts
  import opened TopicStore
  import opened TopicFacts

  // ── The offered topics ──

  /** By name, each name once. */
  ghost predicate InNameOrder(names: seq<string>) {
    forall i, j | 0 <= i < j < |names| :: Le(names[i], names[j]) && names[i] != names[j]
  }

  function NamesOf(defs: seq<TopicDef>): seq<string> {
    seq(|defs|, i requires 0 <= i < |defs| => defs[i].name)
  }

  /** In the graph with a definition, and its plugin, if it has one, is loaded. */
  predicate IsOffered(topics: map<string, Topic>, x: string, loaded: set<string>) {
    && x in topics && Trim(topics[x].def.description) != ""
    && (topics[x].def.plugin.None? || topics[x].def.plugin.value == "" || topics[x].def.plugin.value in loaded)
  }

  lemma OfferedIs(topics: map<string, Topic>, loaded: set<string>, x: string)
    ensures x in Offered(topics, loaded) <==> IsOffered(topics, x, loaded)
    ensures x in Offered(topics, loaded) ==>
              Offered(topics, loaded)[x].members == topics[x].def.members
              && Offered(topics, loaded)[x].assign == topics[x].def.assign
  {
  }

  /** With a topic to offer, a reload offers exactly those of the graph that can be. */
  lemma ReloadOffers(s: State, env: Env, x: string)
    requires NamesOk(s.topics)
    ensures (exists y :: IsOffered(s.topics, y, env.loaded)) ==>
              && (Known(Reload(s, env).current, x) <==> IsOffered(s.topics, x, env.loaded))
              && (forall d | d in Reload(s, env).current.defs ::
                    d.name in s.topics && d.members == s.topics[d.name].def.members
                    && d.assign == s.topics[d.name].def.assign)
              && Reload(s, env).current.skip == env.skip
    ensures !(exists y :: IsOffered(s.topics, y, env.loaded)) ==> Reload(s, env) == s
  {
    forall y ensures y in Offered(s.topics, env.loaded) <==> IsOffered(s.topics, y, env.loaded) {
      OfferedIs(s.topics, env.loaded, y);
    }
    KnownIs(s.topics, env.skip, env.loaded);
    OfferedNames(s.topics, env.loaded);
    if Offered(s.topics, env.loaded) != map[] {
      var y :| y in Offered(s.topics, env.loaded);
    }
    hide CurrentOf, RefreshAll, IsOffered, Offered;
  }

  // ── What a reload and a sync leave of a note's edges ──

  /** A rule of the offered rules topic picks the note. */
  ghost predicate RulesPick(topics: map<string, Topic>, t: string, n: Note, env: Env) {
    && IsOffered(topics, t, env.loaded) && topics[t].def.assign == Rules
    && exists r :: r in topics[t].def.members && QueryMatches(r, n, env.lower)
  }

  /** The rules may add topics to it. */
  predicate OpenToRules(n: Note, skip: seq<SkipRule>) {
    n.top && !n.locked && !Skipped(n, skip)
  }

  predicate ClassifiersOnRules(n: Note, t: string, topics: map<string, Topic>) {
    t in n.edges && n.edges[t].how == Llm && t in topics && topics[t].def.assign == Rules
  }

  lemma PicksAre(s: State, env: Env, n: Note, t: string)
    requires NamesOk(s.topics) && Offered(s.topics, env.loaded) != map[]
    ensures var rules := RuleEdges(n, Reload(s, env).current, env.lower);
            && (t in rules <==> RulesPick(s.topics, t, n, env))
            && (t in rules ==> rules[t] == InTopic(1, Rule))
  {
    var current := Reload(s, env).current;
    KnownIs(s.topics, env.skip, env.loaded);
    OfferedNames(s.topics, env.loaded);
    OfferedIs(s.topics, env.loaded, t);
    hide CurrentOf, RefreshAll, QueryMatches, IsOffered, Offered;
    if RulesPick(s.topics, t, n, env) {
      var d := Offered(s.topics, env.loaded)[t];
      assert d in current.defs && d.name == t && RulePicksInQuery(d, n, env.lower);
    }
    if d :| d in current.defs && RulePicksInQuery(d, n, env.lower) && d.name == t {
      var y :| y in Offered(s.topics, env.loaded) && Offered(s.topics, env.loaded)[y] == d;
      assert y == t;
    }
  }

  /** After a reload a note has the edges it had, but for the classifier's on rules topics;
      and, if it is open to the rules, one of rank 1 to each offered rules topic that picks it. */
  lemma ReloadEdges(s: State, env: Env, i: NoteId, t: string)
    requires NamesOk(s.topics) && i in s.notes && exists y :: IsOffered(s.topics, y, env.loaded)
    ensures var n, n' := s.notes[i], Reload(s, env).notes[i];
            var kept := t in n.edges && !ClassifiersOnRules(n, t, s.topics);
            && n' == n.(edges := n'.edges,
                        version := if n.locked then Some(Reload(s, env).current.version) else n.version)
            && (t in n'.edges <==> kept || (OpenToRules(n, env.skip) && RulesPick(s.topics, t, n, env)))
            && (t in n'.edges ==> n'.edges[t] == if kept then n.edges[t] else InTopic(1, Rule))
  {
    var y :| IsOffered(s.topics, y, env.loaded);
    OfferedIs(s.topics, env.loaded, y);
    KnownIs(s.topics, env.skip, env.loaded);
    PicksAre(s, env, s.notes[i], t);
    RefreshEdges(s.notes[i], s.topics, Reload(s, env).current, env.lower, t);
    hide CurrentOf, IsOffered, Offered, RuleEdges, Refresh, RulesPick, OpenToRules, ClassifiersOnRules;
  }

  lemma RefreshEdges(n: Note, topics: map<string, Topic>, current: Topics, lower: string -> string, t: string)
    ensures var n', rules := Refresh(n, topics, current, lower), RuleEdges(n, current, lower);
            var kept := t in n.edges && !ClassifiersOnRules(n, t, topics);
            && n' == n.(edges := n'.edges, version := if n.locked then Some(current.version) else n.version)
            && (t in n'.edges <==> kept || (OpenToRules(n, current.skip) && t in rules))
            && (t in n'.edges ==> n'.edges[t] == if kept then n.edges[t] else rules[t])
  {
    var n1 := WithoutLlm(n, topics);
    SameForRules(n, n1, current, lower);
    hide RuleEdges, Skipped;
  }

  lemma SamePicks(topics: map<string, Topic>, t: string, n: Note, n': Note, env: Env)
    requires n' == n.(edges := n'.edges)
    ensures RulesPick(topics, t, n', env) == RulesPick(topics, t, n, env)
  {
    hide IsOffered;
    assert forall r :: QueryMatches(r, n', env.lower) == QueryMatches(r, n, env.lower);
  }

  lemma SyncTopicsAre(s: State, env: Env)
    ensures Sync(s, env).topics == SyncedTopics(s, env)
  {
    hide SyncedTopics, SyncedNotes, RefreshAll, CurrentOf, Offered;
  }

  /** After a sync that leaves a topic to offer, a note in scope has its edges to topics still
      there, but for the classifier's on rules topics, and those the rules pick for it; a note
      out of scope has none. */
  lemma SyncEdges(s: State, env: Env, i: NoteId, t: string)
    requires NamesOk(s.topics) && i in s.notes && exists y :: IsOffered(Sync(s, env).topics, y, env.loaded)
    ensures var topics, n, n' := Sync(s, env).topics, s.notes[i], Sync(s, env).notes[i];
            var kept := t in n.edges && t in topics && !ClassifiersOnRules(n, t, topics);
            && n' == n.(edges := n'.edges,
                        version := if n.locked then Some(Sync(s, env).current.version) else n.version)
            && (t in n'.edges <==>
                  !Skipped(n, env.skip) && (kept || (OpenToRules(n, env.skip) && RulesPick(topics, t, n, env))))
            && (t in n'.edges ==> n'.edges[t] == if kept then n.edges[t] else InTopic(1, Rule))
  {
    var topics := SyncedTopics(s, env);
    var began := s.(topics := topics, notes := SyncedNotes(s, env));
    SyncedNames(s, env);
    SyncTopicsAre(s, env);
    ReloadEdges(began, env, i, t);
    var n, n1 := s.notes[i], began.notes[i];
    SameForRules(n, OnlyTopics(n, topics), s.current.(skip := env.skip), env.lower);
    SamePicks(topics, t, n, n1, env);
    assert n1 == n.(edges := n1.edges);
    SkipsAlike(n, n1);
    hide Reload, IsOffered, Skipped, RulesPick, SyncedTopics;
  }

  // ── Names said one after another ──

  /** What is said is said once, in the order of its first mention. */
  ghost predicate SaidOnce(said: seq<string>, kept: seq<string>) {
    forall i, j | 0 <= i < j < |kept| :: kept[i] != kept[j] && SaidBefore(said, kept[i], kept[j])
  }

  /** `a` is said before the first mention of `b`. */
  ghost predicate SaidBefore(said: seq<string>, a: string, b: string) {
    exists i :: 0 <= i < |said| && said[i] == a && b !in said[..i]
  }

  lemma SaidSkip(said: seq<string>, kept: seq<string>, x: string)
    requires SaidOnce(said, kept)
    ensures SaidOnce(said + [x], kept)
  {
    forall a, b | SaidBefore(said, a, b) ensures SaidBefore(said + [x], a, b) {
      var i :| 0 <= i < |said| && said[i] == a && b !in said[..i];
      assert (said + [x])[i] == a && (said + [x])[..i] == said[..i];
    }
  }

  lemma SaidNew(said: seq<string>, kept: seq<string>, x: string)
    requires SaidOnce(said, kept) && (forall t | t in kept :: t in said) && x !in said
    ensures SaidOnce(said + [x], kept + [x])
  {
    SaidSkip(said, kept, x);
    forall a | a in kept ensures SaidBefore(said + [x], a, x) {
      var i :| 0 <= i < |said| && said[i] == a;
      assert (said + [x])[i] == a && (said + [x])[..i] == said[..i];
    }
    hide SaidBefore;
  }

  // ── Topics set by hand ──

  function Trimmed(names: seq<string>): seq<string> {
    seq(|names|, i requires 0 <= i < |names| => Trim(names[i]))
  }

  lemma {:induction false} PickedIs(names: seq<string>, current: Topics)
    ensures Picked(names, current).Some? <==> forall t | t in Trimmed(names) :: Known(current, t)
    ensures Picked(names, current).Some? ==>
              var picked := Picked(names, current).value;
              (forall t :: t in picked <==> t in Trimmed(names)) && SaidOnce(Trimmed(names), picked)
  {
    if names != [] {
      var but, x := names[..|names| - 1], Trim(names[|names| - 1]);
      PickedIs(but, current);
      assert Trimmed(names) == Trimmed(but) + [x];
      hide Known, Trimmed;
      if Picked(but, current).Some? {
        var said, kept := Trimmed(but), Picked(but, current).value;
        SaidSkip(said, kept, x);
        if x !in kept {
          SaidNew(said, kept, x);
        }
      }
    }
  }

  lemma {:induction false} Distinct(kept: seq<string>, all: set<string>)
    requires forall i, j | 0 <= i < j < |kept| :: kept[i] != kept[j]
    requires forall t :: t in kept <==> t in all
    ensures |kept| == |all|
  {
    if kept == [] {
      assert all == {};
    } else {
      var x, but := kept[|kept| - 1], kept[..|kept| - 1];
      assert kept == but + [x];
      Distinct(but, all - {x});
    }
  }

  /** A person may give a note its topics exactly when it is no chunk, every name (but for
      space around it) is an offered topic, and they are at most two. */
  lemma SetAllowedIff(s: State, id: NoteId, names: seq<string>)
    ensures SetAllowed(s, id, names) <==>
              && id in s.notes && s.notes[id].top
              && (forall n | n in names :: Known(s.current, Trim(n)))
              && |set n | n in names :: Trim(n)| <= 2
  {
    PickedIs(names, s.current);
    var all := set n | n in names :: Trim(n);
    forall t ensures t in Trimmed(names) <==> t in all {
      if t in Trimmed(names) {
        var i :| 0 <= i < |names| && Trimmed(names)[i] == t;
        assert names[i] in names;
      }
      if t in all {
        var n :| n in names && Trim(n) == t;
        var i :| 0 <= i < |names| && names[i] == n;
        assert Trimmed(names)[i] == t;
      }
    }
    if Picked(names, s.current).Some? {
      Distinct(Picked(names, s.current).value, all);
    }
    hide Picked, Known, Trimmed;
  }

  /** Each named topic that exists has an edge with its place. */
  lemma {:induction false} RankedAt(names: seq<string>, topics: map<string, Topic>, how: string -> Method)
    requires forall i, j | 0 <= i < j < |names| :: names[i] != names[j]
    ensures forall k | 0 <= k < |names| && names[k] in topics ::
              names[k] in Ranked(names, topics, how)
              && Ranked(names, topics, how)[names[k]] == InTopic(k + 1, how(names[k]))
    ensures forall t | t in Ranked(names, topics, how) :: t in names && t in topics
  {
    if names != [] {
      RankedAt(names[..|names| - 1], topics, how);
    }
  }

  /** What a person's call does: the note is locked, carries the current version and is not
      picked again; its topics are those named, once each, ranked in the order first named,
      by hand. No other note changes. */
  lemma SetByHandIs(s: State, id: NoteId, names: seq<string>) returns (picked: seq<string>)
    requires SetAllowed(s, id, names)
    ensures (forall t :: t in picked <==> t in Trimmed(names)) && SaidOnce(Trimmed(names), picked) && |picked| <= 2
    ensures var s' := SetNoteTopics(s, id, names);
            && id in s'.notes && s' == s.(notes := s.notes[id := s'.notes[id]]) && id !in Pending(s')
            && var n, n' := s.notes[id], s'.notes[id];
               && n' == n.(locked := true, version := Some(s.current.version), failed := 0, edges := n'.edges)
               && (forall t :: t in n'.edges <==> t in picked && t in s.topics)
               && forall k | 0 <= k < |picked| && picked[k] in s.topics ::
                    n'.edges[picked[k]] == InTopic(k + 1, Manual)
  {
    picked := Picked(names, s.current).value;
    PickedIs(names, s.current);
    RankedAt(picked, s.topics, ByHand());
    hide Picked, Known, Trimmed, Ranked, Skipped;
  }

  /** The user's word is final, from the call on: over every later run that does not touch the
      note by hand or delete a topic it is in, the note stays locked, is never picked, and has
      no topic but those the user named, by hand and ranked as named; each of them stays that
      every step leaves there, while the scope does not skip the note. */
  lemma UsersWordIsFinal(s: State, id: NoteId, names: seq<string>, ops: seq<Op>) returns (picked: seq<string>)
    requires SetAllowed(s, id, names)
    requires forall op | op in ops :: !Handles(op, id, SetNoteTopics(s, id, names).notes[id])
    ensures (forall t :: t in picked <==> t in Trimmed(names)) && SaidOnce(Trimmed(names), picked) && |picked| <= 2
    ensures var end := Run(SetNoteTopics(s, id, names), ops);
            && id in end.notes && end.notes[id].locked && id !in Pending(end)
            && (forall t | t in end.notes[id].edges ::
                  exists k :: 0 <= k < |picked| && picked[k] == t && end.notes[id].edges[t] == InTopic(k + 1, Manual))
            && (forall t | t in picked && t in s.topics && LeftAlone(s, ops, id, t) :: t in end.notes[id].edges)
  {
    picked := SetByHandIs(s, id, names);
    var s' := SetNoteTopics(s, id, names);
    hide SetNoteTopics, Run, Trimmed, SetAllowed, Handles;
    HandSetStays(s', ops, id);
    forall t | t in picked && t in s.topics && LeftAlone(s, ops, id, t) ensures t in Run(s', ops).notes[id].edges {
      var k :| 0 <= k < |picked| && picked[k] == t;
      assert s'.notes[id].edges[t] == InTopic(k + 1, Manual);
      SkipsAlike(s.notes[id], s'.notes[id]);
      hide Skipped, Names, SyncLeaves;
      HandSetTopicStays(s', ops, id, t);
    }
    forall t | t in Run(s', ops).notes[id].edges
      ensures exists k :: 0 <= k < |picked| && picked[k] == t
                          && Run(s', ops).notes[id].edges[t] == InTopic(k + 1, Manual)
    {
      var k :| 0 <= k < |picked| && picked[k] == t;
      assert s'.notes[id].edges[t] == InTopic(k + 1, Manual);
    }
  }

  /** No step names the topic, removes it in a sync, or puts the note out of scope. */
  ghost predicate LeftAlone(s: State, ops: seq<Op>, id: NoteId, t: string)
    requires id in s.notes && t in s.topics
  {
    && (forall op | op in ops :: !Names(op, t) && SyncLeaves(op, t, s.topics[t]))
    && (forall op | op in ops && (op.OpSync? || op.OpStartup?) :: !Skipped(s.notes[id], op.env.skip))
  }

  // ── What an answer gives ──

  /** The offered topics are listed by name, each once. */
  ghost predicate Tidied(current: Topics) {
    InNameOrder(NamesOf(current.defs))
  }

  lemma {:induction false} DedupSorted(defs: seq<TopicDef>)
    requires Sorted(defs, ByName())
    ensures InNameOrder(NamesOf(Dedup(defs)))
    ensures forall d | d in Dedup(defs) :: d in defs
    ensures defs != [] ==> Dedup(defs) != [] && Dedup(defs)[0] == defs[0]
    decreases |defs|
  {
    if |defs| >= 2 {
      var a, b, rest := defs[0], defs[1], defs[2..];
      assert defs == [a, b] + rest && defs[1..] == [b] + rest;
      if a.name == b.name {
        assert forall i | 0 <= i < |[a] + rest| :: ([a] + rest)[i] == if i == 0 then a else defs[i + 1];
        DedupSorted([a] + rest);
      } else {
        assert forall i | 0 <= i < |defs[1..]| :: defs[1..][i] == defs[i + 1];
        DedupSorted(defs[1..]);
        DedupStep(a, b, Dedup(defs[1..]));
      }
    }
  }

  lemma DedupStep(a: TopicDef, b: TopicDef, later: seq<TopicDef>)
    requires later != [] && later[0] == b && InNameOrder(NamesOf(later)) && Le(a.name, b.name) && a.name != b.name
    ensures InNameOrder(NamesOf([a] + later))
  {
    var all := NamesOf([a] + later);
    assert all == [a.name] + NamesOf(later);
    forall i, j | 0 <= i < j < |all| ensures Le(all[i], all[j]) && all[i] != all[j] {
      if i > 0 {
        assert all[i] == NamesOf(later)[i - 1] && all[j] == NamesOf(later)[j - 1];
      } else {
        var t := NamesOf(later)[j - 1];
        assert all[j] == t && NamesOf(later)[0] == b.name;
        if j > 1 {
          LeTransitive(a.name, b.name, t);
          if t == a.name {
            LeAntisymmetric(a.name, b.name);
          }
        }
      }
    }
  }

  lemma TidyIsTidied(defs: seq<TopicDef>, skip: seq<SkipRule>, dormant: seq<TopicDef>)
    ensures Tidied(TopicsOf(defs, skip, dormant))
  {
    ByNameIsTotal();
    SortOk(defs, ByName());
    DedupSorted(Sort(defs, ByName()));
    hide Sort, Dedup, VersionOf;
  }

  /** However the topics came to be offered, they are tidy: at the start and over every run. */
  lemma {:induction false} RunKeepsTidied(s: State, ops: seq<Op>)
    requires Tidied(s.current)
    ensures Tidied(Run(s, ops).current)
    decreases |ops|
  {
    hide Tidied, Step;
    if |ops| > 0 {
      RunKeepsTidied(s, ops[..|ops| - 1]);
      StepKeepsTidied(Run(s, ops[..|ops| - 1]), ops[|ops| - 1]);
    }
  }

  lemma ReloadKeepsTidied(s: State, env: Env)
    ensures Tidied(s.current) ==> Tidied(Reload(s, env).current)
  {
    TidyIsTidied(ListOf(Offered(s.topics, env.loaded)), env.skip, ListOf(Dormant(s.topics, env.loaded)));
    hide Tidied, RefreshAll, TopicsOf, ListOf, Offered, Dormant;
  }

  lemma StepKeepsTidied(s: State, op: Op)
    requires Tidied(s.current)
    ensures Tidied(Step(s, op).current)
  {
    hide Tidied, Reload, SyncedTopics, SyncedNotes, SaveAllowed, DeleteAllowed, SetAllowed, TopicsOf, Pending, ByKey;
    match op
    case OpStartup(env) =>
      TidyIsTidied(env.seeds, env.skip, []);
      var began := s.(current := TopicsOf(env.seeds, env.skip, []));
      ReloadKeepsTidied(began.(topics := SyncedTopics(began, env), notes := SyncedNotes(began, env)), env);
    case OpSync(env) =>
      ReloadKeepsTidied(s.(topics := SyncedTopics(s, env), notes := SyncedNotes(s, env)), env);
    case OpSave(env, def, create, otherwiseFine) =>
      ReloadKeepsTidied(s.(retired := s.retired - {def.name}, topics := s.topics[def.name := SavedTopic(s, def)]), env);
    case OpDelete(env, name, scheduled) =>
      ReloadKeepsTidied(s.(topics := s.topics - {name}, notes := EvictedNotes(s, name),
                           retired := s.retired + if name in env.Declared() then {name} else {}), env);
    case OpReset(env, name) =>
      if name in env.Declared() {
        var topics := s.topics[name := ResetTopic(s, env.Declared()[name])];
        ReloadKeepsTidied(s.(retired := s.retired - {name}, topics := topics), env);
      }
    case _ =>
  }

  lemma {:induction false} RuleTopicsOrder(defs: seq<TopicDef>, n: Note, lower: string -> string)
    requires InNameOrder(NamesOf(defs))
    ensures InNameOrder(RuleTopics(defs, n, lower))
    ensures forall t | t in RuleTopics(defs, n, lower) :: exists d :: d in defs && d.name == t && d.assign == Rules
  {
    hide RuleMatches, PendingText;
    if defs != [] {
      var d, rest := defs[0], defs[1..];
      assert defs == [d] + rest;
      assert forall i | 0 <= i < |rest| :: NamesOf(rest)[i] == NamesOf(defs)[i + 1];
      RuleTopicsOrder(rest, n, lower);
      forall t | t in RuleTopics(rest, n, lower) ensures Le(d.name, t) && d.name != t {
        var e :| e in rest && e.name == t;
        var i :| 0 <= i < |rest| && rest[i] == e;
        assert NamesOf(defs)[0] == d.name && NamesOf(defs)[i + 1] == t;
      }
      hide RuleTopics;
    }
  }

  /** What the model's answer says. */
  function Said(answer: seq<string>, lower: string -> string): seq<string> {
    seq(|answer|, i requires 0 <= i < |answer| => lower(Trim(answer[i])))
  }

  predicate IsClassifiers(defs: seq<TopicDef>, t: string) {
    exists d | d in defs :: d.assign == Classifier && d.name == t
  }

  lemma {:induction false} AnsweredOnce(answer: seq<string>, current: Topics, lower: string -> string)
    ensures SaidOnce(Said(answer, lower), Answered(answer, current, lower))
    ensures forall t :: t in Answered(answer, current, lower)
                        <==> t in Said(answer, lower) && IsClassifiers(current.defs, t)
  {
    if answer != [] {
      var but, x := answer[..|answer| - 1], lower(Trim(answer[|answer| - 1]));
      AnsweredOnce(but, current, lower);
      assert Said(answer, lower) == Said(but, lower) + [x];
      var said, kept := Said(but, lower), Answered(but, current, lower);
      SaidSkip(said, kept, x);
      if x !in kept && IsClassifiers(current.defs, x) {
        SaidNew(said, kept, x);
      }
      hide SaidOnce, Said;
    }
  }

  lemma {:induction false} MergedApart(rules: seq<string>, classified: seq<string>)
    requires forall i, j | 0 <= i < j < |classified| :: classified[i] != classified[j]
    requires forall t | t in rules :: t !in classified
    ensures Merged(rules, classified) == rules + classified
  {
    if classified != [] {
      var but := classified[..|classified| - 1];
      assert classified == but + [classified[|classified| - 1]];
      MergedApart(rules, but);
    }
  }

  lemma FirstTwo(rules: seq<string>, named: seq<string>)
    ensures Truncated(rules + Truncated(named)) == Truncated(rules + named)
  {
  }

  /** What an answer gives a note, told by the rules and the words of the answer: the first two
      of the offered rules topics with a rule it matches, by name, followed by the offered
      classifier topics the model named, as it named them. Those that exist have an edge with
      their place; beside them the note keeps its edges to topics whose plugin is off. */
  lemma AnswerGives(s: State, env: Env, id: NoteId, answer: seq<string>)
      returns (rules: seq<string>, named: seq<string>)
    requires id in Pending(s) && Tidied(s.current)
    ensures InNameOrder(rules) && forall t :: t in rules <==> MeetsRule(s.current.defs, s.notes[id], t, env.lower)
    ensures SaidOnce(Said(answer, env.lower), named)
    ensures forall t :: t in named <==> t in Said(answer, env.lower) && IsClassifiers(s.current.defs, t)
    ensures forall t | t in rules :: t !in named
    ensures var n, n' := s.notes[id], Classify(s, env, id, Some(answer)).notes[id];
            var picked := if |rules + named| <= 2 then rules + named else (rules + named)[..2];
            && n' == n.(version := Some(s.current.version), failed := 0, edges := n'.edges)
            && (forall k | 0 <= k < |picked| && picked[k] in s.topics ::
                  picked[k] in n'.edges
                  && n'.edges[picked[k]] == InTopic(k + 1, if k < |rules| then Rule else Llm))
            && (forall t | t !in picked || t !in s.topics ::
                  && (t in n'.edges <==> t in n.edges && t in s.topics && IsDormant(s.topics[t], env.loaded))
                  && (t in n'.edges ==> n'.edges[t] == n.edges[t]))
  {
    var n, defs := s.notes[id], s.current.defs;
    rules, named := RuleTopics(defs, n, env.lower), Answered(answer, s.current, env.lower);
    RuleTopicsAre(defs, n, env.lower);
    RuleTopicsOrder(defs, n, env.lower);
    AnsweredOnce(answer, s.current, env.lower);
    forall t | t in rules ensures t !in named {
      OneAssignment(s.current, t);
    }
    hide RuleTopics, Answered, Said, MeetsRule, IsClassifiers, Tidied, IsDormant, Skipped;
    MergedApart(rules, Truncated(named));
    FirstTwo(rules, named);
    var picked := Truncated(rules + named);
    PickedEdges(s, env, n, rules, named, picked);
    assert Classify(s, env, id, Some(answer)).notes[id] == Classified(s, env, n, answer);
  }

  lemma OneAssignment(current: Topics, t: string)
    requires Tidied(current)
    ensures IsClassifiers(current.defs, t) ==> forall d | d in current.defs && d.name == t :: d.assign == Classifier
  {
    forall d, e | d in current.defs && e in current.defs && d.name == e.name ensures d == e {
      var i :| 0 <= i < |current.defs| && current.defs[i] == d;
      var j :| 0 <= j < |current.defs| && current.defs[j] == e;
      assert NamesOf(current.defs)[i] == d.name && NamesOf(current.defs)[j] == e.name;
    }
  }

  lemma PickedEdges(s: State, env: Env, n: Note, rules: seq<string>, named: seq<string>, picked: seq<string>)
    requires forall i, j | 0 <= i < j < |rules| :: rules[i] != rules[j]
    requires forall i, j | 0 <= i < j < |named| :: named[i] != named[j]
    requires (forall t | t in rules :: t !in named) && picked == Truncated(rules + named)
    ensures var kept := map t | t in n.edges && t in s.topics && IsDormant(s.topics[t], env.loaded) :: n.edges[t];
            var edges := kept + Ranked(picked, s.topics, ByRules(rules));
            && (forall k | 0 <= k < |picked| && picked[k] in s.topics ::
                  picked[k] in edges && edges[picked[k]] == InTopic(k + 1, if k < |rules| then Rule else Llm))
            && (forall t | t !in picked || t !in s.topics ::
                  (t in edges <==> t in kept) && (t in edges ==> edges[t] == n.edges[t]))
  {
    PlacesOf(rules, named, picked);
    var how := ByRules(rules);
    RankedAt(picked, s.topics, how);
    assert forall t :: how(t) == if t in rules then Rule else Llm;
    hide Ranked, IsDormant, ByRules, Truncated;
  }

  lemma PlacesOf(rules: seq<string>, named: seq<string>, picked: seq<string>)
    requires forall i, j | 0 <= i < j < |rules| :: rules[i] != rules[j]
    requires forall i, j | 0 <= i < j < |named| :: named[i] != named[j]
    requires (forall t | t in rules :: t !in named) && picked == Truncated(rules + named)
    ensures forall k | 0 <= k < |picked| :: picked[k] in rules <==> k < |rules|
    ensures forall i, j | 0 <= i < j < |picked| :: picked[i] != picked[j]
  {
    var all := rules + named;
    forall k | 0 <= k < |all| ensures all[k] in rules <==> k < |rules| {
      if k >= |rules| {
        assert all[k] == named[k - |rules|];
      }
    }
    forall i, j | 0 <= i < j < |all| ensures all[i] != all[j] {
      if i >= |rules| {
        assert all[i] == named[i - |rules|] && all[j] == named[j - |rules|];
      } else {
        assert all[i] in rules && (all[j] in rules <==> j < |rules|);
      }
    }
  }

  // ── What a topic holds after it was written ──

  /** The aliases kept are those given that are not blank, trimmed, in order. */
  lemma {:induction false} AliasesKept(before: seq<string>, x: string, after: seq<string>)
    ensures TrimmedAliases([]) == []
    ensures TrimmedAliases(before + [x] + after)
            == TrimmedAliases(before) + (if Trim(x) == "" then [] else [Trim(x)]) + TrimmedAliases(after)
  {
    var all := before + [x] + after;
    if before == [] {
      assert all[0] == x && all[1..] == after;
    } else {
      assert all[0] == before[0] && all[1..] == before[1..] + [x] + after;
      AliasesKept(before[1..], x, after);
    }
  }

  /** The node holds the definition: its texts without space around them, everything else as
      given. Aliases and plugin are told apart from it. */
  predicate Holds(t: Topic, d: TopicDef) {
    && t.def.name == d.name && t.def.caption == Trim(d.caption) && t.def.description == Trim(d.description)
    && t.def.sourceLists == d.sourceLists && t.def.assign == d.assign && t.def.members == d.members
    && (t.def.reference.Some? <==> d.reference.Some?)
    && (d.reference.Some? ==> t.def.reference.value == Trim(d.reference.value))
  }

  /** A save writes the definition given, keeps the topic's plugin, makes the topic the
      user's, and brings it back if it was retired; it touches no other topic. */
  lemma SavedIs(s: State, env: Env, def: TopicDef, create: bool, otherwiseFine: bool)
    requires SaveAllowed(s, def, create, otherwiseFine)
    ensures var x, s' := def.name, Save(s, env, def, create, otherwiseFine);
            && s'.topics.Keys == s.topics.Keys + {x} && s'.retired == s.retired - {x}
            && (forall y | y in s.topics && y != x :: s'.topics[y] == s.topics[y])
            && var t := s'.topics[x];
               && Holds(t, def) && t.runtime && t.def.aliases == TrimmedAliases(def.aliases)
               && t.def.plugin == if x in s.topics then s.topics[x].def.plugin else None
  {
    hide SaveAllowed, CurrentOf, RefreshAll, Offered, TrimmedAliases, Trim;
  }

  /** The declared definition of a name is the first in the files. */
  lemma {:induction false} DeclaredIs(seeds: seq<TopicDef>, x: string) returns (i: nat)
    requires x in ByKey(seeds)
    ensures i < |seeds| && seeds[i] == ByKey(seeds)[x] && seeds[i].name == x
    ensures forall j | 0 <= j < i :: seeds[j].name != x
  {
    i := 0;
    if seeds[0].name != x {
      var later := DeclaredIs(seeds[1..], x);
      i := later + 1;
      forall j | 0 <= j < i ensures seeds[j].name != x {
        if j > 0 {
          assert seeds[1..][j - 1] == seeds[j];
        }
      }
    }
  }

  /** A sync writes a declared topic that is neither the user's nor retired as declared, and
      leaves a topic of the user's, and a retired one, as it was. */
  lemma SyncedIs(s: State, env: Env, x: string)
    requires x in env.Declared()
    ensures var d, topics := env.Declared()[x], Sync(s, env).topics;
            if x in s.topics && (s.topics[x].runtime || x in s.retired) then
              x in topics && topics[x] == s.topics[x]
            else if x in s.retired then
              x !in topics
            else
              && x in topics && Holds(topics[x], d) && !topics[x].runtime
              && topics[x].def.aliases == TrimmedAliases(d.aliases) && topics[x].def.plugin == d.plugin
  {
    SyncedTopicIs(s, env, x);
    SyncTopicsAre(s, env);
    DeclaredNames(env.seeds);
    hide Sync, TrimmedAliases, Trim, ByKey, SyncedTopics;
  }

  /** A reset writes the declared definition but for the aliases, makes the topic the files'
      again, and brings it back if it was retired; it touches no other topic. */
  lemma ResetIs(s: State, env: Env, x: string)
    requires x in env.Declared()
    ensures var d, s' := env.Declared()[x], Reset(s, env, x);
            && s'.topics.Keys == s.topics.Keys + {x} && s'.retired == s.retired - {x}
            && (forall y | y in s.topics && y != x :: s'.topics[y] == s.topics[y])
            && var t := s'.topics[x];
               && Holds(t, d) && !t.runtime && t.def.plugin == d.plugin
               && t.def.aliases == if x in s.topics then s.topics[x].def.aliases else []
  {
    DeclaredNames(env.seeds);
    hide CurrentOf, RefreshAll, Offered, TrimmedAliases, Trim, ByKey;
  }

  // ── Which notes a rule picks and the scope skips ──

  /** The scope skips a note with the type or source a rule names; a rule that names both
      wants both, one that names none takes every note, and a blank name is no name. */
  lemma ScopeIs(n: Note, skip: seq<SkipRule>, a: string, b: string)
    requires a != "" && b != ""
    ensures !Skipped(n, [])
    ensures Skipped(n, skip + [SkipRule(Some(a), None)]) <==> Skipped(n, skip) || n.noteType == Some(a)
    ensures Skipped(n, skip + [SkipRule(None, Some(b))]) <==> Skipped(n, skip) || n.sourceContext == Some(b)
    ensures Skipped(n, skip + [SkipRule(Some(a), Some(b))])
            <==> Skipped(n, skip) || (n.noteType == Some(a) && n.sourceContext == Some(b))
    ensures Skipped(n, skip + [SkipRule(None, None)])
    ensures forall f :: Skipped(n, skip + [SkipRule(Some(""), f)]) == Skipped(n, skip + [SkipRule(None, f)])
    ensures forall f :: Skipped(n, skip + [SkipRule(f, Some(""))]) == Skipped(n, skip + [SkipRule(f, None)])
  {
    forall r: SkipRule
      ensures Skipped(n, skip + [r]) <==> Skipped(n, skip) || Skips(r, n)
    {
      assert forall x :: x in skip + [r] <==> x in skip || x == r;
    }
  }

  predicate Skips(r: SkipRule, n: Note) {
    Skipped(n, [r])
  }

  /** Not blank. */
  predicate Given(f: Option<string>) {
    f.Some? && exists c | c in f.value :: !IsSpace(c)
  }

  lemma GivenIs(f: Option<string>)
    ensures Given(f) <==> TrimField(f) != ""
    ensures Given(f) ==> f.Some? && TrimField(f) == Trim(f.value)
  {
    assert Trim("") == "";
    if f.Some? {
      BlankIff(f.value);
    }
  }

  /** In the database a rule picks the notes that every field it gives picks, and none if it
      gives none: a type or a source is to be the note's, a text in its first 1,500 characters,
      whatever the case. */
  lemma QueryPicks(r: MemberRule, n: Note, lower: string -> string)
    ensures QueryMatches(r, n, lower) <==>
              && (Given(r.noteType) || Given(r.sourceContext) || Given(r.contentContains))
              && (Given(r.noteType) ==> n.noteType == Some(Trim(r.noteType.value)))
              && (Given(r.sourceContext) ==> n.sourceContext == Some(Trim(r.sourceContext.value)))
              && (Given(r.contentContains) ==>
                    Contains(lower(if |n.content| <= 1500 then n.content else n.content[..1500]),
                             lower(Trim(r.contentContains.value))))
  {
    GivenIs(r.noteType);
    GivenIs(r.sourceContext);
    GivenIs(r.contentContains);
    hide Given, Trim, Contains;
  }

  // ── What is refused ──

  /** A save is refused exactly when a check on the form fails, the name is taken (or unknown,
      for a change), the description is blank, a rule gives no field, or a classifier topic has
      rules; then nothing changes. */
  lemma SaveRefusedIff(s: State, env: Env, def: TopicDef, create: bool, otherwiseFine: bool)
    ensures !SaveAllowed(s, def, create, otherwiseFine) <==>
              || !otherwiseFine
              || (create <==> exists d :: d in s.current.defs && d.name == def.name)
              || (forall c | c in def.description :: IsSpace(c))
              || (exists r :: r in def.members
                              && !Given(r.noteType) && !Given(r.sourceContext) && !Given(r.contentContains))
              || (def.assign == Classifier && def.members != [])
    ensures !SaveAllowed(s, def, create, otherwiseFine) ==> Save(s, env, def, create, otherwiseFine) == s
  {
    BlankIff(def.description);
    forall r: MemberRule
      ensures EmptyRule(r) <==> !Given(r.noteType) && !Given(r.sourceContext) && !Given(r.contentContains)
    {
      GivenIs(r.noteType);
      GivenIs(r.sourceContext);
      GivenIs(r.contentContains);
    }
    hide Given, Trim, EmptyRule, Reload;
  }

  /** A delete is refused exactly when the topic is not offered or a schedule declares it; then
      nothing changes. Otherwise the topic goes and no other does, and it is retired if the
      files declare it. */
  lemma DeletedIs(s: State, env: Env, x: string, scheduled: bool)
    ensures var s' := Delete(s, env, x, scheduled);
            if scheduled || forall d | d in s.current.defs :: d.name != x then s' == s
            else
              && s'.topics == s.topics - {x}
              && s'.retired == s.retired + if exists d :: d in env.seeds && d.name == x then {x} else {}
  {
    DeclaredNames(env.seeds);
    hide RefreshAll, CurrentOf, Offered, ByKey;
  }

  // ── Plugins and the version ──

  /** Turning plugins on or off does not change the version, as long as a topic is offered
      before and after: no note is to be classified again for it. */
  lemma PluginsKeepVersion(topics: map<string, Topic>, skip: seq<SkipRule>, loaded: set<string>, loaded': set<string>)
    requires NamesOk(topics)
    requires (exists x :: IsOffered(topics, x, loaded)) && exists x :: IsOffered(topics, x, loaded')
    ensures CurrentOf(topics, skip, loaded).version == CurrentOf(topics, skip, loaded').version
  {
    var defs, dormant := ListOf(Offered(topics, loaded)), ListOf(Dormant(topics, loaded));
    var defs', dormant' := ListOf(Offered(topics, loaded')), ListOf(Dormant(topics, loaded'));
    AllListed(topics, loaded);
    AllListed(topics, loaded');
    hide ListOf, Offered, Dormant, VersionOf, UniqueDefs, IsOffered, Tidy;
    SameElements(defs + dormant, defs' + dormant');
    VersionIgnoresOrderAndDormancy(defs, dormant, defs', dormant', skip);
  }

  /** Offered and dormant topics together are all that have a description, once each. */
  lemma AllListed(topics: map<string, Topic>, loaded: set<string>)
    requires NamesOk(topics)
    ensures var all := ListOf(Offered(topics, loaded)) + ListOf(Dormant(topics, loaded));
            && UniqueDefs(all) && NoDup(all)
            && (forall d :: d in all <==> Described(topics, d))
    ensures (exists x :: IsOffered(topics, x, loaded)) ==> ListOf(Offered(topics, loaded)) != []
  {
    OfferedNames(topics, loaded);
    var offered, dormant := Offered(topics, loaded), Dormant(topics, loaded);
    ListIs(offered);
    ListIs(dormant);
    if x :| IsOffered(topics, x, loaded) {
      OfferedIs(topics, loaded, x);
      assert offered[x] in ListOf(offered);
    }
    forall d: TopicDef
      ensures (d.name in offered && offered[d.name] == d) || (d.name in dormant && dormant[d.name] == d)
              <==> Described(topics, d)
    {
      DescribedIs(topics, loaded, d);
    }
    hide ListOf, Offered, Dormant, Described, NamesOk, IsOffered;
    var a, b := ListOf(offered), ListOf(dormant);
    UniqueBoth(a, b);
    UniqueIsNoDup(a + b);
  }

  predicate Described(topics: map<string, Topic>, d: TopicDef) {
    d.name in topics && Trim(topics[d.name].def.description) != "" && d == ReadDef(topics[d.name].def)
  }

  lemma DescribedIs(topics: map<string, Topic>, loaded: set<string>, d: TopicDef)
    ensures var offered, dormant := Offered(topics, loaded), Dormant(topics, loaded);
            (d.name in offered && offered[d.name] == d) || (d.name in dormant && dormant[d.name] == d)
            <==> Described(topics, d)
  {
    hide Trim;
  }

  lemma UniqueBoth(a: seq<TopicDef>, b: seq<TopicDef>)
    requires UniqueDefs(a) && UniqueDefs(b) && forall d, e | d in a && e in b :: d.name != e.name
    ensures UniqueDefs(a + b)
  {
    var all := a + b;
    forall i, j | 0 <= i < j < |all| ensures all[i].name != all[j].name {
      if i < |a| <= j {
        assert a[i] in a && b[j - |a|] in b;
      } else if i >= |a| {
        assert all[i] == b[i - |a|] && all[j] == b[j - |a|];
      }
    }
  }

  // ── Failures and new notes ──

  /** The model fails on the note, `k` times in a row. */
  function Failing(s: State, env: Env, id: NoteId, k: nat): State {
    if k == 0 then s else Classify(Failing(s, env, id, k - 1), env, id, None)
  }

  /** A note the model fails on is asked about three times, and then no more: nothing else of
      it changes, and no other note. */
  lemma {:induction false} ThreeFailures(s: State, env: Env, id: NoteId, k: nat)
    requires id in Pending(s) && s.notes[id].failed == 0 && k <= 3
    ensures var s' := Failing(s, env, id, k);
            && s' == s.(notes := s.notes[id := s.notes[id].(failed := k)])
            && (id in Pending(s') <==> k < 3)
  {
    if k > 0 {
      ThreeFailures(s, env, id, k - 1);
      assert Skipped(s.notes[id].(failed := k), s.current.skip) == Skipped(s.notes[id], s.current.skip);
    }
    hide Skipped;
  }

  /** A new note is in no topic and waits exactly when there are topics, it is no chunk and the
      scope does not skip it. */
  lemma NewNoteWaits(s: State, id: NoteId, n: Note)
    requires id !in s.notes
    ensures var s' := AddNote(s, id, n);
            && s' == s.(notes := s.notes[id := s'.notes[id]]) && s'.notes[id].edges == map[] && !s'.notes[id].locked
            && s'.notes[id].failed == 0 && s'.notes[id].version == None
            && (id in Pending(s') <==> s.current.version != NoVersion && n.top && !Skipped(n, s.current.skip))
  {
    var n' := AddNote(s, id, n).notes[id];
    assert Skipped(n', s.current.skip) == Skipped(n, s.current.skip);
    hide Skipped;
  }
}
