# agent-brain, verified

Dafny 4.11 models of the parts of agent-brain whose correctness spans many steps, and proofs
about all of their runs. `dafny verify dfyconfig.toml` checks everything.

- **Entity resolution** (`EntityGraph`, `Conservation`, `Reversibility`, `NameKey`, `MergePlan`,
  `MergePlanFacts`, `PlanRun`, `EntitySync`, `Resolution`, `SyncRuns`). Each Cypher statement of
  `merge`, `finish_merge`, `unmerge`, `sync`, the extractor and the pruning is its effect
  on maps: entities and aliases by name, mention edges by note and entity, hidden topics. Over
  every run each note's mentions are accounted for, with the exact losses; merges are undone in
  any order, for exactly the sources for which every order works; plans are safe to run and
  stable, and `sync` is idempotent; and a name a person split out stays separate exactly as long
  as the pruning spares it.
- **Plugin loading** (`Plugins`). The rounds of `Plugins::load_from` compute a least fixpoint.
- **Topics** (`TopicVersion`, `TopicVersionFacts`, `TopicStore`, `TopicFacts`, `TopicOutcomes`).
  Sync, reload, save, delete, reset, hand-set topics, unlock and classify are steps of a state
  machine; what each step does is told in terms of the user's words, the rules and the model's
  answer, and the coverage numbers of the API are compared with what the classifier will pick.
- **Loops and histories over records** (`ChainOrder`, `AgentRun`, `SelfModel`).
- **Strings whose fast form must mean the simple form** (`RefWords`, `DecisionPrompt`, `Percent`,
  `Router`, `RustFence`, `BundleTools`, on top of `Text` and `Utf8`).

Code that changes state is modelled by classes and loops that are proved against specification
functions; what the source promises is then proved of those functions. Databases, models and
environments are arbitrary inputs: the order of query rows, the model's answers and failures,
which notes have a name in capitals, lower-casing and the letters of the alphabet are parameters.

## What the proofs found

Where the code does not do what its documentation says, the code is modelled as it is. Each line
names the lemma with the exact condition and, in brackets, the one with a concrete input.

- Losing a mention. An undo adds to an edge without a count as if it weighed 0, while it weighs 1
  everywhere else (`Conservation.UnmergeConserves` [`UnmergeCanLoseAMention`]); the extractor's
  `r.count + 1` leaves a missing count missing (`Conservation.MentionConserves`
  [`ExtractionCanLoseAMention`]).
- Chains of merges. With x merged into f and then f into t, the undo of x gives its mentions back
  only on notes that mentioned f and not t, and nothing on all others; on those same notes the
  undo of f gives too little (`Reversibility.ChainUndone`, `Reversibility.AllOrdersUndoIff`,
  `OneOrderFails` [`ChainCanLoseAMention`]).
- An entity without a type comes back from a merge and its undo with the target's type, and one
  without a creation time with a new one (`Reversibility.EntityIsBackIff`
  [`UntypedComesBackTyped`]).
- A mention extracted through an alias is stamped so that an undo can take it back, but only on a
  new edge: with an edge to the target already there it stays with the target
  (`Resolution.ExtractedComesBackIff` [`ExtractedCanStay`]).
- A split-out entity is not kept for good: the pruning deletes it when it is not curated, no alias
  leads to it, and no note mentions it, or a single one does and it is old; the curated alias then
  takes the name again (`SyncRuns.SplitOutStaysIff` [`SplitOutExampleArises`,
  `SplitOutCanBePruned`]).
- A type set by hand is called final, but takes the place of the curated mark: until the next pass
  of `sync` the pruning does not spare the entity, and the pass writes the mark and the rules' type
  again (`SyncRuns.TypeStaysIff` [`HandTypeIsOverwritten`, `RetypedCanBePruned`]).
- `merge` never reports a missing entity: its first query aggregates and so always returns a row;
  with a node missing the call changes nothing and reports success
  (`EntityGraph.EntityStore.MergeInto` [`MergeOfNothing`]).
- A locked note can be left behind by a startup whose graph offers no topic
  (`TopicFacts.StartupKeepsLocks` [`StartupCanLeaveALockBehind`]), and with no topics at all the
  coverage page counts unclassified notes as waiting that the classifier does not pick:
  `topics_version = $v` is not true of a missing version, `coalesce(topics_version, '')` is the
  empty one (`TopicFacts.WaitingIsPending` [`NoTopicsYetWaiting`]).
- `reset` does not write `aliases`, so it restores the YAML definition only if they are the
  declared ones; the next sync does the rest (`TopicFacts.ResetRestores`
  [`ResetCanKeepAliases`]).
- A rules topic named `skip` without members, listed last, has the hashed text of a skip rule; any
  other topic has not (`TopicVersionFacts.TellsApartIff`, `SkipTopicReadsAsRule`
  [`SkipTopicCollides`]).
- `MemberRule::matches` and the query that "mirrors" it differ on a field that is given but blank,
  and on short claims, whose source title only the classifier reads and which can only add a match
  (`TopicFacts.RulesAgree`, `TitleOnlyAdds` [`ReadingsDiffer`]).
- A name that starts with neither letter nor digit is padded with two spaces, and so is found only
  at the start of a text that starts likewise (`RefWords.OddNamesMatchAtStart`
  [`OddNameIsMissed`]); `contains_word` can miss a word that restarts inside itself
  (`RefWords.SearchIsRightIff` [`SearchCanMiss`]).
- A route parameter named `__proto__`, or the empty string, does not survive the address bar
  (`Router.RouteRoundTrip` [`ParameterCanBeLost`]).
- A bundle is told that a plugin "is not enabled" also when it is enabled: exactly when that
  plugin is itself still waiting, later in the list (`Plugins.GiveUp` [`EnabledButToldNot`]).

## Model

| member | source | states |
|---|---|---|
| EntityGraph.EntityStore.Execute | crates/graph/src/entity_resolution.rs:571-588 | Running a merge or undo statement row by row, in any order the database gives the rows, has one result: every selected row rewrites its own note's edges as they were before the statement. |
| EntityGraph.EntityStore.Finish | crates/graph/src/entity_resolution.rs:649-698 | The old name becomes an alias that holds what an undo needs, its aliases and hidden topics move to the target, and the node goes with what is left of its edges. |
| EntityGraph.EntityStore.MergeInto | crates/graph/src/entity_resolution.rs:554-628 | The whole merge, full or capitals-only: what it leaves, how many mentions moved and stayed, whether the node went, and that merging a name into itself is refused. |
| EntityGraph.MergeOfNothing | crates/graph/src/entity_resolution.rs:589-594 | Merging two names the graph does not know reports a finished merge with nothing moved. |
| EntityGraph.EntityStore.Split | crates/graph/src/entity_resolution.rs:710-810 | The whole undo: the restored entity, the edges split out in two statements, the alias gone; without such an alias nothing changes. |
| EntityGraph.EntityStore.PruneStale | crates/knowledge/src/knowledge/maintenance.rs:185-206 | The pruning: aliases that lead nowhere go, and every entity that is not curated, that no alias leads to, and that no note mentions or a single one while it is old or undated. |
| EntityGraph.EntityStore.ForgetNote | crates/knowledge/src/knowledge/store.rs:216-222 | The repair of a note's text drops its mentions. |
| EntityGraph.EffectAt | crates/graph/src/entity_resolution.rs:571-588 | After a statement each edge is what its own note's row makes of it; no other note's edges matter. |
| Conservation.MergeConserves | crates/graph/src/entity_resolution.rs:554-698 | A merge, full or capitals-only, keeps every note's total mention count, and keeps every edge's `absorbed` sum within its count and every alias on an existing entity. |
| Conservation.HiddenTopicsFollow | crates/graph/src/entity_resolution.rs:674-679 | After a merge that deletes its source the target is kept out of exactly the topics it or the source was kept out of, with its own time where it had one and the source's otherwise; no pair of the source is left, all others are as before; while the source stays nothing changes. |
| Conservation.UnmergeConserves | crates/graph/src/entity_resolution.rs:741-795 | An undo keeps that invariant always, and a note's total exactly when the note has no uncounted edge to the restored name while something of the note moves back; then it is one short. |
| Conservation.UnmergeCanLoseAMention | crates/graph/src/entity_resolution.rs:750-753 | A concrete note whose total drops from two to one: an existing edge without a count weighs 1 everywhere but is added to as 0. |
| Conservation.ExtractionCanLoseAMention | crates/knowledge/src/knowledge/entities.rs:309-309 | A concrete note on which the extractor's write changes nothing. |
| Conservation.PruneConserves | crates/knowledge/src/knowledge/maintenance.rs:185-206 | A pruning takes from each note exactly what it mentioned of the pruned entities, and keeps the invariant on counts and aliases. |
| Conservation.RunConserves | crates/graph/src/entity_resolution.rs:555-810 | Over every run of merges, capitals-only merges, undos, extractor writes, votes and hand-set types, seedings, prunings and repairs, each note's total changes by what the extractor wrote less what the steps lost, each loss with its condition; no count falls below its absorbed sum and every alias has one existing target. |
| Conservation.CountedRunsLoseNothing | crates/graph/src/entity_resolution.rs:555-810 | Where every edge has a count, no run without prunings and repairs loses a mention, and every edge keeps a count. |
| Reversibility.StepsHold | crates/graph/src/entity_resolution.rs:555-810 | Merges into one target and undos, interleaved in any legal way, keep what each note's edge to the target holds for each merged entity, directly or in `absorbed`; sources may have absorbed others before, on notes that mention the target. |
| Reversibility.MergesUndone | crates/graph/src/entity_resolution.rs:555-810 | Once every merge into the target has been undone, in any order and however mixed, each note mentions the target and every source as often as before, other edges are untouched, and ids are the old ones; sources may have absorbed others before, on notes that mention the target. |
| Reversibility.AnyOrderUndoes | crates/graph/src/entity_resolution.rs:702-710 | Any order of merging such sources followed by any order of undoing restores every count. |
| Reversibility.AllOrdersUndoIff | crates/graph/src/entity_resolution.rs:571-588 | Every legal order of merges and undos restores every count if and only if each source's edge that had absorbed others is on a note that mentions the target. |
| Reversibility.UndoneWeight | crates/graph/src/entity_resolution.rs:571-588 | What a merge and its undo give back on each note: all, but for what the edge had absorbed where the note had no edge to the target. |
| Reversibility.ChainUndone | crates/graph/src/entity_resolution.rs:571-588 | With x merged into f and f into t, undoing x gives its mentions back exactly on the notes that mentioned f and not t, and nothing on all others. |
| Reversibility.ChainCanLoseAMention | crates/graph/src/entity_resolution.rs:583-586 | A concrete chain of two merges after which the undo of the first gives nothing back. |
| Reversibility.EntityIsBackIff | crates/graph/src/entity_resolution.rs:659-685 | Beside its mentions, an entity comes back from a merge and its undo as it was, marked as split out, exactly when it had a type or the target has none, it had a creation time, and it was no curated one; no other entity changes. |
| Reversibility.UntypedComesBackTyped | crates/graph/src/entity_resolution.rs:659-685 | A concrete entity without a type comes back with its target's. |
| NameKey.Strip | crates/graph/src/entity_resolution.rs:188-199 | The loop that drops leading articles and titles ends with the stripped name. |
| NameKey.StrippedIs | crates/graph/src/entity_resolution.rs:183-204 | What is dropped is a run of articles and titles from the front; a title goes only before two words, an article before one; none is left that could go, and never is nothing left. |
| NameKey.DroppedIff | crates/graph/src/entity_resolution.rs:188-199 | Something is dropped exactly when the name is an article and at least one more token, or a title and at least two. |
| NameKey.StrippedTwice | crates/graph/src/entity_resolution.rs:188-199 | Stripping a stripped name changes nothing, and a name is unchanged exactly when no rule applies to it. |
| NameKey.ConcatIs | crates/graph/src/entity_resolution.rs:199-204 | A key is made of the tokens joined with nothing between. |
| NameKey.KeyOfBareName | crates/graph/src/entity_resolution.rs:183-204 | For every name, kept distinct or not: it has the key of the same name without its articles and titles exactly when neither is kept distinct and letters remain, or the two keys are equal display forms or letters; a key that is no display form has only letters and digits. |
| MergePlan.PlanMerges | crates/graph/src/entity_resolution.rs:439-538 | The imperative planner (two phases and the chain-following loop) computes the specified plan for all entities and aliases. |
| MergePlan.FoldAliases | crates/graph/src/entity_resolution.rs:453-479 | The first phase: which entities an alias folds, where to, and which of them are gone. |
| MergePlan.FoldKeys | crates/graph/src/entity_resolution.rs:481-518 | The second phase: groups by key in key order, each ranked, folded into the first. |
| MergePlan.FollowChain | crates/graph/src/entity_resolution.rs:520-535 | The chain-following loop ends, also on cycles of aliases, and computes the specified target. |
| MergePlanFacts.ProposedAre | crates/graph/src/entity_resolution.rs:453-518 | What the two phases propose, told without them: the fold of each entity an alias leads away, and of each entity that shares its key with a better ranked one. |
| MergePlanFacts.NormalisedIntoBest | crates/graph/src/entity_resolution.rs:481-518 | A merge by key goes into the entity of its key that is curated if any is, else has the most mentions, else the shortest name in bytes, else comes first by name, among all that take part. |
| MergePlanFacts.NormalisedIff | crates/graph/src/entity_resolution.rs:481-518 | An entity is folded by its key exactly when it takes part, is not curated, no alias folds it, and another entity that takes part beats it. |
| Ordering.LeIs | crates/graph/src/entity_resolution.rs:499-505 | Names compare by the first character in which they differ, a shorter one before those it begins. |
| MergePlanFacts.FollowExact | crates/graph/src/entity_resolution.rs:520-535 | A merge is sent to the end of the chain of full merges from its target exactly when the chain ends, and not at the merge's own source; it never points at its source. |
| MergePlanFacts.PlanSound | crates/graph/src/entity_resolution.rs:439-538 | In every plan each entity is a source at most once, no source is seeded or was split out by a person, no merge points at itself and every target exists. |
| MergePlanFacts.TargetsSurviveIffAcyclic | crates/graph/src/entity_resolution.rs:520-537 | No target is removed by another full merge exactly when no chain of full folds cycles or comes back to a capitals-only source. |
| PlanRun.ApplyPlan | crates/graph/src/entity_resolution.rs:1032-1048 | Running the planned merges one by one, each with its capitals-only notes. |
| PlanRun.PlanIsSafe | crates/graph/src/entity_resolution.rs:1032-1048 | On a ready graph every merge of the plan (or of the plan without some capitals-only ones, in any order) finds both its entities; the sources are gone and every alias follows. |
| PlanRun.PlanIsStable | crates/graph/src/entity_resolution.rs:439-538 | Planning again on the result proposes capitals-only merges at most. |
| PlanRun.StaysReady | crates/graph/src/entity_resolution.rs:908-930 | The conditions on names, keys and alias targets that make a plan safe hold again after it. |
| SyncRuns.PassesAreSafe | crates/graph/src/entity_resolution.rs:831-1060 | From a graph that is ready once it is seeded, any number of passes of `sync` under the same rules, seeding included, never fails to find a node, and from the second on none makes a full merge. |
| SyncRuns.SeedingAgain | crates/graph/src/entity_resolution.rs:967-1023 | Seeding after a pass changes nothing: the merges leave every curated entity, its type and every curated alias as seeding wrote it. |
| SyncRuns.SecondPass | crates/graph/src/entity_resolution.rs:934-950 | A second pass under the same rules runs exactly the capitals-only merges for which a note that mentions the source has come to have the key in capitals; without such a note it runs nothing and changes nothing. |
| SyncRuns.SyncIsIdempotent | crates/graph/src/entity_resolution.rs:826-831 | `sync` is idempotent: from a graph that is ready once seeded, any number of further passes under the same rules, with no new note in capitals, merge nothing and leave the graph as the first pass did. |
| SyncRuns.TypeStaysIff | crates/graph/src/entity_resolution.rs:967-984 | A pass leaves an entity's type, also one set by hand, exactly when the entity is not curated, or has a type and the rules give it no other. |
| SyncRuns.HandTypeIsOverwritten | plugins/reference/crate/src/kinds.rs:560-572 | A concrete curated entity typed by hand gets the rules' type back at the next pass. |
| SyncRuns.RetypedCanBePruned | plugins/reference/crate/src/kinds.rs:562-566 | Before that pass the pruning deletes it. |
| SyncRuns.SplitOutStaysIff | crates/knowledge/src/knowledge/maintenance.rs:185-206 | Through any later passes, under any rules, and any other writes but a person merging the name away, a split-out entity stays, with its id and mark, exactly when at each pruning it is curated, an alias's target, mentioned by two notes, or mentioned by one and young. |
| SyncRuns.SplitOutExampleArises | crates/graph/src/entity_resolution.rs:702-735 | A merge and its undo lead to the entity of the next example. |
| SyncRuns.SplitOutCanBePruned | crates/knowledge/src/knowledge/maintenance.rs:191-201 | A concrete split-out entity that the pruning deletes, after which the curated alias takes its name again. |
| EntitySync.ReadEntities | crates/graph/src/entity_resolution.rs:841-907 | The planner's entity rows: every entity of the graph and every curated one once, with fresh keys, counts, and the seeded and split-out marks. |
| EntitySync.ReadAliases | crates/graph/src/entity_resolution.rs:893-930 | The planner's alias rows, in order: the curated aliases, except of split-out names, entity by entity, then those of the graph with other names. |
| EntitySync.AliasRowsAre | crates/graph/src/entity_resolution.rs:893-930 | An alias has a row exactly when the rules list it for that target and no person split it out, or the graph has it and the rules do not name it; an alias listed twice has both rows. |
| EntitySync.RowsInOrder | crates/graph/src/entity_resolution.rs:893-907 | The rules' alias rows come entity by entity in the order of the rules. |
| EntitySync.AliasesInOrder | crates/graph/src/entity_resolution.rs:893-907 | Within an entity they come alias by alias, without the names a person split out. |
| EntitySync.Thin | crates/graph/src/entity_resolution.rs:934-950 | What is run, in plan order: every full merge, and a capitals-only one exactly when its source has no mentions or some note that mentions it has the key in capitals. |
| EntitySync.ToRunIs | crates/graph/src/entity_resolution.rs:934-950 | The merges that are run are the plan's that must run, and nothing but capitals-only merges is left out. |
| EntitySync.Seed | crates/graph/src/entity_resolution.rs:967-1023 | Writing the curated entities, with their types, and the curated aliases, one by one. |
| EntitySync.SeededAliasIs | crates/graph/src/entity_resolution.rs:985-1023 | After seeding each alias the rules list, but of a split-out name, leads to its entity and counts only in capitals exactly when its key is among those; all other aliases are as they were. |
| EntitySync.RowsDescribe | crates/graph/src/entity_resolution.rs:841-1023 | The rows planned on describe the graph the merges run on, although curated entities and aliases are written only in between, if and only if the rules list no alias for two entities that disagree; seeding touches no mention. |
| EntitySync.SyncGraph | crates/graph/src/entity_resolution.rs:831-1060 | A whole pass of `sync`, for all rules: the rows read, the plan, exactly what is left out, what is seeded and what is merged, tied to the graph it started from. |
| EntitySync.SyncConserves | crates/graph/src/entity_resolution.rs:831-1060 | A pass loses or invents no mention of any note, whatever it seeds and merges. |
| Resolution.ResolveIsSound | crates/graph/src/entity_resolution.rs:326-411 | An extracted name goes to an entity that exists, or to a new one exactly when nothing has its name or key and no usable alias leads anywhere. |
| Resolution.KeyResolves | crates/graph/src/entity_resolution.rs:326-357 | A name that no entity or alias has goes to an entity with its key that no person split out, and becomes a new one exactly when there is none. |
| Resolution.AliasKeyResolves | crates/graph/src/entity_resolution.rs:326-357 | A name that no entity or alias has goes, as a mention through an alias, to what an alias with its key leads to, unless such an alias counts only in capitals and the name has none. |
| Resolution.MergedNamesResolve | crates/graph/src/entity_resolution.rs:326-357 | After a merge the old name and all its aliases lead to the entity it went into (capitals-only names in capitals). |
| Resolution.RestoredNameResolves | crates/graph/src/entity_resolution.rs:326-357 | After the undo of a merge the name leads to its own entity again, with the id it had. |
| Conservation.MentionConserves | crates/knowledge/src/knowledge/entities.rs:298-335 | The extractor's write of one mention adds one to its note's total exactly when the edge is new or has a count, changes no other note, and keeps the invariant. |
| Resolution.ExtractedComesBackIff | crates/knowledge/src/knowledge/entities.rs:298-316 | For every alias, curated or merged: a mention extracted through it goes back with it in an undo exactly when the note had no edge to the target (nor an uncounted one to the name), or a counted one that came through the same alias. |
| Resolution.ExtractedCanStay | crates/knowledge/src/knowledge/entities.rs:304-309 | A concrete note whose mention stays with the target. |
| SyncRuns.SplitOutResolves | crates/graph/src/entity_resolution.rs:899-903 | A split-out name gets its own mentions after any number of passes, even when the rules list it as an alias. |
| SyncRuns.UndoneNameResolves | crates/graph/src/entity_resolution.rs:728-735 | So an undone name leads to the entity the undo made, after any number of later passes. |
| Plugins.CheckAnswer | crates/graph/src/bundles.rs:362-391 | A bundle is ready exactly when its manifest is valid, its environment set and all it requires loaded; otherwise the answer names something that is in the way. |
| Plugins.RootIs | crates/graph/src/bundles.rs:161-182 | A bundle is read from the shipped folder, else the first extra folder that has it, else the runtime folder; the bundles found are just those in some folder, and no other is read. |
| Plugins.EnvIsSet | crates/graph/src/bundles.rs:372-378 | A required variable is met by a value with a character that is not white space. |
| Plugins.Round | crates/graph/src/bundles.rs:193-221 | One pass over the pending bundles: each is decided or stays pending, and if none was decided all of them are waiting. |
| Plugins.GiveUp | crates/graph/src/bundles.rs:222-239 | The exit without progress: each waiting bundle is skipped, never told it is ready (the `unreachable!` is not reached), and told of a plugin it needs that did not load; the plugin it is told is "not enabled" is in the list of enabled ones exactly when it is itself still waiting, later in the list. |
| Plugins.EnabledButToldNot | crates/graph/src/bundles.rs:381-388 | Two enabled bundles that require each other: each waits with the reason that the other is not enabled. |
| Plugins.Resolve | crates/graph/src/bundles.rs:193-241 | The rounds end, and every wanted name ends with exactly one status. |
| Plugins.SettledIsLeast | crates/graph/src/bundles.rs:180-243 | What loaded is the least set closed under: manifest valid, environment set, requirements loaded. |
| Plugins.RequestedOrder | crates/graph/src/bundles.rs:243-243 | Sorting by position puts the decided bundles back in the order asked for. |
| Plugins.LoadFrom | crates/graph/src/bundles.rs:152-273 | The whole load: wanted names once each, in order, loaded exactly when in the least fixpoint and otherwise skipped with a reason that names what did not hold ("not enabled" means only that the plugin did not load), then the other bundles present, sorted; each shows where it is found and its manifest. |
| Plugins.MoreEnabledLoadsMore | crates/graph/src/bundles.rs:180-241 | What loads does not depend on the order of `PLUGINS_ENABLED`, and enabling more unloads nothing. |
| Plugins.LoadsIffLoadable | crates/graph/src/bundles.rs:180-241 | A bundle loads exactly when finitely many rounds of requirements lead to it, so no cycle of requirements ever loads. |
| TopicVersion.Fnv.Write | crates/graph/src/topics.rs:440-453 | The running hash is the FNV-1a hash of everything written so far, however it was split up. |
| TopicVersion.WithDormant | crates/graph/src/topics.rs:209-250 | The loops that sort, drop repeated names and hash give the specified topics and version. |
| TopicVersionFacts.VersionIgnoresOrderAndDormancy | crates/graph/src/topics.rs:209-250 | The hashed text and the version stay when topics are reordered or move between offered and dormant, as long as one is offered. |
| TopicVersionFacts.StreamTellsApart | crates/graph/src/topics.rs:209-250 | With no field holding the separators and no bare rules topic `skip` listed last, two hashed texts, and their bytes, are equal exactly when names, trimmed descriptions, rules-topic members and skip rules are, empty counting as absent. |
| TopicVersionFacts.SkipTopicReadsAsRule | crates/graph/src/topics.rs:219-238 | A rules topic `skip` without members, listed last, has the hashed text of a skip rule in its place. |
| TopicVersionFacts.TellsApartIff | crates/graph/src/topics.rs:209-250 | So the topics and rules are told apart from every other such list exactly when there is no such topic. |
| TopicVersionFacts.SkipTopicCollides | crates/graph/src/topics.rs:219-238 | A topic named `skip` can hash like a skip rule: two different sets with one version. |
| Utf8.RoundTrip | crates/graph/src/topics.rs:447-452 | The bytes hashed (and percent-encoded) are UTF-8, from which the text is read back, so different texts have different bytes. |
| TopicOutcomes.PluginsKeepVersion | crates/graph/src/topics.rs:587-596 | Turning plugins on or off keeps the version, as long as a topic is offered before and after. |
| TopicOutcomes.RunKeepsTidied | crates/graph/src/topics.rs:209-213 | Over every run the offered topics are listed by name, each once. |
| TopicStore.TopicGraph.ReloadTopics | crates/graph/src/topics.rs:557-662 | One reload: what is offered and the version, classifier edges of rules topics gone, rule edges added, locked notes stamped; nothing when no topic is offered. |
| TopicOutcomes.ReloadOffers | crates/graph/src/topics.rs:557-602 | A reload offers exactly the graph's topics with a description whose plugin, if any, is loaded, with their rules; when there is none it changes nothing. |
| TopicOutcomes.ReloadEdges | crates/graph/src/topics.rs:603-655 | After a reload a note has the edges it had, but for the classifier's on rules topics, and, if it is top-level, unlocked and in scope, a rule edge of rank 1 to each offered rules topic of which the query finds a rule matching; locked notes carry the version. |
| TopicOutcomes.QueryPicks | crates/graph/src/topics.rs:616-646 | The query picks a note by a rule exactly when the rule gives some field, and the note has the type and source given and, in the first 1,500 characters, the text given, whatever the case. |
| TopicOutcomes.ScopeIs | crates/graph/src/topics.rs:1093-1094 | A skip rule takes the notes with the type and source it names, blank names meaning any; a note is skipped when some rule takes it. |
| TopicStore.TopicGraph.SyncTopics | crates/graph/src/topics.rs:459-510 | One sync: declared topics written unless edited by hand or retired, undeclared ones of loaded plugins removed with their edges, skipped notes emptied, then a reload. |
| TopicOutcomes.SyncEdges | crates/graph/src/topics.rs:459-509 | After a sync a note out of scope has no edge; one in scope keeps those to topics still there, but for the classifier's on rules topics, and gains the rule edges that a reload gives. |
| TopicOutcomes.SyncedIs | crates/graph/src/topics.rs:459-482 | Field by field: a declared topic that is neither the user's nor retired is written with its texts trimmed, its lists and rules as declared, blank aliases dropped; the user's and a retired one stay as they were. |
| TopicOutcomes.DeclaredIs | crates/graph/src/topics.rs:419-436 | Of definitions with one name the first in the files counts. |
| TopicStore.TopicGraph.SaveTopic | crates/graph/src/topics.rs:774-799 | One save: refused or written as edited by hand, no longer retired. |
| TopicOutcomes.SavedIs | crates/graph/src/topics.rs:774-799 | Field by field: a save writes the given texts trimmed, lists and rules as given, blank aliases dropped, keeps the topic's plugin, makes the topic the user's and no longer retired, and touches no other topic. |
| TopicOutcomes.AliasesKept | crates/graph/src/topics.rs:536-544 | The aliases stored are those given that are not blank, trimmed, in order. |
| Text.SpacesAre | crates/graph/src/topics.rs:524-530 | The white space that trimming takes away, character by character. |
| TopicOutcomes.SaveRefusedIff | crates/graph/src/topics.rs:673-710 | A save is refused, and changes nothing, exactly when a check on the form fails, a new name is taken or a changed one unknown, the description is blank, a rule gives no field, or a classifier topic has rules. |
| TopicStore.TopicGraph.DeleteTopic | crates/graph/src/topics.rs:814-869 | One delete: its notes unlocked and waiting, the topic gone, retired when the YAML declares it. |
| TopicOutcomes.DeletedIs | crates/graph/src/topics.rs:814-860 | A delete is refused, and changes nothing, exactly when the topic is not offered or a schedule declares it; otherwise that topic alone goes, retired exactly if the files declare it. |
| TopicStore.TopicGraph.ResetToSeed | crates/graph/src/topics.rs:872-893 | One reset: the YAML definition but for the aliases, no longer retired. |
| TopicOutcomes.ResetIs | crates/graph/src/topics.rs:872-893 | Field by field: a reset writes the declared definition but for the aliases, makes the topic the files' again and no longer retired, and touches no other topic. |
| TopicStore.TopicGraph.CheckNames | crates/graph/src/topics.rs:896-920 | Known names, trimmed and once each, or a refusal at the first unknown one. |
| TopicStore.TopicGraph.SetByHand | crates/graph/src/topics.rs:924-973 | Topics set by hand: the note's edges replaced, ranked, locked and stamped; refused for a chunk, an unknown name or too many. |
| TopicOutcomes.SetAllowedIff | crates/graph/src/topics.rs:896-920 | A person may give a note its topics exactly when it is no chunk, every name (trimmed) is an offered topic, and they are at most two. |
| TopicOutcomes.SetByHandIs | crates/graph/src/topics.rs:924-973 | The call locks the note at the current version, with no failures, not pending; its edges are the names given that exist, once each, ranked in the order first named, all by hand; nothing else changes. |
| TopicStore.TopicGraph.UnlockNote | crates/graph/src/topics.rs:975-990 | One unlock: the note's lock and version go, nothing else. |
| TopicStore.RankTopics | crates/graph/src/topics.rs:931-941 | The numbering loop gives each topic that exists one edge, with its place and how it came. |
| TopicStore.RuleTopicsOf | crates/graph/src/topics.rs:349-355 | The filter lists the rules topics with a rule the note matches. |
| TopicStore.ParseAnswer | crates/graph/src/topics.rs:374-391 | The loop keeps the known names of the answer, once each and in order, up to the limit. |
| TopicStore.AddClassified | crates/graph/src/topics.rs:1043-1048 | The loop adds what the model named to the rules topics, without repeats. |
| TopicStore.TopicGraph.ClassifyOne | crates/graph/src/topics.rs:1016-1090 | Picking a pending note and writing its answer, or counting its failure. |
| TopicStore.ListingDoesNotMatter | crates/graph/src/topics.rs:557-599 | What a reload offers does not depend on the order in which the database lists the topics. |
| TopicFacts.BucketsPartition | crates/api/src/topics.rs:96-128 | The coverage buckets partition the top-level notes, so the waiting number is the size of the fifth and its `max(0)` never fires. |
| TopicFacts.WaitingIsPending | crates/api/src/topics.rs:96-128 | In any state the waiting number is what the classifier would pick without a limit exactly when no locked note is outdated and no unversioned note meets the empty version. |
| TopicFacts.ReclassifyIsPending | crates/api/src/topics.rs:451-464 | The number after an edit is what the classifier would pick exactly when no locked note is outdated. |
| TopicFacts.NoTopicsYetWaiting | crates/api/src/topics.rs:106-128 | A brain without topics shows one note as waiting that is never picked: the number is not the same there. |
| TopicFacts.RunKeeps | crates/graph/src/topics.rs:459-990 | Over every run of startups, syncs, saves, deletes, resets, hand-set topics, unlocks, classifications and new notes: edges lead to existing topics, no retired topic exists, and locked notes carry the current version as long as every startup is settled. |
| TopicFacts.StartupKeepsLocks | crates/graph/src/topics.rs:594-596 | A startup leaves locked notes outdated exactly when the graph then offers no topic and the notes do not carry the declared topics' version already. |
| TopicFacts.StartupCanLeaveALockBehind | crates/graph/src/topics.rs:594-596 | A concrete startup after which a locked note is outdated. |
| TopicFacts.CoverageOverRuns | crates/api/src/topics.rs:96-128 | After every such run the reclassify number is what the classifier will pick, and so is the waiting number, but for unversioned notes of a brain without topics. |
| TopicFacts.TopicStays | crates/graph/src/topics.rs:459-510 | Over every run that does not name it, a topic edited by hand keeps its definition, and so does one whose plugin is off and that nothing declares. |
| TopicFacts.SavedStays | crates/graph/src/topics.rs:774-799 | What a person saved is what the graph holds until the topic is saved, deleted or reset. |
| TopicFacts.DeletedStaysAway | crates/graph/src/topics.rs:814-869 | A deleted topic that the YAML declares stays absent, over every later sync and startup, until it is saved or reset. |
| TopicFacts.ResetRestores | crates/graph/src/topics.rs:872-893 | A reset restores the declared definition exactly when the aliases were the declared ones already; a sync after it always does. |
| TopicFacts.ResetCanKeepAliases | crates/graph/src/topics.rs:872-893 | A concrete topic that keeps a saved alias through a reset. |
| TopicFacts.SyncTwice | crates/graph/src/topics.rs:459-510 | Syncing again changes nothing: topics, notes, edges or version. |
| TopicFacts.SyncKeepsDormantEdges | crates/graph/src/topics.rs:482-509 | A note keeps its edge to a topic whose plugin is off over a sync, unless the scope skips the note or the edge is the classifier's on a rules topic. |
| TopicFacts.SyncedTopicIs | crates/graph/src/topics.rs:459-500 | What a sync makes of each topic: a declared one is written unless edited by hand or retired, an undeclared one stays exactly if it was edited by hand or its plugin is off. |
| TopicFacts.DeletedNotesWait | crates/graph/src/topics.rs:836-850 | The notes of a deleted topic end up out of it, unlocked and without a version, whatever the reload after it offers; other notes keep their lock. |
| TopicFacts.UnlockedWaits | crates/graph/src/topics.rs:975-987 | An unlocked note is among those to classify exactly when there are topics, it has failures left and the scope does not skip it; no other note's turn changes. |
| TopicFacts.HandSetStays | crates/graph/src/topics.rs:25-28 | The user's word is final: over every run that does not touch the note by hand or delete a topic it is in, it stays locked, is never picked and gains no topic. |
| TopicFacts.HandSetTopicStays | crates/graph/src/topics.rs:25-28 | And it keeps each topic the user gave it that every step leaves there, while the scope does not skip it. |
| TopicOutcomes.UsersWordIsFinal | crates/graph/src/topics.rs:25-28 | From the user's call over every later run that does not touch the note by hand or delete a topic it is in: it stays locked, is never picked, has no topic but those named, ranked as named, and keeps each that every step leaves there while it is in scope. |
| TopicFacts.AnswerClassifies | crates/graph/src/topics.rs:1016-1090 | An answer takes exactly that note out of the pending ones; beside its dormant topics it has at most two, each an offered rules topic with a rule that the note matches or an offered classifier topic that the model named, and marked so. |
| TopicOutcomes.AnswerGives | crates/graph/src/topics.rs:1016-1080 | What an answer writes, told by the rules and its words: the first two of the offered rules topics with a rule the note matches, by name, followed by the offered classifier topics named, in the order first named, each with its place as rank and how it came; beside them only edges to dormant topics stay. |
| TopicFacts.AssignerEnds | crates/graph/src/topics.rs:1100-1134 | Whatever the model does, a note is asked about at most as often as it has failures left. |
| TopicOutcomes.ThreeFailures | crates/graph/src/topics.rs:1026-1042 | A note the model fails on is asked about three times and then no more; nothing else of it changes. |
| TopicOutcomes.NewNoteWaits | crates/graph/src/topics.rs:1100-1120 | A new note waits exactly when there are topics, it is no chunk and the scope does not skip it. |
| TopicFacts.RulesAgree | crates/graph/src/topics.rs:145-158 | On the text it reads, the classifier's reading of a rule is the database's together with one condition: no given field is blank unless the note's is the empty text. |
| TopicFacts.TitleOnlyAdds | crates/graph/src/topics.rs:145-158 | And on the note: but for blank fields the classifier matches where the database does, and beyond that exactly a claim of less than 1,500 characters whose content does not hold the wanted text and whose content with its source's title does. |
| TopicFacts.ReadingsDiffer | crates/graph/src/topics.rs:145-158 | Concrete notes on which the two readings differ, both ways. |
| ChainOrder.Group | crates/api/src/work.rs:77-85 | Each job joins its parent's children or is a root, in creation order. |
| ChainOrder.ChainOrder | crates/api/src/work.rs:76-100 | The stack loop lists what the walk lists, then the unseen jobs. |
| ChainOrder.EveryJobOnce | crates/api/src/work.rs:72-100 | Whatever the ids and parents, every job is listed exactly once. |
| ChainOrder.OrderIsForest | crates/api/src/work.rs:72-100 | With unique ids the order is the roots by creation, each followed by the forest of its children at every level, and then exactly the jobs whose ancestry loops, by creation. |
| ChainOrder.SubtreesAreContiguous | crates/api/src/work.rs:72-100 | Each job whose ancestry ends heads one contiguous part of the order that holds exactly the jobs below it. |
| ChainOrder.ParentThenChildren | crates/api/src/work.rs:72-100 | A job comes before its children, and they come by creation. |
| AgentRun.Trajectory.Push | crates/chat/src/trajectory.rs:59-74 | A step is kept, cut, while there is room and otherwise counted: kept steps are the first pushed, and kept plus dropped is all. |
| AgentRun.Trajectory.SetAnswer | crates/chat/src/trajectory.rs:77-79 | The answer is kept, cut. |
| AgentRun.Cut | crates/chat/src/trajectory.rs:17-31 | The character loop keeps a text that fits and otherwise its head and how much is missing. |
| AgentRun.CutKeeps | crates/chat/src/trajectory.rs:17-31 | A text comes out as it went in exactly when it fits, or ends in just the mark a cut would put there. |
| AgentRun.Drain | crates/chat/src/agent_runner.rs:1039-1127 | For every stream of events: the last message, the first error, the successful previews, one trace entry per result, with what its preview says of tests and clippy, a trajectory that keeps the first results and counts the rest, and, when someone listens, every call, result and thought forwarded in order under the agent's name. |
| AgentRun.ForwardedLooks | crates/chat/src/agent_runner.rs:1061-1117 | What the caller sees of a sub-agent's call, result and thought. |
| AgentRun.StubbedIff | crates/chat/src/agent_runner.rs:1083-1097 | A receipt holds the tool, its success and what the readers make of its result; it is stubbed, in the trace and the trajectory, exactly when the preview goes on from the stub's words. |
| AgentRun.ResultTakes | crates/chat/src/agent_runner.rs:1084-1087 | Taking out the first waiting call of a tool is taking that tool's oldest unpaired call, and no other tool's. |
| AgentRun.UnpairedIs | crates/chat/src/agent_runner.rs:1084-1087 | For every stream, a tool's results without arguments are exactly as many as its results ever led its calls by. |
| AgentRun.KthResultKthCall | crates/chat/src/agent_runner.rs:1050-1087 | When no tool has more results than calls at any point, the k-th result of a tool is recorded with the arguments of its k-th call. |
| AgentRun.OneRecordPerResult | crates/chat/src/agent_runner.rs:1078-1105 | Each result gives one record, in the order of the results. |
| SelfModel.Brain.Sync | crates/host/src/self_model.rs:242-349 | The steps of one startup, in order: definitions, owners, tombstones, the YAML's reasons. |
| SelfModel.Brain.Bury | crates/host/src/self_model.rs:318-348 | A vanished tool of a plugin leaves nothing, one of the core a tombstone unless it has one, and a tool that came back loses it. |
| SelfModel.HistoryIs | crates/host/src/self_model.rs:242-349 | After any history of startups the tools are those of the last one, and tombstones are exactly of the tools not registered that the core owned when they last were, or that the YAML listed at some startup since. |
| SelfModel.WrittenAs | crates/host/src/self_model.rs:242-281 | A registered tool is written with its own description and skill (those of the last of its name) and its plugin. |
| SelfModel.LiveHasNoTombstone | crates/host/src/self_model.rs:343-348 | No registered tool has a tombstone. |
| SelfModel.OwnerIs | crates/host/src/self_model.rs:282-317 | The plugin remembered for a tool is the one that owned it when it was last registered; none if the core did. |
| SelfModel.TombstoneKeepsTool | crates/host/src/self_model.rs:329-342 | A tombstone keeps what the tool was at its last startup, however often it is annotated later. |
| SelfModel.TombstoneSays | crates/host/src/self_model.rs:492-540 | A tombstone says why its tool went and what replaced it as the YAML last listed it; a startup that does not list it leaves what it said. |
| RefWords.Words | crates/api/src/refs.rs:93-109 | The gap-flag loop gives the tokens with one space between, one at the end and one (or two) in front. |
| RefWords.GapSplits | crates/api/src/refs.rs:91-109 | Tokens are the maximal runs of letters and digits: a gap between two texts separates their tokens (with `TokenIsOne`). |
| RefWords.TokenIsOne | crates/api/src/refs.rs:91-109 | A run of letters and digits is one token. |
| RefWords.WordsMatchTokens | crates/api/src/refs.rs:438-446 | For a name that starts with a letter or digit, the padded text contains the padded name exactly when the name's tokens occur one after another in the text's. |
| RefWords.OddNamesMatchAtStart | crates/api/src/refs.rs:438-446 | For any other name: exactly when the text starts with neither too and the name's tokens are its first. |
| RefWords.OddNameIsMissed | crates/api/src/refs.rs:438-446 | A concrete name in brackets whose tokens the text holds, but which is not found. |
| RefWords.HasWordIff | crates/api/src/refs.rs:492-502 | The word is there exactly when the text is something, the word and something, and no character of identifiers touches it. |
| RefWords.SearchIsRightIff | crates/api/src/refs.rs:492-502 | Searching non-overlapping occurrences finds a bounded word in every text exactly when the word cannot start again inside itself after a character of no identifier. |
| RefWords.SearchCanMiss | crates/api/src/refs.rs:492-502 | A concrete word that is there and is not found. |
| RefWords.IdentifiersAreFound | crates/api/src/refs.rs:448-460 | For identifiers `contains_word` is exactly: somewhere, not touching an identifier. |
| RefWords.NamesAreFound | crates/api/src/refs.rs:448-460 | And for every name, with spaces or not, in which no later word begins like the first. |
| DecisionPrompt.Spaced | crates/decision/src/lib.rs:99-120 | The flag loop puts a space after each `:` and `,` outside strings. |
| DecisionPrompt.UnspacedIsCompact | crates/decision/src/lib.rs:97-120 | Dropping the character after each `:` and `,` outside strings undoes it, for every text. |
| DecisionPrompt.SpacedIs | crates/decision/src/lib.rs:97-120 | Spacing serialized JSON puts a space after each colon and comma between its strings and changes no string. |
| DecisionPrompt.SpacedMeansTheSame | crates/decision/src/lib.rs:97-120 | A text with JSON tokens has the same tokens and string values after spacing. |
| DecisionPrompt.EscapeMeansTheSame | crates/decision/src/lib.rs:176-177 | And after escaping `<` and `>`. |
| DecisionPrompt.WrittenIs | crates/decision/src/lib.rs:163-175 | How the characters of a string that are not written as they are are written. |
| DecisionPrompt.HexIs | crates/decision/src/lib.rs:163-177 | The hexadecimal digits that number escapes are read by, in either case. |
| DecisionPrompt.WrittenScans | crates/decision/src/lib.rs:163-177 | A text written as a JSON string is read back as itself, whatever follows. |
| DecisionPrompt.CompactLexes | crates/decision/src/lib.rs:163-175 | Serialized JSON has exactly the tokens and strings it was made from. |
| DecisionPrompt.PromptSaysTheSchema | crates/decision/src/lib.rs:123-183 | For every question: the prompt is refused exactly when a choice has fewer than two or too many options; otherwise it says, token for token and string for string, the context, name, instructions and coded options, then the name, and holds no `<` or `>`. |
| DecisionPrompt.PromptReads | crates/decision/src/lib.rs:123-183 | The whole message, character by character: state, name, instructions and each option under its letter in the spaced form, then the name again, angle brackets escaped; none exactly for a choice of fewer than 2 or more than 26 options. |
| Percent.ComponentRoundTrip | hbi-frontend/src/router.ts:28-28 | Decoding an encoded path component gives it back, for every text. |
| Percent.UnreservedAre | hbi-frontend/src/router.ts:28-39 | The characters that stand for themselves in a path and in a query. |
| Percent.ValueIs | hbi-frontend/src/router.ts:18-29 | Hexadecimal digits are read in either case. |
| Router.ParseHash | hbi-frontend/src/router.ts:18-29 | The parsing loop gives the specified route, or the error of an ill-encoded path. |
| Router.FormatHash | hbi-frontend/src/router.ts:31-39 | The printing loop gives one hash whatever order the object holds its keys in. |
| Router.QueryRoundTrip | hbi-frontend/src/router.ts:24-38 | A printed query reads back as the pairs it was printed from, in order, empty keys and values included. |
| Router.RouteRoundTrip | hbi-frontend/src/router.ts:18-39 | Every route comes back with its path and its parameters that are not empty and not under the empty key or `__proto__`; so it comes back whole exactly when all of them are such. |
| Router.ParameterCanBeLost | hbi-frontend/src/router.ts:18-39 | A concrete route that does not come back. |
| Router.PrintedIsCanonicalIff | hbi-frontend/src/router.ts:18-39 | Printing what a printed hash reads as gives that hash exactly when no parameter with a value is under the empty key or `__proto__`. |
| Router.ApplyUpdate | hbi-frontend/src/router.ts:45-55 | The loop over the named parameters gives the specified route. |
| Router.UpdateIs | hbi-frontend/src/router.ts:45-55 | Named parameters get what the update last says of them and all others stay; a `__proto__` of the object's own stays unless removed and is never added. |
| Router.NavigateTwice | hbi-frontend/src/router.ts:88-103 | Navigating the same way twice leads to the hash one already has. |
| RustFence.ClosingFence | crates/chat/src/agent_runner.rs:226-236 | The line loop finds the first line of only three or more backticks. |
| RustFence.FenceIs | crates/chat/src/agent_runner.rs:226-236 | A fence is a line of three or more backticks and nothing else but white space around them. |
| RustFence.AnswerRustCode | crates/chat/src/agent_runner.rs:203-221 | The offset loop collects the fenced blocks and picks one. |
| RustFence.IsTestIff | crates/chat/src/agent_runner.rs:216-220 | A block is a test's when it holds the test attribute somewhere. |
| RustFence.PickIs | crates/chat/src/agent_runner.rs:216-220 | The pick is the first block with a test, or, when none has one, the last of the longest; none only without blocks. |
| RustFence.CodeIsUnchangedIff | crates/chat/src/agent_runner.rs:203-236 | Code printed in a fence is extracted unchanged exactly when none of its lines is a fence, even if it holds an opening fence inside a line. |
| RustFence.AllCodesComeBack | crates/chat/src/agent_runner.rs:203-236 | An answer with any number of such blocks gives back exactly their codes, in order. |
| RustFence.OneBlock | crates/chat/src/agent_runner.rs:203-236 | With one block and no other opening fence its code is the answer. |
| BundleTools.CypherParams | crates/host/src/bundle_tools.rs:167-190 | The index loop lists the used names once each. |
| BundleTools.IdentChars | crates/host/src/bundle_tools.rs:167-190 | Names of parameters are of ASCII letters, digits and underscores. |
| BundleTools.CypherParamsAre | crates/host/src/bundle_tools.rs:167-190 | It lists exactly the whole identifiers that follow a `$`, each once, in the order of first use. |
| BundleTools.ListedByFirstUse | crates/host/src/bundle_tools.rs:167-190 | Of two names the one whose first use in the text is earlier is listed first. |
| BundleTools.CheckQuery | crates/host/src/bundle_tools.rs:104-143 | No problem exactly for an acceptable query, otherwise a problem the query really has. |
| BundleTools.PassesIff | crates/host/src/bundle_tools.rs:104-165 | A query passes exactly when its schema is an object's, it does not write, no declared name is reserved, and for all arguments with the required keys it receives every declared property and every name it uses is supplied or reserved. |
| BundleTools.ProblemsAreReal | crates/host/src/bundle_tools.rs:104-143 | Each problem told is one: the query does not pass, and a property without default can be missing, a reserved name is supplied too, an undeclared one never is. |
| BundleTools.CheckedQueriesAreSupplied | crates/host/src/bundle_tools.rs:104-165 | For every query that passes and every arguments with the required keys, each used name has a value from `params` or is reserved, and never both. |
| BundleTools.AlwaysGivenIff | crates/host/src/bundle_tools.rs:124-129 | Every property required or defaulted means exactly that the query always receives every declared property. |
| BundleTools.UndeclaredIsNeverSupplied | crates/host/src/bundle_tools.rs:135-141 | A name refused as undeclared is used and no arguments would ever supply it. |
| BundleTools.Load | crates/host/src/bundle_tools.rs:202-242 | The claiming loop loads each good file whose name is free, and notes for each plugin the tools it gave and each file left out with its reason. |
| BundleTools.LoadedAre | crates/host/src/bundle_tools.rs:198-242 | No two loaded tools share a name or have a taken one, and each free name loads from the first good file that has it. |
| BundleTools.StatusesAre | crates/host/src/bundle_tools.rs:198-242 | Each plugin with a file, and no other, has a status: the tools loaded from it, and an error exactly when some file of it was left out. |
| BundleTools.LeftOutIsTold | crates/host/src/bundle_tools.rs:216-236 | What a plugin is told of a taken name and of a bad file, joined. |

## Left out

- Neo4j, DuckDB, HTTP, async and locking: a Cypher statement is its effect, and a query succeeds; two operations never interleave.
- The language model, embeddings and the regex for capitals: an answer, a failure or a set of notes is an arbitrary input.
- `absorbed` entries are pairs of id and count: an id holds no `:`, so the text form splits as written.
- `key` properties of entities and aliases are not stored: `sync` computes them afresh, and `lookup` is taken to find them so.
- Reversibility of what is not a mention: an undo restores neither hidden topics, the curated mark nor the wording of an edge, and REFERS_TO, NOT_SAME and ALIAS_VERDICT edges are not modelled.
- The stability and safety of plans, and the idempotence of `sync`, assume what `PlanRun.Ready` says of the data: one target per alias key, alias chains that end, capitals-only keys pointing at curated entities and no alias pointing at a capitals-only source.
- Of `type_source` only the curated mark is modelled: whether a type was set by hand is not remembered, so a vote may write the type of any entity that is not curated; kinds and type questions are left out.
- TopicFacts.TitleOnlyAdds: takes lower-casing not to look beyond the end of a line.
- Restoring a snapshot, which replaces the whole graph at once, is no step of the runs.
- `NameKey` starts from cleaned tokens and the display form: `display_name` and `clean_token` (case folding, quotes, trimming) are not modelled.
- `find_candidates`, `candidates`, `decide` and the loading of rules files.
- `Plugins`: manifest parsing is an input (valid or not, and why), and `core_only_warnings` is left out.
- TopicStore.TopicGraph.SaveTopic: the checks of `check_def` on name syntax, lengths, URL, alias clashes and prompt budget are one condition on the definition; a schedule that declares a topic is one flag.
- The numeric value of FNV-1a: the facts are about the bytes fed to it.
- Topic labels and times, and the order in which pending notes are picked: any pending note may be next.
- TopicStore.TopicGraph.ClassifyOne: an answer written for a note that was unlocked or re-versioned while the model ran is not modelled; picking and writing are one step.
- `AgentRun`: a call's arguments are their JSON text and their `action`; how `passing_tests` and `clippy_clean` read a preview are parameters.
- `SelfModel`: profiles, schedules and everything `sync_self_model` writes besides ToolDef, PluginTool and RemovedTool; `removed_at`, `commit`.
- `DecisionPrompt`: the serialized state is given as text, JSON is read as tokens and not as a grammar, and the scoring of the reply is left out.
- `Router`: paths and parameters are texts of whole characters (an unpaired surrogate makes `encodeURIComponent` throw); bytes that are no UTF-8 are repaired by an arbitrary function; the store over `window.location` is left out but for navigating twice.
- `RefWords`: `grams`, the database search and the ranking of suggestions; lower-casing comes before the texts modelled here.
- `BundleTools`: running the query; the write-keyword test is an arbitrary predicate.
- REST handlers, item approval, React components, CLI, configuration and startup wiring, log buffers and formatting helpers such as `humanize_age` and `mix_verdict`: each of their steps is read off its body, and nothing spans several of them.
