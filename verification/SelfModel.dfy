/** Which tools the self-model knows, which plugin owned them and which are remembered as
    removed, over any number of startups: `sync_self_model` of crates/host/src/self_model.rs. */
module SelfModel {
  import opened Wrappers

  datatype Tool = Tool(name: string, description: string, skill: string)

  datatype Removal = Removal(name: string, reason: string, replacedBy: string)

  /** What one startup finds: the registered tools, who owns them, and removed-tools.yaml. */
  datatype Startup = Startup(tools: seq<Tool>, pluginOf: map<string, string>, listed: seq<Removal>)

  datatype ToolDef = ToolDef(description: string, skill: string, plugin: string)

  /** A `:RemovedTool`: `was` is what the tool was, absent for one only the YAML knows. */
  datatype Tombstone = Tombstone(was: Option<(string, string)>, note: Option<(string, string)>)

  datatype Graph = Graph(tools: map<string, ToolDef>, pluginTools: map<string, string>, removed: map<string, Tombstone>)

  // ── One startup ──

  function NamesOf(tools: seq<Tool>): set<string> {
    if tools == [] then {} else NamesOf(tools[..|tools| - 1]) + {tools[|tools| - 1].name}
  }

  function Live(s: Startup): set<string> {
    NamesOf(s.tools)
  }

  function Plugin(s: Startup, name: string): string {
    if name in s.pluginOf then s.pluginOf[name] else ""
  }

  function DefOf(s: Startup, t: Tool): ToolDef {
    ToolDef(t.description, t.skill, Plugin(s, t.name))
  }

  /** The definitions written; a later tool of the same name overwrites. */
  function Registered(s: Startup, tools: seq<Tool>): map<string, ToolDef> {
    if tools == [] then map[]
    else
      var t := tools[|tools| - 1];
      Registered(s, tools[..|tools| - 1])[t.name := DefOf(s, t)]
  }

  function Defs(s: Startup): map<string, ToolDef> {
    Registered(s, s.tools)
  }

  function Noted(removed: map<string, Tombstone>, n: Removal): map<string, Tombstone> {
    var was := if n.name in removed then removed[n.name].was else None;
    removed[n.name := Tombstone(was, Some((n.reason, n.replacedBy)))]
  }

  /** The YAML's reasons, for tools that are not registered. */
  function Annotated(removed: map<string, Tombstone>, live: set<string>, listed: seq<Removal>): map<string, Tombstone> {
    if listed == [] then removed
    else
      var before, n := Annotated(removed, live, listed[..|listed| - 1]), listed[|listed| - 1];
      if n.name in live then before else Noted(before, n)
  }

  /** A tool of the core that vanished leaves a tombstone, one that came back loses it. */
  function Buried(tools: map<string, ToolDef>, removed: map<string, Tombstone>,
                  live: set<string>): map<string, Tombstone> {
    map x | x in (tools.Keys + removed.Keys) - live && (x in removed || tools[x].plugin == "") ::
      if x in removed then removed[x] else Tombstone(Some((tools[x].description, tools[x].skill)), None)
  }

  /** Each plugin tool's owner, kept while the plugin is off; a tool now in the core has none. */
  function Owners(owners: map<string, string>, live: set<string>, pluginOf: map<string, string>): map<string, string> {
    map x | x in owners.Keys + live && (x in live ==> x in pluginOf) :: if x in live then pluginOf[x] else owners[x]
  }

  function Next(g: Graph, s: Startup): Graph {
    Graph(
      Defs(s),
      Owners(g.pluginTools, Live(s), s.pluginOf),
      Annotated(Buried(g.tools, g.removed, Live(s)), Live(s), s.listed))
  }

  class Brain {
    var tools: map<string, ToolDef>
    var pluginTools: map<string, string>
    var removed: map<string, Tombstone>

    ghost function Now(): Graph
      reads this
    {
      Graph(tools, pluginTools, removed)
    }

    constructor ()
      ensures Now() == Graph(map[], map[], map[])
    {
      tools, pluginTools, removed := map[], map[], map[];
    }

    /** The steps of one startup, in order. */
    method Sync(s: Startup)
      modifies this
      ensures Now() == Next(old(Now()), s)
    {
      hide Defs, NamesOf, Annotated;
      var live := Register(s);
      RememberOwners(live, s.pluginOf);
      BuriedIgnoresLive(old(tools), removed, Defs(s));
      Bury(live, Defs(s));
      Annotate(live, s.listed);
    }

    method Register(s: Startup) returns (live: set<string>)
      modifies this`tools
      ensures live == Live(s) && Defs(s).Keys == live && tools == old(tools) + Defs(s)
    {
      live := {};
      for i := 0 to |s.tools|
        invariant live == NamesOf(s.tools[..i]) && tools == old(tools) + Registered(s, s.tools[..i])
      {
        hide DefOf;
        var t := s.tools[i];
        ghost var registered := Registered(s, s.tools[..i]);
        assert s.tools[..i + 1][..i] == s.tools[..i];
        assert (old(tools) + registered)[t.name := DefOf(s, t)] == old(tools) + registered[t.name := DefOf(s, t)];
        tools := tools[t.name := DefOf(s, t)];
        live := live + {t.name};
      }
      assert s.tools[..|s.tools|] == s.tools;
      RegisteredIs(s, s.tools);
    }

    method RememberOwners(live: set<string>, pluginOf: map<string, string>)
      modifies this`pluginTools
      ensures pluginTools == Owners(old(pluginTools), live, pluginOf)
    {
      var owned := map x | x in live && x in pluginOf :: pluginOf[x];
      pluginTools := pluginTools + owned;
      var core := set x | x in live && x !in pluginOf;
      pluginTools := pluginTools - core;
    }

    /** A plugin's tool is gone because its plugin is off, so it leaves no tombstone. */
    method Bury(live: set<string>, ghost defs: map<string, ToolDef>)
      requires defs.Keys == live && forall x | x in live :: x in tools && tools[x] == defs[x]
      modifies this`tools, this`removed
      ensures tools == defs && removed == Buried(old(tools), old(removed), live)
    {
      tools := map x | x in tools && (x in live || tools[x].plugin == "") :: tools[x];
      var vanished := tools.Keys - live;
      removed := map x | x in removed.Keys + vanished ::
        if x in removed then removed[x] else Tombstone(Some((tools[x].description, tools[x].skill)), None);
      tools := tools - vanished;
      removed := removed - live;
    }

    method Annotate(live: set<string>, listed: seq<Removal>)
      modifies this`removed
      ensures removed == Annotated(old(removed), live, listed)
    {
      for i := 0 to |listed|
        invariant removed == Annotated(old(removed), live, listed[..i])
      {
        assert listed[..i + 1][..i] == listed[..i];
        if listed[i].name !in live {
          removed := Noted(removed, listed[i]);
        }
      }
      assert listed[..|listed|] == listed;
    }
  }

  lemma {:induction false} RegisteredIs(s: Startup, tools: seq<Tool>)
    ensures Registered(s, tools).Keys == NamesOf(tools)
    ensures forall x | x in Registered(s, tools) :: Registered(s, tools)[x].plugin == Plugin(s, x)
  {
    if tools != [] {
      RegisteredIs(s, tools[..|tools| - 1]);
    }
  }

  // ── A history of startups ──

  function After(history: seq<Startup>): Graph {
    if history == [] then Graph(map[], map[], map[])
    else Next(After(history[..|history| - 1]), history[|history| - 1])
  }

  predicate LiveAt(history: seq<Startup>, x: string, k: int) {
    0 <= k < |history| && x in Live(history[k])
  }

  predicate GoneSince(history: seq<Startup>, x: string, k: int) {
    forall j | k <= j < |history| :: !LiveAt(history, x, j)
  }

  /** The startup at which a tool was last registered. */
  predicate LastLive(history: seq<Startup>, x: string, k: int) {
    LiveAt(history, x, k) && GoneSince(history, x, k + 1)
  }

  predicate ListedIn(s: Startup, x: string) {
    exists n | n in s.listed :: n.name == x
  }

  /** The YAML listed it at a startup since which it was never registered. */
  predicate ListedGone(history: seq<Startup>, x: string, j: int) {
    0 <= j < |history| && ListedIn(history[j], x) && GoneSince(history, x, j)
  }

  /** It is not registered, and the core owned it when it last was. */
  predicate VanishedCore(history: seq<Startup>, x: string, k: int) {
    LastLive(history, x, k) && k < |history| - 1 && Plugin(history[k], x) == ""
  }

  lemma {:induction false} AnnotatedIs(removed: map<string, Tombstone>, live: set<string>, listed: seq<Removal>)
    ensures forall x :: x in Annotated(removed, live, listed)
                        <==> x in removed || (x !in live && exists n :: n in listed && n.name == x)
    ensures forall x | x in Annotated(removed, live, listed) ::
              Annotated(removed, live, listed)[x].was == if x in removed then removed[x].was else None
  {
    if listed != [] {
      AnnotatedIs(removed, live, listed[..|listed| - 1]);
      assert listed == listed[..|listed| - 1] + [listed[|listed| - 1]];
    }
  }

  lemma BuriedIgnoresLive(tools: map<string, ToolDef>, removed: map<string, Tombstone>, defs: map<string, ToolDef>)
    ensures Buried(tools + defs, removed, defs.Keys) == Buried(tools, removed, defs.Keys)
  {
  }

  lemma NextIs(g: Graph, s: Startup, x: string)
    ensures x in Next(g, s).tools <==> x in Live(s)
    ensures x in Live(s) ==> x in Defs(s) && Next(g, s).tools[x] == Defs(s)[x] && Defs(s)[x].plugin == Plugin(s, x)
    ensures x in Next(g, s).removed
            <==> x !in Live(s) && (x in g.removed || (x in g.tools && g.tools[x].plugin == "") || ListedIn(s, x))
    ensures x in Next(g, s).removed ==>
              Next(g, s).removed[x].was
              == if x in g.removed then g.removed[x].was
                 else if x in g.tools && g.tools[x].plugin == "" then Some((g.tools[x].description, g.tools[x].skill))
                 else None
  {
    RegisteredIs(s, s.tools);
    AnnotatedIs(Buried(g.tools, g.removed, Live(s)), Live(s), s.listed);
  }

  lemma Later(but: seq<Startup>, s: Startup, x: string, k: int)
    ensures GoneSince(but + [s], x, k) <==> GoneSince(but, x, k) && (k <= |but| ==> x !in Live(s))
    ensures k < |but| ==> LiveAt(but + [s], x, k) == LiveAt(but, x, k)
    ensures LiveAt(but + [s], x, |but|) == (x in Live(s))
  {
    hide Live;
    var history := but + [s];
    forall j | j < |but| ensures LiveAt(history, x, j) == LiveAt(but, x, j) {
    }
    assert history[|but|] == s;
    if GoneSince(history, x, k) {
      assert k <= |but| ==> !LiveAt(history, x, |but|);
      forall j | k <= j < |but| ensures !LiveAt(but, x, j) {
        assert !LiveAt(history, x, j);
      }
    }
  }

  /** A tool is remembered as removed, told from the startups alone. */
  ghost predicate Removed(history: seq<Startup>, x: string) {
    (exists k :: VanishedCore(history, x, k)) || (exists j :: ListedGone(history, x, j))
  }

  lemma RemovedNext(but: seq<Startup>, s: Startup, x: string)
    ensures Removed(but + [s], x)
            <==> x !in Live(s)
                 && (Removed(but, x)
                     || (LiveAt(but, x, |but| - 1) && Plugin(but[|but| - 1], x) == "")
                     || ListedIn(s, x))
  {
    hide Live, GoneSince, LiveAt, ListedIn;
    var history := but + [s];
    Later(but, s, x, |but|);
    if LiveAt(but, x, |but| - 1) {
      LiveIsThere(but, x, |but| - 1);
    }
    if k :| VanishedCore(history, x, k) {
      Later(but, s, x, k);
      Later(but, s, x, k + 1);
      assert k < |but| - 1 ==> VanishedCore(but, x, k);
    }
    if j :| ListedGone(history, x, j) {
      Later(but, s, x, j);
      assert j < |but| ==> ListedGone(but, x, j);
    }
    if x !in Live(s) {
      GoneAtEnd(but, x);
      if k :| VanishedCore(but, x, k) {
        Later(but, s, x, k);
        Later(but, s, x, k + 1);
        assert VanishedCore(history, x, k);
      } else if j :| ListedGone(but, x, j) {
        Later(but, s, x, j);
        assert ListedGone(history, x, j);
      } else if but != [] && LiveAt(but, x, |but| - 1) && Plugin(but[|but| - 1], x) == "" {
        Later(but, s, x, |but| - 1);
        assert VanishedCore(history, x, |but| - 1);
      } else if ListedIn(s, x) {
        assert ListedGone(history, x, |but|);
      }
    }
  }

  lemma GoneAtEnd(history: seq<Startup>, x: string)
    ensures GoneSince(history, x, |history|)
  {
  }

  lemma LiveIsThere(history: seq<Startup>, x: string, k: int)
    requires LiveAt(history, x, k)
    ensures 0 <= k < |history|
  {
  }

  /** Over every history: the tools known are those of the last startup, as it registered
      them, and the tombstones are exactly of those not registered that the core owned when
      they last were, or that the YAML listed since. */
  lemma {:induction false} HistoryIs(history: seq<Startup>, x: string)
    ensures var g := After(history);
            && (x in g.tools <==> LiveAt(history, x, |history| - 1))
            && (x in g.tools ==> x in Defs(history[|history| - 1]) && g.tools[x] == Defs(history[|history| - 1])[x])
            && (x in g.removed <==> Removed(history, x))
    decreases |history|
  {
    if history == [] {
      assert !Removed(history, x);
    } else {
      var but, s := history[..|history| - 1], history[|history| - 1];
      assert history == but + [s];
      HistoryIs(but, x);
      NextIs(After(but), s, x);
      RemovedNext(but, s, x);
      Later(but, s, x, |but|);
      if but != [] && LiveAt(but, x, |but| - 1) {
        DefPlugin(but[|but| - 1], x);
      }
      hide Removed, Next, LiveAt;
    }
  }

  lemma DefPlugin(s: Startup, x: string)
    requires x in Live(s)
    ensures x in Defs(s) && Defs(s)[x].plugin == Plugin(s, x)
  {
    RegisteredIs(s, s.tools);
  }

  /** No registered tool has a tombstone. */
  lemma LiveHasNoTombstone(history: seq<Startup>)
    ensures After(history).tools.Keys !! After(history).removed.Keys
  {
    if history != [] {
      var but, s := history[..|history| - 1], history[|history| - 1];
      forall x | x in After(history).tools ensures x !in After(history).removed {
        NextIs(After(but), s, x);
      }
    }
  }

  /** The plugin remembered for a tool is the one that owned it when it was last registered;
      none if the core did, or if it never was. */
  lemma {:induction false} OwnerIs(history: seq<Startup>, x: string, owner: string)
    ensures x in After(history).pluginTools && After(history).pluginTools[x] == owner
            <==> exists k :: LastLive(history, x, k) && x in history[k].pluginOf && history[k].pluginOf[x] == owner
    decreases |history|
  {
    if history != [] {
      var but, s := history[..|history| - 1], history[|history| - 1];
      assert history == but + [s];
      OwnerIs(but, x, owner);
      Later(but, s, x, |but|);
      GoneAtEnd(history, x);
      hide Defs, Buried, Annotated, Live, GoneSince, LiveAt;
      if x in Live(s) {
        if k :| LastLive(history, x, k) {
          LiveIsThere(history, x, k);
          Later(but, s, x, k + 1);
        }
        assert LastLive(history, x, |but|);
      } else {
        if k :| LastLive(history, x, k) && x in history[k].pluginOf && history[k].pluginOf[x] == owner {
          LiveIsThere(history, x, k);
          Later(but, s, x, k);
          Later(but, s, x, k + 1);
          assert LastLive(but, x, k);
        }
        if k :| LastLive(but, x, k) && x in but[k].pluginOf && but[k].pluginOf[x] == owner {
          LiveIsThere(but, x, k);
          Later(but, s, x, k);
          Later(but, s, x, k + 1);
          assert LastLive(history, x, k);
        }
      }
    }
  }

  /** A tombstone keeps what the tool was at its last startup, however often it is
      annotated afterwards; one only the YAML knows of says nothing about that. */
  lemma {:induction false} TombstoneKeepsTool(history: seq<Startup>, x: string, k: int)
    requires VanishedCore(history, x, k)
    ensures x in After(history).removed && x in Defs(history[k])
    ensures After(history).removed[x].was == Some((Defs(history[k])[x].description, Defs(history[k])[x].skill))
    decreases |history|
  {
    var but, s := history[..|history| - 1], history[|history| - 1];
    assert history == but + [s];
    HistoryIs(but, x);
    NextIs(After(but), s, x);
    Later(but, s, x, |but|);
    Later(but, s, x, k);
    Later(but, s, x, k + 1);
    assert !LiveAt(history, x, |but|);
    DefPlugin(history[k], x);
    if k < |but| - 1 {
      TombstoneKeepsTool(but, x, k);
    } else {
      LiveHasNoTombstone(but);
    }
  }

  // ── What is written of a tool ──

  /** The last tool of that name. */
  predicate LastTool(tools: seq<Tool>, x: string, i: nat) {
    i < |tools| && tools[i].name == x && forall j | i < j < |tools| :: tools[j].name != x
  }

  /** A registered tool is written with its own description and skill, and the plugin that owns
      it, if one does. */
  lemma {:induction false} WrittenAs(s: Startup, tools: seq<Tool>, x: string) returns (i: nat)
    requires x in NamesOf(tools)
    ensures LastTool(tools, x, i) && x in Registered(s, tools)
    ensures var d := Registered(s, tools)[x];
            && d.description == tools[i].description && d.skill == tools[i].skill
            && d.plugin == if x in s.pluginOf then s.pluginOf[x] else ""
  {
    i := |tools| - 1;
    if tools[i].name != x {
      i := WrittenAs(s, tools[..|tools| - 1], x);
    }
  }

  /** The last listing of that name. */
  predicate LastListing(listed: seq<Removal>, x: string, i: nat) {
    i < |listed| && listed[i].name == x && forall j | i < j < |listed| :: listed[j].name != x
  }

  lemma {:induction false} AnnotatedNote(removed: map<string, Tombstone>, live: set<string>, listed: seq<Removal>,
                                         x: string)
    requires x !in live
    ensures var after := Annotated(removed, live, listed);
            && (forall i: nat | LastListing(listed, x, i) ::
                  x in after && after[x].note == Some((listed[i].reason, listed[i].replacedBy)))
            && ((forall i: nat :: !LastListing(listed, x, i)) ==>
                  (x in after <==> x in removed) && (x in after ==> after[x] == removed[x]))
  {
    if listed != [] {
      var but, n := listed[..|listed| - 1], |listed| - 1;
      AnnotatedNote(removed, live, but, x);
      if listed[n].name == x {
        assert LastListing(listed, x, n);
      } else {
        forall i: nat ensures LastListing(listed, x, i) <==> LastListing(but, x, i) {
          assert i < n ==> listed[i] == but[i];
        }
      }
    }
  }

  /** A tombstone says why the tool went and what replaced it as the YAML last listed it; a
      startup that does not list it leaves what it said, and a fresh one says nothing. */
  lemma TombstoneSays(g: Graph, s: Startup, x: string)
    requires x !in Live(s)
    ensures forall i: nat | LastListing(s.listed, x, i) ::
              x in Next(g, s).removed
              && Next(g, s).removed[x].note == Some((s.listed[i].reason, s.listed[i].replacedBy))
    ensures (forall i: nat :: !LastListing(s.listed, x, i)) && x in Next(g, s).removed ==>
              Next(g, s).removed[x].note == if x in g.removed then g.removed[x].note else None
  {
    AnnotatedNote(Buried(g.tools, g.removed, Live(s)), Live(s), s.listed, x);
    hide Annotated, Defs, LastListing, Live;
  }
}
