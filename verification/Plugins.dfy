/** Finding and loading plugin bundles: `Plugins::load_from` and `check` of
    crates/graph/src/bundles.rs. */
module Plugins {
  import opened Wrappers
  import opened Collections
  import opened Ordering
  import opened Text

  type Name = string

  const CORE: Name := "core"

  /** What a `plugin.yaml` says; `env` and `plugins` are its `requires`. */
  datatype Manifest = Manifest(name: Name, env: seq<string>, plugins: seq<Name>)

  /** A bundle directory: the manifest file's parse, by folder name. */
  type Dir = map<Name, Result<Manifest, string>>

  datatype Place = Shipped | External | Runtime

  datatype Reason =
    | CannotRead
    | BadYaml(error: string)
    | WrongName(says: Name)
    | NeedsEnv(unset: seq<string>)
    | DidNotLoad(plugin: Name)
    | RequiresItself
    | IsNotEnabled(plugin: Name)

  datatype Status = Loaded | NotEnabled | Skipped(reason: Reason)

  datatype Bundle = Bundle(name: Name, place: Place, manifest: Option<Manifest>, status: Status)

  datatype Check = Ready | Wait(reason: Reason) | Fail(reason: Reason)

  /** What is on disk and in the environment. */
  datatype World = World(dir: Dir, extra: seq<Dir>, runtime: Option<Dir>, env: string -> Option<string>) {

    function FirstWith(dirs: seq<Dir>, name: Name): Option<Dir> {
      if dirs == [] then None
      else if name in dirs[0] then Some(dirs[0])
      else FirstWith(dirs[1..], name)
    }

    /** Shipped, then an extra folder, then the runtime folder. */
    function RootOf(name: Name): (Place, Dir) {
      if name in dir then (Shipped, dir)
      else if FirstWith(extra, name).Some? then (External, FirstWith(extra, name).value)
      else if runtime.Some? && name in runtime.value then (Runtime, runtime.value)
      else (Shipped, dir)
    }

    function ReadManifest(name: Name): Result<Manifest, Reason> {
      var files := RootOf(name).1;
      if name !in files then Err(CannotRead)
      else match files[name]
        case Err(e) => Err(BadYaml(e))
        case Ok(m) => if m.name != name then Err(WrongName(m.name)) else Ok(m)
    }

    predicate IsSet(k: string) {
      env(k).Some? && Trim(env(k).value) != ""
    }

    function Unset(keys: seq<string>): seq<string> {
      if keys == [] then []
      else (if IsSet(keys[0]) then [] else [keys[0]]) + Unset(keys[1..])
    }

    /** The bundle's own conditions: a valid manifest, and its environment set. */
    predicate Sound(name: Name) {
      ReadManifest(name).Ok? && forall k | k in ReadManifest(name).value.env :: IsSet(k)
    }

    function Needs(name: Name): seq<Name> {
      if ReadManifest(name).Ok? then ReadManifest(name).value.plugins else []
    }

    /** Nothing wanted is missing from `s` whose conditions and requirements `s` meets. */
    ghost predicate Closed(wanted: seq<Name>, s: set<Name>) {
      forall n | n in wanted && Sound(n) && (forall p | p in Needs(n) :: p in s) :: n in s
    }

    /** `s` is the least set closed under "manifest valid, environment set, requirements met". */
    ghost predicate IsLeast(wanted: seq<Name>, s: set<Name>) {
      Closed(wanted, s) && forall t | Closed(wanted, t) :: s <= t
    }
  }

  /** The first of the folders that has the bundle. */
  predicate FirstHas(dirs: seq<Dir>, name: Name, i: nat) {
    i < |dirs| && name in dirs[i] && forall j | 0 <= j < i :: name !in dirs[j]
  }

  lemma {:induction false} FirstWithIs(w: World, dirs: seq<Dir>, name: Name)
    ensures w.FirstWith(dirs, name).None? <==> name !in AllKeys(dirs)
    ensures name in AllKeys(dirs) <==> exists i: nat :: FirstHas(dirs, name, i)
    ensures forall i: nat | FirstHas(dirs, name, i) :: w.FirstWith(dirs, name) == Some(dirs[i])
  {
    if dirs != [] {
      FirstWithIs(w, dirs[1..], name);
      if name in dirs[0] {
        assert FirstHas(dirs, name, 0);
      }
      forall i: nat | name !in dirs[0] ensures FirstHas(dirs, name, i + 1) <==> FirstHas(dirs[1..], name, i) {
        LaterHas(dirs, name, i);
      }
      forall i: nat | FirstHas(dirs, name, i) ensures w.FirstWith(dirs, name) == Some(dirs[i]) {
        if i > 0 {
          assert FirstHas(dirs[1..], name, i - 1);
        }
      }
    }
  }

  lemma LaterHas(dirs: seq<Dir>, name: Name, i: nat)
    requires dirs != [] && name !in dirs[0]
    ensures FirstHas(dirs, name, i + 1) <==> FirstHas(dirs[1..], name, i)
  {
    if FirstHas(dirs, name, i + 1) {
      forall j | 0 <= j < i ensures name !in dirs[1..][j] {
        assert dirs[1..][j] == dirs[j + 1];
      }
    }
    if FirstHas(dirs[1..], name, i) {
      forall j | 0 <= j < i + 1 ensures name !in dirs[j] {
        if j > 0 {
          assert dirs[1..][j - 1] == dirs[j];
        }
      }
    }
  }

  /** A bundle is read from the shipped folder if it is there, else from the first extra folder
      that has it, else from the runtime folder; one that is in none of them is not read, and
      the folders found are just those. */
  lemma RootIs(w: World, name: Name)
    ensures name in w.dir ==> w.RootOf(name) == (Shipped, w.dir)
    ensures forall i: nat | name !in w.dir && FirstHas(w.extra, name, i) :: w.RootOf(name) == (External, w.extra[i])
    ensures name !in w.dir && !(exists i: nat :: FirstHas(w.extra, name, i)) ==>
              (w.runtime.Some? && name in w.runtime.value ==> w.RootOf(name) == (Runtime, w.runtime.value))
    ensures name in Present(w) <==>
              || name in w.dir || (exists i: nat :: FirstHas(w.extra, name, i))
              || (w.runtime.Some? && name in w.runtime.value)
    ensures name !in Present(w) <==> w.ReadManifest(name) == Err(CannotRead)
  {
    FirstWithIs(w, w.extra, name);
    hide AllKeys, World.FirstWith;
    forall i: nat | FirstHas(w.extra, name, i) ensures name in w.extra[i] {
    }
    hide FirstHas;
  }

  /** A requirement on the environment is met by a value that is not blank. */
  lemma EnvIsSet(w: World, k: string)
    ensures w.IsSet(k) <==> w.env(k).Some? && exists c :: c in w.env(k).value && !IsSpace(c)
  {
    if w.env(k).Some? {
      BlankIff(w.env(k).value);
    }
    hide Trim;
  }

  // ── Deciding one bundle ──

  function StatusOf(bundles: seq<Bundle>, name: Name): Option<Status> {
    if bundles == [] then None
    else if bundles[0].name == name then Some(bundles[0].status)
    else StatusOf(bundles[1..], name)
  }

  function CheckNeeds(name: Name, needs: seq<Name>, bundles: seq<Bundle>): Check {
    if needs == [] then Ready
    else match StatusOf(bundles, needs[0])
      case Some(Loaded) => CheckNeeds(name, needs[1..], bundles)
      case Some(_) => Fail(DidNotLoad(needs[0]))
      case None => if needs[0] == name then Fail(RequiresItself) else Wait(IsNotEnabled(needs[0]))
  }

  function CheckBundle(w: World, name: Name, bundles: seq<Bundle>): Check {
    match w.ReadManifest(name)
    case Err(e) => Fail(e)
    case Ok(m) =>
      var unset := w.Unset(m.env);
      if unset != [] then Fail(NeedsEnv(unset)) else CheckNeeds(name, m.plugins, bundles)
  }

  function LoadedNames(bundles: seq<Bundle>): set<Name> {
    set b | b in bundles && b.status == Loaded :: b.name
  }

  function Names(bundles: seq<Bundle>): seq<Name> {
    seq(|bundles|, i requires 0 <= i < |bundles| => bundles[i].name)
  }

  lemma {:induction false} UnsetEmpty(w: World, keys: seq<string>)
    ensures w.Unset(keys) == [] <==> forall k | k in keys :: w.IsSet(k)
  {
    if keys != [] {
      UnsetEmpty(w, keys[1..]);
      assert keys == [keys[0]] + keys[1..];
    }
  }

  lemma NamesAre(bundles: seq<Bundle>, name: Name)
    ensures name in Names(bundles) <==> exists b :: b in bundles && b.name == name
  {
    if name in Names(bundles) {
      var i :| 0 <= i < |bundles| && Names(bundles)[i] == name;
      assert bundles[i] in bundles;
    }
    if b :| b in bundles && b.name == name {
      var i :| 0 <= i < |bundles| && bundles[i] == b;
      assert Names(bundles)[i] == name;
    }
  }

  lemma {:induction false} StatusIs(bundles: seq<Bundle>, name: Name)
    requires NoDup(Names(bundles))
    ensures StatusOf(bundles, name) == Some(Loaded) <==> name in LoadedNames(bundles)
    ensures StatusOf(bundles, name).None? <==> name !in Names(bundles)
    ensures forall b | b in bundles && b.name == name :: StatusOf(bundles, name) == Some(b.status)
  {
    NamesAre(bundles, name);
    if bundles != [] {
      var rest := bundles[1..];
      assert bundles == [bundles[0]] + rest;
      assert Names(bundles) == [bundles[0].name] + Names(rest);
      NoDupHead(bundles[0].name, Names(rest));
      StatusIs(rest, name);
      NamesAre(rest, name);
      NamesAre(rest, bundles[0].name);
    }
  }

  /** A reason that can no longer change: the manifest or the environment is at fault, or
      a requirement that is the bundle itself or has been decided against. */
  ghost predicate Refused(w: World, name: Name, r: Reason, bundles: seq<Bundle>) {
    match r
    case NeedsEnv(unset) => w.ReadManifest(name).Ok? && unset == w.Unset(w.ReadManifest(name).value.env) && unset != []
    case DidNotLoad(p) => p in w.Needs(name) && p in Names(bundles) && p !in LoadedNames(bundles)
    case RequiresItself => name in w.Needs(name)
    case IsNotEnabled(_) => false
    case _ => w.ReadManifest(name) == Err(r)
  }

  lemma {:induction false} NeedsAnswer(name: Name, needs: seq<Name>, bundles: seq<Bundle>)
    requires NoDup(Names(bundles))
    ensures var answer := CheckNeeds(name, needs, bundles);
            && (answer.Ready? <==> forall p | p in needs :: p in LoadedNames(bundles))
            && match answer
               case Ready => true
               case Wait(r) =>
                 r.IsNotEnabled? && r.plugin in needs && r.plugin !in Names(bundles) && r.plugin != name
               case Fail(r) =>
                 || (r.DidNotLoad? && r.plugin in needs && r.plugin in Names(bundles)
                   && r.plugin !in LoadedNames(bundles))
                 || (r.RequiresItself? && name in needs)
  {
    if needs != [] {
      StatusIs(bundles, needs[0]);
      NamesAre(bundles, needs[0]);
      NeedsAnswer(name, needs[1..], bundles);
      assert needs == [needs[0]] + needs[1..];
    }
  }

  /** A bundle is ready exactly when its own conditions hold and all it requires is loaded;
      otherwise the answer names what is in the way. */
  lemma CheckAnswer(w: World, name: Name, bundles: seq<Bundle>)
    requires NoDup(Names(bundles))
    ensures var answer := CheckBundle(w, name, bundles);
            && (answer.Ready? <==> w.Sound(name) && forall p | p in w.Needs(name) :: p in LoadedNames(bundles))
            && match answer
               case Ready => true
               case Wait(r) =>
                 && w.Sound(name) && r.IsNotEnabled?
                 && r.plugin in w.Needs(name) && r.plugin !in Names(bundles) && r.plugin != name
               case Fail(r) => Refused(w, name, r, bundles)
  {
    if w.ReadManifest(name).Ok? {
      UnsetEmpty(w, w.ReadManifest(name).value.env);
      NeedsAnswer(name, w.Needs(name), bundles);
    }
  }

  // ── Loading to a fixpoint ──

  /** What every round keeps: each wanted name is decided or pending, once; what is loaded
      belongs to every closed set, and meets its conditions; what was skipped fails its own
      conditions or requires something that is not loaded. */
  ghost predicate Progress(w: World, wanted: seq<Name>, bundles: seq<Bundle>, pending: seq<Name>) {
    && NoDup(Names(bundles) + pending)
    && multiset(Names(bundles) + pending) == multiset(wanted)
    && (forall t | w.Closed(wanted, t) :: LoadedNames(bundles) <= t)
    && (forall b | b in bundles ::
          match b.status
          case Loaded => w.Sound(b.name) && forall p | p in w.Needs(b.name) :: p in LoadedNames(bundles)
          case Skipped(r) => Refused(w, b.name, r, bundles)
          case NotEnabled => false)
  }

  function BundleOf(w: World, name: Name, status: Status): Bundle {
    Bundle(name, w.RootOf(name).0, match w.ReadManifest(name) case Ok(m) => Some(m) case Err(_) => None, status)
  }

  /** It shows where its name is found and the manifest read there, if one can be. */
  predicate Shows(w: World, b: Bundle) {
    && b.place == w.RootOf(b.name).0
    && (b.manifest.Some? <==> w.ReadManifest(b.name).Ok?)
    && (b.manifest.Some? ==> Ok(b.manifest.value) == w.ReadManifest(b.name))
  }

  ghost predicate AllShow(w: World, bundles: seq<Bundle>) {
    forall b | b in bundles :: Shows(w, b)
  }

  lemma OneShows(w: World, bundles: seq<Bundle>, name: Name, status: Status)
    requires AllShow(w, bundles)
    ensures AllShow(w, bundles + [BundleOf(w, name, status)])
  {
  }

  lemma NamesAppend(bundles: seq<Bundle>, b: Bundle)
    ensures Names(bundles + [b]) == Names(bundles) + [b.name]
    ensures LoadedNames(bundles + [b]) == LoadedNames(bundles) + if b.status == Loaded then {b.name} else {}
  {
  }

  lemma DecideOne(w: World, wanted: seq<Name>, bundles: seq<Bundle>, name: Name, rest: seq<Name>, status: Status)
    requires Progress(w, wanted, bundles, [name] + rest)
    requires status == Loaded ==> CheckBundle(w, name, bundles).Ready?
    requires status.Skipped? ==> CheckBundle(w, name, bundles) == Fail(status.reason)
    requires !status.NotEnabled?
    ensures Progress(w, wanted, bundles + [BundleOf(w, name, status)], rest)
  {
    var b := BundleOf(w, name, status);
    var after := bundles + [b];
    NamesAppend(bundles, b);
    assert Names(bundles) + ([name] + rest) == Names(after) + rest;
    NoDupPrefix(Names(bundles), [name] + rest);
    NoDupPrefix(Names(after), rest);
    CheckAnswer(w, name, bundles);
    assert name in multiset(wanted) by {
      assert name in Names(after);
      assert name in Names(after) + rest;
    }
    if status == Loaded {
      JoinsEvery(w, wanted, bundles, name);
    }
    hide World.Closed, World.Sound, Refused, CheckBundle;
    forall c | c in after
      ensures match c.status
              case Loaded => w.Sound(c.name) && forall p | p in w.Needs(c.name) :: p in LoadedNames(after)
              case Skipped(r) => Refused(w, c.name, r, after)
              case NotEnabled => false
    {
      if c in bundles {
        if c.status.Skipped? {
          StillRefused(w, c.name, c.status.reason, bundles, b);
        }
      } else if status.Skipped? {
        StillRefused(w, name, status.reason, bundles, b);
      }
    }
  }

  lemma JoinsEvery(w: World, wanted: seq<Name>, bundles: seq<Bundle>, name: Name)
    requires name in wanted && w.Sound(name) && forall p | p in w.Needs(name) :: p in LoadedNames(bundles)
    requires forall t | w.Closed(wanted, t) :: LoadedNames(bundles) <= t
    ensures forall t | w.Closed(wanted, t) :: name in t
  {
  }

  lemma StillRefused(w: World, name: Name, r: Reason, bundles: seq<Bundle>, b: Bundle)
    requires NoDup(Names(bundles + [b]))
    requires Refused(w, name, r, bundles)
    ensures Refused(w, name, r, bundles + [b])
  {
    NamesAppend(bundles, b);
    NoDupPrefix(Names(bundles), [b.name]);
  }

  lemma Reorder(w: World, wanted: seq<Name>, bundles: seq<Bundle>, pending: seq<Name>, pending': seq<Name>)
    requires Progress(w, wanted, bundles, pending) && multiset(pending) == multiset(pending')
    ensures Progress(w, wanted, bundles, pending')
  {
    PermutedNoDup(Names(bundles) + pending, Names(bundles) + pending');
  }

  lemma NextOne(w: World, wanted: seq<Name>, bundles: seq<Bundle>, still: seq<Name>, name: Name, rest: seq<Name>)
    requires Progress(w, wanted, bundles, still + ([name] + rest))
    ensures Progress(w, wanted, bundles, [name] + (still + rest))
    ensures Progress(w, wanted, bundles, (still + [name]) + rest)
  {
    hide Progress;
    assert (still + [name]) + rest == still + ([name] + rest);
    Reorder(w, wanted, bundles, still + ([name] + rest), [name] + (still + rest));
  }

  lemma ShowsIfAll(w: World, bundles: seq<Bundle>, name: Name)
    ensures forall status :: AllShow(w, bundles) ==> AllShow(w, bundles + [BundleOf(w, name, status)])
  {
    forall status | AllShow(w, bundles) ensures AllShow(w, bundles + [BundleOf(w, name, status)]) {
      OneShows(w, bundles, name, status);
    }
  }

  /** One pass over the pending bundles. With nothing decided, every one is waiting. */
  method Round(w: World, ghost wanted: seq<Name>, decided: seq<Bundle>, pending: seq<Name>)
      returns (bundles: seq<Bundle>, still: seq<Name>)
    requires Progress(w, wanted, decided, pending)
    ensures Progress(w, wanted, bundles, still) && (AllShow(w, decided) ==> AllShow(w, bundles))
    ensures |still| <= |pending|
    ensures |still| == |pending| ==> bundles == decided && forall n | n in still :: CheckBundle(w, n, bundles).Wait?
  {
    hide Progress, CheckBundle, BundleOf, AllShow;
    bundles, still := decided, [];
    assert still + pending[0..] == pending;
    for i := 0 to |pending|
      invariant Progress(w, wanted, bundles, still + pending[i..]) && (AllShow(w, decided) ==> AllShow(w, bundles))
      invariant |still| <= i
      invariant |still| == i ==> bundles == decided && forall n | n in still :: CheckBundle(w, n, bundles).Wait?
    {
      var name := pending[i];
      ghost var rest := pending[i + 1..];
      assert pending[i..] == [name] + rest;
      NextOne(w, wanted, bundles, still, name, rest);
      ShowsIfAll(w, bundles, name);
      match CheckBundle(w, name, bundles) {
        case Ready =>
          DecideOne(w, wanted, bundles, name, still + rest, Loaded);
          bundles := bundles + [BundleOf(w, name, Loaded)];
        case Fail(reason) =>
          DecideOne(w, wanted, bundles, name, still + rest, Skipped(reason));
          bundles := bundles + [BundleOf(w, name, Skipped(reason))];
        case Wait(_) =>
          still := still + [name];
      }
    }
    assert still + pending[|pending|..] == still;
  }

  /** What a skipped bundle is told is true of what finally loaded; that a plugin "is not
      enabled" only means here that it did not load. */
  ghost predicate SkippedRightly(w: World, name: Name, r: Reason, loaded: set<Name>) {
    match r
    case NeedsEnv(unset) => w.ReadManifest(name).Ok? && unset == w.Unset(w.ReadManifest(name).value.env) && unset != []
    case DidNotLoad(p) => p in w.Needs(name) && p !in loaded
    case RequiresItself => name in w.Needs(name)
    case IsNotEnabled(p) => p in w.Needs(name) && p !in loaded
    case _ => w.ReadManifest(name) == Err(r)
  }

  /** Every name of `names` is decided, once, and the loaded ones can only be these. */
  ghost predicate Settled(w: World, wanted: seq<Name>, bundles: seq<Bundle>, pending: seq<Name>) {
    && NoDup(Names(bundles) + pending)
    && multiset(Names(bundles) + pending) == multiset(wanted)
    && (forall t | w.Closed(wanted, t) :: LoadedNames(bundles) <= t)
    && (forall b | b in bundles ::
          match b.status
          case Loaded => w.Sound(b.name) && forall p | p in w.Needs(b.name) :: p in LoadedNames(bundles)
          case Skipped(r) => SkippedRightly(w, b.name, r, LoadedNames(bundles))
          case NotEnabled => false)
  }

  lemma ProgressSettles(w: World, wanted: seq<Name>, bundles: seq<Bundle>, pending: seq<Name>)
    requires Progress(w, wanted, bundles, pending)
    ensures Settled(w, wanted, bundles, pending)
  {
  }

  /** A waiting bundle is skipped with what it is told now, which is never "ready". */
  lemma GiveUpOne(w: World, wanted: seq<Name>, bundles: seq<Bundle>, name: Name, rest: seq<Name>)
    requires Settled(w, wanted, bundles, [name] + rest)
    requires !w.Sound(name) || exists p :: p in w.Needs(name) && p !in LoadedNames(bundles)
    ensures !CheckBundle(w, name, bundles).Ready?
    ensures Settled(w, wanted, bundles + [BundleOf(w, name, Skipped(CheckBundle(w, name, bundles).reason))], rest)
  {
    NoDupPrefix(Names(bundles), [name] + rest);
    ToldRightly(w, name, bundles);
    var b := BundleOf(w, name, Skipped(CheckBundle(w, name, bundles).reason));
    NamesAppend(bundles, b);
    assert Names(bundles) + ([name] + rest) == Names(bundles + [b]) + rest;
    hide World.Closed, World.Sound, CheckBundle, SkippedRightly, Names, LoadedNames;
  }

  lemma ToldRightly(w: World, name: Name, bundles: seq<Bundle>)
    requires NoDup(Names(bundles))
    requires !w.Sound(name) || exists p :: p in w.Needs(name) && p !in LoadedNames(bundles)
    ensures !CheckBundle(w, name, bundles).Ready?
    ensures SkippedRightly(w, name, CheckBundle(w, name, bundles).reason, LoadedNames(bundles))
  {
    CheckAnswer(w, name, bundles);
    var r := CheckBundle(w, name, bundles).reason;
    if r.IsNotEnabled? {
      NamesAre(bundles, r.plugin);
    }
  }

  /** The bundle is `still[i]`, skipped; a plugin it is told "is not enabled" is one of the
      enabled exactly when it comes later among the waiting. */
  ghost predicate ToldAt(b: Bundle, wanted: seq<Name>, still: seq<Name>, i: nat)
    requires i < |still|
  {
    && b.name == still[i] && b.status.Skipped?
    && (b.status.reason.IsNotEnabled? ==> (b.status.reason.plugin in wanted
      <==> b.status.reason.plugin in still[i + 1..]))
  }

  ghost predicate AllTold(told: seq<Bundle>, wanted: seq<Name>, still: seq<Name>) {
    |told| <= |still| && forall i | 0 <= i < |told| :: ToldAt(told[i], wanted, still, i)
  }

  lemma NoneTold(wanted: seq<Name>, still: seq<Name>)
    ensures AllTold([], wanted, still)
  {
  }

  lemma ToldMore(told: seq<Bundle>, b: Bundle, wanted: seq<Name>, still: seq<Name>)
    requires AllTold(told, wanted, still) && |told| < |still| && ToldAt(b, wanted, still, |told|)
    ensures AllTold(told + [b], wanted, still)
  {
    hide ToldAt;
  }

  lemma ToldOne(w: World, wanted: seq<Name>, bundles: seq<Bundle>, still: seq<Name>, i: nat)
    requires i < |still| && Settled(w, wanted, bundles, still[i..])
    requires !CheckBundle(w, still[i], bundles).Ready?
    ensures ToldAt(BundleOf(w, still[i], Skipped(CheckBundle(w, still[i], bundles).reason)), wanted, still, i)
  {
    hide World.Closed, World.Sound, CheckBundle, SkippedRightly, LoadedNames;
    var all := Names(bundles) + still[i..];
    NoDupPrefix(Names(bundles), still[i..]);
    CheckAnswer(w, still[i], bundles);
    var r := CheckBundle(w, still[i], bundles).reason;
    if r.IsNotEnabled? {
      assert r.plugin in wanted <==> r.plugin in multiset(all);
      assert r.plugin in all <==> r.plugin in Names(bundles) || r.plugin in still[i..];
      assert still[i..] == [still[i]] + still[i + 1..];
    }
  }

  /** The exit when a pass decided nothing: what is left is skipped, in order. */
  method GiveUp(w: World, ghost wanted: seq<Name>, decided: seq<Bundle>, still: seq<Name>)
      returns (bundles: seq<Bundle>, ghost told: seq<Bundle>)
    requires Progress(w, wanted, decided, still)
    requires forall n | n in still :: CheckBundle(w, n, decided).Wait?
    ensures Settled(w, wanted, bundles, []) && (AllShow(w, decided) ==> AllShow(w, bundles))
    ensures LoadedNames(bundles) == LoadedNames(decided)
    ensures bundles == decided + told && |told| == |still| && AllTold(told, wanted, still)
  {
    assert NoDup(Names(decided) + still);
    hide ToldAt, AllTold, Settled, Progress, CheckBundle, LoadedNames, Names, SkippedRightly, BundleOf, NoDup, AllShow;
    NoneTold(wanted, still);
    told := [];
    bundles := decided;
    NoDupPrefix(Names(decided), still);
    ProgressSettles(w, wanted, decided, still);
    for i := 0 to |still|
      invariant Settled(w, wanted, bundles, still[i..]) && (AllShow(w, decided) ==> AllShow(w, bundles))
      invariant LoadedNames(bundles) == LoadedNames(decided)
      invariant bundles == decided + told && |told| == i && AllTold(told, wanted, still)
    {
      var name := still[i];
      GiveUpStep(w, wanted, decided, bundles, still, i);
      ShowsIfAll(w, bundles, name);
      var reason;
      match CheckBundle(w, name, bundles) {
        case Ready =>
          assert false;
        case Wait(r) =>
          reason := r;
        case Fail(r) =>
          reason := r;
      }
      var b := BundleOf(w, name, Skipped(reason));
      Assoc(decided, told, [b]);
      ToldMore(told, b, wanted, still);
      bundles, told := bundles + [b], told + [b];
    }
    assert still[|still|..] == [];
  }

  lemma GiveUpStep(w: World, wanted: seq<Name>, decided: seq<Bundle>, bundles: seq<Bundle>, still: seq<Name>, i: nat)
    requires i < |still| && Settled(w, wanted, bundles, still[i..])
    requires NoDup(Names(decided)) && CheckBundle(w, still[i], decided).Wait?
    requires LoadedNames(bundles) == LoadedNames(decided)
    ensures !CheckBundle(w, still[i], bundles).Ready?
    ensures var b := BundleOf(w, still[i], Skipped(CheckBundle(w, still[i], bundles).reason));
            && Settled(w, wanted, bundles + [b], still[i + 1..])
            && LoadedNames(bundles + [b]) == LoadedNames(bundles)
            && ToldAt(b, wanted, still, i)
  {
    hide ToldAt, Settled, CheckBundle, LoadedNames, Names, SkippedRightly, World.Sound;
    assert still[i..] == [still[i]] + still[i + 1..];
    Unready(w, still[i], decided);
    GiveUpOne(w, wanted, bundles, still[i], still[i + 1..]);
    ToldOne(w, wanted, bundles, still, i);
    NamesAppend(bundles, BundleOf(w, still[i], Skipped(CheckBundle(w, still[i], bundles).reason)));
  }

  lemma Unready(w: World, name: Name, bundles: seq<Bundle>)
    requires NoDup(Names(bundles)) && CheckBundle(w, name, bundles).Wait?
    ensures !w.Sound(name) || exists p :: p in w.Needs(name) && p !in LoadedNames(bundles)
  {
    CheckAnswer(w, name, bundles);
  }

  /** The rounds: as many as decide something. */
  method Resolve(w: World, wanted: seq<Name>) returns (bundles: seq<Bundle>)
    requires NoDup(wanted)
    ensures Settled(w, wanted, bundles, []) && AllShow(w, bundles)
  {
    bundles := [];
    var pending := wanted;
    assert Names(bundles) + pending == wanted;
    while true
      invariant Progress(w, wanted, bundles, pending) && AllShow(w, bundles)
      decreases |pending|
    {
      var before := |pending|;
      var still;
      bundles, still := Round(w, wanted, bundles, pending);
      if still == [] {
        ProgressSettles(w, wanted, bundles, still);
        return;
      }
      if |still| == before {
        ghost var told;
        bundles, told := GiveUp(w, wanted, bundles, still);
        return;
      }
      pending := still;
    }
  }

  /** What finally loaded is the least fixpoint. */
  lemma SettledIsLeast(w: World, wanted: seq<Name>, bundles: seq<Bundle>)
    requires Settled(w, wanted, bundles, [])
    ensures w.IsLeast(wanted, LoadedNames(bundles))
  {
    var loaded := LoadedNames(bundles);
    assert Names(bundles) + [] == Names(bundles);
    forall n | n in wanted && w.Sound(n) && (forall p | p in w.Needs(n) :: p in loaded) ensures n in loaded {
      assert n in multiset(wanted);
      assert n in Names(bundles);
      NamesAre(bundles, n);
      var b :| b in bundles && b.name == n;
      if b.status.Skipped? {
        UnsetEmpty(w, w.ReadManifest(n).value.env);
        NoDupNames(bundles, b);
      }
    }
  }

  lemma NoDupNames(bundles: seq<Bundle>, b: Bundle)
    requires NoDup(Names(bundles)) && b in bundles && b.status != Loaded
    ensures b.name !in LoadedNames(bundles)
  {
    StatusIs(bundles, b.name);
  }

  // ── The list that is shown ──

  /** The core, then each enabled name once, in order. */
  method Wanted(enabled: seq<string>) returns (wanted: seq<Name>)
    ensures NoDup(wanted) && wanted != [] && wanted[0] == CORE
    ensures forall x :: x in wanted <==> x == CORE || (x != "" && exists n :: n in enabled && Trim(n) == x)
  {
    wanted := [CORE];
    for i := 0 to |enabled|
      invariant NoDup(wanted) && wanted != [] && wanted[0] == CORE
      invariant forall x :: x in wanted <==> x == CORE || (x != "" && exists n :: n in enabled[..i] && Trim(n) == x)
    {
      var n := Trim(enabled[i]);
      assert enabled[..i + 1] == enabled[..i] + [enabled[i]];
      if n != "" && n !in wanted {
        wanted := wanted + [n];
      }
    }
    assert enabled[..|enabled|] == enabled;
  }

  function Position(names: seq<Name>, name: Name): nat {
    if names == [] || names[0] == name then 0 else 1 + Position(names[1..], name)
  }

  function NameOrder(wanted: seq<Name>): (Name, Name) -> bool {
    (a, b) => Position(wanted, a) <= Position(wanted, b)
  }

  function BundleOrder(wanted: seq<Name>): (Bundle, Bundle) -> bool {
    (a: Bundle, b: Bundle) => Position(wanted, a.name) <= Position(wanted, b.name)
  }

  lemma {:induction false} PositionIs(names: seq<Name>, i: nat)
    requires NoDup(names) && i < |names|
    ensures Position(names, names[i]) == i
  {
    assert names == [names[0]] + names[1..];
    NoDupHead(names[0], names[1..]);
    if i > 0 {
      assert names[i] == names[1..][i - 1];
      PositionIs(names[1..], i - 1);
    }
  }

  lemma {:induction false} NamesInsert(b: Bundle, bundles: seq<Bundle>, wanted: seq<Name>)
    ensures Names(Insert(b, bundles, BundleOrder(wanted))) == Insert(b.name, Names(bundles), NameOrder(wanted))
  {
    if bundles == [] {
      assert Names([b]) == [b.name];
    } else {
      assert Names(bundles) == [bundles[0].name] + Names(bundles[1..]);
      NamesInsert(b, bundles[1..], wanted);
      assert Names([b] + bundles) == [b.name] + Names(bundles);
      var t := Insert(b, bundles[1..], BundleOrder(wanted));
      assert Names([bundles[0]] + t) == [bundles[0].name] + Names(t);
      assert Names(bundles)[1..] == Names(bundles[1..]);
    }
  }

  lemma {:induction false} NamesSort(bundles: seq<Bundle>, wanted: seq<Name>)
    ensures Names(Sort(bundles, BundleOrder(wanted))) == Sort(Names(bundles), NameOrder(wanted))
  {
    if bundles != [] {
      NamesSort(bundles[1..], wanted);
      NamesInsert(bundles[0], Sort(bundles[1..], BundleOrder(wanted)), wanted);
      assert Names(bundles) == [bundles[0].name] + Names(bundles[1..]);
      assert Names(bundles)[1..] == Names(bundles[1..]);
    }
  }

  /** Sorting by position gives back the wanted order. */
  lemma RequestedOrder(bundles: seq<Bundle>, wanted: seq<Name>)
    requires NoDup(wanted) && multiset(Names(bundles)) == multiset(wanted)
    ensures Names(Sort(bundles, BundleOrder(wanted))) == wanted
  {
    var le := NameOrder(wanted);
    var sorted := Sort(Names(bundles), le);
    NamesSort(bundles, wanted);
    SortOk(Names(bundles), le);
    forall i, j | 0 <= i < j < |wanted| ensures le(wanted[i], wanted[j]) {
      PositionIs(wanted, i);
      PositionIs(wanted, j);
    }
    forall a, b | a in sorted && b in sorted && le(a, b) && le(b, a) ensures a == b {
      assert a in multiset(sorted) && b in multiset(sorted);
      var i :| 0 <= i < |wanted| && wanted[i] == a;
      var j :| 0 <= j < |wanted| && wanted[j] == b;
      PositionIs(wanted, i);
      PositionIs(wanted, j);
    }
    SortedUnique(sorted, wanted, le);
  }

  function AllKeys(dirs: seq<Dir>): set<Name> {
    if dirs == [] then {} else dirs[0].Keys + AllKeys(dirs[1..])
  }

  /** Every bundle folder found anywhere. */
  function Present(w: World): set<Name> {
    w.dir.Keys + AllKeys(w.extra) + if w.runtime.Some? then w.runtime.value.Keys else {}
  }

  /** The names of `s`, sorted: whatever order the folders are listed in. */
  method SortedNames(s: set<Name>) returns (names: seq<Name>)
    ensures Sorted(names, Le) && NoDup(names) && forall x :: x in names <==> x in s
  {
    var todo := s;
    var found: seq<Name> := [];
    while todo != {}
      invariant todo <= s && NoDup(found) && forall x :: x in found <==> x in s && x !in todo
      decreases todo
    {
      var x :| x in todo;
      todo := todo - {x};
      found := found + [x];
    }
    forall a, b ensures Le(a, b) || Le(b, a) { LeTotal(a, b); }
    forall a, b, c | Le(a, b) && Le(b, c) ensures Le(a, c) { LeTransitive(a, b, c); }
    SortOk(found, Le);
    names := Sort(found, Le);
    PermutedNoDup(found, names);
  }

  lemma OthersShow(w: World, others: seq<Name>, rest: seq<Bundle>)
    requires |rest| == |others| && forall i | 0 <= i < |rest| :: rest[i] == BundleOf(w, others[i], NotEnabled)
    ensures Names(rest) == others && forall b | b in rest :: b.status == NotEnabled && Shows(w, b)
  {
  }

  /** `load_from`: the wanted bundles in the order asked for, each loaded or skipped, then
      the others present. Exactly the least fixpoint loads. */
  method LoadFrom(w: World, enabled: seq<string>) returns (wanted: seq<Name>, bundles: seq<Bundle>)
    ensures NoDup(wanted)
            && forall x :: x in wanted <==> x == CORE || (x != "" && exists n :: n in enabled && Trim(n) == x)
    ensures |wanted| <= |bundles| && Names(bundles[..|wanted|]) == wanted
    ensures w.IsLeast(wanted, LoadedNames(bundles))
    ensures forall b | b in bundles[..|wanted|] ::
              || b.status == Loaded
              || (b.status.Skipped? && SkippedRightly(w, b.name, b.status.reason, LoadedNames(bundles)))
    ensures forall b | b in bundles[|wanted|..] :: b.status == NotEnabled
    ensures forall b | b in bundles :: Shows(w, b)
    ensures Sorted(Names(bundles[|wanted|..]), Le) && NoDup(Names(bundles[|wanted|..]))
    ensures forall x :: x in Names(bundles[|wanted|..]) <==> x in Present(w) && x !in wanted
  {
    hide World.IsLeast, World.Closed, SkippedRightly, Sort, Trim, Position, BundleOf, Shows;
    wanted := Wanted(enabled);
    var resolved := Resolve(w, wanted);
    SettledIsLeast(w, wanted, resolved);
    assert Names(resolved) + [] == Names(resolved);
    RequestedOrder(resolved, wanted);
    SortOk(resolved, BundleOrder(wanted));
    bundles := Sort(resolved, BundleOrder(wanted));
    assert LoadedNames(bundles) == LoadedNames(resolved);
    assert |Names(bundles)| == |wanted|;
    var others := SortedNames(Present(w) - (set x | x in wanted));
    var rest := seq(|others|, i requires 0 <= i < |others| => BundleOf(w, others[i], NotEnabled));
    OthersShow(w, others, rest);
    ghost var first := bundles;
    bundles := bundles + rest;
    assert bundles[..|wanted|] == first && bundles[|wanted|..] == rest;
    assert LoadedNames(bundles) == LoadedNames(first);
  }

  // ── What the fixpoint means ──

  /** What loads does not depend on the order of `PLUGINS_ENABLED`, and enabling more
      never unloads anything. */
  lemma MoreEnabledLoadsMore(w: World, wanted: seq<Name>, wanted': seq<Name>, loaded: set<Name>, loaded': set<Name>)
    requires w.IsLeast(wanted, loaded) && w.IsLeast(wanted', loaded')
    requires forall n | n in wanted :: n in wanted'
    ensures loaded <= loaded'
    ensures (forall n | n in wanted' :: n in wanted) ==> loaded == loaded'
  {
    assert w.Closed(wanted, loaded');
    if forall n | n in wanted' :: n in wanted {
      assert w.Closed(wanted', loaded);
    }
  }

  /** A reference definition: loadable within `k` rounds of requirements. */
  predicate LoadableIn(w: World, wanted: seq<Name>, n: Name, k: nat)
    decreases k
  {
    k > 0 && n in wanted && w.Sound(n) && forall p | p in w.Needs(n) :: LoadableIn(w, wanted, p, k - 1)
  }

  ghost predicate Loadable(w: World, wanted: seq<Name>, n: Name) {
    exists k: nat :: LoadableIn(w, wanted, n, k)
  }

  lemma {:induction false} LoadableMore(w: World, wanted: seq<Name>, n: Name, k: nat, k': nat)
    requires LoadableIn(w, wanted, n, k) && k <= k'
    ensures LoadableIn(w, wanted, n, k')
    decreases k
  {
    forall p | p in w.Needs(n) ensures LoadableIn(w, wanted, p, k' - 1) {
      LoadableMore(w, wanted, p, k - 1, k' - 1);
    }
  }

  lemma {:induction false} LoadableLoads(w: World, wanted: seq<Name>, loaded: set<Name>, n: Name, k: nat)
    requires w.Closed(wanted, loaded) && LoadableIn(w, wanted, n, k)
    ensures n in loaded
    decreases k
  {
    forall p | p in w.Needs(n) ensures p in loaded {
      LoadableLoads(w, wanted, loaded, p, k - 1);
    }
  }

  lemma {:induction false} CommonRound(w: World, wanted: seq<Name>, needs: seq<Name>) returns (k: nat)
    requires forall p | p in needs :: Loadable(w, wanted, p)
    ensures forall p | p in needs :: LoadableIn(w, wanted, p, k)
  {
    if needs == [] {
      return 0;
    }
    assert needs == [needs[0]] + needs[1..];
    assert Loadable(w, wanted, needs[0]);
    var i := CommonRound(w, wanted, needs[1..]);
    var j: nat :| LoadableIn(w, wanted, needs[0], j);
    k := if i < j then j else i;
    forall p | p in needs ensures LoadableIn(w, wanted, p, k) {
      if p == needs[0] {
        LoadableMore(w, wanted, p, j, k);
      } else {
        LoadableMore(w, wanted, p, i, k);
      }
    }
  }

  /** A bundle loads exactly when finitely many rounds of requirements lead to it: a cycle
      of requirements never loads, whatever is enabled. */
  lemma LoadsIffLoadable(w: World, wanted: seq<Name>, loaded: set<Name>, n: Name)
    requires w.IsLeast(wanted, loaded)
    ensures n in loaded <==> Loadable(w, wanted, n)
  {
    var reach := set x | x in wanted && Loadable(w, wanted, x);
    forall x | x in wanted && w.Sound(x) && (forall p | p in w.Needs(x) :: p in reach) ensures x in reach {
      var k := CommonRound(w, wanted, w.Needs(x));
      assert LoadableIn(w, wanted, x, k + 1);
    }
    assert w.Closed(wanted, reach);
    if Loadable(w, wanted, n) {
      var k: nat :| LoadableIn(w, wanted, n, k);
      LoadableLoads(w, wanted, loaded, n, k);
    }
  }

  // ── A cycle of requirements ──

  /** Two bundles that require each other. */
  function CycleExample(): World {
    World(map["a" := Ok(Manifest("a", [], ["b"])), "b" := Ok(Manifest("b", [], ["a"]))], [], None, _ => None)
  }

  /** With both enabled, the first is told that the second is not enabled. */
  lemma EnabledButToldNot()
    ensures CheckBundle(CycleExample(), "a", []) == Wait(IsNotEnabled("b"))
    ensures CheckBundle(CycleExample(), "b", []) == Wait(IsNotEnabled("a"))
    ensures var wanted := ["a", "b"];
            Progress(CycleExample(), wanted, [], wanted)
            && forall n | n in wanted :: CheckBundle(CycleExample(), n, []).Wait?
  {
    var wanted := ["a", "b"];
    assert Names([]) + wanted == wanted;
  }
}
