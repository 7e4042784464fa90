/** Declared tools: the parameters of their queries, the checks of their schemas and the names
    they claim (crates/host/src/bundle_tools.rs). */
module BundleTools {
  import opened Wrappers
  import opened Ordering
  import opened Text

  // ── The parameters a query uses ──

  predicate IsIdent(c: char) {
    'a' <= c <= 'z' || 'A' <= c <= 'Z' || '0' <= c <= '9' || c == '_'
  }

  /** An identifier is of letters, digits and underscores, all of them ASCII. */
  lemma IdentChars(c: char)
    ensures IsIdent(c) <==>
              || c in "ABCDEFGHIJKLMNOPQRSTUVWXYZ" || c in "abcdefghijklmnopqrstuvwxyz"
              || c in "0123456789" || c in "_"
  {
    UpperAre(c);
    LowerAre(c);
    DigitsAre(c);
  }

  /** The end of the identifier characters from `i` on. */
  function RunEnd(s: string, i: nat): (j: nat)
    requires i <= |s|
    ensures i <= j <= |s| && (forall k | i <= k < j :: IsIdent(s[k])) && (j < |s| ==> !IsIdent(s[j]))
    decreases |s| - i
  {
    if i == |s| || !IsIdent(s[i]) then i else RunEnd(s, i + 1)
  }

  /** `s[i..j]` is used as a parameter: a whole identifier right after a `$`. */
  predicate IsUse(s: string, i: nat, j: nat) {
    && 0 < i < j <= |s| && s[i - 1] == '$'
    && (forall k | i <= k < j :: IsIdent(s[k])) && (j < |s| ==> !IsIdent(s[j]))
  }

  /** The name that follows position `k`, if a `$` is there and a name follows. */
  function NameAfter(s: string, k: nat): seq<string>
    requires k < |s|
  {
    if s[k] == '$' && RunEnd(s, k + 1) > k + 1 then [s[k + 1..RunEnd(s, k + 1)]] else []
  }

  /** The names used before position `n`, in order. */
  function Uses(s: string, n: nat): seq<string>
    requires n <= |s|
  {
    if n == 0 then [] else Uses(s, n - 1) + NameAfter(s, n - 1)
  }

  /** Each name once, where it is first. */
  function Firsts(names: seq<string>): seq<string> {
    if names == [] then []
    else
      var before, p := Firsts(names[..|names| - 1]), names[|names| - 1];
      if p in before then before else before + [p]
  }

  lemma NoUse(s: string, n: nat)
    requires n < |s| && s[n] != '$'
    ensures Uses(s, n + 1) == Uses(s, n)
  {
  }

  lemma {:induction false} NoUses(s: string, i: nat, j: nat)
    requires i <= j <= |s| && forall k | i <= k < j :: s[k] != '$'
    ensures Uses(s, j) == Uses(s, i)
    decreases j - i
  {
    if i < j {
      NoUses(s, i, j - 1);
    }
  }

  lemma FirstsAppend(names: seq<string>, p: string)
    ensures Firsts(names + [p]) == if p in Firsts(names) then Firsts(names) else Firsts(names) + [p]
  {
    assert (names + [p])[..|names|] == names;
  }

  /** `cypher_params`: one pass over the text. */
  method CypherParams(cypher: string) returns (out: seq<string>)
    ensures out == Firsts(Uses(cypher, |cypher|))
  {
    hide Firsts;
    assert Firsts([]) == [] by { FirstsOfNone(); }
    out := [];
    var i := 0;
    while i < |cypher|
      invariant i <= |cypher| && out == Firsts(Uses(cypher, i))
    {
      if cypher[i] == '$' {
        var start := i + 1;
        var j := start;
        while j < |cypher| && IsIdent(cypher[j])
          invariant start <= j <= |cypher| && RunEnd(cypher, start) == RunEnd(cypher, j)
          invariant forall k | start <= k < j :: cypher[k] != '$'
        {
          j := j + 1;
        }
        NoUses(cypher, start, j);
        assert RunEnd(cypher, start) == j;
        assert Uses(cypher, start) == if j > start then Uses(cypher, i) + [cypher[start..j]] else Uses(cypher, i);
        if j > start {
          var p := cypher[start..j];
          FirstsAppend(Uses(cypher, i), p);
          if p !in out {
            out := out + [p];
          }
        }
        i := j;
      } else {
        NoUse(cypher, i);
        i := i + 1;
      }
    }
  }

  lemma FirstsOfNone()
    ensures Firsts([]) == []
  {
  }

  /** A name is among the uses exactly when a whole identifier after a `$` is that name. */
  lemma {:induction false} UsesAre(s: string, n: nat, p: string)
    requires n <= |s|
    ensures p in Uses(s, n) <==> exists i: nat, j: nat :: IsUse(s, i, j) && i <= n && s[i..j] == p
    decreases n
  {
    if n > 0 {
      UsesAre(s, n - 1, p);
      var e := RunEnd(s, n);
      if p in NameAfter(s, n - 1) {
        assert IsUse(s, n, e) && s[n..e] == p;
      }
      forall j | IsUse(s, n, j) ensures j == e && s[n - 1] == '$' {
      }
    }
  }

  /** A name's first place. */
  function FirstAt(names: seq<string>, p: string): (k: nat)
    ensures k <= |names| && (p in names ==> k < |names| && names[k] == p) && p !in names[..k]
  {
    if names == [] then 0
    else if names[0] == p then 0
    else
      assert names == [names[0]] + names[1..];
      var k := FirstAt(names[1..], p);
      assert names[..k + 1] == [names[0]] + names[1..][..k];
      k + 1
  }

  lemma FirstAtUnique(names: seq<string>, p: string, k: nat)
    requires k < |names| && names[k] == p && p !in names[..k]
    ensures FirstAt(names, p) == k
  {
    var m := FirstAt(names, p);
    assert forall i | 0 <= i < m :: names[..m][i] == names[i];
    assert forall i | 0 <= i < k :: names[..k][i] == names[i];
  }

  lemma FirstAtAppend(names: seq<string>, q: string, p: string)
    requires p in names
    ensures FirstAt(names + [q], p) == FirstAt(names, p)
  {
    var k := FirstAt(names, p);
    assert (names + [q])[..k] == names[..k];
    FirstAtUnique(names + [q], p, k);
  }

  /** Each used name once, in the order of first use. */
  lemma {:induction false} FirstsAre(names: seq<string>)
    ensures NoDup(Firsts(names)) && forall p :: p in Firsts(names) <==> p in names
    ensures forall a, b | 0 <= a < b < |Firsts(names)| ::
              FirstAt(names, Firsts(names)[a]) < FirstAt(names, Firsts(names)[b])
  {
    if names != [] {
      var but, p := names[..|names| - 1], names[|names| - 1];
      assert names == but + [p];
      FirstsAre(but);
      FirstsAppend(but, p);
      FirstsStep(but, p);
    }
  }

  lemma FirstsStep(but: seq<string>, p: string)
    requires var f := Firsts(but);
             && NoDup(f) && (forall q :: q in f <==> q in but)
             && forall a, b | 0 <= a < b < |f| :: FirstAt(but, f[a]) < FirstAt(but, f[b])
    ensures var f := if p in Firsts(but) then Firsts(but) else Firsts(but) + [p];
            && NoDup(f) && (forall q :: q in f <==> q in but + [p])
            && forall a, b | 0 <= a < b < |f| :: FirstAt(but + [p], f[a]) < FirstAt(but + [p], f[b])
  {
    hide Firsts, FirstAt;
    var names, f := but + [p], Firsts(but);
    forall a | 0 <= a < |f| ensures FirstAt(names, f[a]) == FirstAt(but, f[a]) < |but| {
      assert f[a] in f;
      FirstAtAppend(but, p, f[a]);
    }
    if p !in f {
      assert names[..|but|] == but;
      FirstAtUnique(names, p, |but|);
    }
  }

  /** What `cypher_params` lists. */
  lemma CypherParamsAre(cypher: string)
    ensures var out := Firsts(Uses(cypher, |cypher|));
            && NoDup(out)
            && (forall p :: p in out <==> exists i: nat, j: nat :: IsUse(cypher, i, j) && cypher[i..j] == p)
            && (forall a, b | 0 <= a < b < |out| ::
                  FirstAt(Uses(cypher, |cypher|), out[a]) < FirstAt(Uses(cypher, |cypher|), out[b]))
  {
    var uses := Uses(cypher, |cypher|);
    FirstsAre(uses);
    forall p ensures p in uses <==> exists i: nat, j: nat :: IsUse(cypher, i, j) && cypher[i..j] == p {
      UsesAre(cypher, |cypher|, p);
    }
  }

  /** The name is used from `i` on, and nowhere before. */
  ghost predicate FirstUse(s: string, p: string, i: nat) {
    && (exists j: nat :: IsUse(s, i, j) && s[i..j] == p)
    && forall k: nat, j: nat | IsUse(s, k, j) && s[k..j] == p :: i <= k
  }

  lemma {:induction false} UsesGrow(s: string, n: nat, m: nat)
    requires n <= m <= |s|
    ensures Uses(s, n) <= Uses(s, m)
    decreases m
  {
    if n < m {
      UsesGrow(s, n, m - 1);
    }
  }

  lemma EarlierFirst(s: string, p: string, q: string, i: nat, k: nat)
    requires FirstUse(s, p, i) && FirstUse(s, q, k) && i < k
    ensures FirstAt(Uses(s, |s|), p) < FirstAt(Uses(s, |s|), q)
  {
    var j: nat :| IsUse(s, i, j) && s[i..j] == p;
    UsesAre(s, i, p);
    UsesAre(s, i, q);
    UsesGrow(s, i, |s|);
    var some, all := Uses(s, i), Uses(s, |s|);
    hide Uses, FirstAt, IsUse;
    assert p in some && q !in some;
    var m :| 0 <= m < |some| && some[m] == p;
    assert all[m] == p;
    NotBefore(all, p, m);
    var h: nat :| IsUse(s, k, h) && s[k..h] == q;
    UseEnds(s, k, h);
    UsesAre(s, |s|, q);
    assert q in all;
  }

  lemma NotBefore(names: seq<string>, p: string, m: nat)
    requires m < |names| && names[m] == p
    ensures FirstAt(names, p) <= m
  {
    var k := FirstAt(names, p);
    hide FirstAt;
    assert forall i | 0 <= i < k :: names[..k][i] == names[i];
  }

  lemma UseEnds(s: string, i: nat, j: nat)
    requires IsUse(s, i, j)
    ensures i <= |s|
  {
  }

  /** The names are listed by where the text first uses them. */
  lemma ListedByFirstUse(cypher: string, a: nat, b: nat, i: nat, k: nat)
    requires var out := Firsts(Uses(cypher, |cypher|));
             a < |out| && b < |out| && FirstUse(cypher, out[a], i) && FirstUse(cypher, out[b], k)
    ensures a < b <==> i < k
  {
    var out := Firsts(Uses(cypher, |cypher|));
    FirstsAre(Uses(cypher, |cypher|));
    if i < k {
      EarlierFirst(cypher, out[a], out[b], i, k);
    }
    if k < i {
      EarlierFirst(cypher, out[b], out[a], k, i);
    }
    if i == k {
      var j: nat :| IsUse(cypher, i, j) && cypher[i..j] == out[a];
      var h: nat :| IsUse(cypher, i, h) && cypher[i..h] == out[b];
      OneEnd(cypher, i, j, h);
    }
    hide Firsts, Uses, FirstAt, FirstUse;
  }

  lemma OneEnd(s: string, i: nat, j: nat, h: nat)
    requires IsUse(s, i, j) && IsUse(s, i, h)
    ensures j == h
  {
    hide IsIdent;
  }

  // ── Schemas and arguments ──

  /** An argument is opaque here. */
  type Value = string

  datatype Property = Property(name: string, byDefault: Option<Value>)

  /** `isObject`: the schema says `type: object`. Its properties have different names. */
  datatype Schema = Schema(isObject: bool, properties: seq<Property>, required: seq<string>)

  datatype Problem =
    | NotAnObject
    | Writes
    | NeedsDefault(name: string)
    | NameReserved(name: string)
    | Undeclared(name: string)

  predicate Declares(s: Schema, p: string) {
    exists x | x in s.properties :: x.name == p
  }

  predicate AlwaysGiven(s: Schema, x: Property) {
    x.name in s.required || x.byDefault.Some?
  }

  /** What a query and its schema must satisfy; `writes` is the write-keyword test. */
  predicate Acceptable(s: Schema, cypher: string, reserved: seq<string>, writes: string -> bool) {
    && s.isObject && !writes(cypher)
    && (forall x | x in s.properties :: AlwaysGiven(s, x) && x.name !in reserved)
    && (forall p | p in Uses(cypher, |cypher|) :: Declares(s, p) || p in reserved)
  }

  predicate Justified(problem: Problem, s: Schema, cypher: string, reserved: seq<string>, writes: string -> bool) {
    match problem
    case NotAnObject => !s.isObject
    case Writes => writes(cypher)
    case NeedsDefault(n) => exists x | x in s.properties :: x.name == n && !AlwaysGiven(s, x)
    case NameReserved(n) => Declares(s, n) && n in reserved
    case Undeclared(n) => n in Uses(cypher, |cypher|) && !Declares(s, n) && n !in reserved
  }

  /** `check_query`: none exactly for an acceptable query, else a problem it really has. */
  method CheckQuery(s: Schema, cypher: string, reserved: seq<string>, writes: string -> bool)
    returns (problem: Option<Problem>)
    ensures problem.None? <==> Acceptable(s, cypher, reserved, writes)
    ensures problem.Some? ==> Justified(problem.value, s, cypher, reserved, writes)
  {
    if !s.isObject {
      return Some(NotAnObject);
    }
    if writes(cypher) {
      return Some(Writes);
    }
    for i := 0 to |s.properties|
      invariant forall x | x in s.properties[..i] :: AlwaysGiven(s, x) && x.name !in reserved
    {
      var x := s.properties[i];
      assert x in s.properties;
      if !AlwaysGiven(s, x) {
        return Some(NeedsDefault(x.name));
      }
      if x.name in reserved {
        return Some(NameReserved(x.name));
      }
      assert s.properties[..i + 1] == s.properties[..i] + [x];
    }
    assert s.properties[..|s.properties|] == s.properties;
    var used := CypherParams(cypher);
    FirstsAre(Uses(cypher, |cypher|));
    for i := 0 to |used|
      invariant forall p | p in used[..i] :: Declares(s, p) || p in reserved
    {
      var p := used[i];
      assert p in used;
      if !Declares(s, p) && p !in reserved {
        return Some(Undeclared(p));
      }
      assert used[..i + 1] == used[..i] + [p];
    }
    assert used[..|used|] == used;
    problem := None;
  }

  /** `params`: each declared property, from the arguments or its default. */
  function Params(properties: seq<Property>, args: map<string, Value>): map<string, Value> {
    if properties == [] then map[]
    else
      var x, rest := properties[|properties| - 1], Params(properties[..|properties| - 1], args);
      if x.name in args then rest[x.name := args[x.name]]
      else if x.byDefault.Some? then rest[x.name := x.byDefault.value]
      else rest
  }

  ghost predicate UniqueNames(properties: seq<Property>) {
    forall i, j | 0 <= i < j < |properties| :: properties[i].name != properties[j].name
  }

  lemma {:induction false} ParamIs(properties: seq<Property>, args: map<string, Value>, x: Property)
    requires UniqueNames(properties) && x in properties
    ensures x.name in Params(properties, args) <==> x.name in args || x.byDefault.Some?
    ensures x.name in Params(properties, args) ==>
              Params(properties, args)[x.name] == if x.name in args then args[x.name] else x.byDefault.value
  {
    var but, last := properties[..|properties| - 1], properties[|properties| - 1];
    assert properties == but + [last];
    if x in but {
      var i :| 0 <= i < |but| && but[i] == x;
      assert properties[i].name != properties[|but|].name;
      ParamIs(but, args, x);
    } else {
      forall y | y in but ensures y.name != last.name {
        var i :| 0 <= i < |but| && but[i] == y;
        assert properties[i].name != properties[|but|].name;
      }
      OnlyDeclared(but, args, last.name);
    }
  }

  lemma {:induction false} OnlyDeclared(properties: seq<Property>, args: map<string, Value>, p: string)
    requires forall x | x in properties :: x.name != p
    ensures p !in Params(properties, args)
  {
    if properties != [] {
      var but, last := properties[..|properties| - 1], properties[|properties| - 1];
      assert properties == but + [last];
      OnlyDeclared(but, args, p);
    }
  }

  /** The values of a call: the declared properties given or defaulted, and no others. */
  lemma ParamsAre(properties: seq<Property>, args: map<string, Value>)
    requires UniqueNames(properties)
    ensures forall p :: p in Params(properties, args)
                        <==> exists x :: x in properties && x.name == p && (p in args || x.byDefault.Some?)
    ensures forall x | x in properties && (x.name in args || x.byDefault.Some?) ::
              x.name in Params(properties, args)
              && Params(properties, args)[x.name] == if x.name in args then args[x.name] else x.byDefault.value
  {
    hide Params;
    forall x | x in properties
      ensures x.name in Params(properties, args) <==> x.name in args || x.byDefault.Some?
      ensures x.name in Params(properties, args) ==>
                Params(properties, args)[x.name] == if x.name in args then args[x.name] else x.byDefault.value
    {
      ParamIs(properties, args, x);
    }
    forall p | forall x | x in properties :: x.name != p ensures p !in Params(properties, args) {
      OnlyDeclared(properties, args, p);
    }
  }

  predicate HoldsRequired(s: Schema, args: map<string, Value>) {
    forall k | k in s.required :: k in args
  }

  /** A query that passes never meets a missing parameter: whatever the arguments, as long
      as they hold the required keys, each name it uses has a value from the arguments or a
      default, or is reserved, and never both. */
  lemma CheckedQueriesAreSupplied(s: Schema, cypher: string, reserved: seq<string>, writes: string -> bool,
                                  args: map<string, Value>, i: nat, j: nat)
    requires UniqueNames(s.properties) && Acceptable(s, cypher, reserved, writes) && HoldsRequired(s, args)
    requires IsUse(cypher, i, j)
    ensures var p := cypher[i..j];
            (p in Params(s.properties, args)) != (p in reserved)
  {
    var p := cypher[i..j];
    UsesAre(cypher, |cypher|, p);
    ParamsAre(s.properties, args);
  }

  /** Every property required or defaulted means exactly that the query always receives
      every declared property. */
  lemma AlwaysGivenIff(s: Schema)
    requires UniqueNames(s.properties)
    ensures (forall x | x in s.properties :: AlwaysGiven(s, x))
            <==> forall args | HoldsRequired(s, args) ::
                   forall x | x in s.properties :: x.name in Params(s.properties, args)
  {
    if forall x | x in s.properties :: AlwaysGiven(s, x) {
      forall args | HoldsRequired(s, args)
        ensures forall x | x in s.properties :: x.name in Params(s.properties, args)
      {
        ParamsAre(s.properties, args);
      }
    } else {
      var x :| x in s.properties && !AlwaysGiven(s, x);
      var args: map<string, Value> := map k | k in s.required :: "";
      ParamsAre(s.properties, args);
      assert HoldsRequired(s, args);
      NotGiven(s, x, args);
    }
  }

  lemma NotGiven(s: Schema, x: Property, args: map<string, Value>)
    requires UniqueNames(s.properties) && x in s.properties && x.name !in args && x.byDefault.None?
    ensures x.name !in Params(s.properties, args)
  {
    ParamsAre(s.properties, args);
    forall y | y in s.properties && y.name == x.name ensures y == x {
      var i :| 0 <= i < |s.properties| && s.properties[i] == x;
      var j :| 0 <= j < |s.properties| && s.properties[j] == y;
    }
  }

  /** The names a refused query misses are missing: no arguments can supply an undeclared one. */
  lemma UndeclaredIsNeverSupplied(s: Schema, cypher: string, reserved: seq<string>, writes: string -> bool, n: string)
    requires UniqueNames(s.properties) && Justified(Undeclared(n), s, cypher, reserved, writes)
    ensures exists i: nat, j: nat :: IsUse(cypher, i, j) && cypher[i..j] == n
    ensures forall args :: n !in Params(s.properties, args)
  {
    UsesAre(cypher, |cypher|, n);
    forall args ensures n !in Params(s.properties, args) {
      ParamsAre(s.properties, args);
    }
  }

  /** A query passes exactly when its schema is an object's, it does not write, no declared
      name is reserved, and for all arguments that hold the required keys it receives every
      declared property and every name it uses is supplied or reserved. */
  lemma PassesIff(s: Schema, cypher: string, reserved: seq<string>, writes: string -> bool)
    requires UniqueNames(s.properties)
    ensures Acceptable(s, cypher, reserved, writes) <==>
              && s.isObject && !writes(cypher) && (forall x | x in s.properties :: x.name !in reserved)
              && forall args | HoldsRequired(s, args) ::
                   && (forall x | x in s.properties :: x.name in Params(s.properties, args))
                   && forall i: nat, j: nat | IsUse(cypher, i, j) ::
                        cypher[i..j] in Params(s.properties, args) || cypher[i..j] in reserved
  {
    AlwaysGivenIff(s);
    forall p
      ensures p in Uses(cypher, |cypher|) <==> exists i: nat, j: nat :: IsUse(cypher, i, j) && cypher[i..j] == p
    {
      UsesAre(cypher, |cypher|, p);
    }
    forall args ensures forall p | p in Params(s.properties, args) :: Declares(s, p) {
      ParamsAre(s.properties, args);
    }
    var least: map<string, Value> := map k | k in s.required :: "";
    assert HoldsRequired(s, least);
    hide Params, AlwaysGiven, IsUse, Uses, HoldsRequired, Declares;
    if Acceptable(s, cypher, reserved, writes) {
      forall args, i: nat, j: nat | HoldsRequired(s, args) && IsUse(cypher, i, j)
        ensures cypher[i..j] in Params(s.properties, args) || cypher[i..j] in reserved
      {
        var p := cypher[i..j];
        assert Declares(s, p) || p in reserved;
        DeclaredIsOne(s, p);
      }
    }
  }

  lemma DeclaredIsOne(s: Schema, p: string)
    ensures Declares(s, p) <==> exists x :: x in s.properties && x.name == p
  {
  }

  /** A problem that is told is one: the query does not pass, and a property without a default
      can be missing, a reserved name that is declared is supplied too whenever it is given. */
  lemma ProblemsAreReal(problem: Problem, s: Schema, cypher: string, reserved: seq<string>, writes: string -> bool)
    requires UniqueNames(s.properties) && Justified(problem, s, cypher, reserved, writes)
    ensures !Acceptable(s, cypher, reserved, writes)
    ensures match problem
            case NotAnObject => !s.isObject
            case Writes => writes(cypher)
            case NeedsDefault(n) =>
              && (exists x :: x in s.properties && x.name == n)
              && exists args :: HoldsRequired(s, args) && n !in Params(s.properties, args)
            case NameReserved(n) => n in reserved && forall args | n in args :: n in Params(s.properties, args)
            case Undeclared(n) => n !in reserved && forall args :: n !in Params(s.properties, args)
  {
    match problem
    case NeedsDefault(n) =>
      var x :| x in s.properties && x.name == n && !AlwaysGiven(s, x);
      var args: map<string, Value> := map k | k in s.required :: "";
      NotGiven(s, x, args);
      assert HoldsRequired(s, args);
    case NameReserved(n) =>
      var x :| x in s.properties && x.name == n;
      forall args | n in args ensures n in Params(s.properties, args) {
        ParamsAre(s.properties, args);
      }
    case Undeclared(n) =>
      UndeclaredIsNeverSupplied(s, cypher, reserved, writes, n);
    case _ =>
  }

  // ── The names tools claim ──

  /** A tool file of a plugin: its name, or why it fails its checks. */
  datatype File = File(plugin: string, tool: Result<string, string>)

  /** What a plugin contributed, and what of it was left out. */
  datatype Status = Status(tools: seq<string>, error: Option<string>)

  /** The tools loaded: each name from the first good file that has it, unless taken. */
  function Loaded(files: seq<File>, taken: seq<string>): seq<File> {
    if files == [] then []
    else
      var before, f := Loaded(files[..|files| - 1], taken), files[|files| - 1];
      if Fits(f, before, taken) then before + [f] else before
  }

  predicate Fits(f: File, before: seq<File>, taken: seq<string>) {
    f.tool.Ok? && f.tool.value !in taken && forall g | g in before :: g.tool != f.tool
  }

  function Reason(f: File): string {
    match f.tool
    case Ok(name) => name + ": tool name already taken; left out"
    case Err(e) => e
  }

  function NameOf(f: File): string {
    if f.tool.Ok? then f.tool.value else ""
  }

  function Noted(status: Status, f: File, loaded: bool): Status {
    if loaded then status.(tools := status.tools + [NameOf(f)])
    else status.(error := Some(if status.error.Some? then status.error.value + "; " + Reason(f) else Reason(f)))
  }

  function Of(status: map<string, Status>, plugin: string): Status {
    if plugin in status then status[plugin] else Status([], None)
  }

  /** Each plugin's status after its files. */
  function Statuses(files: seq<File>, taken: seq<string>): map<string, Status> {
    if files == [] then map[]
    else
      var but, f := files[..|files| - 1], files[|files| - 1];
      var before := Statuses(but, taken);
      before[f.plugin := Noted(Of(before, f.plugin), f, Fits(f, Loaded(but, taken), taken))]
  }

  method Load(files: seq<File>, taken: seq<string>) returns (tools: seq<File>, status: map<string, Status>)
    ensures tools == Loaded(files, taken) && status == Statuses(files, taken)
  {
    var claimed := taken;
    tools, status := [], map[];
    for i := 0 to |files|
      invariant tools == Loaded(files[..i], taken) && status == Statuses(files[..i], taken)
      invariant forall n :: n in claimed <==> n in taken || exists g :: g in tools && g.tool == Ok(n)
    {
      assert files[..i + 1][..i] == files[..i];
      var f := files[i];
      var st := Of(status, f.plugin);
      if f.tool.Ok? && f.tool.value !in claimed {
        claimed := claimed + [f.tool.value];
        st := st.(tools := st.tools + [f.tool.value]);
        tools := tools + [f];
      } else {
        var reason := Reason(f);
        st := st.(error := Some(if st.error.Some? then st.error.value + "; " + reason else reason));
      }
      status := status[f.plugin := st];
    }
    assert files[..|files|] == files;
  }

  /** No two loaded tools share a name or have a taken one; every name of a good file is
      loaded or taken, and from the first file that has it. */
  lemma {:induction false} LoadedAre(files: seq<File>, taken: seq<string>)
    ensures var tools := Loaded(files, taken);
            && (forall i, j | 0 <= i < j < |tools| :: tools[i].tool != tools[j].tool)
            && (forall f | f in tools :: f in files && f.tool.Ok? && f.tool.value !in taken)
            && (forall k | 0 <= k < |files| && files[k].tool.Ok? && files[k].tool.value !in taken
                           && (forall i | 0 <= i < k :: files[i].tool != files[k].tool) :: files[k] in tools)
  {
    if files != [] {
      var but, f := files[..|files| - 1], files[|files| - 1];
      LoadedAre(but, taken);
      assert files == but + [f];
      var before := Loaded(but, taken);
      assert forall i | 0 <= i < |before| :: before[i] in before;
      forall k | 0 <= k < |but| ensures but[k] == files[k] {
      }
      forall g | g in before ensures exists i :: 0 <= i < |but| && files[i] == g {
        var i :| 0 <= i < |but| && but[i] == g;
        assert files[i] == g;
      }
    }
  }

  /** The names of the files of one plugin. */
  function NamesOf(files: seq<File>, plugin: string): seq<string> {
    if files == [] then []
    else
      var f := files[|files| - 1];
      NamesOf(files[..|files| - 1], plugin) + if f.plugin == plugin then [NameOf(f)] else []
  }

  lemma NamesNext(files: seq<File>, f: File, plugin: string)
    ensures NamesOf(files + [f], plugin)
            == if f.plugin == plugin then NamesOf(files, plugin) + [NameOf(f)] else NamesOf(files, plugin)
  {
    assert (files + [f])[..|files|] == files;
  }

  lemma StatusNext(files: seq<File>, f: File, taken: seq<string>)
    ensures Loaded(files + [f], taken)
            == if Fits(f, Loaded(files, taken), taken) then Loaded(files, taken) + [f] else Loaded(files, taken)
    ensures var before := Statuses(files, taken);
            Statuses(files + [f], taken)
            == before[f.plugin := Noted(Of(before, f.plugin), f, Fits(f, Loaded(files, taken), taken))]
  {
    hide Fits, Noted;
    assert (files + [f])[..|files|] == files;
  }

  lemma {:induction false} HasStatus(files: seq<File>, taken: seq<string>, plugin: string)
    ensures plugin in Statuses(files, taken) <==> exists f :: f in files && f.plugin == plugin
  {
    if files != [] {
      var but, f := files[..|files| - 1], files[|files| - 1];
      HasStatus(but, taken, plugin);
      assert files == but + [f];
      StatusNext(but, f, taken);
      hide Statuses, Loaded, Noted;
    }
  }

  /** Each plugin with files has a status: its loaded tools in order, and an error exactly
      when not all of its files were loaded. */
  lemma {:induction false} StatusesAre(files: seq<File>, taken: seq<string>, plugin: string)
    ensures plugin in Statuses(files, taken) <==> exists f :: f in files && f.plugin == plugin
    ensures var status, loaded := Of(Statuses(files, taken), plugin), NamesOf(Loaded(files, taken), plugin);
            status.tools == loaded && (status.error.None? <==> |loaded| == |NamesOf(files, plugin)|)
    ensures |NamesOf(Loaded(files, taken), plugin)| <= |NamesOf(files, plugin)|
  {
    HasStatus(files, taken, plugin);
    if files != [] {
      var but, f := files[..|files| - 1], files[|files| - 1];
      StatusesAre(but, taken, plugin);
      assert files == but + [f];
      StatusNext(but, f, taken);
      NamesNext(but, f, plugin);
      NamesNext(Loaded(but, taken), f, plugin);
      hide Statuses, Loaded, Fits, Reason, NamesOf;
    }
  }

  lemma Joined(before: string)
    ensures before + "; " + "bad" == before + "; bad"
  {
  }

  /** What a plugin is told of a name that is taken, and then of a bad file. */
  lemma LeftOutIsTold(tools: seq<string>)
    ensures var taken := Noted(Status(tools, None), File("p", Ok("a")), false);
            && taken == Status(tools, Some("a: tool name already taken; left out"))
            && Noted(taken, File("p", Err("bad")), false)
               == Status(tools, Some("a: tool name already taken; left out" + "; bad"))
  {
    assert "a" + ": tool name already taken; left out" == "a: tool name already taken; left out";
    Joined("a: tool name already taken; left out");
  }
}
