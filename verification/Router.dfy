/** Routes in the address bar, `#/<path>?<param>=<value>&…`: parsing, printing and updating
    them, as hbi-frontend/src/router.ts does. */
module Router {
  import opened Wrappers
  import opened Collections
  import opened Ordering
  import opened Utf8
  import opened Percent

  datatype Route = Route(path: string, params: map<string, string>)

  type Pair = (string, string)

  /** How bytes that are no UTF-8 are repaired; what is UTF-8 is decoded. */
  ghost predicate Repairs(lossy: seq<byte> -> string) {
    forall b | Decode(b).Some? :: lossy(b) == Decode(b).value
  }

  // ── The query ──

  /** What is before the first `c`, and what is after it. */
  function CutAt(s: string, c: char): (r: (string, Option<string>))
    ensures r.1.Some? ==> |r.1.value| < |s|
  {
    if s == "" then ("", None)
    else if s[0] == c then ("", Some(s[1..]))
    else
      var (before, after) := CutAt(s[1..], c);
      ([s[0]] + before, after)
  }

  function PairOf(text: string, lossy: seq<byte> -> string): Pair {
    var (k, v) := CutAt(text, '=');
    (lossy(Bytes(k, Field)), lossy(Bytes(v.GetOr(""), Field)))
  }

  function ParseQuery(q: string, lossy: seq<byte> -> string): seq<Pair>
    decreases |q|
  {
    if q == "" then []
    else
      var (first, rest) := CutAt(q, '&');
      (if first == "" then [] else [PairOf(first, lossy)])
      + if rest.None? then [] else ParseQuery(rest.value, lossy)
  }

  function PrintPair(p: Pair): string {
    Encoded(p.0, Field) + "=" + Encoded(p.1, Field)
  }

  function PrintQuery(pairs: seq<Pair>): string {
    if pairs == [] then ""
    else PrintPair(pairs[0]) + if |pairs| == 1 then "" else "&" + PrintQuery(pairs[1..])
  }

  lemma {:induction false} CutIs(a: string, c: char, rest: string)
    requires c !in a
    ensures CutAt(a + [c] + rest, c) == (a, Some(rest))
    ensures CutAt(a, c) == (a, None)
  {
    if a == "" {
      assert (a + [c] + rest)[1..] == rest;
    } else {
      var tail := a[1..];
      assert a == [a[0]] + tail && a[0] in a;
      assert (a + [c] + rest)[0] == a[0] && (a + [c] + rest)[1..] == tail + [c] + rest;
      CutIs(tail, c, rest);
    }
  }

  lemma PairRoundTrip(p: Pair, lossy: seq<byte> -> string)
    requires Repairs(lossy)
    ensures PairOf(PrintPair(p), lossy) == p
    ensures PrintPair(p) != "" && '&' !in PrintPair(p) && '?' !in PrintPair(p)
  {
    hide Encoded, Bytes, Decode, Encode;
    EncodedPlain(p.0, Field);
    EncodedPlain(p.1, Field);
    EncodedIs(p.0, Field);
    EncodedIs(p.1, Field);
    RoundTrip(p.0);
    RoundTrip(p.1);
    CutIs(Encoded(p.0, Field), '=', Encoded(p.1, Field));
  }

  lemma FirstPair(first: string, rest: string, lossy: seq<byte> -> string)
    requires first != "" && '&' !in first
    ensures ParseQuery(first, lossy) == [PairOf(first, lossy)]
    ensures ParseQuery(first + "&" + rest, lossy) == [PairOf(first, lossy)] + ParseQuery(rest, lossy)
  {
    CutIs(first, '&', rest);
    assert first + "&" + rest == first + ['&'] + rest;
    hide CutAt, PairOf;
  }

  lemma PrintFirst(pairs: seq<Pair>)
    requires pairs != []
    ensures PrintQuery(pairs)
            == if |pairs| == 1 then PrintPair(pairs[0]) else PrintPair(pairs[0]) + "&" + PrintQuery(pairs[1..])
  {
    hide PrintPair;
    if |pairs| == 1 {
      assert PrintPair(pairs[0]) + "" == PrintPair(pairs[0]);
    } else {
      Assoc(PrintPair(pairs[0]), "&", PrintQuery(pairs[1..]));
    }
  }

  /** A printed query reads back as the pairs it was printed from. */
  lemma {:induction false} QueryRoundTrip(pairs: seq<Pair>, lossy: seq<byte> -> string)
    requires Repairs(lossy)
    ensures ParseQuery(PrintQuery(pairs), lossy) == pairs
    ensures PrintQuery(pairs) == "" <==> pairs == []
    ensures '?' !in PrintQuery(pairs)
  {
    if pairs != [] {
      var p, rest := pairs[0], pairs[1..];
      PairRoundTrip(p, lossy);
      QueryRoundTrip(rest, lossy);
      FirstPair(PrintPair(p), PrintQuery(rest), lossy);
      PrintFirst(pairs);
      hide PrintQuery, ParseQuery, PrintPair, PairOf, Repairs;
      assert pairs == [p] + rest;
    }
  }

  // ── Parsing ──

  /** `params[k] = v` on an object: a string assigned to `__proto__` is dropped, unless the
      object has such a property of its own. */
  function Assign(params: map<string, string>, k: string, v: string): map<string, string> {
    if k == "__proto__" && k !in params then params else params[k := v]
  }

  function ParamsOf(pairs: seq<Pair>): map<string, string> {
    if pairs == [] then map[]
    else
      var before, p := ParamsOf(pairs[..|pairs| - 1]), pairs[|pairs| - 1];
      if p.0 == "" then before else Assign(before, p.0, p.1)
  }

  /** Without the character, if the text starts with it. */
  function Stripped(s: string, c: char): string {
    if s != "" && s[0] == c then s[1..] else s
  }

  /** `parseHash`; `None` when the path is no valid percent-encoding. */
  function Parse(hash: string, lossy: seq<byte> -> string): Option<Route> {
    var (path, query) := CutAt(Stripped(Stripped(hash, '#'), '/'), '?');
    match DecodeComponent(CutAt(path, '/').0)
    case None => None
    case Some(decoded) => Some(Route(decoded, ParamsOf(ParseQuery(Stripped(query.GetOr(""), '?'), lossy))))
  }

  method ParseHash(hash: string, lossy: seq<byte> -> string) returns (r: Option<Route>)
    ensures r == Parse(hash, lossy)
  {
    hide ParseQuery, DecodeComponent, CutAt;
    var raw := Stripped(Stripped(hash, '#'), '/');
    var (pathPart, queryPart) := CutAt(raw, '?');
    var params: map<string, string> := map[];
    var pairs := ParseQuery(Stripped(queryPart.GetOr(""), '?'), lossy);
    for i := 0 to |pairs|
      invariant params == ParamsOf(pairs[..i])
    {
      assert pairs[..i + 1][..i] == pairs[..i];
      var (k, v) := pairs[i];
      if k != "" {
        params := Assign(params, k, v);
      }
    }
    assert pairs[..|pairs|] == pairs;
    var path := DecodeComponent(CutAt(pathPart, '/').0);
    r := if path.None? then None else Some(Route(path.value, params));
  }

  // ── Printing ──

  /** The order in which `sort` puts keys, by UTF-16 code units: a total one. */
  ghost predicate TotalOrder(le: (string, string) -> bool) {
    && TotalPreorder(le)
    && forall a, b | le(a, b) && le(b, a) :: a == b
  }

  function ByKey(le: (string, string) -> bool): (Pair, Pair) -> bool {
    (p: Pair, q: Pair) => le(p.0, q.0)
  }

  function NonEmpty(params: map<string, string>): map<string, string> {
    map k | k in params && params[k] != "" :: params[k]
  }

  /** The non-empty parameters, each once, by key. */
  ghost predicate Lists(pairs: seq<Pair>, params: map<string, string>, le: (string, string) -> bool) {
    && NoDup(pairs) && Sorted(pairs, ByKey(le))
    && forall k, v :: (k, v) in pairs <==> k in params && params[k] == v && v != ""
  }

  function PrintRoute(path: string, pairs: seq<Pair>): string {
    var s := PrintQuery(pairs);
    "#/" + Encoded(path, Component) + if s != "" then "?" + s else ""
  }

  ghost function Listing(params: map<string, string>, le: (string, string) -> bool): seq<Pair>
    requires TotalOrder(le)
    ensures Lists(Listing(params, le), params, le)
  {
    ListingExists(params, le);
    var pairs :| Lists(pairs, params, le);
    pairs
  }

  /** `formatHash`. */
  ghost function Format(r: Route, le: (string, string) -> bool): string
    requires TotalOrder(le)
  {
    PrintRoute(r.path, Listing(r.params, le))
  }

  lemma ByKeyTotal(le: (string, string) -> bool)
    requires TotalOrder(le)
    ensures TotalPreorder(ByKey(le))
  {
    forall p, q ensures ByKey(le)(p, q) || ByKey(le)(q, p) {
      assert le(p.0, q.0) || le(q.0, p.0);
    }
    forall p, q, r | ByKey(le)(p, q) && ByKey(le)(q, r) ensures ByKey(le)(p, r) {
      assert le(p.0, q.0) && le(q.0, r.0);
    }
  }

  lemma {:induction false} ItemsExist(params: map<string, string>) returns (pairs: seq<Pair>)
    ensures NoDup(pairs) && forall k, v :: (k, v) in pairs <==> k in params && params[k] == v && v != ""
    decreases params
  {
    if params == map[] {
      pairs := [];
    } else {
      var x :| x in params;
      pairs := ItemsExist(params - {x});
      if params[x] != "" {
        pairs := [(x, params[x])] + pairs;
      }
    }
  }

  lemma ListingExists(params: map<string, string>, le: (string, string) -> bool)
    requires TotalOrder(le)
    ensures exists pairs :: Lists(pairs, params, le)
  {
    var items := ItemsExist(params);
    ByKeyTotal(le);
    SortOk(items, ByKey(le));
    PermutedNoDup(items, Sort(items, ByKey(le)));
    assert Lists(Sort(items, ByKey(le)), params, le);
  }

  /** What is printed depends on the non-empty parameters alone. */
  lemma ListingUnique(a: seq<Pair>, b: seq<Pair>, m: map<string, string>, n: map<string, string>,
                      le: (string, string) -> bool)
    requires TotalOrder(le) && Lists(a, m, le) && Lists(b, n, le)
    requires NonEmpty(m) == NonEmpty(n)
    ensures a == b
  {
    ByKeyTotal(le);
    forall p: Pair ensures p in a <==> p in b {
      assert p == (p.0, p.1);
      assert p in a <==> p.0 in NonEmpty(m) && NonEmpty(m)[p.0] == p.1;
      assert p in b <==> p.0 in NonEmpty(n) && NonEmpty(n)[p.0] == p.1;
    }
    SameElements(a, b);
    forall p, q | p in a && q in a && ByKey(le)(p, q) && ByKey(le)(q, p) ensures p == q {
      assert p == (p.0, p.1) && q == (q.0, q.1);
    }
    SortedUnique(a, b, ByKey(le));
  }

  /** The keys, in whatever order the object holds them. */
  method KeysOf(params: map<string, string>) returns (keys: seq<string>)
    ensures NoDup(keys) && forall k :: k in keys <==> k in params
  {
    keys := [];
    var todo := params.Keys;
    while todo != {}
      invariant todo <= params.Keys && NoDup(keys)
      invariant forall k :: k in keys <==> k in params && k !in todo
      decreases todo
    {
      var k :| k in todo;
      assert forall i | 0 <= i < |keys| :: keys[i] in keys;
      keys := keys + [k];
      todo := todo - {k};
    }
  }

  method FormatHash(r: Route, le: (string, string) -> bool) returns (hash: string)
    requires TotalOrder(le)
    ensures hash == Format(r, le)
  {
    var listed := KeysOf(r.params);
    SortOk(listed, le);
    PermutedNoDup(listed, Sort(listed, le));
    var keys := Sort(listed, le);
    hide Sort;
    // The keys differ, so each `set` appends.
    var qs: seq<Pair> := [];
    for i := 0 to |keys|
      invariant forall j | 0 <= j < |qs| :: qs[j].0 in keys[..i]
      invariant forall k, v :: (k, v) in qs <==> k in keys[..i] && r.params[k] == v && v != ""
      invariant NoDup(qs) && Sorted(qs, ByKey(le))
    {
      var k := keys[i];
      var v := r.params[k];
      assert keys[..i + 1] == keys[..i] + [k];
      assert k !in keys[..i];
      if v != "" {
        qs := qs + [(k, v)];
      }
    }
    assert keys[..|keys|] == keys;
    assert Lists(qs, r.params, le);
    ListingUnique(qs, Listing(r.params, le), r.params, r.params, le);
    hash := PrintRoute(r.path, qs);
  }

  // ── Round trips ──

  /** A parameter that survives: its key is not empty and not `__proto__`. */
  predicate Storable(k: string) {
    k != "" && k != "__proto__"
  }

  function Kept(params: map<string, string>): map<string, string> {
    map k | k in params && Storable(k) && params[k] != "" :: params[k]
  }

  /** A printed route, read piece by piece. */
  lemma PrintedIsParsed(path: string, pairs: seq<Pair>, lossy: seq<byte> -> string)
    requires Repairs(lossy)
    ensures Parse(PrintRoute(path, pairs), lossy) == Some(Route(path, ParamsOf(pairs)))
  {
    var p, s := Encoded(path, Component), PrintQuery(pairs);
    EncodedPlain(path, Component);
    ComponentRoundTrip(path);
    QueryRoundTrip(pairs, lossy);
    PlainHasNo(p);
    hide Encoded, DecodeComponent, PrintQuery, ParseQuery, ParamsOf, Plain, CutAt, Stripped;
    CutIs(p, '?', s);
    CutIs(p, '/', "");
    var tail := if s != "" then "?" + s else "";
    Assoc("#/", p, tail);
    StripHash(p + tail);
    NoMark(s);
    Assoc(p, ['?'], s);
    assert s == "" ==> p + tail == p;
  }

  lemma StripHash(t: string)
    ensures Stripped(Stripped("#/" + t, '#'), '/') == t
  {
    assert ("#/" + t)[1..] == "/" + t;
    assert ("/" + t)[1..] == t;
  }

  lemma NoMark(s: string)
    requires '?' !in s
    ensures Stripped(s, '?') == s
  {
  }

  lemma PlainHasNo(p: string)
    requires forall c | c in p :: Plain(c)
    ensures '?' !in p && '/' !in p
  {
  }

  lemma {:induction false} ParamsOfPairs(pairs: seq<Pair>)
    requires forall i, j | 0 <= i < j < |pairs| :: pairs[i].0 != pairs[j].0
    ensures forall k :: k in ParamsOf(pairs) <==> Storable(k) && exists v :: (k, v) in pairs
    ensures forall k, v | (k, v) in pairs && Storable(k) :: k in ParamsOf(pairs) && ParamsOf(pairs)[k] == v
  {
    if pairs != [] {
      var but, p := pairs[..|pairs| - 1], pairs[|pairs| - 1];
      ParamsOfPairs(but);
      assert pairs == but + [p] && p == (p.0, p.1);
      assert forall v | (p.0, v) in but :: false;
      assert ParamsOf(pairs) == if Storable(p.0) then ParamsOf(but)[p.0 := p.1] else ParamsOf(but);
      hide ParamsOf, Storable, Assign;
    }
  }

  lemma ListedKeysDiffer(pairs: seq<Pair>, params: map<string, string>, le: (string, string) -> bool)
    requires Lists(pairs, params, le)
    ensures forall i, j | 0 <= i < j < |pairs| :: pairs[i].0 != pairs[j].0
  {
    forall i, j | 0 <= i < j < |pairs| ensures pairs[i].0 != pairs[j].0 {
      assert (pairs[i].0, pairs[i].1) in pairs && (pairs[j].0, pairs[j].1) in pairs;
    }
  }

  lemma ListedIsKept(pairs: seq<Pair>, params: map<string, string>, le: (string, string) -> bool)
    requires Lists(pairs, params, le)
    ensures ParamsOf(pairs) == Kept(params)
  {
    ListedKeysDiffer(pairs, params, le);
    ParamsOfPairs(pairs);
    forall k ensures k in ParamsOf(pairs) <==> k in Kept(params) {
      if k in Kept(params) {
        assert (k, params[k]) in pairs;
      }
    }
    forall k | k in Kept(params) ensures ParamsOf(pairs)[k] == params[k] {
      assert (k, params[k]) in pairs;
    }
  }

  /** Every route comes back from the address bar with its path and its storable, non-empty
      parameters, so it comes back whole exactly when all of its parameters are such. */
  lemma RouteRoundTrip(r: Route, le: (string, string) -> bool, lossy: seq<byte> -> string)
    requires TotalOrder(le) && Repairs(lossy)
    ensures Parse(Format(r, le), lossy) == Some(Route(r.path, Kept(r.params)))
    ensures Parse(Format(r, le), lossy) == Some(r) <==> forall k | k in r.params :: Storable(k) && r.params[k] != ""
  {
    var pairs := Listing(r.params, le);
    PrintedIsParsed(r.path, pairs, lossy);
    ListedIsKept(pairs, r.params, le);
    hide Parse, Lists;
    if Kept(r.params) == r.params {
      forall k | k in r.params ensures Storable(k) && r.params[k] != "" {
        assert k in Kept(r.params);
      }
    }
  }

  lemma SamePrint(r: Route, t: Route, le: (string, string) -> bool)
    requires TotalOrder(le) && r.path == t.path && NonEmpty(r.params) == NonEmpty(t.params)
    ensures Format(r, le) == Format(t, le)
  {
    ListingUnique(Listing(r.params, le), Listing(t.params, le), r.params, t.params, le);
  }

  /** Printing again what a printed hash reads as gives that hash exactly when no parameter
      with a value has the empty key or `__proto__`. */
  lemma PrintedIsCanonicalIff(r: Route, le: (string, string) -> bool, lossy: seq<byte> -> string)
    requires TotalOrder(le) && Repairs(lossy)
    ensures Format(Parse(Format(r, le), lossy).GetOr(r), le) == Format(r, le)
            <==> forall k | k in r.params && r.params[k] != "" :: Storable(k)
  {
    RouteRoundTrip(r, le, lossy);
    var back := Route(r.path, Kept(r.params));
    hide Parse;
    if forall k | k in r.params && r.params[k] != "" :: Storable(k) {
      assert NonEmpty(back.params) == NonEmpty(r.params);
      SamePrint(back, r, le);
    } else {
      var k :| k in r.params && r.params[k] != "" && !Storable(k);
      assert (k, r.params[k]) in Listing(r.params, le) && (k, r.params[k]) !in Listing(back.params, le);
      if Format(back, le) == Format(r, le) {
        SamePairs(back, r, le, lossy);
      }
    }
  }

  lemma SamePairs(r: Route, t: Route, le: (string, string) -> bool, lossy: seq<byte> -> string)
    requires TotalOrder(le) && Repairs(lossy) && r.path == t.path && Format(r, le) == Format(t, le)
    ensures Listing(r.params, le) == Listing(t.params, le)
  {
    var a, b := Listing(r.params, le), Listing(t.params, le);
    QueryRoundTrip(a, lossy);
    QueryRoundTrip(b, lossy);
    var front := "#/" + Encoded(r.path, Component);
    var s, t := PrintQuery(a), PrintQuery(b);
    hide PrintQuery, ParseQuery, Encoded;
    var x, y := if s != "" then "?" + s else "", if t != "" then "?" + t else "";
    assert front + x == front + y;
    assert (front + x)[|front|..] == x && (front + y)[|front|..] == y;
    assert s == t by {
      assert s != "" ==> x[1..] == s;
      assert t != "" ==> y[1..] == t;
    }
  }

  // ── Updating ──

  /** Entries in order; `None` (null) removes a parameter. */
  datatype Update = Update(path: Option<string>, params: seq<(string, Option<string>)>)

  function Apply1(params: map<string, string>, k: string, v: Option<string>): map<string, string> {
    match v
    case None => params - {k}
    case Some(value) => Assign(params, k, value)
  }

  function Applied(params: map<string, string>, entries: seq<(string, Option<string>)>): map<string, string> {
    if entries == [] then params
    else
      var (k, v) := entries[|entries| - 1];
      Apply1(Applied(params, entries[..|entries| - 1]), k, v)
  }

  function Updated(r: Route, u: Update): Route {
    Route(u.path.GetOr(r.path), Applied(r.params, u.params))
  }

  method ApplyUpdate(r: Route, u: Update) returns (next: Route)
    ensures next == Updated(r, u)
  {
    var params := r.params;
    for i := 0 to |u.params|
      invariant params == Applied(r.params, u.params[..i])
    {
      assert u.params[..i + 1][..i] == u.params[..i];
      var (k, v) := u.params[i];
      if v.None? {
        params := params - {k};
      } else {
        params := Assign(params, k, v.value);
      }
    }
    assert u.params[..|u.params|] == u.params;
    next := Route(u.path.GetOr(r.path), params);
  }

  /** The last word of an update about a parameter: nothing, its removal, or its value. */
  function LastSaid(entries: seq<(string, Option<string>)>, k: string): Option<Option<string>> {
    if entries == [] then None
    else if entries[|entries| - 1].0 == k then Some(entries[|entries| - 1].1)
    else LastSaid(entries[..|entries| - 1], k)
  }

  function Lookup(params: map<string, string>, k: string): Option<string> {
    if k in params then Some(params[k]) else None
  }

  /** The update removes the parameter at some point. */
  predicate Removes(entries: seq<(string, Option<string>)>, k: string) {
    exists i | 0 <= i < |entries| :: entries[i] == (k, None)
  }

  /** Named parameters get what the update last says of them, all others stay. A `__proto__`
      is the exception: it can only be changed while the object has one of its own. */
  lemma {:induction false} UpdateIs(params: map<string, string>, entries: seq<(string, Option<string>)>, k: string)
    ensures Lookup(Applied(params, entries), k)
            == if k == "__proto__" && (k !in params || Removes(entries, k)) then None
               else LastSaid(entries, k).GetOr(Lookup(params, k))
  {
    if entries != [] {
      var but, last := entries[..|entries| - 1], entries[|entries| - 1];
      UpdateIs(params, but, k);
      assert entries == but + [last];
      assert Removes(entries, k) <==> Removes(but, k) || last == (k, None) by {
        if i :| 0 <= i < |but| && but[i] == (k, None) {
          assert entries[i] == (k, None);
        }
        if last == (k, None) {
          assert entries[|but|] == (k, None);
        }
      }
      LastRemoves(but, k);
    }
  }

  lemma {:induction false} LastRemoves(entries: seq<(string, Option<string>)>, k: string)
    ensures LastSaid(entries, k) == Some(None) ==> Removes(entries, k)
  {
    if entries != [] {
      var but := entries[..|entries| - 1];
      LastRemoves(but, k);
      if i :| 0 <= i < |but| && but[i] == (k, None) {
        assert entries[i] == (k, None);
      }
    }
  }

  /** Parsing never yields an unstorable parameter. */
  lemma {:induction false} ParsedIsStorable(pairs: seq<Pair>)
    ensures forall k | k in ParamsOf(pairs) :: Storable(k)
  {
    if pairs != [] {
      ParsedIsStorable(pairs[..|pairs| - 1]);
    }
  }

  /** Navigating twice the same way leads to the hash one already has, so the second time
      adds nothing to the history. */
  lemma NavigateTwice(hash: string, u: Update, le: (string, string) -> bool, lossy: seq<byte> -> string)
    requires TotalOrder(le) && Repairs(lossy) && Parse(hash, lossy).Some?
    ensures var once := Format(Updated(Parse(hash, lossy).value, u), le);
            Parse(once, lossy).Some? && Format(Updated(Parse(once, lossy).value, u), le) == once
  {
    var r := Parse(hash, lossy).value;
    assert forall k | k in r.params :: Storable(k) by {
      var (_, query) := CutAt(Stripped(Stripped(hash, '#'), '/'), '?');
      ParsedIsStorable(ParseQuery(Stripped(query.GetOr(""), '?'), lossy));
    }
    var r1 := Updated(r, u);
    RouteRoundTrip(r1, le, lossy);
    var back := Route(r1.path, Kept(r1.params));
    var r2 := Updated(back, u);
    hide Parse, Format, Applied;
    forall k: string ensures Lookup(NonEmpty(r2.params), k) == Lookup(NonEmpty(r1.params), k) {
      UpdateIs(r.params, u.params, k);
      UpdateIs(back.params, u.params, k);
    }
    SameLookups(NonEmpty(r2.params), NonEmpty(r1.params));
    SamePrint(r2, r1, le);
  }

  /** A parameter under the empty key is printed, and gone when the hash is read. */
  lemma ParameterCanBeLost(le: (string, string) -> bool, lossy: seq<byte> -> string)
    requires TotalOrder(le) && Repairs(lossy)
    ensures var r := Route("a", map["" := "x", "__proto__" := "y"]);
            Parse(Format(r, le), lossy) == Some(Route("a", map[])) && Parse(Format(r, le), lossy) != Some(r)
  {
    var r := Route("a", map["" := "x", "__proto__" := "y"]);
    RouteRoundTrip(r, le, lossy);
    hide Parse, Format;
    assert Kept(r.params) == map[] && "" in r.params;
  }

  lemma SameLookups(a: map<string, string>, b: map<string, string>)
    requires forall k: string :: Lookup(a, k) == Lookup(b, k)
    ensures a == b
  {
    forall k ensures k in a <==> k in b {
      assert Lookup(a, k) == Lookup(b, k);
    }
    forall k | k in a ensures a[k] == b[k] {
      assert Lookup(a, k) == Lookup(b, k);
    }
  }
}
