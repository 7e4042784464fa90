/** The order in which chained jobs are listed: `chain_order` of crates/api/src/work.rs. */
module ChainOrder {
  import opened Wrappers
  import opened Collections

  datatype Job = Job(id: string, parent: Option<string>)

  /** The indices below `n` with a property, ascending. */
  function Where(n: nat, p: nat -> bool): seq<nat> {
    if n == 0 then [] else Where(n - 1, p) + if p(n - 1) then [n - 1] else []
  }

  predicate Distinct(s: seq<nat>) {
    forall i, j | 0 <= i < j < |s| :: s[i] != s[j]
  }

  function Elements(s: seq<nat>): (r: set<nat>)
    ensures forall i :: i in r <==> i in s
    ensures Distinct(s) ==> |r| == |s|
  {
    if s == [] then {}
    else
      assert s == [s[0]] + s[1..];
      {s[0]} + Elements(s[1..])
  }

  predicate Known(jobs: seq<Job>, id: string) {
    exists job | job in jobs :: job.id == id
  }

  predicate IsRoot(job: Job, jobs: seq<Job>) {
    job.parent.None? || !Known(jobs, job.parent.value)
  }

  function RootAt(jobs: seq<Job>): nat -> bool {
    (i: nat) => i < |jobs| && IsRoot(jobs[i], jobs)
  }

  function ChildOf(jobs: seq<Job>, id: string): nat -> bool {
    (i: nat) => i < |jobs| && jobs[i].parent == Some(id)
  }

  function NotIn(order: seq<nat>): nat -> bool {
    (i: nat) => i !in order
  }

  function Roots(jobs: seq<Job>): seq<nat> {
    Where(|jobs|, RootAt(jobs))
  }

  function Kids(jobs: seq<Job>, id: string): seq<nat> {
    Where(|jobs|, ChildOf(jobs, id))
  }

  lemma {:induction false} WhereIs(n: nat, p: nat -> bool)
    ensures forall i: nat :: i in Where(n, p) <==> i < n && p(i)
    ensures forall a, b | 0 <= a < b < |Where(n, p)| :: Where(n, p)[a] < Where(n, p)[b]
  {
    if n > 0 {
      WhereIs(n - 1, p);
      var but := Where(n - 1, p);
      forall a | 0 <= a < |but| ensures but[a] < n - 1 {
        assert but[a] in but;
      }
    }
  }

  predicate Valid(jobs: seq<Job>, list: seq<nat>) {
    forall k | 0 <= k < |list| :: list[k] < |jobs|
  }

  function Range(n: nat): (r: set<nat>)
    ensures forall i: nat :: i in r <==> i < n
    ensures |r| == n
  {
    if n == 0 then {} else Range(n - 1) + {n - 1}
  }

  function Unseen(jobs: seq<Job>, seen: set<nat>): set<nat> {
    Range(|jobs|) - seen
  }

  /** The walk with the pending jobs in order: a job, its children, then the others. */
  function Walk(jobs: seq<Job>, todo: seq<nat>, seen: set<nat>): seq<nat>
    requires Valid(jobs, todo)
    decreases |Unseen(jobs, seen)|, |todo|
  {
    if todo == [] then []
    else if todo[0] in seen then Walk(jobs, todo[1..], seen)
    else
      SeeingOne(jobs, seen, todo[0]);
      KidsValid(jobs, jobs[todo[0]].id);
      [todo[0]] + Walk(jobs, Kids(jobs, jobs[todo[0]].id) + todo[1..], seen + {todo[0]})
  }

  lemma SeeingOne(jobs: seq<Job>, seen: set<nat>, i: nat)
    requires i < |jobs| && i !in seen
    ensures |Unseen(jobs, seen + {i})| < |Unseen(jobs, seen)|
  {
    assert Unseen(jobs, seen) == Unseen(jobs, seen + {i}) + {i};
  }

  lemma KidsValid(jobs: seq<Job>, id: string)
    ensures Valid(jobs, Kids(jobs, id)) && Valid(jobs, Roots(jobs))
  {
    WhereIs(|jobs|, ChildOf(jobs, id));
    WhereIs(|jobs|, RootAt(jobs));
    var kids, roots := Kids(jobs, id), Roots(jobs);
    forall k | 0 <= k < |kids| ensures kids[k] < |jobs| {
      assert kids[k] in kids;
    }
    forall k | 0 <= k < |roots| ensures roots[k] < |jobs| {
      assert roots[k] in roots;
    }
  }

  /** A marked job is passed over; another is listed and its children come next. */
  lemma WalkStep(jobs: seq<Job>, i: nat, rest: seq<nat>, seen: set<nat>)
    requires Valid(jobs, [i] + rest)
    ensures i < |jobs| && Valid(jobs, rest) && Valid(jobs, Kids(jobs, jobs[i].id) + rest)
    ensures Walk(jobs, [i] + rest, seen)
            == if i in seen then Walk(jobs, rest, seen)
               else [i] + Walk(jobs, Kids(jobs, jobs[i].id) + rest, seen + {i})
  {
    hide Kids;
    assert ([i] + rest)[0] == i && ([i] + rest)[1..] == rest;
    KidsValid(jobs, jobs[i].id);
  }

  lemma WalkEnd(jobs: seq<Job>, seen: set<nat>)
    ensures Walk(jobs, [], seen) == []
  {
  }

  function Walked(jobs: seq<Job>): seq<nat> {
    KidsValid(jobs, "");
    Walk(jobs, Roots(jobs), {})
  }

  function Order(jobs: seq<Job>): seq<nat> {
    Walked(jobs) + Where(|jobs|, NotIn(Walked(jobs)))
  }

  function Rev(s: seq<nat>): (r: seq<nat>)
    ensures |r| == |s| && forall i | 0 <= i < |s| :: r[i] == s[|s| - 1 - i]
  {
    if s == [] then [] else Rev(s[1..]) + [s[0]]
  }

  ghost predicate Grouped(jobs: seq<Job>, ids: set<string>, children: map<string, seq<nat>>, roots: seq<nat>, n: nat) {
    && roots == Where(n, RootAt(jobs))
    && forall id | id in ids ::
         Where(n, ChildOf(jobs, id)) == if id in children then children[id] else []
  }

  lemma GroupNext(jobs: seq<Job>, ids: set<string>, i: nat)
    requires i < |jobs| && ids == set job | job in jobs :: job.id
    ensures var parent := jobs[i].parent;
            && Where(i + 1, RootAt(jobs)) == Where(i, RootAt(jobs))
              + (if parent.Some? && parent.value in ids then [] else [i])
            && forall id ::
              Where(i + 1, ChildOf(jobs, id))
              == Where(i, ChildOf(jobs, id)) + (if parent == Some(id) then [i] else [])
  {
    assert jobs[i].parent.Some? ==> (jobs[i].parent.value in ids <==> Known(jobs, jobs[i].parent.value));
  }

  /** Each job either joins its parent's children or is a root. */
  method Group(jobs: seq<Job>) returns (children: map<string, seq<nat>>, roots: seq<nat>)
    ensures roots == Roots(jobs)
    ensures forall job | job in jobs :: Kids(jobs, job.id) == if job.id in children then children[job.id] else []
  {
    hide RootAt, ChildOf;
    var ids := set job | job in jobs :: job.id;
    children, roots := map[], [];
    for i := 0 to |jobs|
      invariant Grouped(jobs, ids, children, roots, i)
    {
      hide Where;
      GroupNext(jobs, ids, i);
      var parent := jobs[i].parent;
      if parent.Some? && parent.value in ids {
        var p := parent.value;
        children := children[p := (if p in children then children[p] else []) + [i]];
      } else {
        roots := roots + [i];
      }
    }
  }

  lemma Listed(order: seq<nat>, i: nat, rest: seq<nat>)
    ensures order + ([i] + rest) == order + [i] + rest
    ensures Elements(order + [i]) == Elements(order) + {i}
  {
    hide Elements, Distinct;
  }

  method ChainOrder(jobs: seq<Job>) returns (order: seq<nat>)
    ensures order == Order(jobs)
  {
    hide Where, Kids, Roots, Unseen, Walk, Rev, Valid, Elements;
    var children, roots := Group(jobs);
    KidsValid(jobs, "");
    order := [];
    var seen := new bool[|jobs|](_ => false);
    var stack := Rev(roots);
    ghost var marked: set<nat> := {};
    assert Rev(stack) == Roots(jobs);
    while stack != []
      invariant Valid(jobs, Rev(stack))
      invariant marked == Elements(order)
      invariant forall i: nat | i < |jobs| :: seen[i] == (i in marked)
      invariant order + Walk(jobs, Rev(stack), marked) == Walked(jobs)
      decreases |Unseen(jobs, marked)|, |stack|
    {
      var i := stack[|stack| - 1];
      assert Rev(stack) == [i] + Rev(stack[..|stack| - 1]);
      stack := stack[..|stack| - 1];
      WalkStep(jobs, i, Rev(stack), marked);
      if seen[i] {
        continue;
      }
      seen[i] := true;
      SeeingOne(jobs, marked, i);
      Listed(order, i, Walk(jobs, Kids(jobs, jobs[i].id) + Rev(stack), marked + {i}));
      order := order + [i];
      marked := marked + {i};
      var kids := if jobs[i].id in children then children[jobs[i].id] else [];
      assert jobs[i] in jobs;
      ghost var rest := stack;
      stack := stack + Rev(kids);
      assert Rev(stack) == kids + Rev(rest);
    }
    WalkEnd(jobs, marked);
    assert order == Walked(jobs);
    var tail := Rest(jobs, order, seen);
    order := order + tail;
  }

  method Rest(jobs: seq<Job>, order: seq<nat>, seen: array<bool>) returns (tail: seq<nat>)
    requires seen.Length == |jobs| && forall i: nat | i < |jobs| :: seen[i] == (i in order)
    ensures tail == Where(|jobs|, NotIn(order))
  {
    tail := [];
    for i := 0 to |jobs|
      invariant tail == Where(i, NotIn(order))
    {
      if !seen[i] {
        tail := tail + [i];
      }
    }
  }

  // ── Every list of jobs ──

  lemma {:induction false} WalkOnce(jobs: seq<Job>, todo: seq<nat>, seen: set<nat>)
    requires Valid(jobs, todo)
    ensures Distinct(Walk(jobs, todo, seen))
    ensures forall i | i in Walk(jobs, todo, seen) :: i < |jobs| && i !in seen
    decreases |Unseen(jobs, seen)|, |todo|
  {
    hide Kids, Unseen;
    if todo != [] {
      if todo[0] in seen {
        WalkOnce(jobs, todo[1..], seen);
      } else {
        SeeingOne(jobs, seen, todo[0]);
        KidsValid(jobs, jobs[todo[0]].id);
        WalkOnce(jobs, Kids(jobs, jobs[todo[0]].id) + todo[1..], seen + {todo[0]});
      }
    }
  }

  /** Whatever the ids and parents, every job is listed exactly once. */
  lemma EveryJobOnce(jobs: seq<Job>)
    ensures Distinct(Order(jobs)) && forall i: nat :: i in Order(jobs) <==> i < |jobs|
    ensures |Order(jobs)| == |jobs|
  {
    KidsValid(jobs, "");
    WalkOnce(jobs, Roots(jobs), {});
    WhereIs(|jobs|, NotIn(Walked(jobs)));
    var front, tail := Walked(jobs), Where(|jobs|, NotIn(Walked(jobs)));
    forall i, j | 0 <= i < j < |Order(jobs)| ensures Order(jobs)[i] != Order(jobs)[j] {
      if i < |front| <= j {
        assert front[i] in front && tail[j - |front|] in tail;
      }
    }
    DistinctCount(Order(jobs), |jobs|);
  }

  lemma DistinctCount(s: seq<nat>, n: nat)
    requires Distinct(s) && forall i: nat :: i in s <==> i < n
    ensures |s| == n
  {
    assert Elements(s) == Range(n);
  }

  // ── Jobs with ids of their own ──

  ghost predicate UniqueIds(jobs: seq<Job>) {
    forall i, j | 0 <= i < j < |jobs| :: jobs[i].id != jobs[j].id
  }

  predicate IsParent(jobs: seq<Job>, p: nat, i: nat) {
    p < |jobs| && i < |jobs| && jobs[i].parent == Some(jobs[p].id)
  }

  ghost function ParentOf(jobs: seq<Job>, i: nat): Option<nat> {
    if exists p: nat :: IsParent(jobs, p, i) then
      var p: nat :| IsParent(jobs, p, i);
      Some(p)
    else None
  }

  /** The k-th ancestor. */
  ghost function Up(jobs: seq<Job>, i: nat, k: nat): Option<nat> {
    if k == 0 then Some(i)
    else if Up(jobs, i, k - 1).None? then None
    else ParentOf(jobs, Up(jobs, i, k - 1).value)
  }

  /** The ancestry ends at a root, `d` jobs away. */
  ghost predicate Depth(jobs: seq<Job>, i: nat, d: nat) {
    i < |jobs| && d > 0 && Up(jobs, i, d - 1).Some? && Up(jobs, i, d).None?
  }

  /** The ancestry ends. */
  ghost predicate Rooted(jobs: seq<Job>, i: nat) {
    exists d: nat :: Depth(jobs, i, d)
  }

  ghost predicate Below(jobs: seq<Job>, x: nat, i: nat) {
    exists k: nat :: Up(jobs, x, k) == Some(i)
  }

  lemma ParentIs(jobs: seq<Job>, p: nat, i: nat)
    requires UniqueIds(jobs)
    ensures ParentOf(jobs, i) == Some(p) <==> IsParent(jobs, p, i)
  {
    forall q | IsParent(jobs, p, i) && IsParent(jobs, q, i) ensures p == q {
    }
  }

  lemma {:induction false} UpUp(jobs: seq<Job>, i: nat, k: nat, m: nat)
    requires Up(jobs, i, k).Some?
    ensures Up(jobs, i, k + m) == Up(jobs, Up(jobs, i, k).value, m)
  {
    if m > 0 {
      UpUp(jobs, i, k, m - 1);
    }
  }

  lemma {:induction false} UpEnds(jobs: seq<Job>, i: nat, k: nat, m: nat)
    requires k <= m && Up(jobs, i, k).None?
    ensures Up(jobs, i, m).None?
    decreases m
  {
    if k < m {
      UpEnds(jobs, i, k, m - 1);
    }
  }

  lemma {:induction false} UpValid(jobs: seq<Job>, i: nat, k: nat)
    requires i < |jobs| && Up(jobs, i, k).Some?
    ensures Up(jobs, i, k).value < |jobs|
  {
    if k > 0 && Up(jobs, i, k - 1).Some? {
      var j := Up(jobs, i, k - 1).value;
      assert exists p: nat :: IsParent(jobs, p, j);
    }
  }

  lemma DepthUnique(jobs: seq<Job>, i: nat, d: nat, e: nat)
    requires Depth(jobs, i, d) && Depth(jobs, i, e)
    ensures d == e
  {
    if d < e {
      UpEnds(jobs, i, d, e - 1);
    } else if e < d {
      UpEnds(jobs, i, e, d - 1);
    }
  }

  /** Ancestors on the way to the root are different. */
  lemma AncestorsDiffer(jobs: seq<Job>, i: nat, d: nat, a: nat, b: nat)
    requires Depth(jobs, i, d) && a < b < d
    ensures Up(jobs, i, a).Some? && Up(jobs, i, b).Some? && Up(jobs, i, a) != Up(jobs, i, b)
  {
    UpEndsNot(jobs, i, a, d);
    UpEndsNot(jobs, i, b, d);
    UpUp(jobs, i, a, d - b);
    UpUp(jobs, i, b, d - b);
    UpEndsNot(jobs, i, a + (d - b), d);
  }

  /** So a depth is at most the number of jobs. */
  lemma DepthBound(jobs: seq<Job>, i: nat, d: nat)
    requires Depth(jobs, i, d)
    ensures d <= |jobs|
  {
    forall k: nat | k < d ensures Up(jobs, i, k).Some? && Up(jobs, i, k).value < |jobs| {
      UpEndsNot(jobs, i, k, d);
      UpValid(jobs, i, k);
    }
    forall a: nat, b: nat | a < b < d ensures Up(jobs, i, a) != Up(jobs, i, b) {
      AncestorsDiffer(jobs, i, d, a, b);
    }
    hide Up, Depth;
    var path := seq(d, k requires 0 <= k < d => Up(jobs, i, k).value);
    assert |path| == d && Distinct(path);
    assert Elements(path) <= Range(|jobs|);
    SubsetSize(Elements(path), Range(|jobs|));
  }

  lemma UpEndsNot(jobs: seq<Job>, i: nat, k: nat, d: nat)
    requires Depth(jobs, i, d) && k < d
    ensures Up(jobs, i, k).Some?
  {
    if Up(jobs, i, k).None? {
      UpEnds(jobs, i, k, d - 1);
    }
  }

  ghost predicate Level(jobs: seq<Job>, list: seq<nat>, d: nat) {
    forall i | i in list :: Depth(jobs, i, d)
  }

  /** A child is one deeper. */
  lemma KidDepth(jobs: seq<Job>, p: nat, i: nat, d: nat)
    requires UniqueIds(jobs) && IsParent(jobs, p, i) && Depth(jobs, p, d)
    ensures Depth(jobs, i, d + 1)
  {
    ParentIs(jobs, p, i);
    assert Up(jobs, i, 0) == Some(i) && Up(jobs, i, 1) == Some(p);
    UpUp(jobs, i, 1, d - 1);
    UpUp(jobs, i, 1, d);
  }

  lemma KidsAre(jobs: seq<Job>, p: nat)
    requires p < |jobs|
    ensures forall i :: i in Kids(jobs, jobs[p].id) <==> IsParent(jobs, p, i)
    ensures forall a, b | 0 <= a < b < |Kids(jobs, jobs[p].id)| :: Kids(jobs, jobs[p].id)[a] < Kids(jobs, jobs[p].id)[b]
  {
    WhereIs(|jobs|, ChildOf(jobs, jobs[p].id));
  }

  lemma KidsLevel(jobs: seq<Job>, p: nat, d: nat)
    requires UniqueIds(jobs) && Depth(jobs, p, d)
    ensures Level(jobs, Kids(jobs, jobs[p].id), d + 1)
  {
    KidsAre(jobs, p);
    forall i | i in Kids(jobs, jobs[p].id) ensures Depth(jobs, i, d + 1) {
      KidDepth(jobs, p, i, d);
    }
  }

  /** Jobs of one depth, each followed by the forest of its children. */
  ghost function Forest(jobs: seq<Job>, list: seq<nat>, d: nat): seq<nat>
    requires UniqueIds(jobs) && Level(jobs, list, d)
    decreases |jobs| + 1 - d, |list|
  {
    if list == [] then []
    else
      DepthBound(jobs, list[0], d);
      KidsLevel(jobs, list[0], d);
      [list[0]] + Forest(jobs, Kids(jobs, jobs[list[0]].id), d + 1) + Forest(jobs, list[1..], d)
  }

  ghost function Tree(jobs: seq<Job>, i: nat, d: nat): seq<nat>
    requires UniqueIds(jobs) && Depth(jobs, i, d)
  {
    Forest(jobs, [i], d)
  }

  lemma RootIs(jobs: seq<Job>, i: nat)
    requires i < |jobs|
    ensures IsRoot(jobs[i], jobs) <==> Depth(jobs, i, 1)
  {
    assert Up(jobs, i, 0) == Some(i);
    assert Up(jobs, i, 1) == ParentOf(jobs, i);
    if !IsRoot(jobs[i], jobs) {
      var job :| job in jobs && job.id == jobs[i].parent.value;
      var p :| 0 <= p < |jobs| && jobs[p] == job;
      assert IsParent(jobs, p, i);
    } else if p: nat :| IsParent(jobs, p, i) {
      assert Known(jobs, jobs[p].id);
      assert false;
    }
  }

  lemma RootsAre(jobs: seq<Job>)
    ensures forall i :: i in Roots(jobs) <==> Depth(jobs, i, 1)
    ensures forall a, b | 0 <= a < b < |Roots(jobs)| :: Roots(jobs)[a] < Roots(jobs)[b]
  {
    WhereIs(|jobs|, RootAt(jobs));
    forall i: nat ensures i in Roots(jobs) <==> Depth(jobs, i, 1) {
      if i < |jobs| {
        RootIs(jobs, i);
      }
    }
  }

  lemma RootsLevel(jobs: seq<Job>)
    ensures Level(jobs, Roots(jobs), 1)
  {
    RootsAre(jobs);
  }

  /** The job `e - d` above a job of depth `e` has depth `d`; so a job is below exactly one
      job of each smaller depth. */
  lemma ForestMembers(jobs: seq<Job>, list: seq<nat>, d: nat, x: nat)
    requires UniqueIds(jobs) && Level(jobs, list, d)
    ensures x in Forest(jobs, list, d) <==> exists i :: i in list && Below(jobs, x, i)
    decreases |jobs| + 1 - d, |list|
  {
    hide Depth, Up, IsParent;
    if list != [] {
      var i := list[0];
      DepthBound(jobs, i, d);
      DepthValid(jobs, i, d);
      KidsLevel(jobs, i, d);
      var kids := Kids(jobs, jobs[i].id);
      ForestMembers(jobs, kids, d + 1, x);
      ForestMembers(jobs, list[1..], d, x);
      assert list == [i] + list[1..];
      KidsAre(jobs, i);
      BelowKid(jobs, x, i);
    }
  }

  lemma DepthValid(jobs: seq<Job>, i: nat, d: nat)
    requires Depth(jobs, i, d)
    ensures i < |jobs|
  {
  }

  /** Below a job means being it, or below one of its children. */
  lemma BelowKid(jobs: seq<Job>, x: nat, i: nat)
    requires UniqueIds(jobs) && i < |jobs|
    ensures Below(jobs, x, i) <==> x == i || exists kid :: IsParent(jobs, i, kid) && Below(jobs, x, kid)
  {
    hide IsParent, ParentOf;
    assert Up(jobs, x, 0) == Some(x);
    if Below(jobs, x, i) && x != i {
      var k: nat :| Up(jobs, x, k) == Some(i);
      var kid := Up(jobs, x, k - 1).value;
      ParentIs(jobs, i, kid);
      assert Below(jobs, x, kid);
    }
    if kid: nat :| IsParent(jobs, i, kid) && Below(jobs, x, kid) {
      var k: nat :| Up(jobs, x, k) == Some(kid);
      ParentIs(jobs, i, kid);
      assert Up(jobs, x, k + 1) == Some(i);
    }
  }

  /** A job below one of depth `d` is that much deeper. */
  lemma DepthBelow(jobs: seq<Job>, x: nat, k: nat, i: nat, d: nat)
    requires x < |jobs| && Up(jobs, x, k) == Some(i) && Depth(jobs, i, d)
    ensures Depth(jobs, x, k + d)
  {
    UpUp(jobs, x, k, d - 1);
    UpUp(jobs, x, k, d);
  }

  /** Of one depth, a job is below at most one. */
  lemma OneAbove(jobs: seq<Job>, x: nat, a: nat, b: nat, d: nat)
    requires x < |jobs| && Below(jobs, x, a) && Below(jobs, x, b) && Depth(jobs, a, d) && Depth(jobs, b, d)
    ensures a == b
  {
    var k: nat :| Up(jobs, x, k) == Some(a);
    var m: nat :| Up(jobs, x, m) == Some(b);
    DepthBelow(jobs, x, k, a, d);
    DepthBelow(jobs, x, m, b, d);
    DepthUnique(jobs, x, k + d, m + d);
  }

  lemma {:induction false} ForestValid(jobs: seq<Job>, list: seq<nat>, d: nat)
    requires UniqueIds(jobs) && Level(jobs, list, d)
    ensures Valid(jobs, Forest(jobs, list, d))
    decreases |jobs| + 1 - d, |list|
  {
    hide Depth, Kids;
    if list != [] {
      DepthBound(jobs, list[0], d);
      DepthValid(jobs, list[0], d);
      KidsLevel(jobs, list[0], d);
      ForestValid(jobs, Kids(jobs, jobs[list[0]].id), d + 1);
      ForestValid(jobs, list[1..], d);
    }
  }

  lemma DistinctConcat(a: seq<nat>, b: seq<nat>)
    requires Distinct(a) && Distinct(b) && forall x :: !(x in a && x in b)
    ensures Distinct(a + b)
  {
    forall i, j | 0 <= i < j < |a + b| ensures (a + b)[i] != (a + b)[j] {
      if i < |a| <= j {
        assert a[i] in a && b[j - |a|] in b;
      }
    }
  }

  lemma AscendingIsDistinct(list: seq<nat>)
    requires forall a, b | 0 <= a < b < |list| :: list[a] < list[b]
    ensures Distinct(list)
  {
  }

  lemma {:induction false} ForestDistinct(jobs: seq<Job>, list: seq<nat>, d: nat)
    requires UniqueIds(jobs) && Level(jobs, list, d) && Distinct(list)
    ensures Distinct(Forest(jobs, list, d))
    decreases |jobs| + 1 - d, |list|
  {
    hide Depth, Kids, Up, IsParent, Below;
    if list != [] {
      var i := list[0];
      DepthBound(jobs, i, d);
      DepthValid(jobs, i, d);
      KidsLevel(jobs, i, d);
      KidsAre(jobs, i);
      var kids, rest := Kids(jobs, jobs[i].id), list[1..];
      AscendingIsDistinct(kids);
      ForestDistinct(jobs, kids, d + 1);
      ForestDistinct(jobs, rest, d);
      ForestsApart(jobs, i, d, rest);
      assert [i] + Forest(jobs, kids, d + 1) == Tree(jobs, i, d) by { TreeIs(jobs, i, d); }
      DistinctConcat([i], Forest(jobs, kids, d + 1));
      DistinctConcat([i] + Forest(jobs, kids, d + 1), Forest(jobs, rest, d));
    }
  }

  lemma TreeIs(jobs: seq<Job>, i: nat, d: nat)
    requires UniqueIds(jobs) && Depth(jobs, i, d)
    ensures Level(jobs, Kids(jobs, jobs[i].id), d + 1)
    ensures Tree(jobs, i, d) == [i] + Forest(jobs, Kids(jobs, jobs[i].id), d + 1)
    ensures forall x :: x in Tree(jobs, i, d) <==> Below(jobs, x, i)
  {
    hide Kids, Up;
    KidsLevel(jobs, i, d);
    assert [i][1..] == [] && Forest(jobs, [i][1..], d) == [];
    var below := Forest(jobs, Kids(jobs, jobs[i].id), d + 1);
    assert [i] + below + [] == [i] + below;
    forall x: nat ensures x in Tree(jobs, i, d) <==> Below(jobs, x, i) {
      ForestMembers(jobs, [i], d, x);
    }
  }

  /** A job is not below itself, and the trees of jobs of one depth share nothing. */
  lemma ForestsApart(jobs: seq<Job>, i: nat, d: nat, rest: seq<nat>)
    requires UniqueIds(jobs) && Depth(jobs, i, d) && Level(jobs, rest, d) && i !in rest
    ensures Level(jobs, Kids(jobs, jobs[i].id), d + 1)
    ensures i !in Forest(jobs, Kids(jobs, jobs[i].id), d + 1)
    ensures forall x | x in Tree(jobs, i, d) :: x !in Forest(jobs, rest, d)
  {
    hide Kids, Up;
    KidsLevel(jobs, i, d);
    TreeIs(jobs, i, d);
    var kids := Kids(jobs, jobs[i].id);
    ForestMembers(jobs, kids, d + 1, i);
    forall kid | kid in kids ensures !Below(jobs, i, kid) {
      NotBelowDeeper(jobs, i, d, kid);
    }
    ForestValid(jobs, [i], d);
    forall x | x in Tree(jobs, i, d) ensures x !in Forest(jobs, rest, d) {
      ForestMembers(jobs, rest, d, x);
      forall r | r in rest ensures !Below(jobs, x, r) {
        if Below(jobs, x, r) {
          OneAbove(jobs, x, i, r, d);
        }
      }
    }
  }

  lemma NotBelowDeeper(jobs: seq<Job>, i: nat, d: nat, kid: nat)
    requires Depth(jobs, i, d) && Depth(jobs, kid, d + 1)
    ensures !Below(jobs, i, kid)
  {
    forall k: nat ensures Up(jobs, i, k) != Some(kid) {
      if Up(jobs, i, k) == Some(kid) {
        DepthBelow(jobs, i, k, kid, d + 1);
        DepthUnique(jobs, i, d, k + d + 1);
      }
    }
  }

  ghost function DepthOf(jobs: seq<Job>, i: nat): nat
    requires Rooted(jobs, i)
    ensures Depth(jobs, i, DepthOf(jobs, i))
  {
    var d: nat :| Depth(jobs, i, d);
    d
  }

  ghost predicate AllRooted(jobs: seq<Job>, todo: seq<nat>) {
    forall k | 0 <= k < |todo| :: Rooted(jobs, todo[k])
  }

  ghost function Flat(jobs: seq<Job>, todo: seq<nat>): seq<nat>
    requires UniqueIds(jobs) && AllRooted(jobs, todo)
  {
    if todo == [] then [] else Tree(jobs, todo[0], DepthOf(jobs, todo[0])) + Flat(jobs, todo[1..])
  }

  lemma FlatHead(jobs: seq<Job>, todo: seq<nat>)
    requires UniqueIds(jobs) && AllRooted(jobs, todo) && todo != []
    ensures Flat(jobs, todo) == Tree(jobs, todo[0], DepthOf(jobs, todo[0])) + Flat(jobs, todo[1..])
  {
  }

  lemma {:induction false} FlatConcat(jobs: seq<Job>, a: seq<nat>, b: seq<nat>)
    requires UniqueIds(jobs) && AllRooted(jobs, a) && AllRooted(jobs, b)
    ensures AllRooted(jobs, a + b) && Flat(jobs, a + b) == Flat(jobs, a) + Flat(jobs, b)
  {
    hide Rooted, Tree;
    if a == [] {
      assert a + b == b;
    } else {
      assert (a + b)[1..] == a[1..] + b;
      FlatConcat(jobs, a[1..], b);
      FlatHead(jobs, a);
      FlatHead(jobs, a + b);
      hide Flat, AllRooted, UniqueIds;
    }
  }

  lemma {:induction false} FlatLevel(jobs: seq<Job>, list: seq<nat>, d: nat)
    requires UniqueIds(jobs) && Level(jobs, list, d)
    ensures AllRooted(jobs, list) && Flat(jobs, list) == Forest(jobs, list, d)
    decreases |list|
  {
    hide Depth, Kids;
    if list != [] {
      var i := list[0];
      FlatLevel(jobs, list[1..], d);
      assert i in list && Depth(jobs, i, d);
      DepthUnique(jobs, i, d, DepthOf(jobs, i));
      TreeIs(jobs, i, d);
    }
  }

  lemma FirstTaken(i: nat, later: seq<nat>, seen: set<nat>)
    requires Distinct([i] + later) && forall x | x in [i] + later :: x !in seen
    ensures Distinct(later) && forall x | x in later :: x !in seen + {i}
  {
    var all := [i] + later;
    assert all[0] == i;
    forall a, b | 0 <= a < b < |later| ensures later[a] != later[b] {
      assert all[a + 1] == later[a] && all[b + 1] == later[b];
    }
    forall k | 0 <= k < |later| ensures later[k] !in seen + {i} {
      assert all[k + 1] == later[k] && all[k + 1] in all;
    }
  }

  /** As long as nothing in the trees of the pending jobs is marked, the walk lists them. */
  lemma {:induction false} WalkIsFlat(jobs: seq<Job>, todo: seq<nat>, seen: set<nat>)
    requires UniqueIds(jobs) && Valid(jobs, todo) && AllRooted(jobs, todo)
    requires Distinct(Flat(jobs, todo)) && forall x | x in Flat(jobs, todo) :: x !in seen
    ensures Walk(jobs, todo, seen) == Flat(jobs, todo)
    decreases |Unseen(jobs, seen)|, |todo|
  {
    hide Rooted, Kids, Unseen, Depth, Below, Tree, Walk;
    if todo == [] {
      WalkEnd(jobs, seen);
    } else {
      var i, rest := todo[0], todo[1..];
      assert todo == [i] + rest;
      var d := DepthOf(jobs, i);
      var kids := Kids(jobs, jobs[i].id);
      TreeIs(jobs, i, d);
      FlatLevel(jobs, kids, d + 1);
      FlatConcat(jobs, kids, rest);
      var all, later := Flat(jobs, todo), Flat(jobs, kids + rest);
      assert all == [i] + later;
      assert all[0] == i && i !in seen;
      FirstTaken(i, later, seen);
      WalkStep(jobs, i, rest, seen);
      SeeingOne(jobs, seen, i);
      WalkIsFlat(jobs, kids + rest, seen + {i});
    }
  }

  lemma RootedBelowRoot(jobs: seq<Job>, x: nat)
    requires x < |jobs|
    ensures Rooted(jobs, x) <==> exists r :: r in Roots(jobs) && Below(jobs, x, r)
  {
    RootsAre(jobs);
    if d: nat :| Depth(jobs, x, d) {
      var r := Up(jobs, x, d - 1).value;
      UpValid(jobs, x, d - 1);
      UpUp(jobs, x, d - 1, 1);
      UpUp(jobs, x, d - 1, 0);
      assert Depth(jobs, r, 1) && Below(jobs, x, r);
    }
    if r: nat :| r in Roots(jobs) && Below(jobs, x, r) {
      var k: nat :| Up(jobs, x, k) == Some(r);
      DepthBelow(jobs, x, k, r, 1);
    }
  }

  lemma {:induction false} WhereSame(n: nat, p: nat -> bool, q: nat -> bool)
    requires forall i: nat | i < n :: p(i) == q(i)
    ensures Where(n, p) == Where(n, q)
  {
    if n > 0 {
      WhereSame(n - 1, p, q);
    }
  }

  /** The jobs whose ancestry never ends: it comes back to itself. */
  ghost function Looping(jobs: seq<Job>): seq<nat> {
    Where(|jobs|, (i: nat) => !Rooted(jobs, i))
  }

  /** The whole order: the roots by creation, each followed by the forest of its children,
      at every level, and then exactly the jobs whose ancestry loops, by creation. */
  lemma OrderIsForest(jobs: seq<Job>)
    requires UniqueIds(jobs)
    ensures Level(jobs, Roots(jobs), 1)
    ensures Order(jobs) == Forest(jobs, Roots(jobs), 1) + Looping(jobs)
    ensures forall i: nat | i < |jobs| :: i in Forest(jobs, Roots(jobs), 1) <==> Rooted(jobs, i)
  {
    hide Rooted, Depth, Below, Walk, Roots, Where;
    RootsLevel(jobs);
    RootsAre(jobs);
    KidsValid(jobs, "");
    AscendingIsDistinct(Roots(jobs));
    ForestDistinct(jobs, Roots(jobs), 1);
    FlatLevel(jobs, Roots(jobs), 1);
    WalkIsFlat(jobs, Roots(jobs), {});
    forall i: nat | i < |jobs| ensures i in Walked(jobs) <==> Rooted(jobs, i) {
      RootedBelowRoot(jobs, i);
      ForestMembers(jobs, Roots(jobs), 1, i);
    }
    WhereSame(|jobs|, NotIn(Walked(jobs)), (i: nat) => !Rooted(jobs, i));
  }

  /** The subtree of a job is one contiguous part of every forest it is in. */
  lemma {:induction false} TreeInForest(jobs: seq<Job>, list: seq<nat>, d: nat, x: nat, e: nat)
    returns (before: seq<nat>, after: seq<nat>)
    requires UniqueIds(jobs) && Level(jobs, list, d) && Depth(jobs, x, e)
    requires x in Forest(jobs, list, d)
    ensures Forest(jobs, list, d) == before + Tree(jobs, x, e) + after
    decreases |jobs| + 1 - d, |list|
  {
    hide Depth, Kids, Below, Up, IsParent;
    var i := list[0];
    DepthBound(jobs, i, d);
    DepthValid(jobs, i, d);
    TreeIs(jobs, i, d);
    var kids := Kids(jobs, jobs[i].id);
    if x == i {
      DepthUnique(jobs, x, d, e);
      before, after := [], Forest(jobs, list[1..], d);
    } else if x in Forest(jobs, kids, d + 1) {
      before, after := TreeInForest(jobs, kids, d + 1, x, e);
      before, after := [i] + before, after + Forest(jobs, list[1..], d);
    } else {
      before, after := TreeInForest(jobs, list[1..], d, x, e);
      before := Tree(jobs, i, d) + before;
    }
  }

  /** Every job whose ancestry ends heads one contiguous part of the order, which holds
      exactly the jobs below it. */
  lemma SubtreesAreContiguous(jobs: seq<Job>, i: nat, d: nat) returns (at: nat)
    requires UniqueIds(jobs) && Depth(jobs, i, d)
    ensures at + |Tree(jobs, i, d)| <= |Order(jobs)|
    ensures Order(jobs)[at..at + |Tree(jobs, i, d)|] == Tree(jobs, i, d)
    ensures Order(jobs)[at] == i
    ensures forall x :: x in Tree(jobs, i, d) <==> Below(jobs, x, i)
  {
    hide Order, Below, Kids, Roots, Forest, Tree;
    OrderIsForest(jobs);
    var before, after := TreeInForest(jobs, Roots(jobs), 1, i, d);
    TreeIs(jobs, i, d);
    at := |before|;
  }

  ghost predicate Before(s: seq<nat>, x: nat, y: nat) {
    exists i, j :: 0 <= i < j < |s| && s[i] == x && s[j] == y
  }

  lemma BeforeInPart(s: seq<nat>, before: seq<nat>, part: seq<nat>, after: seq<nat>, x: nat, y: nat)
    requires s == before + part + after && Before(part, x, y)
    ensures Before(s, x, y)
  {
    var i, j :| 0 <= i < j < |part| && part[i] == x && part[j] == y;
    assert s[|before| + i] == x && s[|before| + j] == y;
  }

  lemma {:induction false} ForestBefore(jobs: seq<Job>, list: seq<nat>, d: nat, a: nat, b: nat)
    requires UniqueIds(jobs) && Level(jobs, list, d) && a < b < |list|
    ensures Before(Forest(jobs, list, d), list[a], list[b])
    decreases |list|
  {
    hide Depth, Kids, Below;
    var i, rest := list[0], list[1..];
    TreeIs(jobs, i, d);
    var all := Forest(jobs, list, d);
    assert all == Tree(jobs, i, d) + Forest(jobs, rest, d);
    if a > 0 {
      ForestBefore(jobs, rest, d, a - 1, b - 1);
      BeforeInPart(all, Tree(jobs, i, d), Forest(jobs, rest, d), [], list[a], list[b]);
    } else {
      ForestMembers(jobs, rest, d, list[b]);
      assert rest[b - 1] == list[b];
      BelowItself(jobs, list[b]);
      assert all[0] == i;
      var k :| 0 <= k < |Forest(jobs, rest, d)| && Forest(jobs, rest, d)[k] == list[b];
      assert all[|Tree(jobs, i, d)| + k] == list[b];
    }
  }

  lemma BelowItself(jobs: seq<Job>, i: nat)
    ensures Below(jobs, i, i)
  {
    assert Up(jobs, i, 0) == Some(i);
  }

  /** A job comes before its children, and they come by creation. */
  lemma ParentThenChildren(jobs: seq<Job>, p: nat, a: nat, b: nat)
    requires UniqueIds(jobs) && Rooted(jobs, p) && IsParent(jobs, p, a) && IsParent(jobs, p, b)
    ensures Before(Order(jobs), p, a)
    ensures a < b ==> Before(Order(jobs), a, b)
  {
    hide Order, Below, Kids, Roots, Forest, Tree, Depth, Before;
    var d := DepthOf(jobs, p);
    var at := SubtreesAreContiguous(jobs, p, d);
    TreeIs(jobs, p, d);
    KidsAre(jobs, p);
    var tree, kids, order := Tree(jobs, p, d), Kids(jobs, jobs[p].id), Order(jobs);
    var forest := Forest(jobs, kids, d + 1);
    assert order == order[..at] + tree + order[at + |tree|..];
    FirstBefore(p, forest, a) by {
      ForestMembers(jobs, kids, d + 1, a);
      BelowItself(jobs, a);
    }
    BeforeInPart(order, order[..at], tree, order[at + |tree|..], p, a);
    if a < b {
      var i :| 0 <= i < |kids| && kids[i] == a;
      var j :| 0 <= j < |kids| && kids[j] == b;
      ForestBefore(jobs, kids, d + 1, i, j);
      BeforeInPart(tree, [p], forest, [], a, b);
      BeforeInPart(order, order[..at], tree, order[at + |tree|..], a, b);
    }
  }

  lemma FirstBefore(x: nat, s: seq<nat>, y: nat)
    requires y in s
    ensures Before([x] + s, x, y)
  {
    var k :| 0 <= k < |s| && s[k] == y;
    assert ([x] + s)[0] == x && ([x] + s)[k + 1] == y;
  }
}
