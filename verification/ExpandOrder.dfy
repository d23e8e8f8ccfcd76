/**
 Inlining keeps the execution order: among the flattened tasks one waits for
 another exactly when, in the lowest list that holds both, its element waits for
 the other's.
 */
module ExpandOrder {
  import opened Common
  import opened Graph
  import opened Inlining
  import opened Expand
  import opened ExpandLeaves

  // ── what is asked of the lists ─────────────────────────────────────────────

  ghost predicate PlainName(name: string) {
    name != "" && '.' !in name
  }

  function Names(tasks: seq<Task>): set<string> {
    set t <- tasks | t.name.Some? :: t.name.value
  }

  /** Names are plain and distinct, and dependencies name tasks of the list. */
  ghost predicate WellNamed(tasks: seq<Task>) {
    && (forall t <- tasks :: t.name.Some? && PlainName(t.name.value))
    && (forall i, j :: 0 <= i < j < |tasks| ==> tasks[i].name != tasks[j].name)
    && (forall t <- tasks, d <- t.deps :: d in Names(tasks))
  }

  /** "Depends on" within one list. */
  function ListEdges(tasks: seq<Task>): Edges {
    set t <- tasks, d <- t.deps | t.name.Some? :: (t.name.value, d)
  }

  ghost predicate Calls(tasks: seq<Task>, refs: Refs, target: string) {
    target in refs && exists t <- tasks :: t.target == Some(target)
  }

  /** Every inlined list is well named. */
  ghost predicate AllWellNamed(tasks: seq<Task>, refs: Refs, depth: nat)
    requires depth <= MAX_DEPTH + 1
    decreases MAX_DEPTH + 1 - depth
  {
    depth <= MAX_DEPTH ==>
      && WellNamed(tasks)
      && forall target | Calls(tasks, refs, target) :: AllWellNamed(refs[target], refs, depth + 1)
  }

  /** No inlined list has a dependency cycle. */
  ghost predicate AllAcyclic(tasks: seq<Task>, refs: Refs, depth: nat)
    requires depth <= MAX_DEPTH + 1
    decreases MAX_DEPTH + 1 - depth
  {
    depth <= MAX_DEPTH ==>
      && Acyclic(ListEdges(tasks))
      && forall target | Calls(tasks, refs, target) :: AllAcyclic(refs[target], refs, depth + 1)
  }

  /** A list as a graph of its own. */
  ghost function OfList(tasks: seq<Task>): Block {
    Block(Names(tasks), ListEdges(tasks))
  }

  /** Order passes through every inlined list: no task of one is on cycles alone. */
  ghost predicate AllThreaded(tasks: seq<Task>, refs: Refs, depth: nat)
    requires depth <= MAX_DEPTH + 1
    decreases MAX_DEPTH + 1 - depth
  {
    depth <= MAX_DEPTH ==>
      && Threaded(OfList(tasks))
      && forall target | Calls(tasks, refs, target) :: AllThreaded(refs[target], refs, depth + 1)
  }

  /** And through every list inlined into this one. */
  ghost predicate CallsThreaded(tasks: seq<Task>, refs: Refs, depth: nat)
    requires depth <= MAX_DEPTH + 1
  {
    depth <= MAX_DEPTH ==> forall target | Calls(tasks, refs, target) :: AllThreaded(refs[target], refs, depth + 1)
  }

  /** "Waits for", read off the lists: in some list that holds both leaves. */
  ghost predicate WaitsSomewhere(tasks: seq<Task>, refs: Refs, p: seq<string>, q: seq<string>)
    requires p != [] && q != []
    decreases |p|
  {
    || Reach(ListEdges(tasks), p[0], q[0])
    || (p[0] == q[0] && |p| > 1 && |q| > 1
        && exists t <- tasks ::
             t.name == Some(p[0]) && t.target.Some? && t.target.value in refs
             && WaitsSomewhere(refs[t.target.value], refs, p[1..], q[1..]))
  }

  /** And at the lowest list that does. */
  ghost predicate WaitsFor(tasks: seq<Task>, refs: Refs, p: seq<string>, q: seq<string>)
    requires p != [] && q != []
    decreases |p|
  {
    if p[0] != q[0] || |p| == 1 || |q| == 1 then Reach(ListEdges(tasks), p[0], q[0])
    else
      exists t <- tasks ::
        t.name == Some(p[0]) && t.target.Some? && t.target.value in refs
        && WaitsFor(refs[t.target.value], refs, p[1..], q[1..])
  }

  ghost predicate IsLeaf(tasks: seq<Task>, refs: Refs, depth: nat, p: seq<string>)
    requires depth <= MAX_DEPTH + 1
  {
    exists l <- Leaves(tasks, refs, depth) :: l.path == p
  }

  // ── the flattened graph ────────────────────────────────────────────────────

  function FlatEdges(tasks: seq<Flat>): Edges {
    set t <- tasks, d <- t.deps :: (t.name, d)
  }

  ghost predicate Distinct(tasks: seq<Flat>) {
    forall i, j :: 0 <= i < j < |tasks| ==> tasks[i].name != tasks[j].name
  }

  function BlockOf(e: Expanded): Block {
    Block(FlatNames(e.tasks), FlatEdges(e.tasks))
  }

  /** `name` is `q` or under it. */
  ghost predicate Under(q: string, name: string) {
    name == q || Beneath(q, name)
  }

  ghost predicate Beneath(q: string, name: string) {
    |name| > |q| && name[..|q|] == q && name[|q|] == '.'
  }

  /** An expansion is a graph of its own, under its own name, with its true boundary. */
  ghost predicate Tidy(e: Expanded, q: string) {
    && e.tasks != []
    && Distinct(e.tasks)
    && DependedOn(e.tasks) <= FlatNames(e.tasks)
    && (forall t <- e.tasks :: Under(q, t.name))
    && (forall n :: n in e.roots <==> BlockOf(e).IsRoot(n))
    && (forall n :: n in e.exits <==> BlockOf(e).IsExit(n))
  }

  ghost predicate TidyList(tasks: seq<Task>, exps: seq<Expanded>, prefix: string) {
    && WellNamed(tasks)
    && |exps| == |tasks|
    && forall i :: 0 <= i < |tasks| ==> Tidy(exps[i], Qualify(prefix, tasks[i].name.value))
  }

  ghost function BlocksOf(tasks: seq<Task>, exps: seq<Expanded>): Blocks
    requires WellNamed(tasks) && |exps| == |tasks|
  {
    map n | n in Names(tasks) :: BlockOf(exps[LastNamed(tasks, n)])
  }

  lemma NamedOnce(tasks: seq<Task>, i: nat)
    requires WellNamed(tasks) && i < |tasks|
    ensures LastNamed(tasks, tasks[i].name.value) == i
    ensures FirstNamed(tasks, tasks[i].name.value) == i
    ensures tasks[i].name.value in Names(tasks)
  {
  }

  function FirstDot(s: string): (n: nat)
    ensures n <= |s| && '.' !in s[..n] && (n < |s| ==> s[n] == '.')
  {
    if s == "" || s[0] == '.' then 0 else 1 + FirstDot(s[1..])
  }

  lemma {:induction false} FirstDotIs(s: string, n: nat)
    requires n <= |s| && '.' !in s[..n] && (n < |s| ==> s[n] == '.')
    ensures FirstDot(s) == n
    decreases |s|
  {
    if n > 0 {
      assert s[0] == s[..n][0];
      assert s[1..][..n - 1] == s[..n][1..];
      FirstDotIs(s[1..], n - 1);
    }
  }

  /** A name under a plain one, past the prefix, starts with it up to the first dot. */
  lemma UnderSegment(prefix: string, a: string, name: string)
    requires PlainName(a) && Under(Qualify(prefix, a), name)
    ensures var k := if prefix == "" then 0 else |prefix| + 1;
            k <= |name| && name[k..][..FirstDot(name[k..])] == a
  {
    var k := if prefix == "" then 0 else |prefix| + 1;
    var q := Qualify(prefix, a);
    assert q[k..] == a && name[..|q|] == q;
    assert name[k..][..|a|] == name[..|q|][k..];
    FirstDotIs(name[k..], |a|);
  }

  /** Two plain names lead to disjoint parts of the name space. */
  lemma UnderOne(prefix: string, a: string, b: string, name: string)
    requires PlainName(a) && PlainName(b)
    requires Under(Qualify(prefix, a), name) && Under(Qualify(prefix, b), name)
    ensures a == b
  {
    UnderSegment(prefix, a, name);
    UnderSegment(prefix, b, name);
  }

  /** The task `t` of the `i`th expansion, rewired. */
  function FromExpansion(tasks: seq<Task>, exps: seq<Expanded>, prefix: string, i: nat, t: Flat): Flat
    requires |exps| == |tasks| && i < |tasks| && forall t <- tasks :: t.name.Some?
  {
    Inherit(t, exps[i].roots, UpstreamsOf(tasks, exps, prefix, i))
  }

  lemma {:induction false} FlattenFrom(parts: seq<seq<Flat>>, f: Flat) returns (i: nat, j: nat)
    requires f in Flatten(parts)
    ensures i < |parts| && j < |parts[i]| && parts[i][j] == f
    decreases |parts|
  {
    var n := |parts| - 1;
    if f in parts[n] {
      i := n;
      j :| 0 <= j < |parts[n]| && parts[n][j] == f;
    } else {
      i, j := FlattenFrom(parts[..n], f);
    }
  }

  lemma {:induction false} FlattenHolds(parts: seq<seq<Flat>>, i: nat, j: nat)
    requires i < |parts| && j < |parts[i]|
    ensures parts[i][j] in Flatten(parts)
    decreases |parts|
  {
    if i < |parts| - 1 {
      FlattenHolds(parts[..|parts| - 1], i, j);
    }
  }

  /** Rewiring yields the expansions' tasks, and no others. */
  lemma YieldedFrom(tasks: seq<Task>, exps: seq<Expanded>, prefix: string, f: Flat)
    returns (i: nat, t: Flat)
    requires |exps| == |tasks| && forall t <- tasks :: t.name.Some?
    requires f in RewiredAll(tasks, exps, prefix)
    ensures i < |tasks| && t in exps[i].tasks && f == FromExpansion(tasks, exps, prefix, i, t) && f.name == t.name
  {
    var j;
    i, j := FlattenFrom(Parts(tasks, exps, prefix), f);
    t := exps[i].tasks[j];
  }

  lemma Yielded(tasks: seq<Task>, exps: seq<Expanded>, prefix: string, i: nat, t: Flat)
    requires |exps| == |tasks| && forall t <- tasks :: t.name.Some?
    requires i < |tasks| && t in exps[i].tasks
    ensures FromExpansion(tasks, exps, prefix, i, t) in RewiredAll(tasks, exps, prefix)
  {
    var j :| 0 <= j < |exps[i].tasks| && exps[i].tasks[j] == t;
    FlattenHolds(Parts(tasks, exps, prefix), i, j);
  }

  ghost predicate ShareNoName(a: seq<Flat>, b: seq<Flat>) {
    forall x, y :: 0 <= x < |a| && 0 <= y < |b| ==> a[x].name != b[y].name
  }

  ghost predicate Apart(parts: seq<seq<Flat>>) {
    && (forall i :: 0 <= i < |parts| ==> Distinct(parts[i]))
    && (forall i, j :: 0 <= i < j < |parts| ==> ShareNoName(parts[i], parts[j]))
  }

  lemma {:induction false} FlattenDistinct(parts: seq<seq<Flat>>)
    requires Apart(parts)
    ensures Distinct(Flatten(parts))
    decreases |parts|
  {
    if parts != [] {
      var n := |parts| - 1;
      FlattenDistinct(parts[..n]);
      var before := Flatten(parts[..n]);
      forall x, y | 0 <= x < |before| && 0 <= y < |parts[n]| ensures before[x].name != parts[n][y].name {
        var i, j := FlattenFrom(parts[..n], before[x]);
        assert ShareNoName(parts[i], parts[n]);
      }
    }
  }

  lemma TasksApart(tasks: seq<Task>, exps: seq<Expanded>, prefix: string, i: nat, j: nat, t: Flat, u: Flat)
    requires TidyList(tasks, exps, prefix) && i < j < |tasks|
    requires t in exps[i].tasks && u in exps[j].tasks
    ensures t.name != u.name
  {
    if t.name == u.name {
      UnderOne(prefix, tasks[i].name.value, tasks[j].name.value, t.name);
    }
  }

  lemma PartsShareNoName(tasks: seq<Task>, exps: seq<Expanded>, prefix: string, i: nat, j: nat)
    requires TidyList(tasks, exps, prefix) && i < j < |tasks|
    ensures ShareNoName(Parts(tasks, exps, prefix)[i], Parts(tasks, exps, prefix)[j])
  {
    forall x, y | 0 <= x < |exps[i].tasks| && 0 <= y < |exps[j].tasks|
      ensures exps[i].tasks[x].name != exps[j].tasks[y].name
    {
      TasksApart(tasks, exps, prefix, i, j, exps[i].tasks[x], exps[j].tasks[y]);
    }
  }

  lemma PartDistinct(tasks: seq<Task>, exps: seq<Expanded>, prefix: string, i: nat)
    requires TidyList(tasks, exps, prefix) && i < |tasks|
    ensures Distinct(Parts(tasks, exps, prefix)[i])
  {
  }

  /** Two elements' tasks share no name. */
  lemma PartsApart(tasks: seq<Task>, exps: seq<Expanded>, prefix: string)
    requires TidyList(tasks, exps, prefix)
    ensures Apart(Parts(tasks, exps, prefix))
  {
    var parts: seq<seq<Flat>> := Parts(tasks, exps, prefix);
    forall i | 0 <= i < |parts| ensures Distinct(parts[i]) {
      PartDistinct(tasks, exps, prefix, i);
    }
    forall i, j | 0 <= i < j < |parts| ensures ShareNoName(parts[i], parts[j]) {
      PartsShareNoName(tasks, exps, prefix, i, j);
    }
  }

  /** What a dependency within a well-named list becomes. */
  lemma UpstreamsAre(tasks: seq<Task>, exps: seq<Expanded>, prefix: string, i: nat, u: string)
    requires TidyList(tasks, exps, prefix) && i < |tasks|
    ensures u in UpstreamsOf(tasks, exps, prefix, i)
       <==> exists b :: (tasks[i].name.value, b) in ListEdges(tasks)
                        && b in Names(tasks) && BlocksOf(tasks, exps)[b].IsExit(u)
  {
    NamedOnce(tasks, i);
    var name := tasks[i].name.value;
    if u in UpstreamsOf(tasks, exps, prefix, i) {
      var d :| d in tasks[i].deps && u in Attach(tasks, exps, prefix, d);
      var j := LastNamed(tasks, d);
      assert d in Names(tasks) && (name, d) in ListEdges(tasks);
      assert BlocksOf(tasks, exps)[d].IsExit(u);
    }
    if b :| (name, b) in ListEdges(tasks) && b in Names(tasks) && BlocksOf(tasks, exps)[b].IsExit(u) {
      var t :| t in tasks && t.name == Some(name) && b in t.deps;
      var j :| 0 <= j < |tasks| && tasks[j] == t;
      assert j == i;
      assert u in Attach(tasks, exps, prefix, b);
    }
  }

  lemma BlocksSeparate(tasks: seq<Task>, exps: seq<Expanded>, prefix: string)
    requires TidyList(tasks, exps, prefix)
    ensures Separate(BlocksOf(tasks, exps))
    ensures Within(ListEdges(tasks), Names(tasks))
  {
    var blocks := BlocksOf(tasks, exps);
    forall a | a in blocks ensures blocks[a].nodes != {} && Within(blocks[a].edges, blocks[a].nodes) {
      var e := exps[LastNamed(tasks, a)];
      assert e.tasks[0].name in blocks[a].nodes;
      forall x | x in blocks[a].edges ensures x.0 in blocks[a].nodes && x.1 in blocks[a].nodes {
        assert x.1 in DependedOn(e.tasks);
      }
    }
    forall a, b, n | a in blocks && b in blocks && n in blocks[a].nodes && n in blocks[b].nodes
      ensures a == b
    {
      UnderOne(prefix, a, b, n);
    }
  }

  /** Where an inherited dependency comes from. */
  lemma InheritedEdge(tasks: seq<Task>, exps: seq<Expanded>, prefix: string, u: string, v: string)
    requires TidyList(tasks, exps, prefix)
    requires (u, v) in FlatEdges(RewiredAll(tasks, exps, prefix))
    ensures Inner(BlocksOf(tasks, exps), u, v) || Crossing(BlocksOf(tasks, exps), ListEdges(tasks), u, v)
  {
    var blocks, outer := BlocksOf(tasks, exps), ListEdges(tasks);
    var f :| f in RewiredAll(tasks, exps, prefix) && f.name == u && v in f.deps;
    var i, t := YieldedFrom(tasks, exps, prefix, f);
    NamedOnce(tasks, i);
    var name := tasks[i].name.value;
    if v in t.deps {
      assert (u, v) in blocks[name].edges;
    } else {
      UpstreamsAre(tasks, exps, prefix, i, v);
      var b :| (name, b) in outer && b in Names(tasks) && blocks[b].IsExit(v);
      assert Inlining.Rewired(blocks, outer, name, b, u, v);
    }
  }

  lemma EdgeOf(tasks: seq<Flat>, u: string, v: string) returns (t: Flat)
    requires (u, v) in FlatEdges(tasks)
    ensures t in tasks && t.name == u && v in t.deps
  {
    t :| t in tasks && t.name == u && v in t.deps;
  }

  lemma EdgeIn(tasks: seq<Flat>, t: Flat, v: string)
    requires t in tasks && v in t.deps
    ensures (t.name, v) in FlatEdges(tasks)
  {
  }

  lemma InnerKept(tasks: seq<Task>, exps: seq<Expanded>, prefix: string, a: string, u: string, v: string)
    requires WellNamed(tasks) && |exps| == |tasks|
    requires a in Names(tasks) && (u, v) in BlocksOf(tasks, exps)[a].edges
    ensures (u, v) in FlatEdges(RewiredAll(tasks, exps, prefix))
  {
    var i := LastNamed(tasks, a);
    var t := EdgeOf(exps[i].tasks, u, v);
    Yielded(tasks, exps, prefix, i, t);
    EdgeIn(RewiredAll(tasks, exps, prefix), FromExpansion(tasks, exps, prefix, i, t), v);
  }

  lemma CrossingMade(tasks: seq<Task>, exps: seq<Expanded>, prefix: string, a: string, b: string, u: string, v: string)
    requires TidyList(tasks, exps, prefix)
    requires Inlining.Rewired(BlocksOf(tasks, exps), ListEdges(tasks), a, b, u, v)
    ensures (u, v) in FlatEdges(RewiredAll(tasks, exps, prefix))
  {
    var i := LastNamed(tasks, a);
    var t :| t in exps[i].tasks && t.name == u;
    assert u in exps[i].roots;
    UpstreamsAre(tasks, exps, prefix, i, v);
    Yielded(tasks, exps, prefix, i, t);
    assert v in FromExpansion(tasks, exps, prefix, i, t).deps;
  }

  /** Rewiring is the graph inlining. */
  lemma RewiringInlines(tasks: seq<Task>, exps: seq<Expanded>, prefix: string)
    requires TidyList(tasks, exps, prefix)
    ensures Inlined(FlatEdges(RewiredAll(tasks, exps, prefix)), BlocksOf(tasks, exps), ListEdges(tasks))
  {
    var flat := FlatEdges(RewiredAll(tasks, exps, prefix));
    var blocks, outer := BlocksOf(tasks, exps), ListEdges(tasks);
    BlocksSeparate(tasks, exps, prefix);
    forall u, v ensures (u, v) in flat <==> Inner(blocks, u, v) || Crossing(blocks, outer, u, v) {
      if (u, v) in flat {
        InheritedEdge(tasks, exps, prefix, u, v);
      }
      if a :| a in blocks && (u, v) in blocks[a].edges {
        InnerKept(tasks, exps, prefix, a, u, v);
      }
      if a, b :| Inlining.Rewired(blocks, outer, a, b, u, v) {
        CrossingMade(tasks, exps, prefix, a, b, u, v);
      }
    }
  }

  lemma NameFrom(tasks: seq<Task>, exps: seq<Expanded>, prefix: string, n: string) returns (a: string)
    requires WellNamed(tasks) && |exps| == |tasks|
    requires n in FlatNames(RewiredAll(tasks, exps, prefix))
    ensures a in Names(tasks) && n in BlocksOf(tasks, exps)[a].nodes
  {
    var f :| f in RewiredAll(tasks, exps, prefix) && f.name == n;
    var i, t := YieldedFrom(tasks, exps, prefix, f);
    NamedOnce(tasks, i);
    a := tasks[i].name.value;
  }

  lemma NameKept(tasks: seq<Task>, exps: seq<Expanded>, prefix: string, a: string, n: string)
    requires WellNamed(tasks) && |exps| == |tasks|
    requires a in Names(tasks) && n in BlocksOf(tasks, exps)[a].nodes
    ensures n in FlatNames(RewiredAll(tasks, exps, prefix))
  {
    var i := LastNamed(tasks, a);
    var t :| t in exps[i].tasks && t.name == n;
    Yielded(tasks, exps, prefix, i, t);
    assert FromExpansion(tasks, exps, prefix, i, t).name == n;
  }

  /** The rewired list is itself closed. */
  lemma RewiredClosed(tasks: seq<Task>, exps: seq<Expanded>, prefix: string)
    requires TidyList(tasks, exps, prefix)
    ensures var out := RewiredAll(tasks, exps, prefix);
            DependedOn(out) <= FlatNames(out) && (tasks != [] ==> out != [])
  {
    var out := RewiredAll(tasks, exps, prefix);
    var blocks := BlocksOf(tasks, exps);
    if tasks != [] {
      Yielded(tasks, exps, prefix, 0, exps[0].tasks[0]);
    }
    RewiringInlines(tasks, exps, prefix);
    forall v | v in DependedOn(out) ensures v in FlatNames(out) {
      var f :| f in out && v in f.deps;
      assert (f.name, v) in FlatEdges(out);
      if Inner(blocks, f.name, v) {
        var a :| a in blocks && (f.name, v) in blocks[a].edges;
        NameKept(tasks, exps, prefix, a, v);
      } else {
        var a, b :| Inlining.Rewired(blocks, ListEdges(tasks), a, b, f.name, v);
        NameKept(tasks, exps, prefix, b, v);
      }
    }
  }

  lemma QualifiedBeneath(prefix: string, a: string, name: string)
    requires PlainName(a) && Under(Qualify(prefix, a), name) && prefix != ""
    ensures Beneath(prefix, name)
  {
    var q := Qualify(prefix, a);
    assert name[..|q|] == q;
    assert name[..|prefix|] == name[..|q|][..|prefix|];
    assert name[|prefix|] == name[..|q|][|prefix|];
  }

  lemma EdgesFrom(tasks: seq<Flat>, t: Flat, m: string)
    requires Distinct(tasks) && t in tasks
    ensures (t.name, m) in FlatEdges(tasks) <==> m in t.deps
  {
    if (t.name, m) in FlatEdges(tasks) {
      var u :| u in tasks && u.name == t.name && m in u.deps;
    }
  }

  lemma BoundedTidy(inner: seq<Flat>, q: string)
    requires inner != [] && Distinct(inner) && DependedOn(inner) <= FlatNames(inner)
    requires forall t <- inner :: Under(q, t.name)
    ensures Tidy(Bounded(inner), q)
  {
    var e := Bounded(inner);
    forall n ensures n in e.roots <==> BlockOf(e).IsRoot(n) {
      if n in FlatNames(inner) {
        var t :| t in inner && t.name == n;
        forall m ensures (n, m) in FlatEdges(inner) <==> m in t.deps {
          EdgesFrom(inner, t, m);
        }
        assert t.deps <= DependedOn(inner);
        assert t.deps !! FlatNames(inner) <==> t.deps == {};
        assert forall u <- inner :: u.name == n ==> u == t;
      }
    }
    forall n ensures n in e.exits <==> BlockOf(e).IsExit(n) {
      if n in FlatNames(inner) && n in DependedOn(inner) {
        var t :| t in inner && n in t.deps;
        assert (t.name, n) in FlatEdges(inner);
      }
    }
  }

  lemma LeafTidy(task: Task, q: string)
    ensures Tidy(Leaf(task, q), q)
    ensures Acyclic(BlockOf(Leaf(task, q)).edges)
  {
    var e := Leaf(task, q);
    assert BlockOf(e) == Block({q}, {});
    forall n ensures !Reach({}, n, n) {
      if Reach({}, n, n) {
        var m := ReachFirst({}, n, n);
      }
    }
  }

  lemma {:induction false} OneTidy(
    tasks: seq<Task>, i: nat, prefix: string, refs: Refs, depth: nat, budget: nat, chain: seq<string>)
    requires depth <= MAX_DEPTH && AllWellNamed(tasks, refs, depth) && i < |tasks|
    requires Expanded1(tasks[i], tasks[i].name.value, prefix, refs, depth, budget, chain).Ok?
    ensures Tidy(Expanded1(tasks[i], tasks[i].name.value, prefix, refs, depth, budget, chain).value.0,
                 Qualify(prefix, tasks[i].name.value))
    decreases MAX_DEPTH + 1 - depth, 0
  {
    var task := tasks[i];
    var q := Qualify(prefix, task.name.value);
    if task.target.None? {
      LeafTidy(task, q);
    } else {
      assert Calls(tasks, refs, task.target.value);
      InlineTidy(refs[task.target.value], q, refs, depth + 1, budget, chain + [task.target.value]);
      var inner := InlineList(refs[task.target.value], q, refs, depth + 1, budget, chain + [task.target.value]).value.0;
      BoundedTidy(inner, q);
    }
  }

  /** The expansions of a list's tasks. */
  ghost function Exps(tasks: seq<Task>, prefix: string, refs: Refs, depth: nat, budget: nat, chain: seq<string>)
    : seq<Expanded>
    requires depth <= MAX_DEPTH + 1
    requires InlineList(tasks, prefix, refs, depth, budget, chain).Ok?
  {
    ExpandedEach(tasks, prefix, refs, depth, budget, chain).value.0
  }

  lemma {:induction false} InlineTidy(
    tasks: seq<Task>, prefix: string, refs: Refs, depth: nat, budget: nat, chain: seq<string>)
    requires depth <= MAX_DEPTH + 1 && AllWellNamed(tasks, refs, depth)
    requires InlineList(tasks, prefix, refs, depth, budget, chain).Ok?
    ensures TidyList(tasks, Exps(tasks, prefix, refs, depth, budget, chain), prefix)
    ensures var out := InlineList(tasks, prefix, refs, depth, budget, chain).value.0;
            && Distinct(out)
            && DependedOn(out) <= FlatNames(out)
            && (tasks != [] ==> out != [])
            && (prefix != "" ==> forall t <- out :: Beneath(prefix, t.name))
    decreases MAX_DEPTH + 1 - depth, 1
  {
    var exps := Exps(tasks, prefix, refs, depth, budget, chain);
    forall i | 0 <= i < |tasks| ensures Tidy(exps[i], Qualify(prefix, tasks[i].name.value)) {
      var b := EachIsOne(tasks, prefix, refs, depth, budget, chain, i);
      OneTidy(tasks, i, prefix, refs, depth, b, chain);
    }
    PartsApart(tasks, exps, prefix);
    FlattenDistinct(Parts(tasks, exps, prefix));
    RewiredClosed(tasks, exps, prefix);
    var out := InlineList(tasks, prefix, refs, depth, budget, chain).value.0;
    forall t | t in out && prefix != "" ensures Beneath(prefix, t.name) {
      var a := NameFrom(tasks, exps, prefix, t.name);
      QualifiedBeneath(prefix, a, t.name);
    }
  }

  lemma InlineIsInlined(
    tasks: seq<Task>, prefix: string, refs: Refs, depth: nat, budget: nat, chain: seq<string>)
    requires depth <= MAX_DEPTH + 1 && AllWellNamed(tasks, refs, depth)
    requires InlineList(tasks, prefix, refs, depth, budget, chain).Ok?
    ensures WellNamed(tasks)
    ensures Inlined(FlatEdges(InlineList(tasks, prefix, refs, depth, budget, chain).value.0),
                    BlocksOf(tasks, Exps(tasks, prefix, refs, depth, budget, chain)), ListEdges(tasks))
  {
    InlineTidy(tasks, prefix, refs, depth, budget, chain);
    RewiringInlines(tasks, Exps(tasks, prefix, refs, depth, budget, chain), prefix);
  }

  // ── the theorems ───────────────────────────────────────────────────────────

  /** A block is acyclic exactly when the lists inlined into it are. */
  lemma {:induction false} BlockAcyclicIff(
    tasks: seq<Task>, i: nat, prefix: string, refs: Refs, depth: nat, budget: nat, chain: seq<string>)
    requires depth <= MAX_DEPTH && AllWellNamed(tasks, refs, depth) && i < |tasks|
    requires InlineList(tasks, prefix, refs, depth, budget, chain).Ok?
    ensures Acyclic(BlockOf(Exps(tasks, prefix, refs, depth, budget, chain)[i]).edges)
       <==> (tasks[i].target.Some? ==>
               tasks[i].target.value in refs && AllAcyclic(refs[tasks[i].target.value], refs, depth + 1))
    decreases MAX_DEPTH + 1 - depth, 0
  {
    var b := EachIsOne(tasks, prefix, refs, depth, budget, chain, i);
    var q := Qualify(prefix, tasks[i].name.value);
    if tasks[i].target.None? {
      LeafTidy(tasks[i], q);
    } else {
      var target := tasks[i].target.value;
      assert Calls(tasks, refs, target);
      FlatAcyclic(refs[target], q, refs, depth + 1, b, chain + [target]);
    }
  }

  lemma {:induction false} EachBlockAcyclicIff(
    tasks: seq<Task>, prefix: string, refs: Refs, depth: nat, budget: nat, chain: seq<string>)
    requires depth <= MAX_DEPTH && AllWellNamed(tasks, refs, depth)
    requires InlineList(tasks, prefix, refs, depth, budget, chain).Ok?
    ensures forall i :: 0 <= i < |tasks| ==>
               (Acyclic(BlockOf(Exps(tasks, prefix, refs, depth, budget, chain)[i]).edges)
                <==> (tasks[i].target.Some? ==>
                        tasks[i].target.value in refs && AllAcyclic(refs[tasks[i].target.value], refs, depth + 1)))
    decreases MAX_DEPTH + 1 - depth, 1
  {
    forall i | 0 <= i < |tasks|
      ensures Acyclic(BlockOf(Exps(tasks, prefix, refs, depth, budget, chain)[i]).edges)
         <==> (tasks[i].target.Some? ==>
                 tasks[i].target.value in refs && AllAcyclic(refs[tasks[i].target.value], refs, depth + 1))
    {
      BlockAcyclicIff(tasks, i, prefix, refs, depth, budget, chain);
    }
  }

  lemma TargetsKnown(
    tasks: seq<Task>, prefix: string, refs: Refs, depth: nat, budget: nat, chain: seq<string>)
    requires depth <= MAX_DEPTH && InlineList(tasks, prefix, refs, depth, budget, chain).Ok?
    ensures forall t <- tasks :: t.target.Some? ==> t.target.value in refs
  {
    forall t | t in tasks && t.target.Some? ensures t.target.value in refs {
      var i :| 0 <= i < |tasks| && tasks[i] == t;
      var b := EachIsOne(tasks, prefix, refs, depth, budget, chain, i);
    }
  }

  /** The same of a list, from its blocks. */
  lemma ListAcyclicIff(tasks: seq<Task>, exps: seq<Expanded>, flat: Edges, refs: Refs, depth: nat)
    requires depth <= MAX_DEPTH && WellNamed(tasks) && |exps| == |tasks|
    requires Inlined(flat, BlocksOf(tasks, exps), ListEdges(tasks))
    requires forall i :: 0 <= i < |tasks| ==>
               (Acyclic(BlockOf(exps[i]).edges)
                <==> (tasks[i].target.Some? ==>
                        tasks[i].target.value in refs && AllAcyclic(refs[tasks[i].target.value], refs, depth + 1)))
    requires forall t <- tasks :: t.target.Some? ==> t.target.value in refs
    ensures Acyclic(flat) <==> AllAcyclic(tasks, refs, depth)
  {
    var blocks := BlocksOf(tasks, exps);
    FlatAcyclicIff(flat, blocks, ListEdges(tasks));
    if BlocksAcyclic(blocks) {
      forall target | Calls(tasks, refs, target) ensures AllAcyclic(refs[target], refs, depth + 1) {
        var t :| t in tasks && t.target == Some(target);
        var i :| 0 <= i < |tasks| && tasks[i] == t;
        NamedOnce(tasks, i);
        assert blocks[t.name.value] == BlockOf(exps[i]);
      }
    }
    if AllAcyclic(tasks, refs, depth) {
      forall a | a in blocks ensures Acyclic(blocks[a].edges) {
        var i := LastNamed(tasks, a);
        if tasks[i].target.Some? {
          assert Calls(tasks, refs, tasks[i].target.value);
        }
      }
    }
  }

  /** The flattened graph is acyclic exactly when every inlined list is. */
  lemma {:induction false} FlatAcyclic(
    tasks: seq<Task>, prefix: string, refs: Refs, depth: nat, budget: nat, chain: seq<string>)
    requires depth <= MAX_DEPTH + 1 && AllWellNamed(tasks, refs, depth)
    requires InlineList(tasks, prefix, refs, depth, budget, chain).Ok?
    ensures Acyclic(FlatEdges(InlineList(tasks, prefix, refs, depth, budget, chain).value.0))
       <==> AllAcyclic(tasks, refs, depth)
    decreases MAX_DEPTH + 1 - depth, 2
  {
    InlineIsInlined(tasks, prefix, refs, depth, budget, chain);
    var exps := Exps(tasks, prefix, refs, depth, budget, chain);
    EachBlockAcyclicIff(tasks, prefix, refs, depth, budget, chain);
    TargetsKnown(tasks, prefix, refs, depth, budget, chain);
    ListAcyclicIff(tasks, exps, FlatEdges(InlineList(tasks, prefix, refs, depth, budget, chain).value.0), refs, depth);
  }

  /** A leaf's path starts at its element, and its flat name is in that element's block. */
  lemma LeafInBlock(
    tasks: seq<Task>, prefix: string, refs: Refs, depth: nat, budget: nat, chain: seq<string>, p: seq<string>)
    returns (i: nat)
    requires depth <= MAX_DEPTH && AllWellNamed(tasks, refs, depth)
    requires InlineList(tasks, prefix, refs, depth, budget, chain).Ok?
    requires p != [] && IsLeaf(tasks, refs, depth, p)
    ensures i < |tasks| && tasks[i].name == Some(p[0])
    ensures FlatName(prefix, p) in FlatNames(Exps(tasks, prefix, refs, depth, budget, chain)[i].tasks)
    ensures tasks[i].target.Some? <==> |p| > 1
    ensures tasks[i].target.Some? ==>
              tasks[i].target.value in refs && IsLeaf(refs[tasks[i].target.value], refs, depth + 1, p[1..])
  {
    var l :| l in Leaves(tasks, refs, depth) && l.path == p;
    i := LeafElement(tasks, refs, depth, l);
    var b := EachIsOne(tasks, prefix, refs, depth, budget, chain, i);
    OneYieldsLeaves(tasks[i], prefix, refs, depth, b, chain);
    var own := LeavesOf(tasks[i], refs, depth);
    var k :| 0 <= k < |own| && own[k] == l;
    var e := Exps(tasks, prefix, refs, depth, budget, chain)[i];
    assert e.tasks[k] in e.tasks && e.tasks[k].name == FlatName(prefix, p);
    if tasks[i].target.Some? {
      var inner := Leaves(refs[tasks[i].target.value], refs, depth + 1);
      assert inner[k] in inner && p[1..] == inner[k].path;
    }
  }

  lemma {:induction false} LeafElement(tasks: seq<Task>, refs: Refs, depth: nat, l: LeafAt) returns (i: nat)
    requires depth <= MAX_DEPTH && l in Leaves(tasks, refs, depth)
    ensures i < |tasks| && l in LeavesOf(tasks[i], refs, depth)
    decreases |tasks|
  {
    var n := |tasks| - 1;
    if l in LeavesOf(tasks[n], refs, depth) {
      i := n;
    } else {
      i := LeafElement(tasks[..n], refs, depth, l);
    }
  }

  /** One list's step: the order across its elements is its own, and within one the element's too. */
  lemma OrderInList(
    tasks: seq<Task>, exps: seq<Expanded>, flat: Edges, i: nat, j: nat, u: string, v: string)
    requires WellNamed(tasks) && |exps| == |tasks|
    requires Inlined(flat, BlocksOf(tasks, exps), ListEdges(tasks)) && BlocksThreaded(BlocksOf(tasks, exps))
    requires i < |tasks| && j < |tasks|
    requires u in FlatNames(exps[i].tasks) && v in FlatNames(exps[j].tasks)
    ensures Reach(flat, u, v)
       <==> Reach(ListEdges(tasks), tasks[i].name.value, tasks[j].name.value)
            || (i == j && Reach(BlockOf(exps[i]).edges, u, v))
  {
    var blocks := BlocksOf(tasks, exps);
    NamedOnce(tasks, i);
    NamedOnce(tasks, j);
    var a, b := tasks[i].name.value, tasks[j].name.value;
    assert blocks[a] == BlockOf(exps[i]) && blocks[b] == BlockOf(exps[j]);
    if i == j {
      WithinBlockIff(flat, blocks, ListEdges(tasks), a, u, v);
    } else {
      AcrossBlocks(flat, blocks, ListEdges(tasks), a, b, u, v);
    }
  }

  /** One block is threaded where the list inlined into it is. */
  lemma {:induction false} BlockIsThreaded(
    tasks: seq<Task>, i: nat, prefix: string, refs: Refs, depth: nat, budget: nat, chain: seq<string>)
    requires depth <= MAX_DEPTH && AllWellNamed(tasks, refs, depth) && CallsThreaded(tasks, refs, depth)
    requires InlineList(tasks, prefix, refs, depth, budget, chain).Ok? && i < |tasks|
    ensures Threaded(BlockOf(Exps(tasks, prefix, refs, depth, budget, chain)[i]))
    decreases MAX_DEPTH + 1 - depth, 0
  {
    var b := EachIsOne(tasks, prefix, refs, depth, budget, chain, i);
    var q := Qualify(prefix, tasks[i].name.value);
    if tasks[i].target.None? {
      LeafTidy(tasks[i], q);
      AcyclicIsThreaded(BlockOf(Leaf(tasks[i], q)));
    } else {
      var target := tasks[i].target.value;
      assert Calls(tasks, refs, target);
      FlatThreaded(refs[target], q, refs, depth + 1, b, chain + [target]);
    }
  }

  lemma {:induction false} BlocksAreThreaded(
    tasks: seq<Task>, prefix: string, refs: Refs, depth: nat, budget: nat, chain: seq<string>)
    requires depth <= MAX_DEPTH && AllWellNamed(tasks, refs, depth) && CallsThreaded(tasks, refs, depth)
    requires InlineList(tasks, prefix, refs, depth, budget, chain).Ok?
    ensures BlocksThreaded(BlocksOf(tasks, Exps(tasks, prefix, refs, depth, budget, chain)))
    decreases MAX_DEPTH + 1 - depth, 1
  {
    var blocks := BlocksOf(tasks, Exps(tasks, prefix, refs, depth, budget, chain));
    forall a | a in blocks ensures Threaded(blocks[a]) {
      BlockIsThreaded(tasks, LastNamed(tasks, a), prefix, refs, depth, budget, chain);
    }
  }

  lemma NodesAreNames(tasks: seq<Task>, exps: seq<Expanded>, prefix: string)
    requires WellNamed(tasks) && |exps| == |tasks|
    ensures AllNodes(BlocksOf(tasks, exps)) == FlatNames(RewiredAll(tasks, exps, prefix))
  {
    var blocks := BlocksOf(tasks, exps);
    forall n | n in AllNodes(blocks) ensures n in FlatNames(RewiredAll(tasks, exps, prefix)) {
      var a :| a in blocks && n in blocks[a].nodes;
      NameKept(tasks, exps, prefix, a, n);
    }
    forall n | n in FlatNames(RewiredAll(tasks, exps, prefix)) ensures n in AllNodes(blocks) {
      var a := NameFrom(tasks, exps, prefix, n);
      assert a in blocks;
    }
  }

  /** The flattened graph of threaded lists is threaded. */
  lemma {:induction false} FlatThreaded(
    tasks: seq<Task>, prefix: string, refs: Refs, depth: nat, budget: nat, chain: seq<string>)
    requires depth <= MAX_DEPTH + 1 && AllWellNamed(tasks, refs, depth) && AllThreaded(tasks, refs, depth)
    requires InlineList(tasks, prefix, refs, depth, budget, chain).Ok?
    ensures var out := InlineList(tasks, prefix, refs, depth, budget, chain).value.0;
            Threaded(Block(FlatNames(out), FlatEdges(out)))
    decreases MAX_DEPTH + 1 - depth, 2
  {
    InlineIsInlined(tasks, prefix, refs, depth, budget, chain);
    BlocksAreThreaded(tasks, prefix, refs, depth, budget, chain);
    var exps := Exps(tasks, prefix, refs, depth, budget, chain);
    var blocks := BlocksOf(tasks, exps);
    var out := InlineList(tasks, prefix, refs, depth, budget, chain).value.0;
    NodesAreNames(tasks, exps, prefix);
    assert blocks.Keys == Names(tasks);
    WholeIsThreaded(FlatEdges(out), blocks, ListEdges(tasks));
  }

  /** Lists without cycles are threaded. */
  lemma {:induction false} AcyclicAllThreaded(tasks: seq<Task>, refs: Refs, depth: nat)
    requires depth <= MAX_DEPTH + 1 && AllWellNamed(tasks, refs, depth) && AllAcyclic(tasks, refs, depth)
    ensures AllThreaded(tasks, refs, depth) && CallsThreaded(tasks, refs, depth)
    decreases MAX_DEPTH + 1 - depth
  {
    if depth <= MAX_DEPTH {
      AcyclicIsThreaded(OfList(tasks));
      forall target | Calls(tasks, refs, target) ensures AllThreaded(refs[target], refs, depth + 1) {
        AcyclicAllThreaded(refs[target], refs, depth + 1);
      }
    }
  }

  /** Inlining preserves order, and adds none. */
  lemma {:induction false} OrderPreserved(
    tasks: seq<Task>, prefix: string, refs: Refs, depth: nat, budget: nat, chain: seq<string>,
    p: seq<string>, q: seq<string>)
    requires depth <= MAX_DEPTH + 1 && AllWellNamed(tasks, refs, depth) && CallsThreaded(tasks, refs, depth)
    requires InlineList(tasks, prefix, refs, depth, budget, chain).Ok?
    requires p != [] && q != [] && IsLeaf(tasks, refs, depth, p) && IsLeaf(tasks, refs, depth, q)
    ensures Reach(FlatEdges(InlineList(tasks, prefix, refs, depth, budget, chain).value.0),
                  FlatName(prefix, p), FlatName(prefix, q))
       <==> WaitsSomewhere(tasks, refs, p, q)
    decreases |p|, 1
  {
    var u, v := FlatName(prefix, p), FlatName(prefix, q);
    InlineIsInlined(tasks, prefix, refs, depth, budget, chain);
    BlocksAreThreaded(tasks, prefix, refs, depth, budget, chain);
    var i := LeafInBlock(tasks, prefix, refs, depth, budget, chain, p);
    var j := LeafInBlock(tasks, prefix, refs, depth, budget, chain, q);
    NamedOnce(tasks, i);
    NamedOnce(tasks, j);
    OrderInList(tasks, Exps(tasks, prefix, refs, depth, budget, chain),
                FlatEdges(InlineList(tasks, prefix, refs, depth, budget, chain).value.0), i, j, u, v);
    if i == j && |p| > 1 {
      var b := EachIsOne(tasks, prefix, refs, depth, budget, chain, i);
      OrderBelow(tasks, i, prefix, refs, depth, b, chain, p, q);
      WaitsDescends(tasks, refs, i, p, q);
    } else if i == j {
      LeafUnreached(tasks, i, prefix, refs, depth, budget, chain, u, v);
    }
  }

  /** The step into a call. */
  lemma {:induction false} OrderBelow(
    tasks: seq<Task>, i: nat, prefix: string, refs: Refs, depth: nat, budget: nat, chain: seq<string>,
    p: seq<string>, q: seq<string>)
    requires depth <= MAX_DEPTH && AllWellNamed(tasks, refs, depth) && CallsThreaded(tasks, refs, depth)
    requires |p| > 1 && |q| > 1 && p[0] == q[0] && i < |tasks| && tasks[i].name == Some(p[0])
    requires tasks[i].target.Some? && tasks[i].target.value in refs
    requires IsLeaf(refs[tasks[i].target.value], refs, depth + 1, p[1..])
    requires IsLeaf(refs[tasks[i].target.value], refs, depth + 1, q[1..])
    requires Expanded1(tasks[i], p[0], prefix, refs, depth, budget, chain).Ok?
    ensures Reach(BlockOf(Expanded1(tasks[i], p[0], prefix, refs, depth, budget, chain).value.0).edges,
                  FlatName(prefix, p), FlatName(prefix, q))
       <==> WaitsSomewhere(refs[tasks[i].target.value], refs, p[1..], q[1..])
    decreases |p|, 0
  {
    var target := tasks[i].target.value;
    assert Calls(tasks, refs, target);
    OrderPreserved(refs[target], Qualify(prefix, p[0]), refs, depth + 1, budget, chain + [target], p[1..], q[1..]);
  }

  lemma LeafUnreached(
    tasks: seq<Task>, i: nat, prefix: string, refs: Refs, depth: nat, budget: nat, chain: seq<string>,
    u: string, v: string)
    requires depth <= MAX_DEPTH && InlineList(tasks, prefix, refs, depth, budget, chain).Ok?
    requires i < |tasks| && tasks[i].target.None?
    ensures !Reach(BlockOf(Exps(tasks, prefix, refs, depth, budget, chain)[i]).edges, u, v)
  {
    var b := EachIsOne(tasks, prefix, refs, depth, budget, chain, i);
    var edges := BlockOf(Exps(tasks, prefix, refs, depth, budget, chain)[i]).edges;
    assert edges == {};
    if Reach(edges, u, v) {
      var m := ReachFirst(edges, u, v);
    }
  }

  /** Below one call, waiting is decided in the called list, or around the call. */
  lemma WaitsDescends(tasks: seq<Task>, refs: Refs, i: nat, p: seq<string>, q: seq<string>)
    requires WellNamed(tasks) && i < |tasks| && |p| > 1 && |q| > 1
    requires tasks[i].name == Some(p[0]) && p[0] == q[0]
    requires tasks[i].target.Some? && tasks[i].target.value in refs
    ensures WaitsSomewhere(tasks, refs, p, q)
       <==> Reach(ListEdges(tasks), p[0], p[0]) || WaitsSomewhere(refs[tasks[i].target.value], refs, p[1..], q[1..])
    ensures WaitsFor(tasks, refs, p, q) <==> WaitsFor(refs[tasks[i].target.value], refs, p[1..], q[1..])
  {
    forall t | t in tasks && t.name == Some(p[0]) ensures t == tasks[i] {
      var j :| 0 <= j < |tasks| && tasks[j] == t;
    }
    assert tasks[i] in tasks;
  }

  /** A leaf below a call is a leaf of the list called. */
  lemma LeafBelow(tasks: seq<Task>, refs: Refs, depth: nat, p: seq<string>) returns (i: nat)
    requires depth <= MAX_DEPTH + 1 && |p| > 1 && IsLeaf(tasks, refs, depth, p)
    ensures depth <= MAX_DEPTH && i < |tasks| && tasks[i].name == Some(p[0]) && tasks[i].target.Some?
    ensures tasks[i].target.value in refs && IsLeaf(refs[tasks[i].target.value], refs, depth + 1, p[1..])
  {
    var l :| l in Leaves(tasks, refs, depth) && l.path == p;
    i := LeafElement(tasks, refs, depth, l);
    var own := LeavesOf(tasks[i], refs, depth);
    var k :| 0 <= k < |own| && own[k] == l;
    var inner := Leaves(refs[tasks[i].target.value], refs, depth + 1);
    assert inner[k] in inner && p[1..] == inner[k].path;
  }

  /** Where no list has a cycle it is the lowest list that holds both leaves. */
  lemma {:induction false} LowestDecides(tasks: seq<Task>, refs: Refs, depth: nat, p: seq<string>, q: seq<string>)
    requires depth <= MAX_DEPTH + 1 && AllWellNamed(tasks, refs, depth) && AllAcyclic(tasks, refs, depth)
    requires p != [] && q != [] && IsLeaf(tasks, refs, depth, p) && IsLeaf(tasks, refs, depth, q)
    ensures WaitsSomewhere(tasks, refs, p, q) <==> WaitsFor(tasks, refs, p, q)
    decreases |p|
  {
    if p[0] == q[0] && |p| > 1 && |q| > 1 {
      var i := LeafBelow(tasks, refs, depth, p);
      var j := LeafBelow(tasks, refs, depth, q);
      NamedOnce(tasks, i);
      NamedOnce(tasks, j);
      var target := tasks[i].target.value;
      assert Calls(tasks, refs, target);
      LowestDecides(refs[target], refs, depth + 1, p[1..], q[1..]);
      WaitsDescends(tasks, refs, i, p, q);
    }
  }

  /** A flattened workflow: distinct names, no dangling dependency, acyclic exactly when its lists are. */
  lemma FlattenedIsClosed(tasks: seq<Task>, refs: Refs)
    requires Flattened(tasks, refs).Ok? && AllWellNamed(tasks, refs, 0)
    ensures var out := Flattened(tasks, refs).value;
            && Distinct(out)
            && DependedOn(out) <= FlatNames(out)
            && (Acyclic(FlatEdges(out)) <==> AllAcyclic(tasks, refs, 0))
            && AreLeaves(out, "", Leaves(tasks, refs, 0))
  {
    InlineTidy(tasks, "", refs, 0, MAX_TASKS, []);
    FlatAcyclic(tasks, "", refs, 0, MAX_TASKS, []);
    InlineYieldsLeaves(tasks, "", refs, 0, MAX_TASKS, []);
  }

  /** And its order is the lists' order: where none has a cycle, that of the lowest list holding both. */
  lemma FlattenedOrder(tasks: seq<Task>, refs: Refs, p: seq<string>, q: seq<string>)
    requires Flattened(tasks, refs).Ok? && AllWellNamed(tasks, refs, 0) && CallsThreaded(tasks, refs, 0)
    requires p != [] && q != [] && IsLeaf(tasks, refs, 0, p) && IsLeaf(tasks, refs, 0, q)
    ensures Reach(FlatEdges(Flattened(tasks, refs).value), FlatName("", p), FlatName("", q))
       <==> WaitsSomewhere(tasks, refs, p, q)
    ensures AllAcyclic(tasks, refs, 0) ==> (WaitsSomewhere(tasks, refs, p, q) <==> WaitsFor(tasks, refs, p, q))
  {
    OrderPreserved(tasks, "", refs, 0, MAX_TASKS, [], p, q);
    if AllAcyclic(tasks, refs, 0) {
      LowestDecides(tasks, refs, 0, p, q);
    }
  }
}
