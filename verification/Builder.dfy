/**
 The Python builder's task set and its cycle check (sdks/python/dagron.py): the
 names a set reserves, the tasks and builds it holds, and the depth-first visit
 that refuses a cycle.
 */
module Builder {
  import opened Common
  import opened Graph

  // ── the task set ───────────────────────────────────────────────────────────

  datatype Task = Task(name: string, dependsOn: seq<string>)

  /** An image to build: two recipes of one name are two images, told apart by their tags. */
  datatype Recipe = Recipe(name: string, tag: string)

  /** Added; refused, with nothing changed; or failed, with its name taken all the same. */
  datatype Added = Added | Refused | Broken

  predicate Named(tasks: seq<Task>, name: string) {
    exists t <- tasks :: t.name == name
  }

  class TaskSet {
    var tasks: seq<Task>
    var names: set<string>
    var builds: map<string, string>

    ghost predicate Valid()
      reads this
    {
      && (forall i, j :: 0 <= i < j < |tasks| ==> tasks[i].name != tasks[j].name)
      && (forall name :: Named(tasks, name) ==> name in names)
      && (forall tag <- builds :: Named(tasks, builds[tag]))
    }

    /** Every name reserved is a task's. */
    ghost predicate Whole()
      reads this
    {
      forall name <- names :: Named(tasks, name)
    }

    constructor ()
      ensures Valid() && Whole()
    {
      tasks, names, builds := [], {}, map[];
    }

    method Append(t: Task)
      requires Valid() && !Named(tasks, t.name)
      modifies this`tasks, this`names
      ensures Valid() && tasks == old(tasks) + [t] && names == old(names) + {t.name}
      ensures forall name :: Named(tasks, name) <==> Named(old(tasks), name) || name == t.name
    {
      ghost var was := tasks;
      tasks, names := tasks + [t], names + {t.name};
      forall name ensures Named(tasks, name) <==> Named(was, name) || t.name == name {
      }
      forall i, j | 0 <= i < j < |tasks| ensures tasks[i].name != tasks[j].name {
        if j == |was| {
          assert was[i] in was;
        }
      }
    }

    /** The task that builds a recipe, made once for each tag; none where both its names are taken. */
    method EnsureBuild(recipe: Recipe) returns (name: Option<string>)
      requires Valid()
      modifies this
      ensures Valid()
      ensures name.Some? ==> Named(tasks, name.value)
      ensures name.Some? ==> forall n :: Named(tasks, n) <==> Named(old(tasks), n) || n == name.value
      ensures name.Some? ==> forall n :: n in names <==> n in old(names) || n == name.value
      ensures name.None? ==> tasks == old(tasks) && names == old(names)
      ensures name.Some? ==> Named(old(tasks), name.value) || name.value !in old(names)
      ensures name.None? <==> recipe.tag !in old(builds) && old(BuildName(recipe)) in old(names)
    {
      if recipe.tag in builds {
        return Some(builds[recipe.tag]);
      }
      var build := BuildName(recipe);
      if build in names {
        return None;
      }
      Append(Task(build, []));
      builds := builds[recipe.tag := build];
      name := Some(build);
    }

    /** `build-x`, or where that is taken one told apart by its tag. */
    function BuildName(recipe: Recipe): string
      reads this`names
    {
      var base := "build-" + recipe.name;
      if base !in names then base
      else base + "-" + recipe.tag[Min(2, |recipe.tag|)..Min(10, |recipe.tag|)]
    }

    /**
     One more task, and first the build of its image where it has a recipe.
     `formed` is whether the rest of the call is one the builder takes.
     */
    method AddTask(name: string, dependsOn: seq<string>, recipe: Option<Recipe>, formed: bool) returns (r: Added)
      requires Valid()
      modifies this
      ensures Valid()
      ensures r.Refused? <==> name == "" || name in old(names)
      ensures r.Refused? ==> tasks == old(tasks) && names == old(names)
      ensures r.Added? ==> tasks != [] && tasks[|tasks| - 1].name == name
      ensures old(Whole()) ==> (Whole() <==> !r.Broken?)
    {
      if name == "" || name in names {
        return Refused;
      }
      names := names + {name};
      var deps := dependsOn;
      if recipe.Some? {
        var build := EnsureBuild(recipe.value);
        if build.None? {
          return Broken;
        }
        deps := if build.value in deps then deps else deps + [build.value];
      }
      if !formed {
        return Broken;
      }
      Append(Task(name, deps));
      r := Added;
    }

    /** Refuse a cycle among the tasks; what a task does not know is not followed. */
    method AssertAcyclic() returns (r: Found)
      requires Valid()
      ensures r.Cycle? ==> Reach(DepEdges(Adjacency(tasks, names)), r.through, r.through)
      ensures r.Missing? ==> r.name in names && !Named(tasks, r.name)
      ensures r.Clean? <==> Acyclic(DepEdges(Adjacency(tasks, names))) && DepsNamed(tasks, names)
      ensures Whole() ==> !r.Missing? && (r.Cycle? <==> !Acyclic(DepEdges(Adjacency(tasks, names))))
    {
      var adjacency := Adjacent(tasks, names);
      AdjacencyIs(tasks, names);
      var walk := new Coloring(adjacency);
      r := walk.VisitAll();
    }
  }

  // ── who depends on whom ────────────────────────────────────────────────────

  /** The dependencies a set knows the names of. */
  function KnownDeps(deps: seq<string>, names: set<string>): seq<string> {
    if deps == [] then []
    else KnownDeps(deps[..|deps| - 1], names) + if deps[|deps| - 1] in names then [deps[|deps| - 1]] else []
  }

  type Adjacencies = map<string, seq<string>>

  function Adjacency(tasks: seq<Task>, names: set<string>): Adjacencies {
    if tasks == [] then map[]
    else
      var t := tasks[|tasks| - 1];
      Adjacency(tasks[..|tasks| - 1], names)[t.name := KnownDeps(t.dependsOn, names)]
  }

  method Adjacent(tasks: seq<Task>, names: set<string>) returns (r: Adjacencies)
    ensures r == Adjacency(tasks, names)
  {
    r := map[];
    for i := 0 to |tasks|
      invariant r == Adjacency(tasks[..i], names)
    {
      assert tasks[..i + 1][..i] == tasks[..i];
      r := r[tasks[i].name := KnownDeps(tasks[i].dependsOn, names)];
    }
    assert tasks[..|tasks|] == tasks;
  }

  /** Every known dependency of a task is a task. */
  ghost predicate DepsNamed(tasks: seq<Task>, names: set<string>) {
    forall t <- tasks, d <- t.dependsOn :: d in names ==> Named(tasks, d)
  }

  lemma {:induction false} KnownDepsAre(deps: seq<string>, names: set<string>)
    ensures forall d :: d in KnownDeps(deps, names) <==> d in deps && d in names
    decreases |deps|
  {
    if deps != [] {
      var n := |deps| - 1;
      KnownDepsAre(deps[..n], names);
      assert deps == deps[..n] + [deps[n]];
    }
  }

  lemma {:induction false} AdjacencyKeys(tasks: seq<Task>, names: set<string>)
    ensures forall name :: name in Adjacency(tasks, names) <==> Named(tasks, name)
    decreases |tasks|
  {
    if tasks != [] {
      var n := |tasks| - 1;
      AdjacencyKeys(tasks[..n], names);
      assert tasks == tasks[..n] + [tasks[n]];
      forall name ensures Named(tasks, name) <==> Named(tasks[..n], name) || tasks[n].name == name {
      }
    }
  }

  lemma {:induction false} AdjacencyOf(tasks: seq<Task>, names: set<string>, i: nat)
    requires i < |tasks| && forall i, j :: 0 <= i < j < |tasks| ==> tasks[i].name != tasks[j].name
    ensures tasks[i].name in Adjacency(tasks, names)
    ensures Adjacency(tasks, names)[tasks[i].name] == KnownDeps(tasks[i].dependsOn, names)
    decreases |tasks|
  {
    var n := |tasks| - 1;
    if i < n {
      AdjacencyOf(tasks[..n], names, i);
    }
  }

  /** A task leads to each task it depends on that the set knows. */
  ghost predicate Lists(adj: Adjacencies, t: Task, names: set<string>) {
    t.name in adj && forall d :: d in adj[t.name] <==> d in t.dependsOn && d in names
  }

  lemma AdjacencyIs(tasks: seq<Task>, names: set<string>)
    requires forall i, j :: 0 <= i < j < |tasks| ==> tasks[i].name != tasks[j].name
    ensures var adj := Adjacency(tasks, names);
            (forall name :: name in adj <==> Named(tasks, name)) && forall t <- tasks :: Lists(adj, t, names)
  {
    AdjacencyKeys(tasks, names);
    var adj := Adjacency(tasks, names);
    forall t | t in tasks ensures Lists(adj, t, names) {
      var i :| 0 <= i < |tasks| && tasks[i] == t;
      AdjacencyOf(tasks, names, i);
      KnownDepsAre(t.dependsOn, names);
    }
  }

  // ── the visit ──────────────────────────────────────────────────────────────

  datatype Color = White | Grey | Black

  type Colors = map<string, Color>

  /** No cycle; a cycle, through a name; or a name reserved that no task has. */
  datatype Found = Clean | Cycle(through: string) | Missing(name: string)

  ghost function DepEdges(adj: Adjacencies): Edges {
    set n, d | n in adj && d in adj[n] :: (n, d)
  }

  ghost predicate Closed(adj: Adjacencies) {
    forall n <- adj, d <- adj[n] :: d in adj
  }

  ghost predicate Leads(adj: Adjacencies, n: string, d: string) {
    n in adj && d in adj[n]
  }

  /** What is black leads to what is black, and never round to itself. */
  ghost predicate BlackSafe(adj: Adjacencies, color: Colors) {
    && color.Keys == adj.Keys
    && (forall n, d {:trigger Leads(adj, n, d)} ::
          Leads(adj, n, d) && color[n].Black? ==> d in color && color[d].Black?)
    && (forall n <- color :: color[n].Black? ==> !Reach(DepEdges(adj), n, n))
  }

  /** Everything grey leads to `node`. */
  ghost predicate GreyLead(adj: Adjacencies, color: Colors, node: string) {
    forall g <- color :: color[g].Grey? ==> ReachOrSame(DepEdges(adj), g, node)
  }

  /** What was grey or black is as it was; nothing else is grey. */
  ghost predicate Later(color: Colors, color': Colors) {
    && color'.Keys == color.Keys
    && forall n <- color :: (color[n].Black? ==> color'[n].Black?) && (color[n].Grey? <==> color'[n].Grey?)
  }

  ghost function Whites(color: Colors): set<string> {
    set n | n in color && color[n].White?
  }

  lemma LeadsIsEdge(adj: Adjacencies, n: string, d: string)
    ensures Leads(adj, n, d) <==> (n, d) in DepEdges(adj)
  {
  }

  /** From what is black only what is black is reached. */
  lemma {:induction false} BlackReaches(adj: Adjacencies, color: Colors, p: seq<string>)
    requires BlackSafe(adj, color) && Walk(DepEdges(adj), p) && p[0] in color && color[p[0]].Black?
    ensures p[|p| - 1] in color && color[p[|p| - 1]].Black?
    decreases |p|
  {
    assert (p[0], p[1]) in DepEdges(adj);
    LeadsIsEdge(adj, p[0], p[1]);
    if |p| > 2 {
      var q := p[1..];
      forall i | 0 <= i < |q| - 1 ensures (q[i], q[i + 1]) in DepEdges(adj) {
        assert (p[i + 1], p[i + 2]) in DepEdges(adj);
      }
      BlackReaches(adj, color, q);
    }
  }

  /** With all it leads to black, a node may be. */
  lemma BlackenSafe(adj: Adjacencies, color: Colors, node: string)
    requires BlackSafe(adj, color) && node in adj && !color[node].Black?
    requires forall d <- adj[node] :: d in color && color[d].Black?
    ensures BlackSafe(adj, color[node := Black])
  {
    if Reach(DepEdges(adj), node, node) {
      var next := ReachFirst(DepEdges(adj), node, node);
      LeadsIsEdge(adj, node, next);
      assert next != node;
      var p :| Walk(DepEdges(adj), p) && p[0] == next && p[|p| - 1] == node;
      BlackReaches(adj, color, p);
    }
  }

  lemma GreyLeadOn(adj: Adjacencies, color: Colors, node: string, dep: string)
    requires GreyLead(adj, color, node) && Leads(adj, node, dep)
    ensures GreyLead(adj, color, dep)
  {
    LeadsIsEdge(adj, node, dep);
    EdgeReaches(DepEdges(adj), node, dep);
    forall g | g in color && color[g].Grey? ensures ReachOrSame(DepEdges(adj), g, dep) {
      ReachOrSameTransitive(DepEdges(adj), g, node, dep);
    }
  }

  /** A grey neighbour closes a cycle. */
  lemma BackEdge(adj: Adjacencies, color: Colors, node: string, dep: string)
    requires GreyLead(adj, color, node) && Leads(adj, node, dep) && dep in color && color[dep].Grey?
    ensures Reach(DepEdges(adj), dep, dep)
  {
    LeadsIsEdge(adj, node, dep);
    EdgeReaches(DepEdges(adj), node, dep);
    ReachOrSameTransitive(DepEdges(adj), dep, node, dep);
  }

  /** A cycle told of is one; a name told of is depended on and no task's. */
  ghost predicate Told(adj: Adjacencies, r: Found) {
    && (r.Cycle? ==> Reach(DepEdges(adj), r.through, r.through))
    && (r.Missing? ==> r.name !in adj && exists n :: Leads(adj, n, r.name))
  }

  class Coloring {
    const adj: Adjacencies
    var color: Colors

    constructor (adj: Adjacencies)
      ensures this.adj == adj && color == map n | n in adj :: White
    {
      this.adj := adj;
      color := map n | n in adj :: White;
    }

    /** A white node and all it leads to, made black; unless there is a cycle, or a name without a task. */
    method Visit(node: string) returns (r: Found)
      requires BlackSafe(adj, color) && node in color && color[node].White? && GreyLead(adj, color, node)
      modifies this`color
      ensures BlackSafe(adj, color) && Whites(color) <= Whites(old(color))
      ensures r.Clean? ==> Later(old(color), color) && color[node].Black?
      ensures Told(adj, r)
      decreases Whites(color), 0
    {
      ghost var start := color;
      color := color[node := Grey];
      assert node in Whites(start) && node !in Whites(color);
      r := FollowAll(node);
      if r.Clean? {
        BlackenSafe(adj, color, node);
        color := color[node := Black];
      }
    }

    /** Every dependency of a grey node, black after. */
    method FollowAll(node: string) returns (r: Found)
      requires BlackSafe(adj, color) && node in color && color[node].Grey? && GreyLead(adj, color, node)
      modifies this`color
      ensures BlackSafe(adj, color) && Whites(color) <= Whites(old(color))
      ensures r.Clean? ==> Later(old(color), color) && forall d <- adj[node] :: d in color && color[d].Black?
      ensures Told(adj, r)
      decreases Whites(color), 2
    {
      ghost var was := color;
      var deps := adj[node];
      for i := 0 to |deps|
        invariant BlackSafe(adj, color) && Later(was, color) && Whites(color) <= Whites(was)
        invariant GreyLead(adj, color, node)
        invariant forall j :: 0 <= j < i ==> deps[j] in color && color[deps[j]].Black?
      {
        assert Leads(adj, node, deps[i]);
        r := Follow(node, deps[i]);
        if !r.Clean? {
          return;
        }
      }
      r := Clean;
    }

    /** One dependency of a grey node: black after, unless it closes a cycle or is no task. */
    method Follow(node: string, dep: string) returns (r: Found)
      requires BlackSafe(adj, color) && GreyLead(adj, color, node) && Leads(adj, node, dep)
      modifies this`color
      ensures BlackSafe(adj, color) && Whites(color) <= Whites(old(color))
      ensures r.Clean? ==> Later(old(color), color) && GreyLead(adj, color, node)
      ensures r.Clean? ==> dep in color && color[dep].Black?
      ensures Told(adj, r)
      decreases Whites(color), 1
    {
      if dep !in color {
        return Missing(dep);
      }
      if color[dep].Grey? {
        BackEdge(adj, color, node, dep);
        return Cycle(dep);
      }
      if color[dep].White? {
        GreyLeadOn(adj, color, node, dep);
        r := Visit(dep);
      } else {
        r := Clean;
      }
    }

    method VisitAll() returns (r: Found)
      requires color == map n | n in adj :: White
      modifies this`color
      ensures Told(adj, r)
      ensures r.Clean? <==> Acyclic(DepEdges(adj)) && Closed(adj)
    {
      var todo := adj.Keys;
      while todo != {}
        invariant todo <= adj.Keys && BlackSafe(adj, color)
        invariant forall n <- color :: !color[n].Grey? && (n !in todo ==> color[n].Black?)
        decreases |todo|
      {
        var name :| name in todo;
        todo := todo - {name};
        if color[name].White? {
          r := Visit(name);
          if !r.Clean? {
            if r.Missing? {
              ghost var n :| Leads(adj, n, r.name);
            }
            return;
          }
        }
      }
      forall n ensures !Reach(DepEdges(adj), n, n) {
        if Reach(DepEdges(adj), n, n) {
          var next := ReachFirst(DepEdges(adj), n, n);
          LeadsIsEdge(adj, n, next);
        }
      }
      assert forall n <- adj, d <- adj[n] :: Leads(adj, n, d);
      r := Clean;
    }
  }
}
