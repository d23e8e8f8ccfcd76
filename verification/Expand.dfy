/**
 Workflow inlining (crates/dagron-api/src/expand.rs): a task that names another
 workflow is replaced by that workflow's tasks, under names of their own, and
 the dependencies around it are rewired through its roots and exits.
 */
module Expand {
  import opened Common

  /** `workflow_ref` nesting may be this deep. */
  const MAX_DEPTH := 32
  /** A flattened workflow may have this many tasks. */
  const MAX_TASKS := 10000

  /** A task as written: every other field rides along as it is. */
  datatype Task = Task(name: Option<string>, target: Option<string>, deps: seq<string>, fields: map<string, string>)

  type Refs = map<string, seq<Task>>

  /** A task of the flattened workflow; its dependencies are kept as a set. */
  datatype Flat = Flat(name: string, deps: set<string>, fields: map<string, string>)

  /** What one task became, and where its neighbours attach. */
  datatype Expanded = Expanded(roots: set<string>, exits: set<string>, tasks: seq<Flat>)

  datatype Refusal =
    | TooDeep
    | Unnamed
    | TooManyTasks
    | RefCycle(path: seq<string>)
    | ExtraFields(task: string, extra: set<string>)
    | UnknownRef(target: string)
    | EmptyRef(target: string)

  type Outcome<T> = Result<T, Refusal>

  function Qualify(prefix: string, name: string): string {
    if prefix == "" then name else prefix + "." + name
  }

  function FlatNames(tasks: seq<Flat>): set<string> {
    set t <- tasks :: t.name
  }

  function DependedOn(tasks: seq<Flat>): set<string> {
    set t <- tasks, d <- t.deps :: d
  }

  function Leaf(task: Task, name: string): Expanded {
    Expanded({name}, {name}, [Flat(name, {}, task.fields)])
  }

  /** An inlined list with its boundary. */
  function Bounded(inner: seq<Flat>): Expanded {
    var names := FlatNames(inner);
    Expanded(set t | t in inner && t.deps !! names :: t.name, names - DependedOn(inner), inner)
  }

  function Expanded1(task: Task, name: string, prefix: string, refs: Refs, depth: nat, budget: nat, chain: seq<string>)
    : (r: Outcome<(Expanded, nat)>)
    requires depth <= MAX_DEPTH
    decreases MAX_DEPTH + 1 - depth, 0, 0
  {
    match task.target
    case None =>
      if budget == 0 then Err(TooManyTasks) else Ok((Leaf(task, Qualify(prefix, name)), budget - 1))
    case Some(target) =>
      if target in chain then Err(RefCycle(chain + [target]))
      else if task.fields.Keys != {} then Err(ExtraFields(name, task.fields.Keys))
      else if target !in refs then Err(UnknownRef(target))
      else if refs[target] == [] then Err(EmptyRef(target))
      else
        match InlineList(refs[target], Qualify(prefix, name), refs, depth + 1, budget, chain + [target])
        case Err(e) => Err(e)
        case Ok((inner, left)) => Ok((Bounded(inner), left))
  }

  /** Every task's expansion, in order, each with what budget the ones before left. */
  function ExpandedEach(tasks: seq<Task>, prefix: string, refs: Refs, depth: nat, budget: nat, chain: seq<string>)
    : (r: Outcome<(seq<Expanded>, nat)>)
    requires depth <= MAX_DEPTH
    ensures r.Ok? ==> |r.value.0| == |tasks| && forall t <- tasks :: t.name.Some?
    decreases MAX_DEPTH + 1 - depth, 1, |tasks|
  {
    if tasks == [] then Ok(([], budget))
    else
      var n := |tasks| - 1;
      match ExpandedEach(tasks[..n], prefix, refs, depth, budget, chain)
      case Err(e) => Err(e)
      case Ok((before, left)) =>
        if tasks[n].name.None? then Err(Unnamed)
        else
          assert forall t <- tasks :: t in tasks[..n] || t == tasks[n];
          match Expanded1(tasks[n], tasks[n].name.value, prefix, refs, depth, left, chain)
          case Err(e) => Err(e)
          case Ok((last, left')) => Ok((before + [last], left'))
  }

  /** The last task of this name, whose boundary a dependency attaches to. */
  function LastNamed(tasks: seq<Task>, name: string): (i: int)
    ensures -1 <= i < |tasks|
    ensures i >= 0 ==> tasks[i].name == Some(name)
    ensures forall j :: i < j < |tasks| ==> tasks[j].name != Some(name)
  {
    if tasks == [] then -1
    else if tasks[|tasks| - 1].name == Some(name) then |tasks| - 1
    else LastNamed(tasks[..|tasks| - 1], name)
  }

  /** The first, whose dependencies an expansion takes. */
  function FirstNamed(tasks: seq<Task>, name: string): (i: nat)
    requires exists t <- tasks :: t.name == Some(name)
    ensures i < |tasks| && tasks[i].name == Some(name)
    ensures forall j :: 0 <= j < i ==> tasks[j].name != Some(name)
  {
    if tasks[0].name == Some(name) then 0 else 1 + FirstNamed(tasks[1..], name)
  }

  /** What a dependency on `dep` becomes. */
  function Attach(tasks: seq<Task>, exps: seq<Expanded>, prefix: string, dep: string): set<string>
    requires |exps| == |tasks|
  {
    var i := LastNamed(tasks, dep);
    if i >= 0 then exps[i].exits else {Qualify(prefix, dep)}
  }

  function Upstreams(tasks: seq<Task>, exps: seq<Expanded>, prefix: string, deps: seq<string>): set<string>
    requires |exps| == |tasks|
  {
    set d <- deps, u <- Attach(tasks, exps, prefix, d) :: u
  }

  function Inherit(f: Flat, roots: set<string>, upstreams: set<string>): Flat {
    if f.name in roots then f.(deps := f.deps + upstreams) else f
  }

  function InheritAll(tasks: seq<Flat>, roots: set<string>, upstreams: set<string>): (r: seq<Flat>)
    ensures |r| == |tasks|
    ensures forall i :: 0 <= i < |r| ==> r[i] == Inherit(tasks[i], roots, upstreams)
  {
    seq(|tasks|, i requires 0 <= i < |tasks| => Inherit(tasks[i], roots, upstreams))
  }

  /** The upstreams of the `i`th element. */
  function UpstreamsOf(tasks: seq<Task>, exps: seq<Expanded>, prefix: string, i: nat): set<string>
    requires |exps| == |tasks| && i < |tasks| && tasks[i].name.Some?
  {
    Upstreams(tasks, exps, prefix, tasks[FirstNamed(tasks, tasks[i].name.value)].deps)
  }

  /** Each element's tasks, rewired. */
  function Parts(tasks: seq<Task>, exps: seq<Expanded>, prefix: string): (parts: seq<seq<Flat>>)
    requires |exps| == |tasks| && forall t <- tasks :: t.name.Some?
    ensures |parts| == |tasks|
    ensures forall i :: 0 <= i < |parts| ==>
              parts[i] == InheritAll(exps[i].tasks, exps[i].roots, UpstreamsOf(tasks, exps, prefix, i))
  {
    seq(|tasks|, i requires 0 <= i < |tasks| =>
      InheritAll(exps[i].tasks, exps[i].roots, UpstreamsOf(tasks, exps, prefix, i)))
  }

  function Flatten(parts: seq<seq<Flat>>): seq<Flat> {
    if parts == [] then [] else Flatten(parts[..|parts| - 1]) + parts[|parts| - 1]
  }

  function RewiredAll(tasks: seq<Task>, exps: seq<Expanded>, prefix: string): seq<Flat>
    requires |exps| == |tasks| && forall t <- tasks :: t.name.Some?
  {
    Flatten(Parts(tasks, exps, prefix))
  }

  function InlineList(tasks: seq<Task>, prefix: string, refs: Refs, depth: nat, budget: nat, chain: seq<string>)
    : (r: Outcome<(seq<Flat>, nat)>)
    requires depth <= MAX_DEPTH + 1
    decreases MAX_DEPTH + 1 - depth, 2, 0
  {
    if depth > MAX_DEPTH then Err(TooDeep)
    else
      match ExpandedEach(tasks, prefix, refs, depth, budget, chain)
      case Err(e) => Err(e)
      case Ok((exps, left)) =>
        Ok((RewiredAll(tasks, exps, prefix), left))
  }

  // ── the recursion as it runs ───────────────────────────────────────────────

  lemma DependedOnSnoc(tasks: seq<Flat>, i: nat)
    requires i < |tasks|
    ensures DependedOn(tasks[..i + 1]) == DependedOn(tasks[..i]) + tasks[i].deps
    ensures FlatNames(tasks[..i + 1]) == FlatNames(tasks[..i]) + {tasks[i].name}
  {
    assert tasks[..i + 1] == tasks[..i] + [tasks[i]];
  }

  /** The roots and exits of an inlined list, found in one walk over it. */
  method Boundary(inner: seq<Flat>) returns (e: Expanded)
    ensures e == Bounded(inner)
  {
    var names, dependedOn, roots := FlatNames(inner), {}, {};
    for i := 0 to |inner|
      invariant dependedOn == DependedOn(inner[..i])
      invariant roots == set t | t in inner[..i] && t.deps !! names :: t.name
    {
      DependedOnSnoc(inner, i);
      assert inner[..i + 1] == inner[..i] + [inner[i]];
      dependedOn := dependedOn + inner[i].deps;
      if inner[i].deps !! names {
        roots := roots + {inner[i].name};
      }
    }
    assert inner[..|inner|] == inner;
    e := Expanded(roots, names - dependedOn, inner);
  }

  /** A call's roots inherit its upstreams, and its dependents attach to its exits. */
  method Rewire(tasks: seq<Task>, exps: seq<Expanded>, prefix: string) returns (out: seq<Flat>)
    requires |exps| == |tasks| && forall t <- tasks :: t.name.Some?
    ensures out == RewiredAll(tasks, exps, prefix)
  {
    out := [];
    ghost var parts := Parts(tasks, exps, prefix);
    for k := 0 to |tasks|
      invariant out == Flatten(parts[..k])
    {
      var original := tasks[FirstNamed(tasks, tasks[k].name.value)];
      var upstreams := Upstreams(tasks, exps, prefix, original.deps);
      var inherited: seq<Flat> := [];
      for j := 0 to |exps[k].tasks|
        invariant inherited == InheritAll(exps[k].tasks[..j], exps[k].roots, upstreams)
      {
        assert exps[k].tasks[..j + 1][..j] == exps[k].tasks[..j];
        inherited := inherited + [Inherit(exps[k].tasks[j], exps[k].roots, upstreams)];
      }
      assert exps[k].tasks[..|exps[k].tasks|] == exps[k].tasks;
      assert parts[..k + 1][..k] == parts[..k];
      out := out + inherited;
    }
    assert parts[..|tasks|] == parts;
  }

  method ExpandOne(task: Task, name: string, prefix: string, refs: Refs, depth: nat, budget: nat, chain: seq<string>)
    returns (r: Outcome<Expanded>, left: nat)
    requires depth <= MAX_DEPTH
    ensures match Expanded1(task, name, prefix, refs, depth, budget, chain)
            case Ok((e, n)) => r == Ok(e) && left == n
            case Err(why) => r == Err(why)
    decreases MAX_DEPTH + 1 - depth, 0
  {
    left := budget;
    if task.target.None? {
      if budget == 0 {
        return Err(TooManyTasks), left;
      }
      return Ok(Leaf(task, Qualify(prefix, name))), budget - 1;
    }
    var target := task.target.value;
    if target in chain {
      return Err(RefCycle(chain + [target])), left;
    }
    if task.fields.Keys != {} {
      return Err(ExtraFields(name, task.fields.Keys)), left;
    }
    if target !in refs {
      return Err(UnknownRef(target)), left;
    }
    if refs[target] == [] {
      return Err(EmptyRef(target)), left;
    }
    var inner;
    inner, left := ExpandList(refs[target], Qualify(prefix, name), refs, depth + 1, budget, chain + [target]);
    if inner.Err? {
      return Err(inner.error), left;
    }
    var e := Boundary(inner.value);
    return Ok(e), left;
  }

  method ExpandList(tasks: seq<Task>, prefix: string, refs: Refs, depth: nat, budget: nat, chain: seq<string>)
    returns (r: Outcome<seq<Flat>>, left: nat)
    requires depth <= MAX_DEPTH + 1
    ensures match InlineList(tasks, prefix, refs, depth, budget, chain)
            case Ok((out, n)) => r == Ok(out) && left == n
            case Err(why) => r == Err(why)
    decreases MAX_DEPTH + 1 - depth, 1
  {
    left := budget;
    if depth > MAX_DEPTH {
      return Err(TooDeep), left;
    }
    var exps: seq<Expanded> := [];
    for i := 0 to |tasks|
      invariant ExpandedEach(tasks[..i], prefix, refs, depth, budget, chain) == Ok((exps, left))
    {
      assert tasks[..i + 1][..i] == tasks[..i];
      if tasks[i].name.None? {
        EachFails(tasks, prefix, refs, depth, budget, chain, i + 1);
        return Err(Unnamed), left;
      }
      var e;
      e, left := ExpandOne(tasks[i], tasks[i].name.value, prefix, refs, depth, left, chain);
      if e.Err? {
        EachFails(tasks, prefix, refs, depth, budget, chain, i + 1);
        return Err(e.error), left;
      }
      exps := exps + [e.value];
    }
    assert tasks[..|tasks|] == tasks;
    var out := Rewire(tasks, exps, prefix);
    return Ok(out), left;
  }

  /** The first refusal is the list's. */
  lemma {:induction false} EachFails(
    tasks: seq<Task>, prefix: string, refs: Refs, depth: nat, budget: nat, chain: seq<string>, k: nat)
    requires depth <= MAX_DEPTH && k <= |tasks|
    requires ExpandedEach(tasks[..k], prefix, refs, depth, budget, chain).Err?
    ensures ExpandedEach(tasks, prefix, refs, depth, budget, chain)
         == ExpandedEach(tasks[..k], prefix, refs, depth, budget, chain)
    decreases |tasks| - k
  {
    if k == |tasks| {
      assert tasks[..k] == tasks;
    } else {
      assert tasks[..k + 1][..k] == tasks[..k];
      EachFails(tasks, prefix, refs, depth, budget, chain, k + 1);
    }
  }

  /** A whole workflow's tasks, every reference resolved. */
  method ExpandPure(tasks: seq<Task>, refs: Refs) returns (r: Outcome<seq<Flat>>)
    ensures r == Flattened(tasks, refs)
  {
    var left;
    r, left := ExpandList(tasks, "", refs, 0, MAX_TASKS, []);
  }

  function Flattened(tasks: seq<Task>, refs: Refs): Outcome<seq<Flat>> {
    match InlineList(tasks, "", refs, 0, MAX_TASKS, [])
    case Ok((out, _)) => Ok(out)
    case Err(e) => Err(e)
  }
}
