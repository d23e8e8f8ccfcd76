/** When inlining succeeds, and which tasks it yields. */
module ExpandLeaves {
  import opened Common
  import opened Expand

  /** A leaf of the reference tree: the calls that lead to it and its own name, and the task. */
  datatype LeafAt = LeafAt(path: seq<string>, task: Task)

  function Below(name: string, leaves: seq<LeafAt>): (r: seq<LeafAt>)
    ensures |r| == |leaves|
    ensures forall i :: 0 <= i < |r| ==> r[i] == LeafAt([name] + leaves[i].path, leaves[i].task)
  {
    seq(|leaves|, i requires 0 <= i < |leaves| => LeafAt([name] + leaves[i].path, leaves[i].task))
  }

  /** The leaves one task stands for, in order. */
  function LeavesOf(task: Task, refs: Refs, depth: nat): (r: seq<LeafAt>)
    requires depth <= MAX_DEPTH
    ensures forall l <- r :: l.path != []
    decreases MAX_DEPTH + 1 - depth, 0, 0
  {
    if task.name.None? then []
    else if task.target.None? then [LeafAt([task.name.value], task)]
    else if task.target.value !in refs then []
    else Below(task.name.value, Leaves(refs[task.target.value], refs, depth + 1))
  }

  /** The leaves of a list of tasks, in order. */
  function Leaves(tasks: seq<Task>, refs: Refs, depth: nat): (r: seq<LeafAt>)
    requires depth <= MAX_DEPTH + 1
    ensures forall l <- r :: l.path != []
    decreases MAX_DEPTH + 1 - depth, 1, |tasks|
  {
    if depth > MAX_DEPTH || tasks == [] then []
    else Leaves(tasks[..|tasks| - 1], refs, depth) + LeavesOf(tasks[|tasks| - 1], refs, depth)
  }

  /** A bare call of a known, non-empty workflow no call on the way here names. */
  ghost predicate AdmissibleTask(task: Task, refs: Refs, depth: nat, chain: seq<string>)
    requires depth <= MAX_DEPTH
    decreases MAX_DEPTH + 1 - depth, 0
  {
    && task.name.Some?
    && (task.target.Some? ==>
          var target := task.target.value;
          && target !in chain
          && task.fields.Keys == {}
          && target in refs && refs[target] != []
          && Admissible(refs[target], refs, depth + 1, chain + [target]))
  }

  /** Calls are bare, nothing repeats on a reference path, and nesting is in bounds. */
  ghost predicate Admissible(tasks: seq<Task>, refs: Refs, depth: nat, chain: seq<string>)
    requires depth <= MAX_DEPTH + 1
    decreases MAX_DEPTH + 1 - depth, 1
  {
    depth <= MAX_DEPTH && forall t <- tasks :: AdmissibleTask(t, refs, depth, chain)
  }

  lemma {:induction false} OneSucceedsIff(
    task: Task, prefix: string, refs: Refs, depth: nat, budget: nat, chain: seq<string>)
    requires depth <= MAX_DEPTH && task.name.Some?
    ensures var r := Expanded1(task, task.name.value, prefix, refs, depth, budget, chain);
            && (r.Ok? <==> AdmissibleTask(task, refs, depth, chain) && |LeavesOf(task, refs, depth)| <= budget)
            && (r.Ok? ==> r.value.1 == budget - |LeavesOf(task, refs, depth)|)
    decreases MAX_DEPTH + 1 - depth, 0, 0
  {
    if task.target.Some? {
      var target := task.target.value;
      if target !in chain && task.fields.Keys == {} && target in refs && refs[target] != [] {
        InlineSucceedsIff(refs[target], Qualify(prefix, task.name.value), refs, depth + 1, budget, chain + [target]);
      }
    }
  }

  lemma {:induction false} EachSucceedsIff(
    tasks: seq<Task>, prefix: string, refs: Refs, depth: nat, budget: nat, chain: seq<string>)
    requires depth <= MAX_DEPTH
    ensures var r := ExpandedEach(tasks, prefix, refs, depth, budget, chain);
            && (r.Ok? <==> Admissible(tasks, refs, depth, chain) && |Leaves(tasks, refs, depth)| <= budget)
            && (r.Ok? ==> r.value.1 == budget - |Leaves(tasks, refs, depth)|)
    decreases MAX_DEPTH + 1 - depth, 1, |tasks|
  {
    if tasks != [] {
      var n := |tasks| - 1;
      assert tasks[n] in tasks && forall t <- tasks :: t in tasks[..n] || t == tasks[n];
      assert Admissible(tasks, refs, depth, chain)
          <==> Admissible(tasks[..n], refs, depth, chain) && AdmissibleTask(tasks[n], refs, depth, chain);
      EachSucceedsIff(tasks[..n], prefix, refs, depth, budget, chain);
      var before := ExpandedEach(tasks[..n], prefix, refs, depth, budget, chain);
      if before.Ok? && tasks[n].name.Some? {
        OneSucceedsIff(tasks[n], prefix, refs, depth, before.value.1, chain);
      }
    }
  }

  /** Inlining a list succeeds exactly when it is admissible and its leaves fit the budget. */
  lemma {:induction false} InlineSucceedsIff(
    tasks: seq<Task>, prefix: string, refs: Refs, depth: nat, budget: nat, chain: seq<string>)
    requires depth <= MAX_DEPTH + 1
    ensures var r := InlineList(tasks, prefix, refs, depth, budget, chain);
            && (r.Ok? <==> Admissible(tasks, refs, depth, chain) && |Leaves(tasks, refs, depth)| <= budget)
            && (r.Ok? ==> r.value.1 == budget - |Leaves(tasks, refs, depth)|)
    decreases MAX_DEPTH + 1 - depth, 2, 0
  {
    if depth <= MAX_DEPTH {
      EachSucceedsIff(tasks, prefix, refs, depth, budget, chain);
    }
  }

  /** A whole workflow flattens exactly when it is admissible and has at most `MAX_TASKS` leaves. */
  lemma FlattensIff(tasks: seq<Task>, refs: Refs)
    ensures Flattened(tasks, refs).Ok?
        <==> Admissible(tasks, refs, 0, []) && |Leaves(tasks, refs, 0)| <= MAX_TASKS
  {
    InlineSucceedsIff(tasks, "", refs, 0, MAX_TASKS, []);
  }

  /** The name a leaf is given. */
  function FlatName(prefix: string, path: seq<string>): string
    requires path != []
    decreases |path|
  {
    if |path| == 1 then Qualify(prefix, path[0]) else FlatName(Qualify(prefix, path[0]), path[1..])
  }

  /** `out` is `leaves`, each under its flat name with its own fields. */
  ghost predicate AreLeaves(out: seq<Flat>, prefix: string, leaves: seq<LeafAt>) {
    && |out| == |leaves|
    && forall i :: 0 <= i < |out| ==>
         && leaves[i].path != []
         && out[i].name == FlatName(prefix, leaves[i].path)
         && out[i].fields == leaves[i].task.fields
  }

  lemma AreLeavesConcat(a: seq<Flat>, b: seq<Flat>, b': seq<Flat>, prefix: string, la: seq<LeafAt>, lb: seq<LeafAt>)
    requires AreLeaves(a, prefix, la) && AreLeaves(b, prefix, lb)
    requires |b'| == |b| && forall i :: 0 <= i < |b| ==> b'[i].name == b[i].name && b'[i].fields == b[i].fields
    ensures AreLeaves(a + b', prefix, la + lb)
  {
    forall i | 0 <= i < |a + b'|
      ensures (la + lb)[i].path != []
           && (a + b')[i].name == FlatName(prefix, (la + lb)[i].path)
           && (a + b')[i].fields == (la + lb)[i].task.fields
    {
      if i >= |a| {
        assert b[i - |a|].name == FlatName(prefix, lb[i - |a|].path);
      }
    }
  }

  /** Each expansion is the expansion of its own task. */
  lemma {:induction false} EachIsOne(
    tasks: seq<Task>, prefix: string, refs: Refs, depth: nat, budget: nat, chain: seq<string>, i: nat)
    returns (b: nat)
    requires depth <= MAX_DEPTH && i < |tasks|
    requires ExpandedEach(tasks, prefix, refs, depth, budget, chain).Ok?
    ensures tasks[i].name.Some?
    ensures var r := Expanded1(tasks[i], tasks[i].name.value, prefix, refs, depth, b, chain);
            r.Ok? && r.value.0 == ExpandedEach(tasks, prefix, refs, depth, budget, chain).value.0[i]
    decreases |tasks|
  {
    var n := |tasks| - 1;
    var before := ExpandedEach(tasks[..n], prefix, refs, depth, budget, chain).value;
    if i == n {
      b := before.1;
    } else {
      b := EachIsOne(tasks[..n], prefix, refs, depth, budget, chain, i);
    }
  }

  lemma {:induction false} OneYieldsLeaves(
    task: Task, prefix: string, refs: Refs, depth: nat, budget: nat, chain: seq<string>)
    requires depth <= MAX_DEPTH && task.name.Some?
    requires Expanded1(task, task.name.value, prefix, refs, depth, budget, chain).Ok?
    ensures AreLeaves(Expanded1(task, task.name.value, prefix, refs, depth, budget, chain).value.0.tasks, prefix,
                      LeavesOf(task, refs, depth))
    decreases MAX_DEPTH + 1 - depth, 0, 0
  {
    if task.target.Some? {
      var target := task.target.value;
      InlineYieldsLeaves(refs[target], Qualify(prefix, task.name.value), refs, depth + 1, budget, chain + [target]);
      var inner := Leaves(refs[target], refs, depth + 1);
      forall i | 0 <= i < |inner|
        ensures FlatName(prefix, [task.name.value] + inner[i].path)
             == FlatName(Qualify(prefix, task.name.value), inner[i].path)
      {
        assert inner[i] in inner;
        assert ([task.name.value] + inner[i].path)[1..] == inner[i].path;
      }
    }
  }

  lemma {:induction false} RewiredYieldsLeaves(
    tasks: seq<Task>, prefix: string, refs: Refs, depth: nat, budget: nat, chain: seq<string>, k: nat)
    requires depth <= MAX_DEPTH && k <= |tasks|
    requires ExpandedEach(tasks, prefix, refs, depth, budget, chain).Ok?
    ensures var exps := ExpandedEach(tasks, prefix, refs, depth, budget, chain).value.0;
            AreLeaves(Flatten(Parts(tasks, exps, prefix)[..k]), prefix, Leaves(tasks[..k], refs, depth))
    decreases MAX_DEPTH + 1 - depth, 1, k
  {
    if k > 0 {
      RewiredYieldsLeaves(tasks, prefix, refs, depth, budget, chain, k - 1);
      var b := EachIsOne(tasks, prefix, refs, depth, budget, chain, k - 1);
      OneYieldsLeaves(tasks[k - 1], prefix, refs, depth, b, chain);
      assert tasks[..k][..k - 1] == tasks[..k - 1];
      var exps := ExpandedEach(tasks, prefix, refs, depth, budget, chain).value.0;
      var parts := Parts(tasks, exps, prefix);
      assert parts[..k][..k - 1] == parts[..k - 1];
      AreLeavesConcat(Flatten(parts[..k - 1]), exps[k - 1].tasks, parts[k - 1], prefix,
                      Leaves(tasks[..k - 1], refs, depth), LeavesOf(tasks[k - 1], refs, depth));
    }
  }

  /** Inlining yields the leaves of the reference tree, in order, with their fields. */
  lemma {:induction false} InlineYieldsLeaves(
    tasks: seq<Task>, prefix: string, refs: Refs, depth: nat, budget: nat, chain: seq<string>)
    requires depth <= MAX_DEPTH + 1
    requires InlineList(tasks, prefix, refs, depth, budget, chain).Ok?
    ensures AreLeaves(InlineList(tasks, prefix, refs, depth, budget, chain).value.0, prefix,
                      Leaves(tasks, refs, depth))
    decreases MAX_DEPTH + 1 - depth, 2, 0
  {
    RewiredYieldsLeaves(tasks, prefix, refs, depth, budget, chain, |tasks|);
    assert tasks[..|tasks|] == tasks;
    var parts := Parts(tasks, ExpandedEach(tasks, prefix, refs, depth, budget, chain).value.0, prefix);
    assert parts[..|tasks|] == parts;
  }
}
