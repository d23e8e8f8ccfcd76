/** Gathering the workflows a spec chains, before it is flattened. */
module ExpandRefs {
  import opened Common
  import opened Graph
  import opened Expand
  import opened ExpandLeaves

  /** A workflow as saved. */
  datatype Saved = Unparsable | Spec(tasks: seq<Task>, uses: bool, templates: bool)

  type Db = map<string, Saved>

  datatype Reason = NotSaved(name: string) | NotYaml(name: string) | HasUses(name: string) | HasTemplates(name: string)

  function DirectRefs(tasks: seq<Task>): set<string> {
    set t <- tasks | t.target.Some? :: t.target.value
  }

  /** Workflow `m` names workflow `n`. */
  function RefEdges(db: Db): Edges {
    set m <- db, n <- (if db[m].Spec? then DirectRefs(db[m].tasks) else {}) :: (m, n)
  }

  /** The root reaches `n` by references. */
  ghost predicate Referenced(root: seq<Task>, db: Db, n: string) {
    exists d :: d in DirectRefs(root) && ReachOrSame(RefEdges(db), d, n)
  }

  predicate Usable(db: Db, n: string) {
    n in db && db[n].Spec? && !db[n].uses && !db[n].templates
  }

  ghost predicate AllUsable(root: seq<Task>, db: Db) {
    forall n :: Referenced(root, db, n) ==> Usable(db, n)
  }

  /** Every name a list of `refs`, or the root, calls is in `refs`. */
  ghost predicate Closed(root: seq<Task>, refs: Refs) {
    && DirectRefs(root) <= refs.Keys
    && forall n <- refs :: DirectRefs(refs[n]) <= refs.Keys
  }

  lemma ReferencedOnward(root: seq<Task>, db: Db, n: string, m: string)
    requires Referenced(root, db, n) && n in db && db[n].Spec? && m in DirectRefs(db[n].tasks)
    ensures Referenced(root, db, m)
  {
    var d :| d in DirectRefs(root) && ReachOrSame(RefEdges(db), d, n);
    assert (n, m) in RefEdges(db);
    EdgeReaches(RefEdges(db), n, m);
    ReachOrSameTransitive(RefEdges(db), d, n, m);
  }

  /** What is closed under references holds every reference. */
  lemma {:induction false} ClosedHoldsPath(db: Db, refs: Refs, p: seq<string>)
    requires forall n <- refs :: n in db && db[n].Spec? && refs[n] == db[n].tasks && DirectRefs(refs[n]) <= refs.Keys
    requires Walk(RefEdges(db), p) && p[0] in refs
    ensures p[|p| - 1] in refs
    decreases |p|
  {
    assert (p[0], p[1]) in RefEdges(db);
    if |p| > 2 {
      assert Walk(RefEdges(db), p[1..]) by {
        forall i | 0 <= i < |p[1..]| - 1 ensures (p[1..][i], p[1..][i + 1]) in RefEdges(db) {
          assert (p[i + 1], p[i + 2]) in RefEdges(db);
        }
      }
      ClosedHoldsPath(db, refs, p[1..]);
    }
  }

  ghost predicate AllReferenced(root: seq<Task>, db: Db, names: set<string>) {
    forall n <- names :: Referenced(root, db, n)
  }

  /** `out` holds referenced workflows, as they are saved. */
  ghost predicate Loaded(root: seq<Task>, db: Db, out: Refs) {
    && AllReferenced(root, db, out.Keys)
    && forall n <- out :: Usable(db, n) && out[n] == db[n].tasks
  }

  /** What `out` calls is in `out` or to be read. */
  ghost predicate Ahead(root: seq<Task>, out: Refs, toRead: set<string>) {
    && DirectRefs(root) <= out.Keys + toRead
    && forall n <- out :: DirectRefs(out[n]) <= out.Keys + toRead
  }

  /** One level: `names`, loaded into `out`; `next` is what they call. */
  method LoadLevel(root: seq<Task>, db: Db, names: set<string>, out: Refs)
    returns (r: Result<Refs, Reason>, next: set<string>)
    requires Loaded(root, db, out) && AllReferenced(root, db, names) && Ahead(root, out, names)
    requires names !! out.Keys
    ensures r.Err? ==> exists n :: Referenced(root, db, n) && !Usable(db, n)
    ensures r.Ok? ==> Loaded(root, db, r.value) && AllReferenced(root, db, next) && Ahead(root, r.value, next)
    ensures r.Ok? ==> r.value.Keys == out.Keys + names
  {
    var loaded, left := out, names;
    next := {};
    while left != {}
      invariant left <= names && loaded.Keys == out.Keys + (names - left)
      invariant Loaded(root, db, loaded) && AllReferenced(root, db, next)
      invariant Ahead(root, loaded, left + next)
    {
      var name :| name in left;
      if name !in db {
        return Err(NotSaved(name)), next;
      }
      if db[name].Unparsable? {
        return Err(NotYaml(name)), next;
      }
      if db[name].uses {
        return Err(HasUses(name)), next;
      }
      if db[name].templates {
        return Err(HasTemplates(name)), next;
      }
      forall m | m in DirectRefs(db[name].tasks) ensures Referenced(root, db, m) {
        ReferencedOnward(root, db, name, m);
      }
      next := next + DirectRefs(db[name].tasks);
      loaded := loaded[name := db[name].tasks];
      left := left - {name};
    }
    r := Ok(loaded);
  }

  /** `out` is the referenced workflows, each as it is saved. */
  ghost predicate Gathered(root: seq<Task>, db: Db, out: Refs) {
    && (forall n :: n in out <==> Referenced(root, db, n))
    && forall n <- out :: n in db && db[n].Spec? && out[n] == db[n].tasks
  }

  lemma LoadedIsGathered(root: seq<Task>, db: Db, out: Refs)
    requires Loaded(root, db, out) && Ahead(root, out, {})
    ensures AllUsable(root, db) && Closed(root, out) && Gathered(root, db, out)
  {
    forall n | Referenced(root, db, n) ensures n in out {
      LoadedAll(root, db, out, n);
    }
  }

  lemma LoadedAll(root: seq<Task>, db: Db, out: Refs, n: string)
    requires Loaded(root, db, out) && Ahead(root, out, {}) && Referenced(root, db, n)
    ensures n in out
  {
    var d :| d in DirectRefs(root) && ReachOrSame(RefEdges(db), d, n);
    if d != n {
      var p :| Walk(RefEdges(db), p) && p[0] == d && p[|p| - 1] == n;
      ClosedHoldsPath(db, out, p);
    }
  }

  /**
   Load every workflow `root` chains, level by level. It succeeds exactly when
   each is saved and declares no imports or templates of its own, and then
   holds those workflows and no others.
   */
  method CollectReferencedSpecs(root: seq<Task>, db: Db) returns (r: Result<Refs, Reason>)
    ensures r.Ok? <==> AllUsable(root, db)
    ensures r.Ok? ==> Closed(root, r.value) && Gathered(root, db, r.value)
  {
    var out: Refs := map[];
    var frontier := DirectRefs(root);
    while frontier != {}
      invariant Loaded(root, db, out) && AllReferenced(root, db, frontier) && Ahead(root, out, frontier)
      decreases db.Keys - out.Keys, frontier
    {
      frontier := frontier - out.Keys;
      if frontier == {} {
        break;
      }
      var level, next := LoadLevel(root, db, frontier, out);
      if level.Err? {
        return Err(level.error);
      }
      out := level.value;
      frontier := next;
    }
    LoadedIsGathered(root, db, out);
    return Ok(out);
  }

  lemma {:induction false} OneKnown(
    task: Task, prefix: string, refs: Refs, depth: nat, budget: nat, chain: seq<string>)
    requires depth <= MAX_DEPTH && task.name.Some?
    requires task.target.Some? ==> task.target.value in refs
    requires forall n <- refs :: DirectRefs(refs[n]) <= refs.Keys
    ensures var r := Expanded1(task, task.name.value, prefix, refs, depth, budget, chain);
            r.Err? ==> !r.error.UnknownRef?
    decreases MAX_DEPTH + 1 - depth, 0, 0
  {
    if task.target.Some? {
      var target := task.target.value;
      InlineKnown(refs[target], Qualify(prefix, task.name.value), refs, depth + 1, budget, chain + [target]);
    }
  }

  lemma {:induction false} EachKnown(
    tasks: seq<Task>, prefix: string, refs: Refs, depth: nat, budget: nat, chain: seq<string>)
    requires depth <= MAX_DEPTH && Closed(tasks, refs)
    ensures var r := ExpandedEach(tasks, prefix, refs, depth, budget, chain);
            r.Err? ==> !r.error.UnknownRef?
    decreases MAX_DEPTH + 1 - depth, 1, |tasks|
  {
    if tasks != [] {
      var n := |tasks| - 1;
      assert tasks[n] in tasks && DirectRefs(tasks[..n]) <= DirectRefs(tasks);
      EachKnown(tasks[..n], prefix, refs, depth, budget, chain);
      var before := ExpandedEach(tasks[..n], prefix, refs, depth, budget, chain);
      if before.Ok? && tasks[n].name.Some? {
        OneKnown(tasks[n], prefix, refs, depth, before.value.1, chain);
      }
    }
  }

  /** Over gathered specs, inlining never meets an unknown reference. */
  lemma {:induction false} InlineKnown(
    tasks: seq<Task>, prefix: string, refs: Refs, depth: nat, budget: nat, chain: seq<string>)
    requires depth <= MAX_DEPTH + 1 && Closed(tasks, refs)
    ensures var r := InlineList(tasks, prefix, refs, depth, budget, chain);
            r.Err? ==> !r.error.UnknownRef?
    decreases MAX_DEPTH + 1 - depth, 2, 0
  {
    if depth <= MAX_DEPTH {
      EachKnown(tasks, prefix, refs, depth, budget, chain);
    }
  }

  /** What becomes of a spec: nothing, without references; or they cannot all be loaded; or it is flattened. */
  datatype Expansion = AsItIs | NotGathered(reason: Reason) | Tried(refs: Refs, flat: Outcome<seq<Flat>>)

  /**
   Resolve every reference of a spec: gathered first, then flattened. With all
   of them gathered it flattens exactly when it is admissible with at most
   `MAX_TASKS` leaves, and never for want of a workflow.
   */
  method ExpandWorkflowRefs(root: seq<Task>, db: Db) returns (r: Expansion)
    ensures r.AsItIs? <==> DirectRefs(root) == {}
    ensures r.NotGathered? <==> !AllUsable(root, db)
    ensures r.Tried? ==>
              && Gathered(root, db, r.refs) && r.flat == Flattened(root, r.refs)
              && (r.flat.Ok? <==> Admissible(root, r.refs, 0, []) && |Leaves(root, r.refs, 0)| <= MAX_TASKS)
              && (r.flat.Err? ==> !r.flat.error.UnknownRef?)
  {
    if DirectRefs(root) == {} {
      return AsItIs;
    }
    var gathered := CollectReferencedSpecs(root, db);
    if gathered.Err? {
      return NotGathered(gathered.error);
    }
    var flat := ExpandPure(root, gathered.value);
    FlattensIff(root, gathered.value);
    InlineKnown(root, "", gathered.value, 0, MAX_TASKS, []);
    r := Tried(gathered.value, flat);
  }
}
