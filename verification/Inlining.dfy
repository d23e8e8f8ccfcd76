/**
 The graph half of workflow inlining: each element of an outer graph is
 replaced by a block, a graph of its own, and an outer edge `a -> b` ("a depends
 on b") by edges from every root of `a`'s block to every exit of `b`'s.
 */
module Inlining {
  import opened Graph

  datatype Block = Block(nodes: set<string>, edges: Edges) {
    /** The nodes that depend on nothing in the block. */
    ghost predicate IsRoot(n: string) {
      n in nodes && forall m :: (n, m) !in edges
    }

    /** The nodes nothing in the block depends on. */
    ghost predicate IsExit(n: string) {
      n in nodes && forall m :: (m, n) !in edges
    }
  }

  type Blocks = map<string, Block>

  /** Blocks are non-empty, share no node, and keep their edges inside. */
  ghost predicate Separate(blocks: Blocks) {
    && (forall a <- blocks :: blocks[a].nodes != {} && Within(blocks[a].edges, blocks[a].nodes))
    && (forall a, b, n :: a in blocks && b in blocks && n in blocks[a].nodes && n in blocks[b].nodes ==> a == b)
  }

  ghost predicate Inner(blocks: Blocks, u: string, v: string) {
    exists a :: a in blocks && (u, v) in blocks[a].edges
  }

  ghost predicate Rewired(blocks: Blocks, outer: Edges, a: string, b: string, u: string, v: string) {
    && (a, b) in outer
    && a in blocks && b in blocks
    && blocks[a].IsRoot(u) && blocks[b].IsExit(v)
  }

  ghost predicate Crossing(blocks: Blocks, outer: Edges, u: string, v: string) {
    exists a, b :: Rewired(blocks, outer, a, b, u, v)
  }

  /** `flat` is `outer` with its elements replaced by their blocks. */
  ghost predicate Inlined(flat: Edges, blocks: Blocks, outer: Edges) {
    && Within(outer, blocks.Keys)
    && Separate(blocks)
    && forall u, v :: (u, v) in flat <==> Inner(blocks, u, v) || Crossing(blocks, outer, u, v)
  }

  ghost predicate BlocksAcyclic(blocks: Blocks) {
    forall a <- blocks :: Acyclic(blocks[a].edges)
  }

  /** The node leads to one that depends on nothing in the block. */
  ghost predicate LeadsOut(b: Block, n: string) {
    exists r :: b.IsRoot(r) && ReachOrSame(b.edges, n, r)
  }

  /** One that nothing in the block depends on leads to the node. */
  ghost predicate LedIn(b: Block, n: string) {
    exists x :: b.IsExit(x) && ReachOrSame(b.edges, x, n)
  }

  /** A block order passes through: no node of it is on cycles alone. */
  ghost predicate Threaded(b: Block) {
    forall n {:trigger LeadsOut(b, n)} {:trigger LedIn(b, n)} :: n in b.nodes ==> LeadsOut(b, n) && LedIn(b, n)
  }

  ghost predicate BlocksThreaded(blocks: Blocks) {
    forall a <- blocks :: Threaded(blocks[a])
  }

  lemma AcyclicIsThreaded(b: Block)
    requires Within(b.edges, b.nodes) && Acyclic(b.edges)
    ensures Threaded(b)
  {
    forall n | n in b.nodes ensures LeadsOut(b, n) && LedIn(b, n) {
      var r := LeadsToSink(b.edges, b.nodes, n, {});
      var x := LedFromSource(b.edges, b.nodes, n);
      assert b.IsRoot(r) && b.IsExit(x);
    }
  }

  lemma AcyclicAreThreaded(blocks: Blocks)
    requires Separate(blocks) && BlocksAcyclic(blocks)
    ensures BlocksThreaded(blocks)
  {
    forall a | a in blocks ensures Threaded(blocks[a]) {
      AcyclicIsThreaded(blocks[a]);
    }
  }

  /** Where one flat edge leads: inside its block, or along an outer edge. */
  lemma EdgeProjects(flat: Edges, blocks: Blocks, outer: Edges, a: string, u: string, v: string)
    returns (b: string)
    requires Inlined(flat, blocks, outer)
    requires a in blocks && u in blocks[a].nodes && (u, v) in flat
    ensures b in blocks && v in blocks[b].nodes
    ensures (a == b && (u, v) in blocks[a].edges) || (a, b) in outer
  {
    if Inner(blocks, u, v) {
      b :| b in blocks && (u, v) in blocks[b].edges;
    } else {
      var c;
      c, b :| Rewired(blocks, outer, c, b, u, v);
    }
  }

  /** A flat path stays in its block or follows outer edges. */
  lemma {:induction false} PathProjects(flat: Edges, blocks: Blocks, outer: Edges, a: string, p: seq<string>)
    returns (b: string)
    requires Inlined(flat, blocks, outer)
    requires Walk(flat, p) && a in blocks && p[0] in blocks[a].nodes
    ensures b in blocks && p[|p| - 1] in blocks[b].nodes
    ensures (a == b && Reach(blocks[a].edges, p[0], p[|p| - 1])) || Reach(outer, a, b)
    decreases |p|
  {
    assert (p[0], p[1]) in flat;
    var c := EdgeProjects(flat, blocks, outer, a, p[0], p[1]);
    if (a, c) in outer {
      EdgeReaches(outer, a, c);
    } else {
      EdgeReaches(blocks[a].edges, p[0], p[1]);
    }
    if |p| == 2 {
      b := c;
    } else {
      assert Walk(flat, p[1..]) by {
        forall i | 0 <= i < |p[1..]| - 1 ensures (p[1..][i], p[1..][i + 1]) in flat {
          assert (p[i + 1], p[i + 2]) in flat;
        }
      }
      b := PathProjects(flat, blocks, outer, c, p[1..]);
      if Reach(outer, a, c) && Reach(outer, c, b) {
        ReachTransitive(outer, a, c, b);
      } else if !Reach(outer, a, c) && !Reach(outer, c, b) {
        ReachTransitive(blocks[a].edges, p[0], p[1], p[|p| - 1]);
      }
    }
  }

  lemma InnerReaches(flat: Edges, blocks: Blocks, outer: Edges, a: string, u: string, v: string)
    requires Inlined(flat, blocks, outer) && a in blocks && Reach(blocks[a].edges, u, v)
    ensures Reach(flat, u, v)
  {
    forall e <- blocks[a].edges ensures e in flat {
      assert Inner(blocks, e.0, e.1);
      assert (e.0, e.1) in flat;
    }
  }

  /** One outer edge carries every node of one block that leads out to every node of the other that is led to. */
  lemma EdgeCarries(flat: Edges, blocks: Blocks, outer: Edges, a: string, b: string, u: string, v: string)
    requires Inlined(flat, blocks, outer) && (a, b) in outer && u in blocks[a].nodes && v in blocks[b].nodes
    requires LeadsOut(blocks[a], u) && LedIn(blocks[b], v)
    ensures Reach(flat, u, v)
  {
    var root :| blocks[a].IsRoot(root) && ReachOrSame(blocks[a].edges, u, root);
    var exit :| blocks[b].IsExit(exit) && ReachOrSame(blocks[b].edges, exit, v);
    assert Rewired(blocks, outer, a, b, root, exit);
    assert Crossing(blocks, outer, root, exit);
    EdgeReaches(flat, root, exit);
    if u != root {
      InnerReaches(flat, blocks, outer, a, u, root);
    }
    if exit != v {
      InnerReaches(flat, blocks, outer, b, exit, v);
    }
    ReachOrSameTransitive(flat, u, root, exit);
    ReachOrSameTransitive(flat, u, exit, v);
  }

  lemma OuterEdgeReaches(flat: Edges, blocks: Blocks, outer: Edges, a: string, b: string, u: string, v: string)
    requires Inlined(flat, blocks, outer) && BlocksThreaded(blocks)
    requires (a, b) in outer && u in blocks[a].nodes && v in blocks[b].nodes
    ensures Reach(flat, u, v)
  {
    assert LeadsOut(blocks[a], u) && LedIn(blocks[b], v);
    EdgeCarries(flat, blocks, outer, a, b, u, v);
  }

  lemma {:induction false} OuterPathReaches(
    flat: Edges, blocks: Blocks, outer: Edges, p: seq<string>, u: string, v: string)
    requires Inlined(flat, blocks, outer) && BlocksThreaded(blocks)
    requires Walk(outer, p) && p[0] in blocks && p[|p| - 1] in blocks
    requires u in blocks[p[0]].nodes && v in blocks[p[|p| - 1]].nodes
    ensures Reach(flat, u, v)
    decreases |p|
  {
    assert (p[0], p[1]) in outer;
    if |p| == 2 {
      OuterEdgeReaches(flat, blocks, outer, p[0], p[1], u, v);
    } else {
      var w :| w in blocks[p[1]].nodes;
      OuterEdgeReaches(flat, blocks, outer, p[0], p[1], u, w);
      assert Walk(outer, p[1..]) by {
        forall i | 0 <= i < |p[1..]| - 1 ensures (p[1..][i], p[1..][i + 1]) in outer {
          assert (p[i + 1], p[i + 2]) in outer;
        }
      }
      OuterPathReaches(flat, blocks, outer, p[1..], w, v);
      ReachTransitive(flat, u, w, v);
    }
  }

  lemma OuterReaches(flat: Edges, blocks: Blocks, outer: Edges, a: string, b: string, u: string, v: string)
    requires Inlined(flat, blocks, outer) && BlocksThreaded(blocks)
    requires Reach(outer, a, b) && a in blocks && b in blocks
    requires u in blocks[a].nodes && v in blocks[b].nodes
    ensures Reach(flat, u, v)
  {
    var p :| Walk(outer, p) && p[0] == a && p[|p| - 1] == b;
    OuterPathReaches(flat, blocks, outer, p, u, v);
  }

  /** Between two elements the flat order is the outer order. */
  lemma AcrossBlocks(flat: Edges, blocks: Blocks, outer: Edges, a: string, b: string, u: string, v: string)
    requires Inlined(flat, blocks, outer) && BlocksThreaded(blocks)
    requires a in blocks && b in blocks && a != b
    requires u in blocks[a].nodes && v in blocks[b].nodes
    ensures Reach(flat, u, v) <==> Reach(outer, a, b)
  {
    if Reach(flat, u, v) {
      var p :| Walk(flat, p) && p[0] == u && p[|p| - 1] == v;
      var c := PathProjects(flat, blocks, outer, a, p);
    }
    if Reach(outer, a, b) {
      OuterReaches(flat, blocks, outer, a, b, u, v);
    }
  }

  /** Inside one element, not on an outer cycle, the flat order is the block's. */
  lemma WithinBlock(flat: Edges, blocks: Blocks, outer: Edges, a: string, u: string, v: string)
    requires Inlined(flat, blocks, outer) && a in blocks && !Reach(outer, a, a)
    requires u in blocks[a].nodes && v in blocks[a].nodes
    ensures Reach(flat, u, v) <==> Reach(blocks[a].edges, u, v)
  {
    if Reach(flat, u, v) {
      var p :| Walk(flat, p) && p[0] == u && p[|p| - 1] == v;
      var c := PathProjects(flat, blocks, outer, a, p);
    }
    if Reach(blocks[a].edges, u, v) {
      InnerReaches(flat, blocks, outer, a, u, v);
    }
  }

  /** On one or off, it is the block's, or any two of a block reach each other around the cycle. */
  lemma WithinBlockIff(flat: Edges, blocks: Blocks, outer: Edges, a: string, u: string, v: string)
    requires Inlined(flat, blocks, outer) && BlocksThreaded(blocks) && a in blocks
    requires u in blocks[a].nodes && v in blocks[a].nodes
    ensures Reach(flat, u, v) <==> Reach(outer, a, a) || Reach(blocks[a].edges, u, v)
  {
    if Reach(outer, a, a) {
      OuterReaches(flat, blocks, outer, a, a, u, v);
    } else {
      WithinBlock(flat, blocks, outer, a, u, v);
    }
  }

  lemma FlatAcyclicIff(flat: Edges, blocks: Blocks, outer: Edges)
    requires Inlined(flat, blocks, outer)
    ensures Acyclic(flat) <==> Acyclic(outer) && BlocksAcyclic(blocks)
  {
    if Acyclic(outer) && BlocksAcyclic(blocks) {
      forall n ensures !Reach(flat, n, n) {
        if Reach(flat, n, n) {
          var m := ReachFirst(flat, n, n);
          assert Inner(blocks, n, m) || Crossing(blocks, outer, n, m);
          var p :| Walk(flat, p) && p[0] == n && p[|p| - 1] == n;
          var a :| a in blocks && n in blocks[a].nodes;
          var c := PathProjects(flat, blocks, outer, a, p);
          assert false;
        }
      }
    }
    if Acyclic(flat) {
      forall a | a in blocks ensures Acyclic(blocks[a].edges) {
        forall n ensures !Reach(blocks[a].edges, n, n) {
          if Reach(blocks[a].edges, n, n) {
            InnerReaches(flat, blocks, outer, a, n, n);
          }
        }
      }
      AcyclicAreThreaded(blocks);
      forall a ensures !Reach(outer, a, a) {
        if Reach(outer, a, a) {
          var b := ReachFirst(outer, a, a);
          var u :| u in blocks[a].nodes;
          OuterReaches(flat, blocks, outer, a, a, u, u);
        }
      }
    }
  }

  // ── what passes through a block ────────────────────────────────────────────

  /** A flat path out of a node stays in its block, or the node leads out of it. */
  lemma {:induction false} PathLeaves(flat: Edges, blocks: Blocks, outer: Edges, a: string, p: seq<string>)
    requires Inlined(flat, blocks, outer)
    requires Walk(flat, p) && a in blocks && p[0] in blocks[a].nodes
    ensures LeadsOut(blocks[a], p[0]) || Reach(blocks[a].edges, p[0], p[|p| - 1])
    decreases |p|
  {
    assert (p[0], p[1]) in flat;
    if Inner(blocks, p[0], p[1]) {
      var c :| c in blocks && (p[0], p[1]) in blocks[c].edges;
      EdgeReaches(blocks[a].edges, p[0], p[1]);
      if |p| > 2 {
        assert Walk(flat, p[1..]) by {
          forall i | 0 <= i < |p[1..]| - 1 ensures (p[1..][i], p[1..][i + 1]) in flat {
            assert (p[i + 1], p[i + 2]) in flat;
          }
        }
        PathLeaves(flat, blocks, outer, a, p[1..]);
        if LeadsOut(blocks[a], p[1]) {
          var r :| blocks[a].IsRoot(r) && ReachOrSame(blocks[a].edges, p[1], r);
          ReachOrSameTransitive(blocks[a].edges, p[0], p[1], r);
        } else {
          ReachTransitive(blocks[a].edges, p[0], p[1], p[|p| - 1]);
        }
      }
    } else {
      var c, b :| Rewired(blocks, outer, c, b, p[0], p[1]);
      assert blocks[a].IsRoot(p[0]);
    }
  }

  /** And a path into one comes from its block, or the node is led to from outside it. */
  lemma {:induction false} PathEnters(flat: Edges, blocks: Blocks, outer: Edges, b: string, p: seq<string>)
    requires Inlined(flat, blocks, outer)
    requires Walk(flat, p) && b in blocks && p[|p| - 1] in blocks[b].nodes
    ensures LedIn(blocks[b], p[|p| - 1]) || Reach(blocks[b].edges, p[0], p[|p| - 1])
    decreases |p|
  {
    var n := |p| - 1;
    assert (p[n - 1], p[n]) in flat;
    if Inner(blocks, p[n - 1], p[n]) {
      var c :| c in blocks && (p[n - 1], p[n]) in blocks[c].edges;
      EdgeReaches(blocks[b].edges, p[n - 1], p[n]);
      if n > 1 {
        assert Walk(flat, p[..n]) by {
          forall i | 0 <= i < n - 1 ensures (p[..n][i], p[..n][i + 1]) in flat {
            assert (p[i], p[i + 1]) in flat;
          }
        }
        PathEnters(flat, blocks, outer, b, p[..n]);
        if LedIn(blocks[b], p[n - 1]) {
          var x :| blocks[b].IsExit(x) && ReachOrSame(blocks[b].edges, x, p[n - 1]);
          ReachOrSameTransitive(blocks[b].edges, x, p[n - 1], p[n]);
        } else {
          ReachTransitive(blocks[b].edges, p[0], p[n - 1], p[n]);
        }
      }
    } else {
      var a, c :| Rewired(blocks, outer, a, c, p[n - 1], p[n]);
      assert blocks[b].IsExit(p[n]);
    }
  }

  /** What order there is across blocks leaves the one and enters the other. */
  lemma AcrossNeedsThreads(flat: Edges, blocks: Blocks, outer: Edges, a: string, b: string, u: string, v: string)
    requires Inlined(flat, blocks, outer) && a in blocks && b in blocks && a != b
    requires u in blocks[a].nodes && v in blocks[b].nodes && Reach(flat, u, v)
    ensures LeadsOut(blocks[a], u) && LedIn(blocks[b], v)
  {
    var p :| Walk(flat, p) && p[0] == u && p[|p| - 1] == v;
    PathLeaves(flat, blocks, outer, a, p);
    PathEnters(flat, blocks, outer, b, p);
    if Reach(blocks[a].edges, u, v) {
      StaysWithin(blocks[a].edges, blocks[a].nodes, u, v);
    }
    if Reach(blocks[b].edges, u, v) {
      StaysWithin(blocks[b].edges, blocks[b].nodes, u, v);
    }
  }

  lemma StaysWithin(edges: Edges, nodes: set<string>, u: string, v: string)
    requires Within(edges, nodes) && Reach(edges, u, v)
    ensures u in nodes && v in nodes
  {
    var p :| Walk(edges, p) && p[0] == u && p[|p| - 1] == v;
    var n := |p| - 1;
    assert (p[0], p[1]) in edges && (p[n - 1], p[n]) in edges;
  }

  lemma CarriedIsThreaded(flat: Edges, blocks: Blocks, outer: Edges, before: string, a: string, after: string,
                          u: string, v: string)
    requires Inlined(flat, blocks, outer) && before in blocks && a in blocks && after in blocks
    requires before != a && after != a && u in blocks[before].nodes && v in blocks[after].nodes
    requires forall n {:trigger Reach(flat, u, n)} :: n in blocks[a].nodes ==> Reach(flat, u, n) && Reach(flat, n, v)
    ensures Threaded(blocks[a])
  {
    forall n {:trigger LeadsOut(blocks[a], n)} {:trigger LedIn(blocks[a], n)} | n in blocks[a].nodes
      ensures LeadsOut(blocks[a], n) && LedIn(blocks[a], n)
    {
      assert Reach(flat, u, n);
      AcrossNeedsThreads(flat, blocks, outer, before, a, u, n);
      AcrossNeedsThreads(flat, blocks, outer, a, after, n, v);
    }
  }

  /**
   So a block between two others carries the order of the one to the other's
   through each of its nodes exactly when it is threaded.
   */
  lemma CarriesIff(flat: Edges, blocks: Blocks, outer: Edges, before: string, a: string, after: string,
                   u: string, v: string)
    requires Inlined(flat, blocks, outer) && before != a && after != a
    requires (before, a) in outer && (a, after) in outer
    requires u in blocks[before].nodes && v in blocks[after].nodes && LeadsOut(blocks[before], u) && LedIn(blocks[after], v)
    ensures Threaded(blocks[a]) <==> forall n :: n in blocks[a].nodes ==> Reach(flat, u, n) && Reach(flat, n, v)
  {
    if Threaded(blocks[a]) {
      forall n | n in blocks[a].nodes ensures Reach(flat, u, n) && Reach(flat, n, v) {
        assert LeadsOut(blocks[a], n) && LedIn(blocks[a], n);
        EdgeCarries(flat, blocks, outer, before, a, u, n);
        EdgeCarries(flat, blocks, outer, a, after, n, v);
      }
    } else if forall n :: n in blocks[a].nodes ==> Reach(flat, u, n) && Reach(flat, n, v) {
      CarriedIsThreaded(flat, blocks, outer, before, a, after, u, v);
    }
  }

  const CYCLE: Edges := {("a", "b"), ("b", "a")}

  function Between(): Blocks {
    map["x" := Block({"x"}, {}), "c" := Block({"a", "b"}, CYCLE), "y" := Block({"y"}, {})]
  }

  lemma CycleHasNoEnds(n: string)
    ensures !Block({"a", "b"}, CYCLE).IsRoot(n) && !Block({"a", "b"}, CYCLE).IsExit(n)
  {
    assert ("a", "b") in CYCLE && ("b", "a") in CYCLE;
  }

  lemma NothingCrosses(u: string, v: string)
    ensures !Crossing(Between(), {("x", "c"), ("c", "y")}, u, v)
  {
    CycleHasNoEnds(u);
    CycleHasNoEnds(v);
  }

  lemma OnlyCycles(u: string, v: string)
    ensures (u, v) in CYCLE <==> Inner(Between(), u, v)
  {
    if (u, v) in CYCLE {
      assert (u, v) in Between()["c"].edges;
    }
  }

  lemma BetweenIsSeparate()
    ensures Separate(Between()) && Between().Keys == {"x", "c", "y"}
  {
  }

  lemma EdgeOfBetween(outer: Edges, u: string, v: string)
    requires outer == {("x", "c"), ("c", "y")}
    ensures (u, v) in CYCLE <==> Inner(Between(), u, v) || Crossing(Between(), outer, u, v)
  {
    OnlyCycles(u, v);
    NothingCrosses(u, v);
  }

  lemma CycleIsInlined(outer: Edges, blocks: Blocks)
    requires outer == {("x", "c"), ("c", "y")} && blocks == Between()
    requires Separate(blocks) && blocks.Keys == {"x", "c", "y"}
    requires forall u, v :: (u, v) in CYCLE <==> Inner(blocks, u, v) || Crossing(blocks, outer, u, v)
    ensures Inlined(CYCLE, blocks, outer)
  {
  }

  lemma ReachesAround()
    ensures Reach({("x", "c"), ("c", "y")}, "x", "y")
  {
    EdgeReaches({("x", "c"), ("c", "y")}, "x", "c");
    EdgeReaches({("x", "c"), ("c", "y")}, "c", "y");
    ReachTransitive({("x", "c"), ("c", "y")}, "x", "c", "y");
  }

  lemma CycleReachesItself()
    ensures !Reach(CYCLE, "x", "y")
  {
    if Reach(CYCLE, "x", "y") {
      var m := ReachFirst(CYCLE, "x", "y");
    }
  }

  /** Two nodes that depend on each other, between two that are alone: nothing carries the order of these. */
  lemma CycleCutsOrder(outer: Edges)
    requires outer == {("x", "c"), ("c", "y")}
    ensures Inlined(CYCLE, Between(), outer) && Reach(outer, "x", "y") && !Reach(CYCLE, "x", "y")
  {
    BetweenIsSeparate();
    forall u, v ensures (u, v) in CYCLE <==> Inner(Between(), u, v) || Crossing(Between(), outer, u, v) {
      EdgeOfBetween(outer, u, v);
    }
    CycleIsInlined(outer, Between());
    ReachesAround();
    CycleReachesItself();
  }

  // ── threads of the whole ───────────────────────────────────────────────────

  ghost function AllNodes(blocks: Blocks): set<string> {
    set a, n | a in blocks && n in blocks[a].nodes :: n
  }

  ghost function Whole(flat: Edges, blocks: Blocks): Block {
    Block(AllNodes(blocks), flat)
  }

  ghost function Around(blocks: Blocks, outer: Edges): Block {
    Block(blocks.Keys, outer)
  }

  lemma CrossesFrom(flat: Edges, blocks: Blocks, outer: Edges, a: string, b: string, n: string) returns (m: string)
    requires Inlined(flat, blocks, outer) && (a, b) in outer && Threaded(blocks[b]) && blocks[a].IsRoot(n)
    ensures (n, m) in flat
  {
    var v :| v in blocks[b].nodes;
    assert LedIn(blocks[b], v);
    m :| blocks[b].IsExit(m) && ReachOrSame(blocks[b].edges, m, v);
    assert Rewired(blocks, outer, a, b, n, m);
    assert Crossing(blocks, outer, n, m);
  }

  lemma CrossesTo(flat: Edges, blocks: Blocks, outer: Edges, a: string, b: string, n: string) returns (m: string)
    requires Inlined(flat, blocks, outer) && (a, b) in outer && Threaded(blocks[a]) && blocks[b].IsExit(n)
    ensures (m, n) in flat
  {
    var u :| u in blocks[a].nodes;
    assert LeadsOut(blocks[a], u);
    m :| blocks[a].IsRoot(m) && ReachOrSame(blocks[a].edges, u, m);
    assert Rewired(blocks, outer, a, b, m, n);
    assert Crossing(blocks, outer, m, n);
  }

  lemma EdgeEnters(flat: Edges, blocks: Blocks, outer: Edges, b: string, u: string, v: string)
    requires Inlined(flat, blocks, outer) && b in blocks && v in blocks[b].nodes && (u, v) in flat
    ensures (u, v) in blocks[b].edges || exists a :: (a, b) in outer
  {
    if Inner(blocks, u, v) {
      var c :| c in blocks && (u, v) in blocks[c].edges;
    } else {
      var a, c :| Rewired(blocks, outer, a, c, u, v);
    }
  }

  /** A node the whole's order ends at is where its block's does, in an element the outer order ends at. */
  lemma RootIs(flat: Edges, blocks: Blocks, outer: Edges, a: string, n: string)
    requires Inlined(flat, blocks, outer) && BlocksThreaded(blocks) && a in blocks && n in blocks[a].nodes
    ensures Whole(flat, blocks).IsRoot(n) <==> blocks[a].IsRoot(n) && Around(blocks, outer).IsRoot(a)
  {
    if Whole(flat, blocks).IsRoot(n) {
      forall m ensures (n, m) !in blocks[a].edges {
        assert (n, m) in blocks[a].edges ==> Inner(blocks, n, m);
      }
      forall b ensures (a, b) !in outer {
        if (a, b) in outer {
          var m := CrossesFrom(flat, blocks, outer, a, b, n);
        }
      }
    }
    if blocks[a].IsRoot(n) && Around(blocks, outer).IsRoot(a) {
      forall m ensures (n, m) !in flat {
        if (n, m) in flat {
          var b := EdgeProjects(flat, blocks, outer, a, n, m);
        }
      }
    }
  }

  lemma ExitIs(flat: Edges, blocks: Blocks, outer: Edges, a: string, n: string)
    requires Inlined(flat, blocks, outer) && BlocksThreaded(blocks) && a in blocks && n in blocks[a].nodes
    ensures Whole(flat, blocks).IsExit(n) <==> blocks[a].IsExit(n) && Around(blocks, outer).IsExit(a)
  {
    if Whole(flat, blocks).IsExit(n) {
      forall m ensures (m, n) !in blocks[a].edges {
        assert (m, n) in blocks[a].edges ==> Inner(blocks, m, n);
      }
      forall b ensures (b, a) !in outer {
        if (b, a) in outer {
          var m := CrossesTo(flat, blocks, outer, b, a, n);
        }
      }
    }
    if blocks[a].IsExit(n) && Around(blocks, outer).IsExit(a) {
      forall m ensures (m, n) !in flat {
        if (m, n) in flat {
          EdgeEnters(flat, blocks, outer, a, m, n);
        }
      }
    }
  }

  /** Out of a threaded block's node, to where the outer order leads. */
  lemma OutAlong(flat: Edges, blocks: Blocks, outer: Edges, a: string, n: string, r: string)
    requires Inlined(flat, blocks, outer) && BlocksThreaded(blocks) && a in blocks && n in blocks[a].nodes
    requires Around(blocks, outer).IsRoot(r) && ReachOrSame(outer, a, r)
    ensures LeadsOut(Whole(flat, blocks), n)
  {
    var from := n;
    if a != r {
      from :| from in blocks[r].nodes;
    }
    assert LeadsOut(blocks[r], from);
    var w :| blocks[r].IsRoot(w) && ReachOrSame(blocks[r].edges, from, w);
    RootIs(flat, blocks, outer, r, w);
    if a != r {
      OuterReaches(flat, blocks, outer, a, r, n, w);
    } else if n != w {
      InnerReaches(flat, blocks, outer, a, n, w);
    }
  }

  lemma InAlong(flat: Edges, blocks: Blocks, outer: Edges, a: string, n: string, x: string)
    requires Inlined(flat, blocks, outer) && BlocksThreaded(blocks) && a in blocks && n in blocks[a].nodes
    requires Around(blocks, outer).IsExit(x) && ReachOrSame(outer, x, a)
    ensures LedIn(Whole(flat, blocks), n)
  {
    var to := n;
    if a != x {
      to :| to in blocks[x].nodes;
    }
    assert LedIn(blocks[x], to);
    var w :| blocks[x].IsExit(w) && ReachOrSame(blocks[x].edges, w, to);
    ExitIs(flat, blocks, outer, x, w);
    if a != x {
      OuterReaches(flat, blocks, outer, x, a, w, n);
    } else if n != w {
      InnerReaches(flat, blocks, outer, a, w, n);
    }
  }

  /** Threaded around threaded blocks, the whole is threaded. */
  lemma WholeIsThreaded(flat: Edges, blocks: Blocks, outer: Edges)
    requires Inlined(flat, blocks, outer) && BlocksThreaded(blocks) && Threaded(Around(blocks, outer))
    ensures Threaded(Whole(flat, blocks))
  {
    forall n | n in AllNodes(blocks) ensures LeadsOut(Whole(flat, blocks), n) && LedIn(Whole(flat, blocks), n) {
      var a :| a in blocks && n in blocks[a].nodes;
      assert LeadsOut(Around(blocks, outer), a) && LedIn(Around(blocks, outer), a);
      var r :| Around(blocks, outer).IsRoot(r) && ReachOrSame(outer, a, r);
      OutAlong(flat, blocks, outer, a, n, r);
      var x :| Around(blocks, outer).IsExit(x) && ReachOrSame(outer, x, a);
      InAlong(flat, blocks, outer, a, n, x);
    }
  }
}
