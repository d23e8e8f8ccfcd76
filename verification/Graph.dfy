/** Reachability in a finite directed graph, given by its edges. */
module Graph {
  type Edge = (string, string)

  type Edges = set<Edge>

  /** `p` follows edges; it has at least one. */
  ghost predicate Walk(edges: Edges, p: seq<string>) {
    && |p| >= 2
    && forall i :: 0 <= i < |p| - 1 ==> (p[i], p[i + 1]) in edges
  }

  /** One or more edges lead from `a` to `b`. */
  ghost predicate Reach(edges: Edges, a: string, b: string) {
    exists p :: Walk(edges, p) && p[0] == a && p[|p| - 1] == b
  }

  ghost predicate ReachOrSame(edges: Edges, a: string, b: string) {
    a == b || Reach(edges, a, b)
  }

  ghost predicate Acyclic(edges: Edges) {
    forall n :: !Reach(edges, n, n)
  }

  ghost predicate Within(edges: Edges, nodes: set<string>) {
    forall e <- edges :: e.0 in nodes && e.1 in nodes
  }

  lemma EdgeReaches(edges: Edges, a: string, b: string)
    requires (a, b) in edges
    ensures Reach(edges, a, b)
  {
    assert Walk(edges, [a, b]);
  }

  lemma ReachTransitive(edges: Edges, a: string, b: string, c: string)
    requires Reach(edges, a, b) && Reach(edges, b, c)
    ensures Reach(edges, a, c)
  {
    var p :| Walk(edges, p) && p[0] == a && p[|p| - 1] == b;
    var q :| Walk(edges, q) && q[0] == b && q[|q| - 1] == c;
    var r := p + q[1..];
    forall i | 0 <= i < |r| - 1
      ensures (r[i], r[i + 1]) in edges
    {
      if i >= |p| - 1 {
        assert (q[i - |p| + 1], q[i - |p| + 2]) in edges;
      }
    }
    assert Walk(edges, r);
  }

  lemma ReachOrSameTransitive(edges: Edges, a: string, b: string, c: string)
    requires ReachOrSame(edges, a, b) && ReachOrSame(edges, b, c)
    ensures ReachOrSame(edges, a, c)
    ensures Reach(edges, a, b) || Reach(edges, b, c) ==> Reach(edges, a, c)
  {
    if a != b && b != c {
      ReachTransitive(edges, a, b, c);
    }
  }

  /** A walk's first step. */
  lemma ReachFirst(edges: Edges, a: string, c: string) returns (b: string)
    requires Reach(edges, a, c)
    ensures (a, b) in edges && ReachOrSame(edges, b, c)
  {
    var p :| Walk(edges, p) && p[0] == a && p[|p| - 1] == c;
    b := p[1];
    assert (p[0], p[1]) in edges;
    if |p| > 2 {
      assert Walk(edges, p[1..]) by {
        forall i | 0 <= i < |p[1..]| - 1 ensures (p[1..][i], p[1..][i + 1]) in edges {
          assert (p[i + 1], p[i + 2]) in edges;
        }
      }
    }
  }

  ghost function Reversed(edges: Edges): Edges {
    set e <- edges :: (e.1, e.0)
  }

  lemma ReversedReach(edges: Edges, a: string, b: string)
    requires Reach(Reversed(edges), a, b)
    ensures Reach(edges, b, a)
  {
    var p :| Walk(Reversed(edges), p) && p[0] == a && p[|p| - 1] == b;
    var r := seq(|p|, i requires 0 <= i < |p| => p[|p| - 1 - i]);
    forall i | 0 <= i < |r| - 1
      ensures (r[i], r[i + 1]) in edges
    {
      var j := |p| - 2 - i;
      assert (p[j], p[j + 1]) in Reversed(edges);
    }
    assert Walk(edges, r);
  }

  /** In an acyclic graph every node leads to one that leads nowhere. */
  lemma {:induction false} LeadsToSink(edges: Edges, nodes: set<string>, n: string, seen: set<string>)
    returns (sink: string)
    requires Acyclic(edges) && Within(edges, nodes) && n in nodes
    requires seen <= nodes && forall s <- seen :: Reach(edges, s, n)
    ensures sink in nodes && ReachOrSame(edges, n, sink)
    ensures forall m :: (sink, m) !in edges
    decreases nodes - seen
  {
    if m :| (n, m) in edges {
      EdgeReaches(edges, n, m);
      forall s <- seen ensures Reach(edges, s, m) {
        ReachTransitive(edges, s, n, m);
      }
      assert n !in seen;
      sink := LeadsToSink(edges, nodes, m, seen + {n});
      ReachOrSameTransitive(edges, n, m, sink);
    } else {
      sink := n;
    }
  }

  /** And is led to from one that nothing leads to. */
  lemma LedFromSource(edges: Edges, nodes: set<string>, n: string) returns (source: string)
    requires Acyclic(edges) && Within(edges, nodes) && n in nodes
    ensures source in nodes && ReachOrSame(edges, source, n)
    ensures forall m :: (m, source) !in edges
  {
    var back := Reversed(edges);
    forall m ensures !Reach(back, m, m) {
      if Reach(back, m, m) {
        ReversedReach(edges, m, m);
      }
    }
    source := LeadsToSink(back, nodes, n, {});
    if source != n {
      ReversedReach(edges, n, source);
    }
    forall m ensures (m, source) !in edges {
      assert (source, m) !in back;
    }
  }
}
