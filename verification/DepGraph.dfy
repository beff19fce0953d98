/** The cycle check of a flow spec (`has_cycle` in flow.rs): three-colour depth-first search. */
module DepGraph {

  /** Step id -> the ids it depends on. A dependency need not be a key. */
  type Graph = map<string, seq<string>>

  predicate Edge(g: Graph, a: string, b: string) {
    a in g && b in g[a]
  }

  ghost predicate Walk(g: Graph, p: seq<string>) {
    forall i {:trigger p[i]} :: 0 <= i < |p| - 1 ==> Edge(g, p[i], p[i + 1])
  }

  ghost predicate Cycle(g: Graph, p: seq<string>) {
    |p| >= 2 && p[0] == p[|p| - 1] && Walk(g, p)
  }

  ghost predicate Cyclic(g: Graph) {
    exists p :: Cycle(g, p)
  }

  ghost predicate Distinct<T>(s: seq<T>) {
    forall i, j :: 0 <= i < j < |s| ==> s[i] != s[j]
  }

  /** Every node of `order` comes after everything it depends on. */
  ghost predicate DepsFirst(g: Graph, order: seq<string>) {
    forall i, d :: 0 <= i < |order| && Edge(g, order[i], d) ==> d in order[..i]
  }

  ghost predicate TopoOrder(g: Graph, order: seq<string>) {
    Distinct(order) && DepsFirst(g, order) && forall n :: n in g ==> n in order
  }

  /** Along a walk inside a dependencies-first order, positions strictly decrease. */
  lemma {:induction false} WalkDescends(g: Graph, order: seq<string>, p: seq<string>, i: nat)
    requires Distinct(order) && DepsFirst(g, order)
    requires Walk(g, p) && |p| > 0
    requires i < |order| && order[i] == p[0]
    ensures exists j :: 0 <= j <= i && order[j] == p[|p| - 1] && (|p| > 1 ==> j < i)
  {
    if |p| > 1 {
      assert Edge(g, p[0], p[1]);
      var k :| 0 <= k < i && order[k] == p[1];
      forall m | 0 <= m < |p| - 2 ensures Edge(g, p[1..][m], p[1..][m + 1]) {
        assert Edge(g, p[m + 1], p[m + 2]);
      }
      WalkDescends(g, order, p[1..], k);
    }
  }

  lemma TopoOrderIsAcyclic(g: Graph, order: seq<string>)
    requires TopoOrder(g, order)
    ensures !Cyclic(g)
  {
    if Cyclic(g) {
      var p :| Cycle(g, p);
      assert Edge(g, p[0], p[1]);
      var i :| 0 <= i < |order| && order[i] == p[0];
      WalkDescends(g, order, p, i);
      assert false;
    }
  }

  datatype Mark = Unseen | InStack | Closed

  type Marks = map<string, Mark>

  function MarkOf(state: Marks, n: string): Mark {
    if n in state then state[n] else Unseen
  }

  ghost function Nodes(g: Graph): set<string> {
    g.Keys + set n, d | n in g && d in g[n] :: d
  }

  ghost function Unvisited(g: Graph, state: Marks): set<string> {
    set n | n in Nodes(g) && MarkOf(state, n) == Unseen
  }

  /** The state of a search whose stack is `path` and which has finished `order`, in that order. */
  ghost predicate Search(g: Graph, state: Marks, order: seq<string>, path: seq<string>) {
    && (forall n :: MarkOf(state, n) == InStack <==> n in path)
    && (forall n :: MarkOf(state, n) == Closed <==> n in order)
    && Walk(g, path)
    && Distinct(order)
    && DepsFirst(g, order)
  }

  lemma PushNode(g: Graph, state: Marks, order: seq<string>, path: seq<string>, n: string)
    requires Search(g, state, order, path) && MarkOf(state, n) == Unseen
    requires path != [] ==> Edge(g, path[|path| - 1], n)
    ensures Search(g, state[n := InStack], order, path + [n])
  {
    var stack := path + [n];
    forall i {:trigger stack[i]} | 0 <= i < |stack| - 1 ensures Edge(g, stack[i], stack[i + 1]) {
      assert stack[i] == path[i];
      if i < |path| - 1 { assert Edge(g, path[i], path[i + 1]); }
    }
  }

  lemma PopNode(g: Graph, state: Marks, order: seq<string>, path: seq<string>, n: string)
    requires Search(g, state, order, path + [n]) && n !in path
    requires forall d :: Edge(g, n, d) ==> d in order
    ensures Search(g, state[n := Closed], order + [n], path)
  {
    var longer := order + [n];
    assert MarkOf(state, n) == InStack;
    forall i, d | 0 <= i < |longer| && Edge(g, longer[i], d) ensures d in longer[..i] {
      if i < |order| {
        assert longer[..i] == order[..i];
      } else {
        assert longer[..i] == order;
      }
    }
    var stack := path + [n];
    forall i {:trigger path[i]} | 0 <= i < |path| - 1 ensures Edge(g, path[i], path[i + 1]) {
      assert Edge(g, stack[i], stack[i + 1]);
    }
    assert n in stack;
    forall m ensures MarkOf(state[n := Closed], m) == InStack <==> m in path {
      assert m in stack <==> m in path || m == n;
    }
    forall m ensures MarkOf(state[n := Closed], m) == Closed <==> m in longer {
      assert m in longer <==> m in order || m == n;
    }
  }

  class CycleFinder {
    const edges: Graph
    var state: Marks
    ghost var finished: seq<string> // the nodes marked Closed, in the order they were finished

    constructor (edges: Graph)
      ensures this.edges == edges && state == map[] && finished == []
    {
      this.edges := edges;
      state := map[];
      finished := [];
    }

    /** Visit `n`, which is unseen and a dependency of the top of the stack. */
    method Dfs(n: string, ghost path: seq<string>) returns (cyclic: bool)
      requires Search(edges, state, finished, path) && MarkOf(state, n) == Unseen && n in Nodes(edges)
      requires path != [] ==> Edge(edges, path[|path| - 1], n)
      modifies this
      ensures cyclic ==> Cyclic(edges)
      ensures !cyclic ==> Search(edges, state, finished, path) && MarkOf(state, n) == Closed
      ensures !cyclic ==> old(finished) <= finished
      ensures !cyclic ==> Unvisited(edges, state) <= Unvisited(edges, old(state))
      decreases |Unvisited(edges, state)|, 0
    {
      ghost var before := Unvisited(edges, state);
      ghost var stack := path + [n];
      PushNode(edges, state, finished, path, n);
      state := state[n := InStack];
      if n in edges {
        var deps := edges[n];
        var k := 0;
        while k < |deps|
          invariant 0 <= k <= |deps|
          invariant Search(edges, state, finished, stack)
          invariant old(finished) <= finished
          invariant Unvisited(edges, state) <= before - {n}
          invariant forall i :: 0 <= i < k ==> deps[i] in finished
        {
          assert Edge(edges, n, deps[k]);
          SubsetSize(Unvisited(edges, state), before, n);
          var inner := Visit(n, deps[k], stack);
          if inner { return true; }
          k := k + 1;
        }
      }
      PopNode(edges, state, finished, path, n);
      state := state[n := Closed];
      finished := finished + [n];
      return false;
    }

    /** One dependency of the node on top of the stack. */
    method Visit(n: string, d: string, ghost stack: seq<string>) returns (cyclic: bool)
      requires Search(edges, state, finished, stack) && Edge(edges, n, d) && d in Nodes(edges)
      requires stack != [] && stack[|stack| - 1] == n
      modifies this
      ensures cyclic ==> Cyclic(edges)
      ensures !cyclic ==> Search(edges, state, finished, stack) && d in finished && old(finished) <= finished
      ensures !cyclic ==> Unvisited(edges, state) <= Unvisited(edges, old(state))
      decreases |Unvisited(edges, state)|, 1
    {
      match MarkOf(state, d) {
        case InStack =>
          CloseCycle(edges, stack, d);
          return true;
        case Unseen =>
          cyclic := Dfs(d, stack);
        case Closed =>
          return false;
      }
    }

    /** `has_cycle`: start a search from every key, in any order. */
    method HasCycle() returns (cyclic: bool)
      requires state == map[] && finished == []
      modifies this
      ensures cyclic <==> Cyclic(edges)
      ensures !cyclic ==> TopoOrder(edges, finished)
    {
      var keys := edges.Keys;
      while keys != {}
        invariant Search(edges, state, finished, [])
        invariant keys <= edges.Keys
        invariant forall n :: n in edges && n !in keys ==> MarkOf(state, n) == Closed
        decreases keys
      {
        var n :| n in keys;
        keys := keys - {n};
        ghost var order := finished;
        if MarkOf(state, n) == Unseen {
          var inner := Dfs(n, []);
          if inner { return true; }
        }
        assert order <= finished;
      }
      TopoOrderIsAcyclic(edges, finished);
      return false;
    }
  }

  lemma SubsetSize(a: set<string>, b: set<string>, n: string)
    requires a <= b - {n} && n in b
    ensures |a| < |b|
  {
    SubsetCardinality(a, b - {n});
  }

  lemma {:induction false} SubsetCardinality<T>(a: set<T>, b: set<T>)
    requires a <= b
    ensures |a| <= |b|
  {
    if a != {} {
      var x :| x in a;
      SubsetCardinality(a - {x}, b - {x});
    }
  }

  lemma CloseCycle(g: Graph, stack: seq<string>, d: string)
    requires Walk(g, stack) && stack != [] && d in stack && Edge(g, stack[|stack| - 1], d)
    ensures Cyclic(g)
  {
    var i :| 0 <= i < |stack| && stack[i] == d;
    var p := stack[i..] + [d];
    forall m | 0 <= m < |p| - 1 ensures Edge(g, p[m], p[m + 1]) {
      assert p[m] == stack[i + m];
      if m < |p| - 2 { assert p[m + 1] == stack[i + m + 1]; }
    }
    assert Cycle(g, p);
  }
}
