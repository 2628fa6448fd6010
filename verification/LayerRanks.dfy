/**
 Diagram layers (frontend/js/diagrams.js:203-224): in-place longest-path relaxation under a budget of
 one pass per node. Walks in the graph are the reference.
*/
module LayerRanks {

  datatype Edge = Edge(from: string, to: string)

  /** `index.set(node.id, i)` for every node in order: a repeated id keeps its last position. */
  function IndexMap(ids: seq<string>): (index: map<string, nat>)
    ensures forall id :: id in index <==> id in ids
    ensures forall id :: id in index ==> index[id] < |ids| && ids[index[id]] == id
    ensures forall id, i :: id in index && index[id] < i < |ids| ==> ids[i] != id
  {
    if |ids| == 0 then map[]
    else IndexMap(ids[..|ids| - 1])[ids[|ids| - 1] := |ids| - 1]
  }

  method BuildIndex(ids: seq<string>) returns (index: map<string, nat>)
    ensures index == IndexMap(ids)
  {
    index := map[];
    for i := 0 to |ids|
      invariant index == IndexMap(ids[..i])
    {
      index := index[ids[i] := i];
      assert ids[..i + 1][..i] == ids[..i];
    }
    assert ids[..|ids|] == ids;
  }

  /** The node count, where each id sits, and the edges as given. */
  datatype Graph = Graph(n: nat, index: map<string, nat>, edges: seq<Edge>)

  function GraphOf(ids: seq<string>, edges: seq<Edge>): (g: Graph)
    ensures Valid(g)
  {
    Graph(|ids|, IndexMap(ids), edges)
  }

  ghost predicate Valid(g: Graph) {
    forall id :: id in g.index ==> g.index[id] < g.n
  }

  /** Edge `e` resolves to the two different nodes `u` and `v`. */
  predicate Resolves(g: Graph, edge: Edge, u: nat, v: nat) {
    && edge.from in g.index && edge.to in g.index
    && g.index[edge.from] == u < g.n && g.index[edge.to] == v < g.n && u != v
  }

  ghost predicate Arc(g: Graph, u: nat, v: nat) {
    exists e :: 0 <= e < |g.edges| && Resolves(g, g.edges[e], u, v)
  }

  /** A walk visits nodes along arcs; its length is the number of arcs. */
  ghost predicate IsWalk(g: Graph, p: seq<nat>) {
    && |p| > 0
    && (forall i :: 0 <= i < |p| ==> p[i] < g.n)
    && forall i :: 0 <= i < |p| - 1 ==> Arc(g, p[i], p[i + 1])
  }

  function Last(p: seq<nat>): nat
    requires |p| > 0
  {
    p[|p| - 1]
  }

  /** No walk returns to where it started. Self-loops resolve to no arc, so they do not count. */
  ghost predicate Acyclic(g: Graph) {
    forall p :: IsWalk(g, p) && |p| >= 2 ==> p[0] != Last(p)
  }

  /** Relaxing any edge would change nothing. */
  ghost predicate Fixpoint(g: Graph, rank: seq<nat>) {
    |rank| == g.n && forall u: nat, v: nat :: Arc(g, u, v) ==> rank[v] >= rank[u] + 1
  }

  /** Some walk of exactly this length ends at `v`. */
  ghost predicate Realized(g: Graph, v: nat, length: nat) {
    exists p :: IsWalk(g, p) && Last(p) == v && |p| - 1 == length
  }

  ghost predicate Sound(g: Graph, rank: seq<nat>) {
    |rank| == g.n && forall v: nat :: v < g.n ==> Realized(g, v, rank[v])
  }

  /** Walks of at most `k` arcs are accounted for. */
  ghost predicate Dominates(g: Graph, rank: seq<nat>, k: nat) {
    && |rank| == g.n
    && forall p :: IsWalk(g, p) && |p| - 1 <= k ==> rank[Last(p)] >= |p| - 1
  }

  /** Each rank is the length of a longest walk into its node. */
  ghost predicate Longest(g: Graph, rank: seq<nat>) {
    && Sound(g, rank)
    && forall p :: IsWalk(g, p) ==> rank[Last(p)] >= |p| - 1
  }

  // ---- walks ------------------------------------------------------------------

  lemma ExtendWalk(g: Graph, p: seq<nat>, v: nat)
    requires IsWalk(g, p) && Arc(g, Last(p), v)
    ensures IsWalk(g, p + [v]) && Last(p + [v]) == v
  {
    var q := p + [v];
    forall i | 0 <= i < |q| - 1 ensures Arc(g, q[i], q[i + 1]) {
      if i < |p| - 1 {
        assert Arc(g, p[i], p[i + 1]);
      }
    }
  }

  lemma SubWalk(g: Graph, p: seq<nat>, i: nat, j: nat)
    requires IsWalk(g, p) && i < j <= |p|
    ensures IsWalk(g, p[i..j])
  {
    forall k | 0 <= k < j - i - 1 ensures Arc(g, p[i..j][k], p[i..j][k + 1]) {
      assert Arc(g, p[i + k], p[i + k + 1]);
    }
  }

  function Below(n: nat): (r: set<nat>)
    ensures |r| == n && forall v: nat :: v in r <==> v < n
  {
    if n == 0 then {} else Below(n - 1) + {n - 1}
  }

  lemma {:induction false} Pigeonhole(p: seq<nat>, n: nat)
    requires forall i :: 0 <= i < |p| ==> p[i] < n
    requires forall i, j :: 0 <= i < j < |p| ==> p[i] != p[j]
    ensures |p| <= n
  {
    DistinctCount(p);
    SubsetSize(set i | 0 <= i < |p| :: p[i], Below(n));
  }

  lemma {:induction false} SubsetSize(a: set<nat>, b: set<nat>)
    requires a <= b
    ensures |a| <= |b|
  {
    if a != {} {
      var x :| x in a;
      SubsetSize(a - {x}, b - {x});
    }
  }

  lemma {:induction false} DistinctCount(p: seq<nat>)
    requires forall i, j :: 0 <= i < j < |p| ==> p[i] != p[j]
    ensures |set i | 0 <= i < |p| :: p[i]| == |p|
  {
    if |p| > 0 {
      var q := p[..|p| - 1];
      DistinctCount(q);
      assert (set i | 0 <= i < |p| :: p[i]) == (set i | 0 <= i < |q| :: q[i]) + {p[|p| - 1]};
    }
  }

  /** Without cycles a walk visits each node at most once, so it has fewer arcs than there are nodes. */
  lemma AcyclicWalkIsShort(g: Graph, p: seq<nat>)
    requires Acyclic(g) && IsWalk(g, p)
    ensures |p| <= g.n
  {
    forall i, j | 0 <= i < j < |p| ensures p[i] != p[j] {
      SubWalk(g, p, i, j + 1);
      assert p[i..j + 1][0] == p[i] && Last(p[i..j + 1]) == p[j];
    }
    Pigeonhole(p, g.n);
  }

  // ---- fixpoints ----------------------------------------------------------------

  lemma {:induction false} FixpointClimbs(g: Graph, rank: seq<nat>, p: seq<nat>)
    requires Fixpoint(g, rank) && IsWalk(g, p)
    ensures rank[Last(p)] >= rank[p[0]] + |p| - 1
  {
    if |p| > 1 {
      var q := p[..|p| - 1];
      SubWalk(g, p, 0, |p| - 1);
      assert p[0..|p| - 1] == q;
      FixpointClimbs(g, rank, q);
      assert Arc(g, p[|p| - 2], p[|p| - 2 + 1]);
    }
  }

  lemma FixpointIsLongest(g: Graph, rank: seq<nat>)
    requires Fixpoint(g, rank) && Sound(g, rank)
    ensures Longest(g, rank) && Acyclic(g)
  {
    forall p | IsWalk(g, p) ensures rank[Last(p)] >= rank[p[0]] + |p| - 1 {
      FixpointClimbs(g, rank, p);
    }
  }

  lemma LongestIsFixpoint(g: Graph, rank: seq<nat>)
    requires Longest(g, rank)
    ensures Fixpoint(g, rank)
  {
    forall u: nat, v: nat | Arc(g, u, v) ensures rank[v] >= rank[u] + 1 {
      assert Realized(g, u, rank[u]);
      var p :| IsWalk(g, p) && Last(p) == u && |p| - 1 == rank[u];
      ExtendWalk(g, p, v);
    }
  }

  /** What the loop leaves behind, and what it means: the fixpoint is reached just on acyclic input. */
  lemma Settles(g: Graph, rank: seq<nat>, passes: nat)
    requires Sound(g, rank) && passes >= g.n
    requires Fixpoint(g, rank) || Dominates(g, rank, passes)
    ensures Fixpoint(g, rank) <==> Acyclic(g)
    ensures Acyclic(g) ==> Longest(g, rank)
    ensures Dominates(g, rank, g.n)
  {
    if Fixpoint(g, rank) {
      FixpointIsLongest(g, rank);
    } else if Acyclic(g) {
      forall p | IsWalk(g, p) ensures rank[Last(p)] >= |p| - 1 {
        AcyclicWalkIsShort(g, p);
      }
      LongestIsFixpoint(g, rank);
    }
  }

  // ---- one pass --------------------------------------------------------------------

  /** The first `limit` edges have been relaxed at least against the ranks the pass started from. */
  ghost predicate Relaxed(g: Graph, limit: nat, start: seq<nat>, rank: seq<nat>) {
    && |start| == |rank| == g.n && limit <= |g.edges|
    && (forall v :: 0 <= v < |rank| ==> rank[v] >= start[v])
    && forall e, u: nat, v: nat ::
         0 <= e < limit && Resolves(g, g.edges[e], u, v) ==> rank[v] >= start[u] + 1
  }

  lemma PassExtends(g: Graph, start: seq<nat>, rank: seq<nat>, k: nat)
    requires Dominates(g, start, k) && Relaxed(g, |g.edges|, start, rank)
    ensures Dominates(g, rank, k + 1)
  {
    forall p | IsWalk(g, p) && |p| - 1 <= k + 1 ensures rank[Last(p)] >= |p| - 1 {
      if |p| > 1 {
        SubWalk(g, p, 0, |p| - 1);
        var q := p[0..|p| - 1];
        assert start[Last(q)] >= |q| - 1;
        assert Arc(g, p[|p| - 2], p[|p| - 2 + 1]);
        var e :| 0 <= e < |g.edges| && Resolves(g, g.edges[e], p[|p| - 2], p[|p| - 1]);
      }
    }
  }

  lemma RaiseIsSound(g: Graph, rank: seq<nat>, u: nat, v: nat)
    requires Sound(g, rank) && Arc(g, u, v)
    requires u < g.n && v < g.n
    ensures Sound(g, rank[v := rank[u] + 1])
  {
    assert Realized(g, u, rank[u]);
    var p :| IsWalk(g, p) && Last(p) == u && |p| - 1 == rank[u];
    ExtendWalk(g, p, v);
    assert Realized(g, v, rank[u] + 1);
  }

  /** The update an edge between `from` and `to` makes, if it makes one. */
  function Relax(rank: seq<nat>, from: nat, to: nat): seq<nat>
    requires from < |rank| && to < |rank|
  {
    if rank[to] < rank[from] + 1 then rank[to := rank[from] + 1] else rank
  }

  lemma RelaxedSkip(g: Graph, e: nat, start: seq<nat>, rank: seq<nat>)
    requires Relaxed(g, e, start, rank) && e < |g.edges|
    requires forall u: nat, v: nat :: !Resolves(g, g.edges[e], u, v)
    ensures Relaxed(g, e + 1, start, rank)
  {
  }

  lemma RelaxedStep(g: Graph, e: nat, start: seq<nat>, rank: seq<nat>, from: nat, to: nat)
    requires Relaxed(g, e, start, rank) && e < |g.edges|
    requires Resolves(g, g.edges[e], from, to)
    ensures Relaxed(g, e + 1, start, Relax(rank, from, to))
  {
    var next := Relax(rank, from, to);
    assert next[to] >= start[from] + 1;
    forall v | 0 <= v < |rank| ensures next[v] >= rank[v] {}
    forall d, u: nat, v: nat | 0 <= d < e + 1 && Resolves(g, g.edges[d], u, v)
      ensures next[v] >= start[u] + 1
    {
      if d < e {
        assert rank[v] >= start[u] + 1;
      }
    }
  }

  lemma RelaxIsSound(g: Graph, rank: seq<nat>, from: nat, to: nat)
    requires Sound(g, rank) && Arc(g, from, to) && from < g.n && to < g.n
    ensures Sound(g, Relax(rank, from, to))
  {
    RaiseIsSound(g, rank, from, to);
  }

  /** One sweep over the edges, updating `rank` in place. */
  method Pass(g: Graph, rank: array<nat>)
      returns (changed: bool)
    requires Valid(g) && Sound(g, rank[..])
    modifies rank
    ensures Sound(g, rank[..])
    ensures Relaxed(g, |g.edges|, old(rank[..]), rank[..])
    ensures !changed ==> rank[..] == old(rank[..])
  {
    changed := false;
    ghost var start := rank[..];
    for e := 0 to |g.edges|
      invariant Sound(g, rank[..])
      invariant Relaxed(g, e, start, rank[..])
      invariant !changed ==> rank[..] == start
    {
      ghost var before := rank[..];
      if g.edges[e].from in g.index && g.edges[e].to in g.index {
        var from, to := g.index[g.edges[e].from], g.index[g.edges[e].to];
        if from != to {
          assert Resolves(g, g.edges[e], from, to);
          assert Arc(g, from, to);
          RelaxedStep(g, e, start, before, from, to);
          RelaxIsSound(g, before, from, to);
          if rank[to] < rank[from] + 1 {
            rank[to] := rank[from] + 1;
            changed := true;
          }
          assert rank[..] == Relax(before, from, to);
        } else {
          RelaxedSkip(g, e, start, before);
        }
      } else {
        RelaxedSkip(g, e, start, before);
      }
    }
  }

  lemma ZeroIsSound(g: Graph, rank: seq<nat>)
    requires |rank| == g.n && forall v :: 0 <= v < g.n ==> rank[v] == 0
    ensures Sound(g, rank) && Dominates(g, rank, 0)
  {
    forall v: nat | v < g.n ensures Realized(g, v, rank[v]) {
      assert IsWalk(g, [v]) && Last([v]) == v;
    }
  }

  /** A pass that changed nothing has checked every edge against the ranks it kept. */
  lemma QuietPassIsFixpoint(g: Graph, rank: seq<nat>)
    requires Relaxed(g, |g.edges|, rank, rank)
    ensures Fixpoint(g, rank)
  {
  }

  method Relaxation(g: Graph) returns (rank: array<nat>)
    requires Valid(g)
    ensures Sound(g, rank[..]) && Dominates(g, rank[..], g.n)
    ensures Fixpoint(g, rank[..]) <==> Acyclic(g)
    ensures Acyclic(g) ==> Longest(g, rank[..])
  {
    rank := new nat[g.n](_ => 0);
    ZeroIsSound(g, rank[..]);
    var passes := if g.n > 1 then g.n else 1;
    var pass := 0;
    while pass < passes
      invariant pass <= passes
      invariant Sound(g, rank[..]) && Dominates(g, rank[..], pass)
    {
      ghost var start := rank[..];
      var changed := Pass(g, rank);
      PassExtends(g, start, rank[..], pass);
      if !changed {
        QuietPassIsFixpoint(g, rank[..]);
        break;
      }
      pass := pass + 1;
    }
    Settles(g, rank[..], passes);
  }

  /** `assignRanks`. */
  method AssignRanks(ids: seq<string>, edges: seq<Edge>) returns (rank: array<nat>)
    ensures var g := GraphOf(ids, edges);
            && Sound(g, rank[..]) && Dominates(g, rank[..], g.n)
            && (Fixpoint(g, rank[..]) <==> Acyclic(g))
            && (Acyclic(g) ==> Longest(g, rank[..]))
  {
    var index := BuildIndex(ids);
    rank := Relaxation(Graph(|ids|, index, edges));
  }
}
