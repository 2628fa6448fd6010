/**
 Where the lanes put their boxes (frontend/js/diagrams.js:304-366), as functions of the input, and what
 follows: boxes never crowd each other, and edges run forward.
*/
module LaneGeometry {
  import opened LayerRanks

  const GAP: real := 56.0
  const GROUP_PAD_X: real := 16.0
  const GROUP_PAD_TOP: real := 40.0
  const GROUP_PAD_BOTTOM: real := 18.0
  const GROUP_GAP: real := 18.0
  const FRAME_PAD: real := 32.0

  type Size = r: real | r > 0.0 witness 1.0

  datatype Pin = Free | Fixed(at: real)

  datatype Node = Node(id: string, group: string, width: Size, height: Size, pinX: Pin, pinY: Pin)

  function MaxReal(a: real, b: real): real { if a >= b then a else b }
  function MinReal(a: real, b: real): real { if a <= b then a else b }

  /** A node pinned on both axes takes no place in a lane. */
  predicate InFlow(n: Node) { n.pinX.Free? || n.pinY.Free? }

  predicate Unpinned(n: Node) { n.pinX.Free? && n.pinY.Free? }

  /** Extent along the flow of ranks, and across it. */
  function FlowSize(n: Node, horizontal: bool): Size { if horizontal then n.width else n.height }
  function SideSize(n: Node, horizontal: bool): Size { if horizontal then n.height else n.width }

  // ---- lanes --------------------------------------------------------------------

  ghost predicate InLane(lanes: seq<seq<nat>>, l: nat, k: nat, i: nat) {
    l < |lanes| && k < |lanes[l]| && lanes[l][k] == i
  }

  /** Indices below `n` of the in-flow nodes of rank `r`, ascending. */
  function LaneAt(nodes: seq<Node>, rank: seq<nat>, r: nat, n: nat): (lane: seq<nat>)
    requires |rank| == |nodes| && n <= |nodes|
    ensures forall k :: 0 <= k < |lane| ==> lane[k] < n && InFlow(nodes[lane[k]]) && rank[lane[k]] == r
    ensures forall k, j :: 0 <= k < j < |lane| ==> lane[k] < lane[j]
    ensures forall i: nat :: i < n && InFlow(nodes[i]) && rank[i] == r ==> i in lane
  {
    if n == 0 then []
    else
      var before := LaneAt(nodes, rank, r, n - 1);
      if InFlow(nodes[n - 1]) && rank[n - 1] == r then before + [n - 1] else before
  }

  ghost predicate Ascending(keys: seq<nat>) {
    forall a, b :: 0 <= a < b < |keys| ==> keys[a] < keys[b]
  }

  /** The nodes in the flow, split by rank, ranks ascending, input order within a rank. */
  ghost predicate IsLanes(nodes: seq<Node>, rank: seq<nat>, keys: seq<nat>, lanes: seq<seq<nat>>) {
    && |rank| == |nodes| && |lanes| == |keys| && Ascending(keys)
    && (forall l :: 0 <= l < |lanes| ==>
          lanes[l] == LaneAt(nodes, rank, keys[l], |nodes|) && lanes[l] != [])
    && forall i: nat :: i < |nodes| && InFlow(nodes[i]) ==> rank[i] in keys
  }

  lemma LaneMember(nodes: seq<Node>, rank: seq<nat>, keys: seq<nat>, lanes: seq<seq<nat>>, l: nat, k: nat)
    requires IsLanes(nodes, rank, keys, lanes) && l < |lanes| && k < |lanes[l]|
    ensures lanes[l][k] < |nodes| && InFlow(nodes[lanes[l][k]]) && rank[lanes[l][k]] == keys[l]
    ensures forall n :: k < n < |lanes[l]| ==> lanes[l][k] < lanes[l][n]
  {
  }

  /** No node sits in two places. */
  lemma LanesDisjoint(nodes: seq<Node>, rank: seq<nat>, keys: seq<nat>, lanes: seq<seq<nat>>,
                      l: nat, k: nat, m: nat, n: nat)
    requires IsLanes(nodes, rank, keys, lanes)
    requires l < |lanes| && k < |lanes[l]| && m < |lanes| && n < |lanes[m]|
    ensures lanes[l][k] == lanes[m][n] <==> l == m && k == n
  {
    LaneMember(nodes, rank, keys, lanes, l, k);
    LaneMember(nodes, rank, keys, lanes, m, n);
  }

  lemma Located(nodes: seq<Node>, rank: seq<nat>, keys: seq<nat>, lanes: seq<seq<nat>>, i: nat)
      returns (l: nat, k: nat)
    requires IsLanes(nodes, rank, keys, lanes) && i < |nodes| && InFlow(nodes[i])
    ensures InLane(lanes, l, k, i) && keys[l] == rank[i]
  {
    l :| 0 <= l < |keys| && keys[l] == rank[i];
    assert i in LaneAt(nodes, rank, rank[i], |nodes|);
    k :| 0 <= k < |lanes[l]| && lanes[l][k] == i;
  }

  function Insert(keys: seq<nat>, key: nat): (r: seq<nat>)
    ensures forall x :: x in r <==> x in keys || x == key
  {
    if |keys| == 0 || key < keys[0] then [key] + keys
    else [keys[0]] + Insert(keys[1..], key)
  }

  lemma {:induction false} InsertAscending(keys: seq<nat>, key: nat)
    requires Ascending(keys) && key !in keys
    ensures Ascending(Insert(keys, key))
  {
    if |keys| > 0 && key >= keys[0] {
      InsertAscending(keys[1..], key);
      var rest := Insert(keys[1..], key);
      forall b | 0 <= b < |rest| ensures keys[0] < rest[b] {
        assert rest[b] in rest;
      }
    }
  }

  /** `Array.from(lanes.keys()).sort((a, b) => a - b)`. */
  method SortKeys(unsorted: set<nat>) returns (keys: seq<nat>)
    ensures Ascending(keys) && forall r :: r in keys <==> r in unsorted
  {
    keys := [];
    var rest := unsorted;
    while rest != {}
      invariant rest <= unsorted && Ascending(keys)
      invariant forall r :: r in keys <==> r in unsorted - rest
      decreases |rest|
    {
      var r :| r in rest;
      InsertAscending(keys, r);
      keys := Insert(keys, r);
      rest := rest - {r};
    }
  }

  /** The `lanes` map after the first `n` nodes. */
  ghost predicate LaneMap(nodes: seq<Node>, rank: seq<nat>, byRank: map<nat, seq<nat>>, n: nat) {
    && |rank| == |nodes| && n <= |nodes|
    && (forall r: nat :: r in byRank ==> byRank[r] == LaneAt(nodes, rank, r, n) && byRank[r] != [])
    && (forall r: nat :: r !in byRank ==> LaneAt(nodes, rank, r, n) == [])
  }

  function PushToLane(byRank: map<nat, seq<nat>>, r: nat, i: nat): map<nat, seq<nat>> {
    byRank[r := (if r in byRank then byRank[r] else []) + [i]]
  }

  lemma LaneMapPush(nodes: seq<Node>, rank: seq<nat>, byRank: map<nat, seq<nat>>, n: nat)
    requires n < |nodes| && LaneMap(nodes, rank, byRank, n) && InFlow(nodes[n])
    ensures LaneMap(nodes, rank, PushToLane(byRank, rank[n], n), n + 1)
  {
    var next := PushToLane(byRank, rank[n], n);
    forall r: nat
      ensures if r in next then next[r] == LaneAt(nodes, rank, r, n + 1) && next[r] != []
              else LaneAt(nodes, rank, r, n + 1) == []
    {
      LaneAtNext(nodes, rank, r, n);
      if r != rank[n] {
        assert r in next <==> r in byRank;
      }
    }
  }

  lemma LaneMapSkip(nodes: seq<Node>, rank: seq<nat>, byRank: map<nat, seq<nat>>, n: nat)
    requires n < |nodes| && LaneMap(nodes, rank, byRank, n) && !InFlow(nodes[n])
    ensures LaneMap(nodes, rank, byRank, n + 1)
  {
    forall r: nat ensures LaneAt(nodes, rank, r, n + 1) == LaneAt(nodes, rank, r, n) {
      LaneAtNext(nodes, rank, r, n);
    }
  }

  lemma LaneAtNext(nodes: seq<Node>, rank: seq<nat>, r: nat, n: nat)
    requires |rank| == |nodes| && n < |nodes|
    ensures LaneAt(nodes, rank, r, n + 1)
         == if InFlow(nodes[n]) && rank[n] == r then LaneAt(nodes, rank, r, n) + [n]
            else LaneAt(nodes, rank, r, n)
  {
  }

  /** The `lanes` map and its keys in ascending order. */
  method BuildLanes(nodes: seq<Node>, rank: seq<nat>) returns (keys: seq<nat>, lanes: seq<seq<nat>>)
    requires |rank| == |nodes|
    ensures IsLanes(nodes, rank, keys, lanes)
  {
    var byRank: map<nat, seq<nat>> := map[];
    for i := 0 to |nodes|
      invariant LaneMap(nodes, rank, byRank, i)
    {
      if InFlow(nodes[i]) {
        LaneMapPush(nodes, rank, byRank, i);
        byRank := PushToLane(byRank, rank[i], i);
      } else {
        LaneMapSkip(nodes, rank, byRank, i);
      }
    }
    keys := SortKeys(byRank.Keys);
    lanes := seq(|keys|, l requires 0 <= l < |keys| && keys[l] in byRank => byRank[keys[l]]);
    forall i: nat | i < |nodes| && InFlow(nodes[i]) ensures rank[i] in keys {
      assert i in LaneAt(nodes, rank, rank[i], |nodes|);
    }
  }

  // ---- coordinates of a lane ------------------------------------------------------

  ghost predicate Indices(nodes: seq<Node>, lane: seq<nat>) {
    forall k :: 0 <= k < |lane| ==> lane[k] < |nodes|
  }

  /** Largest extent along the flow in a lane. */
  function Thickness(nodes: seq<Node>, lane: seq<nat>, horizontal: bool): (r: real)
    requires Indices(nodes, lane)
    ensures r >= 0.0
    ensures forall k :: 0 <= k < |lane| ==> r >= FlowSize(nodes[lane[k]], horizontal)
  {
    if |lane| == 0 then 0.0
    else MaxReal(Thickness(nodes, lane[..|lane| - 1], horizontal), FlowSize(nodes[lane[|lane| - 1]], horizontal))
  }

  /** Where the lane's running cursor stands before its `k`-th box. */
  function Cursor(nodes: seq<Node>, lane: seq<nat>, horizontal: bool, k: nat): real
    requires Indices(nodes, lane) && k <= |lane|
  {
    if k == 0 then 0.0
    else Cursor(nodes, lane, horizontal, k - 1) + (SideSize(nodes[lane[k - 1]], horizontal) + GAP)
  }

  /** The cursor positions of a whole lane. */
  function Cursors(nodes: seq<Node>, lane: seq<nat>, horizontal: bool): (r: seq<real>)
    requires Indices(nodes, lane)
    ensures |r| == |lane|
  {
    seq(|lane|, k requires 0 <= k < |lane| => Cursor(nodes, lane, horizontal, k))
  }

  function TotalSide(nodes: seq<Node>, lane: seq<nat>, horizontal: bool): real
    requires Indices(nodes, lane)
  {
    if |lane| == 0 then 0.0
    else TotalSide(nodes, lane[..|lane| - 1], horizontal) + SideSize(nodes[lane[|lane| - 1]], horizontal)
  }

  function LaneLength(nodes: seq<Node>, lane: seq<nat>, horizontal: bool): real
    requires Indices(nodes, lane)
  {
    TotalSide(nodes, lane, horizontal) + GAP * ((|lane| - 1) as real)
  }

  predicate HasGroup(nodes: seq<Node>, lane: seq<nat>)
    requires Indices(nodes, lane)
  {
    exists k :: 0 <= k < |lane| && nodes[lane[k]].group != ""
  }

  ghost predicate AllIndices(nodes: seq<Node>, lanes: seq<seq<nat>>) {
    forall l :: 0 <= l < |lanes| ==> Indices(nodes, lanes[l])
  }

  lemma LanesIndex(nodes: seq<Node>, rank: seq<nat>, keys: seq<nat>, lanes: seq<seq<nat>>)
    requires IsLanes(nodes, rank, keys, lanes)
    ensures AllIndices(nodes, lanes)
  {
    forall l, k | 0 <= l < |lanes| && 0 <= k < |lanes[l]| ensures lanes[l][k] < |nodes| {
      LaneMember(nodes, rank, keys, lanes, l, k);
    }
  }

  /** The gap behind lane `l`: wider when a group frame may end there. */
  function PairGap(nodes: seq<Node>, lanes: seq<seq<nat>>, l: nat): (r: real)
    requires AllIndices(nodes, lanes) && l < |lanes|
    ensures r >= GAP
  {
    if HasGroup(nodes, lanes[l]) || (l + 1 < |lanes| && HasGroup(nodes, lanes[l + 1]))
    then MaxReal(GAP, GROUP_PAD_TOP + GROUP_PAD_BOTTOM + GROUP_GAP)
    else GAP
  }

  /** What the flow cursor has reached before lane `l` is looked at. */
  function FlowBefore(nodes: seq<Node>, lanes: seq<seq<nat>>, horizontal: bool, l: nat): real
    requires AllIndices(nodes, lanes) && l <= |lanes|
    decreases l, 0
  {
    if l == 0 then 0.0
    else FlowOf(nodes, lanes, horizontal, l - 1)
         + (Thickness(nodes, lanes[l - 1], horizontal) + PairGap(nodes, lanes, l - 1))
  }

  /** The flow coordinate of every box of lane `l`. */
  function FlowOf(nodes: seq<Node>, lanes: seq<seq<nat>>, horizontal: bool, l: nat): real
    requires AllIndices(nodes, lanes) && l < |lanes|
    decreases l, 1
  {
    MaxReal(FlowBefore(nodes, lanes, horizontal, l), Thickness(nodes, lanes[l], horizontal))
  }

  /** The span every lane is centred in. */
  function Span(nodes: seq<Node>, lanes: seq<seq<nat>>, horizontal: bool): real
    requires AllIndices(nodes, lanes)
  {
    var n := |lanes|;
    MaxReal(0.0, FlowBefore(nodes, lanes, horizontal, n)
                 - if n == 0 then GAP else PairGap(nodes, lanes, n - 1))
  }

  function Centering(nodes: seq<Node>, lanes: seq<seq<nat>>, horizontal: bool, l: nat): real
    requires AllIndices(nodes, lanes) && l < |lanes|
  {
    (Span(nodes, lanes, horizontal) - LaneLength(nodes, lanes[l], horizontal)) / 2.0
  }

  /** Flow coordinates of the lanes, and the two stages of their boxes' side coordinates. */
  function FlowTable(nodes: seq<Node>, lanes: seq<seq<nat>>, horizontal: bool): (r: seq<real>)
    requires AllIndices(nodes, lanes)
    ensures |r| == |lanes|
  {
    seq(|lanes|, l requires 0 <= l < |lanes| => FlowOf(nodes, lanes, horizontal, l))
  }

  function CursorTable(nodes: seq<Node>, lanes: seq<seq<nat>>, horizontal: bool): (r: seq<seq<real>>)
    requires AllIndices(nodes, lanes)
    ensures |r| == |lanes| && forall l :: 0 <= l < |lanes| ==> |r[l]| == |lanes[l]|
  {
    seq(|lanes|, l requires 0 <= l < |lanes| => Cursors(nodes, lanes[l], horizontal))
  }

  function Shifted(s: seq<real>, amount: real): (r: seq<real>)
    ensures |r| == |s| && forall k :: 0 <= k < |r| ==> r[k] == s[k] + amount
  {
    seq(|s|, k requires 0 <= k < |s| => s[k] + amount)
  }

  function SideTable(nodes: seq<Node>, lanes: seq<seq<nat>>, horizontal: bool): (r: seq<seq<real>>)
    requires AllIndices(nodes, lanes)
    ensures |r| == |lanes| && forall l :: 0 <= l < |lanes| ==> |r[l]| == |lanes[l]|
  {
    seq(|lanes|, l requires 0 <= l < |lanes| =>
      Shifted(Cursors(nodes, lanes[l], horizontal), Centering(nodes, lanes, horizontal, l)))
  }

  lemma TableEntries(nodes: seq<Node>, lanes: seq<seq<nat>>, horizontal: bool, l: nat)
    requires AllIndices(nodes, lanes) && l < |lanes|
    ensures FlowTable(nodes, lanes, horizontal)[l] == FlowOf(nodes, lanes, horizontal, l)
    ensures CursorTable(nodes, lanes, horizontal)[l] == Cursors(nodes, lanes[l], horizontal)
    ensures SideTable(nodes, lanes, horizontal)[l]
         == Shifted(CursorTable(nodes, lanes, horizontal)[l], Centering(nodes, lanes, horizontal, l))
  {
  }

  // ---- separation -------------------------------------------------------------------

  lemma {:induction false} FlowSeparates(nodes: seq<Node>, lanes: seq<seq<nat>>, horizontal: bool, l: nat, m: nat)
    requires AllIndices(nodes, lanes) && l < m < |lanes|
    ensures FlowOf(nodes, lanes, horizontal, m)
         >= FlowOf(nodes, lanes, horizontal, l) + Thickness(nodes, lanes[l], horizontal) + GAP
  {
    if l < m - 1 {
      FlowSeparates(nodes, lanes, horizontal, l, m - 1);
    }
  }

  lemma {:induction false} CursorSeparates(nodes: seq<Node>, lane: seq<nat>, horizontal: bool, k: nat, n: nat)
    requires Indices(nodes, lane) && k < n <= |lane|
    ensures Cursor(nodes, lane, horizontal, n)
         >= Cursor(nodes, lane, horizontal, k) + SideSize(nodes[lane[k]], horizontal) + GAP
  {
    if k < n - 1 {
      CursorSeparates(nodes, lane, horizontal, k, n - 1);
    }
  }

  /** A flow and a side coordinate for every node. */
  type Placement = nat -> (real, real)

  /** The placement two coordinate sequences stand for. */
  function Spot(flows: seq<real>, sides: seq<real>): Placement {
    (i: nat) => if i < |flows| && i < |sides| then (flows[i], sides[i]) else (0.0, 0.0)
  }

  /** Whether the box is free to move along the flow, and across it. */
  predicate FlowFree(n: Node, horizontal: bool) { if horizontal then n.pinX.Free? else n.pinY.Free? }
  predicate SideFree(n: Node, horizontal: bool) { if horizontal then n.pinY.Free? else n.pinX.Free? }

  /** Boxes stand where the lanes put them on each axis that is not pinned, up to one common shift of the drawing. */
  ghost predicate Follows(at: Placement, nodes: seq<Node>, lanes: seq<seq<nat>>, horizontal: bool,
                          crosses: seq<real>, across: seq<seq<real>>, flow: real, side: real) {
    && |crosses| == |across| == |lanes|
    && (forall l :: 0 <= l < |lanes| ==> |across[l]| == |lanes[l]|)
    && forall l: nat, k: nat, i: nat :: InLane(lanes, l, k, i) && i < |nodes| ==>
         && (FlowFree(nodes[i], horizontal) ==> at(i).0 == crosses[l] + flow)
         && (SideFree(nodes[i], horizontal) ==> at(i).1 == across[l][k] + side)
  }

  lemma UnpinnedFollows(at: Placement, nodes: seq<Node>, lanes: seq<seq<nat>>, horizontal: bool,
                        crosses: seq<real>, across: seq<seq<real>>, flow: real, side: real, l: nat, k: nat)
    requires Follows(at, nodes, lanes, horizontal, crosses, across, flow, side)
    requires l < |lanes| && k < |lanes[l]| && lanes[l][k] < |nodes| && Unpinned(nodes[lanes[l][k]])
    ensures |crosses| == |across| == |lanes| && |across[l]| == |lanes[l]|
    ensures at(lanes[l][k]) == (crosses[l] + flow, across[l][k] + side)
  {
    assert InLane(lanes, l, k, lanes[l][k]);
  }

  /** `a` ends at least the node gap before `b` starts. */
  predicate Before(a: real, size: real, b: real) { a + size + 56.0 <= b }

  /** On one of the two axes there is at least the node gap between the boxes. */
  predicate Clear(at: Placement, nodes: seq<Node>, horizontal: bool, i: nat, j: nat)
    requires i < |nodes| && j < |nodes|
  {
    || Before(at(i).0, FlowSize(nodes[i], horizontal), at(j).0)
    || Before(at(j).0, FlowSize(nodes[j], horizontal), at(i).0)
    || Before(at(i).1, SideSize(nodes[i], horizontal), at(j).1)
    || Before(at(j).1, SideSize(nodes[j], horizontal), at(i).1)
  }

  /** Lanes keep every two boxes apart, wherever the whole drawing is moved to. */
  lemma {:induction false} BoxesClear(at: Placement, nodes: seq<Node>, rank: seq<nat>, keys: seq<nat>,
                   lanes: seq<seq<nat>>, horizontal: bool, flow: real, side: real, i: nat, j: nat)
    requires IsLanes(nodes, rank, keys, lanes) && AllIndices(nodes, lanes)
    requires Follows(at, nodes, lanes, horizontal, FlowTable(nodes, lanes, horizontal),
                     SideTable(nodes, lanes, horizontal), flow, side)
    requires i < |nodes| && j < |nodes| && i != j && Unpinned(nodes[i]) && Unpinned(nodes[j])
    ensures Clear(at, nodes, horizontal, i, j)
  {
    var l, k := Located(nodes, rank, keys, lanes, i);
    var m, n := Located(nodes, rank, keys, lanes, j);
    if l <= m && (l == m ==> k < n) {
      LaterBoxClear(at, nodes, lanes, horizontal, flow, side, l, k, m, n);
    } else {
      LaterBoxClear(at, nodes, lanes, horizontal, flow, side, m, n, l, k);
    }
  }

  lemma {:induction false} LaterBoxClear(at: Placement, nodes: seq<Node>, lanes: seq<seq<nat>>, horizontal: bool,
                      flow: real, side: real, l: nat, k: nat, m: nat, n: nat)
    requires AllIndices(nodes, lanes) && Follows(at, nodes, lanes, horizontal, FlowTable(nodes, lanes, horizontal),
                     SideTable(nodes, lanes, horizontal), flow, side)
    requires l <= m < |lanes| && k < |lanes[l]| && n < |lanes[m]| && (l == m ==> k < n)
    requires Unpinned(nodes[lanes[l][k]]) && Unpinned(nodes[lanes[m][n]])
    ensures Clear(at, nodes, horizontal, lanes[l][k], lanes[m][n])
  {
    var i, j := lanes[l][k], lanes[m][n];
    assert InLane(lanes, l, k, i) && InLane(lanes, m, n, j);
    TableEntries(nodes, lanes, horizontal, l);
    TableEntries(nodes, lanes, horizontal, m);
    if l < m {
      FlowSeparates(nodes, lanes, horizontal, l, m);
      assert Before(at(i).0, FlowSize(nodes[i], horizontal), at(j).0);
    } else {
      CursorSeparates(nodes, lanes[l], horizontal, k, n);
      assert Before(at(i).1, SideSize(nodes[i], horizontal), at(j).1);
    }
  }

  /** On an acyclic graph every arc ends at least the gap behind where it starts, along the flow. */
  lemma ArcsRunForward(at: Placement, nodes: seq<Node>, g: Graph, rank: seq<nat>, keys: seq<nat>,
                       lanes: seq<seq<nat>>, horizontal: bool, flow: real, side: real, u: nat, v: nat)
    requires IsLanes(nodes, rank, keys, lanes) && AllIndices(nodes, lanes) && g.n == |nodes|
    requires Fixpoint(g, rank) && Arc(g, u, v)
    requires Follows(at, nodes, lanes, horizontal, FlowTable(nodes, lanes, horizontal),
                     SideTable(nodes, lanes, horizontal), flow, side)
    requires u < |nodes| && v < |nodes| && Unpinned(nodes[u]) && Unpinned(nodes[v])
    ensures Before(at(u).0, FlowSize(nodes[u], horizontal), at(v).0)
  {
    hide FlowTable, SideTable, AllIndices;
    var l, k := Located(nodes, rank, keys, lanes, u);
    var m, n := Located(nodes, rank, keys, lanes, v);
    assert l < m;
    TableEntries(nodes, lanes, horizontal, l);
    TableEntries(nodes, lanes, horizontal, m);
    FlowSeparates(nodes, lanes, horizontal, l, m);
  }
}
