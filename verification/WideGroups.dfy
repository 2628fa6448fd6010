/**
 Frames of groups that span several ranks (frontend/js/diagrams.js:304-450). Whether two of them are clear
 of one another before the sweep can be read off ranks and lanes: the ranks of one lie before those of the
 other, or the boxes of one lie beside those of the other, paddings included, in whatever lanes they are.
*/
module WideGroups {
  import opened LaneGeometry
  import opened GroupFrames
  import opened FrameSpacing

  /** No box of a framed group is pinned. */
  ghost predicate Floating(nodes: seq<Node>, ids: seq<string>) {
    forall i: nat :: i < |nodes| && nodes[i].group in ids ==> Unpinned(nodes[i])
  }

  ghost predicate GroupFloats(nodes: seq<Node>, id: string) {
    forall i: nat :: Member(nodes, id, i) ==> Unpinned(nodes[i])
  }

  /** All of `a` is in earlier ranks than all of `b`. */
  ghost predicate RanksBelow(nodes: seq<Node>, rank: seq<nat>, a: string, b: string)
    requires |rank| == |nodes|
  {
    forall i: nat, j: nat :: Member(nodes, a, i) && Member(nodes, b, j) ==> rank[i] < rank[j]
  }

  /** Where the lanes put a box across the flow, before the common shift. */
  function LaneSide(nodes: seq<Node>, lanes: seq<seq<nat>>, horizontal: bool, l: nat, k: nat): real
    requires AllIndices(nodes, lanes) && l < |lanes| && k < |lanes[l]|
  {
    Cursor(nodes, lanes[l], horizontal, k) + Centering(nodes, lanes, horizontal, l)
  }

  function SidePads(horizontal: bool): real { SideFarPad(horizontal) + SideNearPad(horizontal) }

  /** Across the flow all of `a` ends before all of `b` starts, with room for the paddings of both frames. */
  ghost predicate Beside(nodes: seq<Node>, lanes: seq<seq<nat>>, horizontal: bool, a: string, b: string)
    requires AllIndices(nodes, lanes)
  {
    forall l: nat, k: nat, m: nat, n: nat ::
      l < |lanes| && k < |lanes[l]| && m < |lanes| && n < |lanes[m]|
      && Member(nodes, a, lanes[l][k]) && Member(nodes, b, lanes[m][n]) ==>
        LaneSide(nodes, lanes, horizontal, l, k) + SideSize(nodes[lanes[l][k]], horizontal) + SidePads(horizontal)
        <= LaneSide(nodes, lanes, horizontal, m, n)
  }

  ghost predicate Apart(nodes: seq<Node>, rank: seq<nat>, lanes: seq<seq<nat>>, horizontal: bool, a: string, b: string)
    requires |rank| == |nodes| && AllIndices(nodes, lanes)
  {
    || RanksBelow(nodes, rank, a, b) || RanksBelow(nodes, rank, b, a)
    || Beside(nodes, lanes, horizontal, a, b) || Beside(nodes, lanes, horizontal, b, a)
  }

  /** Every two framed groups are apart in ranks or beside one another in their lanes. */
  ghost predicate Spread(nodes: seq<Node>, rank: seq<nat>, lanes: seq<seq<nat>>, horizontal: bool, ids: seq<string>)
    requires |rank| == |nodes| && AllIndices(nodes, lanes)
  {
    forall p: nat, q: nat :: p < |ids| && q < |ids| && p != q ==>
      Apart(nodes, rank, lanes, horizontal, ids[p], ids[q])
  }

  // ---- boxes in their lanes ------------------------------------------------------------------------

  /** An unpinned box, its place in the lanes, and its coordinates there. */
  lemma BoxPlace(nodes: seq<Node>, rank: seq<nat>, keys: seq<nat>, lanes: seq<seq<nat>>, horizontal: bool,
                 flows: seq<real>, sides: seq<real>, flow: real, side: real, i: nat) returns (l: nat, k: nat)
    requires Laid(nodes, rank, keys, lanes, horizontal, flows, sides, flow, side)
    requires i < |nodes| && Unpinned(nodes[i])
    ensures |flows| == |sides| == |nodes| == |rank| && |keys| == |lanes| && AllIndices(nodes, lanes)
    ensures InLane(lanes, l, k, i) && keys[l] == rank[i]
    ensures flows[i] == FlowOf(nodes, lanes, horizontal, l) + flow
    ensures sides[i] == LaneSide(nodes, lanes, horizontal, l, k) + side
  {
    l, k := Located(nodes, rank, keys, lanes, i);
    LaidRows(nodes, rank, keys, lanes, horizontal, flows, sides, flow, side, l);
  }

  /** Boxes of later ranks stand no earlier, and behind grouped boxes of earlier ranks there is room for two frames. */
  lemma RanksAlongFlow(nodes: seq<Node>, rank: seq<nat>, keys: seq<nat>, lanes: seq<seq<nat>>, horizontal: bool,
                       flows: seq<real>, sides: seq<real>, flow: real, side: real, i: nat, j: nat)
    requires Laid(nodes, rank, keys, lanes, horizontal, flows, sides, flow, side)
    requires i < |nodes| && j < |nodes| && Unpinned(nodes[i]) && Unpinned(nodes[j])
    ensures |flows| == |nodes| == |rank|
    ensures rank[i] <= rank[j] ==> flows[i] <= flows[j]
    ensures rank[i] < rank[j] && (nodes[i].group != "" || nodes[j].group != "") ==>
              flows[i] + FlowSize(nodes[i], horizontal) + (FarPad(horizontal) + GROUP_GAP + NearPad(horizontal))
              <= flows[j]
  {
    hide FlowOf, Thickness, Laid, LaneSide, IsLanes;
    var l, k := BoxPlace(nodes, rank, keys, lanes, horizontal, flows, sides, flow, side, i);
    var m, n := BoxPlace(nodes, rank, keys, lanes, horizontal, flows, sides, flow, side, j);
    KeysAscend(nodes, rank, keys, lanes, horizontal, flows, sides, flow, side, l, m);
    KeysAscend(nodes, rank, keys, lanes, horizontal, flows, sides, flow, side, m, l);
    if l < m {
      FlowSeparates(nodes, lanes, horizontal, l, m);
      FitsLane(nodes, lanes, horizontal, l, k);
      if nodes[i].group != "" || nodes[j].group != "" {
        assert nodes[lanes[l][k]].group != "" || nodes[lanes[m][n]].group != "";
        FrameRoom(nodes, lanes, horizontal, l, m);
      }
    }
  }

  lemma KeysAscend(nodes: seq<Node>, rank: seq<nat>, keys: seq<nat>, lanes: seq<seq<nat>>, horizontal: bool,
                   flows: seq<real>, sides: seq<real>, flow: real, side: real, l: nat, m: nat)
    requires Laid(nodes, rank, keys, lanes, horizontal, flows, sides, flow, side) && l < |lanes| && m < |lanes|
    ensures |keys| == |lanes|
    ensures keys[l] < keys[m] <==> l < m
  {
    hide Follows, FlowTable, SideTable, LaneAt, AllIndices;
  }

  lemma FitsLane(nodes: seq<Node>, lanes: seq<seq<nat>>, horizontal: bool, l: nat, k: nat)
    requires AllIndices(nodes, lanes) && l < |lanes| && k < |lanes[l]|
    ensures 0.0 <= FlowSize(nodes[lanes[l][k]], horizontal) <= Thickness(nodes, lanes[l], horizontal)
  {
  }

  // ---- two frames along the flow -----------------------------------------------------------------------

  /** `f` ends the group gap before `g` starts, along the flow. */
  ghost predicate Ahead(f: Frame, g: Frame, horizontal: bool) {
    Main(f, horizontal) + MainSize(f, horizontal) + GROUP_GAP <= Main(g, horizontal)
  }

  /** Members at the far edge of `f` and at the near edge of `g`, along the flow. */
  lemma FlowEdges(nodes: seq<Node>, flows: seq<real>, sides: seq<real>, horizontal: bool, f: Frame, g: Frame)
      returns (i: nat, j: nat)
    requires Encloses(nodes, flows, sides, horizontal, f) && Encloses(nodes, flows, sides, horizontal, g)
    ensures Member(nodes, f.id, i) && Member(nodes, g.id, j) && |flows| == |nodes|
    ensures Ahead(f, g, horizontal) <==>
              flows[i] + FlowSize(nodes[i], horizontal) + (FarPad(horizontal) + GROUP_GAP + NearPad(horizontal))
              <= flows[j]
    ensures forall k: nat :: Member(nodes, f.id, k) ==>
              flows[k] + FlowSize(nodes[k], horizontal) <= flows[i] + FlowSize(nodes[i], horizontal)
    ensures forall k: nat :: Member(nodes, g.id, k) ==> flows[j] <= flows[k]
  {
    i :| Member(nodes, f.id, i) && flows[i] + Extent(nodes[i], horizontal)
           == Main(f, horizontal) + MainSize(f, horizontal) - FarPad(horizontal);
    j :| Member(nodes, g.id, j) && flows[j] == Main(g, horizontal) + NearPad(horizontal);
  }

  lemma BelowDiffers(nodes: seq<Node>, rank: seq<nat>, a: string, b: string, i: nat)
    requires |rank| == |nodes| && RanksBelow(nodes, rank, a, b) && Member(nodes, a, i)
    ensures a != b
  {
  }

  /** Along the flow two frames are apart exactly when the ranks of their groups are. */
  lemma AheadIsBelow(nodes: seq<Node>, rank: seq<nat>, keys: seq<nat>, lanes: seq<seq<nat>>, horizontal: bool,
                     flows: seq<real>, sides: seq<real>, flow: real, side: real, f: Frame, g: Frame)
    requires Laid(nodes, rank, keys, lanes, horizontal, flows, sides, flow, side) && |rank| == |nodes|
    requires GroupFloats(nodes, f.id) && GroupFloats(nodes, g.id)
    requires Encloses(nodes, flows, sides, horizontal, f) && Encloses(nodes, flows, sides, horizontal, g)
    ensures Ahead(f, g, horizontal) <==> RanksBelow(nodes, rank, f.id, g.id)
  {
    hide Laid, Encloses, Ahead;
    var i, j := FlowEdges(nodes, flows, sides, horizontal, f, g);
    if RanksBelow(nodes, rank, f.id, g.id) {
      assert rank[i] < rank[j];
      BelowDiffers(nodes, rank, f.id, g.id, i);
      RanksAlongFlow(nodes, rank, keys, lanes, horizontal, flows, sides, flow, side, i, j);
    }
    if Ahead(f, g, horizontal) {
      forall k: nat, n: nat | Member(nodes, f.id, k) && Member(nodes, g.id, n) ensures rank[k] < rank[n] {
        RanksAlongFlow(nodes, rank, keys, lanes, horizontal, flows, sides, flow, side, n, k);
        PositiveSize(nodes[k], horizontal);
      }
    }
  }

  lemma PositiveSize(n: Node, horizontal: bool)
    ensures FlowSize(n, horizontal) + (FarPad(horizontal) + GROUP_GAP + NearPad(horizontal)) > 0.0
  {
  }

  // ---- two frames across the flow -------------------------------------------------------------------------

  /** Across the flow one frame ends before the other starts exactly when the boxes leave room for the paddings. */
  lemma BehindIsBeside(nodes: seq<Node>, rank: seq<nat>, keys: seq<nat>, lanes: seq<seq<nat>>, horizontal: bool,
                       flows: seq<real>, sides: seq<real>, flow: real, side: real, f: Frame, g: Frame)
    requires Laid(nodes, rank, keys, lanes, horizontal, flows, sides, flow, side) && AllIndices(nodes, lanes)
    requires GroupFloats(nodes, f.id) && GroupFloats(nodes, g.id)
    requires Encloses(nodes, flows, sides, horizontal, f) && Encloses(nodes, flows, sides, horizontal, g)
    ensures Behind(f, g, horizontal) <==> Beside(nodes, lanes, horizontal, f.id, g.id)
  {
    hide Laid, Encloses, Behind, LaneSide;
    var i, j := EdgeMembers(nodes, flows, sides, horizontal, f, g);
    if Beside(nodes, lanes, horizontal, f.id, g.id) {
      var l, k := BoxPlace(nodes, rank, keys, lanes, horizontal, flows, sides, flow, side, i);
      var m, n := BoxPlace(nodes, rank, keys, lanes, horizontal, flows, sides, flow, side, j);
      assert lanes[l][k] == i && lanes[m][n] == j;
    }
    if Behind(f, g, horizontal) {
      forall l: nat, k: nat, m: nat, n: nat
        | l < |lanes| && k < |lanes[l]| && m < |lanes| && n < |lanes[m]|
          && Member(nodes, f.id, lanes[l][k]) && Member(nodes, g.id, lanes[m][n])
        ensures LaneSide(nodes, lanes, horizontal, l, k) + SideSize(nodes[lanes[l][k]], horizontal)
                  + SidePads(horizontal) <= LaneSide(nodes, lanes, horizontal, m, n)
      {
        PlaceIs(nodes, rank, keys, lanes, horizontal, flows, sides, flow, side, l, k);
        PlaceIs(nodes, rank, keys, lanes, horizontal, flows, sides, flow, side, m, n);
      }
    }
  }

  lemma PlaceIs(nodes: seq<Node>, rank: seq<nat>, keys: seq<nat>, lanes: seq<seq<nat>>, horizontal: bool,
                flows: seq<real>, sides: seq<real>, flow: real, side: real, l: nat, k: nat)
    requires Laid(nodes, rank, keys, lanes, horizontal, flows, sides, flow, side) && AllIndices(nodes, lanes)
    requires l < |lanes| && k < |lanes[l]| && Unpinned(nodes[lanes[l][k]])
    ensures |sides| == |nodes| && sides[lanes[l][k]] == LaneSide(nodes, lanes, horizontal, l, k) + side
  {
    hide Cursor, Centering, FlowOf, Laid, AllIndices, IsRankLane;
    LaidRows(nodes, rank, keys, lanes, horizontal, flows, sides, flow, side, l);
  }

  // ---- all frames -------------------------------------------------------------------------------------------

  lemma ClearWays(f: Frame, g: Frame, horizontal: bool)
    requires CrossSize(f, horizontal) > 0.0 && CrossSize(g, horizontal) > 0.0
    ensures FramesClear(f, g, horizontal) <==>
              || Ahead(f, g, horizontal) || Ahead(g, f, horizontal)
              || Behind(f, g, horizontal) || Behind(g, f, horizontal)
  {
  }

  lemma WidePair(nodes: seq<Node>, rank: seq<nat>, keys: seq<nat>, lanes: seq<seq<nat>>, horizontal: bool,
                 flows: seq<real>, sides: seq<real>, flow: real, side: real, f: Frame, g: Frame)
    requires Laid(nodes, rank, keys, lanes, horizontal, flows, sides, flow, side)
    requires |rank| == |nodes| && AllIndices(nodes, lanes)
    requires GroupFloats(nodes, f.id) && GroupFloats(nodes, g.id)
    requires Encloses(nodes, flows, sides, horizontal, f) && Encloses(nodes, flows, sides, horizontal, g)
    ensures FramesClear(f, g, horizontal) <==> Apart(nodes, rank, lanes, horizontal, f.id, g.id)
  {
    hide Laid, Encloses, Ahead, Behind, FramesClear, RanksBelow, Beside, GroupFloats;
    EnclosingSizes(nodes, flows, sides, horizontal, f);
    EnclosingSizes(nodes, flows, sides, horizontal, g);
    assert SideNearPad(horizontal) > 0.0 && SideFarPad(horizontal) > 0.0;
    ClearWays(f, g, horizontal);
    AheadIsBelow(nodes, rank, keys, lanes, horizontal, flows, sides, flow, side, f, g);
    AheadIsBelow(nodes, rank, keys, lanes, horizontal, flows, sides, flow, side, g, f);
    BehindIsBeside(nodes, rank, keys, lanes, horizontal, flows, sides, flow, side, f, g);
    BehindIsBeside(nodes, rank, keys, lanes, horizontal, flows, sides, flow, side, g, f);
  }

  /**
   When no box of a framed group is pinned, the frames are clear of one another from the start exactly when
   every two groups are apart in ranks or beside one another, whatever ranks they span.
  */
  lemma SpreadFrames(nodes: seq<Node>, rank: seq<nat>, keys: seq<nat>, lanes: seq<seq<nat>>, horizontal: bool,
                     flows: seq<real>, sides: seq<real>, flow: real, side: real, ids: seq<string>, frames: seq<Frame>)
    requires Laid(nodes, rank, keys, lanes, horizontal, flows, sides, flow, side) && Floating(nodes, ids)
    requires |rank| == |nodes| && AllIndices(nodes, lanes)
    requires |frames| == |ids| && forall k :: 0 <= k < |frames| ==> frames[k].id == ids[k]
    requires forall k :: 0 <= k < |frames| ==> Encloses(nodes, flows, sides, horizontal, frames[k])
    ensures AllClear(frames, horizontal) <==> Spread(nodes, rank, lanes, horizontal, ids)
  {
    hide Laid, Encloses, FramesClear, Apart;
    forall p: nat, q: nat | p < |ids| && q < |ids| && p != q
      ensures FramesClear(frames[p], frames[q], horizontal) <==> Apart(nodes, rank, lanes, horizontal, ids[p], ids[q])
    {
      WidePair(nodes, rank, keys, lanes, horizontal, flows, sides, flow, side, frames[p], frames[q]);
    }
  }
}
