/**
 What a reader sees of the lanes before group frames are swept (frontend/js/diagrams.js:299-366), in plain
 numbers and without the tables the drawing is computed from: who is in which lane, how far apart boxes
 and lanes stand, and that every lane has the same middle.
*/
module Tidiness {
  import opened LaneGeometry
  import opened FrameSpacing
  import opened WideGroups

  /** The lanes hold every box that is free on some axis, by rank, in input order, ranks ascending. */
  ghost predicate Sorting(nodes: seq<Node>, rank: seq<nat>, lanes: seq<seq<nat>>) {
    && |rank| == |nodes|
    && (forall l :: 0 <= l < |lanes| ==> |lanes[l]| > 0)
    && (forall l, k :: 0 <= l < |lanes| && 0 <= k < |lanes[l]| ==>
          && lanes[l][k] < |nodes|
          && (nodes[lanes[l][k]].pinX.Free? || nodes[lanes[l][k]].pinY.Free?))
    && (forall i: nat :: i < |nodes| && (nodes[i].pinX.Free? || nodes[i].pinY.Free?) ==>
          exists l: nat, k: nat :: InLane(lanes, l, k, i))
    && (forall l, k, n :: 0 <= l < |lanes| && 0 <= k < n < |lanes[l]| ==>
          lanes[l][k] < lanes[l][n] && rank[lanes[l][k]] == rank[lanes[l][n]])
    && (forall l, m :: 0 <= l < m < |lanes| ==> rank[lanes[l][0]] < rank[lanes[m][0]])
  }

  /** `t` is the largest extent along the flow in the lane. */
  ghost predicate IsThickness(nodes: seq<Node>, lane: seq<nat>, horizontal: bool, t: real)
    requires Indices(nodes, lane)
  {
    && (exists k :: 0 <= k < |lane| && FlowSize(nodes[lane[k]], horizontal) == t)
    && (forall k :: 0 <= k < |lane| ==> FlowSize(nodes[lane[k]], horizontal) <= t)
  }

  ghost predicate NamesGroup(nodes: seq<Node>, lane: seq<nat>)
    requires Indices(nodes, lane)
  {
    exists k :: 0 <= k < |lane| && nodes[lane[k]].group != ""
  }

  /** Where a lane stands behind the one before it. */
  ghost predicate Follower(nodes: seq<Node>, lane: seq<nat>, next: seq<nat>, horizontal: bool,
                           here: real, there: real, origin: real)
    requires Indices(nodes, lane) && Indices(nodes, next)
  {
    forall t, u :: IsThickness(nodes, lane, horizontal, t) && IsThickness(nodes, next, horizontal, u) ==>
      var gap := if NamesGroup(nodes, lane) || NamesGroup(nodes, next) then 76.0 else 56.0;
      there == if here + t + gap >= origin + u then here + t + gap else origin + u
  }

  /** Lanes are 56 apart, or 76 where a box on either side names a group, but start no closer than their thickness. */
  ghost predicate Levels(nodes: seq<Node>, lanes: seq<seq<nat>>, horizontal: bool, level: seq<real>, origin: real)
    requires AllIndices(nodes, lanes)
  {
    && |level| == |lanes|
    && (|lanes| > 0 ==> forall t :: IsThickness(nodes, lanes[0], horizontal, t) ==> level[0] == origin + t)
    && (forall l: nat :: l + 1 < |lanes| ==>
          Follower(nodes, lanes[l], lanes[l + 1], horizontal, level[l], level[l + 1], origin))
  }

  /** Boxes free along the flow stand at the level of their lane. */
  ghost predicate OnLevels(nodes: seq<Node>, lanes: seq<seq<nat>>, horizontal: bool, flows: seq<real>, level: seq<real>)
    requires AllIndices(nodes, lanes) && |flows| == |nodes| && |level| == |lanes|
  {
    forall l, k :: 0 <= l < |lanes| && 0 <= k < |lanes[l]| ==>
      FlowFree(nodes[lanes[l][k]], horizontal) ==> flows[lanes[l][k]] == level[l]
  }

  /** Neighbours in a lane are 56 apart. */
  ghost predicate EvenlySpaced(nodes: seq<Node>, lane: seq<nat>, horizontal: bool, sides: seq<real>)
    requires Indices(nodes, lane) && |sides| == |nodes|
  {
    forall k :: 0 <= k < |lane| - 1 ==>
      SideFree(nodes[lane[k]], horizontal) && SideFree(nodes[lane[k + 1]], horizontal) ==>
        sides[lane[k + 1]] == sides[lane[k]] + SideSize(nodes[lane[k]], horizontal) + 56.0
  }

  ghost predicate FreeEnds(nodes: seq<Node>, lane: seq<nat>, horizontal: bool)
    requires Indices(nodes, lane)
  {
    |lane| > 0 && SideFree(nodes[lane[0]], horizontal) && SideFree(nodes[lane[|lane| - 1]], horizontal)
  }

  /** Near edge of the first box plus far edge of the last: twice the middle of the lane. */
  function TwiceMiddle(nodes: seq<Node>, lane: seq<nat>, horizontal: bool, sides: seq<real>): real
    requires Indices(nodes, lane) && |lane| > 0 && |sides| == |nodes|
  {
    sides[lane[0]] + (sides[lane[|lane| - 1]] + SideSize(nodes[lane[|lane| - 1]], horizontal))
  }

  /** Lanes with free ends have the same middle. */
  ghost predicate SameMiddle(nodes: seq<Node>, lane: seq<nat>, other: seq<nat>, horizontal: bool, sides: seq<real>)
    requires Indices(nodes, lane) && Indices(nodes, other) && |sides| == |nodes|
  {
    FreeEnds(nodes, lane, horizontal) && FreeEnds(nodes, other, horizontal) ==>
      TwiceMiddle(nodes, lane, horizontal, sides) == TwiceMiddle(nodes, other, horizontal, sides)
  }

  ghost predicate Tidy(nodes: seq<Node>, rank: seq<nat>, lanes: seq<seq<nat>>, horizontal: bool,
                       flows: seq<real>, sides: seq<real>) {
    && Sorting(nodes, rank, lanes) && AllIndices(nodes, lanes) && |flows| == |sides| == |nodes|
    && (exists level: seq<real>, origin: real ::
          Levels(nodes, lanes, horizontal, level, origin) && OnLevels(nodes, lanes, horizontal, flows, level))
    && (forall l :: 0 <= l < |lanes| ==> EvenlySpaced(nodes, lanes[l], horizontal, sides))
    && (forall l, m :: 0 <= l < |lanes| && 0 <= m < |lanes| ==>
          SameMiddle(nodes, lanes[l], lanes[m], horizontal, sides))
  }

  // ---- the lanes -----------------------------------------------------------------------------------

  lemma LanesSort(nodes: seq<Node>, rank: seq<nat>, keys: seq<nat>, lanes: seq<seq<nat>>)
    requires IsLanes(nodes, rank, keys, lanes)
    ensures Sorting(nodes, rank, lanes)
  {
    hide LaneAt;
    forall l, k | 0 <= l < |lanes| && 0 <= k < |lanes[l]|
      ensures lanes[l][k] < |nodes| && rank[lanes[l][k]] == keys[l]
      ensures nodes[lanes[l][k]].pinX.Free? || nodes[lanes[l][k]].pinY.Free?
    {
      LaneMember(nodes, rank, keys, lanes, l, k);
    }
    forall i: nat | i < |nodes| && (nodes[i].pinX.Free? || nodes[i].pinY.Free?)
      ensures exists l: nat, k: nat :: InLane(lanes, l, k, i)
    {
      var l, k := Located(nodes, rank, keys, lanes, i);
    }
  }

  // ---- along the flow ----------------------------------------------------------------------------------

  lemma {:induction false} ThicknessReached(nodes: seq<Node>, lane: seq<nat>, horizontal: bool)
    requires Indices(nodes, lane) && |lane| > 0
    ensures IsThickness(nodes, lane, horizontal, Thickness(nodes, lane, horizontal))
  {
    var init := lane[..|lane| - 1];
    if |init| > 0 {
      ThicknessReached(nodes, init, horizontal);
      var k :| 0 <= k < |init| && FlowSize(nodes[init[k]], horizontal) == Thickness(nodes, init, horizontal);
      assert lane[k] == init[k];
    }
    assert FlowSize(nodes[lane[|lane| - 1]], horizontal) > 0.0;
  }

  lemma ThicknessIs(nodes: seq<Node>, lane: seq<nat>, horizontal: bool, t: real)
    requires Indices(nodes, lane) && |lane| > 0 && IsThickness(nodes, lane, horizontal, t)
    ensures t == Thickness(nodes, lane, horizontal)
  {
    hide Thickness;
    ThicknessReached(nodes, lane, horizontal);
  }

  lemma NextLevel(nodes: seq<Node>, lanes: seq<seq<nat>>, horizontal: bool, l: nat)
    requires AllIndices(nodes, lanes) && l + 1 < |lanes|
    ensures var gap := if NamesGroup(nodes, lanes[l]) || NamesGroup(nodes, lanes[l + 1]) then 76.0 else 56.0;
            FlowOf(nodes, lanes, horizontal, l + 1)
            == MaxReal(FlowOf(nodes, lanes, horizontal, l) + Thickness(nodes, lanes[l], horizontal) + gap,
                       Thickness(nodes, lanes[l + 1], horizontal))
  {
    hide Thickness;
    assert FlowBefore(nodes, lanes, horizontal, l + 1)
        == FlowOf(nodes, lanes, horizontal, l) + (Thickness(nodes, lanes[l], horizontal) + PairGap(nodes, lanes, l));
  }

  lemma FirstLevel(nodes: seq<Node>, lanes: seq<seq<nat>>, horizontal: bool)
    requires AllIndices(nodes, lanes) && |lanes| > 0
    ensures FlowOf(nodes, lanes, horizontal, 0) == Thickness(nodes, lanes[0], horizontal)
  {
    hide Thickness;
  }

  lemma LanesLevel(nodes: seq<Node>, lanes: seq<seq<nat>>, horizontal: bool, flow: real)
    requires AllIndices(nodes, lanes) && forall l :: 0 <= l < |lanes| ==> |lanes[l]| > 0
    ensures Levels(nodes, lanes, horizontal, Shifted(FlowTable(nodes, lanes, horizontal), flow), flow)
  {
    hide Thickness, FlowOf, IsThickness, NamesGroup;
    var level := Shifted(FlowTable(nodes, lanes, horizontal), flow);
    if |lanes| > 0 {
      FirstLevel(nodes, lanes, horizontal);
      forall t | IsThickness(nodes, lanes[0], horizontal, t) ensures level[0] == flow + t {
        ThicknessIs(nodes, lanes[0], horizontal, t);
      }
    }
    forall l: nat | l + 1 < |lanes|
      ensures Follower(nodes, lanes[l], lanes[l + 1], horizontal, level[l], level[l + 1], flow)
    {
      NextLevel(nodes, lanes, horizontal, l);
      var lane, next := lanes[l], lanes[l + 1];
      forall t, u | IsThickness(nodes, lane, horizontal, t) && IsThickness(nodes, next, horizontal, u)
        ensures t == Thickness(nodes, lane, horizontal) && u == Thickness(nodes, next, horizontal)
      {
        ThicknessIs(nodes, lane, horizontal, t);
        ThicknessIs(nodes, next, horizontal, u);
      }
    }
  }

  // ---- across the flow -----------------------------------------------------------------------------------

  /** The cursor behind the last box is the length of the lane. */
  lemma {:induction false} CursorEnds(nodes: seq<Node>, lane: seq<nat>, horizontal: bool)
    requires Indices(nodes, lane) && |lane| > 0
    ensures Cursor(nodes, lane, horizontal, |lane| - 1) + SideSize(nodes[lane[|lane| - 1]], horizontal)
         == LaneLength(nodes, lane, horizontal)
  {
    if |lane| == 1 {
      assert lane[..0] == [];
      assert LaneLength(nodes, lane, horizontal) == TotalSide(nodes, lane, horizontal) + GAP * (0 as real);
    } else {
      var init := lane[..|lane| - 1];
      CursorEnds(nodes, init, horizontal);
      CursorOfInit(nodes, lane, horizontal, |init| - 1);
      assert ((|lane| - 1) as real) == ((|init| - 1) as real) + 1.0;
      assert GAP * ((|lane| - 1) as real) == GAP * ((|init| - 1) as real) + GAP;
    }
  }

  lemma {:induction false} CursorOfInit(nodes: seq<Node>, lane: seq<nat>, horizontal: bool, k: nat)
    requires Indices(nodes, lane) && k < |lane|
    ensures Cursor(nodes, lane[..|lane| - 1], horizontal, k) == Cursor(nodes, lane, horizontal, k)
  {
    if k > 0 {
      CursorOfInit(nodes, lane, horizontal, k - 1);
    }
  }

  /** A box free across the flow, up to the common shift. */
  lemma SideAt(nodes: seq<Node>, rank: seq<nat>, keys: seq<nat>, lanes: seq<seq<nat>>, horizontal: bool,
               flows: seq<real>, sides: seq<real>, flow: real, side: real, l: nat, k: nat)
    requires Laid(nodes, rank, keys, lanes, horizontal, flows, sides, flow, side)
    requires l < |lanes| && k < |lanes[l]|
    ensures |flows| == |sides| == |nodes| && AllIndices(nodes, lanes)
    ensures FlowFree(nodes[lanes[l][k]], horizontal) ==>
              flows[lanes[l][k]] == FlowTable(nodes, lanes, horizontal)[l] + flow
    ensures SideFree(nodes[lanes[l][k]], horizontal) ==>
              sides[lanes[l][k]] == LaneSide(nodes, lanes, horizontal, l, k) + side
  {
    hide Cursor, Centering, FlowOf, LaneAt;
    assert InLane(lanes, l, k, lanes[l][k]);
    TableEntries(nodes, lanes, horizontal, l);
    assert Spot(flows, sides)(lanes[l][k]) == (flows[lanes[l][k]], sides[lanes[l][k]]);
  }

  /** Twice the middle of a lane is the span and twice the common shift. */
  lemma MiddleIs(nodes: seq<Node>, rank: seq<nat>, keys: seq<nat>, lanes: seq<seq<nat>>, horizontal: bool,
                 flows: seq<real>, sides: seq<real>, flow: real, side: real, l: nat)
    requires Laid(nodes, rank, keys, lanes, horizontal, flows, sides, flow, side)
    requires l < |lanes| && AllIndices(nodes, lanes) && |sides| == |nodes| && FreeEnds(nodes, lanes[l], horizontal)
    ensures TwiceMiddle(nodes, lanes[l], horizontal, sides) == Span(nodes, lanes, horizontal) + 2.0 * side
  {
    hide Laid, Span, LaneLength;
    var lane := lanes[l];
    SideAt(nodes, rank, keys, lanes, horizontal, flows, sides, flow, side, l, 0);
    SideAt(nodes, rank, keys, lanes, horizontal, flows, sides, flow, side, l, |lane| - 1);
    CursorEnds(nodes, lane, horizontal);
    assert Cursor(nodes, lane, horizontal, 0) == 0.0;
  }

  lemma LaneIsEven(nodes: seq<Node>, rank: seq<nat>, keys: seq<nat>, lanes: seq<seq<nat>>, horizontal: bool,
                   flows: seq<real>, sides: seq<real>, flow: real, side: real, l: nat)
    requires Laid(nodes, rank, keys, lanes, horizontal, flows, sides, flow, side)
    requires l < |lanes| && AllIndices(nodes, lanes) && |sides| == |nodes|
    ensures EvenlySpaced(nodes, lanes[l], horizontal, sides)
  {
    hide Laid, Centering;
    forall k | 0 <= k < |lanes[l]| - 1
        && SideFree(nodes[lanes[l][k]], horizontal) && SideFree(nodes[lanes[l][k + 1]], horizontal)
      ensures sides[lanes[l][k + 1]] == sides[lanes[l][k]] + SideSize(nodes[lanes[l][k]], horizontal) + 56.0
    {
      SideAt(nodes, rank, keys, lanes, horizontal, flows, sides, flow, side, l, k);
      SideAt(nodes, rank, keys, lanes, horizontal, flows, sides, flow, side, l, k + 1);
    }
  }

  lemma BoxesOnLevels(nodes: seq<Node>, rank: seq<nat>, keys: seq<nat>, lanes: seq<seq<nat>>, horizontal: bool,
                      flows: seq<real>, sides: seq<real>, flow: real, side: real)
    requires Laid(nodes, rank, keys, lanes, horizontal, flows, sides, flow, side)
    requires AllIndices(nodes, lanes) && |flows| == |nodes|
    ensures OnLevels(nodes, lanes, horizontal, flows, Shifted(FlowTable(nodes, lanes, horizontal), flow))
  {
    hide Laid, FlowTable;
    forall l, k | 0 <= l < |lanes| && 0 <= k < |lanes[l]| && FlowFree(nodes[lanes[l][k]], horizontal)
      ensures flows[lanes[l][k]] == Shifted(FlowTable(nodes, lanes, horizontal), flow)[l]
    {
      SideAt(nodes, rank, keys, lanes, horizontal, flows, sides, flow, side, l, k);
    }
  }

  /** What the lanes place is tidy. */
  lemma LaidIsTidy(nodes: seq<Node>, rank: seq<nat>, keys: seq<nat>, lanes: seq<seq<nat>>, horizontal: bool,
                   flows: seq<real>, sides: seq<real>, flow: real, side: real)
    requires Laid(nodes, rank, keys, lanes, horizontal, flows, sides, flow, side)
    ensures Tidy(nodes, rank, lanes, horizontal, flows, sides)
  {
    hide Laid, IsLanes, TwiceMiddle, FlowTable, LaneSide, EvenlySpaced, FreeEnds, OnLevels, Levels;
    LaidLanes(nodes, rank, keys, lanes, horizontal, flows, sides, flow, side);
    LanesSort(nodes, rank, keys, lanes);
    var level := Shifted(FlowTable(nodes, lanes, horizontal), flow);
    LanesLevel(nodes, lanes, horizontal, flow);
    BoxesOnLevels(nodes, rank, keys, lanes, horizontal, flows, sides, flow, side);
    hide Sorting, AllIndices;
    forall l | 0 <= l < |lanes| ensures EvenlySpaced(nodes, lanes[l], horizontal, sides) {
      LaneIsEven(nodes, rank, keys, lanes, horizontal, flows, sides, flow, side, l);
    }
    forall l, m | 0 <= l < |lanes| && 0 <= m < |lanes|
      ensures SameMiddle(nodes, lanes[l], lanes[m], horizontal, sides)
    {
      if FreeEnds(nodes, lanes[l], horizontal) && FreeEnds(nodes, lanes[m], horizontal) {
        MiddleIs(nodes, rank, keys, lanes, horizontal, flows, sides, flow, side, l);
        MiddleIs(nodes, rank, keys, lanes, horizontal, flows, sides, flow, side, m);
      }
    }
  }
}
