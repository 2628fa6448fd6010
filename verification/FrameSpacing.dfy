/**
 When group frames leave room for one another (frontend/js/diagrams.js:304-450). Frames of groups that
 keep to one rank each are clear from the start exactly when they do not interleave in a lane and, in a
 left-to-right drawing, are not neighbours in it. Frames that are clear keep their members apart, swept
 or not.
*/
module FrameSpacing {
  import opened LaneGeometry
  import opened GroupFrames

  // ---- frames along and across the flow ----------------------------------------------------

  function FarPad(horizontal: bool): real { if horizontal then GROUP_PAD_X else GROUP_PAD_BOTTOM }
  function SideNearPad(horizontal: bool): real { if horizontal then GROUP_PAD_TOP else GROUP_PAD_X }
  function SideFarPad(horizontal: bool): real { if horizontal then GROUP_PAD_BOTTOM else GROUP_PAD_X }

  /** What wrapping says on the two axes of the flow. */
  ghost predicate Encloses(nodes: seq<Node>, flows: seq<real>, sides: seq<real>, horizontal: bool, f: Frame) {
    && Spans(nodes, f.id, flows, horizontal, Main(f, horizontal) + NearPad(horizontal),
             Main(f, horizontal) + MainSize(f, horizontal) - FarPad(horizontal))
    && Spans(nodes, f.id, sides, !horizontal, Cross(f, horizontal) + SideNearPad(horizontal),
             Cross(f, horizontal) + CrossSize(f, horizontal) - SideFarPad(horizontal))
  }

  lemma WrapEncloses(nodes: seq<Node>, xs: seq<real>, ys: seq<real>, horizontal: bool, f: Frame)
    requires Wraps(nodes, xs, ys, f)
    ensures Encloses(nodes, if horizontal then xs else ys, if horizontal then ys else xs, horizontal, f)
  {
  }

  lemma EnclosingSizes(nodes: seq<Node>, flows: seq<real>, sides: seq<real>, horizontal: bool, f: Frame)
    requires Encloses(nodes, flows, sides, horizontal, f)
    ensures MainSize(f, horizontal) > NearPad(horizontal) + FarPad(horizontal)
    ensures CrossSize(f, horizontal) > SideNearPad(horizontal) + SideFarPad(horizontal)
  {
    var i: nat :| Member(nodes, f.id, i) && flows[i] == Main(f, horizontal) + NearPad(horizontal);
    var j: nat :| Member(nodes, f.id, j) && sides[j] == Cross(f, horizontal) + SideNearPad(horizontal);
  }

  // ---- members of clear frames ------------------------------------------------------------------

  /** On one of the two axes the boxes are at least `gap` apart. */
  predicate Distant(nodes: seq<Node>, flows: seq<real>, sides: seq<real>, horizontal: bool, gap: real, i: nat, j: nat)
    requires |flows| == |sides| == |nodes| && i < |nodes| && j < |nodes|
  {
    || flows[i] + FlowSize(nodes[i], horizontal) + gap <= flows[j]
    || flows[j] + FlowSize(nodes[j], horizontal) + gap <= flows[i]
    || sides[i] + SideSize(nodes[i], horizontal) + gap <= sides[j]
    || sides[j] + SideSize(nodes[j], horizontal) + gap <= sides[i]
  }

  /** The least distance the paddings and the group gap leave between members of two clear frames. */
  function MemberGap(horizontal: bool): real {
    MinReal(SideNearPad(horizontal) + SideFarPad(horizontal), NearPad(horizontal) + FarPad(horizontal) + GROUP_GAP)
  }

  /** Members of two clear frames stay that far apart, wherever the sweep has put them. */
  lemma MembersApart(nodes: seq<Node>, flows: seq<real>, sides: seq<real>, horizontal: bool,
                     f: Frame, g: Frame, i: nat, j: nat)
    requires Encloses(nodes, flows, sides, horizontal, f) && Encloses(nodes, flows, sides, horizontal, g)
    requires FramesClear(f, g, horizontal) && Member(nodes, f.id, i) && Member(nodes, g.id, j)
    ensures Distant(nodes, flows, sides, horizontal, MemberGap(horizontal), i, j)
    ensures MemberGap(horizontal) == if horizontal then 50.0 else 32.0
  {
    EnclosingSizes(nodes, flows, sides, horizontal, f);
    EnclosingSizes(nodes, flows, sides, horizontal, g);
  }

  // ---- groups that keep to one rank ----------------------------------------------------------------

  /** Every framed group sits in one rank, none of its boxes pinned. */
  ghost predicate Layered(nodes: seq<Node>, rank: seq<nat>, ids: seq<string>) {
    && |rank| == |nodes|
    && forall i: nat, j: nat :: i < |nodes| && j < |nodes| && nodes[i].group == nodes[j].group && nodes[i].group in ids
         ==> Unpinned(nodes[i]) && rank[i] == rank[j]
  }

  ghost predicate SharesRank(nodes: seq<Node>, rank: seq<nat>, a: string, b: string)
    requires |rank| == |nodes|
  {
    exists i: nat, j: nat :: Member(nodes, a, i) && Member(nodes, b, j) && rank[i] == rank[j]
  }

  /** A box in the flow of the rank of `i`, behind every member of `a` and before every member of `b`. */
  ghost predicate Between(nodes: seq<Node>, rank: seq<nat>, a: string, b: string, i: nat, m: nat)
    requires |rank| == |nodes| && i < |nodes|
  {
    && m < |nodes| && InFlow(nodes[m]) && rank[m] == rank[i]
    && (forall k: nat :: Member(nodes, a, k) ==> k < m)
    && (forall k: nat :: Member(nodes, b, k) ==> m < k)
  }

  /** All of `a` comes before all of `b`; left to right, some other box of the rank comes in between. */
  ghost predicate Precedes(nodes: seq<Node>, rank: seq<nat>, horizontal: bool, a: string, b: string)
    requires |rank| == |nodes|
  {
    && (forall i: nat, j: nat :: Member(nodes, a, i) && Member(nodes, b, j) ==> i < j)
    && (horizontal ==> exists i: nat, m: nat :: Member(nodes, a, i) && Between(nodes, rank, a, b, i, m))
  }

  /** Groups sharing a rank do not interleave and, left to right, are not neighbours. */
  ghost predicate Untangled(nodes: seq<Node>, rank: seq<nat>, horizontal: bool, ids: seq<string>)
    requires |rank| == |nodes|
  {
    forall p: nat, q: nat :: p < |ids| && q < |ids| && p != q && SharesRank(nodes, rank, ids[p], ids[q]) ==>
      Precedes(nodes, rank, horizontal, ids[p], ids[q]) || Precedes(nodes, rank, horizontal, ids[q], ids[p])
  }

  // ---- two frames of one lane -------------------------------------------------------------------------

  /** The unpinned boxes of a lane at one flow coordinate and at their cursors, up to a common shift. */
  ghost predicate Rowed(nodes: seq<Node>, lane: seq<nat>, horizontal: bool, flows: seq<real>, sides: seq<real>,
                        main: real, shift: real) {
    && Indices(nodes, lane) && |flows| == |sides| == |nodes|
    && forall k: nat :: k < |lane| && Unpinned(nodes[lane[k]]) ==>
         flows[lane[k]] == main && sides[lane[k]] == Cursor(nodes, lane, horizontal, k) + shift
  }

  /** The members of `id` are all in the lane. */
  ghost predicate Houses(nodes: seq<Node>, lane: seq<nat>, id: string) {
    Indices(nodes, lane) && forall i: nat :: Member(nodes, id, i) ==> Unpinned(nodes[i]) && i in lane
  }

  /** The lane of rank `r`: its boxes in the flow, in order. */
  ghost predicate IsRankLane(nodes: seq<Node>, rank: seq<nat>, lane: seq<nat>, r: nat) {
    && |rank| == |nodes| && Ascending(lane)
    && (forall k :: 0 <= k < |lane| ==> lane[k] < |nodes| && InFlow(nodes[lane[k]]) && rank[lane[k]] == r)
    && forall m: nat :: m < |nodes| && InFlow(nodes[m]) && rank[m] == r ==> m in lane
  }

  lemma LaneFacts(nodes: seq<Node>, rank: seq<nat>, lane: seq<nat>, r: nat)
    requires IsRankLane(nodes, rank, lane, r)
    ensures Ascending(lane) && |rank| == |nodes|
  {
  }

  lemma LaneBox(nodes: seq<Node>, rank: seq<nat>, lane: seq<nat>, r: nat, k: nat)
    requires IsRankLane(nodes, rank, lane, r) && k < |lane|
    ensures lane[k] < |nodes| && InFlow(nodes[lane[k]]) && rank[lane[k]] == r
  {
  }

  lemma BoxPosition(nodes: seq<Node>, rank: seq<nat>, lane: seq<nat>, r: nat, m: nat) returns (k: nat)
    requires IsRankLane(nodes, rank, lane, r) && m < |nodes| && InFlow(nodes[m]) && rank[m] == r
    ensures k < |lane| && lane[k] == m
  {
    k :| 0 <= k < |lane| && lane[k] == m;
  }

  lemma Position(nodes: seq<Node>, lane: seq<nat>, id: string, i: nat) returns (k: nat)
    requires Houses(nodes, lane, id) && Member(nodes, id, i)
    ensures k < |lane| && lane[k] == i && Unpinned(nodes[lane[k]])
  {
    k :| 0 <= k < |lane| && lane[k] == i;
  }

  lemma AscendsNext(lane: seq<nat>, a: nat, b: nat)
    requires Ascending(lane) && a + 1 < b < |lane|
    ensures lane[a] < lane[a + 1] < lane[b]
  {
  }

  lemma AscendingOrder(lane: seq<nat>, a: nat, b: nat)
    requires Ascending(lane) && a < |lane| && b < |lane|
    ensures a < b <==> lane[a] < lane[b]
  {
    if b < a { assert lane[b] < lane[a]; }
  }

  /** Along the lane, order of position, of index and of side coordinate are the same. */
  lemma LaneOrder(nodes: seq<Node>, lane: seq<nat>, horizontal: bool, flows: seq<real>, sides: seq<real>,
                  main: real, shift: real, a: nat, b: nat)
    requires Rowed(nodes, lane, horizontal, flows, sides, main, shift)
    requires Ascending(lane)
    requires a < |lane| && b < |lane| && Unpinned(nodes[lane[a]]) && Unpinned(nodes[lane[b]])
    ensures a < b <==> lane[a] < lane[b]
    ensures a < b ==> sides[lane[a]] + SideSize(nodes[lane[a]], horizontal) + GAP <= sides[lane[b]]
    ensures a + 1 == b ==> sides[lane[a]] + SideSize(nodes[lane[a]], horizontal) + GAP == sides[lane[b]]
    ensures a + 1 < b ==> sides[lane[a]] + SideSize(nodes[lane[a]], horizontal) + GAP + GAP < sides[lane[b]]
  {
    if a < b {
      CursorSeparates(nodes, lane, horizontal, a, b);
      if a + 1 < b {
        CursorSeparates(nodes, lane, horizontal, a, a + 1);
        CursorSeparates(nodes, lane, horizontal, a + 1, b);
      }
    }
    AscendingOrder(lane, a, b);
  }

  /** `f` ends before `g` starts, across the flow. */
  ghost predicate Behind(f: Frame, g: Frame, horizontal: bool) {
    Cross(f, horizontal) + CrossSize(f, horizontal) <= Cross(g, horizontal)
  }

  /** Members at the far edge of `f` and at the near edge of `g`. */
  lemma EdgeMembers(nodes: seq<Node>, flows: seq<real>, sides: seq<real>, horizontal: bool, f: Frame, g: Frame)
      returns (i: nat, j: nat)
    requires Encloses(nodes, flows, sides, horizontal, f) && Encloses(nodes, flows, sides, horizontal, g)
    ensures Member(nodes, f.id, i) && Member(nodes, g.id, j)
    ensures Behind(f, g, horizontal) <==>
              sides[i] + SideSize(nodes[i], horizontal) + (SideFarPad(horizontal) + SideNearPad(horizontal)) <= sides[j]
    ensures forall k: nat :: Member(nodes, f.id, k) ==>
              sides[k] + SideSize(nodes[k], horizontal) <= sides[i] + SideSize(nodes[i], horizontal)
    ensures forall k: nat :: Member(nodes, g.id, k) ==> sides[j] <= sides[k]
  {
    i :| Member(nodes, f.id, i) && sides[i] + Extent(nodes[i], !horizontal)
           == Cross(f, horizontal) + CrossSize(f, horizontal) - SideFarPad(horizontal);
    j :| Member(nodes, g.id, j) && sides[j] == Cross(g, horizontal) + SideNearPad(horizontal);
  }

  /** A frame that ends before another in the lane: its members come first, with a box between them left to right. */
  lemma BehindPrecedes(nodes: seq<Node>, rank: seq<nat>, lane: seq<nat>, r: nat, horizontal: bool,
                       flows: seq<real>, sides: seq<real>, main: real, shift: real, f: Frame, g: Frame)
    requires Rowed(nodes, lane, horizontal, flows, sides, main, shift) && IsRankLane(nodes, rank, lane, r)
    requires Houses(nodes, lane, f.id) && Houses(nodes, lane, g.id)
    requires Encloses(nodes, flows, sides, horizontal, f) && Encloses(nodes, flows, sides, horizontal, g)
    requires Behind(f, g, horizontal)
    ensures Precedes(nodes, rank, horizontal, f.id, g.id)
  {
    hide Rowed, Houses, IsRankLane, Encloses, Ascending, Behind;
    LaneFacts(nodes, rank, lane, r);
    var i, j := EdgeMembers(nodes, flows, sides, horizontal, f, g);
    var a := Position(nodes, lane, f.id, i);
    var b := Position(nodes, lane, g.id, j);
    LaneOrder(nodes, lane, horizontal, flows, sides, main, shift, a, b);
    LaneOrder(nodes, lane, horizontal, flows, sides, main, shift, b, a);
    assert a < b && (horizontal ==> a + 1 < b);
    forall k: nat | Member(nodes, f.id, k) ensures k <= i {
      var c := Position(nodes, lane, f.id, k);
      LaneOrder(nodes, lane, horizontal, flows, sides, main, shift, a, c);
    }
    forall k: nat | Member(nodes, g.id, k) ensures j <= k {
      var c := Position(nodes, lane, g.id, k);
      LaneOrder(nodes, lane, horizontal, flows, sides, main, shift, c, b);
    }
    if horizontal {
      LaneBox(nodes, rank, lane, r, a);
      LaneBox(nodes, rank, lane, r, a + 1);
      AscendsNext(lane, a, b);
      assert Between(nodes, rank, f.id, g.id, i, lane[a + 1]);
    }
  }

  lemma PrecedesBehind(nodes: seq<Node>, rank: seq<nat>, lane: seq<nat>, r: nat, horizontal: bool,
                       flows: seq<real>, sides: seq<real>, main: real, shift: real, f: Frame, g: Frame)
    requires Rowed(nodes, lane, horizontal, flows, sides, main, shift) && IsRankLane(nodes, rank, lane, r)
    requires Houses(nodes, lane, f.id) && Houses(nodes, lane, g.id)
    requires Encloses(nodes, flows, sides, horizontal, f) && Encloses(nodes, flows, sides, horizontal, g)
    requires Precedes(nodes, rank, horizontal, f.id, g.id)
    ensures Behind(f, g, horizontal)
  {
    hide Rowed, Houses, IsRankLane, Encloses, Ascending, Behind;
    LaneFacts(nodes, rank, lane, r);
    var i, j := EdgeMembers(nodes, flows, sides, horizontal, f, g);
    var a := Position(nodes, lane, f.id, i);
    var b := Position(nodes, lane, g.id, j);
    LaneOrder(nodes, lane, horizontal, flows, sides, main, shift, a, b);
    if horizontal {
      var h: nat, m: nat :| Member(nodes, f.id, h) && Between(nodes, rank, f.id, g.id, h, m);
      var e := Position(nodes, lane, f.id, h);
      LaneBox(nodes, rank, lane, r, e);
      var c := BoxPosition(nodes, rank, lane, r, m);
      AscendingOrder(lane, a, c);
      AscendingOrder(lane, c, b);
    }
  }

  /** In one lane two frames are clear exactly when one precedes the other. */
  lemma SameLane(nodes: seq<Node>, rank: seq<nat>, lane: seq<nat>, r: nat, horizontal: bool,
                 flows: seq<real>, sides: seq<real>, main: real, shift: real, f: Frame, g: Frame)
    requires Rowed(nodes, lane, horizontal, flows, sides, main, shift) && IsRankLane(nodes, rank, lane, r)
    requires Houses(nodes, lane, f.id) && Houses(nodes, lane, g.id)
    requires Encloses(nodes, flows, sides, horizontal, f) && Encloses(nodes, flows, sides, horizontal, g)
    ensures FramesClear(f, g, horizontal) <==>
              Precedes(nodes, rank, horizontal, f.id, g.id) || Precedes(nodes, rank, horizontal, g.id, f.id)
  {
    SameStart(nodes, lane, horizontal, flows, sides, main, shift, f);
    SameStart(nodes, lane, horizontal, flows, sides, main, shift, g);
    EnclosingSizes(nodes, flows, sides, horizontal, f);
    EnclosingSizes(nodes, flows, sides, horizontal, g);
    LevelFrames(f, g, horizontal);
    if Behind(f, g, horizontal) {
      BehindPrecedes(nodes, rank, lane, r, horizontal, flows, sides, main, shift, f, g);
    }
    if Behind(g, f, horizontal) {
      BehindPrecedes(nodes, rank, lane, r, horizontal, flows, sides, main, shift, g, f);
    }
    if Precedes(nodes, rank, horizontal, f.id, g.id) {
      PrecedesBehind(nodes, rank, lane, r, horizontal, flows, sides, main, shift, f, g);
    }
    if Precedes(nodes, rank, horizontal, g.id, f.id) {
      PrecedesBehind(nodes, rank, lane, r, horizontal, flows, sides, main, shift, g, f);
    }
  }

  lemma SameStart(nodes: seq<Node>, lane: seq<nat>, horizontal: bool, flows: seq<real>, sides: seq<real>,
                  main: real, shift: real, f: Frame)
    requires Rowed(nodes, lane, horizontal, flows, sides, main, shift) && Houses(nodes, lane, f.id)
    requires Encloses(nodes, flows, sides, horizontal, f)
    ensures Main(f, horizontal) == main - NearPad(horizontal)
  {
    var i: nat :| Member(nodes, f.id, i) && flows[i] == Main(f, horizontal) + NearPad(horizontal);
    var k := Position(nodes, lane, f.id, i);
  }

  /** Frames that start level are clear exactly when they do not overlap across the flow. */
  lemma LevelFrames(f: Frame, g: Frame, horizontal: bool)
    requires Main(f, horizontal) == Main(g, horizontal)
    requires MainSize(f, horizontal) > 0.0 && MainSize(g, horizontal) > 0.0
    requires CrossSize(f, horizontal) > 0.0 && CrossSize(g, horizontal) > 0.0
    ensures FramesClear(f, g, horizontal) <==> Behind(f, g, horizontal) || Behind(g, f, horizontal)
  {
  }

  // ---- frames of different lanes ----------------------------------------------------------------------

  /** A frame in a lane ends no later than the lane's thickness and the far padding allow. */
  lemma FrameEnd(nodes: seq<Node>, lane: seq<nat>, horizontal: bool, flows: seq<real>, sides: seq<real>,
                 main: real, shift: real, f: Frame)
    requires Rowed(nodes, lane, horizontal, flows, sides, main, shift) && Houses(nodes, lane, f.id)
    requires Encloses(nodes, flows, sides, horizontal, f)
    ensures Main(f, horizontal) + MainSize(f, horizontal)
         <= main + Thickness(nodes, lane, horizontal) + FarPad(horizontal)
  {
    var i: nat :| Member(nodes, f.id, i) && flows[i] + Extent(nodes[i], horizontal)
                    == Main(f, horizontal) + MainSize(f, horizontal) - FarPad(horizontal);
    var k := Position(nodes, lane, f.id, i);
  }

  /** Between lanes with two different frames there is room for their paddings and the group gap. */
  lemma FrameRoom(nodes: seq<Node>, lanes: seq<seq<nat>>, horizontal: bool, l: nat, m: nat)
    requires AllIndices(nodes, lanes) && l < m < |lanes|
    requires HasGroup(nodes, lanes[l]) || HasGroup(nodes, lanes[m])
    ensures FlowOf(nodes, lanes, horizontal, m)
         >= FlowOf(nodes, lanes, horizontal, l) + Thickness(nodes, lanes[l], horizontal)
            + (FarPad(horizontal) + GROUP_GAP + NearPad(horizontal))
  {
    hide FlowOf, FlowBefore, Thickness;
    if m > l + 1 {
      FlowSeparates(nodes, lanes, horizontal, l, m - 1);
      FlowSeparates(nodes, lanes, horizontal, m - 1, m);
      assert Thickness(nodes, lanes[m - 1], horizontal) >= 0.0;
    } else {
      NextLane(nodes, lanes, horizontal, l);
    }
  }

  lemma NextLane(nodes: seq<Node>, lanes: seq<seq<nat>>, horizontal: bool, l: nat)
    requires AllIndices(nodes, lanes) && l + 1 < |lanes|
    ensures FlowOf(nodes, lanes, horizontal, l + 1)
         >= FlowOf(nodes, lanes, horizontal, l) + (Thickness(nodes, lanes[l], horizontal) + PairGap(nodes, lanes, l))
  {
    hide Thickness, PairGap;
    assert FlowBefore(nodes, lanes, horizontal, l + 1)
        == FlowOf(nodes, lanes, horizontal, l) + (Thickness(nodes, lanes[l], horizontal) + PairGap(nodes, lanes, l));
  }

  lemma HousedGroup(nodes: seq<Node>, lane: seq<nat>, flows: seq<real>, sides: seq<real>, horizontal: bool, f: Frame)
    requires Houses(nodes, lane, f.id) && Encloses(nodes, flows, sides, horizontal, f) && f.id != ""
    ensures HasGroup(nodes, lane)
  {
    var i: nat :| Member(nodes, f.id, i) && flows[i] == Main(f, horizontal) + NearPad(horizontal);
    var k := Position(nodes, lane, f.id, i);
    assert nodes[lane[k]].group != "";
  }

  /** Everything about the drawing that the frames' clearness depends on. */
  ghost predicate Laid(nodes: seq<Node>, rank: seq<nat>, keys: seq<nat>, lanes: seq<seq<nat>>, horizontal: bool,
                       flows: seq<real>, sides: seq<real>, flow: real, side: real) {
    && IsLanes(nodes, rank, keys, lanes) && AllIndices(nodes, lanes) && |flows| == |sides| == |nodes|
    && Follows(Spot(flows, sides), nodes, lanes, horizontal, FlowTable(nodes, lanes, horizontal),
               SideTable(nodes, lanes, horizontal), flow, side)
  }

  lemma LaidRows(nodes: seq<Node>, rank: seq<nat>, keys: seq<nat>, lanes: seq<seq<nat>>, horizontal: bool,
                 flows: seq<real>, sides: seq<real>, flow: real, side: real, l: nat)
    requires Laid(nodes, rank, keys, lanes, horizontal, flows, sides, flow, side) && l < |lanes|
    ensures Rowed(nodes, lanes[l], horizontal, flows, sides, FlowOf(nodes, lanes, horizontal, l) + flow,
                  Centering(nodes, lanes, horizontal, l) + side)
    ensures IsRankLane(nodes, rank, lanes[l], keys[l])
  {
    hide Follows, FlowTable, SideTable, FlowOf, Centering, Cursor;
    TableEntries(nodes, lanes, horizontal, l);
    forall k: nat | k < |lanes[l]| && Unpinned(nodes[lanes[l][k]])
      ensures flows[lanes[l][k]] == FlowOf(nodes, lanes, horizontal, l) + flow
      ensures sides[lanes[l][k]]
           == Cursor(nodes, lanes[l], horizontal, k) + (Centering(nodes, lanes, horizontal, l) + side)
    {
      UnpinnedFollows(Spot(flows, sides), nodes, lanes, horizontal, FlowTable(nodes, lanes, horizontal),
                      SideTable(nodes, lanes, horizontal), flow, side, l, k);
    }
  }

  /** A framed group that keeps to one rank lives in one lane. */
  lemma Home(nodes: seq<Node>, rank: seq<nat>, keys: seq<nat>, lanes: seq<seq<nat>>,
             ids: seq<string>, id: string, i: nat)
      returns (l: nat)
    requires IsLanes(nodes, rank, keys, lanes) && AllIndices(nodes, lanes) && Layered(nodes, rank, ids)
    requires id in ids && Member(nodes, id, i)
    ensures l < |lanes| && keys[l] == rank[i] && Houses(nodes, lanes[l], id)
    ensures forall j: nat :: Member(nodes, id, j) ==> rank[j] == keys[l]
  {
    var k;
    l, k := Located(nodes, rank, keys, lanes, i);
    forall j: nat | Member(nodes, id, j) ensures Unpinned(nodes[j]) && j in lanes[l] {
      assert rank[j] == rank[i] && Unpinned(nodes[j]);
      var m, n := Located(nodes, rank, keys, lanes, j);
    }
  }

  lemma EarlierLane(nodes: seq<Node>, rank: seq<nat>, keys: seq<nat>, lanes: seq<seq<nat>>, horizontal: bool,
                    flows: seq<real>, sides: seq<real>, flow: real, side: real, l: nat, m: nat, f: Frame, g: Frame)
    requires Laid(nodes, rank, keys, lanes, horizontal, flows, sides, flow, side) && l < m < |lanes| && f.id != g.id
    requires Houses(nodes, lanes[l], f.id) && Houses(nodes, lanes[m], g.id)
    requires Encloses(nodes, flows, sides, horizontal, f) && Encloses(nodes, flows, sides, horizontal, g)
    ensures FramesClear(f, g, horizontal)
  {
    hide FlowOf, Thickness, Rowed, Houses, Encloses, HasGroup, IsRankLane, Centering;
    LaidRows(nodes, rank, keys, lanes, horizontal, flows, sides, flow, side, l);
    LaidRows(nodes, rank, keys, lanes, horizontal, flows, sides, flow, side, m);
    FrameEnd(nodes, lanes[l], horizontal, flows, sides, FlowOf(nodes, lanes, horizontal, l) + flow,
             Centering(nodes, lanes, horizontal, l) + side, f);
    SameStart(nodes, lanes[m], horizontal, flows, sides, FlowOf(nodes, lanes, horizontal, m) + flow,
              Centering(nodes, lanes, horizontal, m) + side, g);
    if f.id != "" {
      HousedGroup(nodes, lanes[l], flows, sides, horizontal, f);
    } else {
      HousedGroup(nodes, lanes[m], flows, sides, horizontal, g);
    }
    FrameRoom(nodes, lanes, horizontal, l, m);
  }

  /** Two frames of groups that keep to one rank each. */
  lemma PairClear(nodes: seq<Node>, rank: seq<nat>, keys: seq<nat>, lanes: seq<seq<nat>>, horizontal: bool,
                  flows: seq<real>, sides: seq<real>, flow: real, side: real, ids: seq<string>, f: Frame, g: Frame)
    requires Laid(nodes, rank, keys, lanes, horizontal, flows, sides, flow, side) && Layered(nodes, rank, ids)
    requires f.id in ids && g.id in ids
    requires Encloses(nodes, flows, sides, horizontal, f) && Encloses(nodes, flows, sides, horizontal, g)
    ensures FramesClear(f, g, horizontal)
            <==> (SharesRank(nodes, rank, f.id, g.id) ==>
                    Precedes(nodes, rank, horizontal, f.id, g.id) || Precedes(nodes, rank, horizontal, g.id, f.id))
  {
    hide Rowed, Houses, Precedes, IsRankLane, Laid, FramesClear, IsLanes, Layered, Encloses, SharesRank;
    LaidLanes(nodes, rank, keys, lanes, horizontal, flows, sides, flow, side);
    var i, j := EdgeMembers(nodes, flows, sides, horizontal, f, g);
    var l := Home(nodes, rank, keys, lanes, ids, f.id, i);
    var m := Home(nodes, rank, keys, lanes, ids, g.id, j);
    if l == m {
      LaidRows(nodes, rank, keys, lanes, horizontal, flows, sides, flow, side, l);
      SameLane(nodes, rank, lanes[l], keys[l], horizontal, flows, sides, FlowOf(nodes, lanes, horizontal, l) + flow,
               Centering(nodes, lanes, horizontal, l) + side, f, g);
      Sharing(nodes, rank, f.id, g.id, i, j);
    } else {
      NotSharing(nodes, rank, f.id, g.id, keys[l], keys[m]);
      assert f.id != g.id;
      if l < m {
        EarlierLane(nodes, rank, keys, lanes, horizontal, flows, sides, flow, side, l, m, f, g);
      } else {
        EarlierLane(nodes, rank, keys, lanes, horizontal, flows, sides, flow, side, m, l, g, f);
        ClearSymmetric(f, g, horizontal);
      }
    }
  }

  lemma Sharing(nodes: seq<Node>, rank: seq<nat>, a: string, b: string, i: nat, j: nat)
    requires |rank| == |nodes| && Member(nodes, a, i) && Member(nodes, b, j) && rank[i] == rank[j]
    ensures SharesRank(nodes, rank, a, b)
  {
  }

  lemma NotSharing(nodes: seq<Node>, rank: seq<nat>, a: string, b: string, r: nat, t: nat)
    requires |rank| == |nodes| && r != t
    requires forall i: nat :: Member(nodes, a, i) ==> rank[i] == r
    requires forall j: nat :: Member(nodes, b, j) ==> rank[j] == t
    ensures !SharesRank(nodes, rank, a, b)
  {
  }

  lemma LaidLanes(nodes: seq<Node>, rank: seq<nat>, keys: seq<nat>, lanes: seq<seq<nat>>, horizontal: bool,
                  flows: seq<real>, sides: seq<real>, flow: real, side: real)
    requires Laid(nodes, rank, keys, lanes, horizontal, flows, sides, flow, side)
    ensures IsLanes(nodes, rank, keys, lanes) && AllIndices(nodes, lanes)
    ensures |flows| == |sides| == |nodes| == |rank| && |keys| == |lanes|
    ensures forall l, m :: 0 <= l < m < |keys| ==> keys[l] != keys[m]
  {
  }

  /**
   When every framed group keeps to one rank, its boxes unpinned, the frames are clear of one another from
   the start exactly when groups of one rank do not interleave and, left to right, are not neighbours.
  */
  lemma LayeredFrames(nodes: seq<Node>, rank: seq<nat>, keys: seq<nat>, lanes: seq<seq<nat>>, horizontal: bool,
                      flows: seq<real>, sides: seq<real>, flow: real, side: real, ids: seq<string>, frames: seq<Frame>)
    requires Laid(nodes, rank, keys, lanes, horizontal, flows, sides, flow, side) && Layered(nodes, rank, ids)
    requires |frames| == |ids| && forall k :: 0 <= k < |frames| ==> frames[k].id == ids[k]
    requires forall k :: 0 <= k < |frames| ==> Encloses(nodes, flows, sides, horizontal, frames[k])
    ensures AllClear(frames, horizontal) <==> Untangled(nodes, rank, horizontal, ids)
  {
    hide Laid, Layered, Encloses, Precedes, SharesRank, FramesClear;
    LayeredRanks(nodes, rank, ids);
    forall p: nat, q: nat | p < |ids| && q < |ids| && p != q
      ensures FramesClear(frames[p], frames[q], horizontal)
              <==> (SharesRank(nodes, rank, ids[p], ids[q]) ==>
                      || Precedes(nodes, rank, horizontal, ids[p], ids[q])
                      || Precedes(nodes, rank, horizontal, ids[q], ids[p]))
    {
      PairClear(nodes, rank, keys, lanes, horizontal, flows, sides, flow, side, ids, frames[p], frames[q]);
    }
  }

  lemma LayeredRanks(nodes: seq<Node>, rank: seq<nat>, ids: seq<string>)
    requires Layered(nodes, rank, ids)
    ensures |rank| == |nodes|
  {
  }
}
