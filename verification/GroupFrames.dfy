/**
 Frames around groups and the sweep that pushes them apart (frontend/js/diagrams.js:387-450), as
 functions of the coordinates, with what they guarantee.
*/
module GroupFrames {
  import opened LaneGeometry

  datatype Frame = Frame(id: string, x: real, y: real, width: real, height: real)

  // ---- a frame is the padded bounding box of its members ------------------------------

  predicate Member(nodes: seq<Node>, id: string, i: nat) {
    i < |nodes| && nodes[i].group == id
  }

  predicate HasMember(nodes: seq<Node>, id: string) {
    exists i: nat :: i < |nodes| && Member(nodes, id, i)
  }

  function Extent(n: Node, wide: bool): Size { if wide then n.width else n.height }

  /** On one axis, `lo` to `hi` is the least interval holding every member of the group. */
  ghost predicate Spans(nodes: seq<Node>, id: string, pos: seq<real>, wide: bool, lo: real, hi: real) {
    && |pos| == |nodes|
    && (forall i: nat :: Member(nodes, id, i) ==> lo <= pos[i] && pos[i] + Extent(nodes[i], wide) <= hi)
    && (exists i: nat :: Member(nodes, id, i) && pos[i] == lo)
    && (exists i: nat :: Member(nodes, id, i) && pos[i] + Extent(nodes[i], wide) == hi)
  }

  ghost predicate SpansX(nodes: seq<Node>, xs: seq<real>, f: Frame) {
    Spans(nodes, f.id, xs, true, f.x + 16.0, f.x + f.width - 16.0)
  }

  ghost predicate SpansY(nodes: seq<Node>, ys: seq<real>, f: Frame) {
    Spans(nodes, f.id, ys, false, f.y + 40.0, f.y + f.height - 18.0)
  }

  /** The frame is exactly the bounding box of its members, padded by 16 at the sides, 40 above and 18 below. */
  ghost predicate Wraps(nodes: seq<Node>, xs: seq<real>, ys: seq<real>, f: Frame) {
    SpansX(nodes, xs, f) && SpansY(nodes, ys, f)
  }

  /** The group ids that get a frame: those with members, in order, repeats included. */
  function FrameIds(nodes: seq<Node>, groups: seq<string>): (ids: seq<string>)
    ensures forall id :: id in ids <==> id in groups && HasMember(nodes, id)
  {
    if |groups| == 0 then []
    else
      var init := FrameIds(nodes, groups[..|groups| - 1]);
      var id := groups[|groups| - 1];
      assert groups == groups[..|groups| - 1] + [id];
      if HasMember(nodes, id) then init + [id] else init
  }

  ghost predicate AllWrap(nodes: seq<Node>, xs: seq<real>, ys: seq<real>, frames: seq<Frame>) {
    forall i :: 0 <= i < |frames| ==> Wraps(nodes, xs, ys, frames[i])
  }

  // ---- axes -----------------------------------------------------------------------------

  function Main(f: Frame, horizontal: bool): real { if horizontal then f.x else f.y }
  function MainSize(f: Frame, horizontal: bool): real { if horizontal then f.width else f.height }
  function Cross(f: Frame, horizontal: bool): real { if horizontal then f.y else f.x }
  function CrossSize(f: Frame, horizontal: bool): real { if horizontal then f.height else f.width }

  function MoveFrame(f: Frame, horizontal: bool, amount: real): Frame {
    if horizontal then f.(x := f.x + amount) else f.(y := f.y + amount)
  }

  /** How far two frames overlap across the flow; positive when one is stacked behind the other. */
  function CrossOverlap(a: Frame, b: Frame, horizontal: bool): real {
    MinReal(Cross(a, horizontal) + CrossSize(a, horizontal), Cross(b, horizontal) + CrossSize(b, horizontal))
    - MaxReal(Cross(a, horizontal), Cross(b, horizontal))
  }

  // ---- the sweep --------------------------------------------------------------------------

  datatype Swept = Swept(frames: seq<Frame>, flows: seq<real>)

  ghost predicate Sorted(frames: seq<Frame>, horizontal: bool, order: seq<nat>) {
    && (forall a :: 0 <= a < |order| ==> order[a] < |frames|)
    && (forall a, b :: 0 <= a < b < |order| ==> order[a] != order[b])
    && forall a, b :: 0 <= a < b < |order| ==>
         var u, v := Main(frames[order[a]], horizontal), Main(frames[order[b]], horizontal);
         u < v || (u == v && order[a] < order[b])
  }

  ghost predicate InBounds(order: seq<nat>, n: nat) {
    forall a :: 0 <= a < |order| ==> order[a] < n
  }

  /** Where the frame `f` has to start to clear the first `p` placed frames. */
  function ClearStart(frames: seq<Frame>, horizontal: bool, order: seq<nat>, f: Frame, p: nat): (r: real)
    requires InBounds(order, |frames|) && p <= |order|
    ensures r >= Main(f, horizontal)
    ensures forall a :: 0 <= a < p && CrossOverlap(frames[order[a]], f, horizontal) > 0.0 ==>
              r >= Main(frames[order[a]], horizontal) + MainSize(frames[order[a]], horizontal) + GROUP_GAP
  {
    if p == 0 then Main(f, horizontal)
    else
      var r := ClearStart(frames, horizontal, order, f, p - 1);
      var prev := frames[order[p - 1]];
      if CrossOverlap(prev, f, horizontal) > 0.0
      then MaxReal(r, Main(prev, horizontal) + MainSize(prev, horizontal) + GROUP_GAP)
      else r
  }

  /** The first `n` boxes with the members of `id` moved by `amount`. */
  function MoveMembers(nodes: seq<Node>, id: string, pos: seq<real>, amount: real, n: nat): (r: seq<real>)
    requires |pos| == |nodes|
    ensures |r| == |pos|
    ensures forall i :: 0 <= i < |r| ==> r[i] == if i < n && nodes[i].group == id then pos[i] + amount else pos[i]
  {
    seq(|pos|, i requires 0 <= i < |pos| => if i < n && nodes[i].group == id then pos[i] + amount else pos[i])
  }

  lemma MoveNext(nodes: seq<Node>, id: string, pos: seq<real>, amount: real, n: nat)
    requires |pos| == |nodes| && n < |nodes|
    ensures MoveMembers(nodes, id, pos, amount, n + 1)
         == if nodes[n].group == id then MoveMembers(nodes, id, pos, amount, n)[n := pos[n] + amount]
            else MoveMembers(nodes, id, pos, amount, n)
  {
  }

  function Deficit(frames: seq<Frame>, horizontal: bool, order: seq<nat>, t: nat): (d: real)
    requires InBounds(order, |frames|) && t < |order|
    ensures d >= 0.0
  {
    var f := frames[order[t]];
    ClearStart(frames, horizontal, order, f, t) - Main(f, horizontal)
  }

  /** One turn of the sweep: the `t`-th frame clears the ones before it and takes its members along. */
  function SweepStep(nodes: seq<Node>, horizontal: bool, order: seq<nat>, s: Swept, t: nat): (r: Swept)
    requires |s.flows| == |nodes| && InBounds(order, |s.frames|) && t < |order|
    ensures |r.flows| == |nodes| && |r.frames| == |s.frames|
  {
    var f := s.frames[order[t]];
    var d := Deficit(s.frames, horizontal, order, t);
    Swept(s.frames[order[t] := MoveFrame(f, horizontal, d)],
          MoveMembers(nodes, f.id, s.flows, d, |nodes|))
  }

  /** The drawing after the first `t` frames of `order` have been swept. */
  function Sweep(nodes: seq<Node>, horizontal: bool, order: seq<nat>, s: Swept, t: nat): (r: Swept)
    requires |s.flows| == |nodes| && InBounds(order, |s.frames|) && t <= |order|
    ensures |r.flows| == |nodes| && |r.frames| == |s.frames|
  {
    if t == 0 then s
    else SweepStep(nodes, horizontal, order, Sweep(nodes, horizontal, order, s, t - 1), t - 1)
  }

  /** `g` is `f` moved forward along the flow, or not at all. */
  predicate Forward(f: Frame, g: Frame, horizontal: bool) {
    && f.id == g.id && f.width == g.width && f.height == g.height
    && Cross(f, horizontal) == Cross(g, horizontal)
    && Main(f, horizontal) <= Main(g, horizontal)
  }

  ghost predicate AllForward(s: Swept, r: Swept, horizontal: bool) {
    && |s.frames| == |r.frames| && |s.flows| == |r.flows|
    && (forall i :: 0 <= i < |r.frames| ==> Forward(s.frames[i], r.frames[i], horizontal))
    && forall i :: 0 <= i < |r.flows| ==> s.flows[i] <= r.flows[i]
  }

  lemma StepForward(nodes: seq<Node>, horizontal: bool, order: seq<nat>, s: Swept, t: nat)
    requires |s.flows| == |nodes| && InBounds(order, |s.frames|) && t < |order|
    ensures AllForward(s, SweepStep(nodes, horizontal, order, s, t), horizontal)
  {
  }

  lemma StaysForward(s: Swept, horizontal: bool)
    ensures AllForward(s, s, horizontal)
  {
  }

  lemma ForwardTwice(a: Swept, b: Swept, c: Swept, horizontal: bool)
    requires AllForward(a, b, horizontal) && AllForward(b, c, horizontal)
    ensures AllForward(a, c, horizontal)
  {
    forall i | 0 <= i < |c.frames| ensures Forward(a.frames[i], c.frames[i], horizontal) {
      assert Forward(a.frames[i], b.frames[i], horizontal) && Forward(b.frames[i], c.frames[i], horizontal);
    }
    forall i | 0 <= i < |c.flows| ensures a.flows[i] <= c.flows[i] {
      assert a.flows[i] <= b.flows[i] <= c.flows[i];
    }
  }

  /** Frames and boxes only ever move forward along the flow. */
  lemma {:induction false} SweepMoves(nodes: seq<Node>, horizontal: bool, order: seq<nat>, s: Swept, t: nat)
    requires |s.flows| == |nodes| && InBounds(order, |s.frames|) && t <= |order|
    ensures AllForward(s, Sweep(nodes, horizontal, order, s, t), horizontal)
  {
    hide AllForward, SweepStep;
    if t == 0 {
      StaysForward(s, horizontal);
    } else {
      var before := Sweep(nodes, horizontal, order, s, t - 1);
      SweepMoves(nodes, horizontal, order, s, t - 1);
      StepForward(nodes, horizontal, order, before, t - 1);
      ForwardTwice(s, before, SweepStep(nodes, horizontal, order, before, t - 1), horizontal);
    }
  }

  /** A frame stays where it was until its turn. */
  lemma {:induction false} SweepWaits(nodes: seq<Node>, horizontal: bool, order: seq<nat>, s: Swept, t: nat, a: nat)
    requires |s.flows| == |nodes| && Sorted(s.frames, horizontal, order) && t <= a < |order|
    ensures Sweep(nodes, horizontal, order, s, t).frames[order[a]] == s.frames[order[a]]
  {
    if t > 0 {
      SweepWaits(nodes, horizontal, order, s, t - 1, a);
    }
  }

  /** If the frames end up where they began, no box has moved either. */
  lemma {:induction false} SweepStill(nodes: seq<Node>, horizontal: bool, order: seq<nat>, s: Swept, t: nat)
    requires |s.flows| == |nodes| && InBounds(order, |s.frames|) && t <= |order|
    requires Sweep(nodes, horizontal, order, s, t).frames == s.frames
    ensures Sweep(nodes, horizontal, order, s, t) == s
  {
    hide SweepStep, Forward;
    if t > 0 {
      var before := Sweep(nodes, horizontal, order, s, t - 1);
      SweepMoves(nodes, horizontal, order, s, t - 1);
      StepStill(nodes, horizontal, order, s, before, t - 1);
      SweepStill(nodes, horizontal, order, s, t - 1);
    }
  }

  lemma StepStill(nodes: seq<Node>, horizontal: bool, order: seq<nat>, s: Swept, before: Swept, t: nat)
    requires |before.flows| == |nodes| && InBounds(order, |before.frames|) && t < |order|
    requires AllForward(s, before, horizontal)
    requires SweepStep(nodes, horizontal, order, before, t).frames == s.frames
    ensures before.frames == s.frames && SweepStep(nodes, horizontal, order, before, t) == before
  {
    var after := SweepStep(nodes, horizontal, order, before, t);
    StepForward(nodes, horizontal, order, before, t);
    forall i | 0 <= i < |s.frames| ensures before.frames[i] == s.frames[i] {
      assert Forward(s.frames[i], before.frames[i], horizontal);
      assert Forward(before.frames[i], after.frames[i], horizontal);
    }
    assert Deficit(before.frames, horizontal, order, t) == 0.0;
    assert after.flows == before.flows;
  }

  ghost predicate FramesClear(a: Frame, b: Frame, horizontal: bool) {
    CrossOverlap(a, b, horizontal) > 0.0 ==>
      || Main(a, horizontal) + MainSize(a, horizontal) + 18.0 <= Main(b, horizontal)
      || Main(b, horizontal) + MainSize(b, horizontal) + 18.0 <= Main(a, horizontal)
  }

  /** Frames already swept clear each other, and stay clear: nothing moves them again. */
  lemma {:induction false} SweepClears(nodes: seq<Node>, horizontal: bool, order: seq<nat>, s: Swept, t: nat)
    requires |s.flows| == |nodes| && Sorted(s.frames, horizontal, order) && t <= |order|
    ensures var r := Sweep(nodes, horizontal, order, s, t);
            forall a, b :: 0 <= a < b < t ==> FramesClear(r.frames[order[a]], r.frames[order[b]], horizontal)
  {
    hide ClearStart, FramesClear, CrossOverlap, MoveMembers;
    if t > 0 {
      SweepClears(nodes, horizontal, order, s, t - 1);
      var before := Sweep(nodes, horizontal, order, s, t - 1);
      var r := Sweep(nodes, horizontal, order, s, t);
      forall a, b | 0 <= a < b < t
        ensures FramesClear(r.frames[order[a]], r.frames[order[b]], horizontal)
      {
        assert r.frames[order[a]] == before.frames[order[a]];
        if b == t - 1 {
          ClearedFrame(before.frames, horizontal, order, t - 1, a);
        } else {
          assert r.frames[order[b]] == before.frames[order[b]];
        }
      }
    }
  }

  lemma ClearedFrame(frames: seq<Frame>, horizontal: bool, order: seq<nat>, t: nat, a: nat)
    requires InBounds(order, |frames|) && a < t < |order|
    ensures FramesClear(frames[order[a]],
              MoveFrame(frames[order[t]], horizontal, Deficit(frames, horizontal, order, t)), horizontal)
  {
  }

  ghost predicate AllClear(frames: seq<Frame>, horizontal: bool) {
    forall i, j :: 0 <= i < |frames| && 0 <= j < |frames| && i != j ==> FramesClear(frames[i], frames[j], horizontal)
  }

  lemma ClearSymmetric(f: Frame, g: Frame, horizontal: bool)
    ensures FramesClear(f, g, horizontal) == FramesClear(g, f, horizontal)
  {
  }

  /** Every pair of frames is cleared, whichever of the two the sort puts first. */
  lemma SweptClear(nodes: seq<Node>, horizontal: bool, order: seq<nat>, s: Swept)
    requires |s.flows| == |nodes| && Sorted(s.frames, horizontal, order)
    requires forall i: nat :: i in order <==> i < |s.frames|
    ensures AllClear(Sweep(nodes, horizontal, order, s, |order|).frames, horizontal)
  {
    hide Sweep, FramesClear;
    assert InBounds(order, |s.frames|);
    var r := Sweep(nodes, horizontal, order, s, |order|);
    SweepClears(nodes, horizontal, order, s, |order|);
    forall i: nat, j: nat | i < |r.frames| && j < |r.frames| && i != j
      ensures FramesClear(r.frames[i], r.frames[j], horizontal)
    {
      assert i in order && j in order;
      var a: nat :| a < |order| && order[a] == i;
      var b: nat :| b < |order| && order[b] == j;
      if a < b {
        assert FramesClear(r.frames[order[a]], r.frames[order[b]], horizontal);
      } else {
        assert FramesClear(r.frames[order[b]], r.frames[order[a]], horizontal);
        ClearSymmetric(r.frames[i], r.frames[j], horizontal);
      }
    }
  }

  // ---- a sweep with nothing to do --------------------------------------------------------

  lemma StayPut(nodes: seq<Node>, horizontal: bool, frames: seq<Frame>, i: nat, flows: seq<real>)
    requires i < |frames| && |flows| == |nodes|
    ensures frames[i := MoveFrame(frames[i], horizontal, 0.0)] == frames
    ensures MoveMembers(nodes, frames[i].id, flows, 0.0, |nodes|) == flows
  {
  }

  /** A frame that is clear of every frame sorted before it stays where it is. */
  lemma {:induction false} NoPush(frames: seq<Frame>, horizontal: bool, order: seq<nat>, t: nat, p: nat)
    requires Sorted(frames, horizontal, order) && AllClear(frames, horizontal) && p <= t < |order|
    requires MainSize(frames[order[t]], horizontal) >= 0.0
    ensures ClearStart(frames, horizontal, order, frames[order[t]], p) == Main(frames[order[t]], horizontal)
  {
    if p > 0 {
      NoPush(frames, horizontal, order, t, p - 1);
      assert FramesClear(frames[order[p - 1]], frames[order[t]], horizontal);
    }
  }

  lemma StepRests(nodes: seq<Node>, horizontal: bool, order: seq<nat>, s: Swept, t: nat)
    requires |s.flows| == |nodes| && Sorted(s.frames, horizontal, order) && t < |order|
    requires AllClear(s.frames, horizontal) && MainSize(s.frames[order[t]], horizontal) >= 0.0
    ensures SweepStep(nodes, horizontal, order, s, t) == s
  {
    hide ClearStart, FramesClear, MoveMembers, MoveFrame;
    NoPush(s.frames, horizontal, order, t, t);
    StayPut(nodes, horizontal, s.frames, order[t], s.flows);
  }

  lemma {:induction false} SweepRests(nodes: seq<Node>, horizontal: bool, order: seq<nat>, s: Swept, t: nat)
    requires |s.flows| == |nodes| && Sorted(s.frames, horizontal, order) && t <= |order|
    requires AllClear(s.frames, horizontal)
    requires forall i :: 0 <= i < |s.frames| ==> MainSize(s.frames[i], horizontal) >= 0.0
    ensures Sweep(nodes, horizontal, order, s, t) == s
  {
    hide SweepStep, AllClear;
    if t > 0 {
      SweepRests(nodes, horizontal, order, s, t - 1);
      StepRests(nodes, horizontal, order, s, t - 1);
    }
  }

  /** The sweep moves nothing, frame or box, exactly when every two frames were clear to begin with. */
  lemma SweepRestsIff(nodes: seq<Node>, horizontal: bool, order: seq<nat>, s: Swept)
    requires |s.flows| == |nodes| && Sorted(s.frames, horizontal, order)
    requires forall i: nat :: i in order <==> i < |s.frames|
    requires forall i :: 0 <= i < |s.frames| ==> MainSize(s.frames[i], horizontal) >= 0.0
    ensures Sweep(nodes, horizontal, order, s, |order|).frames == s.frames <==> AllClear(s.frames, horizontal)
    ensures Sweep(nodes, horizontal, order, s, |order|) == s <==> AllClear(s.frames, horizontal)
  {
    hide Sweep, AllClear;
    SweptClear(nodes, horizontal, order, s);
    if AllClear(s.frames, horizontal) {
      SweepRests(nodes, horizontal, order, s, |order|);
    }
  }

  // ---- what a moving sweep keeps ---------------------------------------------------------

  ghost predicate HasFrame(frames: seq<Frame>, id: string) {
    exists k :: 0 <= k < |frames| && frames[k].id == id
  }

  /** Boxes of one group have moved alike, and boxes outside every frame not at all. */
  ghost predicate MovedByGroup(nodes: seq<Node>, frames: seq<Frame>, before: seq<real>, after: seq<real>) {
    && |before| == |after| == |nodes|
    && (forall i, j :: 0 <= i < |nodes| && 0 <= j < |nodes| && nodes[i].group == nodes[j].group ==>
          after[i] - before[i] == after[j] - before[j])
    && forall i :: 0 <= i < |nodes| && !HasFrame(frames, nodes[i].group) ==> after[i] == before[i]
  }

  lemma {:induction false} SweepMovesGroups(nodes: seq<Node>, horizontal: bool, order: seq<nat>, s: Swept, t: nat)
    requires |s.flows| == |nodes| && InBounds(order, |s.frames|) && t <= |order|
    ensures MovedByGroup(nodes, s.frames, s.flows, Sweep(nodes, horizontal, order, s, t).flows)
  {
    hide MovedByGroup, SweepStep;
    if t == 0 {
      NoneMoved(nodes, s.frames, s.flows);
    } else {
      var before := Sweep(nodes, horizontal, order, s, t - 1);
      SweepMovesGroups(nodes, horizontal, order, s, t - 1);
      SweepMoves(nodes, horizontal, order, s, t - 1);
      assert Forward(s.frames[order[t - 1]], before.frames[order[t - 1]], horizontal);
      StepMovesGroups(nodes, horizontal, order, s, before, t - 1);
    }
  }

  lemma NoneMoved(nodes: seq<Node>, frames: seq<Frame>, flows: seq<real>)
    requires |flows| == |nodes|
    ensures MovedByGroup(nodes, frames, flows, flows)
  {
  }

  lemma StepMovesGroups(nodes: seq<Node>, horizontal: bool, order: seq<nat>, s: Swept, before: Swept, t: nat)
    requires |before.flows| == |nodes| && |before.frames| == |s.frames| && InBounds(order, |s.frames|) && t < |order|
    requires MovedByGroup(nodes, s.frames, s.flows, before.flows)
    requires before.frames[order[t]].id == s.frames[order[t]].id
    ensures MovedByGroup(nodes, s.frames, s.flows, SweepStep(nodes, horizontal, order, before, t).flows)
  {
    hide ClearStart;
    assert HasFrame(s.frames, before.frames[order[t]].id);
  }

  // ---- no frame is pushed further than it must ---------------------------------------------

  /** The frame stands exactly the group gap behind one it overlaps across the flow. */
  ghost predicate Touches(f: Frame, g: Frame, horizontal: bool) {
    CrossOverlap(f, g, horizontal) > 0.0 && Main(g, horizontal) == Main(f, horizontal) + MainSize(f, horizontal) + 18.0
  }

  /** Whatever was moved touches another frame. */
  ghost predicate JustEnough(before: seq<Frame>, after: seq<Frame>, horizontal: bool) {
    && |before| == |after|
    && forall i :: 0 <= i < |after| && Main(after[i], horizontal) != Main(before[i], horizontal) ==>
         exists j :: 0 <= j < |after| && Touches(after[j], after[i], horizontal)
  }

  lemma {:induction false} ClearStartReached(frames: seq<Frame>, horizontal: bool, order: seq<nat>, f: Frame, p: nat)
      returns (a: nat)
    requires InBounds(order, |frames|) && p <= |order|
    requires ClearStart(frames, horizontal, order, f, p) != Main(f, horizontal)
    ensures a < p && CrossOverlap(frames[order[a]], f, horizontal) > 0.0
    ensures ClearStart(frames, horizontal, order, f, p)
         == Main(frames[order[a]], horizontal) + MainSize(frames[order[a]], horizontal) + 18.0
  {
    a := p - 1;
    var r := ClearStart(frames, horizontal, order, f, p - 1);
    if ClearStart(frames, horizontal, order, f, p) == r {
      a := ClearStartReached(frames, horizontal, order, f, p - 1);
    }
  }

  /** The frames swept so far touch another frame if they were moved. */
  ghost predicate SnugUpTo(s: Swept, r: Swept, horizontal: bool, order: seq<nat>, t: nat)
    requires InBounds(order, |s.frames|) && |r.frames| == |s.frames| && t <= |order|
  {
    forall a :: 0 <= a < t && Main(r.frames[order[a]], horizontal) != Main(s.frames[order[a]], horizontal) ==>
      exists b :: 0 <= b < a && Touches(r.frames[order[b]], r.frames[order[a]], horizontal)
  }

  lemma {:induction false} SweepIsSnug(nodes: seq<Node>, horizontal: bool, order: seq<nat>, s: Swept, t: nat)
    requires |s.flows| == |nodes| && Sorted(s.frames, horizontal, order) && t <= |order|
    ensures SnugUpTo(s, Sweep(nodes, horizontal, order, s, t), horizontal, order, t)
  {
    hide SweepStep, Touches;
    if t > 0 {
      hide SnugUpTo;
      var before := Sweep(nodes, horizontal, order, s, t - 1);
      SweepIsSnug(nodes, horizontal, order, s, t - 1);
      SweepWaits(nodes, horizontal, order, s, t - 1, t - 1);
      StepIsSnug(nodes, horizontal, order, s, before, t - 1);
    }
  }

  lemma StepIsSnug(nodes: seq<Node>, horizontal: bool, order: seq<nat>, s: Swept, before: Swept, t: nat)
    requires |before.flows| == |nodes| && |before.frames| == |s.frames| && Sorted(s.frames, horizontal, order)
    requires t < |order| && before.frames[order[t]] == s.frames[order[t]]
    requires SnugUpTo(s, before, horizontal, order, t)
    ensures SnugUpTo(s, SweepStep(nodes, horizontal, order, before, t), horizontal, order, t + 1)
  {
    hide ClearStart, MoveMembers;
    var after := SweepStep(nodes, horizontal, order, before, t);
    forall a | 0 <= a < t ensures after.frames[order[a]] == before.frames[order[a]] {
      assert order[a] != order[t];
    }
    var f := before.frames[order[t]];
    if ClearStart(before.frames, horizontal, order, f, t) != Main(f, horizontal) {
      var a := ClearStartReached(before.frames, horizontal, order, f, t);
      assert Touches(after.frames[order[a]], after.frames[order[t]], horizontal);
    }
    forall a | 0 <= a < t && Main(after.frames[order[a]], horizontal) != Main(s.frames[order[a]], horizontal)
      ensures exists b :: 0 <= b < a && Touches(after.frames[order[b]], after.frames[order[a]], horizontal)
    {
      var b :| 0 <= b < a && Touches(before.frames[order[b]], before.frames[order[a]], horizontal);
      assert Touches(after.frames[order[b]], after.frames[order[a]], horizontal);
    }
  }

  lemma SweptJustEnough(nodes: seq<Node>, horizontal: bool, order: seq<nat>, s: Swept)
    requires |s.flows| == |nodes| && Sorted(s.frames, horizontal, order)
    requires forall i: nat :: i in order <==> i < |s.frames|
    ensures JustEnough(s.frames, Sweep(nodes, horizontal, order, s, |order|).frames, horizontal)
  {
    hide Sweep, Touches;
    var r := Sweep(nodes, horizontal, order, s, |order|);
    SweepIsSnug(nodes, horizontal, order, s, |order|);
    forall i | 0 <= i < |r.frames| && Main(r.frames[i], horizontal) != Main(s.frames[i], horizontal)
      ensures exists j :: 0 <= j < |r.frames| && Touches(r.frames[j], r.frames[i], horizontal)
    {
      assert i in order;
      var a :| 0 <= a < |order| && order[a] == i;
      var b :| 0 <= b < a && Touches(r.frames[order[b]], r.frames[order[a]], horizontal);
    }
  }

  // ---- do the frames still wrap their members? --------------------------------------------

  /** The main-axis half of `Wraps`. */
  ghost predicate SpansMain(nodes: seq<Node>, flows: seq<real>, horizontal: bool, f: Frame) {
    if horizontal then SpansX(nodes, flows, f) else SpansY(nodes, flows, f)
  }

  ghost predicate UniqueIds(frames: seq<Frame>) {
    forall i, j :: 0 <= i < j < |frames| ==> frames[i].id != frames[j].id
  }

  lemma MovedTogether(nodes: seq<Node>, flows: seq<real>, horizontal: bool, f: Frame, d: real)
    requires SpansMain(nodes, flows, horizontal, f)
    ensures SpansMain(nodes, MoveMembers(nodes, f.id, flows, d, |nodes|), horizontal, MoveFrame(f, horizontal, d))
  {
    var moved := MoveMembers(nodes, f.id, flows, d, |nodes|);
    forall i: nat | Member(nodes, f.id, i) ensures moved[i] == flows[i] + d {}
  }

  lemma MovedElsewhere(nodes: seq<Node>, flows: seq<real>, horizontal: bool, f: Frame, id: string, d: real)
    requires SpansMain(nodes, flows, horizontal, f) && f.id != id
    ensures SpansMain(nodes, MoveMembers(nodes, id, flows, d, |nodes|), horizontal, f)
  {
    var moved := MoveMembers(nodes, id, flows, d, |nodes|);
    forall i: nat | Member(nodes, f.id, i) ensures moved[i] == flows[i] {}
  }

  ghost predicate AllSpan(nodes: seq<Node>, horizontal: bool, s: Swept) {
    forall i :: 0 <= i < |s.frames| ==> SpansMain(nodes, s.flows, horizontal, s.frames[i])
  }

  lemma StepWraps(nodes: seq<Node>, horizontal: bool, order: seq<nat>, s: Swept, t: nat)
    requires |s.flows| == |nodes| && InBounds(order, |s.frames|) && t < |order|
    requires UniqueIds(s.frames) && AllSpan(nodes, horizontal, s)
    ensures AllSpan(nodes, horizontal, SweepStep(nodes, horizontal, order, s, t))
  {
    var f, d := s.frames[order[t]], Deficit(s.frames, horizontal, order, t);
    var r := SweepStep(nodes, horizontal, order, s, t);
    forall i | 0 <= i < |r.frames| ensures SpansMain(nodes, r.flows, horizontal, r.frames[i]) {
      assert SpansMain(nodes, s.flows, horizontal, s.frames[i]);
      if i == order[t] {
        MovedTogether(nodes, s.flows, horizontal, f, d);
      } else {
        MovedElsewhere(nodes, s.flows, horizontal, s.frames[i], f.id, d);
      }
    }
  }

  ghost predicate Intact(nodes: seq<Node>, horizontal: bool, s: Swept) {
    UniqueIds(s.frames) && AllSpan(nodes, horizontal, s)
  }

  lemma StepIntact(nodes: seq<Node>, horizontal: bool, order: seq<nat>, s: Swept, t: nat)
    requires |s.flows| == |nodes| && InBounds(order, |s.frames|) && t < |order|
    requires Intact(nodes, horizontal, s)
    ensures Intact(nodes, horizontal, SweepStep(nodes, horizontal, order, s, t))
  {
    var r := SweepStep(nodes, horizontal, order, s, t);
    StepWraps(nodes, horizontal, order, s, t);
    forall i, j | 0 <= i < j < |r.frames| ensures r.frames[i].id != r.frames[j].id {
      assert s.frames[i].id != s.frames[j].id;
    }
  }

  /** What every turn keeps, the sweep keeps. */
  lemma {:induction false} SweepInvariant(nodes: seq<Node>, horizontal: bool, order: seq<nat>, s: Swept, t: nat,
                                          inv: Swept -> bool)
    requires |s.flows| == |nodes| && InBounds(order, |s.frames|) && t <= |order|
    requires forall r: Swept, k: nat ::
               |r.flows| == |nodes| && InBounds(order, |r.frames|) && k < |order| && inv(r)
               ==> inv(SweepStep(nodes, horizontal, order, r, k))
    requires inv(s)
    ensures inv(Sweep(nodes, horizontal, order, s, t))
  {
    if t > 0 {
      SweepInvariant(nodes, horizontal, order, s, t - 1, inv);
    }
  }

  /** With distinct group ids every frame keeps its members wrapped, all the way through the sweep. */
  lemma SweepWraps(nodes: seq<Node>, horizontal: bool, order: seq<nat>, s: Swept)
    requires |s.flows| == |nodes| && InBounds(order, |s.frames|)
    requires Intact(nodes, horizontal, s)
    ensures Intact(nodes, horizontal, Sweep(nodes, horizontal, order, s, |order|))
  {
    var inv := (r: Swept) => Intact(nodes, horizontal, r);
    forall r: Swept, k: nat |
        |r.flows| == |nodes| && InBounds(order, |r.frames|) && k < |order| && inv(r)
      ensures inv(SweepStep(nodes, horizontal, order, r, k))
    {
      StepIntact(nodes, horizontal, order, r, k);
    }
    SweepInvariant(nodes, horizontal, order, s, |order|, inv);
  }

  // ---- repeated ids break the wrapping ------------------------------------------------------

  /** The padding between a frame's near edge and its members, along the flow. */
  function NearPad(horizontal: bool): real { if horizontal then GROUP_PAD_X else GROUP_PAD_TOP }

  /** All members lie behind the frame's near padding; strictly so when the frame was left behind. */
  ghost predicate Ahead(nodes: seq<Node>, flows: seq<real>, horizontal: bool, f: Frame, strictly: bool) {
    && |flows| == |nodes|
    && forall i: nat :: Member(nodes, f.id, i) ==>
         var near := Main(f, horizontal) + NearPad(horizontal);
         if strictly then near < flows[i] else near <= flows[i]
  }

  lemma StrictlyAheadIsLoose(nodes: seq<Node>, flows: seq<real>, horizontal: bool, f: Frame)
    requires Ahead(nodes, flows, horizontal, f, true)
    ensures !SpansMain(nodes, flows, horizontal, f)
  {
  }

  lemma SpanIsAhead(nodes: seq<Node>, flows: seq<real>, horizontal: bool, f: Frame)
    requires SpansMain(nodes, flows, horizontal, f)
    ensures Ahead(nodes, flows, horizontal, f, false)
  {
  }

  /** Members stay ahead of every frame, and of an already swept frame they stay strictly ahead. */
  lemma StepAhead(nodes: seq<Node>, horizontal: bool, order: seq<nat>, s: Swept, t: nat, i: nat, strictly: bool)
    requires |s.flows| == |nodes| && InBounds(order, |s.frames|) && t < |order| && i < |s.frames|
    requires Ahead(nodes, s.flows, horizontal, s.frames[i], strictly)
    ensures var r := SweepStep(nodes, horizontal, order, s, t);
            Ahead(nodes, r.flows, horizontal, r.frames[i], strictly)
  {
  }

  lemma {:induction false} SweepAhead(nodes: seq<Node>, horizontal: bool, order: seq<nat>, s: Swept,
                                      from: nat, t: nat, i: nat, strictly: bool)
    requires |s.flows| == |nodes| && InBounds(order, |s.frames|) && from <= t <= |order| && i < |s.frames|
    requires var r := Sweep(nodes, horizontal, order, s, from);
             Ahead(nodes, r.flows, horizontal, r.frames[i], strictly)
    ensures var r := Sweep(nodes, horizontal, order, s, t);
            Ahead(nodes, r.flows, horizontal, r.frames[i], strictly)
  {
    hide SweepStep, Ahead;
    if from < t {
      SweepAhead(nodes, horizontal, order, s, from, t - 1, i, strictly);
      StepAhead(nodes, horizontal, order, Sweep(nodes, horizontal, order, s, t - 1), t - 1, i, strictly);
    }
  }

  /** Two frames around the same members have the same shape and place. */
  lemma SameMembersSameFrame(nodes: seq<Node>, xs: seq<real>, ys: seq<real>, f: Frame, g: Frame)
    requires Wraps(nodes, xs, ys, f) && Wraps(nodes, xs, ys, g) && f.id == g.id
    ensures f == g && f.width > 0.0 && f.height > 0.0
  {
    SameSpan(nodes, f.id, xs, true, f.x + GROUP_PAD_X, f.x + f.width - GROUP_PAD_X,
             g.x + GROUP_PAD_X, g.x + g.width - GROUP_PAD_X);
    SameSpan(nodes, f.id, ys, false, f.y + GROUP_PAD_TOP, f.y + f.height - GROUP_PAD_BOTTOM,
             g.y + GROUP_PAD_TOP, g.y + g.height - GROUP_PAD_BOTTOM);
  }

  lemma SameSpan(nodes: seq<Node>, id: string, pos: seq<real>, wide: bool, lo: real, hi: real, lo': real, hi': real)
    requires Spans(nodes, id, pos, wide, lo, hi) && Spans(nodes, id, pos, wide, lo', hi')
    ensures lo == lo' && hi == hi' && lo < hi
  {
  }

  /** The second of two frames with one id is pushed off the first, and drags the members along. */
  lemma RepeatPushed(nodes: seq<Node>, horizontal: bool, order: seq<nat>, s: Swept, t: nat, a: nat)
    requires |s.flows| == |nodes| && InBounds(order, |s.frames|) && a < t < |order| && order[a] != order[t]
    requires var f, g := s.frames[order[a]], s.frames[order[t]];
             && f.id == g.id && CrossOverlap(f, g, horizontal) > 0.0
             && Main(g, horizontal) <= Main(f, horizontal) && MainSize(f, horizontal) > 0.0
             && Ahead(nodes, s.flows, horizontal, f, false)
    ensures var r := SweepStep(nodes, horizontal, order, s, t);
            Ahead(nodes, r.flows, horizontal, r.frames[order[a]], true)
  {
    var f, g := s.frames[order[a]], s.frames[order[t]];
    assert Deficit(s.frames, horizontal, order, t) > 0.0;
  }

  /** The moment before the second frame's turn. */
  lemma RepeatReady(nodes: seq<Node>, horizontal: bool, order: seq<nat>, s: Swept, a: nat, b: nat)
    requires |s.flows| == |nodes| && Sorted(s.frames, horizontal, order) && a < b < |order|
    requires s.frames[order[a]] == s.frames[order[b]]
    requires Ahead(nodes, s.flows, horizontal, s.frames[order[a]], false)
    ensures var r := Sweep(nodes, horizontal, order, s, b);
            && Forward(s.frames[order[a]], r.frames[order[a]], horizontal)
            && r.frames[order[b]] == s.frames[order[a]]
            && Ahead(nodes, r.flows, horizontal, r.frames[order[a]], false)
  {
    SweepAhead(nodes, horizontal, order, s, 0, b, order[a], false);
    SweepWaits(nodes, horizontal, order, s, b, b);
    SweepMoves(nodes, horizontal, order, s, b);
  }

  lemma RepeatLeft(nodes: seq<Node>, horizontal: bool, order: seq<nat>, s: Swept, a: nat, b: nat)
    requires |s.flows| == |nodes| && Sorted(s.frames, horizontal, order) && a < b < |order|
    requires s.frames[order[a]] == s.frames[order[b]]
    requires MainSize(s.frames[order[a]], horizontal) > 0.0 && CrossSize(s.frames[order[a]], horizontal) > 0.0
    requires Ahead(nodes, s.flows, horizontal, s.frames[order[a]], false)
    ensures var r := Sweep(nodes, horizontal, order, s, |order|);
            !SpansMain(nodes, r.flows, horizontal, r.frames[order[a]])
  {
    hide SweepStep, SpansMain;
    RepeatReady(nodes, horizontal, order, s, a, b);
    RepeatPushed(nodes, horizontal, order, Sweep(nodes, horizontal, order, s, b), b, a);
    SweepAhead(nodes, horizontal, order, s, b + 1, |order|, order[a], true);
    var r := Sweep(nodes, horizontal, order, s, |order|);
    StrictlyAheadIsLoose(nodes, r.flows, horizontal, r.frames[order[a]]);
  }

  /** If two frames share an id, the sweep leaves one of them behind its members. */
  lemma RepeatBreaks(nodes: seq<Node>, horizontal: bool, order: seq<nat>, xs: seq<real>, ys: seq<real>,
                     frames: seq<Frame>, a: nat, b: nat)
    requires |xs| == |ys| == |nodes| && Sorted(frames, horizontal, order)
    requires forall i :: 0 <= i < |frames| ==> Wraps(nodes, xs, ys, frames[i])
    requires a < b < |order| && frames[order[a]].id == frames[order[b]].id
    ensures var s := Swept(frames, if horizontal then xs else ys);
            var r := Sweep(nodes, horizontal, order, s, |order|);
            !SpansMain(nodes, r.flows, horizontal, r.frames[order[a]])
  {
    var f, s := frames[order[a]], Swept(frames, if horizontal then xs else ys);
    assert Wraps(nodes, xs, ys, f) && Wraps(nodes, xs, ys, frames[order[b]]);
    SameMembersSameFrame(nodes, xs, ys, f, frames[order[b]]);
    SpanIsAhead(nodes, s.flows, horizontal, f);
    RepeatLeft(nodes, horizontal, order, s, a, b);
  }
}
