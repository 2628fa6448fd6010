/**
 `computeLayout` (frontend/js/diagrams.js:256-460): lanes, centring, pins, normalisation, frames around
 groups, and the sweep that pushes frames apart. The coordinates the code writes into its box and frame
 objects are fields of one picture, indexed like the nodes and the groups.
*/
module DiagramLayout {
  import opened LayerRanks
  import opened LaneGeometry
  import opened GroupFrames
  import opened FrameSpacing
  import opened WideGroups
  import opened Tidiness

  ghost predicate Distinct<T>(s: seq<T>) {
    forall i, j :: 0 <= i < j < |s| ==> s[i] != s[j]
  }

  ghost predicate DistinctIndices(lane: seq<nat>, n: nat) {
    Distinct(lane) && forall k :: 0 <= k < |lane| ==> lane[k] < n
  }

  /** The boxes of `lane[..n]` stand at `cross` along the flow and at `across[k]` the other way. */
  ghost predicate InRow(lane: seq<nat>, cross: real, across: seq<real>, flows: seq<real>, sides: seq<real>, n: nat) {
    && |across| == |lane| && |flows| == |sides| && n <= |lane|
    && forall k :: 0 <= k < n ==>
         lane[k] < |flows| && flows[lane[k]] == cross && sides[lane[k]] == across[k]
  }

  ghost predicate SameOutside(lane: seq<nat>, before: seq<real>, after: seq<real>) {
    |before| == |after| && forall i :: 0 <= i < |after| && i !in lane ==> after[i] == before[i]
  }

  lemma RowGrows(lane: seq<nat>, cross: real, across: seq<real>, flows: seq<real>, sides: seq<real>, n: nat)
    requires DistinctIndices(lane, |flows|) && n < |lane|
    requires InRow(lane, cross, across, flows, sides, n)
    ensures InRow(lane, cross, across, flows[lane[n] := cross], sides[lane[n] := across[n]], n + 1)
  {
  }

  /** Lanes `lo` to `hi` stand in their rows. */
  ghost predicate LanesAt(lanes: seq<seq<nat>>, crosses: seq<real>, across: seq<seq<real>>,
                          flows: seq<real>, sides: seq<real>, lo: nat, hi: nat) {
    && |crosses| == |across| == |lanes| && hi <= |lanes|
    && forall l :: lo <= l < hi ==> InRow(lanes[l], crosses[l], across[l], flows, sides, |lanes[l]|)
  }

  /** Moving the boxes of lane `m` leaves the other lanes in their rows. */
  lemma OtherLanesKept(nodes: seq<Node>, rank: seq<nat>, keys: seq<nat>, lanes: seq<seq<nat>>,
                       crosses: seq<real>, across: seq<seq<real>>,
                       f: seq<real>, s: seq<real>, f': seq<real>, s': seq<real>, lo: nat, hi: nat, m: nat)
    requires IsLanes(nodes, rank, keys, lanes) && m < |lanes| && (m < lo || hi <= m)
    requires LanesAt(lanes, crosses, across, f, s, lo, hi)
    requires SameOutside(lanes[m], f, f') && SameOutside(lanes[m], s, s') && |f| == |s|
    ensures LanesAt(lanes, crosses, across, f', s', lo, hi)
  {
    forall l | lo <= l < hi
      ensures InRow(lanes[l], crosses[l], across[l], f', s', |lanes[l]|)
    {
      forall k | 0 <= k < |lanes[l]| ensures lanes[l][k] !in lanes[m] {
        NodeOutside(nodes, rank, keys, lanes, l, k, m);
      }
    }
  }

  lemma LaneAdded(lanes: seq<seq<nat>>, crosses: seq<real>, across: seq<seq<real>>,
                  flows: seq<real>, sides: seq<real>, l: nat)
    requires l < |lanes| && LanesAt(lanes, crosses, across, flows, sides, 0, l)
    requires InRow(lanes[l], crosses[l], across[l], flows, sides, |lanes[l]|)
    ensures LanesAt(lanes, crosses, across, flows, sides, 0, l + 1)
  {
  }

  lemma NodeOutside(nodes: seq<Node>, rank: seq<nat>, keys: seq<nat>, lanes: seq<seq<nat>>, l: nat, k: nat, m: nat)
    requires IsLanes(nodes, rank, keys, lanes) && l < |lanes| && k < |lanes[l]| && m < |lanes| && m != l
    ensures lanes[l][k] !in lanes[m]
  {
    forall n | 0 <= n < |lanes[m]| ensures lanes[m][n] != lanes[l][k] {
      LanesDisjoint(nodes, rank, keys, lanes, m, n, l, k);
    }
  }

  lemma LaneIndices(nodes: seq<Node>, rank: seq<nat>, keys: seq<nat>, lanes: seq<seq<nat>>, l: nat)
    requires IsLanes(nodes, rank, keys, lanes) && l < |lanes|
    ensures DistinctIndices(lanes[l], |nodes|)
  {
    forall k | 0 <= k < |lanes[l]| ensures lanes[l][k] < |nodes| {
      LaneMember(nodes, rank, keys, lanes, l, k);
    }
    forall a, b | 0 <= a < b < |lanes[l]| ensures lanes[l][a] != lanes[l][b] {
      LanesDisjoint(nodes, rank, keys, lanes, l, a, l, b);
    }
  }

  // ---- centring, pins, normalisation ---------------------------------------------------

  /** The entries `lane[..n]` of `start` have moved by `amount`, the others have not. */
  ghost predicate MovedAt(start: seq<real>, now: seq<real>, lane: seq<nat>, amount: real, n: nat) {
    && SameOutside(lane, start, now) && n <= |lane| && DistinctIndices(lane, |now|)
    && (forall m :: 0 <= m < n ==> now[lane[m]] == start[lane[m]] + amount)
    && (forall m :: n <= m < |lane| ==> now[lane[m]] == start[lane[m]])
  }

  lemma MovedAtNext(start: seq<real>, now: seq<real>, lane: seq<nat>, amount: real, n: nat)
    requires MovedAt(start, now, lane, amount, n) && n < |lane|
    ensures MovedAt(start, now[lane[n] := now[lane[n]] + amount], lane, amount, n + 1)
  {
    assert lane[n] in lane;
  }

  lemma MovedRow(lane: seq<nat>, cross: real, across: seq<real>, flows: seq<real>,
                 start: seq<real>, now: seq<real>, amount: real)
    requires InRow(lane, cross, across, flows, start, |lane|)
    requires MovedAt(start, now, lane, amount, |lane|)
    ensures InRow(lane, cross, Shifted(across, amount), flows, now, |lane|)
  {
  }

  function Pinned(pin: Pin, at: real): real {
    match pin case Free => at case Fixed(v) => v
  }

  ghost predicate PinsApplied(nodes: seq<Node>, xs: seq<real>, ys: seq<real>,
                              xs': seq<real>, ys': seq<real>, n: nat) {
    && |xs| == |ys| == |xs'| == |ys'| == |nodes| && n <= |nodes|
    && (forall i :: 0 <= i < n ==> xs'[i] == Pinned(nodes[i].pinX, xs[i]) && ys'[i] == Pinned(nodes[i].pinY, ys[i]))
    && forall i :: n <= i < |nodes| ==> xs'[i] == xs[i] && ys'[i] == ys[i]
  }

  /** `m` is the least element. */
  ghost predicate IsLeast(s: seq<real>, m: real) {
    m in s && forall i :: 0 <= i < |s| ==> m <= s[i]
  }

  method Least(s: seq<real>) returns (m: real)
    requires |s| > 0
    ensures IsLeast(s, m)
  {
    m := s[0];
    for i := 1 to |s|
      invariant m in s && forall j :: 0 <= j < i ==> m <= s[j]
    {
      m := MinReal(m, s[i]);
    }
  }

  /** The first `n` entries moved by `amount`. */
  function ShiftedUpTo(s: seq<real>, amount: real, n: nat): (r: seq<real>)
    ensures |r| == |s| && forall k :: 0 <= k < |r| ==> r[k] == if k < n then s[k] + amount else s[k]
  {
    seq(|s|, k requires 0 <= k < |s| => if k < n then s[k] + amount else s[k])
  }

  lemma ShiftedNext(s: seq<real>, amount: real, n: nat)
    requires n < |s|
    ensures ShiftedUpTo(s, amount, n)[n] == s[n]
    ensures ShiftedUpTo(s, amount, n)[n := s[n] + amount] == ShiftedUpTo(s, amount, n + 1)
  {
  }

  lemma ShiftedEnds(s: seq<real>, amount: real)
    ensures ShiftedUpTo(s, amount, 0) == s && ShiftedUpTo(s, amount, |s|) == Shifted(s, amount)
  {
  }

  predicate AnyGrouped(nodes: seq<Node>) { exists i :: 0 <= i < |nodes| && nodes[i].group != "" }

  function PadLeft(nodes: seq<Node>): (pad: real)
    ensures pad == if exists i :: 0 <= i < |nodes| && nodes[i].group != "" then 48.0 else 32.0
  {
    FRAME_PAD + if AnyGrouped(nodes) then GROUP_PAD_X else 0.0
  }

  function PadTop(nodes: seq<Node>): (pad: real)
    ensures pad == if exists i :: 0 <= i < |nodes| && nodes[i].group != "" then 72.0 else 32.0
  {
    FRAME_PAD + if AnyGrouped(nodes) then GROUP_PAD_TOP else 0.0
  }

  lemma LeastShifted(s: seq<real>, m: real, amount: real)
    requires IsLeast(s, m)
    ensures IsLeast(Shifted(s, amount), m + amount)
  {
    var i :| 0 <= i < |s| && s[i] == m;
    assert Shifted(s, amount)[i] == m + amount;
  }

  // ---- the picture ---------------------------------------------------------------------

  method MeasureLane(nodes: seq<Node>, lane: seq<nat>, horizontal: bool) returns (main: real)
    requires Indices(nodes, lane)
    ensures main == Thickness(nodes, lane, horizontal)
  {
    main := 0.0;
    for k := 0 to |lane|
      invariant main == Thickness(nodes, lane[..k], horizontal)
    {
      main := MaxReal(main, FlowSize(nodes[lane[k]], horizontal));
      assert lane[..k + 1][..k] == lane[..k];
    }
    assert lane[..|lane|] == lane;
  }

  /** The flow cursor and the last gap after the first `l` lanes. */
  ghost predicate CursorAt(nodes: seq<Node>, lanes: seq<seq<nat>>, horizontal: bool, l: nat,
                           cross: real, lastPairGap: real) {
    && AllIndices(nodes, lanes) && l <= |lanes|
    && cross == FlowBefore(nodes, lanes, horizontal, l)
    && lastPairGap == if l == 0 then GAP else PairGap(nodes, lanes, l - 1)
  }

  /** The cursor arithmetic of one turn: where lane `l` goes, and where the cursor stands after it. */
  method Advance(nodes: seq<Node>, lanes: seq<seq<nat>>, horizontal: bool, l: nat, cross: real, lastPairGap: real)
      returns (at: real, after: real, pairGap: real)
    requires l < |lanes| && CursorAt(nodes, lanes, horizontal, l, cross, lastPairGap)
    ensures at == FlowTable(nodes, lanes, horizontal)[l]
    ensures CursorAt(nodes, lanes, horizontal, l + 1, after, pairGap)
  {
    var main := MeasureLane(nodes, lanes[l], horizontal);
    pairGap := PairGap(nodes, lanes, l);
    at := MaxReal(cross, main);
    after := at + (main + pairGap);
    TableEntries(nodes, lanes, horizontal, l);
  }

  lemma SpanOfCursor(nodes: seq<Node>, lanes: seq<seq<nat>>, horizontal: bool, cross: real, lastPairGap: real)
    requires CursorAt(nodes, lanes, horizontal, |lanes|, cross, lastPairGap)
    ensures MaxReal(0.0, cross - lastPairGap) == Span(nodes, lanes, horizontal)
  {
  }

  /** Least and greatest edge of a group's members on one axis, if it has any. */
  method MeasureGroup(nodes: seq<Node>, id: string, pos: seq<real>, wide: bool)
      returns (found: bool, lo: real, hi: real)
    requires |pos| == |nodes|
    ensures found <==> HasMember(nodes, id)
    ensures found ==> Spans(nodes, id, pos, wide, lo, hi)
  {
    found, lo, hi := false, 0.0, 0.0;
    for i := 0 to |nodes|
      invariant found <==> exists j: nat :: j < i && Member(nodes, id, j)
      invariant found ==>
                  && (forall j: nat :: j < i && Member(nodes, id, j) ==>
                        lo <= pos[j] && pos[j] + Extent(nodes[j], wide) <= hi)
                  && (exists j: nat :: j < i && Member(nodes, id, j) && pos[j] == lo)
                  && (exists j: nat :: j < i && Member(nodes, id, j) && pos[j] + Extent(nodes[j], wide) == hi)
    {
      if nodes[i].group == id {
        assert Member(nodes, id, i);
        var a, b := pos[i], pos[i] + Extent(nodes[i], wide);
        lo := if found then MinReal(lo, a) else a;
        hi := if found then MaxReal(hi, b) else b;
        found := true;
      }
    }
  }

  /** `groups.map(...).filter(Boolean)`. */
  method WrapGroups(nodes: seq<Node>, xs: seq<real>, ys: seq<real>, groups: seq<string>) returns (frames: seq<Frame>)
    requires |xs| == |ys| == |nodes|
    ensures |frames| == |FrameIds(nodes, groups)|
    ensures forall i :: 0 <= i < |frames| ==>
              frames[i].id == FrameIds(nodes, groups)[i] && Wraps(nodes, xs, ys, frames[i])
  {
    frames := [];
    for g := 0 to |groups|
      invariant |frames| == |FrameIds(nodes, groups[..g])|
      invariant forall i :: 0 <= i < |frames| ==>
                  frames[i].id == FrameIds(nodes, groups[..g])[i] && Wraps(nodes, xs, ys, frames[i])
    {
      var id := groups[g];
      assert groups[..g + 1][..g] == groups[..g];
      var found, minX, maxX := MeasureGroup(nodes, id, xs, true);
      var also, minY, maxY := MeasureGroup(nodes, id, ys, false);
      if found {
        var frame := Frame(id, minX - GROUP_PAD_X, minY - GROUP_PAD_TOP,
                           (maxX - minX) + 2.0 * GROUP_PAD_X,
                           (maxY - minY) + GROUP_PAD_TOP + GROUP_PAD_BOTTOM);
        assert Wraps(nodes, xs, ys, frame);
        frames := frames + [frame];
      }
    }
    assert groups[..|groups|] == groups;
  }

  /** Behind the last frame of `order` that starts no later than `start`, if those behind it all start later. */
  method InsertionPoint(frames: seq<Frame>, horizontal: bool, order: seq<nat>, start: real) returns (p: nat)
    requires InBounds(order, |frames|)
    ensures p <= |order|
    ensures p > 0 ==> Main(frames[order[p - 1]], horizontal) <= start
    ensures forall a :: p <= a < |order| ==> Main(frames[order[a]], horizontal) > start
  {
    p := |order|;
    while p > 0 && Main(frames[order[p - 1]], horizontal) > start
      invariant p <= |order|
      invariant forall a :: p <= a < |order| ==> Main(frames[order[a]], horizontal) > start
    {
      p := p - 1;
    }
  }

  /** `[...groupBoxes].sort((a, b) => mainOf(a) - mainOf(b))`, which is stable. */
  method SortFrames(frames: seq<Frame>, horizontal: bool) returns (order: seq<nat>)
    ensures Sorted(frames, horizontal, order)
    ensures forall i: nat :: i in order <==> i < |frames|
  {
    order := [];
    for i := 0 to |frames|
      invariant Sorted(frames, horizontal, order)
      invariant forall j: nat :: j in order <==> j < i
    {
      var p := InsertionPoint(frames, horizontal, order, Main(frames[i], horizontal));
      InsertedMembers(order, i, p);
      InsertSorted(frames, horizontal, order, i, p);
      order := order[..p] + [i] + order[p..];
    }
  }

  lemma InsertedMembers(order: seq<nat>, i: nat, p: nat)
    requires p <= |order| && forall j: nat :: j in order <==> j < i
    ensures forall j: nat :: j in order[..p] + [i] + order[p..] <==> j < i + 1
    ensures forall a :: 0 <= a < |order| ==> order[a] < i
  {
    var next := order[..p] + [i] + order[p..];
    assert order == order[..p] + order[p..];
    forall a | 0 <= a < |order| ensures order[a] < i { assert order[a] in order; }
    forall j: nat ensures j in next <==> j < i + 1 {
      assert j in next <==> j in order[..p] || j == i || j in order[p..];
      assert j in order <==> j in order[..p] || j in order[p..];
    }
  }

  /** The entry of `order` that ends up at position `a` once something is inserted at `p`. */
  function Source(a: nat, p: nat): nat
    requires a != p
  {
    if a < p then a else a - 1
  }

  lemma InsertSorted(frames: seq<Frame>, horizontal: bool, order: seq<nat>, i: nat, p: nat)
    requires i < |frames| && p <= |order| && Sorted(frames, horizontal, order)
    requires forall a :: 0 <= a < |order| ==> order[a] < i
    requires forall a :: p <= a < |order| ==> Main(frames[order[a]], horizontal) > Main(frames[i], horizontal)
    requires p > 0 ==> Main(frames[order[p - 1]], horizontal) <= Main(frames[i], horizontal)
    ensures Sorted(frames, horizontal, order[..p] + [i] + order[p..])
  {
    var next := order[..p] + [i] + order[p..];
    forall a: nat | a < |next| && a != p ensures next[a] == order[Source(a, p)] {}
    forall a: nat, b: nat | a < b < |next|
      ensures next[a] != next[b]
      ensures var u, v := Main(frames[next[a]], horizontal), Main(frames[next[b]], horizontal);
              u < v || (u == v && next[a] < next[b])
    {
      if a != p && b != p {
        assert order[Source(a, p)] != order[Source(b, p)];
      } else if b == p && a < p - 1 {
        assert order[a] != order[p - 1];
      }
    }
  }

  class Picture {
    const nodes: seq<Node>
    const horizontal: bool
    var xs: seq<real>
    var ys: seq<real>
    var frames: seq<Frame>

    ghost predicate Valid()
      reads this
    {
      |xs| == |ys| == |nodes|
    }

    constructor (nodes: seq<Node>, horizontal: bool)
      ensures Valid() && this.nodes == nodes && this.horizontal == horizontal
    {
      this.nodes, this.horizontal := nodes, horizontal;
      xs, ys, frames := seq(|nodes|, _ => 0.0), seq(|nodes|, _ => 0.0), [];
    }

    /** Coordinates along the flow of ranks, and across it. */
    function Flows(): seq<real> reads this { if horizontal then xs else ys }
    function Sides(): seq<real> reads this { if horizontal then ys else xs }

    /** Lays one lane out from a running cursor. */
    method PlaceLane(lane: seq<nat>, cross: real)
      requires Valid() && DistinctIndices(lane, |nodes|) && Indices(nodes, lane)
      modifies this
      ensures Valid()
      ensures InRow(lane, cross, Cursors(nodes, lane, horizontal), Flows(), Sides(), |lane|)
      ensures SameOutside(lane, old(Flows()), Flows()) && SameOutside(lane, old(Sides()), Sides())
    {
      ghost var across := Cursors(nodes, lane, horizontal);
      var running := 0.0;
      for k := 0 to |lane|
        invariant Valid() && running == Cursor(nodes, lane, horizontal, k)
        invariant InRow(lane, cross, across, Flows(), Sides(), k)
        invariant SameOutside(lane, old(Flows()), Flows()) && SameOutside(lane, old(Sides()), Sides())
      {
        RowGrows(lane, cross, across, Flows(), Sides(), k);
        assert lane[k] in lane;
        if !horizontal {
          xs, ys := xs[lane[k] := running], ys[lane[k] := cross];
        } else {
          xs, ys := xs[lane[k] := cross], ys[lane[k] := running];
        }
        running := running + (SideSize(nodes[lane[k]], horizontal) + GAP);
      }
    }

    /** The first `l` lanes are placed and the cursor stands behind them. */
    ghost predicate Placed(lanes: seq<seq<nat>>, l: nat, cross: real, lastPairGap: real)
      reads this
    {
      && Valid() && CursorAt(nodes, lanes, horizontal, l, cross, lastPairGap)
      && LanesAt(lanes, FlowTable(nodes, lanes, horizontal), CursorTable(nodes, lanes, horizontal),
                 Flows(), Sides(), 0, l)
    }

    /** One turn of the loop over `laneKeys`: lane `l` goes behind the lanes already placed. */
    method PlaceNext(ghost rank: seq<nat>, ghost keys: seq<nat>, lanes: seq<seq<nat>>, l: nat,
                     cross: real, lastPairGap: real) returns (after: real, pairGap: real)
      requires IsLanes(nodes, rank, keys, lanes) && l < |lanes| && Placed(lanes, l, cross, lastPairGap)
      modifies this
      ensures Placed(lanes, l + 1, after, pairGap)
    {
      ghost var crosses, across := FlowTable(nodes, lanes, horizontal), CursorTable(nodes, lanes, horizontal);
      ghost var f, s := Flows(), Sides();
      var at;
      at, after, pairGap := Advance(nodes, lanes, horizontal, l, cross, lastPairGap);
      LaneIndices(nodes, rank, keys, lanes, l);
      TableEntries(nodes, lanes, horizontal, l);
      PlaceLane(lanes[l], at);
      OtherLanesKept(nodes, rank, keys, lanes, crosses, across, f, s, Flows(), Sides(), 0, l, l);
      LaneAdded(lanes, crosses, across, Flows(), Sides(), l);
    }

    /** The loop over `laneKeys` that stacks the lanes along the flow. */
    method PlaceLanes(ghost rank: seq<nat>, ghost keys: seq<nat>, lanes: seq<seq<nat>>) returns (span: real)
      requires Valid() && IsLanes(nodes, rank, keys, lanes) && AllIndices(nodes, lanes)
      modifies this
      ensures Valid() && span == Span(nodes, lanes, horizontal)
      ensures LanesAt(lanes, FlowTable(nodes, lanes, horizontal), CursorTable(nodes, lanes, horizontal),
                      Flows(), Sides(), 0, |lanes|)
    {
      var cross, lastPairGap := 0.0, GAP;
      for l := 0 to |lanes|
        invariant Placed(lanes, l, cross, lastPairGap)
      {
        cross, lastPairGap := PlaceNext(rank, keys, lanes, l, cross, lastPairGap);
      }
      SpanOfCursor(nodes, lanes, horizontal, cross, lastPairGap);
      span := MaxReal(0.0, cross - lastPairGap);
    }

    /** Moves the boxes of one lane across the flow. */
    method ShiftLane(lane: seq<nat>, shift: real)
      requires Valid() && DistinctIndices(lane, |nodes|)
      modifies this
      ensures Valid() && Flows() == old(Flows())
      ensures MovedAt(old(Sides()), Sides(), lane, shift, |lane|)
    {
      for k := 0 to |lane|
        invariant Valid() && Flows() == old(Flows())
        invariant MovedAt(old(Sides()), Sides(), lane, shift, k)
      {
        MovedAtNext(old(Sides()), Sides(), lane, shift, k);
        if horizontal {
          ys := ys[lane[k] := ys[lane[k]] + shift];
        } else {
          xs := xs[lane[k] := xs[lane[k]] + shift];
        }
      }
    }

    method CenterLanes(ghost rank: seq<nat>, ghost keys: seq<nat>, lanes: seq<seq<nat>>, span: real)
      requires Valid() && IsLanes(nodes, rank, keys, lanes) && AllIndices(nodes, lanes)
      requires span == Span(nodes, lanes, horizontal)
      requires LanesAt(lanes, FlowTable(nodes, lanes, horizontal), CursorTable(nodes, lanes, horizontal),
                       Flows(), Sides(), 0, |lanes|)
      modifies this
      ensures Valid()
      ensures LanesAt(lanes, FlowTable(nodes, lanes, horizontal), SideTable(nodes, lanes, horizontal),
                      Flows(), Sides(), 0, |lanes|)
    {
      hide FlowTable, CursorTable, SideTable, LaneLength, Span, IsLanes, AllIndices;
      ghost var crosses := FlowTable(nodes, lanes, horizontal);
      ghost var across, centred := CursorTable(nodes, lanes, horizontal), SideTable(nodes, lanes, horizontal);
      for l := 0 to |lanes|
        invariant Valid()
        invariant LanesAt(lanes, crosses, across, Flows(), Sides(), l, |lanes|)
        invariant LanesAt(lanes, crosses, centred, Flows(), Sides(), 0, l)
      {
        ghost var f, s := Flows(), Sides();
        LaneIndices(nodes, rank, keys, lanes, l);
        TableEntries(nodes, lanes, horizontal, l);
        var shift := (span - LaneLength(nodes, lanes[l], horizontal)) / 2.0;
        ShiftLane(lanes[l], shift);
        MovedRow(lanes[l], crosses[l], across[l], f, s, Sides(), shift);
        OtherLanesKept(nodes, rank, keys, lanes, crosses, centred, f, s, f, Sides(), 0, l, l);
        OtherLanesKept(nodes, rank, keys, lanes, crosses, across, f, s, f, Sides(), l + 1, |lanes|, l);
        LaneAdded(lanes, crosses, centred, f, Sides(), l);
      }
    }

    method ApplyPins()
      requires Valid()
      modifies this
      ensures Valid() && PinsApplied(nodes, old(xs), old(ys), xs, ys, |nodes|)
    {
      for i := 0 to |nodes|
        invariant Valid() && PinsApplied(nodes, old(xs), old(ys), xs, ys, i)
      {
        if nodes[i].pinX.Fixed? { xs := xs[i := nodes[i].pinX.at]; }
        if nodes[i].pinY.Fixed? { ys := ys[i := nodes[i].pinY.at]; }
      }
    }

    /** Moves the whole drawing so that its least coordinates are the paddings. */
    method Normalize() returns (ghost dx: real, ghost dy: real)
      requires Valid()
      modifies this
      ensures Valid() && xs == Shifted(old(xs), dx) && ys == Shifted(old(ys), dy)
      ensures |nodes| > 0 ==> IsLeast(xs, PadLeft(nodes)) && IsLeast(ys, PadTop(nodes))
    {
      hide Shifted, ShiftedUpTo, IsLeast, PadLeft, PadTop;
      dx, dy := 0.0, 0.0;
      if |nodes| == 0 {
        ShiftedEnds(xs, dx);
        ShiftedEnds(ys, dy);
        return;
      }
      var originX := Least(xs);
      var originY := Least(ys);
      var padLeft, padTop := PadLeft(nodes), PadTop(nodes);
      dx, dy := padLeft - originX, padTop - originY;
      LeastShifted(xs, originX, dx);
      LeastShifted(ys, originY, dy);
      ShiftedEnds(xs, dx);
      ShiftedEnds(ys, dy);
      for i := 0 to |nodes|
        invariant Valid()
        invariant xs == ShiftedUpTo(old(xs), dx, i) && ys == ShiftedUpTo(old(ys), dy, i)
      {
        ShiftedNext(old(xs), dx, i);
        ShiftedNext(old(ys), dy, i);
        xs, ys := xs[i := xs[i] + (padLeft - originX)], ys[i := ys[i] + (padTop - originY)];
      }
    }

    /** Where a frame has to start to clear the frames placed before it. */
    method FindStart(order: seq<nat>, t: nat) returns (start: real)
      requires InBounds(order, |frames|) && t < |order|
      ensures start == ClearStart(frames, horizontal, order, frames[order[t]], t)
    {
      var frame := frames[order[t]];
      start := Main(frame, horizontal);
      for p := 0 to t
        invariant start == ClearStart(frames, horizontal, order, frame, p)
      {
        var prev := frames[order[p]];
        var crossOverlap := CrossOverlap(prev, frame, horizontal);
        if crossOverlap > 0.0 {
          start := MaxReal(start, Main(prev, horizontal) + MainSize(prev, horizontal) + GROUP_GAP);
        }
      }
    }

    /** `shiftGroupMembers`. */
    method ShiftMembers(id: string, amount: real)
      requires Valid()
      modifies this`xs, this`ys
      ensures Valid() && Sides() == old(Sides())
      ensures Flows() == MoveMembers(nodes, id, old(Flows()), amount, |nodes|)
    {
      for i := 0 to |nodes|
        invariant Valid() && Sides() == old(Sides())
        invariant Flows() == MoveMembers(nodes, id, old(Flows()), amount, i)
      {
        MoveNext(nodes, id, old(Flows()), amount, i);
        if nodes[i].group == id {
          if horizontal { xs := xs[i := xs[i] + amount]; } else { ys := ys[i := ys[i] + amount]; }
        }
      }
    }

    /** One turn of the sweep. */
    method SweepOne(order: seq<nat>, t: nat)
      requires Valid() && InBounds(order, |frames|) && t < |order|
      modifies this
      ensures Valid() && Sides() == old(Sides())
      ensures Swept(frames, Flows()) == SweepStep(nodes, horizontal, order, old(Swept(frames, Flows())), t)
    {
      var start := FindStart(order, t);
      var frame := frames[order[t]];
      var deficit := start - Main(frame, horizontal);
      StayPut(nodes, horizontal, frames, order[t], Flows());
      if deficit > 0.0 {
        frames := frames[order[t] := MoveFrame(frame, horizontal, deficit)];
        ShiftMembers(frame.id, deficit);
      }
    }

    /** The sweep over the sorted frames. */
    method SweepFrames() returns (order: seq<nat>)
      requires Valid()
      modifies this
      ensures Valid() && Sides() == old(Sides()) && Sorted(old(frames), horizontal, order)
      ensures forall i: nat :: i in order <==> i < |old(frames)|
      ensures Swept(frames, Flows())
           == Sweep(nodes, horizontal, order, old(Swept(frames, Flows())), |order|)
    {
      order := SortFrames(frames, horizontal);
      ghost var start := Swept(frames, Flows());
      for t := 0 to |order|
        invariant Valid() && Sides() == old(Sides())
        invariant Swept(frames, Flows()) == Sweep(nodes, horizontal, order, start, t)
      {
        SweepOne(order, t);
      }
    }
  }

  // ---- from the specification to the arranged boxes --------------------------------------

  function Ids(nodes: seq<Node>): (ids: seq<string>)
    ensures |ids| == |nodes|
  {
    seq(|nodes|, i requires 0 <= i < |nodes| => nodes[i].id)
  }

  /** Edges whose two ends are ids of nodes. */
  function ValidEdges(ids: seq<string>, edges: seq<Edge>): (r: seq<Edge>)
    ensures forall e :: e in r <==> e in edges && e.from in ids && e.to in ids
  {
    if |edges| == 0 then []
    else
      var init := ValidEdges(ids, edges[..|edges| - 1]);
      var e := edges[|edges| - 1];
      assert edges == edges[..|edges| - 1] + [e];
      if e.from in ids && e.to in ids then init + [e] else init
  }

  /** An arc only needs one of its edges. */
  lemma ArcKept(g: Graph, h: Graph, u: nat, v: nat)
    requires g.n == h.n && g.index == h.index && Arc(g, u, v)
    requires forall e :: e in g.edges && e.from in g.index && e.to in g.index ==> e in h.edges
    ensures Arc(h, u, v)
  {
    var e :| 0 <= e < |g.edges| && Resolves(g, g.edges[e], u, v);
    assert g.edges[e] in h.edges;
    var k :| 0 <= k < |h.edges| && h.edges[k] == g.edges[e];
    assert Resolves(h, h.edges[k], u, v);
  }

  /** Dropping the other edges drops no arc. */
  lemma SameArcs(ids: seq<string>, edges: seq<Edge>, u: nat, v: nat)
    ensures Arc(GraphOf(ids, edges), u, v) <==> Arc(GraphOf(ids, ValidEdges(ids, edges)), u, v)
  {
    hide IndexMap, Arc, ValidEdges;
    var g, h := GraphOf(ids, edges), GraphOf(ids, ValidEdges(ids, edges));
    if Arc(g, u, v) { ArcKept(g, h, u, v); }
    if Arc(h, u, v) { ArcKept(h, g, u, v); }
  }

  lemma SameCycles(ids: seq<string>, edges: seq<Edge>)
    ensures Acyclic(GraphOf(ids, edges)) <==> Acyclic(GraphOf(ids, ValidEdges(ids, edges)))
  {
    var g, h := GraphOf(ids, edges), GraphOf(ids, ValidEdges(ids, edges));
    forall p: seq<nat> ensures IsWalk(g, p) <==> IsWalk(h, p) {
      forall i | 0 <= i < |p| - 1 ensures Arc(g, p[i], p[i + 1]) <==> Arc(h, p[i], p[i + 1]) {
        SameArcs(ids, edges, p[i], p[i + 1]);
      }
    }
  }

  /** No two boxes crowd each other, and on acyclic input every edge runs forward. */
  ghost predicate Readable(nodes: seq<Node>, edges: seq<Edge>, horizontal: bool, flows: seq<real>, sides: seq<real>) {
    var at, g := Spot(flows, sides), GraphOf(Ids(nodes), edges);
    && |flows| == |sides| == |nodes|
    && (forall i: nat, j: nat :: i < |nodes| && j < |nodes| && i != j && Unpinned(nodes[i]) && Unpinned(nodes[j])
          ==> Clear(at, nodes, horizontal, i, j))
    && (Acyclic(g) ==> forall u: nat, v: nat ::
          Arc(g, u, v) && u < |nodes| && v < |nodes| && Unpinned(nodes[u]) && Unpinned(nodes[v])
          ==> Before(at(u).0, FlowSize(nodes[u], horizontal), at(v).0))
  }

  /** The exact coordinates behind that, and that they are readable. */
  lemma PlacedIsReadable(nodes: seq<Node>, edges: seq<Edge>, horizontal: bool, rank: seq<nat>, keys: seq<nat>,
                         lanes: seq<seq<nat>>, flows: seq<real>, sides: seq<real>, flow: real, side: real)
    requires IsLanes(nodes, rank, keys, lanes) && AllIndices(nodes, lanes)
    requires var g := GraphOf(Ids(nodes), ValidEdges(Ids(nodes), edges)); Fixpoint(g, rank) <==> Acyclic(g)
    requires |flows| == |sides| == |nodes|
    requires Follows(Spot(flows, sides), nodes, lanes, horizontal, FlowTable(nodes, lanes, horizontal),
                     SideTable(nodes, lanes, horizontal), flow, side)
    ensures Readable(nodes, edges, horizontal, flows, sides)
  {
    var at := Spot(flows, sides);
    var g, h := GraphOf(Ids(nodes), edges), GraphOf(Ids(nodes), ValidEdges(Ids(nodes), edges));
    forall i: nat, j: nat | i < |nodes| && j < |nodes| && i != j && Unpinned(nodes[i]) && Unpinned(nodes[j])
      ensures Clear(at, nodes, horizontal, i, j)
    {
      BoxesClear(at, nodes, rank, keys, lanes, horizontal, flow, side, i, j);
    }
    SameCycles(Ids(nodes), edges);
    if Acyclic(g) {
      forall u: nat, v: nat | Arc(g, u, v) && u < |nodes| && v < |nodes| && Unpinned(nodes[u]) && Unpinned(nodes[v])
        ensures Before(at(u).0, FlowSize(nodes[u], horizontal), at(v).0)
      {
        SameArcs(Ids(nodes), edges, u, v);
        ArcsRunForward(at, nodes, h, rank, keys, lanes, horizontal, flow, side, u, v);
      }
    }
  }

  /** One box of a row, after pins and one common shift: still in its row on each free axis. */
  lemma RowShifted(nodes: seq<Node>, lane: seq<nat>, cross: real, across: seq<real>, horizontal: bool,
                   xs: seq<real>, ys: seq<real>, xs1: seq<real>, ys1: seq<real>, dx: real, dy: real, k: nat)
    requires PinsApplied(nodes, xs, ys, xs1, ys1, |nodes|) && k < |lane|
    requires InRow(lane, cross, across, if horizontal then xs else ys, if horizontal then ys else xs, |lane|)
    ensures var xs2, ys2 := Shifted(xs1, dx), Shifted(ys1, dy);
            var spot := Spot(if horizontal then xs2 else ys2, if horizontal then ys2 else xs2)(lane[k]);
            && (FlowFree(nodes[lane[k]], horizontal) ==> spot.0 == cross + if horizontal then dx else dy)
            && (SideFree(nodes[lane[k]], horizontal) ==> spot.1 == across[k] + if horizontal then dy else dx)
  {
  }

  /** Rows, then pins, then one common shift: on free axes boxes keep their rows up to that shift. */
  lemma RowsShifted(nodes: seq<Node>, lanes: seq<seq<nat>>, crosses: seq<real>, across: seq<seq<real>>,
                    horizontal: bool, xs: seq<real>, ys: seq<real>, xs1: seq<real>, ys1: seq<real>, dx: real, dy: real)
    requires LanesAt(lanes, crosses, across, if horizontal then xs else ys, if horizontal then ys else xs, 0, |lanes|)
    requires PinsApplied(nodes, xs, ys, xs1, ys1, |nodes|)
    ensures var xs2, ys2 := Shifted(xs1, dx), Shifted(ys1, dy);
            Follows(Spot(if horizontal then xs2 else ys2, if horizontal then ys2 else xs2), nodes, lanes,
                    horizontal, crosses, across, if horizontal then dx else dy, if horizontal then dy else dx)
  {
    var xs2, ys2 := Shifted(xs1, dx), Shifted(ys1, dy);
    var at := Spot(if horizontal then xs2 else ys2, if horizontal then ys2 else xs2);
    var flow, side := if horizontal then dx else dy, if horizontal then dy else dx;
    forall l: nat, k: nat, i: nat | InLane(lanes, l, k, i) && i < |nodes|
      ensures FlowFree(nodes[i], horizontal) ==> at(i).0 == crosses[l] + flow
      ensures SideFree(nodes[i], horizontal) ==> at(i).1 == across[l][k] + side
    {
      RowShifted(nodes, lanes[l], crosses[l], across[l], horizontal, xs, ys, xs1, ys1, dx, dy, k);
    }
  }

  /** The drawing before the sweep: ranks, lanes, the common shift, coordinates, and frames. */
  datatype Draft = Draft(rank: seq<nat>, keys: seq<nat>, lanes: seq<seq<nat>>, dx: real, dy: real,
                         xs: seq<real>, ys: seq<real>, frames: seq<Frame>)

  function FlowsOf(d: Draft, horizontal: bool): seq<real> { if horizontal then d.xs else d.ys }
  function SidesOf(d: Draft, horizontal: bool): seq<real> { if horizontal then d.ys else d.xs }

  /** What `assignRanks` promises. */
  ghost predicate Ranked(g: Graph, rank: seq<nat>) {
    && Sound(g, rank) && Dominates(g, rank, g.n)
    && (Fixpoint(g, rank) <==> Acyclic(g))
    && (Acyclic(g) ==> Longest(g, rank))
  }

  /** Pinned coordinates as given, up to the common shift. */
  ghost predicate PinsKept(nodes: seq<Node>, xs: seq<real>, ys: seq<real>, dx: real, dy: real) {
    && |xs| == |ys| == |nodes|
    && forall i :: 0 <= i < |nodes| ==>
         && (nodes[i].pinX.Fixed? ==> xs[i] == nodes[i].pinX.at + dx)
         && (nodes[i].pinY.Fixed? ==> ys[i] == nodes[i].pinY.at + dy)
  }

  /** Boxes in their lanes by longest path, pins applied, moved so that the least coordinates are the paddings. */
  ghost predicate Arranged(nodes: seq<Node>, edges: seq<Edge>, horizontal: bool, d: Draft) {
    && Ranked(GraphOf(Ids(nodes), ValidEdges(Ids(nodes), edges)), d.rank)
    && Laid(nodes, d.rank, d.keys, d.lanes, horizontal, FlowsOf(d, horizontal), SidesOf(d, horizontal),
            if horizontal then d.dx else d.dy, if horizontal then d.dy else d.dx)
    && PinsKept(nodes, d.xs, d.ys, d.dx, d.dy)
    && (|nodes| > 0 ==> IsLeast(d.xs, PadLeft(nodes)) && IsLeast(d.ys, PadTop(nodes)))
  }

  lemma ArrangedLanes(nodes: seq<Node>, edges: seq<Edge>, horizontal: bool, d: Draft)
    requires Arranged(nodes, edges, horizontal, d)
    ensures |d.rank| == |nodes| && AllIndices(nodes, d.lanes)
  {
  }

  /** The drawing before the sweep in plain numbers. */
  lemma ArrangedIsTidy(nodes: seq<Node>, edges: seq<Edge>, horizontal: bool, d: Draft)
    requires Arranged(nodes, edges, horizontal, d)
    ensures Tidy(nodes, d.rank, d.lanes, horizontal, FlowsOf(d, horizontal), SidesOf(d, horizontal))
  {
    hide Laid, Tidy;
    LaidIsTidy(nodes, d.rank, d.keys, d.lanes, horizontal, FlowsOf(d, horizontal), SidesOf(d, horizontal),
               if horizontal then d.dx else d.dy, if horizontal then d.dy else d.dx);
  }

  lemma ArrangedIsReadable(nodes: seq<Node>, edges: seq<Edge>, horizontal: bool, d: Draft)
    requires Arranged(nodes, edges, horizontal, d)
    ensures Readable(nodes, edges, horizontal, FlowsOf(d, horizontal), SidesOf(d, horizontal))
  {
    PlacedIsReadable(nodes, edges, horizontal, d.rank, d.keys, d.lanes, FlowsOf(d, horizontal), SidesOf(d, horizontal),
                     if horizontal then d.dx else d.dy, if horizontal then d.dy else d.dx);
  }

  lemma PinsShifted(nodes: seq<Node>, xs: seq<real>, ys: seq<real>, xs1: seq<real>, ys1: seq<real>, dx: real, dy: real)
    requires PinsApplied(nodes, xs, ys, xs1, ys1, |nodes|)
    ensures PinsKept(nodes, Shifted(xs1, dx), Shifted(ys1, dy), dx, dy)
  {
  }

  /** Rows, pins and one common shift make an arranged drawing. */
  lemma DraftIsArranged(nodes: seq<Node>, edges: seq<Edge>, horizontal: bool, xs: seq<real>, ys: seq<real>,
                        xs1: seq<real>, ys1: seq<real>, d: Draft)
    requires Ranked(GraphOf(Ids(nodes), ValidEdges(Ids(nodes), edges)), d.rank)
    requires IsLanes(nodes, d.rank, d.keys, d.lanes) && AllIndices(nodes, d.lanes)
    requires LanesAt(d.lanes, FlowTable(nodes, d.lanes, horizontal), SideTable(nodes, d.lanes, horizontal),
                     if horizontal then xs else ys, if horizontal then ys else xs, 0, |d.lanes|)
    requires PinsApplied(nodes, xs, ys, xs1, ys1, |nodes|)
    requires d.xs == Shifted(xs1, d.dx) && d.ys == Shifted(ys1, d.dy)
    requires |nodes| > 0 ==> IsLeast(d.xs, PadLeft(nodes)) && IsLeast(d.ys, PadTop(nodes))
    ensures Arranged(nodes, edges, horizontal, d)
    ensures Readable(nodes, edges, horizontal, FlowsOf(d, horizontal), SidesOf(d, horizontal))
    ensures Tidy(nodes, d.rank, d.lanes, horizontal, FlowsOf(d, horizontal), SidesOf(d, horizontal))
  {
    hide Ranked, Readable, IsLeast, IsLanes, Follows, AllIndices, FlowTable, SideTable, PadLeft, PadTop, Tidy, LanesAt;
    RowsShifted(nodes, d.lanes, FlowTable(nodes, d.lanes, horizontal), SideTable(nodes, d.lanes, horizontal),
                horizontal, xs, ys, xs1, ys1, d.dx, d.dy);
    PinsShifted(nodes, xs, ys, xs1, ys1, d.dx, d.dy);
    hide PinsApplied, PinsKept;
    ArrangedIsReadable(nodes, edges, horizontal, d);
    ArrangedIsTidy(nodes, edges, horizontal, d);
  }

  /** `computeLayout` up to the normalised boxes. */
  method Arrange(nodes: seq<Node>, edges: seq<Edge>, horizontal: bool) returns (picture: Picture, ghost draft: Draft)
    ensures fresh(picture) && picture.Valid() && picture.nodes == nodes && picture.horizontal == horizontal
    ensures Arranged(nodes, edges, horizontal, draft) && picture.xs == draft.xs && picture.ys == draft.ys
    ensures Readable(nodes, edges, horizontal, picture.Flows(), picture.Sides())
    ensures Tidy(nodes, draft.rank, draft.lanes, horizontal, picture.Flows(), picture.Sides())
  {
    picture := new Picture(nodes, horizontal);
    var ranks := AssignRanks(Ids(nodes), ValidEdges(Ids(nodes), edges));
    var rank := ranks[..];
    assert Ranked(GraphOf(Ids(nodes), ValidEdges(Ids(nodes), edges)), rank);
    hide Ranked, Readable, Sound, Dominates, Fixpoint, Acyclic, Longest, IsLeast, IsLanes, Follows, AllIndices;
    hide FlowTable, SideTable, PadLeft, PadTop, Tidy, LanesAt, PinsApplied, Arranged;
    var keys, lanes := BuildLanes(nodes, rank);
    LanesIndex(nodes, rank, keys, lanes);
    var span := picture.PlaceLanes(rank, keys, lanes);
    picture.CenterLanes(rank, keys, lanes, span);
    ghost var xs, ys := picture.xs, picture.ys;
    picture.ApplyPins();
    ghost var xs1, ys1 := picture.xs, picture.ys;
    ghost var dx, dy := picture.Normalize();
    draft := Draft(rank, keys, lanes, dx, dy, picture.xs, picture.ys, []);
    DraftIsArranged(nodes, edges, horizontal, xs, ys, xs1, ys1, draft);
  }

  // ---- frames and canvas --------------------------------------------------------------------

  /** At least 32 on every side. */
  predicate Inside(x: real, y: real, w: real, h: real, width: real, height: real) {
    32.0 <= x && 32.0 <= y && x + w + 32.0 <= width && y + h + 32.0 <= height
  }

  ghost predicate BoxesInside(nodes: seq<Node>, xs: seq<real>, ys: seq<real>, width: real, height: real) {
    |xs| == |ys| == |nodes| && forall i :: 0 <= i < |nodes| ==>
      Inside(xs[i], ys[i], nodes[i].width, nodes[i].height, width, height)
  }

  ghost predicate FramesInside(frames: seq<Frame>, width: real, height: real) {
    forall i :: 0 <= i < |frames| ==>
      Inside(frames[i].x, frames[i].y, frames[i].width, frames[i].height, width, height)
  }

  /** The cross axis is left alone by the sweep. */
  lemma CrossKept(nodes: seq<Node>, horizontal: bool, xs: seq<real>, ys: seq<real>, f: Frame,
                  flows: seq<real>, g: Frame)
    requires Wraps(nodes, xs, ys, f) && Forward(f, g, horizontal)
    requires SpansMain(nodes, flows, horizontal, g)
    ensures Wraps(nodes, if horizontal then flows else xs, if horizontal then ys else flows, g)
  {
  }

  lemma SpansBefore(nodes: seq<Node>, horizontal: bool, xs: seq<real>, ys: seq<real>, frames: seq<Frame>)
    requires AllWrap(nodes, xs, ys, frames)
    ensures AllSpan(nodes, horizontal, Swept(frames, if horizontal then xs else ys))
  {
    forall i | 0 <= i < |frames|
      ensures SpansMain(nodes, if horizontal then xs else ys, horizontal, frames[i])
    {
      assert Wraps(nodes, xs, ys, frames[i]);
    }
  }

  lemma DistinctStayWrapped(nodes: seq<Node>, horizontal: bool, xs: seq<real>, ys: seq<real>,
                            frames: seq<Frame>, r: Swept)
    requires AllWrap(nodes, xs, ys, frames)
    requires AllForward(Swept(frames, if horizontal then xs else ys), r, horizontal)
    requires AllSpan(nodes, horizontal, r)
    ensures AllWrap(nodes, if horizontal then r.flows else xs, if horizontal then ys else r.flows, r.frames)
  {
    forall i | 0 <= i < |r.frames|
      ensures Wraps(nodes, if horizontal then r.flows else xs, if horizontal then ys else r.flows, r.frames[i])
    {
      assert Wraps(nodes, xs, ys, frames[i]) && Forward(frames[i], r.frames[i], horizontal);
      assert SpansMain(nodes, r.flows, horizontal, r.frames[i]);
      CrossKept(nodes, horizontal, xs, ys, frames[i], r.flows, r.frames[i]);
    }
  }

  lemma RepeatedComeLoose(nodes: seq<Node>, horizontal: bool, order: seq<nat>, xs: seq<real>, ys: seq<real>,
                          frames: seq<Frame>, i: nat, j: nat)
    requires |xs| == |ys| == |nodes| && Sorted(frames, horizontal, order)
    requires forall k: nat :: k in order <==> k < |frames|
    requires AllWrap(nodes, xs, ys, frames)
    requires i < j < |frames| && frames[i].id == frames[j].id
    ensures var r := Sweep(nodes, horizontal, order, Swept(frames, if horizontal then xs else ys), |order|);
            !AllSpan(nodes, horizontal, r)
  {
    assert i in order && j in order;
    var a: nat :| a < |order| && order[a] == i;
    var b: nat :| b < |order| && order[b] == j;
    if a < b {
      RepeatBreaks(nodes, horizontal, order, xs, ys, frames, a, b);
    } else {
      RepeatBreaks(nodes, horizontal, order, xs, ys, frames, b, a);
    }
  }

  lemma WrapNeedsSpan(nodes: seq<Node>, horizontal: bool, xs: seq<real>, ys: seq<real>, r: Swept)
    requires AllWrap(nodes, if horizontal then r.flows else xs, if horizontal then ys else r.flows, r.frames)
    ensures AllSpan(nodes, horizontal, r)
  {
    forall i | 0 <= i < |r.frames| ensures SpansMain(nodes, r.flows, horizontal, r.frames[i]) {
      assert Wraps(nodes, if horizontal then r.flows else xs, if horizontal then ys else r.flows, r.frames[i]);
    }
  }

  /** The sweep leaves every frame around its members exactly when no two frames share an id. */
  lemma SweptWrap(nodes: seq<Node>, horizontal: bool, order: seq<nat>, xs: seq<real>, ys: seq<real>,
                  s: Swept, r: Swept)
    requires |xs| == |ys| == |nodes| && Sorted(s.frames, horizontal, order)
    requires forall i: nat :: i in order <==> i < |s.frames|
    requires AllWrap(nodes, xs, ys, s.frames) && s.flows == (if horizontal then xs else ys)
    requires r == Sweep(nodes, horizontal, order, s, |order|)
    ensures AllWrap(nodes, if horizontal then r.flows else xs, if horizontal then ys else r.flows, r.frames)
            <==> UniqueIds(s.frames)
  {
    hide Sweep, Wraps, AllWrap, AllSpan, AllForward;
    if UniqueIds(s.frames) {
      SpansBefore(nodes, horizontal, xs, ys, s.frames);
      SweepWraps(nodes, horizontal, order, s);
      SweepMoves(nodes, horizontal, order, s, |order|);
      DistinctStayWrapped(nodes, horizontal, xs, ys, s.frames, r);
    } else {
      var i: nat, j: nat :| i < j < |s.frames| && s.frames[i].id == s.frames[j].id;
      RepeatedComeLoose(nodes, horizontal, order, xs, ys, s.frames, i, j);
      if AllWrap(nodes, if horizontal then r.flows else xs, if horizontal then ys else r.flows, r.frames) {
        WrapNeedsSpan(nodes, horizontal, xs, ys, r);
      }
    }
  }

  /** Where the frames of a normalised drawing start. */
  lemma FrameOrigin(nodes: seq<Node>, xs: seq<real>, ys: seq<real>, f: Frame)
    requires Wraps(nodes, xs, ys, f)
    requires IsLeast(xs, PadLeft(nodes)) && IsLeast(ys, PadTop(nodes))
    ensures AnyGrouped(nodes) ==> f.x >= FRAME_PAD && f.y >= FRAME_PAD
    ensures !AnyGrouped(nodes) ==> f.x < FRAME_PAD && f.y < FRAME_PAD
  {
    var i: nat :| Member(nodes, f.id, i) && xs[i] == f.x + GROUP_PAD_X;
    var j: nat :| Member(nodes, f.id, j) && ys[j] == f.y + GROUP_PAD_TOP;
    if !AnyGrouped(nodes) {
      assert nodes[i].group == "";
      var p: nat :| p < |xs| && xs[p] == PadLeft(nodes);
      var q: nat :| q < |ys| && ys[q] == PadTop(nodes);
      assert nodes[p].group == "" && nodes[q].group == "";
      assert Member(nodes, f.id, p) && Member(nodes, f.id, q);
    }
  }

  /**
   Near edges: boxes always keep the margin. Frames keep it exactly when some node names a group, or
   there are no frames; the one way to fail is a group with the empty id, framed although nobody
   reserved room for it.
  */
  lemma NearMargins(nodes: seq<Node>, horizontal: bool, xs: seq<real>, ys: seq<real>, s: Swept, r: Swept)
    requires |xs| == |ys| == |nodes| > 0 && s.flows == (if horizontal then xs else ys)
    requires IsLeast(xs, PadLeft(nodes)) && IsLeast(ys, PadTop(nodes))
    requires AllWrap(nodes, xs, ys, s.frames) && AllForward(s, r, horizontal)
    ensures var xs', ys' := if horizontal then r.flows else xs, if horizontal then ys else r.flows;
            forall i :: 0 <= i < |nodes| ==> xs'[i] >= FRAME_PAD && ys'[i] >= FRAME_PAD
    ensures (forall i :: 0 <= i < |r.frames| ==> r.frames[i].x >= FRAME_PAD && r.frames[i].y >= FRAME_PAD)
            <==> AnyGrouped(nodes) || |r.frames| == 0
  {
    forall i | 0 <= i < |r.frames|
      ensures AnyGrouped(nodes) ==> r.frames[i].x >= FRAME_PAD && r.frames[i].y >= FRAME_PAD
      ensures !AnyGrouped(nodes) ==> r.frames[i].x < FRAME_PAD || r.frames[i].y < FRAME_PAD
    {
      assert Wraps(nodes, xs, ys, s.frames[i]) && Forward(s.frames[i], r.frames[i], horizontal);
      FrameOrigin(nodes, xs, ys, s.frames[i]);
    }
    if !AnyGrouped(nodes) && |r.frames| > 0 {
      assert r.frames[0].x < FRAME_PAD || r.frames[0].y < FRAME_PAD;
    }
  }

  /** The least side of at least 120 that leaves 32 behind every box and frame. */
  ghost predicate CanvasSide(nodes: seq<Node>, pos: seq<real>, wide: bool, frames: seq<Frame>, size: real) {
    && |pos| == |nodes| && size >= 120.0
    && (forall i :: 0 <= i < |nodes| ==> pos[i] + Extent(nodes[i], wide) + 32.0 <= size)
    && (forall i :: 0 <= i < |frames| ==> FarEdge(frames[i], wide) + 32.0 <= size)
    && (|| size == 120.0
        || (exists i :: 0 <= i < |nodes| && size == pos[i] + Extent(nodes[i], wide) + 32.0)
        || (exists i :: 0 <= i < |frames| && size == FarEdge(frames[i], wide) + 32.0))
  }

  /** The far edges: the canvas is as wide as its furthest box or frame, and never under 120. */
  method Canvas(nodes: seq<Node>, pos: seq<real>, wide: bool, frames: seq<Frame>) returns (size: real)
    requires |pos| == |nodes|
    ensures CanvasSide(nodes, pos, wide, frames, size)
  {
    size := 120.0;
    for i := 0 to |nodes|
      invariant size >= 120.0
      invariant forall j :: 0 <= j < i ==> pos[j] + Extent(nodes[j], wide) + FRAME_PAD <= size
      invariant size == 120.0
             || exists j :: 0 <= j < |nodes| && size == pos[j] + Extent(nodes[j], wide) + FRAME_PAD
    {
      size := MaxReal(size, pos[i] + Extent(nodes[i], wide) + FRAME_PAD);
    }
    for i := 0 to |frames|
      invariant size >= 120.0
      invariant forall j :: 0 <= j < |nodes| ==> pos[j] + Extent(nodes[j], wide) + FRAME_PAD <= size
      invariant forall j :: 0 <= j < i ==> FarEdge(frames[j], wide) + FRAME_PAD <= size
      invariant || size == 120.0
                || (exists j :: 0 <= j < |nodes| && size == pos[j] + Extent(nodes[j], wide) + FRAME_PAD)
                || (exists j :: 0 <= j < |frames| && size == FarEdge(frames[j], wide) + FRAME_PAD)
    {
      size := MaxReal(size, FarEdge(frames[i], wide) + FRAME_PAD);
    }
  }

  function FarEdge(f: Frame, wide: bool): real { if wide then f.x + f.width else f.y + f.height }

  /** Whether any group of the specification gets a frame, and whether two of them share an id. */
  ghost predicate DistinctFrames(nodes: seq<Node>, groups: seq<string>) {
    Distinct(FrameIds(nodes, groups))
  }

  /** Everything the drawing promises about its frames and its canvas. */
  ghost predicate Framed(nodes: seq<Node>, groups: seq<string>, horizontal: bool, xs: seq<real>, ys: seq<real>,
                         frames: seq<Frame>, width: real, height: real) {
    && |frames| == |FrameIds(nodes, groups)|
    && (forall i :: 0 <= i < |frames| ==> frames[i].id == FrameIds(nodes, groups)[i])
    && AllClear(frames, horizontal)
    && (AllWrap(nodes, xs, ys, frames) <==> DistinctFrames(nodes, groups))
    && BoxesInside(nodes, xs, ys, width, height)
    && (FramesInside(frames, width, height) <==> AnyGrouped(nodes) || |frames| == 0)
  }

  ghost predicate FarInside(nodes: seq<Node>, xs: seq<real>, ys: seq<real>, frames: seq<Frame>,
                            width: real, height: real) {
    && |xs| == |ys| == |nodes|
    && (forall i :: 0 <= i < |nodes| ==>
          xs[i] + Extent(nodes[i], true) + FRAME_PAD <= width && ys[i] + Extent(nodes[i], false) + FRAME_PAD <= height)
    && forall i :: 0 <= i < |frames| ==>
         FarEdge(frames[i], true) + FRAME_PAD <= width && FarEdge(frames[i], false) + FRAME_PAD <= height
  }

  lemma CanvasHolds(nodes: seq<Node>, xs: seq<real>, ys: seq<real>, frames: seq<Frame>, width: real, height: real)
    requires CanvasSide(nodes, xs, true, frames, width) && CanvasSide(nodes, ys, false, frames, height)
    ensures FarInside(nodes, xs, ys, frames, width, height)
  {
  }

  lemma Margins(nodes: seq<Node>, horizontal: bool, xs: seq<real>, ys: seq<real>, s: Swept, r: Swept,
                xs': seq<real>, ys': seq<real>, width: real, height: real)
    requires |xs| == |ys| == |nodes| && s.flows == (if horizontal then xs else ys)
    requires |nodes| > 0 ==> IsLeast(xs, PadLeft(nodes)) && IsLeast(ys, PadTop(nodes))
    requires AllWrap(nodes, xs, ys, s.frames) && AllForward(s, r, horizontal)
    requires xs' == (if horizontal then r.flows else xs) && ys' == if horizontal then ys else r.flows
    requires FarInside(nodes, xs', ys', r.frames, width, height)
    ensures BoxesInside(nodes, xs', ys', width, height)
    ensures FramesInside(r.frames, width, height) <==> AnyGrouped(nodes) || |r.frames| == 0
  {
    FramesNeedNodes(nodes, xs, ys, s.frames);
    if |nodes| > 0 {
      NearMargins(nodes, horizontal, xs, ys, s, r);
    }
  }

  lemma FramesNeedNodes(nodes: seq<Node>, xs: seq<real>, ys: seq<real>, frames: seq<Frame>)
    requires AllWrap(nodes, xs, ys, frames)
    ensures |frames| > 0 ==> |nodes| > 0
  {
    if |frames| > 0 {
      var i: nat :| Member(nodes, frames[0].id, i);
    }
  }

  lemma FrameIdsKept(nodes: seq<Node>, groups: seq<string>, horizontal: bool, s: Swept, r: Swept)
    requires AllForward(s, r, horizontal) && |s.frames| == |FrameIds(nodes, groups)|
    requires forall i :: 0 <= i < |s.frames| ==> s.frames[i].id == FrameIds(nodes, groups)[i]
    ensures |r.frames| == |FrameIds(nodes, groups)|
    ensures forall i :: 0 <= i < |r.frames| ==> r.frames[i].id == FrameIds(nodes, groups)[i]
    ensures UniqueIds(s.frames) <==> DistinctFrames(nodes, groups)
  {
    var ids := FrameIds(nodes, groups);
    forall i | 0 <= i < |r.frames| ensures r.frames[i].id == ids[i] {
      assert Forward(s.frames[i], r.frames[i], horizontal);
    }
  }

  lemma FramedAfterSweep(nodes: seq<Node>, groups: seq<string>, horizontal: bool, xs: seq<real>, ys: seq<real>,
                         s: Swept, r: Swept, order: seq<nat>, xs': seq<real>, ys': seq<real>, width: real, height: real)
    requires |xs| == |ys| == |nodes| && s.flows == (if horizontal then xs else ys)
    requires |nodes| > 0 ==> IsLeast(xs, PadLeft(nodes)) && IsLeast(ys, PadTop(nodes))
    requires AllWrap(nodes, xs, ys, s.frames) && |s.frames| == |FrameIds(nodes, groups)|
    requires forall i :: 0 <= i < |s.frames| ==> s.frames[i].id == FrameIds(nodes, groups)[i]
    requires Sorted(s.frames, horizontal, order) && forall i: nat :: i in order <==> i < |s.frames|
    requires r == Sweep(nodes, horizontal, order, s, |order|)
    requires xs' == (if horizontal then r.flows else xs) && ys' == if horizontal then ys else r.flows
    requires FarInside(nodes, xs', ys', r.frames, width, height)
    ensures Framed(nodes, groups, horizontal, xs', ys', r.frames, width, height)
  {
    SweepMoves(nodes, horizontal, order, s, |order|);
    FrameIdsKept(nodes, groups, horizontal, s, r);
    SweptClear(nodes, horizontal, order, s);
    SweptWrap(nodes, horizontal, order, xs, ys, s, r);
    Margins(nodes, horizontal, xs, ys, s, r, xs', ys', width, height);
  }

  // ---- the sweep, and what is left of the lanes' spacing -----------------------------------------

  /** The frames around the groups of the arranged boxes. */
  ghost predicate Grouped(nodes: seq<Node>, groups: seq<string>, d: Draft) {
    && |d.frames| == |FrameIds(nodes, groups)|
    && (forall i :: 0 <= i < |d.frames| ==> d.frames[i].id == FrameIds(nodes, groups)[i])
    && |d.xs| == |d.ys| == |nodes| && AllWrap(nodes, d.xs, d.ys, d.frames)
  }

  /** Frames and flow coordinates as the sweep over the frames in order leaves them. */
  ghost predicate SweptFrom(nodes: seq<Node>, horizontal: bool, d: Draft, r: Swept) {
    && |d.xs| == |d.ys| == |nodes|
    && exists order: seq<nat> ::
         && Sorted(d.frames, horizontal, order) && (forall i: nat :: i in order <==> i < |d.frames|)
         && r == Sweep(nodes, horizontal, order, Swept(d.frames, FlowsOf(d, horizontal)), |order|)
  }

  /** Unpinned boxes the sweep moves alike: of one group, or both outside every frame. */
  predicate MoveAlike(nodes: seq<Node>, ids: seq<string>, i: nat, j: nat)
    requires i < |nodes| && j < |nodes|
  {
    && Unpinned(nodes[i]) && Unpinned(nodes[j])
    && (nodes[i].group == nodes[j].group || (nodes[i].group !in ids && nodes[j].group !in ids))
  }

  /**
   What holds of every drawing, moved by the sweep or not: boxes that move alike keep the lanes' spacing
   and their edges run forward, and boxes of different frames are well apart.
  */
  ghost predicate Spaced(nodes: seq<Node>, edges: seq<Edge>, ids: seq<string>, horizontal: bool,
                         flows: seq<real>, sides: seq<real>) {
    var at, g := Spot(flows, sides), GraphOf(Ids(nodes), edges);
    && |flows| == |sides| == |nodes|
    && (forall i: nat, j: nat :: i < |nodes| && j < |nodes| && i != j && MoveAlike(nodes, ids, i, j)
          ==> Clear(at, nodes, horizontal, i, j))
    && (Acyclic(g) ==> forall u: nat, v: nat ::
          u < |nodes| && v < |nodes| && Arc(g, u, v) && MoveAlike(nodes, ids, u, v)
          ==> Before(at(u).0, FlowSize(nodes[u], horizontal), at(v).0))
    && (Distinct(ids) ==> forall i: nat, j: nat ::
          i < |nodes| && j < |nodes| && nodes[i].group != nodes[j].group
          && nodes[i].group in ids && nodes[j].group in ids
          ==> Distant(nodes, flows, sides, horizontal, MemberGap(horizontal), i, j))
  }

  /** Moving by groups keeps what holds between boxes that move alike. */
  lemma AlikeKept(nodes: seq<Node>, edges: seq<Edge>, frames: seq<Frame>, ids: seq<string>, horizontal: bool,
                     flows: seq<real>, after: seq<real>, sides: seq<real>, i: nat, j: nat)
    requires Readable(nodes, edges, horizontal, flows, sides) && MovedByGroup(nodes, frames, flows, after)
    requires forall id :: HasFrame(frames, id) ==> id in ids
    requires i < |nodes| && j < |nodes| && i != j && MoveAlike(nodes, ids, i, j)
    ensures Clear(Spot(after, sides), nodes, horizontal, i, j)
    ensures var g := GraphOf(Ids(nodes), edges);
      Acyclic(g) && Arc(g, i, j) ==>
        Before(Spot(after, sides)(i).0, FlowSize(nodes[i], horizontal), Spot(after, sides)(j).0)
  {
    hide Acyclic, Arc;
    assert after[i] - flows[i] == after[j] - flows[j];
    assert Clear(Spot(flows, sides), nodes, horizontal, i, j);
  }

  lemma FramesApart(nodes: seq<Node>, xs: seq<real>, ys: seq<real>, horizontal: bool, frames: seq<Frame>,
                    i: nat, j: nat)
    requires |xs| == |ys| == |nodes| && AllWrap(nodes, xs, ys, frames) && AllClear(frames, horizontal)
    requires i < |nodes| && j < |nodes| && nodes[i].group != nodes[j].group
    requires HasFrame(frames, nodes[i].group) && HasFrame(frames, nodes[j].group)
    ensures Distant(nodes, if horizontal then xs else ys, if horizontal then ys else xs, horizontal,
                    MemberGap(horizontal), i, j)
  {
    hide FramesClear, Wraps;
    var p: nat :| p < |frames| && frames[p].id == nodes[i].group;
    var q: nat :| q < |frames| && frames[q].id == nodes[j].group;
    WrapEncloses(nodes, xs, ys, horizontal, frames[p]);
    WrapEncloses(nodes, xs, ys, horizontal, frames[q]);
    MembersApart(nodes, if horizontal then xs else ys, if horizontal then ys else xs, horizontal,
                 frames[p], frames[q], i, j);
  }

  lemma FrameOfId(nodes: seq<Node>, groups: seq<string>, frames: seq<Frame>)
    requires |frames| == |FrameIds(nodes, groups)|
    requires forall k :: 0 <= k < |frames| ==> frames[k].id == FrameIds(nodes, groups)[k]
    ensures forall id :: HasFrame(frames, id) <==> id in FrameIds(nodes, groups)
  {
    hide FrameIds;
    var ids := FrameIds(nodes, groups);
    forall id ensures HasFrame(frames, id) <==> id in ids {
      if id in ids {
        var k :| 0 <= k < |ids| && ids[k] == id;
        assert frames[k].id == id;
      }
    }
  }

  /** The spacing that survives any sweep. */
  lemma SpacingSurvives(nodes: seq<Node>, edges: seq<Edge>, groups: seq<string>, horizontal: bool, d: Draft, r: Swept,
                        xs: seq<real>, ys: seq<real>, width: real, height: real)
    requires Readable(nodes, edges, horizontal, FlowsOf(d, horizontal), SidesOf(d, horizontal))
    requires Grouped(nodes, groups, d) && SweptFrom(nodes, horizontal, d, r)
    requires xs == (if horizontal then r.flows else d.xs) && ys == if horizontal then d.ys else r.flows
    requires Framed(nodes, groups, horizontal, xs, ys, r.frames, width, height)
    ensures Spaced(nodes, edges, FrameIds(nodes, groups), horizontal, r.flows, SidesOf(d, horizontal))
  {
    hide Readable, Sweep, FrameIds, Clear, Before, AllWrap, AllClear, Acyclic, Arc, Distant;
    var ids, flows, sides := FrameIds(nodes, groups), FlowsOf(d, horizontal), SidesOf(d, horizontal);
    var order: seq<nat> :| Sorted(d.frames, horizontal, order) && (forall i: nat :: i in order <==> i < |d.frames|)
      && r == Sweep(nodes, horizontal, order, Swept(d.frames, flows), |order|);
    assert InBounds(order, |d.frames|);
    SweepMovesGroups(nodes, horizontal, order, Swept(d.frames, flows), |order|);
    FrameOfId(nodes, groups, d.frames);
    FrameOfId(nodes, groups, r.frames);
    forall i: nat, j: nat | i < |nodes| && j < |nodes| && i != j && MoveAlike(nodes, ids, i, j)
      ensures Clear(Spot(r.flows, sides), nodes, horizontal, i, j)
    {
      AlikeKept(nodes, edges, d.frames, ids, horizontal, flows, r.flows, sides, i, j);
    }
    var g := GraphOf(Ids(nodes), edges);
    if Acyclic(g) {
      forall u: nat, v: nat | u < |nodes| && v < |nodes| && Arc(g, u, v) && MoveAlike(nodes, ids, u, v)
        ensures Before(Spot(r.flows, sides)(u).0, FlowSize(nodes[u], horizontal), Spot(r.flows, sides)(v).0)
      {
        ArcEnds(g, u, v);
        AlikeKept(nodes, edges, d.frames, ids, horizontal, flows, r.flows, sides, u, v);
      }
    }
    if Distinct(ids) {
      forall i: nat, j: nat | i < |nodes| && j < |nodes| && nodes[i].group != nodes[j].group
          && nodes[i].group in ids && nodes[j].group in ids
        ensures Distant(nodes, r.flows, sides, horizontal, MemberGap(horizontal), i, j)
      {
        FramesApart(nodes, xs, ys, horizontal, r.frames, i, j);
      }
    }
  }

  lemma ArcEnds(g: Graph, u: nat, v: nat)
    requires Arc(g, u, v)
    ensures u != v
  {
  }

  /** The sweep moves nothing exactly when the frames were clear to begin with. */
  lemma RestsIffClear(nodes: seq<Node>, horizontal: bool, d: Draft, r: Swept)
    requires |d.xs| == |d.ys| == |nodes| && AllWrap(nodes, d.xs, d.ys, d.frames) && SweptFrom(nodes, horizontal, d, r)
    ensures r.frames == d.frames <==> AllClear(d.frames, horizontal)
    ensures r == Swept(d.frames, FlowsOf(d, horizontal)) <==> AllClear(d.frames, horizontal)
  {
    hide Sweep, AllClear, Wraps;
    var order: seq<nat> :| Sorted(d.frames, horizontal, order) && (forall i: nat :: i in order <==> i < |d.frames|)
      && r == Sweep(nodes, horizontal, order, Swept(d.frames, FlowsOf(d, horizontal)), |order|);
    forall i | 0 <= i < |d.frames| ensures MainSize(d.frames[i], horizontal) >= 0.0 {
      WrapEncloses(nodes, d.xs, d.ys, horizontal, d.frames[i]);
      EnclosingSizes(nodes, FlowsOf(d, horizontal), SidesOf(d, horizontal), horizontal, d.frames[i]);
    }
    SweepRestsIff(nodes, horizontal, order, Swept(d.frames, FlowsOf(d, horizontal)));
  }

  /** And no frame is pushed further than it must be. */
  lemma SweptOnlySoFar(nodes: seq<Node>, horizontal: bool, d: Draft, r: Swept)
    requires SweptFrom(nodes, horizontal, d, r)
    ensures JustEnough(d.frames, r.frames, horizontal)
  {
    hide Sweep, JustEnough;
    var order: seq<nat> :| Sorted(d.frames, horizontal, order) && (forall i: nat :: i in order <==> i < |d.frames|)
      && r == Sweep(nodes, horizontal, order, Swept(d.frames, FlowsOf(d, horizontal)), |order|);
    SweptJustEnough(nodes, horizontal, order, Swept(d.frames, FlowsOf(d, horizontal)));
  }

  /** When that is so, on the specification: framed groups in one rank each must not get in each other's way. */
  lemma ClearIffUntangled(nodes: seq<Node>, edges: seq<Edge>, groups: seq<string>, horizontal: bool, d: Draft)
    requires Arranged(nodes, edges, horizontal, d) && Grouped(nodes, groups, d)
    requires Layered(nodes, d.rank, FrameIds(nodes, groups))
    ensures AllClear(d.frames, horizontal) <==> Untangled(nodes, d.rank, horizontal, FrameIds(nodes, groups))
  {
    hide Laid, Layered, Untangled, AllClear, Wraps, Ranked, PinsKept;
    forall k | 0 <= k < |d.frames|
      ensures Encloses(nodes, FlowsOf(d, horizontal), SidesOf(d, horizontal), horizontal, d.frames[k])
    {
      WrapEncloses(nodes, d.xs, d.ys, horizontal, d.frames[k]);
    }
    LayeredFrames(nodes, d.rank, d.keys, d.lanes, horizontal, FlowsOf(d, horizontal), SidesOf(d, horizontal),
                  if horizontal then d.dx else d.dy, if horizontal then d.dy else d.dx,
                  FrameIds(nodes, groups), d.frames);
  }

  /** The same for groups over several ranks: they must be apart in ranks or beside one another in their lanes. */
  lemma ClearIffSpread(nodes: seq<Node>, edges: seq<Edge>, groups: seq<string>, horizontal: bool, d: Draft)
    requires Arranged(nodes, edges, horizontal, d) && Grouped(nodes, groups, d)
    requires Floating(nodes, FrameIds(nodes, groups))
    ensures |d.rank| == |nodes| && AllIndices(nodes, d.lanes)
    ensures AllClear(d.frames, horizontal) <==> Spread(nodes, d.rank, d.lanes, horizontal, FrameIds(nodes, groups))
  {
    hide Laid, Floating, Spread, AllClear, Wraps, Ranked, PinsKept;
    forall k | 0 <= k < |d.frames|
      ensures Encloses(nodes, FlowsOf(d, horizontal), SidesOf(d, horizontal), horizontal, d.frames[k])
    {
      WrapEncloses(nodes, d.xs, d.ys, horizontal, d.frames[k]);
    }
    var flow, side := if horizontal then d.dx else d.dy, if horizontal then d.dy else d.dx;
    LaidLanes(nodes, d.rank, d.keys, d.lanes, horizontal, FlowsOf(d, horizontal), SidesOf(d, horizontal), flow, side);
    SpreadFrames(nodes, d.rank, d.keys, d.lanes, horizontal, FlowsOf(d, horizontal), SidesOf(d, horizontal),
                 flow, side, FrameIds(nodes, groups), d.frames);
  }

  /** The groups' part of `computeLayout`: frames, sweep, canvas. */
  method FrameGroups(picture: Picture, groups: seq<string>, ghost arranged: Draft)
      returns (width: real, height: real, ghost draft: Draft)
    requires picture.Valid() && picture.xs == arranged.xs && picture.ys == arranged.ys
    requires |picture.nodes| > 0 ==>
               IsLeast(picture.xs, PadLeft(picture.nodes)) && IsLeast(picture.ys, PadTop(picture.nodes))
    modifies picture
    ensures picture.Valid()
    ensures draft == arranged.(frames := draft.frames) && Grouped(picture.nodes, groups, draft)
    ensures picture.Sides() == SidesOf(draft, picture.horizontal)
    ensures SweptFrom(picture.nodes, picture.horizontal, draft, Swept(picture.frames, picture.Flows()))
    ensures CanvasSide(picture.nodes, picture.xs, true, picture.frames, width)
    ensures CanvasSide(picture.nodes, picture.ys, false, picture.frames, height)
    ensures Framed(picture.nodes, groups, picture.horizontal, picture.xs, picture.ys, picture.frames, width, height)
  {
    hide Framed, Sweep, SweepStep, FrameIds, CanvasSide;
    ghost var nodes, horizontal := picture.nodes, picture.horizontal;
    ghost var xs, ys := picture.xs, picture.ys;
    picture.frames := WrapGroups(picture.nodes, picture.xs, picture.ys, groups);
    draft := arranged.(frames := picture.frames);
    ghost var s := Swept(picture.frames, picture.Flows());
    assert AllWrap(nodes, xs, ys, s.frames);
    var order := picture.SweepFrames();
    ghost var r := Swept(picture.frames, picture.Flows());
    width := Canvas(picture.nodes, picture.xs, true, picture.frames);
    height := Canvas(picture.nodes, picture.ys, false, picture.frames);
    CanvasHolds(nodes, picture.xs, picture.ys, r.frames, width, height);
    FramedAfterSweep(nodes, groups, horizontal, xs, ys, s, r, order, picture.xs, picture.ys, width, height);
  }

  /**
   `computeLayout`. `draft` is the drawing before the sweep. The sweep leaves it alone exactly when its
   frames are clear of one another, and then boxes and edges are spaced as the lanes left them.
  */
  method ComputeLayout(nodes: seq<Node>, edges: seq<Edge>, groups: seq<string>, horizontal: bool)
      returns (picture: Picture, width: real, height: real, ghost draft: Draft)
    ensures picture.Valid() && picture.nodes == nodes && picture.horizontal == horizontal
    ensures Arranged(nodes, edges, horizontal, draft) && Grouped(nodes, groups, draft)
    ensures Tidy(nodes, draft.rank, draft.lanes, horizontal, FlowsOf(draft, horizontal), SidesOf(draft, horizontal))
    ensures picture.Sides() == SidesOf(draft, horizontal)
    ensures SweptFrom(nodes, horizontal, draft, Swept(picture.frames, picture.Flows()))
    ensures JustEnough(draft.frames, picture.frames, horizontal)
    ensures CanvasSide(nodes, picture.xs, true, picture.frames, width)
    ensures CanvasSide(nodes, picture.ys, false, picture.frames, height)
    ensures Framed(nodes, groups, horizontal, picture.xs, picture.ys, picture.frames, width, height)
    ensures Spaced(nodes, edges, FrameIds(nodes, groups), horizontal, picture.Flows(), picture.Sides())
    ensures picture.frames == draft.frames <==> AllClear(draft.frames, horizontal)
    ensures AllClear(draft.frames, horizontal) ==>
              && picture.xs == draft.xs && picture.ys == draft.ys
              && Readable(nodes, edges, horizontal, picture.Flows(), picture.Sides())
    ensures Layered(nodes, draft.rank, FrameIds(nodes, groups)) ==>
              (picture.frames == draft.frames <==> Untangled(nodes, draft.rank, horizontal, FrameIds(nodes, groups)))
    ensures |draft.rank| == |nodes| && AllIndices(nodes, draft.lanes)
    ensures Floating(nodes, FrameIds(nodes, groups)) ==>
              (picture.frames == draft.frames
               <==> Spread(nodes, draft.rank, draft.lanes, horizontal, FrameIds(nodes, groups)))
  {
    hide Framed, Spaced, Readable, AllClear, Layered, Untangled, FrameIds, Laid, Ranked, PinsKept, AllWrap;
    hide Floating, Spread, AllIndices, Tidy, JustEnough, CanvasSide;
    ghost var arranged;
    picture, arranged := Arrange(nodes, edges, horizontal);
    width, height, draft := FrameGroups(picture, groups, arranged);
    ghost var r := Swept(picture.frames, picture.Flows());
    SpacingSurvives(nodes, edges, groups, horizontal, draft, r, picture.xs, picture.ys, width, height);
    RestsIffClear(nodes, horizontal, draft, r);
    SweptOnlySoFar(nodes, horizontal, draft, r);
    ArrangedIsTidy(nodes, edges, horizontal, draft);
    if Layered(nodes, draft.rank, FrameIds(nodes, groups)) {
      ClearIffUntangled(nodes, edges, groups, horizontal, draft);
    }
    ArrangedLanes(nodes, edges, horizontal, draft);
    if Floating(nodes, FrameIds(nodes, groups)) {
      ClearIffSpread(nodes, edges, groups, horizontal, draft);
    }
  }
}
