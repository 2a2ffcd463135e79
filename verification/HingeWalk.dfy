// controlsNearHinge of e2e/hinge-layout.ts: the part of a control that its
// containing blocks leave visible, and the controls whose visible part comes
// within the margin around the hinge. Lengths are reals.

module HingeWalk {
  import opened Prelude

  datatype Position = Static | Relative | Absolute | Fixed | Sticky

  // An interval on one axis.
  datatype Span = Span(start: real, end: real)
  datatype Box = Box(x: Span, y: Span)

  datatype Overflow = Visible | Auto | Scroll | Hidden | Clip

  // An ancestor as the loop reads it: fixedBlock is the disjunction of its
  // style tests, rect the border box; lengths are those of the DOM and style.
  datatype Ancestor = Ancestor(
    position: Position,
    fixedBlock: bool,
    overflowX: Overflow,
    overflowY: Overflow,
    rect: Box,
    clientLeft: real,
    clientTop: real,
    clientWidth: real,
    clientHeight: real,
    borderRight: real,
    borderBottom: real)

  predicate ClipsOn(a: Ancestor, onX: bool) {
    (if onX then a.overflowX else a.overflowY) != Overflow.Visible
  }

  // The padding box without scrollbars, in fractional lengths: CSS 2.1, section 11.1.1.
  function Inner(a: Ancestor): Box {
    var left, top := a.rect.x.start + a.clientLeft, a.rect.y.start + a.clientTop;
    Box(Span(left, Min(left + a.clientWidth, a.rect.x.end - a.borderRight)),
        Span(top, Min(top + a.clientHeight, a.rect.y.end - a.borderBottom)))
  }

  function Meet(a: Span, b: Span): Span {
    Span(Max(a.start, b.start), Min(a.end, b.end))
  }

  function Clipped(box: Box, a: Ancestor): Box {
    Box(if ClipsOn(a, true) then Meet(box.x, Inner(a).x) else box.x,
        if ClipsOn(a, false) then Meet(box.y, Inner(a).y) else box.y)
  }

  // ---- Containing blocks, declaratively -----------------------------------------

  // CSS 2.1, section 10.1: whether a holds the containing block of a
  // descendant with this position when nothing between them does.
  predicate Contains(a: Ancestor, position: Position) {
    a.fixedBlock || match position
                    case Fixed => false
                    case Absolute => a.position != Static
                    case _ => true
  }

  // chain lists, from the inside out, the control's containing block, that
  // block's own containing block, and so on up to the viewport.
  predicate IsChain(chain: seq<nat>, ancestors: seq<Ancestor>, position: Position, from: nat)
    decreases |chain|
  {
    if chain == [] then forall k | from <= k < |ancestors| :: !Contains(ancestors[k], position)
    else
      var c := chain[0];
      && from <= c < |ancestors|
      && (forall k | from <= k < c :: !Contains(ancestors[k], position))
      && Contains(ancestors[c], position)
      && IsChain(chain[1..], ancestors, ancestors[c].position, c + 1)
  }

  // The chain, found by one walk outwards.
  function ChainOf(ancestors: seq<Ancestor>, position: Position, from: nat): seq<nat>
    decreases |ancestors| - from
  {
    if from >= |ancestors| then []
    else if Contains(ancestors[from], position) then [from] + ChainOf(ancestors, ancestors[from].position, from + 1)
    else ChainOf(ancestors, position, from + 1)
  }

  lemma {:induction false} ChainIs(ancestors: seq<Ancestor>, position: Position, from: nat)
    ensures IsChain(ChainOf(ancestors, position, from), ancestors, position, from)
    decreases |ancestors| - from
  {
    if from < |ancestors| {
      var next := if Contains(ancestors[from], position) then ancestors[from].position else position;
      ChainIs(ancestors, next, from + 1);
      var rest := ChainOf(ancestors, next, from + 1);
      assert Contains(ancestors[from], position) ==> ([from] + rest)[1..] == rest;
    }
  }

  lemma {:induction false} ChainIsOne(chain: seq<nat>, ancestors: seq<Ancestor>, position: Position, from: nat)
    requires IsChain(chain, ancestors, position, from)
    ensures chain == ChainOf(ancestors, position, from)
    decreases |ancestors| - from
  {
    if from < |ancestors| {
      if Contains(ancestors[from], position) {
        assert chain != [] && chain[0] == from;
        ChainIsOne(chain[1..], ancestors, ancestors[from].position, from + 1);
      } else {
        ChainIsOne(chain, ancestors, position, from + 1);
      }
    }
  }

  // ---- The loop --------------------------------------------------------------------

  function ClipAll(box: Box, ancestors: seq<Ancestor>, chain: seq<nat>): Box
    decreases |chain|
  {
    if chain == [] then box
    else ClipAll(if chain[0] < |ancestors| then Clipped(box, ancestors[chain[0]]) else box, ancestors, chain[1..])
  }

  function VisiblePart(rect: Box, viewport: Box, position: Position, ancestors: seq<Ancestor>): Box {
    ClipAll(Box(Meet(viewport.x, rect.x), Meet(viewport.y, rect.y)), ancestors, ChainOf(ancestors, position, 0))
  }

  method VisibleBox(rect: Box, viewport: Box, elementPosition: Position, ancestors: seq<Ancestor>)
    returns (left: real, top: real, right: real, bottom: real)
    ensures Box(Span(left, right), Span(top, bottom)) == VisiblePart(rect, viewport, elementPosition, ancestors)
  {
    left := Max(viewport.x.start, rect.x.start);
    top := Max(viewport.y.start, rect.y.start);
    right := Min(viewport.x.end, rect.x.end);
    bottom := Min(viewport.y.end, rect.y.end);
    var position := elementPosition;
    var k := 0;
    while k < |ancestors|
      invariant k <= |ancestors|
      invariant ClipAll(Box(Span(left, right), Span(top, bottom)), ancestors, ChainOf(ancestors, position, k))
             == VisiblePart(rect, viewport, elementPosition, ancestors)
    {
      var ancestor := ancestors[k];
      ghost var chain := ChainOf(ancestors, position, k);
      k := k + 1;
      if position == Fixed && !ancestor.fixedBlock {
        continue;
      }
      if position == Absolute && ancestor.position == Static && !ancestor.fixedBlock {
        continue;
      }
      position := ancestor.position;
      assert chain[0] == k - 1 && chain[1..] == ChainOf(ancestors, position, k);
      var clipX, clipY := ancestor.overflowX != Overflow.Visible, ancestor.overflowY != Overflow.Visible;
      if !clipX && !clipY {
        continue;
      }
      var clip := ancestor.rect;
      var innerLeft := clip.x.start + ancestor.clientLeft;
      var innerTop := clip.y.start + ancestor.clientTop;
      if clipX {
        left := Max(left, innerLeft);
        right := Min(Min(right, innerLeft + ancestor.clientWidth), clip.x.end - ancestor.borderRight);
      }
      if clipY {
        top := Max(top, innerTop);
        bottom := Min(Min(bottom, innerTop + ancestor.clientHeight), clip.y.end - ancestor.borderBottom);
      }
    }
  }

  // ---- What the edges are -------------------------------------------------------------

  predicate Clips(ancestors: seq<Ancestor>, chain: seq<nat>, k: nat, onX: bool) {
    k in chain && k < |ancestors| && ClipsOn(ancestors[k], onX)
  }

  function On(box: Box, onX: bool): Span {
    if onX then box.x else box.y
  }

  // Each edge is bounded by t exactly when the first box and every clipper of
  // the chain on that axis are.
  lemma {:induction false} ClipEdges(box: Box, ancestors: seq<Ancestor>, chain: seq<nat>, onX: bool, t: real)
    ensures On(ClipAll(box, ancestors, chain), onX).start <= t
        <==> On(box, onX).start <= t && forall k: nat | Clips(ancestors, chain, k, onX) ::
            On(Inner(ancestors[k]), onX).start <= t
    ensures t <= On(ClipAll(box, ancestors, chain), onX).end
        <==> t <= On(box, onX).end && forall k: nat | Clips(ancestors, chain, k, onX) ::
            t <= On(Inner(ancestors[k]), onX).end
    decreases |chain|
  {
    if chain != [] {
      var c, rest := chain[0], chain[1..];
      assert forall k: nat ::
          Clips(ancestors, chain, k, onX)
          <==> (k == c && Clips(ancestors, [c], k, onX)) || Clips(ancestors, rest, k, onX) by {
        assert chain == [c] + rest;
      }
      ClipEdges(if c < |ancestors| then Clipped(box, ancestors[c]) else box, ancestors, rest, onX, t);
      assert c in [c];
    }
  }

  // The refinement: on either axis, the loop's edges are the tightest of the
  // viewport's, the control's and those of the blocks on the control's
  // containing-block chain that clip on that axis.
  lemma VisibleEdges(rect: Box, viewport: Box, position: Position, ancestors: seq<Ancestor>, chain: seq<nat>,
      onX: bool, t: real)
    requires IsChain(chain, ancestors, position, 0)
    ensures On(VisiblePart(rect, viewport, position, ancestors), onX).start <= t
        <==> && On(viewport, onX).start <= t && On(rect, onX).start <= t
             && forall k: nat | Clips(ancestors, chain, k, onX) :: On(Inner(ancestors[k]), onX).start <= t
    ensures t <= On(VisiblePart(rect, viewport, position, ancestors), onX).end
        <==> && t <= On(viewport, onX).end && t <= On(rect, onX).end
             && forall k: nat | Clips(ancestors, chain, k, onX) :: t <= On(Inner(ancestors[k]), onX).end
  {
    ChainIsOne(chain, ancestors, position, 0);
    ClipEdges(Box(Meet(viewport.x, rect.x), Meet(viewport.y, rect.y)), ancestors, chain, onX, t);
  }

  // ---- The report ------------------------------------------------------------------------

  datatype Control = Control(rendered: bool, inert: bool, rect: Box, position: Position, ancestors: seq<Ancestor>)

  // A point strictly inside the visible part and strictly inside the band.
  ghost predicate PointInBand(box: Box, onX: bool, hinge: real, margin: real, x: real, y: real) {
    && box.x.start < x < box.x.end
    && box.y.start < y < box.y.end
    && hinge - margin < (if onX then x else y) < hinge + margin
  }

  predicate Near(box: Box, onX: bool, hinge: real, margin: real) {
    && box.x.end > box.x.start && box.y.end > box.y.start
    && On(box, onX).end > hinge - margin && On(box, onX).start < hinge + margin
  }

  lemma NearIsPoint(box: Box, onX: bool, hinge: real, margin: real)
    requires margin > 0.0
    ensures Near(box, onX, hinge, margin) <==> exists x, y :: PointInBand(box, onX, hinge, margin, x, y)
  {
    if Near(box, onX, hinge, margin) {
      var s := On(box, onX);
      var lo, hi := Max(s.start, hinge - margin), Min(s.end, hinge + margin);
      var mid := (lo + hi) / 2.0;
      var x := if onX then mid else (box.x.start + box.x.end) / 2.0;
      var y := if onX then (box.y.start + box.y.end) / 2.0 else mid;
      assert PointInBand(box, onX, hinge, margin, x, y);
    }
  }

  // The control is reported: something of it is shown within the margin.
  ghost predicate Reported(c: Control, viewport: Box, onX: bool, hinge: real, margin: real) {
    && c.rendered && !c.inert
    && exists x, y :: PointInBand(VisiblePart(c.rect, viewport, c.position, c.ancestors), onX, hinge, margin, x, y)
  }

  // What the report prints of a control: its visible part along the axis.
  function Extent(c: Control, viewport: Box, onX: bool): Span {
    On(VisiblePart(c.rect, viewport, c.position, c.ancestors), onX)
  }

  method ControlsNearHinge(controls: seq<Control>, viewport: Box, onX: bool, hinge: real, margin: real)
    returns (near: seq<nat>, extents: seq<Span>)
    requires margin > 0.0
    ensures forall i | 0 <= i < |controls| :: i in near <==> Reported(controls[i], viewport, onX, hinge, margin)
    ensures forall i | 0 <= i < |near| :: near[i] < |controls|
    ensures forall i, j | 0 <= i < j < |near| :: near[i] < near[j]
    ensures |extents| == |near|
    ensures forall i | 0 <= i < |near| :: extents[i] == Extent(controls[near[i]], viewport, onX)
  {
    near, extents := [], [];
    for i := 0 to |controls|
      invariant forall k | 0 <= k < i :: k in near <==> Reported(controls[k], viewport, onX, hinge, margin)
      invariant forall k | 0 <= k < |near| :: near[k] < i
      invariant forall k, l | 0 <= k < l < |near| :: near[k] < near[l]
      invariant |extents| == |near|
      invariant forall k | 0 <= k < |near| :: extents[k] == Extent(controls[near[k]], viewport, onX)
    {
      var c := controls[i];
      ghost var before := near;
      if c.rendered && !c.inert {
        var left, top, right, bottom := VisibleBox(c.rect, viewport, c.position, c.ancestors);
        NearIsPoint(VisiblePart(c.rect, viewport, c.position, c.ancestors), onX, hinge, margin);
        if !(right <= left || bottom <= top) {
          var start, end := if onX then left else top, if onX then right else bottom;
          if !(end <= hinge - margin || start >= hinge + margin) {
            near, extents := near + [i], extents + [Span(start, end)];
          }
        }
      }
      assert i !in before;
      assert i in near <==> Reported(c, viewport, onX, hinge, margin);
    }
  }

  // ---- Monotonicity --------------------------------------------------------------------------

  predicate Within(chain: seq<nat>, other: seq<nat>) {
    forall k | k in chain :: k in other
  }

  // Whatever clips a fixed element clips any other one in its place.
  lemma {:induction false} FixedClipsLeast(ancestors: seq<Ancestor>, position: Position, from: nat)
    ensures Within(ChainOf(ancestors, Fixed, from), ChainOf(ancestors, position, from))
    decreases |ancestors| - from
  {
    if from < |ancestors| && !ancestors[from].fixedBlock {
      FixedClipsLeast(ancestors, if Contains(ancestors[from], position) then ancestors[from].position else position,
        from + 1);
    }
  }

  // Whatever clips an absolute element clips an in-flow one in its place.
  lemma {:induction false} InFlowClipsMost(ancestors: seq<Ancestor>, position: Position, from: nat)
    ensures Within(ChainOf(ancestors, position, from), ChainOf(ancestors, Static, from))
    decreases |ancestors| - from
  {
    if position == Fixed {
      FixedClipsLeast(ancestors, Static, from);
    } else if from < |ancestors| && !Contains(ancestors[from], position) {
      InFlowClipsMost(ancestors, position, from + 1);
    }
  }

  // A longer chain leaves no more of the control.
  lemma LongerChainShowsLess(box: Box, ancestors: seq<Ancestor>, chain: seq<nat>, other: seq<nat>, onX: bool)
    requires Within(chain, other)
    ensures On(ClipAll(box, ancestors, chain), onX).start <= On(ClipAll(box, ancestors, other), onX).start
    ensures On(ClipAll(box, ancestors, other), onX).end <= On(ClipAll(box, ancestors, chain), onX).end
  {
    var a := On(ClipAll(box, ancestors, other), onX);
    ClipEdges(box, ancestors, other, onX, a.start);
    ClipEdges(box, ancestors, chain, onX, a.start);
    ClipEdges(box, ancestors, other, onX, a.end);
    ClipEdges(box, ancestors, chain, onX, a.end);
    assert forall k: nat :: Clips(ancestors, chain, k, onX) ==> Clips(ancestors, other, k, onX);
  }

  function MakeFixedBlock(ancestors: seq<Ancestor>, k: nat): seq<Ancestor>
    requires k < |ancestors|
  {
    ancestors[k := ancestors[k].(fixedBlock := true)]
  }

  lemma {:induction false} FixedBlockOnlyAdds(ancestors: seq<Ancestor>, k: nat, position: Position, from: nat)
    requires k < |ancestors|
    ensures Within(ChainOf(ancestors, position, from), ChainOf(MakeFixedBlock(ancestors, k), position, from))
    decreases |ancestors| - from
  {
    var after := MakeFixedBlock(ancestors, k);
    if from < |ancestors| {
      if from > k {
        SameOutside(ancestors, k, position, from);
      } else if from < k {
        var next := if Contains(ancestors[from], position) then ancestors[from].position else position;
        FixedBlockOnlyAdds(ancestors, k, next, from + 1);
      } else {
        var own := ancestors[k].position;
        SameOutside(ancestors, k, own, k + 1);
        if !Contains(ancestors[k], position) {
          SameOutside(ancestors, k, position, k + 1);
          if position == Fixed {
            FixedClipsLeast(after, own, k + 1);
          } else {
            InFlowClipsMost(after, position, k + 1);
          }
        }
      }
    }
  }

  lemma {:induction false} SameOutside(ancestors: seq<Ancestor>, k: nat, position: Position, from: nat)
    requires k < |ancestors| && k < from
    ensures ChainOf(MakeFixedBlock(ancestors, k), position, from) == ChainOf(ancestors, position, from)
    decreases |ancestors| - from
  {
    if from < |ancestors| {
      SameOutside(ancestors, k, if Contains(ancestors[from], position) then ancestors[from].position else position,
        from + 1);
    }
  }

  lemma {:induction false} SameClips(box: Box, ancestors: seq<Ancestor>, k: nat, chain: seq<nat>)
    requires k < |ancestors|
    ensures ClipAll(box, MakeFixedBlock(ancestors, k), chain) == ClipAll(box, ancestors, chain)
    decreases |chain|
  {
    if chain != [] {
      SameClips(if chain[0] < |ancestors| then Clipped(box, ancestors[chain[0]]) else box, ancestors, k, chain[1..]);
    }
  }

  // Turning any ancestor into a fixed containing block never shows more.
  lemma FixedBlockShowsNoMore(rect: Box, viewport: Box, position: Position, ancestors: seq<Ancestor>, k: nat, onX: bool)
    requires k < |ancestors|
    ensures var before, after := VisiblePart(rect, viewport, position, ancestors),
                                 VisiblePart(rect, viewport, position, MakeFixedBlock(ancestors, k));
            On(before, onX).start <= On(after, onX).start && On(after, onX).end <= On(before, onX).end
  {
    var box := Box(Meet(viewport.x, rect.x), Meet(viewport.y, rect.y));
    var after := MakeFixedBlock(ancestors, k);
    FixedBlockOnlyAdds(ancestors, k, position, 0);
    LongerChainShowsLess(box, ancestors, ChainOf(ancestors, position, 0), ChainOf(after, position, 0), onX);
    SameClips(box, ancestors, k, ChainOf(after, position, 0));
  }

  predicate InFlow(position: Position) {
    position != Fixed && position != Absolute
  }

  // An in-flow control inside in-flow boxes of a menu, however the menu is
  // positioned, is clipped by those boxes, the menu, and the menu's own clippers.
  lemma {:induction false} InsideMenu(ancestors: seq<Ancestor>, position: Position, from: nat, menu: nat)
    requires from <= menu < |ancestors| && InFlow(position)
    requires forall k | from <= k < menu :: InFlow(ancestors[k].position)
    ensures ChainOf(ancestors, position, from)
         == seq(menu + 1 - from, i requires 0 <= i => from + i) + ChainOf(ancestors, ancestors[menu].position, menu + 1)
    decreases menu - from
  {
    if from < menu {
      InsideMenu(ancestors, ancestors[from].position, from + 1, menu);
      assert seq(menu + 1 - from, i requires 0 <= i => from + i)
          == [from] + seq(menu - from, i requires 0 <= i => from + 1 + i);
    }
  }
}
