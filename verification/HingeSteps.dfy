// The visible part of e2e/hinge-layout.ts, ancestor by ancestor: what the
// innermost ancestor does to it, read off that ancestor's style and box alone.

module HingeSteps {
  import opened Prelude
  import opened HingeWalk

  // ---- Leaving off the innermost ancestor ------------------------------------------

  function Shifted(chain: seq<nat>): seq<nat> {
    if chain == [] then [] else [chain[0] + 1] + Shifted(chain[1..])
  }

  lemma {:induction false} ChainShifts(a: Ancestor, rest: seq<Ancestor>, position: Position, from: nat)
    ensures ChainOf([a] + rest, position, from + 1) == Shifted(ChainOf(rest, position, from))
    decreases |rest| - from
  {
    if from < |rest| {
      var inner := rest[from];
      assert ([a] + rest)[from + 1] == inner;
      var next := if Contains(inner, position) then inner.position else position;
      ChainShifts(a, rest, next, from + 1);
      var more := ChainOf(rest, next, from + 1);
      assert ([from] + more)[1..] == more;
    }
  }

  lemma {:induction false} ClipShifts(box: Box, a: Ancestor, rest: seq<Ancestor>, chain: seq<nat>)
    ensures ClipAll(box, [a] + rest, Shifted(chain)) == ClipAll(box, rest, chain)
    decreases |chain|
  {
    if chain != [] {
      hide Clipped;
      var c, all := chain[0], [a] + rest;
      assert c < |rest| ==> all[c + 1] == rest[c];
      assert Shifted(chain)[0] == c + 1 && Shifted(chain)[1..] == Shifted(chain[1..]);
      ClipShifts(if c < |rest| then Clipped(box, rest[c]) else box, a, rest, chain[1..]);
    }
  }

  // ---- The innermost ancestor ----------------------------------------------------------

  // Nothing but the viewport around the control.
  lemma NoAncestor(rect: Box, viewport: Box, position: Position)
    ensures VisiblePart(rect, viewport, position, [])
         == Box(Span(Max(viewport.x.start, rect.x.start), Min(viewport.x.end, rect.x.end)),
                Span(Max(viewport.y.start, rect.y.start), Min(viewport.y.end, rect.y.end)))
  {
  }

  // A fixed box escapes whatever is no fixed containing block.
  lemma FixedEscapes(rect: Box, viewport: Box, a: Ancestor, rest: seq<Ancestor>)
    requires !a.fixedBlock
    ensures VisiblePart(rect, viewport, Fixed, [a] + rest) == VisiblePart(rect, viewport, Fixed, rest)
  {
    var box := Box(Meet(viewport.x, rect.x), Meet(viewport.y, rect.y));
    ChainShifts(a, rest, Fixed, 0);
    ClipShifts(box, a, rest, ChainOf(rest, Fixed, 0));
  }

  // An absolute box escapes static boxes that are no fixed containing blocks.
  lemma AbsoluteEscapes(rect: Box, viewport: Box, a: Ancestor, rest: seq<Ancestor>)
    requires a.position == Static && !a.fixedBlock
    ensures VisiblePart(rect, viewport, Absolute, [a] + rest) == VisiblePart(rect, viewport, Absolute, rest)
  {
    var box := Box(Meet(viewport.x, rect.x), Meet(viewport.y, rect.y));
    ChainShifts(a, rest, Absolute, 0);
    ClipShifts(box, a, rest, ChainOf(rest, Absolute, 0));
  }

  // One axis of the box behind an ancestor: cut to the ancestor's client area,
  // in front of its far border, if its overflow on that axis is any but visible.
  function Cut(s: Span, overflow: Overflow, near: real, client: real, far: real): Span {
    match overflow
    case Visible => s
    case _ => Span(Max(s.start, near), Min(Min(s.end, near + client), far))
  }

  // In every other case the control is cut by the ancestor, and goes on under
  // the ancestor's own position.
  lemma CutAndGoOn(rect: Box, viewport: Box, position: Position, a: Ancestor, rest: seq<Ancestor>)
    requires !(position == Fixed && !a.fixedBlock)
    requires !(position == Absolute && a.position == Static && !a.fixedBlock)
    ensures VisiblePart(rect, viewport, position, [a] + rest)
         == VisiblePart(
              Box(Cut(rect.x, a.overflowX, a.rect.x.start + a.clientLeft, a.clientWidth, a.rect.x.end - a.borderRight),
                  Cut(rect.y, a.overflowY, a.rect.y.start + a.clientTop, a.clientHeight,
                      a.rect.y.end - a.borderBottom)),
              viewport, a.position, rest)
  {
    var all := [a] + rest;
    var box := Box(Meet(viewport.x, rect.x), Meet(viewport.y, rect.y));
    ChainShifts(a, rest, a.position, 0);
    var chain := ChainOf(rest, a.position, 0);
    assert ChainOf(all, position, 0) == [0] + Shifted(chain);
    assert ([0] + Shifted(chain))[1..] == Shifted(chain) && all[0] == a;
    ClipShifts(Clipped(box, a), a, rest, chain);
    hide ChainOf, ClipAll;
  }

  // A control is reported exactly if it is rendered and not inert, something
  // of it is visible, and that comes within the margin; it is shown by its
  // visible extent along the hinge's axis.
  lemma ReportedIs(c: Control, viewport: Box, onX: bool, hinge: real, margin: real)
    requires margin > 0.0
    ensures var shown := VisiblePart(c.rect, viewport, c.position, c.ancestors);
            var along := if onX then shown.x else shown.y;
            && Extent(c, viewport, onX) == along
            && (Reported(c, viewport, onX, hinge, margin)
                <==> c.rendered && !c.inert && shown.x.start < shown.x.end && shown.y.start < shown.y.end
                     && hinge - margin < along.end && along.start < hinge + margin)
  {
    hide VisiblePart;
    NearIsPoint(VisiblePart(c.rect, viewport, c.position, c.ancestors), onX, hinge, margin);
  }

  // ---- Two of the suite's fixtures --------------------------------------------------------

  // A button at 470 to 480 in a static box that hides what lies beyond 400.
  const BUTTON := Box(Span(470.0, 480.0), Span(10.0, 20.0))
  const SCREEN := Box(Span(0.0, 951.0), Span(0.0, 669.0))

  function HidingBox(position: Position): Ancestor {
    Ancestor(position, false, Hidden, Hidden, Box(Span(0.0, 400.0), Span(0.0, 100.0)), 0.0, 0.0, 400.0, 100.0, 0.0, 0.0)
  }

  function OpenBlock(position: Position): Ancestor {
    HidingBox(position).(overflowX := Visible, overflowY := Visible)
  }

  // An absolute button escapes the static box on its way to its own block and
  // is reported; placed in flow there it is hidden and is not.
  lemma AbsoluteButtonIsReported()
    ensures var absolute := Control(true, false, BUTTON, Absolute, [HidingBox(Static), OpenBlock(Fixed)]);
            Reported(absolute, SCREEN, true, 475.5, 20.0)
    ensures var inFlow := Control(true, false, BUTTON, Static, [HidingBox(Static), OpenBlock(Fixed)]);
            !Reported(inFlow, SCREEN, true, 475.5, 20.0)
  {
    var hiding, block := HidingBox(Static), OpenBlock(Fixed);
    assert [hiding, block] == [hiding] + ([block] + []);
    AbsoluteEscapes(BUTTON, SCREEN, hiding, [block] + []);
    CutAndGoOn(BUTTON, SCREEN, Absolute, block, []);
    NoAncestor(BUTTON, SCREEN, Fixed);
    assert VisiblePart(BUTTON, SCREEN, Absolute, [hiding, block]) == BUTTON;
    NearIsPoint(BUTTON, true, 475.5, 20.0);
    CutAndGoOn(BUTTON, SCREEN, Static, hiding, [block] + []);
    var cut := Box(Span(470.0, 400.0), Span(10.0, 20.0));
    CutAndGoOn(cut, SCREEN, Static, block, []);
    NoAncestor(cut, SCREEN, Fixed);
    assert VisiblePart(BUTTON, SCREEN, Static, [hiding, block]) == cut;
  }
}
