// The resident-top probe of e2e/scroll-reading.ts: a running backtrack kept
// frame by frame, and the quadratic measure it stands for.

module ResidentTop {
  import opened Prelude

  datatype Event = Keydown(key: string, scrollTop: real) | Frame(scrollTop: real)

  datatype Probe = Probe(
    listening: bool,
    observing: bool,
    closestToTop: real,
    maxBacktrack: real,
    samples: seq<real>)

  function Installed(startedAt: real): Probe {
    Probe(true, false, startedAt, 0.0, [])
  }

  // The keydown listener is removed by the first key, whichever it is.
  function Step(p: Probe, e: Event): Probe {
    match e
    case Keydown(key, top) =>
      if !p.listening then p
      else if key != "Home" then p.(listening := false)
      else p.(listening := false, observing := true, closestToTop := top)
    case Frame(top) =>
      if !p.observing then p
      else
        var closest := Min(p.closestToTop, top);
        p.(closestToTop := closest, maxBacktrack := Max(p.maxBacktrack, top - closest), samples := p.samples + [top])
  }

  function Run(p: Probe, events: seq<Event>): Probe
    decreases |events|
  {
    if events == [] then p else Step(Run(p, events[..|events| - 1]), events[|events| - 1])
  }

  class ResidentTopProbe {
    var listening: bool
    var observing: bool
    var closestToTop: real
    var maxBacktrack: real
    var samples: seq<real>

    function State(): Probe
      reads this
    {
      Probe(listening, observing, closestToTop, maxBacktrack, samples)
    }

    constructor (startedAt: real)
      ensures State() == Installed(startedAt)
    {
      listening, observing, closestToTop, maxBacktrack, samples := true, false, startedAt, 0.0, [];
    }

    method OnKeydown(key: string, scrollTop: real)
      modifies this
      ensures State() == Step(old(State()), Keydown(key, scrollTop))
    {
      if !listening {
        return;
      }
      listening := false;
      if key != "Home" {
        return;
      }
      observing := true;
      closestToTop := scrollTop;
    }

    method Sample(scrollTop: real)
      modifies this
      ensures State() == Step(old(State()), Frame(scrollTop))
    {
      if observing {
        samples := samples + [scrollTop];
        closestToTop := Min(closestToTop, scrollTop);
        maxBacktrack := Max(maxBacktrack, scrollTop - closestToTop);
      }
    }
  }

  // ---- What the probe is for ---------------------------------------------------

  function Frames(events: seq<Event>): seq<real> {
    if events == [] then []
    else (if events[0].Frame? then [events[0].scrollTop] else []) + Frames(events[1..])
  }

  // The positions read from the Home key on; none if another key came first.
  function Readings(events: seq<Event>): seq<real> {
    if events == [] then []
    else if events[0].Frame? then Readings(events[1..])
    else if events[0].key == "Home" then [events[0].scrollTop] + Frames(events[1..])
    else []
  }

  predicate Pressed(events: seq<Event>) {
    exists i | 0 <= i < |events| :: events[i].Keydown?
  }

  // How far reading j lies below reading i.
  function Drop(r: seq<real>, i: int, j: int): real
    requires 0 <= i <= j < |r|
  {
    r[j] - r[i]
  }

  // m is the largest move down from any reading to a later one.
  predicate IsBacktrack(r: seq<real>, m: real) {
    && (forall i, j | 0 <= i <= j < |r| :: Drop(r, i, j) <= m)
    && exists i, j | 0 <= i <= j < |r| :: Drop(r, i, j) == m
  }

  predicate IsLeast(r: seq<real>, m: real) {
    (forall i | 0 <= i < |r| :: m <= r[i]) && exists i | 0 <= i < |r| :: r[i] == m
  }

  lemma {:induction false} FramesLast(events: seq<Event>, e: Event)
    ensures Frames(events + [e]) == Frames(events) + (if e.Frame? then [e.scrollTop] else [])
  {
    if events != [] {
      assert (events + [e])[1..] == events[1..] + [e];
      FramesLast(events[1..], e);
    }
  }

  lemma {:induction false} ReadingsLast(events: seq<Event>, e: Event)
    ensures Pressed(events + [e]) <==> Pressed(events) || e.Keydown?
    ensures Readings(events + [e])
         == if Pressed(events) then Readings(events)
             + (if e.Frame? && Readings(events) != [] then [e.scrollTop] else [])
            else if e.Keydown? && e.key == "Home" then [e.scrollTop] else []
  {
    var all := events + [e];
    assert all[|events|] == e;
    assert forall i | 0 <= i < |events| :: all[i] == events[i];
    if events != [] {
      var rest := events[1..];
      assert all[1..] == rest + [e];
      ReadingsLast(rest, e);
      FramesLast(rest, e);
      assert Pressed(events) <==> events[0].Keydown? || Pressed(rest) by {
        if i :| 0 <= i < |rest| && rest[i].Keydown? {
          assert events[i + 1].Keydown?;
        }
        if i :| 1 <= i < |events| && events[i].Keydown? {
          assert rest[i - 1].Keydown?;
        }
      }
    }
  }

  // One more reading.
  lemma Extends(r: seq<real>, least: real, m: real, top: real)
    requires IsLeast(r, least) && IsBacktrack(r, m)
    ensures IsLeast(r + [top], Min(least, top))
    ensures IsBacktrack(r + [top], Max(m, top - Min(least, top)))
  {
    var all, n := r + [top], |r|;
    var i :| 0 <= i < n && r[i] == least;
    var a, b :| 0 <= a <= b < n && Drop(r, a, b) == m;
    assert all[i] == least && all[n] == top && Drop(all, a, b) == m;
    assert Drop(all, i, n) == top - least && Drop(all, n, n) == 0.0;
    forall p, q | 0 <= p <= q < |all| ensures Drop(all, p, q) <= Max(m, top - Min(least, top)) {
      if q < n {
        assert Drop(all, p, q) == Drop(r, p, q);
      } else if p < n {
        assert least <= r[p] == all[p];
      }
    }
  }

  // The probe holds the readings, their least, and the largest backtrack over
  // all pairs; before the Home key, nothing.
  predicate Tracks(p: Probe, events: seq<Event>) {
    var r := Readings(events);
    && p.listening == !Pressed(events)
    && p.observing == (r != [])
    && (r == [] ==> p.samples == [] && p.maxBacktrack == 0.0)
    && (r != [] ==> p.samples == r[1..] && IsLeast(r, p.closestToTop) && IsBacktrack(r, p.maxBacktrack))
  }

  lemma TracksFrame(p: Probe, events: seq<Event>, top: real)
    requires Tracks(p, events)
    ensures Tracks(Step(p, Frame(top)), events + [Frame(top)])
  {
    var r := Readings(events);
    ReadingsLast(events, Frame(top));
    hide IsLeast, IsBacktrack, Readings, Pressed;
    if r != [] {
      Extends(r, p.closestToTop, p.maxBacktrack, top);
      assert (r + [top])[1..] == r[1..] + [top];
    }
    if !p.listening && r == [] {
      assert r + [] == [];
    }
    UnpressedReadsNothing(events);
  }

  lemma TracksKey(p: Probe, events: seq<Event>, key: string, top: real)
    requires Tracks(p, events)
    ensures Tracks(Step(p, Keydown(key, top)), events + [Keydown(key, top)])
  {
    ReadingsLast(events, Keydown(key, top));
    UnpressedReadsNothing(events);
    Single(top);
    hide IsLeast, IsBacktrack, Readings, Pressed;
    assert Readings(events) + [] == Readings(events);
  }

  // After every trace.
  lemma {:induction false} RunningIsQuadratic(startedAt: real, events: seq<Event>)
    ensures Tracks(Run(Installed(startedAt), events), events)
    decreases |events|
  {
    if events != [] {
      hide Tracks, Step;
      var before, e := events[..|events| - 1], events[|events| - 1];
      assert events == before + [e];
      RunningIsQuadratic(startedAt, before);
      match e
      case Keydown(key, top) => TracksKey(Run(Installed(startedAt), before), before, key, top);
      case Frame(top) => TracksFrame(Run(Installed(startedAt), before), before, top);
    } else {
      assert Readings(events) == [] && !Pressed(events);
    }
  }

  lemma Single(top: real)
    ensures IsLeast([top], top) && IsBacktrack([top], 0.0)
  {
    assert [top][0] == top && Drop([top], 0, 0) == 0.0;
  }

  lemma {:induction false} UnpressedReadsNothing(events: seq<Event>)
    ensures !Pressed(events) ==> Readings(events) == []
  {
    if events != [] && !Pressed(events) {
      assert events[0].Frame?;
      forall i | 0 <= i < |events[1..]| ensures events[1..][i].Frame? {
        assert events[1..][i] == events[i + 1];
      }
      UnpressedReadsNothing(events[1..]);
    }
  }

  // The first key is Home.
  predicate HomeFirst(events: seq<Event>) {
    exists i | 0 <= i < |events| ::
      events[i].Keydown? && events[i].key == "Home" && forall k | 0 <= k < i :: events[k].Frame?
  }

  lemma {:induction false} HomeFirstIff(events: seq<Event>)
    ensures HomeFirst(events) <==> Readings(events) != []
  {
    if events != [] && events[0].Frame? {
      var rest := events[1..];
      HomeFirstIff(rest);
      if i :| 0 <= i < |events| && events[i].Keydown? && events[i].key == "Home" && forall k | 0 <= k < i ::
          events[k].Frame? {
        assert rest[i - 1].key == "Home" && forall k | 0 <= k < i - 1 :: rest[k] == events[k + 1];
      }
      if i :| 0 <= i < |rest| && rest[i].Keydown? && rest[i].key == "Home" && forall k | 0 <= k < i :: rest[k].Frame? {
        assert events[i + 1].key == "Home" && forall k | 1 <= k < i + 1 :: events[k] == rest[k - 1];
      }
    }
  }

  // The probe observes anything if and only if the first key it sees is Home.
  lemma ObservesIffHomeFirst(startedAt: real, events: seq<Event>)
    ensures Run(Installed(startedAt), events).observing <==> HomeFirst(events)
    ensures !HomeFirst(events) ==> Run(Installed(startedAt), events).samples == []
  {
    RunningIsQuadratic(startedAt, events);
    HomeFirstIff(events);
  }

  // An input: End is pressed before Home, and the list moves.
  lemma EndBeforeHome(startedAt: real, home: real, frame: real)
    ensures var p := Run(Installed(startedAt), [Keydown("End", startedAt), Keydown("Home", home), Frame(frame)]);
            !p.observing && p.samples == [] && p.maxBacktrack == 0.0
  {
    var events := [Keydown("End", startedAt), Keydown("Home", home), Frame(frame)];
    assert "End"[0] != "Home"[0];
    assert Readings(events) == [];
    RunningIsQuadratic(startedAt, events);
  }

  // The suite's tolerance: at most one pixel, exactly when no reading lies
  // more than one pixel below an earlier one.
  lemma WithinOnePixel(startedAt: real, events: seq<Event>)
    ensures Run(Installed(startedAt), events).maxBacktrack <= 1.0 <==> NeverBelow(Readings(events), 1.0)
  {
    RunningIsQuadratic(startedAt, events);
    var r, m := Readings(events), Run(Installed(startedAt), events).maxBacktrack;
    hide Run, Readings;
    if r != [] {
      var i, j :| 0 <= i <= j < |r| && Drop(r, i, j) == m;
    }
  }

  // No reading lies more than `slack` below an earlier one.
  predicate NeverBelow(r: seq<real>, slack: real) {
    forall i, j | 0 <= i <= j < |r| :: Drop(r, i, j) <= slack
  }

  // ---- A trace in three parts --------------------------------------------------------------

  lemma {:induction false} FramesJoin(a: seq<Event>, b: seq<Event>)
    ensures Frames(a + b) == Frames(a) + Frames(b)
  {
    if a == [] {
      assert a + b == b;
    } else {
      var first := if a[0].Frame? then [a[0].scrollTop] else [];
      assert (a + b)[0] == a[0] && (a + b)[1..] == a[1..] + b;
      FramesJoin(a[1..], b);
      assert (first + Frames(a[1..])) + Frames(b) == first + (Frames(a[1..]) + Frames(b));
    }
  }

  lemma FramesOfOne(e: Event)
    ensures Frames([e]) == if e.Frame? then [e.scrollTop] else []
  {
    assert [e][1..] == [];
  }

  lemma {:induction false} ReadFromHome(before: seq<Event>, key: string, home: real, behind: seq<Event>)
    requires forall i | 0 <= i < |before| :: before[i].Frame?
    ensures Readings(before + ([Keydown(key, home)] + behind)) == if key == "Home" then [home] + Frames(behind) else []
  {
    var all := before + ([Keydown(key, home)] + behind);
    if before == [] {
      assert all[1..] == behind;
    } else {
      assert all[0] == before[0] && all[1..] == before[1..] + ([Keydown(key, home)] + behind);
      ReadFromHome(before[1..], key, home, behind);
    }
  }

  // Frames, the Home key, more frames and keys: the probe has every frame
  // behind the key, whatever keys are among them, and nothing before it.
  lemma AfterHome(startedAt: real, before: seq<Event>, home: real, behind: seq<Event>)
    requires forall i | 0 <= i < |before| :: before[i].Frame?
    ensures var p := Run(Installed(startedAt), before + ([Keydown("Home", home)] + behind));
            && p.observing && p.samples == Frames(behind)
            && IsLeast([home] + Frames(behind), p.closestToTop)
            && IsBacktrack([home] + Frames(behind), p.maxBacktrack)
  {
    hide Run;
    ReadFromHome(before, "Home", home, behind);
    RunningIsQuadratic(startedAt, before + ([Keydown("Home", home)] + behind));
    assert ([home] + Frames(behind))[1..] == Frames(behind);
  }
}
