// The self-stopping backlog stream of e2e/scroll-reading.ts: timer tasks that
// run in the order they were queued and give up once the window has closed.

module BacklogStream {

  datatype Window = Window(streamMs: real, minMessages: nat)

  datatype Delivery = Delivery(count: nat, delivered: seq<nat>)

  // Task `index` at clock reading `elapsed`.
  function Task(d: Delivery, w: Window, index: nat, elapsed: real): Delivery {
    if d.count > w.minMessages && elapsed >= w.streamMs then d
    else Delivery(d.count + 1, d.delivered + [index])
  }

  // The queue in order; elapsed[i] is the clock when task i runs.
  function Tasks(w: Window, elapsed: seq<real>): Delivery {
    if elapsed == [] then Delivery(0, [])
    else
      var n := |elapsed| - 1;
      Task(Tasks(w, elapsed[..n]), w, n, elapsed[n])
  }

  class Stream {
    var count: nat
    var delivered: seq<nat>

    function State(): Delivery
      reads this
    {
      Delivery(count, delivered)
    }

    constructor ()
      ensures State() == Delivery(0, [])
    {
      count, delivered := 0, [];
    }

    method RunTask(w: Window, index: nat, elapsed: real)
      modifies this
      ensures State() == Task(old(State()), w, index, elapsed)
    {
      if count > w.minMessages && elapsed >= w.streamMs {
        return;
      }
      delivered := delivered + [index];
      count := count + 1;
    }

    // All queued tasks, then the one that resolves.
    method Run(w: Window, elapsed: seq<real>) returns (resolved: nat)
      requires State() == Delivery(0, [])
      modifies this
      ensures State() == Tasks(w, elapsed) && resolved == count
    {
      for index := 0 to |elapsed|
        invariant State() == Tasks(w, elapsed[..index])
      {
        assert elapsed[..index + 1][..index] == elapsed[..index];
        RunTask(w, index, elapsed[index]);
      }
      assert elapsed[..|elapsed|] == elapsed;
      resolved := count;
    }
  }

  // ---- What was delivered ---------------------------------------------------------

  function Upto(n: nat): seq<nat> {
    seq(n, i requires 0 <= i => i)
  }

  predicate Monotone(elapsed: seq<real>) {
    forall i, j | 0 <= i <= j < |elapsed| :: elapsed[i] <= elapsed[j]
  }

  // The window has closed at task i, past the minimum.
  predicate Closed(w: Window, elapsed: seq<real>, i: nat)
    requires i < |elapsed|
  {
    i > w.minMessages && elapsed[i] >= w.streamMs
  }

  // k is the first closed task, or the number of all tasks.
  predicate StopsAt(w: Window, elapsed: seq<real>, k: nat) {
    && k <= |elapsed|
    && (forall i: nat | i < k :: !Closed(w, elapsed, i))
    && (k < |elapsed| ==> Closed(w, elapsed, k))
  }

  // Once a task finds the window closed, every later one does.
  predicate StaysClosed(w: Window, elapsed: seq<real>) {
    forall i: nat, j: nat | i < j < |elapsed| && Closed(w, elapsed, i) :: elapsed[j] >= w.streamMs
  }

  // What has been delivered so far, whatever the clock does.
  lemma {:induction false} DeliveredSoFar(w: Window, elapsed: seq<real>)
    ensures var d := Tasks(w, elapsed);
            && |d.delivered| == d.count <= |elapsed|
            && (d.count == |elapsed| || d.count > w.minMessages)
            && (d.delivered == Upto(d.count) <==> StaysClosed(w, elapsed))
            && (StaysClosed(w, elapsed) ==> StopsAt(w, elapsed, d.count))
  {
    if elapsed != [] {
      var n := |elapsed| - 1;
      var before := elapsed[..n];
      DeliveredSoFar(w, before);
      StaysClosedStep(w, elapsed);
      var d, now := Tasks(w, before), Tasks(w, elapsed);
      var k := d.count;
      if StaysClosed(w, before) {
        forall i: nat | i < k ensures !Closed(w, elapsed, i) {
          assert !Closed(w, before, i);
        }
        assert k < n ==> Closed(w, before, k) && Closed(w, elapsed, k);
      }
      if now.delivered == Upto(now.count) && now != d {
        assert d.delivered == now.delivered[..k] == Upto(k) && now.delivered[k] == n == k;
      }
    }
  }

  lemma StaysClosedStep(w: Window, elapsed: seq<real>)
    requires elapsed != []
    ensures var n := |elapsed| - 1;
            StaysClosed(w, elapsed)
            <==> StaysClosed(w, elapsed[..n]) && forall i: nat | i < n && Closed(w, elapsed, i) ::
                elapsed[n] >= w.streamMs
  {
    var n := |elapsed| - 1;
    assert forall i: nat | i < n :: Closed(w, elapsed[..n], i) <==> Closed(w, elapsed, i);
  }

  // The messages delivered are exactly those before the first closed task, if
  // and only if no later task finds the clock back in front of the window's
  // end. The resolved count is all of them or above the minimum in any case.
  lemma PrefixIff(w: Window, elapsed: seq<real>)
    ensures var d := Tasks(w, elapsed);
            && (d.delivered == Upto(d.count) && StopsAt(w, elapsed, d.count) <==> StaysClosed(w, elapsed))
            && (d.count == |elapsed| || d.count > w.minMessages)
  {
    DeliveredSoFar(w, elapsed);
  }

  // So under every clock performance.now() can give, which never runs back.
  lemma DeliversPrefix(w: Window, elapsed: seq<real>)
    requires Monotone(elapsed)
    ensures var d := Tasks(w, elapsed);
            StopsAt(w, elapsed, d.count) && d.delivered == Upto(d.count)
            && (d.count == |elapsed| || d.count > w.minMessages)
  {
    PrefixIff(w, elapsed);
  }

  // The condition on the clock is sharp: were it to run back, a message would be
  // missing from the middle.
  lemma ClockMustNotRunBack()
    ensures var w, elapsed := Window(5.0, 0), [0.0, 9.0, 1.0];
            !StaysClosed(w, elapsed) && Tasks(w, elapsed) == Delivery(2, [0, 2])
  {
    var w, e := Window(5.0, 0), [0.0, 9.0, 1.0];
    assert Closed(w, e, 1) && e[2] < w.streamMs;
    assert e[..2] == [0.0, 9.0] && e[..2][..1] == [0.0] && e[..2][..1][..0] == [];
    assert Tasks(w, e[..2][..1]) == Delivery(1, [0]);
    assert Tasks(w, e[..2]) == Delivery(1, [0]);
  }
}
