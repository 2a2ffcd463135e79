// sampleSettledLayout and waitForMessageLayoutSettled of
// e2e/composer-geometry.ts: a counter of equal frames, the window of frames it
// stands for, and the loop that accepts a layout only twice seen.

module SettledLayout {

  // JSON text of a geometry reading, never empty.
  type Signature = s: string | s != "" witness "["

  // A frame's reading, and the clock behind it.
  datatype Frame = Frame(signature: Signature, at: real)

  type Stream = nat -> Frame

  const TIMEOUT_MS := 15000.0

  datatype Reading = Reading(frames: Stream, startedAt: real)
  datatype Sample = Settled(signature: Signature, frame: nat) | TimedOut(frame: nat)

  predicate Late(r: Reading, n: nat) {
    r.frames(n).at - r.startedAt >= TIMEOUT_MS
  }

  // Frames n - needed to n all read the same.
  predicate Window(r: Reading, needed: nat, n: nat) {
    needed <= n && forall k: nat | n - needed <= k <= n :: r.frames(k).signature == r.frames(n).signature
  }

  predicate QuietBefore(r: Reading, needed: nat, n: nat) {
    forall m: nat | m < n :: !Window(r, needed, m) && !Late(r, m)
  }

  // The sampler's outcome: the first frame that ends a window, unless the
  // timeout comes first.
  predicate Outcome(r: Reading, needed: nat, sample: Sample) {
    match sample
    case Settled(signature, n) => QuietBefore(r, needed, n) && Window(r, needed, n)
        && signature == r.frames(n).signature
    case TimedOut(n) => QuietBefore(r, needed, n) && !Window(r, needed, n) && Late(r, n)
  }

  // The clock reaches the timeout.
  ghost predicate Advances(r: Reading) {
    exists n: nat :: Late(r, n)
  }

  method SampleSettledLayout(r: Reading, needed: nat) returns (sample: Sample)
    requires Advances(r)
    ensures Outcome(r, needed, sample)
  {
    ghost var end: nat :| Late(r, end);
    var lastSignature: string := "";
    var stableFrames := 0;
    var n := 0;
    while true
      invariant QuietBefore(r, needed, n) && n <= end
      invariant lastSignature == if n == 0 then "" else r.frames(n - 1).signature
      invariant stableFrames <= n && (n > 0 ==> stableFrames < n)
      invariant n > 0 ==> forall k: nat | n - 1 - stableFrames <= k < n :: r.frames(k).signature == lastSignature
      invariant n > 0 && stableFrames + 1 < n ==> r.frames(n - 2 - stableFrames).signature != lastSignature
      decreases end - n
    {
      var signature := r.frames(n).signature;
      if signature == lastSignature {
        stableFrames := stableFrames + 1;
      } else {
        lastSignature := signature;
        stableFrames := 0;
      }
      if stableFrames >= needed {
        return Settled(signature, n);
      }
      assert !Window(r, needed, n) by {
        if needed <= n {
          assert r.frames(n - 1 - stableFrames).signature != signature;
        }
      }
      if r.frames(n).at - r.startedAt >= TIMEOUT_MS {
        return TimedOut(n);
      }
      n := n + 1;
    }
  }

  // A reading has one outcome.
  lemma OneOutcome(r: Reading, needed: nat, a: Sample, b: Sample)
    requires Outcome(r, needed, a) && Outcome(r, needed, b)
    ensures a == b
  {
  }

  // It settles exactly if some window ends before or at the first late frame.
  lemma SettlesIff(r: Reading, needed: nat, sample: Sample)
    requires Outcome(r, needed, sample)
    ensures sample.Settled? <==> exists n: nat :: Window(r, needed, n) && forall m: nat | m < n :: !Late(r, m)
  {
  }

  // ---- The outer loop ----------------------------------------------------------------

  // One attempt: the frames before and after the compositor sync, and the
  // clock behind them.
  datatype Attempt = Attempt(before: Reading, after: Reading, now: real)

  type Attempts = nat -> Attempt

  datatype Wait = Accepted(signature: Signature, attempt: nat) | Rejected(attempt: nat) | Corrected(attempt: nat)

  const NEEDED_BEFORE: nat := 30
  const NEEDED_AFTER: nat := 2
  const DEADLINE_MS := 20000.0

  ghost predicate SettlesOn(r: Reading, needed: nat, signature: Signature) {
    exists n: nat :: Outcome(r, needed, Settled(signature, n))
  }

  ghost predicate Rejects(r: Reading, needed: nat) {
    exists n: nat :: Outcome(r, needed, TimedOut(n))
  }

  // The layout survives the sync.
  ghost predicate Accepts(x: Attempt, signature: Signature) {
    SettlesOn(x.before, NEEDED_BEFORE, signature) && SettlesOn(x.after, NEEDED_AFTER, signature)
  }

  // The layout settles twice, differently.
  ghost predicate Differs(x: Attempt) {
    exists a, b :: a != b && SettlesOn(x.before, NEEDED_BEFORE, a) && SettlesOn(x.after, NEEDED_AFTER, b)
  }

  ghost predicate Throws(x: Attempt) {
    Rejects(x.before, NEEDED_BEFORE) || Rejects(x.after, NEEDED_AFTER)
  }

  // Every earlier attempt corrected the layout and left time for another.
  ghost predicate Retried(attempts: Attempts, deadline: real, i: nat) {
    forall m: nat | m < i :: Differs(attempts(m)) && attempts(m).now < deadline
  }

  ghost predicate Waited(attempts: Attempts, deadline: real, wait: Wait) {
    match wait
    case Accepted(signature, i) => Retried(attempts, deadline, i) && Accepts(attempts(i), signature)
    case Rejected(i) => Retried(attempts, deadline, i) && Throws(attempts(i))
    case Corrected(i) => Retried(attempts, deadline, i) && Differs(attempts(i)) && attempts(i).now >= deadline
  }

  ghost predicate ClockRuns(attempts: Attempts, deadline: real) {
    && (forall i: nat :: Advances(attempts(i).before) && Advances(attempts(i).after))
    && exists i: nat :: attempts(i).now >= deadline
  }

  method WaitForMessageLayoutSettled(attempts: Attempts, startedAt: real) returns (wait: Wait)
    requires ClockRuns(attempts, startedAt + DEADLINE_MS)
    ensures Waited(attempts, startedAt + DEADLINE_MS, wait)
  {
    hide Outcome, Advances;
    var deadline := startedAt + DEADLINE_MS;
    ghost var end: nat :| attempts(end).now >= deadline;
    var i := 0;
    while true
      invariant i <= end && Retried(attempts, deadline, i)
      decreases end - i
    {
      var settled := SampleSettledLayout(attempts(i).before, NEEDED_BEFORE);
      if settled.TimedOut? {
        return Rejected(i);
      }
      var again := SampleSettledLayout(attempts(i).after, NEEDED_AFTER);
      if again.TimedOut? {
        return Rejected(i);
      }
      assert SettlesOn(attempts(i).before, NEEDED_BEFORE, settled.signature);
      assert SettlesOn(attempts(i).after, NEEDED_AFTER, again.signature);
      if again.signature == settled.signature {
        return Accepted(settled.signature, i);
      }
      if attempts(i).now >= deadline {
        return Corrected(i);
      }
      i := i + 1;
    }
  }

  // The wait ends well exactly at the first attempt whose 31-frame layout
  // survives the sync, provided every attempt before it left time.
  lemma AcceptedIff(attempts: Attempts, deadline: real, wait: Wait)
    requires Waited(attempts, deadline, wait)
    ensures wait.Accepted? <==> exists i: nat, s :: Retried(attempts, deadline, i) && Accepts(attempts(i), s)
  {
  }

  // ---- The wait, in frames and milliseconds ----------------------------------------------

  // `count` frames in a row, the last of them n, read the signature.
  predicate Reads(r: Reading, count: nat, signature: Signature, n: nat) {
    count <= n + 1 && forall k: nat | n < k + count && k <= n :: r.frames(k).signature == signature
  }

  predicate InTime(r: Reading, n: nat) {
    forall m: nat | m < n :: r.frames(m).at < r.startedAt + 15000.0
  }

  // They are the first such, and no frame before the last comes 15 seconds
  // after the start.
  ghost predicate FirstReads(r: Reading, count: nat, signature: Signature, n: nat) {
    && Reads(r, count, signature, n)
    && (forall m: nat, s: Signature | m < n :: !Reads(r, count, s, m))
    && InTime(r, n)
  }

  // Frame n comes 15 seconds after the start, the first to do so, and no frame
  // up to it ends such a row.
  ghost predicate GivesUp(r: Reading, count: nat, n: nat) {
    && (forall m: nat, s: Signature | m <= n :: !Reads(r, count, s, m))
    && InTime(r, n)
    && r.frames(n).at >= r.startedAt + 15000.0
  }

  lemma WindowReads(r: Reading, needed: nat, count: nat, n: nat)
    requires count == needed + 1
    ensures forall s: Signature | Reads(r, count, s, n) :: s == r.frames(n).signature
    ensures Window(r, needed, n) <==> Reads(r, count, r.frames(n).signature, n)
  {
    var signature := r.frames(n).signature;
    if Window(r, needed, n) {
      assert forall k: nat | n < k + count && k <= n :: r.frames(k).signature == signature;
    }
    if Reads(r, count, signature, n) {
      assert forall k: nat | n - needed <= k <= n :: r.frames(k).signature == signature;
    }
  }

  lemma QuietIs(r: Reading, needed: nat, count: nat, n: nat)
    requires count == needed + 1
    ensures QuietBefore(r, needed, n)
       <==> (forall m: nat, s: Signature | m < n :: !Reads(r, count, s, m)) && InTime(r, n)
  {
    hide Window, Reads;
    forall m: nat
      ensures forall s: Signature | Reads(r, count, s, m) :: s == r.frames(m).signature
      ensures Window(r, needed, m) <==> Reads(r, count, r.frames(m).signature, m)
      ensures Late(r, m) <==> r.frames(m).at >= r.startedAt + 15000.0
    {
      WindowReads(r, needed, count, m);
    }
    if QuietBefore(r, needed, n) {
      forall m: nat | m < n ensures r.frames(m).at < r.startedAt + 15000.0 {
        assert !Late(r, m);
      }
      forall m: nat, s: Signature | m < n ensures !Reads(r, count, s, m) {
        assert !Window(r, needed, m);
      }
    }
  }

  // One sampler run asked for `needed` repetitions.
  lemma SampleIs(r: Reading, needed: nat, count: nat, sample: Sample)
    requires count == needed + 1
    ensures Outcome(r, needed, sample) <==> match sample
            case Settled(signature, n) => FirstReads(r, count, signature, n)
            case TimedOut(n) => GivesUp(r, count, n)
  {
    hide Window, Reads, QuietBefore;
    QuietIs(r, needed, count, sample.frame);
    WindowReads(r, needed, count, sample.frame);
  }

  // An attempt sees 31 equal frames, and behind the compositor sync 3.
  ghost predicate Sees(x: Attempt, a: Signature, b: Signature) {
    (exists n: nat :: FirstReads(x.before, 31, a, n)) && exists n: nat :: FirstReads(x.after, 3, b, n)
  }

  ghost predicate SeesNone(x: Attempt) {
    (exists n: nat :: GivesUp(x.before, 31, n)) || exists n: nat :: GivesUp(x.after, 3, n)
  }

  // Two different layouts.
  ghost predicate SeesTwo(x: Attempt) {
    exists a, b :: a != b && Sees(x, a, b)
  }

  // Each earlier attempt saw two layouts, and 20 seconds were not over.
  ghost predicate WentOn(attempts: Attempts, startedAt: real, i: nat) {
    forall m: nat | m < i :: SeesTwo(attempts(m)) && attempts(m).now < startedAt + 20000.0
  }

  lemma SeesIs(x: Attempt, a: Signature, b: Signature)
    ensures SettlesOn(x.before, NEEDED_BEFORE, a) && SettlesOn(x.after, NEEDED_AFTER, b) <==> Sees(x, a, b)
  {
    hide Outcome, FirstReads;
    forall n: nat ensures Outcome(x.before, 30, Settled(a, n)) <==> FirstReads(x.before, 31, a, n) {
      SampleIs(x.before, 30, 31, Settled(a, n));
    }
    forall n: nat ensures Outcome(x.after, 2, Settled(b, n)) <==> FirstReads(x.after, 3, b, n) {
      SampleIs(x.after, 2, 3, Settled(b, n));
    }
  }

  lemma SeesNoneIs(x: Attempt)
    ensures Throws(x) <==> SeesNone(x)
  {
    hide Outcome, GivesUp;
    forall n: nat ensures Outcome(x.before, 30, TimedOut(n)) <==> GivesUp(x.before, 31, n) {
      SampleIs(x.before, 30, 31, TimedOut(n));
    }
    forall n: nat ensures Outcome(x.after, 2, TimedOut(n)) <==> GivesUp(x.after, 3, n) {
      SampleIs(x.after, 2, 3, TimedOut(n));
    }
  }

  // The wait started at `startedAt`: it returns at the first attempt that sees
  // the same layout twice, and throws at the first that sees none in 15 seconds
  // or still sees two when 20 are over.
  lemma WaitIs(attempts: Attempts, startedAt: real, wait: Wait)
    ensures Waited(attempts, startedAt + DEADLINE_MS, wait) <==> match wait
            case Accepted(s, i) => WentOn(attempts, startedAt, i) && Sees(attempts(i), s, s)
            case Rejected(i) => WentOn(attempts, startedAt, i) && SeesNone(attempts(i))
            case Corrected(i) =>
              WentOn(attempts, startedAt, i) && SeesTwo(attempts(i)) && attempts(i).now >= startedAt + 20000.0
  {
    hide Accepts, Differs, Throws, Sees, SeesTwo, SeesNone, Retried, WentOn;
    AttemptIs(attempts(wait.attempt));
    RetriedIs(attempts, startedAt, wait.attempt);
  }

  lemma AttemptIs(x: Attempt)
    ensures forall s :: Accepts(x, s) <==> Sees(x, s, s)
    ensures Differs(x) <==> SeesTwo(x)
    ensures Throws(x) <==> SeesNone(x)
  {
    hide Sees, SeesNone, Throws, SettlesOn;
    SeesNoneIs(x);
    forall a, b
      ensures SettlesOn(x.before, NEEDED_BEFORE, a) && SettlesOn(x.after, NEEDED_AFTER, b) <==> Sees(x, a, b)
    {
      SeesIs(x, a, b);
    }
  }

  lemma RetriedIs(attempts: Attempts, startedAt: real, i: nat)
    ensures Retried(attempts, startedAt + DEADLINE_MS, i) <==> WentOn(attempts, startedAt, i)
  {
    hide Differs, SeesTwo;
    forall m: nat ensures Differs(attempts(m)) <==> SeesTwo(attempts(m)) {
      AttemptIs(attempts(m));
    }
  }
}
