// expectProgress of e2e/scroll-native-pan.ts, checked between neighbours, and
// what it guarantees over a whole pan.

module NativePan {
  import opened Prelude

  datatype Anchor = Anchor(id: string, order: int, top: real)
  datatype Sample = Sample(anchor: Option<Anchor>)

  predicate Progress(before: Sample, after: Sample) {
    && before.anchor.Some? && after.anchor.Some?
    && after.anchor.value.order <= before.anchor.value.order
    && (after.anchor.value.id == before.anchor.value.id ==> after.anchor.value.top >= before.anchor.value.top - 1.0)
  }

  predicate EachProgresses(samples: seq<Sample>) {
    forall i | 0 < i < |samples| :: Progress(samples[i - 1], samples[i])
  }

  // The suite's loop; None when every expectation held, else the failing sample.
  method CheckPan(samples: seq<Sample>) returns (failed: Option<nat>)
    ensures failed.None? <==> EachProgresses(samples)
    ensures failed.Some? ==> 0 < failed.value < |samples| && !Progress(samples[failed.value - 1], samples[failed.value])
    ensures failed.Some? ==> EachProgresses(samples[..failed.value])
  {
    var i := 1;
    while i < |samples|
      invariant 1 <= i
      invariant i <= |samples| || |samples| < 1
      invariant forall k | 0 < k < i && k < |samples| :: Progress(samples[k - 1], samples[k])
    {
      if !Progress(samples[i - 1], samples[i]) {
        return Some(i);
      }
      i := i + 1;
    }
    return None;
  }

  predicate Anchored(samples: seq<Sample>) {
    forall i | 0 <= i < |samples| :: samples[i].anchor.Some?
  }

  // A list row has one message.
  predicate OrderNamesId(samples: seq<Sample>)
    requires Anchored(samples)
  {
    forall i, j | 0 <= i < |samples| && 0 <= j < |samples| && OrderAt(samples, i) == OrderAt(samples, j) ::
      samples[i].anchor.value.id == samples[j].anchor.value.id
  }

  function OrderAt(samples: seq<Sample>, i: int): int
    requires 0 <= i < |samples| && samples[i].anchor.Some?
  {
    samples[i].anchor.value.order
  }

  lemma AllAnchored(samples: seq<Sample>)
    requires |samples| >= 2 && EachProgresses(samples)
    ensures Anchored(samples)
  {
    assert Progress(samples[0], samples[1]);
    forall i | 0 <= i < |samples| ensures samples[i].anchor.Some? {
      if i > 0 {
        assert Progress(samples[i - 1], samples[i]);
      }
    }
  }

  // The reader never returns to a newer message.
  lemma {:induction false} NeverNewer(samples: seq<Sample>, i: nat, j: nat)
    requires EachProgresses(samples) && Anchored(samples) && i <= j < |samples|
    ensures OrderAt(samples, j) <= OrderAt(samples, i)
    decreases j - i
  {
    if i < j {
      assert Progress(samples[j - 1], samples[j]);
      NeverNewer(samples, i, j - 1);
    }
  }

  // Between two samples of one row, only that row anchors.
  lemma SameBetween(samples: seq<Sample>, i: nat, k: nat, j: nat)
    requires EachProgresses(samples) && Anchored(samples) && i <= k <= j < |samples|
    requires OrderAt(samples, i) == OrderAt(samples, j)
    ensures OrderAt(samples, k) == OrderAt(samples, i)
  {
    NeverNewer(samples, i, k);
    NeverNewer(samples, k, j);
  }

  // The same row drifts back by at most a pixel a frame.
  lemma {:induction false} Drift(samples: seq<Sample>, i: nat, j: nat)
    requires EachProgresses(samples) && Anchored(samples) && OrderNamesId(samples) && i <= j < |samples|
    requires OrderAt(samples, i) == OrderAt(samples, j)
    ensures samples[j].anchor.value.top >= samples[i].anchor.value.top - (j - i) as real
    decreases j - i
  {
    if i < j {
      SameBetween(samples, i, j - 1, j);
      Drift(samples, i, j - 1);
      assert Progress(samples[j - 1], samples[j]);
    }
  }

  // The whole pan, from its neighbours alone.
  lemma LocalToGlobal(samples: seq<Sample>, i: nat, j: nat)
    requires |samples| >= 2 && EachProgresses(samples) && i <= j < |samples|
    ensures Anchored(samples) && OrderAt(samples, j) <= OrderAt(samples, i)
    ensures OrderAt(samples, i) == OrderAt(samples, j) ==> forall k | i <= k <= j ::
        OrderAt(samples, k) == OrderAt(samples, i)
    ensures OrderAt(samples, i) == OrderAt(samples, j) && OrderNamesId(samples) ==>
              samples[j].anchor.value.top >= samples[i].anchor.value.top - (j - i) as real
  {
    AllAnchored(samples);
    NeverNewer(samples, i, j);
    if OrderAt(samples, i) == OrderAt(samples, j) {
      forall k: nat | i <= k <= j ensures OrderAt(samples, k) == OrderAt(samples, i) {
        SameBetween(samples, i, k, j);
      }
      if OrderNamesId(samples) {
        Drift(samples, i, j);
      }
    }
  }

  function Sliding(n: nat): seq<Sample> {
    seq(n, k requires 0 <= k => Sample(Some(Anchor("m", 0, -(k as real)))))
  }

  // The pixel a frame is not an over-estimate: a pan of any length can lose it.
  lemma DriftIsReached(n: nat)
    requires n >= 2
    ensures var s := Sliding(n);
            EachProgresses(s) && Anchored(s) && OrderNamesId(s)
            && s[n - 1].anchor.value.top == s[0].anchor.value.top - (n - 1) as real
  {
  }

  // ---- When the drift is bounded --------------------------------------------------

  // An anchor without its position: which message, in which row.
  datatype Mark = Mark(id: string, order: int)

  // The samples of a pan whose anchors are fixed and whose positions vary.
  function At(marks: seq<Mark>, tops: seq<real>): seq<Sample>
    requires |tops| == |marks|
  {
    seq(|marks|, i requires 0 <= i < |marks| => Sample(Some(Anchor(marks[i].id, marks[i].order, tops[i]))))
  }

  // Positions with which the pan passes.
  predicate Passes(marks: seq<Mark>, tops: seq<real>) {
    |tops| == |marks| && EachProgresses(At(marks, tops))
  }

  predicate Falling(marks: seq<Mark>) {
    forall i | 0 < i < |marks| :: marks[i].order <= marks[i - 1].order
  }

  // Every sample from i to j shows i's message.
  predicate Steady(marks: seq<Mark>, i: nat, j: nat)
    requires i <= j < |marks|
  {
    forall k | i <= k <= j :: marks[k].id == marks[i].id
  }

  // From i to j the position moves back by at most a pixel a frame.
  predicate Bounded(tops: seq<real>, i: nat, j: nat)
    requires i <= j < |tops|
  {
    tops[j] >= tops[i] - (j - i) as real
  }

  lemma PassesIff(marks: seq<Mark>, tops: seq<real>)
    requires |tops| == |marks|
    ensures Passes(marks, tops)
        <==> Falling(marks)
             && forall i | 0 < i < |marks| && marks[i].id == marks[i - 1].id :: tops[i] >= tops[i - 1] - 1.0
  {
    var s := At(marks, tops);
    assert forall i | 0 < i < |marks| ::
        Progress(s[i - 1], s[i]) <==>
          marks[i].order <= marks[i - 1].order && (marks[i].id == marks[i - 1].id ==> tops[i] >= tops[i - 1] - 1.0);
  }

  lemma {:induction false} SteadyIsBounded(marks: seq<Mark>, tops: seq<real>, i: nat, j: nat)
    requires Passes(marks, tops) && i <= j < |marks| && Steady(marks, i, j)
    ensures Bounded(tops, i, j)
    decreases j - i
  {
    PassesIff(marks, tops);
    if i < j {
      SteadyIsBounded(marks, tops, i, j - 1);
      assert marks[j].id == marks[j - 1].id;
    }
  }

  // Positions that drop by `far` from place k on.
  function Dropped(n: nat, k: nat, far: real): seq<real> {
    seq(n, i requires 0 <= i => if i < k then 0.0 else -far)
  }

  lemma {:induction false} FirstChange(marks: seq<Mark>, i: nat, j: nat) returns (k: nat)
    requires i <= j < |marks| && !Steady(marks, i, j)
    ensures i < k <= j && marks[k].id != marks[k - 1].id
    decreases j - i
  {
    if i < j && Steady(marks, i, j - 1) {
      k := j;
    } else {
      k := FirstChange(marks, i, j - 1);
    }
  }

  // Where the message changes in between, a passing pan can drop by any distance.
  lemma DropPasses(marks: seq<Mark>, i: nat, j: nat, far: real) returns (tops: seq<real>)
    requires Falling(marks) && i <= j < |marks| && !Steady(marks, i, j)
    ensures Passes(marks, tops) && tops[j] == tops[i] - far
  {
    var k := FirstChange(marks, i, j);
    tops := Dropped(|marks|, k, far);
    PassesIff(marks, tops);
  }

  // Every passing pan bounds the drift from i to j.
  ghost predicate AlwaysBounded(marks: seq<Mark>, i: nat, j: nat)
    requires i <= j < |marks|
  {
    forall tops | Passes(marks, tops) :: Bounded(tops, i, j)
  }

  // For given anchors and two samples, it does if and only if no pan passes at
  // all or the message never changes in between.
  lemma BoundedIff(marks: seq<Mark>, i: nat, j: nat)
    requires i <= j < |marks|
    ensures AlwaysBounded(marks, i, j) <==> !Falling(marks) || Steady(marks, i, j)
  {
    if !Falling(marks) {
      forall tops ensures !Passes(marks, tops) {
        if |tops| == |marks| {
          PassesIff(marks, tops);
        }
      }
    } else if Steady(marks, i, j) {
      forall tops | Passes(marks, tops) ensures Bounded(tops, i, j) {
        SteadyIsBounded(marks, tops, i, j);
      }
    } else {
      var tops := DropPasses(marks, i, j, (j - i) as real + 1.0);
      assert !Bounded(tops, i, j);
    }
  }

  predicate SamePlace(marks: seq<Mark>, i: nat, j: nat) {
    i <= j < |marks| && marks[i] == marks[j]
  }

  // In this pan no message moves back in its row by more than a pixel a frame.
  ghost predicate AllBounded(marks: seq<Mark>, tops: seq<real>)
    requires |tops| == |marks|
  {
    forall i: nat, j: nat | SamePlace(marks, i, j) :: Bounded(tops, i, j)
  }

  // Over the whole pan: the drift is bounded in every passing pan if and only
  // if between two samples of one message in one row every sample shows that
  // message.
  lemma DriftIff(marks: seq<Mark>)
    ensures (forall tops | Passes(marks, tops) :: AllBounded(marks, tops))
        <==> !Falling(marks) || forall i: nat, j: nat | SamePlace(marks, i, j) :: Steady(marks, i, j)
  {
    forall i: nat, j: nat | SamePlace(marks, i, j)
      ensures AlwaysBounded(marks, i, j) <==> !Falling(marks) || Steady(marks, i, j)
    {
      BoundedIff(marks, i, j);
    }
    if forall tops | Passes(marks, tops) :: AllBounded(marks, tops) {
      forall i: nat, j: nat | SamePlace(marks, i, j) ensures AlwaysBounded(marks, i, j) {
        forall tops | Passes(marks, tops) ensures Bounded(tops, i, j) {
          assert AllBounded(marks, tops);
        }
      }
    }
    if !Falling(marks) || forall i: nat, j: nat | SamePlace(marks, i, j) :: Steady(marks, i, j) {
      forall tops | Passes(marks, tops) ensures AllBounded(marks, tops) {
        forall i: nat, j: nat | SamePlace(marks, i, j) ensures Bounded(tops, i, j) {
          assert AlwaysBounded(marks, i, j);
        }
      }
    }
  }

  // An input at which it fails: one row shows another message in between, and
  // the first one comes back any distance higher.
  lemma RowsMustNameMessages(far: real)
    ensures var marks, tops := [Mark("a", 0), Mark("b", 0), Mark("a", 0)], [0.0, 0.0, -far];
            SamePlace(marks, 0, 2) && !Steady(marks, 0, 2) && Passes(marks, tops) && tops[2] == tops[0] - far
  {
    var marks, tops := [Mark("a", 0), Mark("b", 0), Mark("a", 0)], [0.0, 0.0, -far];
    assert "a"[0] != "b"[0] && marks[1].id != marks[0].id;
    PassesIff(marks, tops);
  }
}
