// The Flatpak and DOAP release lists over many release runs: every sequence of
// runs leaves the list that a direct description of the history gives.

module ReleaseHistory {
  import opened ReleaseLists

  // ---- What a history means --------------------------------------------------------

  predicate Names(runs: seq<DatedRun>, v: string) {
    exists q | 0 <= q < |runs| :: runs[q].version == v
  }

  // The first run of each version that was not listed before, last one on top.
  function FirstRuns(known: seq<Item>, runs: seq<DatedRun>): seq<DatedRun>
    decreases |runs|
  {
    if runs == [] then []
    else
      var before, run := runs[..|runs| - 1], runs[|runs| - 1];
      if Has(known, run.version) || Names(before, run.version) then FirstRuns(known, before)
      else [run] + FirstRuns(known, before)
  }

  // The date of v's last run, and `otherwise` if it has none.
  function LatestDate(runs: seq<DatedRun>, v: string, otherwise: string): string
    decreases |runs|
  {
    if runs == [] then otherwise
    else if runs[|runs| - 1].version == v then runs[|runs| - 1].date
    else LatestDate(runs[..|runs| - 1], v, otherwise)
  }

  function NewDated(firsts: seq<DatedRun>, runs: seq<DatedRun>): seq<Dated> {
    seq(|firsts|, i requires 0 <= i < |firsts| =>
      Dated(firsts[i].version, LatestDate(runs, firsts[i].version, firsts[i].date), NEW_BODY))
  }

  function Redated(es: seq<Dated>, runs: seq<DatedRun>): seq<Dated> {
    seq(|es|, i requires 0 <= i < |es| => es[i].(date := LatestDate(runs, es[i].version, es[i].date)))
  }

  // The Flatpak list after the runs: every entry carries its last date.
  function MetainfoAfter(es: seq<Dated>, runs: seq<DatedRun>): seq<Dated> {
    NewDated(FirstRuns(ItemsOf(es), runs), runs) + Redated(es, runs)
  }

  function NewItems(firsts: seq<DatedRun>): seq<Item> {
    seq(|firsts|, i requires 0 <= i < |firsts| => Item(firsts[i].version, DoapMore(firsts[i])))
  }

  // The DOAP list after the runs: every entry carries its first date.
  function DoapAfter(items: seq<Item>, runs: seq<DatedRun>): seq<Item> {
    NewItems(FirstRuns(items, runs)) + items
  }

  predicate Once(items: seq<Item>) {
    forall i, j | 0 <= i < j < |items| :: items[i].version != items[j].version
  }

  // ---- The first runs ------------------------------------------------------------------

  lemma NamesJoins(a: seq<DatedRun>, b: seq<DatedRun>, v: string)
    ensures Names(a + b, v) <==> Names(a, v) || Names(b, v)
  {
    var all := a + b;
    if i :| 0 <= i < |a| && a[i].version == v {
      assert all[i].version == v;
    }
    if i :| 0 <= i < |b| && b[i].version == v {
      assert all[|a| + i].version == v;
    }
  }

  lemma NamesOne(run: DatedRun, v: string)
    ensures Names([run], v) <==> run.version == v
  {
    assert [run][0] == run;
  }

  // The new versions are the runs' versions that were not listed.
  lemma {:induction false} FirstRunsAre(known: seq<Item>, runs: seq<DatedRun>, v: string)
    ensures Names(FirstRuns(known, runs), v) <==> Names(runs, v) && !Has(known, v)
    decreases |runs|
  {
    if runs != [] {
      hide Has, Names;
      var before, run := runs[..|runs| - 1], runs[|runs| - 1];
      assert runs == before + [run];
      FirstRunsAre(known, before, v);
      NamesJoins(before, [run], v);
      NamesOne(run, v);
      NamesJoins([run], FirstRuns(known, before), v);
    }
  }

  predicate Distinct(runs: seq<DatedRun>) {
    forall i, j | 0 <= i < j < |runs| :: runs[i].version != runs[j].version
  }

  // No version is new twice.
  lemma {:induction false} FirstRunsAreDistinct(known: seq<Item>, runs: seq<DatedRun>)
    ensures Distinct(FirstRuns(known, runs))
    decreases |runs|
  {
    if runs != [] {
      var before, run := runs[..|runs| - 1], runs[|runs| - 1];
      var firsts := FirstRuns(known, before);
      FirstRunsAreDistinct(known, before);
      FirstRunsAre(known, before, run.version);
      forall j | 0 <= j < |firsts| && !Names(before, run.version) ensures firsts[j].version != run.version {
        assert !Names(firsts, run.version);
      }
    }
  }

  // Every listed first run is the earliest run of its version.
  lemma {:induction false} FirstRunIsEarliest(known: seq<Item>, runs: seq<DatedRun>, i: nat) returns (r: nat)
    requires i < |FirstRuns(known, runs)|
    ensures r < |runs| && runs[r] == FirstRuns(known, runs)[i]
    ensures !Names(runs[..r], runs[r].version)
    decreases |runs|
  {
    var n := |runs| - 1;
    var before, run := runs[..n], runs[n];
    if Has(known, run.version) || Names(before, run.version) {
      r := FirstRunIsEarliest(known, before, i);
      assert before[..r] == runs[..r];
    } else if i == 0 {
      r := n;
    } else {
      r := FirstRunIsEarliest(known, before, i - 1);
      assert before[..r] == runs[..r];
    }
  }

  // The latest date is that of the last run of the version.
  lemma {:induction false} LatestDateIs(runs: seq<DatedRun>, v: string, otherwise: string, r: nat)
    requires r < |runs| && runs[r].version == v && !Names(runs[r + 1..], v)
    ensures LatestDate(runs, v, otherwise) == runs[r].date
    decreases |runs|
  {
    var n := |runs| - 1;
    if r < n {
      assert runs[r + 1..][n - r - 1] == runs[n];
      assert runs[r + 1..] == runs[..n][r + 1..] + [runs[n]];
      NamesJoins(runs[..n][r + 1..], [runs[n]], v);
      LatestDateIs(runs[..n], v, otherwise, r);
    }
  }

  lemma {:induction false} LatestDateOf(runs: seq<DatedRun>, v: string, otherwise: string)
    requires !Names(runs, v)
    ensures LatestDate(runs, v, otherwise) == otherwise
    decreases |runs|
  {
    if runs != [] {
      var n := |runs| - 1;
      assert runs[n].version != v;
      assert runs == runs[..n] + [runs[n]];
      NamesJoins(runs[..n], [runs[n]], v);
      LatestDateOf(runs[..n], v, otherwise);
    }
  }

  // ---- The DOAP list ----------------------------------------------------------------------

  lemma HasJoins(a: seq<Item>, b: seq<Item>, v: string)
    ensures Has(a + b, v) <==> Has(a, v) || Has(b, v)
  {
    var all := a + b;
    if i :| 0 <= i < |a| && a[i].version == v {
      assert all[i].version == v;
    }
    if i :| 0 <= i < |b| && b[i].version == v {
      assert all[|a| + i].version == v;
    }
  }

  lemma HasNames(items: seq<Item>, runs: seq<DatedRun>, v: string)
    requires |items| == |runs| && forall i | 0 <= i < |runs| :: items[i].version == runs[i].version
    ensures Has(items, v) <==> Names(runs, v)
  {
  }

  // After the runs the list holds the old versions and the runs'.
  lemma DoapHas(items: seq<Item>, runs: seq<DatedRun>, v: string)
    ensures Has(DoapAfter(items, runs), v) <==> Has(items, v) || Names(runs, v)
  {
    hide DoapMore, FirstRuns;
    var firsts := FirstRuns(items, runs);
    HasJoins(NewItems(firsts), items, v);
    HasNames(NewItems(firsts), firsts, v);
    FirstRunsAre(items, runs, v);
  }

  lemma {:induction false} DoapStepsLast(items: seq<Item>, runs: seq<DatedRun>)
    requires runs != []
    ensures DoapSteps(items, runs) == DoapStep(DoapSteps(items, runs[..|runs| - 1]), runs[|runs| - 1])
    decreases |runs|
  {
    hide DoapStep;
    var n := |runs| - 1;
    if n > 0 {
      DoapStepsLast(DoapStep(items, runs[0]), runs[1..]);
      assert runs[1..][..n - 1] == runs[..n][1..] && runs[..n][0] == runs[0] && runs[1..][n - 1] == runs[n];
    }
  }

  // The steps leave the list the history describes.
  lemma {:induction false} DoapStepsAre(items: seq<Item>, runs: seq<DatedRun>)
    ensures DoapSteps(items, runs) == DoapAfter(items, runs)
    decreases |runs|
  {
    hide DoapMore, Has, Names;
    if runs == [] {
      assert DoapAfter(items, runs) == items;
    } else {
      var before, run := runs[..|runs| - 1], runs[|runs| - 1];
      DoapStepsLast(items, runs);
      DoapStepsAre(items, before);
      DoapHas(items, before, run.version);
      var firsts := FirstRuns(items, before);
      assert NewItems([run] + firsts) == [Item(run.version, DoapMore(run))] + NewItems(firsts);
    }
  }

  // The DOAP file after any runs: the new versions on top, each with the date
  // of its first run, above the untouched old list.
  lemma DoapHistory(head: string, items: seq<Item>, tail: string, runs: seq<DatedRun>)
    requires forall i | 0 <= i < |runs| :: GoodDoap(head, items, tail, runs[i].version) && DoapDate(runs[i].date)
    ensures UpdateDoapAll(File(DOAP, head, items, tail), runs) == File(DOAP, head, DoapAfter(items, runs), tail)
  {
    hide GoodDoap, DoapDate, File, UpdateDoapAll, DoapSteps, DoapAfter;
    DoapFile(head, items, tail, runs);
    DoapStepsAre(items, runs);
  }

  // One entry per version stays one entry per version.
  lemma DoapOnce(items: seq<Item>, runs: seq<DatedRun>)
    requires Once(items)
    ensures Once(DoapAfter(items, runs))
  {
    var firsts, all := FirstRuns(items, runs), DoapAfter(items, runs);
    FirstRunsAreDistinct(items, runs);
    forall i, j | 0 <= i < j < |all| ensures all[i].version != all[j].version {
      if i < |firsts| <= j {
        assert Names(firsts, firsts[i].version);
        FirstRunsAre(items, runs, firsts[i].version);
        assert all[j] == items[j - |firsts|];
      }
    }
  }

  // ---- The Flatpak list --------------------------------------------------------------------

  lemma ItemsOfJoins(a: seq<Dated>, b: seq<Dated>)
    ensures ItemsOf(a + b) == ItemsOf(a) + ItemsOf(b)
  {
  }

  lemma MetainfoHas(es: seq<Dated>, runs: seq<DatedRun>, v: string)
    ensures Has(ItemsOf(MetainfoAfter(es, runs)), v) <==> Has(ItemsOf(es), v) || Names(runs, v)
  {
    hide FirstRuns, LatestDate, FlatpakMore;
    var firsts := FirstRuns(ItemsOf(es), runs);
    var added, kept := NewDated(firsts, runs), Redated(es, runs);
    ItemsOfJoins(added, kept);
    HasJoins(ItemsOf(added), ItemsOf(kept), v);
    HasNames(ItemsOf(added), firsts, v);
    FirstRunsAre(ItemsOf(es), runs, v);
    SameVersions(ItemsOf(kept), ItemsOf(es), v);
  }

  lemma SameVersions(a: seq<Item>, b: seq<Item>, v: string)
    requires |a| == |b| && forall i | 0 <= i < |a| :: a[i].version == b[i].version
    ensures Has(a, v) <==> Has(b, v)
  {
  }

  lemma MetainfoOnce(es: seq<Dated>, runs: seq<DatedRun>)
    requires Once(ItemsOf(es))
    ensures Once(ItemsOf(MetainfoAfter(es, runs)))
  {
    hide FlatpakMore, LatestDate;
    var firsts, all := FirstRuns(ItemsOf(es), runs), MetainfoAfter(es, runs);
    FirstRunsAreDistinct(ItemsOf(es), runs);
    forall i, j | 0 <= i < j < |all| ensures all[i].version != all[j].version {
      if j < |firsts| {
        assert firsts[i].version != firsts[j].version;
      } else if i < |firsts| {
        assert Names(firsts, firsts[i].version);
        FirstRunsAre(ItemsOf(es), runs, firsts[i].version);
        assert ItemsOf(es)[j - |firsts|].version == all[j].version;
      } else {
        assert ItemsOf(es)[i - |firsts|].version != ItemsOf(es)[j - |firsts|].version;
      }
    }
  }

  lemma {:induction false} MetainfoStepsLast(es: seq<Dated>, runs: seq<DatedRun>)
    requires runs != []
    ensures MetainfoSteps(es, runs) == MetainfoStep(MetainfoSteps(es, runs[..|runs| - 1]), runs[|runs| - 1])
    decreases |runs|
  {
    hide MetainfoStep;
    var n := |runs| - 1;
    if n > 0 {
      MetainfoStepsLast(MetainfoStep(es, runs[0]), runs[1..]);
      assert runs[1..][..n - 1] == runs[..n][1..] && runs[..n][0] == runs[0] && runs[1..][n - 1] == runs[n];
    }
  }

  // One more run is one more step of the described history.
  lemma MetainfoAfterStep(es: seq<Dated>, runs: seq<DatedRun>)
    requires runs != [] && Once(ItemsOf(es))
    ensures MetainfoAfter(es, runs) == MetainfoStep(MetainfoAfter(es, runs[..|runs| - 1]), runs[|runs| - 1])
  {
    hide Names, FlatpakMore, NEW_BODY, Once, Has, MetainfoAfter, ItemsOf;
    var before, run := runs[..|runs| - 1], runs[|runs| - 1];
    var was := MetainfoAfter(es, before);
    MetainfoHas(es, before, run.version);
    IndexOfIs(ItemsOf(was), run.version);
    MetainfoOnce(es, before);
    ItemsOfLength(was);
    var k := IndexOf(ItemsOf(was), run.version);
    if Has(ItemsOf(was), run.version) {
      OthersDiffer(was, run.version, k);
      KnownAgain(es, runs, k);
    } else {
      NoneIs(was, run.version);
      NewOnTop(es, runs);
    }
  }

  lemma ItemsOfLength(es: seq<Dated>)
    ensures |ItemsOf(es)| == |es|
  {
  }

  lemma KnownAgain(es: seq<Dated>, runs: seq<DatedRun>, k: nat)
    requires runs != []
    requires var was, v := MetainfoAfter(es, runs[..|runs| - 1]), runs[|runs| - 1].version;
             && (Has(ItemsOf(es), v) || Names(runs[..|runs| - 1], v)) && k < |was|
             && forall i | 0 <= i < |was| :: was[i].version == v <==> i == k
    ensures var was := MetainfoAfter(es, runs[..|runs| - 1]);
            MetainfoAfter(es, runs) == was[k := was[k].(date := runs[|runs| - 1].date)]
  {
    hide Names, FlatpakMore, NEW_BODY, Has, ItemsOf;
  }

  lemma NewOnTop(es: seq<Dated>, runs: seq<DatedRun>)
    requires runs != []
    requires var was, v := MetainfoAfter(es, runs[..|runs| - 1]), runs[|runs| - 1].version;
             && !Has(ItemsOf(es), v) && !Names(runs[..|runs| - 1], v)
             && forall i | 0 <= i < |was| :: was[i].version != v
    ensures var run := runs[|runs| - 1];
            MetainfoAfter(es, runs) == [Dated(run.version, run.date, NEW_BODY)] + MetainfoAfter(es, runs[..|runs| - 1])
  {
    hide Names, FlatpakMore, NEW_BODY, Has, ItemsOf;
  }

  lemma OthersDiffer(es: seq<Dated>, v: string, k: nat)
    requires Once(ItemsOf(es)) && k < |es| && ItemsOf(es)[k].version == v
    ensures forall i | 0 <= i < |es| :: es[i].version == v <==> i == k
  {
    forall i | 0 <= i < |es| ensures es[i].version == v <==> i == k {
      assert ItemsOf(es)[i].version == es[i].version;
    }
  }

  lemma NoneIs(es: seq<Dated>, v: string)
    requires !Has(ItemsOf(es), v)
    ensures forall i | 0 <= i < |es| :: es[i].version != v
  {
    forall i | 0 <= i < |es| ensures es[i].version != v {
      assert ItemsOf(es)[i].version == es[i].version;
    }
  }

  lemma {:induction false} MetainfoStepsAre(es: seq<Dated>, runs: seq<DatedRun>)
    requires Once(ItemsOf(es))
    ensures MetainfoSteps(es, runs) == MetainfoAfter(es, runs)
    decreases |runs|
  {
    hide Once, MetainfoStep, ItemsOf, NEW_BODY;
    if runs == [] {
      assert MetainfoAfter(es, runs) == es;
    } else {
      MetainfoStepsLast(es, runs);
      MetainfoStepsAre(es, runs[..|runs| - 1]);
      MetainfoAfterStep(es, runs);
    }
  }

  // The Flatpak file after any runs: the new versions on top in the order they
  // first appeared, every entry with the date of its version's last run, and
  // nothing else changed.
  lemma MetainfoHistory(head: string, es: seq<Dated>, tail: string, runs: seq<DatedRun>)
    requires Once(ItemsOf(es))
    requires forall i | 0 <= i < |runs| :: GoodMetainfo(head, es, tail, runs[i].version) && MetainfoDate(runs[i].date)
    ensures UpdateMetainfoAll(File(FLATPAK, head, ItemsOf(es), tail), runs)
         == File(FLATPAK, head, ItemsOf(MetainfoAfter(es, runs)), tail)
  {
    hide GoodMetainfo, MetainfoDate, Once, File, UpdateMetainfoAll, MetainfoSteps, MetainfoAfter, ItemsOf;
    MetainfoFile(head, es, tail, runs);
    MetainfoStepsAre(es, runs);
  }

  // ---- A repeated run -------------------------------------------------------------------------

  lemma MetainfoRepeated(head: string, es: seq<Dated>, tail: string, run: DatedRun)
    requires GoodMetainfo(head, es, tail, run.version) && MetainfoDate(run.date)
    ensures var once := UpdateMetainfo(File(FLATPAK, head, ItemsOf(es), tail), run);
            UpdateMetainfo(once, run) == once
  {
    hide GoodMetainfo, File, UpdateMetainfo, Quotable, NEW_BODY, Has;
    var next := MetainfoStep(es, run);
    MetainfoStepIs(head, es, tail, run);
    StaysGood(head, es, tail, run, run.version) by { assert IsVersion(run.version) by { GoodIsVersion(head, es, tail,
        run.version); } }
    MetainfoStepIs(head, next, tail, run);
    StepTwice(es, run);
  }

  lemma GoodIsVersion(head: string, es: seq<Dated>, tail: string, v: string)
    requires GoodMetainfo(head, es, tail, v)
    ensures IsVersion(v)
  {
  }

  lemma StepTwice(es: seq<Dated>, run: DatedRun)
    ensures MetainfoStep(MetainfoStep(es, run), run) == MetainfoStep(es, run)
  {
    hide FlatpakMore, NEW_BODY, Has;
    var v, next := run.version, MetainfoStep(es, run);
    var k := IndexOf(ItemsOf(es), v);
    IndexOfIs(ItemsOf(es), v);
    if k < |es| {
      IndexOfSame(ItemsOf(es), ItemsOf(next), v);
    } else {
      assert ItemsOf(next)[0].version == v;
    }
  }

  lemma {:induction false} IndexOfSame(a: seq<Item>, b: seq<Item>, v: string)
    requires |a| == |b| && forall i | 0 <= i < |a| :: a[i].version == b[i].version
    ensures IndexOf(a, v) == IndexOf(b, v)
  {
    if a != [] && a[0].version != v {
      IndexOfSame(a[1..], b[1..], v);
    }
  }

  lemma DoapRepeated(head: string, items: seq<Item>, tail: string, run: DatedRun)
    requires GoodDoap(head, items, tail, run.version) && DoapDate(run.date)
    ensures var once := UpdateDoap(File(DOAP, head, items, tail), run);
            UpdateDoap(once, run) == once
  {
    hide DoapMore, UpdateDoap, DoapStep, File, Around, IsVersion, Has;
    var next := DoapStep(items, run);
    DoapStepIs(head, items, tail, run);
    DoapStaysGood(head, items, tail, run, run.version);
    DoapStepIs(head, next, tail, run);
    DoapStepTwice(items, run);
  }

  lemma DoapStepTwice(items: seq<Item>, run: DatedRun)
    ensures DoapStep(DoapStep(items, run), run) == DoapStep(items, run)
  {
    if !Has(items, run.version) {
      assert DoapStep(items, run)[0].version == run.version;
    }
  }
}
