// What a run of scripts/prepare-release.js comes to, read off the changelog's
// entries: when it refuses, when it stops halfway, and what it writes.

module RunOutcomes {
  import opened Prelude
  import opened Text
  import opened ChangelogParser
  import opened ReleaseRun
  import Docs = ReleaseDocs
  import Debian = DebianChangelog
  import Lists = ReleaseLists
  import Printer = ChangelogPrinter
  import ChangelogRoundTrip

  // Entry i is the first of the version.
  predicate FirstOf(es: seq<Entry>, version: string, i: nat) {
    i < |es| && es[i].version == version && forall j | 0 <= j < i :: es[j].version != version
  }

  lemma {:induction false} LookupIs(es: seq<Entry>, version: string)
    ensures forall i: nat | FirstOf(es, version, i) :: Docs.Lookup(es, version) == Some(es[i])
    ensures Docs.Lookup(es, version).Some? ==> exists i: nat :: FirstOf(es, version, i)
  {
    if es != [] && es[0].version != version {
      var rest := es[1..];
      LookupIs(rest, version);
      assert forall k | 0 <= k < |rest| :: rest[k] == es[k + 1];
      forall i: nat | FirstOf(es, version, i) ensures Docs.Lookup(es, version) == Some(es[i]) {
        assert FirstOf(rest, version, i - 1);
      }
      if i: nat :| FirstOf(rest, version, i) {
        FirstShifts(es, version, i);
      }
    } else if es != [] {
      assert FirstOf(es, version, 0);
    }
  }

  lemma FirstShifts(es: seq<Entry>, version: string, i: nat)
    requires es != [] && es[0].version != version && FirstOf(es[1..], version, i)
    ensures FirstOf(es, version, i + 1)
  {
    forall j | 0 <= j < i + 1 ensures es[j].version != version {
      assert j > 0 ==> es[1..][j - 1] == es[j];
    }
  }

  // ---- When a run refuses -------------------------------------------------------------

  // The version's first entry is dated "Unreleased".
  ghost predicate StillOpen(es: seq<Entry>, version: string) {
    exists i: nat :: FirstOf(es, version, i) && es[i].date == "Unreleased"
  }

  // A run refuses exactly if the version's first entry says Unreleased, and
  // then touches nothing; otherwise it stops halfway exactly without entries.
  lemma OutcomeIs(files: Files, es: seq<Entry>, r: Request)
    ensures var (outcome, after) := PrepareRelease(files, es, r);
            && (outcome == Refused <==> StillOpen(es, r.version))
            && (StillOpen(es, r.version) ==> after == files)
            && (outcome == Unparsed <==> es == [])
            && (outcome == Prepared <==> es != [] && !StillOpen(es, r.version))
  {
    hide Packaged, Documented;
    LookupIs(es, r.version);
  }

  // t with spaces around it.
  predicate Padded(s: string, a: string, t: string, b: string) {
    AllSpace(a) && AllSpace(b) && s == a + (t + b)
  }

  ghost predicate SaysUnreleased(date: string) {
    exists a, b :: Padded(date, a, "Unreleased", b)
  }

  lemma TrimsToUnreleased(date: string)
    ensures Trim(date) == "Unreleased" <==> SaysUnreleased(date)
  {
    var t := "Unreleased";
    assert t != "" && !IsSpace(t[0]) && !IsSpace(t[|t| - 1]);
    hide IsSpace, Trim, Padded;
    if a, b :| Padded(date, a, t, b) {
      PaddedTrims(date, a, t, b);
    }
    var a, b := TrimmedIsPadded(date);
  }

  lemma PaddedTrims(s: string, a: string, t: string, b: string)
    requires t != "" && !IsSpace(t[0]) && !IsSpace(t[|t| - 1]) && Padded(s, a, t, b)
    ensures Trim(s) == t
  {
    TrimIs(a, t, b);
  }

  lemma TrimmedIsPadded(s: string) returns (a: string, b: string)
    ensures Padded(s, a, Trim(s), b)
  {
    hide IsSpace, AllSpace;
    var r := TrimStart(s);
    var t := TrimEnd(r);
    assert t == Trim(s) && t <= r;
    hide TrimStart, TrimEnd, Trim;
    a, b := s[..|s| - |r|], r[|t|..];
    FrontAndRest(a, s);
    FrontAndRest(t, r);
  }

  lemma {:induction false} NormalsAre(es: seq<Entry>)
    ensures |Printer.Normals(es)| == |es|
    ensures forall i | 0 <= i < |es| ::
        Printer.Normals(es)[i].version == es[i].version && Printer.Normals(es)[i].date == Trim(es[i].date)
  {
    hide Printer.Kept, Trim;
    if es != [] {
      var rest := Printer.Normals(es[1..]);
      NormalsAre(es[1..]);
      assert Printer.Normals(es) == [Printer.Normal(es[0])] + rest;
      forall i | 1 <= i < |es| ensures Printer.Normals(es)[i] == rest[i - 1] && es[i] == es[1..][i - 1] {
      }
    }
  }

  // The same of a printed changelog.ts, by the entry as it is written there.
  lemma RefusedFor(preamble: string, es: seq<Entry>, files: Files, r: Request)
    requires Printer.Quiet(preamble) && ChangelogRoundTrip.WellFormedAll(es) && Printer.Faithful(es)
    ensures PrepareRelease(files, Parse(Printer.File(preamble, es)), r) == (Refused, files)
       <==> exists i: nat :: FirstOf(es, r.version, i) && SaysUnreleased(es[i].date)
  {
    hide Printer.Quiet, Printer.Faithful, Printer.File, Printer.Normals, ChangelogRoundTrip.WellFormedAll, Parse,
      PrepareRelease, Trim, SaysUnreleased;
    ChangelogRoundTrip.RoundTrip(preamble, es);
    var entries := Printer.Normals(es);
    NormalsAre(es);
    OutcomeIs(files, entries, r);
    forall i: nat
      ensures FirstOf(entries, r.version, i) <==> FirstOf(es, r.version, i)
      ensures i < |es| ==> (entries[i].date == "Unreleased" <==> SaysUnreleased(es[i].date))
    {
      if i < |es| {
        TrimsToUnreleased(es[i].date);
      }
    }
  }

  // An input: the version's entry is the unreleased one on top.
  lemma UnreleasedOnTop(files: Files, r: Request, ss: seq<Section>, older: seq<Entry>)
    ensures PrepareRelease(files, [Entry(r.version, "Unreleased", ss)] + older, r) == (Refused, files)
  {
    var es := [Entry(r.version, "Unreleased", ss)] + older;
    assert FirstOf(es, r.version, 0);
    OutcomeIs(files, es, r);
  }

  // ---- What it writes ----------------------------------------------------------------------

  // The date all three packaging files get: the entry's if it has one.
  predicate DatedBy(date: string, e: Entry, today: string) {
    (e.date != "" ==> date == e.date) && (e.date == "" ==> date == today)
  }

  // What the packaging steps make of the files: each that is there is updated
  // for the version, its items and the date; none is created or lost.
  predicate Updated(files: Files, after: Files, r: Request, items: seq<string>, date: string) {
    && (files.debian.None? ==> after.debian.None?)
    && (files.metainfo.None? ==> after.metainfo.None?)
    && (files.doap.None? ==> after.doap.None?)
    && (files.debian.Some? ==>
          after.debian == Some(Debian.Update(files.debian.value, Debian.StanzaRun(r.version, items, r.utc(date)))))
    && (files.metainfo.Some? ==>
          after.metainfo == Some(Lists.UpdateMetainfo(files.metainfo.value, Lists.DatedRun(r.version, date))))
    && (files.doap.Some? ==>
          after.doap == Some(Lists.UpdateDoap(files.doap.value, Lists.DatedRun(r.version, date))))
  }

  // A run that is not refused goes by the version's first entry: its items, its
  // date or today's, its notes.
  lemma PreparedIs(files: Files, es: seq<Entry>, r: Request, i: nat, date: string)
    requires FirstOf(es, r.version, i) && es[i].date != "Unreleased" && DatedBy(date, es[i], r.today)
    ensures var (outcome, after) := PrepareRelease(files, es, r);
            && outcome == Prepared
            && Updated(files, after, r, Docs.Items(es[i].sections), date)
            && after.changelog == Some(Docs.ChangelogMd(es))
            && after.notes == Some(Docs.NotesMd(r.version, es[i].sections))
  {
    hide Docs.ChangelogMd, Docs.NotesMd, Docs.Items, Debian.Update, Lists.UpdateMetainfo, Lists.UpdateDoap;
    LookupIs(es, r.version);
  }

  // A version without an entry is dated today, without items and without notes
  // of its own; without any entry the documents are not written either.
  lemma NotListedYet(files: Files, es: seq<Entry>, r: Request)
    requires forall i | 0 <= i < |es| :: es[i].version != r.version
    ensures var (outcome, after) := PrepareRelease(files, es, r);
            && outcome == (if es == [] then Unparsed else Prepared)
            && Updated(files, after, r, [], r.today)
            && after.changelog == (if es == [] then files.changelog else Some(Docs.ChangelogMd(es)))
            && after.notes == files.notes
  {
    hide Docs.ChangelogMd, Docs.NotesMd, Debian.Update, Lists.UpdateMetainfo, Lists.UpdateDoap;
    LookupIs(es, r.version);
  }
}
