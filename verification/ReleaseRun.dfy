// A whole run of scripts/prepare-release.js over the files it derives from
// changelog.ts, and what two runs, or a run over a printed changelog, leave.

module ReleaseRun {
  import opened Prelude
  import opened Text
  import opened FieldScan
  import opened ChangelogParser
  import opened ReleaseDocs
  import opened ReleaseAgreement
  import Debian = DebianChangelog
  import Lists = ReleaseLists
  import ReleaseHistory
  import Printer = ChangelogPrinter
  import ChangelogRoundTrip

  // The release files; a packaging file may be missing.
  datatype Files = Files(
    debian: Option<string>,
    metainfo: Option<string>,
    doap: Option<string>,
    changelog: Option<string>,
    notes: Option<string>)

  datatype Outcome = Refused | Unparsed | Prepared

  // The version being released, today's date and Debian's spelling of a date.
  datatype Request = Request(version: string, today: string, utc: string -> string)

  function SectionsOf(found: Option<Entry>): seq<Section> {
    match found
    case None => []
    case Some(e) => e.sections
  }

  // The entry's date; today's when there is no entry or its date is empty.
  function ReleaseDate(found: Option<Entry>, today: string): string {
    match found
    case None => today
    case Some(e) => if e.date == "" then today else e.date
  }

  function DebianRun(es: seq<Entry>, r: Request): Debian.StanzaRun {
    var found := Lookup(es, r.version);
    Debian.StanzaRun(r.version, Items(SectionsOf(found)), r.utc(ReleaseDate(found, r.today)))
  }

  function ListRun(es: seq<Entry>, r: Request): Lists.DatedRun {
    Lists.DatedRun(r.version, ReleaseDate(Lookup(es, r.version), r.today))
  }

  function Mapped(file: Option<string>, f: string -> string): Option<string> {
    match file
    case None => None
    case Some(text) => Some(f(text))
  }

  predicate Unreleased(es: seq<Entry>, version: string) {
    var found := Lookup(es, version);
    found.Some? && found.value.date == "Unreleased"
  }

  function Packaged(files: Files, es: seq<Entry>, r: Request): Files {
    files.(
      debian := Mapped(files.debian, text => Debian.Update(text, DebianRun(es, r))),
      metainfo := Mapped(files.metainfo, text => Lists.UpdateMetainfo(text, ListRun(es, r))),
      doap := Mapped(files.doap, text => Lists.UpdateDoap(text, ListRun(es, r))))
  }

  function Documented(files: Files, es: seq<Entry>, version: string): Files {
    var found := Lookup(es, version);
    files.(
      changelog := Some(ChangelogMd(es)),
      notes := if found.Some? then Some(NotesMd(version, found.value.sections)) else files.notes)
  }

  function PrepareRelease(files: Files, es: seq<Entry>, r: Request): (Outcome, Files) {
    if Unreleased(es, r.version) then (Refused, files)
    else
      var packaged := Packaged(files, es, r);
      if es == [] then (Unparsed, packaged) else (Prepared, Documented(packaged, es, r.version))
  }

  class Checkout {
    var debian: Option<string>
    var metainfo: Option<string>
    var doap: Option<string>
    var changelog: Option<string>
    var notes: Option<string>

    function Contents(): Files
      reads this
    {
      Files(debian, metainfo, doap, changelog, notes)
    }

    constructor (files: Files)
      ensures Contents() == files
    {
      debian, metainfo, doap := files.debian, files.metainfo, files.doap;
      changelog, notes := files.changelog, files.notes;
    }

    // The script from parsing on. A refused run touches nothing; a changelog
    // without entries is noticed only after the packaging files are written.
    method Prepare(changelogTs: string, r: Request) returns (outcome: Outcome)
      modifies this
      ensures (outcome, Contents()) == PrepareRelease(old(Contents()), Parse(changelogTs), r)
    {
      hide Parse, Debian.Update, Lists.UpdateMetainfo, Lists.UpdateDoap, ChangelogMd, NotesMd, Items;
      var entries := ParseChangelogTs(changelogTs);
      var found := Lookup(entries, r.version);
      if found.Some? && found.value.date == "Unreleased" {
        return Refused;
      }
      var date := ReleaseDate(found, r.today);
      if debian.Some? {
        var items := Items(SectionsOf(found));
        debian := Some(Debian.Update(debian.value, Debian.StanzaRun(r.version, items, r.utc(date))));
      }
      if metainfo.Some? {
        metainfo := Some(Lists.UpdateMetainfo(metainfo.value, Lists.DatedRun(r.version, date)));
      }
      if doap.Some? {
        doap := Some(Lists.UpdateDoap(doap.value, Lists.DatedRun(r.version, date)));
      }
      if |entries| == 0 {
        return Unparsed;
      }
      var markdown := GenerateChangelog(entries);
      changelog := Some(markdown);
      if found.Some? {
        var releaseNotes := GenerateNotes(r.version, found.value.sections);
        notes := Some(releaseNotes);
      }
      outcome := Prepared;
    }
  }

  // ---- Preparing the same release again ------------------------------------------------

  // The Flatpak and DOAP files are lists that a run can read, with dates that
  // do not confuse them.
  ghost predicate GoodLists(files: Files, es: seq<Entry>, r: Request) {
    var date := ListRun(es, r).date;
    && (files.metainfo.Some? ==>
          && Lists.MetainfoDate(date)
          && exists head, items, tail :: GoodMetainfoFile(files.metainfo.value, head, items, tail, r.version))
    && (files.doap.Some? ==>
          && Lists.DoapDate(date)
          && exists head, items, tail :: GoodDoapFile(files.doap.value, head, items, tail, r.version))
  }

  predicate GoodMetainfoFile(text: string, head: string, items: seq<Lists.Dated>, tail: string, version: string) {
    text == Lists.File(Lists.FLATPAK, head, Lists.ItemsOf(items), tail)
        && Lists.GoodMetainfo(head, items, tail, version)
  }

  predicate GoodDoapFile(text: string, head: string, items: seq<Lists.Item>, tail: string, version: string) {
    text == Lists.File(Lists.DOAP, head, items, tail) && Lists.GoodDoap(head, items, tail, version)
  }

  lemma MetainfoAgain(text: string, run: Lists.DatedRun)
    requires Lists.MetainfoDate(run.date)
    requires exists head, items, tail :: GoodMetainfoFile(text, head, items, tail, run.version)
    ensures Lists.UpdateMetainfo(Lists.UpdateMetainfo(text, run), run) == Lists.UpdateMetainfo(text, run)
  {
    hide Lists.GoodMetainfo, Lists.File, Lists.ItemsOf, Lists.UpdateMetainfo;
    var head, items, tail :| GoodMetainfoFile(text, head, items, tail, run.version);
    ReleaseHistory.MetainfoRepeated(head, items, tail, run);
  }

  lemma DoapAgain(text: string, run: Lists.DatedRun)
    requires Lists.DoapDate(run.date)
    requires exists head, items, tail :: GoodDoapFile(text, head, items, tail, run.version)
    ensures Lists.UpdateDoap(Lists.UpdateDoap(text, run), run) == Lists.UpdateDoap(text, run)
  {
    hide Lists.GoodDoap, Lists.File, Lists.UpdateDoap;
    var head, items, tail :| GoodDoapFile(text, head, items, tail, run.version);
    ReleaseHistory.DoapRepeated(head, items, tail, run);
  }

  // Preparing the same release twice leaves what preparing it once leaves,
  // exactly when the Debian stanza's items spell no signature line.
  lemma PreparedAgain(files: Files, es: seq<Entry>, r: Request)
    requires GoodLists(files, es, r) && !Unreleased(es, r.version)
    requires Debian.OneLine(r.version) && Debian.OneLine(DebianRun(es, r).date)
    ensures PrepareRelease(PrepareRelease(files, es, r).1, es, r) == PrepareRelease(files, es, r)
       <==> files.debian.Some? ==> Debian.QuietRun(DebianRun(es, r))
  {
    hide Debian.Update, Debian.QuietRun, Debian.OneLine, Lists.UpdateMetainfo, Lists.UpdateDoap,
      Lists.MetainfoDate, Lists.DoapDate;
    hide GoodMetainfoFile, GoodDoapFile, ChangelogMd, NotesMd, DebianRun, ListRun, Lookup;
    var packaged := Packaged(files, es, r);
    RunVersions(es, r);
    if files.debian.Some? {
      Debian.TwiceIsOnce(files.debian.value, DebianRun(es, r));
    }
    if files.metainfo.Some? {
      MetainfoAgain(files.metainfo.value, ListRun(es, r));
    }
    if files.doap.Some? {
      DoapAgain(files.doap.value, ListRun(es, r));
    }
    assert Packaged(packaged, es, r) == packaged <==> files.debian.Some? ==> Debian.QuietRun(DebianRun(es, r));
    assert Packaged(Documented(packaged, es, r.version), es, r) == Documented(Packaged(packaged, es, r), es, r.version);
  }

  // An input: the version's item spells a signature line, and preparing the
  // release again changes its Debian changelog.
  lemma SignedItemChangesAgain(debian: string, today: string, utc: string -> string)
    requires Debian.OneLine(utc("2026-01-01"))
    ensures var files := Files(Some(debian), None, None, None, None);
            var es := [Entry("1.0.0", "2026-01-01", [Section("fixed", [Debian.SIGNED_ITEM])])];
            var r := Request("1.0.0", today, utc);
            PrepareRelease(PrepareRelease(files, es, r).1, es, r) != PrepareRelease(files, es, r)
  {
    var files := Files(Some(debian), None, None, None, None);
    var es := [Entry("1.0.0", "2026-01-01", [Section("fixed", [Debian.SIGNED_ITEM])])];
    var r := Request("1.0.0", today, utc);
    assert es[0].sections[1..] == [] && Items(es[0].sections) == [Debian.SIGNED_ITEM];
    assert es[0].date[0] != "Unreleased"[0];
    assert DebianRun(es, r) == Debian.StanzaRun("1.0.0", [Debian.SIGNED_ITEM], utc("2026-01-01"));
    Debian.SignedItemIsSigned();
    assert DebianRun(es, r).items[0] == Debian.SIGNED_ITEM;
    PreparedAgain(files, es, r);
  }

  lemma RunVersions(es: seq<Entry>, r: Request)
    ensures ListRun(es, r).version == DebianRun(es, r).version == r.version
  {
  }

  // ---- From changelog.ts to the published files -------------------------------------------

  // The items of a version as they were written: the first entry's, blank ones left out.
  function Written(es: seq<Entry>, version: string): seq<string> {
    if es == [] then []
    else if es[0].version == version then Printer.NonBlank(Items(es[0].sections))
    else Written(es[1..], version)
  }

  lemma {:induction false} NonBlankJoins(a: seq<string>, b: seq<string>)
    ensures Printer.NonBlank(a + b) == Printer.NonBlank(a) + Printer.NonBlank(b)
  {
    hide Pushed;
    if a == [] {
      assert a + b == b;
    } else {
      assert (a + b)[0] == a[0] && (a + b)[1..] == a[1..] + b;
      NonBlankJoins(a[1..], b);
    }
  }

  lemma {:induction false} KeptItems(ss: seq<Section>)
    ensures Items(Printer.Kept(ss)) == Printer.NonBlank(Items(ss))
  {
    hide Pushed, Printer.NonBlank;
    if ss != [] {
      var items := Printer.NonBlank(ss[0].items);
      KeptItems(ss[1..]);
      NonBlankJoins(ss[0].items, Items(ss[1..]));
      if items != [] {
        var s := Section(ss[0].kind, items);
        assert Printer.Kept(ss) == [s] + Printer.Kept(ss[1..]);
        assert Printer.Kept(ss)[1..] == Printer.Kept(ss[1..]);
      } else {
        assert Printer.Kept(ss) == Printer.Kept(ss[1..]);
        assert items + Printer.NonBlank(Items(ss[1..])) == Printer.NonBlank(Items(ss[1..]));
      }
    } else {
      assert Printer.NonBlank([]) == [] by { NoneBlank(); }
    }
  }

  lemma NoneBlank()
    ensures Printer.NonBlank([]) == []
  {
  }

  lemma {:induction false} LookupNormals(es: seq<Entry>, version: string)
    ensures Items(SectionsOf(Lookup(Printer.Normals(es), version))) == Written(es, version)
    ensures Lookup(Printer.Normals(es), version).Some? <==> Lookup(es, version).Some?
  {
    hide Printer.NonBlank, Trim;
    if es != [] {
      KeptItems(es[0].sections);
      LookupNormals(es[1..], version);
    }
  }

  // What parsing gives back of plain versions and dates has plain headings.
  lemma {:induction false} NormalsArePlain(es: seq<Entry>, version: string)
    requires ChangelogRoundTrip.WellFormedAll(es)
    ensures PlainUpTo(Printer.Normals(es), version)
  {
    if es != [] {
      NormalIsPlain(es[0]);
      hide PlainEntry, Printer.WellFormed, Printer.Normal;
      assert forall i | 0 <= i < |es[1..]| :: es[1..][i] == es[i + 1];
      NormalsArePlain(es[1..], version);
      assert Printer.Normals(es)[1..] == Printer.Normals(es[1..]);
    }
  }

  lemma NormalIsPlain(e: Entry)
    requires Printer.WellFormed(e)
    ensures PlainEntry(Printer.Normal(e)) && NoNewline(e.version)
  {
    hide Trim, Printer.NonBlank;
    var date := Trim(e.date);
    forall i | 0 <= i < |date| ensures date[i] != '\n' {
      ChangelogRoundTrip.TrimKeeps(e.date, date[i]);
    }
    KeptKinds(e.sections);
  }

  lemma {:induction false} KeptKinds(ss: seq<Section>)
    requires forall i | 0 <= i < |ss| :: Printer.WellFormedSection(ss[i])
    ensures Kinds(Printer.Kept(ss))
  {
    hide Printer.NonBlank, AllWord;
    if ss != [] {
      assert forall i | 0 <= i < |ss[1..]| :: ss[1..][i] == ss[i + 1];
      KeptKinds(ss[1..]);
    }
  }

  lemma {:induction false} LookedUpIsPlain(es: seq<Entry>, version: string)
    requires ChangelogRoundTrip.WellFormedAll(es) && Lookup(es, version).Some?
    ensures NoNewline(version)
  {
    if es[0].version == version {
      NormalIsPlain(es[0]);
    } else {
      assert forall i | 0 <= i < |es[1..]| :: es[1..][i] == es[i + 1];
      LookedUpIsPlain(es[1..], version);
    }
  }

  // For every faithful changelog.ts, a run publishes the version's items in
  // all three outputs as they were written, if and only if none spans lines;
  // an earlier entry that misleads hides them from CHANGELOG.md.
  lemma Published(preamble: string, es: seq<Entry>, files: Files, r: Request)
    requires Printer.Quiet(preamble) && ChangelogRoundTrip.WellFormedAll(es) && Printer.Faithful(es)
    requires NoCloseBracket(r.version) && Lookup(es, r.version).Some? && files.debian.Some?
    requires var entries := Parse(Printer.File(preamble, es));
             !Unreleased(entries, r.version) && NoNewline(DebianRun(entries, r).date)
    ensures var (outcome, after) := PrepareRelease(files, Parse(Printer.File(preamble, es)), r);
            var items, misleading := Written(es, r.version), Misleading(Printer.Normals(es), r.version);
            && outcome == Prepared && after.notes.Some? && after.changelog.Some? && after.debian.Some?
            && (misleading == None ==>
                  (OneLiners(items) <==>
                   && Under(after.changelog.value, r.version) == NotesBody(after.notes.value)
                   && Bullets("- ", NotesBody(after.notes.value)) == items
                   && Bullets("  * ", after.debian.value)
                      == (if items == [] then ["See release notes for v" + r.version] else items)
                         + Bullets("  * ", Debian.BehindSignature(files.debian.value, true))))
            && (misleading.Some? ==>
                  Under(after.changelog.value, r.version) == Under(EntryMd(misleading.value), r.version))
  {
    ChangelogRoundTrip.RoundTrip(preamble, es);
    var entries := Printer.Normals(es);
    LookupNormals(es, r.version);
    NormalsArePlain(es, r.version);
    LookedUpIsPlain(es, r.version);
    hide Printer.Quiet, Printer.Faithful, Printer.File, Printer.Normals, Parse, PlainUpTo, Misleading, NoCloseBracket,
      NoNewline, OneLiners, NotesMd, ChangelogMd, EntryMd, Under, NotesBody, Bullets, Debian.Update,
      Debian.BehindSignature, Lists.UpdateMetainfo, Lists.UpdateDoap, Written;
    var e := Lookup(entries, r.version).value;
    OneMeaning(entries, e, r.version, DebianRun(entries, r).date, files.debian.value);
  }

  // ---- A run that fails ---------------------------------------------------------------------

  // A changelog no entry can be read from.
  lemma NothingParsed(content: string)
    ensures Parse(content) == [] <==> !HasArray(content) || Next(VersionField, content) == |content|
  {
    OnePass(content, 0);
    assert content[0..] == content;
    if Next(VersionField, content) < |content| {
      ParseFromStep(content);
    } else {
      ParseEnd(content, 0);
    }
  }

  // Whatever the files, a run that does not succeed leaves them as they were.
  ghost predicate FailsHarmlessly(es: seq<Entry>, r: Request) {
    forall files :: PrepareRelease(files, es, r).0 != Prepared ==> PrepareRelease(files, es, r).1 == files
  }

  // It does if and only if there is an entry to read: without one the run stops
  // when the packaging files are already rewritten.
  lemma FailsHarmlesslyIff(es: seq<Entry>, r: Request)
    ensures FailsHarmlessly(es, r) <==> es != []
  {
    if es == [] {
      var files := Files(Some(""), None, None, None, None);
      var (outcome, after) := PrepareRelease(files, es, r);
      assert outcome == Unparsed && after.debian != files.debian;
    }
  }

  // The same, read off changelog.ts: an array opens and a single-quoted
  // version stands in the text.
  lemma FailsHarmlesslyFor(content: string, r: Request)
    ensures FailsHarmlessly(Parse(content), r) <==> HasArray(content) && Next(VersionField, content) < |content|
  {
    hide Parse, HasArray, Next, FailsHarmlessly;
    NothingParsed(content);
    FailsHarmlesslyIff(Parse(content), r);
  }

  // A changelog.ts whose strings are double-quoted.
  const DOUBLE_QUOTED :=
    "export const changelog" + (" = [{ version: \"1.0.0\"," + (" date: \"2026-01-01\"," + " sections: [] }]"))

  // An input at which it fails: a run over it rewrites a Debian changelog and
  // then reports that nothing could be parsed.
  lemma DoubleQuotedFails(r: Request, debian: string)
    ensures Parse(DOUBLE_QUOTED) == []
    ensures var files := Files(Some(debian), None, None, None, None);
            PrepareRelease(files, Parse(DOUBLE_QUOTED), r)
            == (Unparsed, files.(debian := Some(Debian.Update(debian, DebianRun([], r)))))
  {
    DoubleQuotedHasNone();
    NothingParsed(DOUBLE_QUOTED);
    hide Parse, DOUBLE_QUOTED, Debian.Update;
  }

  lemma DoubleQuotedHasNone()
    ensures Next(VersionField, DOUBLE_QUOTED) == |DOUBLE_QUOTED|
  {
    assert '\'' !in "export const changelog" && '\'' !in " = [{ version: \"1.0.0\",";
    assert '\'' !in " date: \"2026-01-01\"," && '\'' !in " sections: [] }]";
    NoQuoteNoMatch(VersionField, DOUBLE_QUOTED);
  }
}
