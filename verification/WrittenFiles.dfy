// The files a run of scripts/prepare-release.js writes, line by line, and the
// headings and titles read back from them.

module WrittenFiles {
  import opened Text
  import opened Templates
  import opened ChangelogParser
  import Docs = ReleaseDocs
  import ReleaseAgreement

  // ---- Lines -------------------------------------------------------------------------

  function Lines(ls: seq<string>): string {
    if ls == [] then "" else ls[0] + ("\n" + Lines(ls[1..]))
  }

  function Behind(bullet: string, items: seq<string>): seq<string> {
    seq(|items|, i requires 0 <= i < |items| => bullet + items[i])
  }

  lemma {:induction false} LinesJoin(a: seq<string>, b: seq<string>)
    ensures Lines(a + b) == Lines(a) + Lines(b)
  {
    if a == [] {
      assert a + b == b;
    } else {
      assert (a + b)[1..] == a[1..] + b;
      LinesJoin(a[1..], b);
      Docs.LineRegroup(a[0], Lines(a[1..]), Lines(b));
    }
  }

  lemma OneLineOf(l: string)
    ensures Lines([l]) == l + "\n"
  {
    assert [l][1..] == [];
  }

  lemma TwoLines(l: string, m: string)
    ensures Lines([l, m]) == l + ("\n" + (m + "\n"))
  {
    assert [l, m][1..] == [m];
    OneLineOf(m);
  }

  lemma {:induction false} BulletLines(bullet: string, items: seq<string>)
    ensures Docs.Bulleted(bullet, items) == Lines(Behind(bullet, items))
  {
    if items != [] {
      BulletLines(bullet, items[1..]);
      assert Behind(bullet, items)[1..] == Behind(bullet, items[1..]);
    }
  }

  // ---- The documents -------------------------------------------------------------------

  // Four types have titles, any other is its own.
  lemma TitleIs(kind: string)
    ensures Docs.Title("added") == "Added" && Docs.Title("changed") == "Changed"
    ensures Docs.Title("fixed") == "Fixed" && Docs.Title("removed") == "Removed"
    ensures kind !in ["added", "changed", "fixed", "removed"] ==> Docs.Title(kind) == kind
  {
  }

  function SectionLines(s: Section): seq<string> {
    ["### " + Docs.Title(s.kind), ""] + (Behind("- ", s.items) + [""])
  }

  function SectionsLines(ss: seq<Section>): seq<string> {
    if ss == [] then [] else SectionLines(ss[0]) + SectionsLines(ss[1..])
  }

  function EntryLines(e: Entry): seq<string> {
    ["## [" + (e.version + ("] - " + e.date)), ""] + SectionsLines(e.sections)
  }

  function EntriesLines(es: seq<Entry>): seq<string> {
    if es == [] then [] else EntryLines(es[0]) + EntriesLines(es[1..])
  }

  const OPENING := ["# Changelog", "", Docs.SCOPE, "", Docs.FORMAT, Docs.VERSIONING, ""]

  lemma SectionIs(s: Section)
    ensures Docs.SectionMd(s) == Lines(SectionLines(s))
  {
    hide Docs.Title, Docs.Bulleted;
    var items := Behind("- ", s.items);
    BulletLines("- ", s.items);
    TwoLines("### " + Docs.Title(s.kind), "");
    OneLineOf("");
    LinesJoin(items, [""]);
    LinesJoin(["### " + Docs.Title(s.kind), ""], items + [""]);
    hide Lines, Behind;
    Titled(Docs.Title(s.kind), Lines(items) + "\n");
  }

  lemma Titled(title: string, rest: string)
    ensures (("### " + title) + ("\n" + ("" + "\n"))) + rest == "### " + (title + ("\n" + ("\n" + rest)))
  {
  }

  lemma {:induction false} SectionsAre(ss: seq<Section>)
    ensures Docs.SectionsMd(ss) == Lines(SectionsLines(ss))
  {
    hide Docs.SectionMd, SectionLines;
    if ss != [] {
      SectionIs(ss[0]);
      SectionsAre(ss[1..]);
      LinesJoin(SectionLines(ss[0]), SectionsLines(ss[1..]));
    }
  }

  lemma EntryIs(e: Entry)
    ensures Docs.EntryMd(e) == Lines(EntryLines(e))
  {
    var heading := "## [" + (e.version + ("] - " + e.date));
    SectionsAre(e.sections);
    TwoLines(heading, "");
    LinesJoin([heading, ""], SectionsLines(e.sections));
    hide Lines, SectionsLines, Docs.SectionsMd;
    Headed(heading, Docs.SectionsMd(e.sections));
  }

  lemma Headed(heading: string, rest: string)
    ensures (heading + ("\n" + ("" + "\n"))) + rest == heading + ("\n" + ("\n" + rest))
  {
  }

  lemma {:induction false} EntriesAre(es: seq<Entry>)
    ensures Docs.EntriesMd(es) == Lines(EntriesLines(es))
  {
    hide Docs.EntryMd, EntryLines;
    if es != [] {
      EntryIs(es[0]);
      EntriesAre(es[1..]);
      LinesJoin(EntryLines(es[0]), EntriesLines(es[1..]));
    }
  }

  lemma OpeningIs(rest: seq<string>)
    ensures Docs.Preamble(Lines(rest)) == Lines(OPENING + rest)
  {
    hide Docs.SCOPE, Docs.FORMAT, Docs.VERSIONING, Lines;
    var adheres := [Docs.VERSIONING] + ([""] + rest);
    var based := [""] + ([Docs.FORMAT] + adheres);
    var scope := [""] + ([Docs.SCOPE] + based);
    LineFirst("", rest);
    LineFirst(Docs.VERSIONING, [""] + rest);
    LineFirst(Docs.FORMAT, adheres);
    LineFirst("", [Docs.FORMAT] + adheres);
    LineFirst(Docs.SCOPE, based);
    LineFirst("", [Docs.SCOPE] + based);
    LineFirst("# Changelog", scope);
    assert OPENING + rest == ["# Changelog"] + scope;
  }

  lemma LineFirst(l: string, rest: seq<string>)
    ensures Lines([l] + rest) == l + ("\n" + Lines(rest))
  {
    assert ([l] + rest)[1..] == rest;
  }

  // CHANGELOG.md: the opening, and under each entry's heading, in order, its
  // sections' titles with a line per item.
  lemma ChangelogIs(es: seq<Entry>)
    ensures Docs.ChangelogMd(es) == Lines(OPENING + EntriesLines(es))
  {
    hide Docs.Preamble, Docs.EntriesMd, Lines, EntriesLines;
    EntriesAre(es);
    OpeningIs(EntriesLines(es));
  }

  const NOTES_LINK := "[Full Changelog](https://github.com"
      + ("/processone/fluux-messenger/blob" + "/main/CHANGELOG.md)")

  // RELEASE_NOTES.md: heading, the version's sections, rule and link.
  lemma NotesAre(version: string, ss: seq<Section>)
    ensures Docs.NotesMd(version, ss)
         == Lines(["## What's New in v" + version, ""] + (SectionsLines(ss) + ["---", NOTES_LINK]))
  {
    var heading := "## What's New in v" + version;
    SectionsAre(ss);
    TwoLines(heading, "");
    TwoLines("---", NOTES_LINK);
    LinesJoin(SectionsLines(ss), ["---", NOTES_LINK]);
    LinesJoin([heading, ""], SectionsLines(ss) + ["---", NOTES_LINK]);
    hide Lines, SectionsLines, Docs.SectionsMd, NOTES_LINK, Docs.FULL_CHANGELOG;
    assert Docs.FULL_CHANGELOG == NOTES_LINK by { SameLink(); }
    Headed(heading, Docs.SectionsMd(ss) + ("---" + ("\n" + (NOTES_LINK + "\n"))));
    Noted("## What's New in v", version, Docs.SectionsMd(ss) + ("---" + ("\n" + (NOTES_LINK + "\n"))));
  }

  lemma SameLink()
    ensures Docs.FULL_CHANGELOG == NOTES_LINK
  {
  }

  lemma Noted(mark: string, version: string, rest: string)
    ensures (mark + version) + ("\n" + ("\n" + rest)) == mark + (version + ("\n" + ("\n" + rest)))
  {
  }

  // ---- Headings and titles, read back ----------------------------------------------------

  // What follows the mark, for every line that starts with it.
  function Marked(mark: string, ls: seq<string>): seq<string> {
    if ls == [] then []
    else (if mark <= ls[0] then [ls[0][|mark|..]] else []) + Marked(mark, ls[1..])
  }

  lemma {:induction false} ReadLines(mark: string, ls: seq<string>)
    requires Docs.OneLiners(ls)
    ensures Docs.Bullets(mark, Lines(ls)) == Marked(mark, ls)
  {
    hide Docs.NoNewline;
    if ls != [] {
      Docs.BulletsLine(mark, ls[0], Lines(ls[1..]));
      ReadLines(mark, ls[1..]);
      hide Docs.Bullets;
    }
  }

  lemma {:induction false} MarkedJoin(mark: string, a: seq<string>, b: seq<string>)
    ensures Marked(mark, a + b) == Marked(mark, a) + Marked(mark, b)
  {
    if a == [] {
      assert a + b == b;
    } else {
      assert (a + b)[0] == a[0] && (a + b)[1..] == a[1..] + b;
      MarkedJoin(mark, a[1..], b);
      Assoc(if mark <= a[0] then [a[0][|mark|..]] else [], Marked(mark, a[1..]), Marked(mark, b));
    }
  }

  lemma {:induction false} MarkedNone(mark: string, ls: seq<string>)
    requires forall i | 0 <= i < |ls| :: !(mark <= ls[i])
    ensures Marked(mark, ls) == []
  {
    if ls != [] {
      MarkedNone(mark, ls[1..]);
    }
  }

  // Sections whose types and items are one line each.
  predicate PlainSections(ss: seq<Section>) {
    forall i | 0 <= i < |ss| :: AllWord(ss[i].kind) && Docs.OneLiners(ss[i].items)
  }

  function Titles(ss: seq<Section>): seq<string> {
    seq(|ss|, i requires 0 <= i < |ss| => Docs.Title(ss[i].kind))
  }

  lemma TitleIsPlain(kind: string)
    requires AllWord(kind)
    ensures Docs.NoNewline("### " + Docs.Title(kind))
  {
    hide Docs.Title;
    Docs.TitleIsLine(kind);
  }

  lemma SectionMarks(s: Section)
    requires AllWord(s.kind) && Docs.OneLiners(s.items)
    ensures Docs.OneLiners(SectionLines(s))
    ensures Marked("### ", SectionLines(s)) == [Docs.Title(s.kind)] && Marked("## ", SectionLines(s)) == []
  {
    TitleIsPlain(s.kind);
    hide Docs.Title, Docs.NoNewline, AllWord;
    var title, rest := "### " + Docs.Title(s.kind), [""] + (Behind("- ", s.items) + [""]);
    assert SectionLines(s) == [title] + rest;
    ItemsMark(s.items);
    TitleMark(Docs.Title(s.kind));
    hide Marked;
    MarkedJoin("### ", [title], rest);
    MarkedJoin("## ", [title], rest);
  }

  lemma TitleMark(title: string)
    ensures Marked("### ", ["### " + title]) == [title] && Marked("## ", ["### " + title]) == []
  {
    var l := "### " + title;
    assert l[2] != "## "[2] && l[4..] == title;
    var rest: seq<string> := [l][1..];
    assert rest == [];
  }

  lemma ItemsMark(items: seq<string>)
    requires Docs.OneLiners(items)
    ensures var rest := [""] + (Behind("- ", items) + [""]);
            Docs.OneLiners(rest) && Marked("### ", rest) == [] && Marked("## ", rest) == []
  {
    var rest := [""] + (Behind("- ", items) + [""]);
    forall i | 0 <= i < |rest| ensures Docs.NoNewline(rest[i]) && !("### " <= rest[i]) && !("## " <= rest[i]) {
      assert rest[i] == "" || rest[i] == "- " + items[i - 1];
      assert rest[i] != "" ==> rest[i][0] == '-' && Docs.NoNewline(items[i - 1]);
    }
    MarkedNone("### ", rest);
    MarkedNone("## ", rest);
  }

  lemma {:induction false} SectionsMark(ss: seq<Section>)
    requires PlainSections(ss)
    ensures Docs.OneLiners(SectionsLines(ss))
    ensures Marked("### ", SectionsLines(ss)) == Titles(ss) && Marked("## ", SectionsLines(ss)) == []
  {
    hide SectionLines, Marked, AllWord, Docs.NoNewline, Docs.Title;
    assert Marked("### ", []) == [] && Marked("## ", []) == [] by { NothingMarked("### "); NothingMarked("## "); }
    if ss != [] {
      SectionMarks(ss[0]);
      assert forall i | 0 <= i < |ss[1..]| :: ss[1..][i] == ss[i + 1];
      SectionsMark(ss[1..]);
      MarkedJoin("### ", SectionLines(ss[0]), SectionsLines(ss[1..]));
      MarkedJoin("## ", SectionLines(ss[0]), SectionsLines(ss[1..]));
      assert Titles(ss) == [Docs.Title(ss[0].kind)] + Titles(ss[1..]);
    }
  }

  lemma NothingMarked(mark: string)
    ensures Marked(mark, []) == []
  {
  }

  // Every section's title stands above it, in order.
  lemma TitlesRead(ss: seq<Section>)
    requires PlainSections(ss)
    ensures Docs.Bullets("### ", Docs.SectionsMd(ss)) == Titles(ss)
  {
    hide Docs.Bullets, Docs.SectionsMd, Lines, SectionsLines, Marked, Titles, PlainSections, Docs.OneLiners;
    SectionsAre(ss);
    SectionsMark(ss);
    ReadLines("### ", SectionsLines(ss));
  }

  // Entries whose versions and dates are one line each too.
  predicate PlainEntries(es: seq<Entry>) {
    forall i | 0 <= i < |es| ::
      Docs.NoNewline(es[i].version) && Docs.NoNewline(es[i].date) && PlainSections(es[i].sections)
  }

  function Headings(es: seq<Entry>): seq<string> {
    seq(|es|, i requires 0 <= i < |es| => "[" + (es[i].version + ("] - " + es[i].date)))
  }

  lemma HeadingIsPlain(version: string, date: string)
    requires Docs.NoNewline(version) && Docs.NoNewline(date)
    ensures Docs.NoNewline("## [" + (version + ("] - " + date)))
    ensures "## " <= "## [" + (version + ("] - " + date))
    ensures ("## [" + (version + ("] - " + date)))[3..] == "[" + (version + ("] - " + date))
  {
  }

  lemma {:induction false} EntriesMark(es: seq<Entry>)
    requires PlainEntries(es)
    ensures Docs.OneLiners(EntriesLines(es)) && Marked("## ", EntriesLines(es)) == Headings(es)
  {
    hide PlainSections, SectionsLines, Docs.NoNewline, Marked;
    assert Marked("## ", []) == [] by { NothingMarked("## "); }
    if es != [] {
      var e := es[0];
      EntryMarks(e);
      assert forall i | 0 <= i < |es[1..]| :: es[1..][i] == es[i + 1];
      EntriesMark(es[1..]);
      MarkedJoin("## ", EntryLines(e), EntriesLines(es[1..]));
      hide EntryLines;
      assert Headings(es) == ["[" + (e.version + ("] - " + e.date))] + Headings(es[1..]);
    }
  }

  lemma EntryMarks(e: Entry)
    requires Docs.NoNewline(e.version) && Docs.NoNewline(e.date) && PlainSections(e.sections)
    ensures Docs.OneLiners(EntryLines(e)) && Marked("## ", EntryLines(e)) == ["[" + (e.version + ("] - " + e.date))]
  {
    var heading, body := "## [" + (e.version + ("] - " + e.date)), SectionsLines(e.sections);
    HeadingIsPlain(e.version, e.date);
    SectionsMark(e.sections);
    assert [heading, ""][1..] == [""] && [""][1..] == [];
    assert Marked("## ", [heading, ""]) == [heading[3..]];
    MarkedJoin("## ", [heading, ""], body);
    hide SectionsLines, PlainSections, Marked;
    assert Docs.NoNewline("");
    assert EntryLines(e) == [heading, ""] + body;
  }

  lemma OpeningMarks()
    ensures Docs.OneLiners(OPENING) && Marked("## ", OPENING) == []
  {
    assert "## "[0] == '#' && "## "[1] == '#' && "# Changelog"[1] == ' ';
    ReleaseAgreement.PreambleLines();
    hide Docs.SCOPE, Docs.FORMAT, Docs.VERSIONING;
    assert Docs.NoNewline("");
    forall i | 0 <= i < |OPENING| ensures !("## " <= OPENING[i]) {
      assert OPENING[i] == "" || OPENING[i][0] != '#' || OPENING[i][1] != '#';
    }
    MarkedNone("## ", OPENING);
  }

  // CHANGELOG.md has one heading per entry, in order, with its version and date.
  lemma HeadingsRead(es: seq<Entry>)
    requires PlainEntries(es)
    ensures Docs.Bullets("## ", Docs.ChangelogMd(es)) == Headings(es)
  {
    hide Docs.Bullets, Docs.ChangelogMd, Lines, EntriesLines, Marked, Headings, PlainEntries, OPENING, Docs.NoNewline;
    ChangelogIs(es);
    EntriesMark(es);
    OpeningMarks();
    MarkedJoin("## ", OPENING, EntriesLines(es));
    ReadLines("## ", OPENING + EntriesLines(es));
  }
}
