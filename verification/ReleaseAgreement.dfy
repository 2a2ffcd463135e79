// One meaning for three outputs: CHANGELOG.md, RELEASE_NOTES.md and the Debian
// stanza of a version carry the same sections and items.

module ReleaseAgreement {
  import opened Prelude
  import opened Text
  import opened ChangelogParser
  import opened ReleaseDocs
  import Debian = DebianChangelog

  // ---- CHANGELOG.md -------------------------------------------------------------

  lemma PreambleLines()
    ensures NoNewline("# Changelog") && NoNewline(SCOPE) && NoNewline(FORMAT) && NoNewline(VERSIONING)
    ensures SCOPE[0] == 'A' && FORMAT[0] == 'T' && VERSIONING[0] == 'a'
  {
    ScopeLine();
    FormatLine();
    VersioningLine();
  }

  lemma ScopeLine()
    ensures NoNewline(SCOPE) && SCOPE[0] == 'A'
  {
    NoNewlineJoins(" Messenger are documented", " in this file.");
    NoNewlineJoins("All notable changes to Fluux", " Messenger are documented" + " in this file.");
    assert SCOPE[0] == "All notable changes to Fluux"[0];
  }

  lemma FormatLine()
    ensures NoNewline(FORMAT) && FORMAT[0] == 'T'
  {
  }

  lemma VersioningLine()
    ensures NoNewline(VERSIONING) && VERSIONING[0] == 'a'
  {
    NoNewlineJoins("ntic Versioning](https://semver.org", "/spec/v2.0.0.html).");
    NoNewlineJoins("and this project adheres to [Sema", "ntic Versioning](https://semver.org" + "/spec/v2.0.0.html).");
    assert VERSIONING[0] == "and this project adheres to [Sema"[0];
  }

  // The preamble spells no heading of a release.
  lemma PreambleUnder(version: string, r: string)
    ensures Under(Preamble(r), version) == Under(r, version)
  {
    var w := HeadingOf(version);
    PreambleLines();
    assert w[0] == '#' && w[1] == '#' && "# Changelog"[1] == ' ';
    hide NoNewline, Under, HeadingOf, SCOPE, FORMAT, VERSIONING;
    var c := "\n" + r;
    var b := "\n" + (FORMAT + ("\n" + (VERSIONING + ("\n" + c))));
    Passed(version, "# Changelog", "\n" + (SCOPE + ("\n" + b)));
    UnderBlank(version, SCOPE + ("\n" + b));
    Passed(version, SCOPE, b);
    UnderBlank(version, FORMAT + ("\n" + (VERSIONING + ("\n" + c))));
    Passed(version, FORMAT, VERSIONING + ("\n" + c));
    Passed(version, VERSIONING, c);
    UnderBlank(version, r);
  }

  lemma Passed(version: string, l: string, r: string)
    requires NoNewline(l) && !(HeadingOf(version) <= l)
    ensures Under(l + ("\n" + r), version) == Under(r, version)
  {
    hide NoNewline, Under, UpTo, HeadingOf;
    UnderLine(version, l, r);
  }

  lemma UnderBlank(version: string, r: string)
    ensures Under("\n" + r, version) == Under(r, version)
  {
  }

  // ---- One entry -------------------------------------------------------------------

  predicate NoCloseBracket(s: string) {
    forall i | 0 <= i < |s| :: s[i] != ']'
  }

  // The entry's heading is one line, and its section types are the words the
  // parser reads.
  predicate PlainEntry(e: Entry) {
    NoNewline(e.version) && NoNewline(e.date) && Kinds(e.sections)
  }

  // Besides its own version, a heading names only what its version spells in
  // front of a dash.
  lemma HeadingNames(e: Entry, version: string)
    requires NoCloseBracket(version)
    ensures HeadingOf(version) <= Heading(e) <==> e.version == version || version + "] - " <= e.version
  {
    var w, l := version + "] - ", e.version + ("] - " + e.date);
    HeadingCut(w, l);
    if e.version == version {
      assert l == w + e.date;
    } else if w <= e.version {
      assert w <= l by { assert l[..|w|] == e.version[..|w|]; }
    } else if w <= l {
      NamesLonger(version, e.version, e.date);
    }
  }

  lemma HeadingCut(w: string, l: string)
    ensures "## [" + w <= "## [" + l <==> w <= l
  {
    var a, b := "## [" + w, "## [" + l;
    if w <= l {
      assert l == w + l[|w|..];
      assert b == a + l[|w|..];
    }
    if a <= b {
      assert b[..|a|] == a && w == a[4..] == b[..|a|][4..] == l[..|w|];
    }
  }

  lemma NamesLonger(v: string, u: string, date: string)
    requires NoCloseBracket(v) && v + "] - " <= u + ("] - " + date)
    ensures u == v || v + "] - " <= u
  {
    var w, l, n, m := v + "] - ", u + ("] - " + date), |v|, |u|;
    assert "] - "[0] == ']' && "] - "[1] == ' ' && "] - "[2] == '-' && "] - "[3] == ' ';
    assert forall i | 0 <= i < n :: w[i] == v[i];
    assert l[m] == ']' && l[m + 1] == ' ' && l[m + 2] == '-';
    assert w[n] == ']' && w[n + 1] == ' ' && w[n + 2] == '-' && w[n + 3] == ' ';
    assert forall i | 0 <= i < |w| :: w[i] == l[i];
    assert m >= n;
    assert m != n + 1 && m != n + 2 && m != n + 3;
    if m == n {
      assert u == l[..n] == w[..n] == v;
    } else {
      assert u[..n + 4] == l[..n + 4] == w;
    }
  }

  lemma HeadingIsLine(e: Entry)
    requires NoNewline(e.version) && NoNewline(e.date)
    ensures NoNewline(Heading(e))
  {
  }

  lemma HeadingsStop(version: string)
    ensures IsStop("## [") && IsStop("---") && IsStop(HeadingOf(version))
  {
    assert HeadingOf(version)[0] == '#' && HeadingOf(version)[1] == '#' && HeadingOf(version)[2] == ' ';
  }

  lemma EntryRegroup(h: string, body: string, r: string)
    ensures (h + ("\n" + ("\n" + body))) + r == h + ("\n" + ("\n" + (body + r)))
  {
  }

  // Another version's entry is read as this version's if its own version or
  // one of its items spells this one's heading.
  predicate Misleads(e: Entry, version: string) {
    version + "] - " <= e.version || !SectionsClear(HeadingOf(version), e.sections)
  }

  // It is passed over otherwise.
  lemma OtherEntry(version: string, e: Entry, r: string)
    requires PlainEntry(e) && NoCloseBracket(version) && e.version != version && !Misleads(e, version)
    ensures Under(EntryMd(e) + r, version) == Under(r, version)
  {
    HeadingIsLine(e);
    HeadingNames(e, version);
    HeadingsStop(version);
    hide NoNewline, NoCloseBracket, Under, Heading, HeadingOf, IsStop, SectionsMd, Kinds, SectionsClear, Clear,
        WholeLines;
    EntryRegroup(Heading(e), SectionsMd(e.sections), r);
    Passed(version, Heading(e), "\n" + (SectionsMd(e.sections) + r));
    UnderBlank(version, SectionsMd(e.sections) + r);
    SectionsMdClear(HeadingOf(version), e.sections);
    UnderJoins(version, SectionsMd(e.sections), r);
  }

  // What is read from one that misleads depends on it alone.
  lemma MisleadingEntry(version: string, e: Entry, r: string)
    requires PlainEntry(e) && NoCloseBracket(version) && e.version != version && Misleads(e, version)
    requires UpTo("## [", r) == ""
    ensures Under(EntryMd(e) + r, version) == Under(EntryMd(e), version)
  {
    HeadingIsLine(e);
    HeadingNames(e, version);
    HeadingsStop(version);
    hide NoNewline, NoCloseBracket, Under, UpTo, Heading, HeadingOf, IsStop, SectionsMd, Kinds, SectionsClear, Clear,
        WholeLines;
    var h, body := Heading(e), SectionsMd(e.sections);
    EntryRegroup(h, body, r);
    SectionsMdClear(HeadingOf(version), e.sections);
    UnderLine(version, h, "\n" + (body + r));
    UnderLine(version, h, "\n" + body);
    if HeadingOf(version) <= h {
      UpToBlank("## [", body + r);
      UpToBlank("## [", body);
      UpToStops("## [", body, r);
    } else {
      UnderBlank(version, body + r);
      UnderBlank(version, body);
      UnderStops(version, body, r);
    }
  }

  // The version's own entry is read as its sections if no item spells a
  // heading, and breaks off inside them otherwise.
  lemma OwnEntry(e: Entry, r: string)
    requires PlainEntry(e) && UpTo("## [", r) == ""
    ensures var text := Under(EntryMd(e) + r, e.version);
            if SectionsClear("## [", e.sections) then text == "\n" + SectionsMd(e.sections)
            else |text| < |"\n" + SectionsMd(e.sections)|
  {
    HeadingIsLine(e);
    assert Heading(e) == HeadingOf(e.version) + e.date;
    HeadingsStop(e.version);
    hide NoNewline, NoCloseBracket, Under, UpTo, Heading, HeadingOf, IsStop, SectionsMd, Kinds, SectionsClear, Clear,
        WholeLines;
    var body := SectionsMd(e.sections);
    var read := UpTo("## [", body + r);
    EntryRegroup(Heading(e), body, r);
    UnderLine(e.version, Heading(e), "\n" + (body + r));
    UpToBlank("## [", body + r);
    assert Under(EntryMd(e) + r, e.version) == "\n" + read;
    hide EntryMd;
    SectionsMdClear("## [", e.sections);
    UpToJoins("## [", body, r);
    BlankInFront(read, body);
  }

  lemma BlankInFront(a: string, b: string)
    ensures |"\n" + a| == 1 + |a| && |"\n" + b| == 1 + |b| && b + "" == b
    ensures "\n" + a == "\n" + b <==> a == b
  {
    assert ("\n" + a)[1..] == a && ("\n" + b)[1..] == b;
  }

  // The next entry's heading ends the text under this one.
  lemma NextHeading(es: seq<Entry>)
    ensures UpTo("## [", EntriesMd(es)) == ""
  {
    if es != [] {
      var a, b := es[0].version + ("] - " + es[0].date), "\n" + ("\n" + SectionsMd(es[0].sections));
      assert EntriesMd(es) == (("## [" + a) + b) + EntriesMd(es[1..]);
      hide EntriesMd, SectionsMd, UpTo;
      HeadingRegroup(a, b, EntriesMd(es[1..]));
      HeadingFront((a + b) + EntriesMd(es[1..]));
    }
  }

  lemma HeadingRegroup(a: string, b: string, c: string)
    ensures (("## [" + a) + b) + c == "## [" + ((a + b) + c)
  {
  }

  lemma HeadingFront(r: string)
    ensures UpTo("## [", "## [" + r) == ""
  {
    var s := "## [" + r;
    HeadIsPlain();
    NewlineBehind("## [", r);
    assert Line(s)[..4] == "## [";
  }

  lemma HeadIsPlain()
    ensures NoNewline("## [")
  {
  }

  // ---- The whole file ------------------------------------------------------------------

  // Up to the version's own entry, headings are plain.
  predicate PlainUpTo(es: seq<Entry>, version: string) {
    es != [] ==> PlainEntry(es[0]) && (es[0].version != version ==> PlainUpTo(es[1..], version))
  }

  // The first entry in front of the version's own that misleads.
  function Misleading(es: seq<Entry>, version: string): Option<Entry> {
    if es == [] || es[0].version == version then None
    else if Misleads(es[0], version) then Some(es[0])
    else Misleading(es[1..], version)
  }

  // What is read under a version from entries that mislead or do not.
  ghost predicate Shows(text: string, es: seq<Entry>, version: string) {
    match Misleading(es, version)
    case Some(e) => text == Under(EntryMd(e), version)
    case None =>
      match Lookup(es, version)
      case None => text == ""
      case Some(e) => if SectionsClear("## [", e.sections) then text == "\n" + SectionsMd(e.sections)
                      else |text| < |"\n" + SectionsMd(e.sections)|
  }

  lemma {:induction false} EntriesUnder(version: string, es: seq<Entry>)
    requires PlainUpTo(es, version) && NoCloseBracket(version)
    ensures Shows(Under(EntriesMd(es), version), es, version)
  {
    hide PlainEntry, NoCloseBracket, UpTo, EntryMd, SectionsMd, SectionsClear, HeadingOf, Misleads;
    if es != [] {
      hide Under;
      NextHeading(es[1..]);
      if es[0].version == version {
        OwnEntry(es[0], EntriesMd(es[1..]));
      } else if Misleads(es[0], version) {
        MisleadingEntry(version, es[0], EntriesMd(es[1..]));
      } else {
        OtherEntry(version, es[0], EntriesMd(es[1..]));
        EntriesUnder(version, es[1..]);
      }
    } else {
      assert Under("", version) == "";
    }
  }

  // What CHANGELOG.md shows under a version. If an earlier entry misleads, it
  // is a piece of that entry, whatever the version's own entry says; otherwise
  // it is nothing if no entry has the version, and the sections of the first
  // that does if and only if none of its items spells a heading.
  lemma ChangelogShows(es: seq<Entry>, version: string)
    requires PlainUpTo(es, version) && NoCloseBracket(version)
    ensures var text := Under(ChangelogMd(es), version);
            match Misleading(es, version)
            case Some(e) => text == Under(EntryMd(e), version)
            case None =>
              match Lookup(es, version)
              case None => text == ""
              case Some(e) => text == "\n" + SectionsMd(e.sections) <==> SectionsClear("## [", e.sections)
  {
    hide Under, Preamble, PlainUpTo, NoCloseBracket, SectionsClear, SectionsMd, EntryMd;
    PreambleUnder(version, EntriesMd(es));
    EntriesUnder(version, es);
  }

  // ---- RELEASE_NOTES.md -------------------------------------------------------------

  // The notes show the sections if and only if no item spells their rule.
  lemma NotesShow(version: string, ss: seq<Section>)
    requires NoNewline(version) && Kinds(ss)
    ensures NotesBody(NotesMd(version, ss)) == "\n" + SectionsMd(ss) <==> SectionsClear("---", ss)
  {
    var link := FULL_CHANGELOG + "\n";
    NotesLines();
    HeadingsStop(version);
    hide NoNewline, SectionsMd, UpTo, FULL_CHANGELOG, Kinds, Line, Rest, IsStop, SectionsClear, Clear, WholeLines;
    NoNewlineJoins("## What's New in v", version);
    var head, body, foot := "## What's New in v" + version, SectionsMd(ss), "---" + ("\n" + link);
    NotesRegroup(version, body, foot);
    LineIs(head, "\n" + (body + foot));
    UpToBlank("---", body + foot);
    SectionsMdClear("---", ss);
    UpToJoins("---", body, foot);
    UpToLine("---", "---", link);
    BlankInFront(UpTo("---", body + foot), body);
  }

  lemma NotesLines()
    ensures NoNewline("## What's New in v") && NoNewline("---")
  {
  }

  lemma NotesRegroup(version: string, body: string, foot: string)
    ensures "## What's New in v" + (version + ("\n" + ("\n" + (body + foot))))
         == ("## What's New in v" + version) + ("\n" + ("\n" + (body + foot)))
  {
  }

  // ---- The Debian stanza ----------------------------------------------------------------

  lemma {:induction false} ItemLinesAreBulleted(items: seq<string>)
    ensures Debian.ItemLines(items) == Bulleted("  * ", items)
  {
    if items != [] {
      ItemLinesAreBulleted(items[1..]);
      var more := Bulleted("  * ", items[1..]);
      assert "  * " + (items[0] + "\n") + more == "  * " + (items[0] + ("\n" + more));
    }
  }

  // The items a stanza lists: the fallback line when there are none.
  function Listed(run: Debian.StanzaRun): seq<string> {
    if run.items == [] then ["See release notes for v" + run.version] else run.items
  }

  lemma StanzaLines(run: Debian.StanzaRun, rest: string)
    requires NoNewline(run.version) && NoNewline(run.date)
    ensures Bullets("  * ", Debian.Stanza(run) + rest)
         == Bullets("  * ", Bulleted("  * ", Listed(run)) + ("\n" + (SignatureOf(run) + ("\n" + rest))))
    ensures NoNewline(SignatureOf(run)) && SignatureOf(run) != "" && SignatureOf(run)[1] != ' '
  {
    var h := "fluux-messenger (" + (run.version + "-1) unstable; urgency=medium");
    assert h[0] == 'f';
    HeadIsLine(run.version);
    SignatureIsLine(run);
    ItemLinesAreBulleted(Listed(run));
    var tail := "\n" + (SignatureOf(run) + ("\n" + rest));
    var body := Bulleted("  * ", Listed(run)) + tail;
    assert Debian.Stanza(run) + rest == h + ("\n" + ("\n" + body)) by { StanzaRegroup(run, rest); }
    assert "  * "[0] == ' ';
    hide NoNewline, Bullets, Bulleted;
    Unbulleted("  * ", h, "\n" + body);
    BulletsBlank("  * ", body);
  }

  function SignatureOf(run: Debian.StanzaRun): string {
    " -- " + ("ProcessOne <contact@process-one.net>  " + run.date)
  }

  lemma SignatureIsLine(run: Debian.StanzaRun)
    requires NoNewline(run.date)
    ensures NoNewline(SignatureOf(run)) && SignatureOf(run) != "" && SignatureOf(run)[1] != ' '
  {
  }

  lemma HeadIsLine(version: string)
    requires NoNewline(version)
    ensures NoNewline("fluux-messenger (" + (version + "-1) unstable; urgency=medium"))
  {
  }

  lemma StanzaRegroup(run: Debian.StanzaRun, rest: string)
    ensures Debian.Stanza(run) + rest
         == ("fluux-messenger (" + (run.version + "-1) unstable; urgency=medium"))
            + ("\n" + ("\n" + (Bulleted("  * ", Listed(run)) + ("\n" + (SignatureOf(run) + ("\n" + rest))))))
  {
    ItemLinesAreBulleted(Listed(run));
    var lines := Debian.ItemLines(Listed(run));
    assert Debian.Body(run.version, run.items) == lines;
    hide Debian.Body, Debian.ItemLines, Bulleted;
    assert "-1) unstable; urgency=medium\n" == "-1) unstable; urgency=medium" + "\n";
  }

  // The stanza lists the version's items, each once and in order, above what
  // older stanzas list, if and only if no item spans lines.
  lemma StanzaShows(run: Debian.StanzaRun, rest: string)
    requires NoNewline(run.version) && NoNewline(run.date)
    ensures Bullets("  * ", Debian.Stanza(run) + rest) == Listed(run) + Bullets("  * ", rest) <==> OneLiners(run.items)
  {
    var tail, items := "\n" + (SignatureOf(run) + ("\n" + rest)), Listed(run);
    StanzaLines(run, rest);
    BulletsAreLines("  * ", Debian.Stanza(run) + rest);
    ListedAreLines(run);
    hide NoNewline, OneLiners, Bullets, Bulleted, SignatureOf, Listed, Debian.Stanza;
    if OneLiners(items) {
      BulletsOf("  * ", items, tail);
      BulletsBlank("  * ", SignatureOf(run) + ("\n" + rest));
      NotSignature(SignatureOf(run), rest);
    }
    if Bullets("  * ", Debian.Stanza(run) + rest) == items + Bullets("  * ", rest) {
      OneLinersFront(items, Bullets("  * ", rest));
    }
  }

  lemma ListedAreLines(run: Debian.StanzaRun)
    requires NoNewline(run.version)
    ensures OneLiners(Listed(run)) <==> OneLiners(run.items)
    ensures NoNewline("  * ") && "  * " != ""
  {
  }

  lemma NotSignature(l: string, rest: string)
    requires NoNewline(l) && |l| > 1 && l[1] != ' '
    ensures Bullets("  * ", l + ("\n" + rest)) == Bullets("  * ", rest)
  {
    assert "  * "[1] == ' ';
    hide NoNewline, Bullets;
    BulletsLine("  * ", l, rest);
  }

  // ---- One meaning ----------------------------------------------------------------------------

  // For a version the changelog holds: when each of the outputs carries the
  // version's sections, or its items in order, exactly.
  lemma EachMeaning(es: seq<Entry>, e: Entry, version: string, date: string, content: string)
    requires PlainUpTo(es, version) && NoCloseBracket(version) && NoNewline(version) && NoNewline(date)
    requires Lookup(es, version) == Some(e)
    ensures var ss, run := e.sections, Debian.StanzaRun(version, Items(e.sections), date);
            && (match Misleading(es, version)
                case Some(m) => Under(ChangelogMd(es), version) == Under(EntryMd(m), version)
                case None => Under(ChangelogMd(es), version) == "\n" + SectionsMd(ss) <==> SectionsClear("## [", ss))
            && (NotesBody(NotesMd(version, ss)) == "\n" + SectionsMd(ss) <==> SectionsClear("---", ss))
            && (Bullets("- ", "\n" + SectionsMd(ss)) == Items(ss) <==> OneLiners(Items(ss)))
            && (Bullets("  * ", Debian.Update(content, run)) == Listed(run)
                + Bullets("  * ", Debian.BehindSignature(content, true))
                <==> OneLiners(Items(ss)))
  {
    var ss := e.sections;
    LookupIsPlain(es, version);
    hide NoNewline, NoCloseBracket, PlainUpTo, Misleading, Kinds, SectionsClear, OneLiners, Under, Bullets, UpTo,
      NotesBody, NotesMd, ChangelogMd, EntryMd, SectionsMd, Items, Lookup, Listed, Debian.Stanza,
      Debian.BehindSignature;
    ChangelogShows(es, version);
    NotesShow(version, ss);
    SectionsReadBack(ss);
    StanzaShows(Debian.StanzaRun(version, Items(ss), date), Debian.BehindSignature(content, true));
  }

  lemma SectionsReadBack(ss: seq<Section>)
    requires Kinds(ss)
    ensures Bullets("- ", "\n" + SectionsMd(ss)) == Items(ss) <==> OneLiners(Items(ss))
  {
    BulletsEnd("- ");
    hide Kinds, OneLiners, Bullets, SectionsMd, Items;
    SectionsBullets(ss, "");
    assert SectionsMd(ss) + "" == SectionsMd(ss) && Items(ss) + [] == Items(ss);
    BulletsBlank("- ", SectionsMd(ss));
  }

  // One meaning: unless an earlier entry misleads, CHANGELOG.md and
  // RELEASE_NOTES.md show the same text for the version, and the bullets of
  // that text and of the Debian file are its items in order (the latter apart
  // from the fallback line), if and only if no item of the version spans lines.
  lemma OneMeaning(es: seq<Entry>, e: Entry, version: string, date: string, content: string)
    requires PlainUpTo(es, version) && NoCloseBracket(version) && NoNewline(version) && NoNewline(date)
    requires Lookup(es, version) == Some(e)
    ensures var notes, run := NotesMd(version, e.sections), Debian.StanzaRun(version, Items(e.sections), date);
            && (Misleading(es, version) == None ==>
                  (OneLiners(Items(e.sections)) <==>
                   && Under(ChangelogMd(es), version) == NotesBody(notes)
                   && Bullets("- ", NotesBody(notes)) == Items(e.sections)
                   && Bullets("  * ", Debian.Update(content, run)) == Listed(run)
                      + Bullets("  * ", Debian.BehindSignature(content, true))))
            && (Misleading(es, version).Some? ==>
                  Under(ChangelogMd(es), version) == Under(EntryMd(Misleading(es, version).value), version))
  {
    hide PlainUpTo, Misleading, OneLiners, SectionsClear, Under, Bullets, NotesBody, NotesMd, ChangelogMd, EntryMd,
      SectionsMd, Items, Listed, Debian.Update, Debian.BehindSignature, NoNewline, NoCloseBracket;
    EachMeaning(es, e, version, date, content);
    BulletsAreLines("- ", NotesBody(NotesMd(version, e.sections)));
    if OneLiners(Items(e.sections)) {
      OneLinersAreClear("## [", e.sections);
      OneLinersAreClear("---", e.sections);
    }
  }

  // An input: the version's only item spans two lines, as a line continuation
  // in changelog.ts makes it, and the outputs no longer say the same.
  lemma ContinuedItemDiffers(date: string, content: string)
    requires NoNewline(date)
    ensures var e := Entry("1.0.0", date, [Section("fixed", [Debian.SIGNED_ITEM])]);
            var notes, run := NotesMd("1.0.0", e.sections), Debian.StanzaRun("1.0.0", [Debian.SIGNED_ITEM], date);
            && Lookup([e], "1.0.0") == Some(e)
            && !(&& Under(ChangelogMd([e]), "1.0.0") == NotesBody(notes)
                 && Bullets("- ", NotesBody(notes)) == [Debian.SIGNED_ITEM]
                 && Bullets("  * ", Debian.Update(content, run))
                    == [Debian.SIGNED_ITEM] + Bullets("  * ", Debian.BehindSignature(content, true)))
  {
    var ss := [Section("fixed", [Debian.SIGNED_ITEM])];
    var e := Entry("1.0.0", date, ss);
    assert ss[1..] == [] && Items(ss) == [Debian.SIGNED_ITEM];
    assert Debian.SIGNED_ITEM[1] == '\n' && !NoNewline(Items(ss)[0]);
    assert NoNewline("1.0.0") && NoCloseBracket("1.0.0") && AllWord("fixed");
    hide NoNewline, NoCloseBracket, AllWord, Under, Bullets, NotesBody, NotesMd, ChangelogMd, Debian.Update,
      Debian.BehindSignature;
    assert PlainEntry(e) && PlainUpTo([e], "1.0.0") && Misleading([e], "1.0.0") == None;
    OneMeaning([e], e, "1.0.0", date, content);
  }

  lemma BulletsEnd(bullet: string)
    ensures Bullets(bullet, "") == []
  {
  }

  lemma {:induction false} LookupIsPlain(es: seq<Entry>, version: string)
    requires PlainUpTo(es, version) && Lookup(es, version).Some?
    ensures Kinds(Lookup(es, version).value.sections)
  {
    if es[0].version != version {
      LookupIsPlain(es[1..], version);
    }
  }
}
