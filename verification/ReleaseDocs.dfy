// CHANGELOG.md, RELEASE_NOTES.md and the Debian bullets of
// scripts/prepare-release.js: three renderings of the same parsed entries, and
// readers of each that show they say the same.

module ReleaseDocs {
  import opened Prelude
  import opened Text
  import opened ChangelogParser

  // ---- The generators ----------------------------------------------------------

  // The four known types have titles, any other is its own.
  function Title(kind: string): string {
    match kind
    case "added" => "Added"
    case "changed" => "Changed"
    case "fixed" => "Fixed"
    case "removed" => "Removed"
    case _ => kind
  }

  // One line per item, behind a bullet.
  function Bulleted(bullet: string, items: seq<string>): string {
    if items == [] then "" else bullet + (items[0] + ("\n" + Bulleted(bullet, items[1..])))
  }

  function SectionMd(s: Section): string {
    "### " + (Title(s.kind) + ("\n" + ("\n" + (Bulleted("- ", s.items) + "\n"))))
  }

  function SectionsMd(ss: seq<Section>): string {
    if ss == [] then "" else SectionMd(ss[0]) + SectionsMd(ss[1..])
  }

  function Heading(e: Entry): string {
    "## [" + (e.version + ("] - " + e.date))
  }

  function EntryMd(e: Entry): string {
    Heading(e) + ("\n" + ("\n" + SectionsMd(e.sections)))
  }

  function EntriesMd(es: seq<Entry>): string {
    if es == [] then "" else EntryMd(es[0]) + EntriesMd(es[1..])
  }

  const SCOPE := "All notable changes to Fluux" + (" Messenger are documented" + " in this file.")
  const FORMAT := "The format is based on [Keep a Chan" + ("gelog](https://keepachangelog.com" + "/en/1.1.0/),")
  const VERSIONING := "and this project adheres to [Sema"
      + ("ntic Versioning](https://semver.org" + "/spec/v2.0.0.html).")

  function Preamble(rest: string): string {
    "# Changelog" + ("\n" + ("\n" + (SCOPE
        + ("\n" + ("\n" + (FORMAT + ("\n" + (VERSIONING + ("\n" + ("\n" + rest))))))))))
  }

  function ChangelogMd(es: seq<Entry>): string {
    Preamble(EntriesMd(es))
  }

  const FULL_CHANGELOG := "[Full Changelog](https://github.com"
      + ("/processone/fluux-messenger/blob" + "/main/CHANGELOG.md)")

  function NotesMd(version: string, ss: seq<Section>): string {
    "## What's New in v" + (version + ("\n" + ("\n" + (SectionsMd(ss) + ("---" + ("\n" + (FULL_CHANGELOG + "\n")))))))
  }

  // The first entry of the version.
  function Lookup(es: seq<Entry>, version: string): Option<Entry> {
    if es == [] then None else if es[0].version == version then Some(es[0]) else Lookup(es[1..], version)
  }

  // All sections' items, in order.
  function Items(ss: seq<Section>): seq<string> {
    if ss == [] then [] else ss[0].items + Items(ss[1..])
  }

  // ---- The loops -------------------------------------------------------------------

  lemma {:induction false} BulletedLast(bullet: string, items: seq<string>, item: string)
    ensures Bulleted(bullet, items + [item]) == Bulleted(bullet, items) + (bullet + (item + "\n"))
  {
    if items == [] {
      assert [] + [item] == [item];
    } else {
      assert (items + [item])[1..] == items[1..] + [item];
      BulletedLast(bullet, items[1..], item);
      Regroup(bullet, items[0], Bulleted(bullet, items[1..]), bullet + (item + "\n"));
    }
  }

  lemma Regroup(a: string, b: string, c: string, d: string)
    ensures a + (b + ("\n" + (c + d))) == (a + (b + ("\n" + c))) + d
  {
  }

  lemma {:induction false} SectionsMdLast(ss: seq<Section>, s: Section)
    ensures SectionsMd(ss + [s]) == SectionsMd(ss) + SectionMd(s)
  {
    hide SectionMd;
    if ss == [] {
      assert [] + [s] == [s];
    } else {
      assert (ss + [s])[1..] == ss[1..] + [s];
      SectionsMdLast(ss[1..], s);
      Assoc(SectionMd(ss[0]), SectionsMd(ss[1..]), SectionMd(s));
    }
  }

  lemma {:induction false} EntriesMdLast(es: seq<Entry>, e: Entry)
    ensures EntriesMd(es + [e]) == EntriesMd(es) + EntryMd(e)
  {
    hide EntryMd;
    if es == [] {
      assert [] + [e] == [e];
    } else {
      assert (es + [e])[1..] == es[1..] + [e];
      EntriesMdLast(es[1..], e);
      Assoc(EntryMd(es[0]), EntriesMd(es[1..]), EntryMd(e));
    }
  }

  // The loop over sections, shared in text by both generators.
  method AppendSections(before: string, sections: seq<Section>) returns (markdown: string)
    ensures markdown == before + SectionsMd(sections)
  {
    hide SectionMd, SectionsMd, Bulleted, Title;
    NothingAppended();
    markdown := before;
    for i := 0 to |sections|
      invariant markdown == before + SectionsMd(sections[..i])
    {
      var section := sections[i];
      ghost var start := markdown;
      markdown := markdown + "### " + Title(section.kind) + "\n\n";
      ghost var front := markdown;
      for j := 0 to |section.items|
        invariant markdown == front + Bulleted("- ", section.items[..j])
      {
        markdown := markdown + "- " + section.items[j] + "\n";
        BulletedLast("- ", section.items[..j], section.items[j]);
        assert section.items[..j + 1] == section.items[..j] + [section.items[j]];
      }
      assert section.items[..|section.items|] == section.items;
      markdown := markdown + "\n";
      SectionGrouped(start, section);
      SectionsMdLast(sections[..i], section);
      assert sections[..i + 1] == sections[..i] + [section];
      Assoc(before, SectionsMd(sections[..i]), SectionMd(section));
    }
    assert sections[..|sections|] == sections;
  }

  lemma NothingAppended()
    ensures SectionsMd([]) == "" && Bulleted("- ", []) == ""
  {
  }

  lemma SectionGrouped(start: string, s: Section)
    ensures ((start + "### " + Title(s.kind) + "\n\n") + Bulleted("- ", s.items)) + "\n" == start + SectionMd(s)
  {
  }

  method GenerateChangelog(entries: seq<Entry>) returns (markdown: string)
    ensures markdown == ChangelogMd(entries)
  {
    hide Preamble;
    markdown := Preamble("");
    PreambleFront("");
    for i := 0 to |entries|
      invariant markdown == Preamble("") + EntriesMd(entries[..i])
    {
      ghost var start := markdown;
      markdown := markdown + "## [" + entries[i].version + "] - " + entries[i].date + "\n\n";
      markdown := AppendSections(markdown, entries[i].sections);
      EntryGrouped(start, entries[i]);
      EntriesMdLast(entries[..i], entries[i]);
      assert entries[..i + 1] == entries[..i] + [entries[i]];
      Assoc(Preamble(""), EntriesMd(entries[..i]), EntryMd(entries[i]));
    }
    assert entries[..|entries|] == entries;
    PreambleFront(EntriesMd(entries));
  }

  lemma EntryGrouped(start: string, e: Entry)
    ensures (start + "## [" + e.version + "] - " + e.date + "\n\n") + SectionsMd(e.sections) == start + EntryMd(e)
  {
  }

  lemma PreambleFront(r: string)
    ensures Preamble("") + r == Preamble(r)
  {
  }

  method GenerateNotes(version: string, sections: seq<Section>) returns (releaseNotes: string)
    ensures releaseNotes == NotesMd(version, sections)
  {
    hide SectionsMd;
    releaseNotes := AppendSections("## What's New in v" + version + "\n\n", sections);
    releaseNotes := releaseNotes + "---\n" + FULL_CHANGELOG + "\n";
    NotesGrouped(version, SectionsMd(sections), FULL_CHANGELOG);
  }

  lemma NotesGrouped(version: string, body: string, link: string)
    ensures (("## What's New in v" + version + "\n\n") + body) + "---\n" + link + "\n"
         == "## What's New in v" + (version + ("\n" + ("\n" + (body + ("---" + ("\n" + (link + "\n")))))))
  {
  }

  // ---- Reading lines -----------------------------------------------------------------

  predicate NoNewline(s: string) {
    forall i | 0 <= i < |s| :: s[i] != '\n'
  }

  function Line(s: string): string {
    s[..Find("\n", s)]
  }

  function Rest(s: string): (r: string)
    ensures s != "" ==> |r| < |s|
  {
    var i := Find("\n", s);
    if i == |s| then "" else s[i + 1..]
  }

  // What follows the bullet, for every line that starts with it.
  function Bullets(bullet: string, s: string): seq<string>
    decreases |s|
  {
    if s == "" then []
    else (if bullet <= Line(s) then [Line(s)[|bullet|..]] else []) + Bullets(bullet, Rest(s))
  }

  // The lines before the first one that starts with `stop`.
  function UpTo(stop: string, s: string): string
    decreases |s|
  {
    if s == "" || stop <= Line(s) then "" else Line(s) + ("\n" + UpTo(stop, Rest(s)))
  }

  function HeadingOf(version: string): string {
    "## [" + (version + "] - ")
  }

  // The text under the first heading of the version, up to the next heading.
  function Under(s: string, version: string): string
    decreases |s|
  {
    if s == "" then ""
    else if HeadingOf(version) <= Line(s) then UpTo("## [", Rest(s))
    else Under(Rest(s), version)
  }

  // No line of s starts with `stop`.
  predicate Clear(stop: string, s: string)
    decreases |s|
  {
    s == "" || (!(stop <= Line(s)) && Clear(stop, Rest(s)))
  }

  // The release notes' text between its heading and its rule.
  function NotesBody(s: string): string {
    UpTo("---", Rest(s))
  }

  lemma LineIs(l: string, r: string)
    requires NoNewline(l)
    ensures var s := l + ("\n" + r); Line(s) == l && Rest(s) == r
  {
    LineEnd(l, r);
    var s := l + ("\n" + r);
    assert s[..|l|] == l && s[|l| + 1..] == r;
  }

  lemma {:induction false} LineEnd(l: string, r: string)
    requires NoNewline(l)
    ensures Find("\n", l + ("\n" + r)) == |l|
  {
    var s := l + ("\n" + r);
    if l == "" {
      assert s == "\n" + r;
    } else {
      assert s[0] == l[0] && s[1..] == l[1..] + ("\n" + r);
      LineEnd(l[1..], r);
    }
  }

  lemma BulletsLine(bullet: string, l: string, r: string)
    requires NoNewline(l)
    ensures Bullets(bullet, l + ("\n" + r)) == (if bullet <= l then [l[|bullet|..]] else []) + Bullets(bullet, r)
  {
    hide NoNewline, Line, Rest;
    LineIs(l, r);
  }

  lemma UpToLine(stop: string, l: string, r: string)
    requires NoNewline(l)
    ensures UpTo(stop, l + ("\n" + r)) == if stop <= l then "" else l + ("\n" + UpTo(stop, r))
  {
    hide NoNewline, Line, Rest;
    LineIs(l, r);
  }

  lemma UnderLine(version: string, l: string, r: string)
    requires NoNewline(l)
    ensures Under(l + ("\n" + r), version) == if HeadingOf(version) <= l then UpTo("## [", r) else Under(r, version)
  {
    hide NoNewline, Line, Rest, UpTo;
    LineIs(l, r);
  }

  lemma BulletsBlank(bullet: string, r: string)
    requires bullet != ""
    ensures Bullets(bullet, "\n" + r) == Bullets(bullet, r)
  {
  }

  lemma UpToBlank(stop: string, r: string)
    requires stop != ""
    ensures UpTo(stop, "\n" + r) == "\n" + UpTo(stop, r)
  {
  }

  lemma ClearLine(stop: string, l: string, r: string)
    requires NoNewline(l)
    ensures Clear(stop, l + ("\n" + r)) <==> !(stop <= l) && Clear(stop, r)
  {
    hide NoNewline, Line, Rest;
    LineIs(l, r);
  }

  lemma ClearBlank(stop: string, r: string)
    requires stop != ""
    ensures Clear(stop, "\n" + r) <==> Clear(stop, r)
  {
  }

  // ---- Whole lines in front of other text ---------------------------------------------

  predicate WholeLines(s: string) {
    s == "" || s[|s| - 1] == '\n'
  }

  lemma {:induction false} FirstNewline(s: string, r: string)
    requires s != "" && WholeLines(s)
    ensures Find("\n", s + r) == Find("\n", s) < |s|
  {
    assert (s + r)[0] == s[0] && (s + r)[1..] == s[1..] + r;
    if s[0] != '\n' {
      FirstNewline(s[1..], r);
    }
  }

  lemma FirstLine(s: string, r: string)
    requires s != "" && WholeLines(s)
    ensures Line(s + r) == Line(s) && Rest(s + r) == Rest(s) + r && WholeLines(Rest(s))
    ensures s == Line(s) + ("\n" + Rest(s))
  {
    FirstNewline(s, r);
    FindFirst("\n", s);
    hide Find;
    var i := Find("\n", s);
    assert s[i..][0] == '\n';
    assert s == s[..i] + ("\n" + s[i + 1..]);
    assert (s + r)[..i] == s[..i] && (s + r)[i + 1..] == s[i + 1..] + r;
  }

  lemma {:induction false} ClearJoins(stop: string, s: string, r: string)
    requires WholeLines(s)
    ensures Clear(stop, s + r) <==> Clear(stop, s) && Clear(stop, r)
    decreases |s|
  {
    if s == "" {
      assert s + r == r;
    } else {
      FirstLine(s, r);
      hide Line, Rest, WholeLines;
      ClearJoins(stop, Rest(s), r);
    }
  }

  // Reading goes through clear lines and ends inside others.
  lemma {:induction false} UpToJoins(stop: string, s: string, r: string)
    requires WholeLines(s)
    ensures Clear(stop, s) ==> UpTo(stop, s + r) == s + UpTo(stop, r)
    ensures !Clear(stop, s) ==> |UpTo(stop, s + r)| < |s|
    decreases |s|
  {
    if s == "" {
      assert s + r == r && s + UpTo(stop, r) == UpTo(stop, r);
    } else {
      FirstLine(s, r);
      UpToUnfolds(stop, s + r);
      ClearUnfolds(stop, s);
      hide Line, Rest, WholeLines, UpTo, Clear;
      var l, t := Line(s), Rest(s);
      if !(stop <= l) {
        UpToJoins(stop, t, r);
        LineRegroup(l, t, UpTo(stop, r));
      }
    }
  }

  lemma UpToUnfolds(stop: string, s: string)
    requires s != ""
    ensures UpTo(stop, s) == if stop <= Line(s) then "" else Line(s) + ("\n" + UpTo(stop, Rest(s)))
  {
  }

  lemma ClearUnfolds(stop: string, s: string)
    requires s != ""
    ensures Clear(stop, s) <==> !(stop <= Line(s)) && Clear(stop, Rest(s))
  {
  }

  lemma LineRegroup(l: string, t: string, r: string)
    ensures l + ("\n" + (t + r)) == (l + ("\n" + t)) + r
  {
  }

  lemma {:induction false} UnderJoins(version: string, s: string, r: string)
    requires WholeLines(s) && Clear(HeadingOf(version), s)
    ensures Under(s + r, version) == Under(r, version)
    decreases |s|
  {
    if s == "" {
      assert s + r == r;
    } else {
      FirstLine(s, r);
      hide Line, Rest, WholeLines, HeadingOf, UpTo;
      UnderJoins(version, Rest(s), r);
    }
  }

  // Behind whole lines, text at whose front the reading ends changes nothing.
  lemma {:induction false} UpToStops(stop: string, s: string, r: string)
    requires WholeLines(s) && UpTo(stop, r) == ""
    ensures UpTo(stop, s + r) == UpTo(stop, s)
    decreases |s|
  {
    if s == "" {
      assert s + r == r;
    } else {
      FirstLine(s, r);
      UpToUnfolds(stop, s + r);
      UpToUnfolds(stop, s);
      hide Line, Rest, WholeLines, UpTo;
      UpToStops(stop, Rest(s), r);
    }
  }

  // Lines that spell the heading are where the reading of the version starts.
  lemma {:induction false} UnderStops(version: string, s: string, r: string)
    requires WholeLines(s) && !Clear(HeadingOf(version), s) && UpTo("## [", r) == ""
    ensures Under(s + r, version) == Under(s, version)
    decreases |s|
  {
    FirstLine(s, r);
    ClearUnfolds(HeadingOf(version), s);
    hide Line, Rest, WholeLines, HeadingOf, UpTo, Clear;
    if HeadingOf(version) <= Line(s) {
      UpToStops("## [", Rest(s), r);
    } else {
      UnderStops(version, Rest(s), r);
    }
  }

  // ---- Items ---------------------------------------------------------------------------------

  predicate OneLiners(items: seq<string>) {
    forall i | 0 <= i < |items| :: NoNewline(items[i])
  }

  lemma TitleIsLine(kind: string)
    requires AllWord(kind)
    ensures NoNewline(Title(kind))
  {
  }

  lemma NoNewlineJoins(a: string, b: string)
    requires NoNewline(a) && NoNewline(b)
    ensures NoNewline(a + b)
  {
  }

  // Bulleted one-line items read back as they were written.
  lemma {:induction false} BulletsOf(bullet: string, items: seq<string>, r: string)
    requires NoNewline(bullet) && OneLiners(items)
    ensures Bullets(bullet, Bulleted(bullet, items) + r) == items + Bullets(bullet, r)
  {
    hide NoNewline, Bullets;
    if items == [] {
      assert Bulleted(bullet, items) + r == r;
    } else {
      BulletedBullets(bullet, items[0], Bulleted(bullet, items[1..]), r);
      assert OneLiners(items[1..]);
      BulletsOf(bullet, items[1..], r);
    }
  }

  lemma BulletedBullets(bullet: string, item: string, more: string, r: string)
    requires NoNewline(bullet) && NoNewline(item)
    ensures Bullets(bullet, (bullet + (item + ("\n" + more))) + r) == [item] + Bullets(bullet, more + r)
  {
    hide NoNewline, Bullets;
    NoNewlineJoins(bullet, item);
    RegroupLine(bullet, item, more, r);
    BulletsLine(bullet, bullet + item, more + r);
    assert (bullet + item)[|bullet|..] == item;
  }

  lemma RegroupLine(a: string, b: string, c: string, r: string)
    ensures (a + (b + ("\n" + c))) + r == (a + b) + ("\n" + (c + r))
  {
  }

  // Whatever is read is one line.
  lemma {:induction false} BulletsAreLines(bullet: string, s: string)
    ensures OneLiners(Bullets(bullet, s))
    decreases |s|
  {
    if s != "" {
      FindFirst("\n", s);
      forall i | 0 <= i < |Line(s)| ensures Line(s)[i] != '\n' {
        assert !("\n" <= s[i..]);
      }
      assert NoNewline(Line(s));
      BulletsAreLines(bullet, Rest(s));
    }
  }

  lemma OneLinersFront(a: seq<string>, b: seq<string>)
    requires OneLiners(a + b)
    ensures OneLiners(a)
  {
    assert forall i | 0 <= i < |a| :: (a + b)[i] == a[i];
  }

  // What ends a reading: a heading or a rule, and no line of the layout.
  predicate IsStop(stop: string) {
    |stop| >= 3 && (stop[0] == '#' || stop[0] == '-') && stop[1] != ' ' && stop[2] != '#'
  }

  // No line of the item behind its first starts with `stop`.
  predicate ItemClear(stop: string, item: string) {
    Clear(stop, Rest(item + "\n"))
  }

  predicate ItemsClear(stop: string, items: seq<string>) {
    forall i | 0 <= i < |items| :: ItemClear(stop, items[i])
  }

  lemma OneLinerIsClear(stop: string, item: string)
    requires NoNewline(item)
    ensures ItemClear(stop, item)
  {
    LineIs(item, "");
    assert item + ("\n" + "") == item + "\n";
  }

  lemma {:induction false} NewlineBehind(l: string, s: string)
    requires NoNewline(l)
    ensures Find("\n", l + s) == |l| + Find("\n", s)
  {
    if l == "" {
      assert l + s == s;
    } else {
      assert (l + s)[0] == l[0] && (l + s)[1..] == l[1..] + s;
      NewlineBehind(l[1..], s);
    }
  }

  lemma LineBehind(l: string, t: string)
    requires NoNewline(l) && t != "" && WholeLines(t)
    ensures Line(l + t) == l + Line(t) && Rest(l + t) == Rest(t)
  {
    NewlineBehind(l, t);
    FirstNewline(t, "");
    assert t + "" == t;
    hide Find;
    var i := Find("\n", t);
    assert (l + t)[..|l| + i] == l + t[..i] && (l + t)[|l| + i + 1..] == t[i + 1..];
  }

  lemma DashedClear(stop: string, item: string)
    requires IsStop(stop)
    ensures Clear(stop, "- " + (item + "\n")) <==> ItemClear(stop, item)
  {
    var t := item + "\n";
    var s := "- " + t;
    DashIsLine();
    LineBehind("- ", t);
    ClearUnfolds(stop, s);
    hide Clear, Line, Rest, NoNewline;
    assert ("- " + Line(t))[1] == "- "[1] == ' ';
  }

  lemma DashIsLine()
    ensures NoNewline("- ") && "- "[1] == ' '
  {
  }

  lemma {:induction false} BulletedLines(bullet: string, items: seq<string>)
    ensures WholeLines(Bulleted(bullet, items))
  {
    if items != [] {
      BulletedLines(bullet, items[1..]);
    }
  }

  lemma {:induction false} BulletedClear(stop: string, items: seq<string>)
    requires IsStop(stop)
    ensures Clear(stop, Bulleted("- ", items)) <==> ItemsClear(stop, items)
  {
    hide ItemClear, IsStop;
    if items == [] {
    } else {
      var first, more := "- " + (items[0] + "\n"), Bulleted("- ", items[1..]);
      BulletedClear(stop, items[1..]);
      DashedClear(stop, items[0]);
      assert Bulleted("- ", items) == first + more;
      assert WholeLines(first);
      hide Clear, WholeLines, Bulleted;
      ClearJoins(stop, first, more);
      assert forall i | 1 <= i < |items| :: items[i] == items[1..][i - 1];
    }
  }

  // ---- One section --------------------------------------------------------------------------

  lemma SectionRegroup(s: Section, r: string)
    ensures SectionMd(s) + r == ("### " + Title(s.kind)) + ("\n" + ("\n" + (Bulleted("- ", s.items) + ("\n" + r))))
  {
  }

  lemma SectionBullets(s: Section, r: string)
    requires AllWord(s.kind) && OneLiners(s.items)
    ensures Bullets("- ", SectionMd(s) + r) == s.items + Bullets("- ", r)
  {
    TitleIsLine(s.kind);
    var l := "### " + Title(s.kind);
    assert NoNewline("### ") && NoNewline("- ");
    assert l[0] == '#' && "- "[0] == '-';
    hide NoNewline, Title, Bullets, Bulleted, SectionMd, OneLiners;
    NoNewlineJoins("### ", Title(s.kind));
    SectionRegroup(s, r);
    var body := Bulleted("- ", s.items) + ("\n" + r);
    Unbulleted("- ", l, "\n" + body);
    BulletsBlank("- ", body);
    BulletsOf("- ", s.items, "\n" + r);
    BulletsBlank("- ", r);
  }

  lemma Unbulleted(bullet: string, l: string, r: string)
    requires NoNewline(l) && bullet != "" && (l == "" || l[0] != bullet[0])
    ensures Bullets(bullet, l + ("\n" + r)) == Bullets(bullet, r)
  {
    hide NoNewline, Bullets;
    BulletsLine(bullet, l, r);
  }

  lemma SectionClear(stop: string, s: Section)
    requires IsStop(stop) && AllWord(s.kind)
    ensures Clear(stop, SectionMd(s)) <==> ItemsClear(stop, s.items)
    ensures WholeLines(SectionMd(s))
  {
    TitleIsLine(s.kind);
    var l, body := "### " + Title(s.kind), Bulleted("- ", s.items);
    assert NoNewline("### ") && l[2] == '#' && !(stop <= l) && stop != "";
    BulletedClear(stop, s.items);
    BulletedLines("- ", s.items);
    SectionLines(s);
    hide NoNewline, Title, Clear, Bulleted, ItemsClear, IsStop, SectionMd;
    NoNewlineJoins("### ", Title(s.kind));
    ClearLine(stop, l, "\n" + (body + "\n"));
    ClearBlank(stop, body + "\n");
    ClearJoins(stop, body, "\n");
    ClearBlank(stop, "");
    ClearEnd(stop);
    assert "\n" + "" == "\n";
    hide WholeLines;
  }

  lemma SectionLines(s: Section)
    ensures SectionMd(s) == ("### " + Title(s.kind)) + ("\n" + ("\n" + (Bulleted("- ", s.items) + "\n")))
    ensures WholeLines(SectionMd(s))
  {
    hide Title, Bulleted;
  }

  lemma ClearEnd(stop: string)
    ensures Clear(stop, "")
  {
  }

  // ---- Sections -------------------------------------------------------------------------------

  predicate Kinds(ss: seq<Section>) {
    forall i | 0 <= i < |ss| :: AllWord(ss[i].kind)
  }

  predicate SectionsClear(stop: string, ss: seq<Section>) {
    forall i | 0 <= i < |ss| :: ItemsClear(stop, ss[i].items)
  }

  lemma {:induction false} SectionsMdClear(stop: string, ss: seq<Section>)
    requires IsStop(stop) && Kinds(ss)
    ensures Clear(stop, SectionsMd(ss)) <==> SectionsClear(stop, ss)
    ensures WholeLines(SectionsMd(ss))
  {
    hide SectionMd, ItemsClear, AllWord, IsStop;
    if ss == [] {
    } else {
      hide Clear;
      assert forall i | 1 <= i < |ss| :: ss[i] == ss[1..][i - 1];
      assert Kinds(ss[1..]);
      SectionsMdClear(stop, ss[1..]);
      SectionClear(stop, ss[0]);
      ClearJoins(stop, SectionMd(ss[0]), SectionsMd(ss[1..]));
      WholeJoins(SectionMd(ss[0]), SectionsMd(ss[1..]));
      hide WholeLines;
    }
  }

  lemma WholeJoins(a: string, b: string)
    requires WholeLines(a) && WholeLines(b)
    ensures WholeLines(a + b)
  {
  }

  lemma {:induction false} ItemsOneLine(ss: seq<Section>)
    ensures OneLiners(Items(ss)) <==> forall i | 0 <= i < |ss| :: OneLiners(ss[i].items)
  {
    if ss != [] {
      var a, b := ss[0].items, Items(ss[1..]);
      assert forall i | 1 <= i < |ss| :: ss[i] == ss[1..][i - 1];
      ItemsOneLine(ss[1..]);
      assert Items(ss) == a + b;
      assert forall i | 0 <= i < |b| :: (a + b)[|a| + i] == b[i];
      assert forall i | 0 <= i < |a| :: (a + b)[i] == a[i];
    }
  }

  lemma OneLinersAreClear(stop: string, ss: seq<Section>)
    requires OneLiners(Items(ss))
    ensures SectionsClear(stop, ss)
  {
    ItemsOneLine(ss);
    forall i, j | 0 <= i < |ss| && 0 <= j < |ss[i].items| ensures ItemClear(stop, ss[i].items[j]) {
      OneLinerIsClear(stop, ss[i].items[j]);
    }
  }

  lemma {:induction false} OneLineBullets(ss: seq<Section>, r: string)
    requires Kinds(ss) && forall i | 0 <= i < |ss| :: OneLiners(ss[i].items)
    ensures Bullets("- ", SectionsMd(ss) + r) == Items(ss) + Bullets("- ", r)
  {
    hide Bullets, SectionMd, OneLiners, AllWord;
    if ss == [] {
      assert SectionsMd(ss) + r == r;
    } else {
      Assoc(SectionMd(ss[0]), SectionsMd(ss[1..]), r);
      SectionBullets(ss[0], SectionsMd(ss[1..]) + r);
      OneLineBullets(ss[1..], r);
      Assoc(ss[0].items, Items(ss[1..]), Bullets("- ", r));
    }
  }

  // Rendered sections read back as their items, in order, if and only if no
  // item spans lines.
  lemma SectionsBullets(ss: seq<Section>, r: string)
    requires Kinds(ss)
    ensures Bullets("- ", SectionsMd(ss) + r) == Items(ss) + Bullets("- ", r) <==> OneLiners(Items(ss))
  {
    hide Bullets, SectionsMd, Items, NoNewline, AllWord;
    ItemsOneLine(ss);
    BulletsAreLines("- ", SectionsMd(ss) + r);
    if OneLiners(Items(ss)) {
      OneLineBullets(ss, r);
    }
    if Bullets("- ", SectionsMd(ss) + r) == Items(ss) + Bullets("- ", r) {
      OneLinersFront(Items(ss), Bullets("- ", r));
    }
  }
}
