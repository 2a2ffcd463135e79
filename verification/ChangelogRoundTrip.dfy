// The round trip of scripts/prepare-release.js and apps/fluux/src/data/changelog.ts:
// parsing a printed changelog gives the changelog back, normalised, exactly
// when the changelog is Faithful.

module ChangelogRoundTrip {
  import opened Text
  import opened FieldScan
  import opened ChangelogParser
  import opened ChangelogPrinter
  import opened ChangelogItems
  import opened ChangelogSections
  import opened ChangelogAgreement
  import opened ChangelogVersions

  lemma PlainIsEscaped(s: string)
    requires PlainLiteral(s)
    ensures Escape(s) == s && NoQuote(s)
  {
  }

  // ---- One entry: the scan ----------------------------------------------------

  // How much of an entry's block is left of the next version match.
  datatype Stop = AtEnd | InDate(part: string) | InSections(end: End)

  // The entry's text behind its version, up to that match.
  function RestShown(e: Entry, stop: Stop): string
  {
    match stop
    case AtEnd => EntryRest(e)
    case InDate(part) => DATE_OPEN + part
    case InSections(end) => DATE_OPEN + (e.date + ("'" + (SECTIONS_OPEN + Shown(e.sections, end))))
  }

  predicate ValidStop(e: Entry, stop: Stop) {
    match stop
    case AtEnd => true
    case InDate(part) => part < e.date && WordAndSpace(VersionField, e.date[|part|..])
    case InSections(end) => end.Cut? && ValidEnd(e.sections, end)
  }

  lemma FootAndOpenSkip(r: string)
    ensures Next(VersionField, ENTRY_FOOT + r) == |ENTRY_FOOT| + Next(VersionField, r)
    ensures '\'' in ENTRY_FOOT + r <==> '\'' in r
  {
    SkipPlain(VersionField, ENTRY_FOOT, r);
    assert '\'' !in ENTRY_FOOT;
  }

  lemma SectionsOpenSkip(r: string)
    ensures Next(VersionField, SECTIONS_OPEN + r) == |SECTIONS_OPEN| + Next(VersionField, r)
    ensures SECTIONS_OPEN + r != "" && (SECTIONS_OPEN + r)[0] != '\''
    ensures '\'' in SECTIONS_OPEN + r <==> '\'' in r
  {
    SkipPlain(VersionField, SECTIONS_OPEN, r);
    assert '\'' !in SECTIONS_OPEN;
  }

  lemma DateOpenSkip(r: string)
    ensures Next(VersionField, DATE_OPEN + r) == |DATE_OPEN| + Next(VersionField, r)
  {
    SkipPlain(VersionField, DATE_OPEN, r);
  }

  lemma EntryRegroup(e: Entry, r: string)
    ensures EntryRest(e) + r
         == DATE_OPEN + (e.date + "'" + (SECTIONS_OPEN + (SectionsText(e.sections) + (ENTRY_FOOT + r))))
    ensures |EntryRest(e)| == |DATE_OPEN| + |e.date| + 1 + |SECTIONS_OPEN| + |SectionsText(e.sections)| + |ENTRY_FOOT|
  {
    hide DATE_OPEN, SECTIONS_OPEN, SectionsText, ENTRY_FOOT;
  }

  lemma RestScan(e: Entry, r: string) returns (stop: Stop)
    requires WellFormed(e)
    ensures ValidStop(e, stop)
    ensures stop.AtEnd? <==> EntryQuiet(e, '\'' in r)
    ensures stop.AtEnd? ==> Next(VersionField, EntryRest(e) + r) == |EntryRest(e)| + Next(VersionField, r)
    ensures !stop.AtEnd? ==>
              Next(VersionField, EntryRest(e) + r) == |RestShown(e, stop)| && RestShown(e, stop) <= EntryRest(e)
  {
    hide Next, EndsInWord, Escape, SectionsText, DATE_OPEN, SECTIONS_OPEN, ENTRY_FOOT, SectionsQuiet, PlainLiteral,
        WordAndSpace, Shown;
    var tail := ENTRY_FOOT + r;
    var listed := SectionsText(e.sections) + tail;
    var after := SECTIONS_OPEN + listed;
    EntryRegroup(e, r);
    DateOpenSkip(e.date + "'" + after);
    PlainIsEscaped(e.date);
    SectionsOpenSkip(listed);
    AheadIffQuote(after);
    FootAndOpenSkip(r);
    SectionsQuote(e.sections, tail);
    var end := SectionsScan(e.sections, tail);
    if EndsInWord(VersionField, e.date) && '\'' in after {
      var part := HitQuoted(VersionField, e.date, after);
      PartIsPlain(e.date, part);
      stop := InDate(part);
      DatePrefix(e, part);
    } else {
      SkipQuoted(VersionField, e.date, after);
      if SectionsQuiet(e.sections, '\'' in r) {
        stop := AtEnd;
      } else {
        stop := InSections(end);
        SectionsPrefix(e, end);
      }
    }
  }

  lemma DatePrefix(e: Entry, part: string)
    requires part <= e.date && Escape(part) == part
    ensures RestShown(e, InDate(part)) <= EntryRest(e)
  {
    hide DATE_OPEN, SECTIONS_OPEN, SectionsText, ENTRY_FOOT, Escape;
    var tail := "'" + (SECTIONS_OPEN + (SectionsText(e.sections) + ENTRY_FOOT));
    assert EntryRest(e) == (DATE_OPEN + part) + (e.date[|part|..] + tail);
  }

  lemma SectionsPrefix(e: Entry, end: End)
    requires Shown(e.sections, end) <= SectionsText(e.sections)
    ensures RestShown(e, InSections(end)) <= EntryRest(e)
    ensures |RestShown(e, InSections(end))| == |DATE_OPEN| + |e.date| + 1 + |SECTIONS_OPEN| + |Shown(e.sections, end)|
  {
    hide DATE_OPEN, SECTIONS_OPEN, SectionsText, ENTRY_FOOT, Shown;
    var a := DATE_OPEN + (e.date + ("'" + SECTIONS_OPEN));
    assert RestShown(e, InSections(end)) == a + Shown(e.sections, end);
    assert EntryRest(e) == a + (SectionsText(e.sections) + ENTRY_FOOT);
  }

  lemma PartIsPlain(s: string, part: string)
    requires PlainLiteral(s) && part < s
    ensures Escape(part) == part && NoQuote(part)
  {
    EscapePlain(part);
  }

  // ---- One entry: its date -----------------------------------------------------

  // Text from the version's opening quote's word to the date's opening quote.
  function Dated(version: string, r: string): string {
    VERSION_OPEN + (version + ("'" + (DATE_OPEN + r)))
  }

  lemma VersionOpenSkips(f: Field, r: string)
    requires !f.VersionField?
    ensures Next(f, VERSION_OPEN + r) == |VERSION_OPEN| + Next(f, r)
  {
    assert NoStart(f, VERSION_OPEN) by {
      assert f == DateField || f == TypeField;
    }
    SkipPlain(f, VERSION_OPEN, r);
  }

  lemma VersionSkips(f: Field, version: string, r: string)
    requires !f.VersionField? && Escape(version) == version
    requires !(EndsInWord(f, version) && ValueAhead(f, r))
    ensures Next(f, VERSION_OPEN + (version + ("'" + r))) == |VERSION_OPEN| + |version| + 1 + Next(f, r)
  {
    hide EndsInWord, Escape, ValueAhead, VERSION_OPEN, Next;
    assert version + ("'" + r) == version + "'" + r;
    VersionOpenSkips(f, version + ("'" + r));
    SkipQuoted(f, version, r);
  }

  lemma DateAt(version: string, r: string, n: nat)
    requires Next(DateField, Dated(version, r)) == |VERSION_OPEN| + |version| + 1 + n && n <= |DATE_OPEN + r|
    ensures DateIn(Dated(version, r)) == if MatchAt(DateField, (DATE_OPEN + r)[n..])
        then Trim(Capture(DateField, (DATE_OPEN + r)[n..])) else ""
  {
    hide MatchAt, Next, DATE_OPEN, Opened;
    assert Dated(version, r)[|VERSION_OPEN| + |version| + 1 + n..] == (DATE_OPEN + r)[n..];
  }

  lemma DateOpensValue(r: string)
    ensures ValueAhead(DateField, DATE_OPEN + r)
    ensures ValueLen(DateField, DATE_OPEN + r) == 12 && (DATE_OPEN + r)[..12] == ",\n    date: "
  {
    var v := ",\n    date: ";
    assert DATE_OPEN + r == v + ("'" + r);
    ValueRun(DateField, v, "'" + r);
  }

  // The false date the script reads when a version ends in `date:`.
  lemma FalseDate(version: string, r: string)
    requires Escape(version) == version && EndsInWord(DateField, version)
    ensures DateIn(Dated(version, r)) == Trim(",\n    date: ")
  {
    hide DATE_OPEN, Next, EndsInWord, ValueAhead, ValueLen, Escape, WordAndSpace, MatchAt, Opened, Trim;
    var after := DATE_OPEN + r;
    DateOpensValue(r);
    var quoted := version + "'" + after;
    assert Dated(version, r) == VERSION_OPEN + quoted;
    VersionOpenSkips(DateField, quoted);
    var y := HitQuoted(DateField, version, after);
    EscapePrefixPlain(version, y);
    var x := version[|y|..];
    WordMatches(x, after);
    assert Dated(version, r)[|VERSION_OPEN| + |y|..] == x + "'" + after;
  }

  lemma {:induction false} EscapePrefixPlain(s: string, y: string)
    requires Escape(s) == s && y <= s && Escape(y) <= s
    ensures |Escape(y)| == |y|
  {
    if y != "" {
      assert s[0] == Escape(s)[0];
      assert Escape(s)[1..] == Escape(s[1..]) by { EscapeStep(s, ""); }
      assert Escape(y)[1..] == Escape(y[1..]) by { EscapeStep(y, ""); }
      assert y[1..] <= s[1..];
      EscapePrefixPlain(s[1..], y[1..]);
    }
  }

  lemma WordMatches(x: string, r: string)
    requires WordAndSpace(DateField, x) && ValueAhead(DateField, r)
    ensures MatchAt(DateField, x + "'" + r) && Capture(DateField, x + "'" + r) == r[..ValueLen(DateField, r)]
  {
    WordOpens(DateField, x, r);
  }

  lemma DateWordAlone()
    ensures WordAndSpace(DateField, "date: ")
  {
  }

  lemma DateMatchHere(date: string, r: string)
    requires NoQuote(date) && date != ""
    ensures var m := "date: " + "'" + (date + ("'" + r));
            MatchAt(DateField, m) && Capture(DateField, m) == date && Next(DateField, m) == 0
  {
    DateWordAlone();
    hide WordAndSpace, MatchAt, Opened, Behind, Capture;
    FieldMatches(DateField, "date: ", date, r);
  }

  lemma DatePadSkips(r: string)
    ensures DATE_OPEN + r == ",\n    " + ("date: " + "'" + r)
    ensures Next(DateField, DATE_OPEN + r) == 6 + Next(DateField, "date: " + "'" + r)
    ensures (DATE_OPEN + r)[6..] == "date: " + "'" + r
  {
    hide Next;
    var pad, m := ",\n    ", "date: " + "'" + r;
    assert DATE_OPEN == pad + ("date: " + "'");
    assert DATE_OPEN + r == pad + m;
    SkipPlain(DateField, pad, m);
  }

  lemma TrueDate(version: string, date: string, r: string)
    requires Escape(version) == version && !EndsInWord(DateField, version)
    requires NoQuote(date) && date != ""
    ensures DateIn(Dated(version, date + ("'" + r))) == Trim(date)
  {
    hide DATE_OPEN, Next, MatchAt, Opened, Trim, EndsInWord, Escape, Dated, DateIn;
    var all := date + ("'" + r);
    DateMatchHere(date, r);
    DatePadSkips(all);
    DatedRegroup(version, all);
    VersionSkips(DateField, version, DATE_OPEN + all);
    DateAt(version, all, 6);
  }

  lemma DatedRegroup(version: string, r: string)
    ensures Dated(version, r) == VERSION_OPEN + (version + ("'" + (DATE_OPEN + r)))
  {
  }

  lemma NoDateInCut(version: string, part: string)
    requires Escape(version) == version && !EndsInWord(DateField, version) && NoQuote(part)
    ensures DateIn(Dated(version, part)) == ""
  {
    CutDateScan(part);
    VersionSkips(DateField, version, DATE_OPEN + part);
    DateAt(version, part, |DATE_OPEN + part|);
    assert !MatchAt(DateField, "");
  }

  lemma CutDateScan(part: string)
    requires NoQuote(part)
    ensures Next(DateField, DATE_OPEN + part) == |DATE_OPEN + part|
  {
    var x := "date: " + "'" + part;
    DatePadSkips(part);
    CutDateIsNone(part);
    AteSkips(part);
    hide MatchAt, DATE_OPEN, Next;
    Step(DateField, x);
    assert x[1..] == "ate: '" + part;
    NoQuoteNoMatch(DateField, part);
  }

  // Without a closing quote the date is no match.
  lemma CutDateIsNone(part: string)
    requires NoQuote(part)
    ensures !MatchAt(DateField, "date: " + "'" + part)
  {
    DateWordAlone();
    WordOpens(DateField, "date: ", part);
    WholeValue(part);
  }

  lemma AteSkips(r: string)
    ensures Next(DateField, "ate: '" + r) == 6 + Next(DateField, r)
  {
    SkipPlain(DateField, "ate: '", r);
  }

  lemma {:induction false} WholeValue(u: string)
    requires NoQuote(u)
    ensures ValueLen(DateField, u) == |u|
  {
    if u != "" {
      WholeValue(u[1..]);
    }
  }

  // ---- One entry: its sections -----------------------------------------------------

  lemma DateOpenHidesNoType(r: string)
    ensures Next(TypeField, DATE_OPEN + r) == |DATE_OPEN| + Next(TypeField, r)
    ensures !ValueAhead(TypeField, DATE_OPEN + r)
  {
    SkipPlain(TypeField, DATE_OPEN, r);
    assert (DATE_OPEN + r)[0] == ',';
  }

  lemma SectionsOpenHidesNoType(r: string)
    ensures Next(TypeField, SECTIONS_OPEN + r) == |SECTIONS_OPEN| + Next(TypeField, r)
    ensures !ValueAhead(TypeField, SECTIONS_OPEN + r)
  {
    SkipPlain(TypeField, SECTIONS_OPEN, r);
    assert (SECTIONS_OPEN + r)[0] == ',';
  }

  lemma SectionsBehindDate(version: string, date: string, r: string)
    requires PlainLiteral(version) && PlainLiteral(date)
    ensures SectionsIn(Dated(version, date + ("'" + (SECTIONS_OPEN + r)))) == SectionsIn(r)
  {
    hide Next, SectionsIn, ValueAhead, Escape, PlainLiteral, SECTIONS_OPEN, DATE_OPEN, VERSION_OPEN;
    var after := SECTIONS_OPEN + r;
    var dated := date + ("'" + after);
    PlainIsEscaped(version);
    PlainIsEscaped(date);
    DateOpenHidesNoType(dated);
    SectionsOpenHidesNoType(r);
    VersionSkips(TypeField, version, DATE_OPEN + dated);
    assert dated == date + "'" + after;
    SkipQuoted(TypeField, date, after);
    var front := VERSION_OPEN + version + "'" + DATE_OPEN + date + "'" + SECTIONS_OPEN;
    assert Dated(version, dated) == front + r;
    SectionsSkip(front, r);
  }

  // ---- One entry -------------------------------------------------------------------

  // The block of an entry: its text up to the next version match. Only a whole
  // block reaches into the text that leads the next entry or ends the file.
  function Block(e: Entry, stop: Stop, lead: string): string
  {
    VERSION_OPEN + (e.version + ("'" + (RestShown(e, stop) + if stop.AtEnd? then lead else "")))
  }

  predicate IsLead(lead: string) {
    lead == ENTRY_OPEN || lead == "]\n"
  }

  lemma TrimKeeps(s: string, c: char)
    requires c in Trim(s)
    ensures c in s
  {
  }

  lemma FalseDateText()
    ensures '\n' in Trim(",\n    date: ")
  {
    var s := ",\n    date: ";
    assert TrimStart(s) == s;
    var t := s[..11];
    assert t[10] == ':' && TrimEnd(t) == t;
    assert TrimEnd(s) == t && t[1] == '\n';
  }

  lemma DateAgrees(e: Entry, stop: Stop, lead: string)
    requires WellFormed(e) && ValidStop(e, stop)
    ensures DateIn(Block(e, stop, lead)) == Trim(e.date) <==> !EndsInWord(DateField, e.version) && !stop.InDate?
  {
    hide EndsInWord, PlainLiteral, DateIn, DATE_OPEN, SECTIONS_OPEN, ENTRY_FOOT, VERSION_OPEN, SectionsText, Shown,
        Escape, Trim, Blank, WordAndSpace;
    PlainIsEscaped(e.version);
    PlainIsEscaped(e.date);
    DateNotEmpty(e.date);
    var r := BlockTail(e, stop, lead);
    if EndsInWord(DateField, e.version) {
      FalseDate(e.version, r);
      FalseDateText();
      if Trim(e.date) == Trim(",\n    date: ") {
        TrimKeeps(e.date, '\n');
        PlainHasNoNewline(e.date);
        assert false;
      }
    } else if stop.InDate? {
      assert r == stop.part;
      PartIsPlain(e.date, stop.part);
      NoDateInCut(e.version, stop.part);
      WordNotBlank(e.date, stop.part);
      NotBlankTrim(e.date);
    } else {
      var more := DateTail(e, stop, lead);
      TrueDate(e.version, e.date, more);
    }
  }

  lemma NotBlankTrim(s: string)
    requires !Blank(s)
    ensures Trim(s) != ""
  {
    TrimsToNothing(s);
  }

  lemma DateNotEmpty(s: string)
    requires PlainLiteral(s)
    ensures s != ""
  {
  }

  lemma PlainHasNoNewline(s: string)
    requires PlainLiteral(s)
    ensures '\n' !in s
  {
  }

  lemma BlockTail(e: Entry, stop: Stop, lead: string) returns (r: string)
    requires ValidStop(e, stop)
    ensures Block(e, stop, lead) == Dated(e.version, r)
    ensures stop.InDate? ==> r == stop.part
    ensures !stop.InDate? ==> r == e.date + ("'" + DateTail(e, stop, lead))
  {
    hide VERSION_OPEN, DATE_OPEN, SECTIONS_OPEN, SectionsText, Shown, ENTRY_FOOT;
    match stop
    case InDate(part) =>
      r := part;
      assert RestShown(e, stop) + "" == DATE_OPEN + part;
    case AtEnd =>
      r := e.date + ("'" + DateTail(e, stop, lead));
      assert RestShown(e, stop) + lead == DATE_OPEN + r;
    case InSections(end) =>
      r := e.date + ("'" + DateTail(e, stop, lead));
      assert RestShown(e, stop) + "" == DATE_OPEN + r;
  }

  function EndOfStop(stop: Stop, lead: string): End
    requires !stop.InDate?
  {
    if stop.AtEnd? then Whole(ENTRY_FOOT + lead) else stop.end
  }

  lemma EndIsValid(e: Entry, stop: Stop, lead: string)
    requires !stop.InDate? && ValidStop(e, stop) && IsLead(lead)
    ensures ValidEnd(e.sections, EndOfStop(stop, lead))
  {
    if stop.AtEnd? {
      if lead == ENTRY_OPEN {
        assert NoQuote(ENTRY_FOOT + ENTRY_OPEN) && NoStart(TypeField, ENTRY_FOOT + ENTRY_OPEN);
      } else {
        assert NoQuote(ENTRY_FOOT + "]\n") && NoStart(TypeField, ENTRY_FOOT + "]\n");
      }
    }
  }

  function DateTail(e: Entry, stop: Stop, lead: string): string
    requires ValidStop(e, stop) && !stop.InDate?
  {
    SECTIONS_OPEN + (if stop.AtEnd? then SectionsText(e.sections) + (ENTRY_FOOT + lead)
        else Shown(e.sections, stop.end))
  }

  lemma SectionsAgree(e: Entry, stop: Stop, lead: string)
    requires WellFormed(e) && ValidStop(e, stop) && !stop.InDate? && IsLead(lead)
    ensures SectionsIn(Block(e, stop, lead)) == Kept(e.sections) <==> stop.AtEnd? && BracketsFit(e.sections)
  {
    hide PlainLiteral, SectionsIn, SECTIONS_OPEN, VERSION_OPEN, DATE_OPEN, ENTRY_FOOT, SectionsText, IsLead;
    EndIsValid(e, stop, lead);
    var r := BlockTail(e, stop, lead);
    var shown := Shown(e.sections, EndOfStop(stop, lead));
    assert DateTail(e, stop, lead) == SECTIONS_OPEN + shown;
    SectionsBehindDate(e.version, e.date, shown);
    ShownAgrees(e.sections, EndOfStop(stop, lead));
  }

  lemma EntryAgrees(e: Entry, stop: Stop, lead: string)
    requires WellFormed(e) && ValidStop(e, stop) && IsLead(lead)
    ensures EntryOf(e.version, Block(e, stop, lead)) == Normal(e)
        <==> stop.AtEnd? && !EndsInWord(DateField, e.version) && BracketsFit(e.sections)
  {
    hide EndsInWord, DateIn, SectionsIn, WellFormed, Kept, Trim, IsLead, Block, BracketsFit;
    DateAgrees(e, stop, lead);
    if !stop.InDate? {
      SectionsAgree(e, stop, lead);
    }
  }

  // ---- The file ----------------------------------------------------------------------

  predicate WellFormedAll(es: seq<Entry>) {
    forall i | 0 <= i < |es| :: WellFormed(es[i])
  }

  function Lead(es: seq<Entry>): string {
    if es == [] then "]\n" else ENTRY_OPEN
  }

  lemma VersionMatches(version: string, r: string)
    requires PlainLiteral(version)
    ensures var m := VERSION_OPEN + (version + ("'" + r));
            MatchAt(VersionField, m) && Capture(VersionField, m) == version && Behind(VersionField, m) == r
                && Next(VersionField, m) == 0
  {
    VersionWord();
    hide WordAndSpace, MatchAt, Opened, Behind, Capture;
    FieldMatches(VersionField, "version: ", version, r);
    assert "version: " + "'" + (version + ("'" + r)) == VERSION_OPEN + (version + ("'" + r));
  }

  lemma VersionWord()
    ensures WordAndSpace(VersionField, "version: ")
  {
  }

  lemma LeadSkips(es: seq<Entry>)
    requires WellFormedAll(es)
    ensures Next(VersionField, EntriesText(es)) == |Lead(es)| && Lead(es) <= EntriesText(es)
    ensures '\'' in EntriesText(es) <==> es != []
    ensures IsLead(Lead(es))
  {
    LeadQuote(es);
    if es == [] {
      NoQuoteNoMatch(VersionField, "]\n");
    } else {
      var e, r := es[0], EntriesText(es[1..]);
      var m := VERSION_OPEN + (e.version + ("'" + (EntryRest(e) + r)));
      EntryTextRegroup(e, r);
      assert EntriesText(es) == ENTRY_OPEN + m;
      hide EntryRest, EntriesText, Next, MatchAt, Capture, Behind, PlainLiteral;
      EntryOpenSkips(m);
      VersionMatches(e.version, EntryRest(e) + r);
    }
  }

  lemma LeadQuote(es: seq<Entry>)
    ensures '\'' in EntriesText(es) <==> es != []
  {
    if es != [] {
      var r := FirstVersionOn(es);
      EntryTextRegroup(es[0], EntriesText(es[1..]));
      assert EntriesText(es) == ENTRY_OPEN + (VERSION_OPEN + r);
      hide EntryRest, EntriesText;
      QuoteInVersion(r);
    }
  }

  function FirstVersionOn(es: seq<Entry>): string
    requires es != []
  {
    es[0].version + ("'" + (EntryRest(es[0]) + EntriesText(es[1..])))
  }

  lemma QuoteInVersion(r: string)
    ensures '\'' in ENTRY_OPEN + (VERSION_OPEN + r)
  {
    var k := |ENTRY_OPEN| + 9;
    assert VERSION_OPEN[9] == '\'';
    hide ENTRY_OPEN, VERSION_OPEN;
    assert (ENTRY_OPEN + (VERSION_OPEN + r))[k] == '\'';
  }

  lemma EntryTextRegroup(e: Entry, r: string)
    ensures EntryText(e) + r == VERSION_OPEN + (e.version + ("'" + (EntryRest(e) + r)))
  {
  }

  lemma ParseSkip(a: string, r: string)
    requires Next(VersionField, a + r) == |a| + Next(VersionField, r)
    ensures ParseFrom(a + r) == ParseFrom(r)
  {
    hide Next, MatchAt, EntryOf, Opened;
    assert (a + r)[|a| + Next(VersionField, r)..] == r[Next(VersionField, r)..];
  }

  lemma FirstEntry(m: string)
    requires m != "" && MatchAt(VersionField, m) && Next(VersionField, m) == 0
    ensures var r := Behind(VersionField, m);
            && |m| - |r| + Next(VersionField, r) <= |m|
            && ParseFrom(m) == [EntryOf(Capture(VersionField, m), m[..|m| - |r| + Next(VersionField, r)])]
                + ParseFrom(r)
  {
    hide Next, MatchAt, EntryOf, Opened, ParseFrom;
    ParseFromStep(m);
    assert m[Next(VersionField, m)..] == m;
  }

  lemma BlockIsCut(e: Entry, r: string, stop: Stop, lead: string)
    requires ValidStop(e, stop)
    requires stop.AtEnd? ==> lead <= r
    requires !stop.AtEnd? ==> RestShown(e, stop) <= EntryRest(e)
    ensures var m := VERSION_OPEN + (e.version + ("'" + (EntryRest(e) + r)));
            var n := |VERSION_OPEN| + |e.version| + 1 + if stop.AtEnd? then |EntryRest(e)| + |lead|
                else |RestShown(e, stop)|;
            n <= |m| && m[..n] == Block(e, stop, lead)
  {
  }

  lemma EntryParsed(e: Entry, r: string, stop: Stop, lead: string)
    requires WellFormed(e) && ValidStop(e, stop)
    requires stop.AtEnd? ==> lead <= r && Next(VersionField, EntryRest(e) + r) == |EntryRest(e)| + |lead|
    requires !stop.AtEnd? ==>
               RestShown(e, stop) <= EntryRest(e) && Next(VersionField, EntryRest(e) + r) == |RestShown(e, stop)|
    ensures ParseFrom(ENTRY_OPEN + (EntryText(e) + r))
         == [EntryOf(e.version, Block(e, stop, lead))] + ParseFrom(EntryRest(e) + r)
  {
    hide PlainLiteral, Next, MatchAt, Opened, EntryRest, EntryText, EntryOf, ParseFrom, Block, VERSION_OPEN, RestShown;
    var rest := EntryRest(e) + r;
    var m := VERSION_OPEN + (e.version + ("'" + rest));
    EntryTextRegroup(e, r);
    EntryOpenSkips(m);
    ParseSkip(ENTRY_OPEN, m);
    VersionMatches(e.version, rest);
    hide Behind, Capture, ENTRY_OPEN;
    FirstEntry(m);
    var n := |m| - |rest| + Next(VersionField, rest);
    BlockIsCut(e, r, stop, lead);
    assert m[..n] == Block(e, stop, lead);
  }

  lemma EntryOpenSkips(r: string)
    ensures Next(VersionField, ENTRY_OPEN + r) == |ENTRY_OPEN| + Next(VersionField, r)
  {
    SkipPlain(VersionField, ENTRY_OPEN, r);
  }

  lemma {:induction false} EntriesAgree(es: seq<Entry>)
    requires WellFormedAll(es)
    ensures ParseFrom(EntriesText(es)) == Normals(es) <==> Faithful(es)
  {
    hide WellFormed, Next, MatchAt, EntryText, EntryRest, EntryOf, Normal, EntryQuiet, BracketsFit, EndsInWord,
        IsLead, ParseFrom, Lead, Block, RestShown, ENTRY_OPEN;
    if es == [] {
      NothingParsed();
    } else {
      var e, rest := es[0], es[1..];
      var r := EntriesText(rest);
      LeadSkips(rest);
      assert '\'' in r <==> |es| > 1;
      var stop := RestScan(e, r);
      EntryParsed(e, r, stop, Lead(rest));
      EntryAgrees(e, stop, Lead(rest));
      var parsed := EntryOf(e.version, Block(e, stop, Lead(rest)));
      SameCons(parsed, Normal(e), ParseFrom(EntryRest(e) + r), Normals(rest));
      if stop.AtEnd? {
        ParseSkip(EntryRest(e), r);
        EntriesAgree(rest);
      }
    }
  }

  lemma SameCons<T>(x: T, y: T, a: seq<T>, b: seq<T>)
    ensures [x] + a == [y] + b <==> x == y && a == b
  {
    SameHead([x], a, b);
    assert ([x] + a)[0] == x && ([y] + b)[0] == y;
  }

  lemma NothingParsed()
    ensures ParseFrom(EntriesText([])) == []
  {
  }

  // ---- The preamble ------------------------------------------------------------------

  lemma {:induction false} OpensShorter(t: string, r: string)
    requires r != "" && !IsSpace(r[0]) && r[0] != '\'' && Opens(t + r)
    ensures Opens(t)
  {
    assert t == "" ==> t + r == r;
    if t != "" && t[0] != '\'' {
      assert (t + r)[1..] == t[1..] + r;
      OpensShorter(t[1..], r);
    }
  }

  lemma {:induction false} PreambleSkips(preamble: string, r: string)
    requires Quiet(preamble) && HEADER <= r
    ensures Next(VersionField, preamble + r) == |preamble| + Next(VersionField, r)
  {
    if preamble == "" {
      assert preamble + r == r;
    } else {
      var t := preamble + r;
      assert preamble[0..] == preamble;
      assert t[1..] == preamble[1..] + r;
      assert forall i | 0 <= i < |preamble[1..]| :: preamble[1..][i..] == preamble[i + 1..];
      PreambleSkips(preamble[1..], r);
      assert !MatchAt(VersionField, t) by {
        if OpensAt(VersionField, t) {
          NotOpened(preamble, r);
        }
      }
    }
  }

  lemma HeaderFront()
    ensures HEADER[0] == 'e' && HEADER[1] == 'x'
  {
    assert HEADER[0] == "export const changelog"[0] && HEADER[1] == "export const changelog"[1];
  }

  lemma NotOpened(p: string, r: string)
    requires p != "" && HEADER <= r && OpensAt(VersionField, p + r)
    ensures OpensAt(VersionField, p)
  {
    var t, w := p + r, Word(VersionField);
    HeaderFront();
    assert r[0] == HEADER[0] && r[1] == HEADER[1];
    assert t[|p|] == 'e' && t[|p| + 1] == 'x';
    if |p| < |w| {
      assert false;
    } else {
      assert w <= p by { assert t[..|w|] == p[..|w|]; }
      assert t[|w|..] == p[|w|..] + r;
      OpensShorter(p[|w|..], r);
    }
  }

  lemma HeaderSkips(r: string)
    ensures Next(VersionField, HEADER + r) == |HEADER| + Next(VersionField, r)
  {
    SkipPlain(VersionField, HEADER, r);
  }

  lemma FindIsEarly(w: string, a: string, b: string)
    requires w <= b && w != ""
    ensures Find(w, a + b) <= |a|
    decreases |a|
  {
    if a == "" {
      assert a + b == b;
    } else {
      assert (a + b)[1..] == a[1..] + b;
      FindIsEarly(w, a[1..], b);
    }
  }

  lemma FileHasArray(preamble: string, es: seq<Entry>)
    ensures HasArray(File(preamble, es))
  {
    var w, body := "export const changelog", HEADER + EntriesText(es);
    HeaderShape(EntriesText(es));
    hide HEADER, EntriesText;
    var content := preamble + body;
    FindIsEarly(w, preamble, body);
    var h := Find(w, content);
    hide Find;
    var k := |preamble| + 43;
    assert content[k] == body[43];
    assert content[h..][k - h] == content[k];
  }

  lemma HeaderShape(r: string)
    ensures "export const changelog" <= HEADER + r && |HEADER| == 45 && (HEADER + r)[43] == '['
  {
  }

  // The main result: for every preamble of the file, every changelog of plain
  // versions and dates and every item text.
  lemma RoundTrip(preamble: string, es: seq<Entry>)
    requires Quiet(preamble) && WellFormedAll(es)
    ensures Parse(File(preamble, es)) == Normals(es) <==> Faithful(es)
  {
    FileHasArray(preamble, es);
    hide HEADER, Quiet, EntriesText, Normals, Faithful, Next, HasArray, Marks, ParseFrom, EntriesOf;
    var content, rest := File(preamble, es), EntriesText(es);
    OnePass(content, 0);
    assert content[0..] == content;
    PreambleSkips(preamble, HEADER + rest);
    ParseSkip(preamble, HEADER + rest);
    HeaderSkips(rest);
    ParseSkip(HEADER, rest);
    EntriesAgree(es);
  }
}
