// Layer 1 on printed entries: where the scan for the next version stops.

module ChangelogVersions {
  import opened Text
  import opened FieldScan
  import opened ChangelogParser
  import opened ChangelogPrinter
  import opened ChangelogItems
  import opened ChangelogSections
  import opened ChangelogAgreement


  lemma {:induction false} QuoteEndsValue(u: string)
    ensures ValueLen(VersionField, u) < |u| <==> '\'' in u
    ensures ValueLen(VersionField, u) < |u| ==> u[ValueLen(VersionField, u)] == '\''
  {
    if u != "" && u[0] != '\'' {
      QuoteEndsValue(u[1..]);
      assert u == [u[0]] + u[1..];
    }
  }

  // A quote behind `',` can close a false value exactly when there is one.
  lemma AheadIffQuote(u: string)
    requires u != "" && u[0] != '\''
    ensures ValueAhead(VersionField, u) <==> '\'' in u
  {
    QuoteEndsValue(u);
  }

  // The text of an items array up to a false match inside item k.
  function ItemsCut(items: seq<string>, k: nat, part: string): string
    requires k <= |items|
  {
    ItemsText(items[..k]) + ("          '" + Escape(part))
  }

  lemma ItemRegroup(x: string, t: string)
    ensures ItemText(x) + t == "          '" + (Escape(x) + "'" + (",\n" + t))
  {
  }

  lemma WordNotBlank(x: string, part: string)
    requires part < x && WordAndSpace(VersionField, x[|part|..])
    ensures !Blank(x)
  {
    assert x[|part|..][0] == 'v' == x[|part|];
  }

  lemma ItemSkips(x: string, t: string)
    requires !(EndsInWord(VersionField, x) && '\'' in t)
    ensures Next(VersionField, ItemText(x) + t) == |ItemText(x)| + Next(VersionField, t)
  {
    hide EndsInWord, Next, Escape;
    var pad, after := "          '", ",\n" + t;
    ItemRegroup(x, t);
    SkipPlain(VersionField, pad, Escape(x) + "'" + after);
    AheadIffQuote(after);
    assert '\'' in after <==> '\'' in t;
    SkipQuoted(VersionField, x, after);
    SkipPlain(VersionField, ",\n", t);
  }

  lemma ItemHits(x: string, t: string) returns (part: string)
    requires EndsInWord(VersionField, x) && '\'' in t
    ensures part < x && !Blank(x)
    ensures Next(VersionField, ItemText(x) + t) == 11 + |Escape(part)|
    ensures "          '" + Escape(part) <= ItemText(x)
  {
    hide EndsInWord, Next, Escape, WordAndSpace, Blank;
    var pad, after := "          '", ",\n" + t;
    ItemRegroup(x, t);
    SkipPlain(VersionField, pad, Escape(x) + "'" + after);
    AheadIffQuote(after);
    assert '\'' in after;
    part := HitQuoted(VersionField, x, after);
    WordNotBlank(x, part);
  }

  lemma {:induction false} ItemsScan(items: seq<string>, r: string) returns (k: nat, part: string)
    ensures ItemsQuiet(items, '\'' in r)
        ==> Next(VersionField, ItemsText(items) + r) == |ItemsText(items)| + Next(VersionField, r)
    ensures !ItemsQuiet(items, '\'' in r) ==>
              && k < |items| && part < items[k] && !Blank(items[k])
              && Next(VersionField, ItemsText(items) + r) == |ItemsCut(items, k, part)|
              && ItemsCut(items, k, part) <= ItemsText(items)
  {
    hide EndsInWord, Next, Escape, Blank, ItemText;
    k, part := 0, "";
    if items == [] {
      assert ItemsText(items) + r == r;
    } else {
      var x, t := items[0], ItemsText(items[1..]) + r;
      Assoc(ItemText(x), ItemsText(items[1..]), r);
      ItemsQuote(items[1..], r);
      if EndsInWord(VersionField, x) && '\'' in t {
        part := ItemHits(x, t);
      } else {
        ItemSkips(x, t);
        k, part := ItemsScan(items[1..], r);
        if !ItemsQuiet(items[1..], '\'' in r) {
          CutLater(items, k, part);
          k := k + 1;
        }
      }
    }
  }

  lemma CutLater(items: seq<string>, k: nat, part: string)
    requires k + 1 < |items|
    ensures ItemsCut(items, k + 1, part) == ItemText(items[0]) + ItemsCut(items[1..], k, part)
  {
    var first := items[..k + 1];
    assert first[0] == items[0] && first[1..] == items[1..][..k];
    Assoc(ItemText(items[0]), ItemsText(items[1..][..k]), "          '" + Escape(part));
  }

  lemma ItemsQuote(items: seq<string>, r: string)
    ensures '\'' in ItemsText(items) + r <==> items != [] || '\'' in r
  {
  }

  // ---- Sections ---------------------------------------------------------------

  lemma {:induction false} KindEndsInNoWord(kind: string)
    requires AllWord(kind)
    ensures !EndsInWord(VersionField, kind)
  {
    if kind != "" {
      assert Word(VersionField)[7] == ':' && (7 < |kind| ==> IsWord(kind[7]));
      KindEndsInNoWord(kind[1..]);
    }
  }

  const LIST_OPEN := ",\n        items: [\n"

  lemma HeadRegroup(kind: string, r: string)
    ensures SectionHead(kind) + r == HEAD_OPEN + (kind + "'" + (LIST_OPEN + r))
    ensures |SectionHead(kind)| == |HEAD_OPEN| + |kind| + 1 + |LIST_OPEN|
  {
  }

  lemma LayoutSkips(r: string)
    ensures Next(VersionField, HEAD_OPEN + r) == |HEAD_OPEN| + Next(VersionField, r)
    ensures Next(VersionField, LIST_OPEN + r) == |LIST_OPEN| + Next(VersionField, r)
  {
    SkipPlain(VersionField, HEAD_OPEN, r);
    SkipPlain(VersionField, LIST_OPEN, r);
  }

  lemma HeadSkips(kind: string, r: string)
    requires AllWord(kind)
    ensures Next(VersionField, SectionHead(kind) + r) == |SectionHead(kind)| + Next(VersionField, r)
  {
    hide Next, SectionHead, AllWord, Escape, EndsInWord, HEAD_OPEN, LIST_OPEN;
    HeadRegroup(kind, r);
    KindIsPlain(kind);
    KindEndsInNoWord(kind);
    LayoutSkips(kind + "'" + (LIST_OPEN + r));
    SkipQuoted(VersionField, kind, LIST_OPEN + r);
    LayoutSkips(r);
  }

  lemma KindIsPlain(kind: string)
    requires AllWord(kind)
    ensures Escape(kind) == kind
  {
  }

  lemma SectionsQuote(ss: seq<Section>, r: string)
    ensures '\'' in SectionsText(ss) + r <==> ss != [] || '\'' in r
  {
  }

  // A quiet list of sections is skipped; otherwise the scan stops inside it.
  lemma {:induction false} SectionsScan(ss: seq<Section>, r: string) returns (end: End)
    requires WellFormedSections(ss)
    ensures SectionsQuiet(ss, '\'' in r)
        ==> Next(VersionField, SectionsText(ss) + r) == |SectionsText(ss)| + Next(VersionField, r)
    ensures !SectionsQuiet(ss, '\'' in r) ==>
              && end.Cut? && ValidEnd(ss, end)
              && Next(VersionField, SectionsText(ss) + r) == |Shown(ss, end)|
              && Shown(ss, end) <= SectionsText(ss)
  {
    hide Next, SectionHead, Blank, ItemsText, SECTION_FOOT, ItemsQuiet, ItemsCut, Escape;
    end := Cut(0, 0, "");
    if ss == [] {
      assert SectionsText(ss) + r == r;
    } else {
      var s, t := ss[0], SectionsText(ss[1..]) + r;
      assert WellFormedSection(s);
      Assoc(SectionText(s), SectionsText(ss[1..]), r);
      SectionsQuote(ss[1..], r);
      var followed := '\'' in t;
      assert followed <==> |ss| > 1 || '\'' in r;
      var k, part := SectionScan(s, t);
      if !ItemsQuiet(s.items, followed) {
        end := Cut(0, k, part);
        CutShown(ss, k, part);
      } else {
        end := SectionsScan(ss[1..], r);
        if !SectionsQuiet(ss[1..], '\'' in r) {
          end := end.(section := end.section + 1);
          ShownCons(ss, end);
        }
      }
    }
  }

  lemma CutShown(ss: seq<Section>, k: nat, part: string)
    requires ss != [] && k < |ss[0].items| && part < ss[0].items[k] && !Blank(ss[0].items[k])
    ensures Shown(ss, Cut(0, k, part)) == SectionHead(ss[0].kind) + ItemsCut(ss[0].items, k, part)
  {
  }

  lemma SectionScan(s: Section, t: string) returns (k: nat, part: string)
    requires WellFormedSection(s)
    ensures ItemsQuiet(s.items, '\'' in t)
        ==> Next(VersionField, SectionText(s) + t) == |SectionText(s)| + Next(VersionField, t)
    ensures !ItemsQuiet(s.items, '\'' in t) ==>
              && k < |s.items| && part < s.items[k] && !Blank(s.items[k])
              && Next(VersionField, SectionText(s) + t) == |SectionHead(s.kind) + ItemsCut(s.items, k, part)|
              && SectionHead(s.kind) + ItemsCut(s.items, k, part) <= SectionText(s)
  {
    FootSkips(t);
    hide Next, SectionHead, Blank, ItemsText, SECTION_FOOT, ItemsQuiet, ItemsCut, Escape;
    var r := SECTION_FOOT + t;
    assert SectionText(s) + t == SectionHead(s.kind) + (ItemsText(s.items) + r);
    HeadSkips(s.kind, ItemsText(s.items) + r);
    k, part := ItemsScan(s.items, r);
  }

  lemma FootSkips(t: string)
    ensures Next(VersionField, SECTION_FOOT + t) == |SECTION_FOOT| + Next(VersionField, t)
    ensures '\'' in SECTION_FOOT + t <==> '\'' in t
  {
    SkipPlain(VersionField, SECTION_FOOT, t);
    assert '\'' !in SECTION_FOOT;
  }
}
