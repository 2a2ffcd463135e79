// When the parser's sections are the printed ones: for a whole block exactly
// when its brackets fit, for a block cut by a false version match never.

module ChangelogAgreement {
  import opened Text
  import opened FieldScan
  import opened ChangelogParser
  import opened ChangelogPrinter
  import opened ChangelogItems
  import opened ChangelogSections

  lemma BlankDepth(x: string, d: nat)
    ensures Blank(x) ==> Depth(x, d) == d
  {
    if Blank(x) {
      DepthPlain(x, d);
    }
  }

  lemma {:induction false} AllBlankDepth(items: seq<string>, d: nat)
    requires NonBlank(items) == []
    ensures DepthOver(items, d) == d
  {
    if items != [] {
      BlankDepth(items[0], d);
      AllBlankDepth(items[1..], d);
    }
  }

  // The first item that survives does not close the array on its own.
  lemma {:induction false} FirstSurvivor(items: seq<string>)
    ensures var kept := NonBlank(Survivors(items, 1)); kept != [] ==> Depth(kept[0], 1) > 0
  {
    var s := Survivors(items, 1);
    if s != [] && Blank(items[0]) {
      BlankDepth(items[0], 1);
      assert s[1..] == Survivors(items[1..], 1);
      FirstSurvivor(items[1..]);
    }
  }

  lemma {:induction false} NoSurvivor(items: seq<string>)
    requires |Survivors(items, 1)| < |items| && NonBlank(Survivors(items, 1)) == []
    ensures NonBlank(items) != [] && Depth(NonBlank(items)[0], 1) == 0
  {
    var s := Survivors(items, 1);
    if Depth(items[0], 1) == 0 {
      if Blank(items[0]) {
        BlankDepth(items[0], 1);
        assert false;
      }
    } else {
      assert s[1..] == Survivors(items[1..], Depth(items[0], 1));
      BlankDepth(items[0], 1);
      NoSurvivor(items[1..]);
    }
  }

  lemma {:induction false} FewerKept(a: seq<string>, items: seq<string>, j: nat)
    requires a <= items && |a| <= j < |items| && !Blank(items[j])
    ensures |NonBlank(a)| < |NonBlank(items)|
  {
    TrimsToNothing(items[j]);
    hide Blank, HasText;
    if j > 0 {
      assert items[1..][j - 1] == items[j];
      if a == [] {
        FewerKept([], items[1..], j - 1);
      } else {
        assert a[0] == items[0] && a[1..] <= items[1..];
        FewerKept(a[1..], items[1..], j - 1);
      }
    }
  }

  // The item that closes the array early is not blank.
  lemma {:induction false} FallsInText(items: seq<string>, d: nat)
    requires d > 0 && DepthOver(items, d) == 0
    ensures |Survivors(items, d)| < |items| && !Blank(items[|Survivors(items, d)|])
  {
    var d' := Depth(items[0], d);
    if d' == 0 {
      if Blank(items[0]) {
        BlankDepth(items[0], d);
        assert false;
      }
    } else {
      FallsInText(items[1..], d');
    }
  }

  lemma FallKeepsFewer(items: seq<string>)
    requires DepthOver(items, 1) == 0
    ensures |NonBlank(Survivors(items, 1))| < |NonBlank(items)|
  {
    FallsInText(items, 1);
    SurvivorsAll(items, 1);
    FewerKept(Survivors(items, 1), items, |Survivors(items, 1)|);
  }

  predicate WellFormedSections(ss: seq<Section>) {
    forall i | 0 <= i < |ss| :: WellFormedSection(ss[i])
  }

  // Behind an unbalanced section comes the tail or the next section's head.
  lemma ShownStart(ss: seq<Section>, end: End) returns (body: string)
    requires ss != [] && ValidEnd(ss, end)
    ensures Shown(ss, end) == SectionHead(ss[0].kind) + body
  {
    hide SectionHead, ItemsText, SECTION_FOOT, Escape, Blank, NoQuote, NoStart;
    if end.Cut? && end.section == 0 {
      body := ItemsText(Front(ss[0].items, end.item)) + ("          '" + Escape(end.part));
    } else {
      ShownCons(ss, end);
      hide Shown;
      var t := Shown(ss[1..], Inner(end));
      body := (ItemsText(ss[0].items) + SECTION_FOOT) + t;
      Assoc(SectionHead(ss[0].kind), ItemsText(ss[0].items) + SECTION_FOOT, t);
    }
  }

  // What one section that is shown whole contributes.
  lemma ReadCases(ss: seq<Section>, end: End) returns (t: string, read: seq<string>)
    requires ss != [] && ValidEnd(ss, end) && WellFormedSections(ss) && (end.Cut? ==> end.section > 0)
    ensures ValidEnd(ss[1..], Inner(end)) && t == Shown(ss[1..], Inner(end))
    ensures SectionsIn(Shown(ss, end)) == Emit(ss[0].kind, read) + SectionsIn(t)
    ensures DepthOver(ss[0].items, 1) == 0 ==> read == NonBlank(Survivors(ss[0].items, 1))
    ensures DepthOver(ss[0].items, 1) == 1 || (DepthOver(ss[0].items, 1) > 1 && |ss| == 1)
        ==> read == NonBlank(ss[0].items)
    ensures DepthOver(ss[0].items, 1) > 1 && |ss| > 1 ==> NonBlank(ss[0].items) < read
  {
    hide SectionsIn, Emit, NonBlank, SectionText, SectionHead, Strings, Enclosed, Survivors, SECTION_FOOT;
    ShownCons(ss, end);
    t := Shown(ss[1..], Inner(end));
    read := ReadOf(ss[0], t);
    SectionOutcome(ss[0], t);
    var d := DepthOver(ss[0].items, 1);
    if d == 1 {
      ReadBalanced(ss[0], t);
    } else if d > 1 {
      if |ss| == 1 {
        assert SectionsText(ss[1..]) == "";
        assert t == end.tail;
        ReadOpenLast(ss[0], t);
      } else {
        var body := ShownStart(ss[1..], Inner(end));
        assert WellFormedSection(ss[1]);
        var more := ReadOpenMore(ss[0], ss[1].kind, body);
      }
    } else {
      assert NonBlank(Survivors(ss[0].items, 1)) + [] == NonBlank(Survivors(ss[0].items, 1));
    }
  }

  lemma NothingInTail(ss: seq<Section>, end: End)
    requires ss == [] && ValidEnd(ss, end)
    ensures SectionsIn(Shown(ss, end)) == []
  {
  }

  // The first item of the first section read never closes the array alone.
  lemma {:induction false} FirstReadSurvives(ss: seq<Section>, end: End)
    requires ValidEnd(ss, end) && WellFormedSections(ss)
    ensures SectionsIn(Shown(ss, end)) != [] ==>
              var first := SectionsIn(Shown(ss, end))[0].items;
              first != [] && Depth(first[0], 1) > 0
  {
    hide SectionsIn, Shown;
    if ss == [] {
      NothingInTail(ss, end);
    } else if end.Cut? && end.section == 0 {
      CutOutcome(ss, end.item, end.part);
      if NonBlank(Survivors(ss[0].items[..end.item], 1)) != [] {
        FirstSurvivor(ss[0].items[..end.item]);
      }
    } else {
      var t, read := ReadCases(ss, end);
      FirstReadSurvives(ss[1..], Inner(end));
      if read != [] {
        FirstOfRead(ss[0].items, read, |ss| > 1);
      }
    }
  }

  lemma FirstOfRead(items: seq<string>, read: seq<string>, more: bool)
    requires read != []
    requires DepthOver(items, 1) == 0 ==> read == NonBlank(Survivors(items, 1))
    requires DepthOver(items, 1) == 1 || (DepthOver(items, 1) > 1 && !more) ==> read == NonBlank(items)
    requires DepthOver(items, 1) > 1 && more ==> NonBlank(items) < read
    ensures Depth(read[0], 1) > 0
  {
    SurvivorsAll(items, 1);
    if NonBlank(items) == [] {
      AllBlankDepth(items, 1);
    }
    FirstSurvivor(items);
  }

  lemma CutDisagrees(ss: seq<Section>, k: nat, part: string)
    requires ss != [] && WellFormedSections(ss) && ValidEnd(ss, Cut(0, k, part))
    ensures SectionsIn(Shown(ss, Cut(0, k, part))) != Kept(ss)
  {
    hide SectionsIn, Shown, NonBlank, Survivors, Blank;
    var items := ss[0].items;
    assert WellFormedSection(ss[0]);
    CutOutcome(ss, k, part);
    SurvivorsAll(items[..k], 1);
    var kept := Survivors(items[..k], 1);
    FewerKept(kept, items, k);
    var expected := Section(ss[0].kind, NonBlank(items));
    assert Kept(ss)[0] == expected;
    assert SectionsIn(Shown(ss, Cut(0, k, part))) == Emit(ss[0].kind, NonBlank(kept));
  }

  // The array is closed inside an item: that item, the first one if no other
  // was read, is missing from this section, and no later one can stand in for it.
  lemma FallDisagrees(ss: seq<Section>, inner: End)
    requires ss != [] && ValidEnd(ss[1..], inner) && WellFormedSections(ss) && DepthOver(ss[0].items, 1) == 0
    ensures Emit(ss[0].kind, NonBlank(Survivors(ss[0].items, 1))) + SectionsIn(Shown(ss[1..], inner)) != Kept(ss)
  {
    hide SectionsIn, Shown, NonBlank, Survivors, Kept, WellFormedSection, ValidEnd, DepthOver, Depth;
    var items, t := ss[0].items, Shown(ss[1..], inner);
    var read := NonBlank(Survivors(items, 1));
    FallKeepsFewer(items);
    KeptFirst(ss);
    var got := Emit(ss[0].kind, read) + SectionsIn(t);
    if read == [] {
      SurvivorsAll(items, 1);
      NoSurvivor(items);
      FirstReadSurvives(ss[1..], inner);
      assert got == SectionsIn(t);
    } else {
      assert got[0] == Section(ss[0].kind, read);
    }
  }

  lemma KeptFirst(ss: seq<Section>)
    requires ss != [] && NonBlank(ss[0].items) != []
    ensures Kept(ss) != [] && Kept(ss)[0] == Section(ss[0].kind, NonBlank(ss[0].items))
  {
  }

  lemma OpenDisagrees(ss: seq<Section>, t: string, read: seq<string>)
    requires ss != [] && DepthOver(ss[0].items, 1) > 1 && NonBlank(ss[0].items) < read
    ensures Emit(ss[0].kind, read) + SectionsIn(t) != Kept(ss)
  {
    var items := ss[0].items;
    if NonBlank(items) == [] {
      AllBlankDepth(items, 1);
    }
    assert Kept(ss)[0] == Section(ss[0].kind, NonBlank(items));
    hide SectionsIn, Kept, NonBlank;
    assert (Emit(ss[0].kind, read) + SectionsIn(t))[0] == Section(ss[0].kind, read);
  }

  lemma KeptStep(ss: seq<Section>)
    requires ss != []
    ensures Kept(ss) == Emit(ss[0].kind, NonBlank(ss[0].items)) + Kept(ss[1..])
  {
  }

  // Sections agree exactly when the block is whole and its brackets fit.
  lemma {:induction false} ShownAgrees(ss: seq<Section>, end: End)
    requires ValidEnd(ss, end) && WellFormedSections(ss)
    ensures SectionsIn(Shown(ss, end)) == Kept(ss) <==> end.Whole? && BracketsFit(ss)
  {
    hide SectionsIn, Shown, NonBlank, Survivors, Blank, Emit;
    if ss == [] {
      NothingInTail(ss, end);
    } else if end.Cut? && end.section == 0 {
      CutDisagrees(ss, end.item, end.part);
    } else {
      var t, read := ReadCases(ss, end);
      ShownAgrees(ss[1..], Inner(end));
      var d := DepthOver(ss[0].items, 1);
      if d == 0 {
        FallDisagrees(ss, Inner(end));
      } else if d > 1 && |ss| > 1 {
        OpenDisagrees(ss, t, read);
      } else {
        KeptStep(ss);
        SameHead(Emit(ss[0].kind, read), SectionsIn(t), Kept(ss[1..]));
      }
    }
  }

  lemma SameHead<T>(a: seq<T>, b: seq<T>, c: seq<T>)
    ensures a + b == a + c <==> b == c
  {
    if a + b == a + c {
      assert b == (a + b)[|a|..] && c == (a + c)[|a|..];
    }
  }
}
