// Layer 2 on printed sections, whole or cut short by a false version match.

module ChangelogSections {
  import opened Text
  import opened FieldScan
  import opened ChangelogParser
  import opened ChangelogPrinter
  import opened ChangelogItems

  // ---- One section -------------------------------------------------------------

  lemma SectionsSkip(a: string, r: string)
    requires Next(TypeField, a + r) == |a| + Next(TypeField, r)
    ensures SectionsIn(a + r) == SectionsIn(r)
  {
    hide Next, MatchAt, ItemsAt, Opened;
    assert (a + r)[|a| + Next(TypeField, r)..] == r[Next(TypeField, r)..];
  }

  lemma {:induction false} FindSkip(w: string, u: string, r: string)
    requires |w| >= 2
    requires forall i | 0 <= i < |u| :: u[i] == w[0] ==> i + 1 < |u| && u[i + 1] != w[1]
    ensures Find(w, u + r) == |u| + Find(w, r)
  {
    if u == "" {
      assert u + r == r;
    } else {
      var t := u + r;
      assert u[0] == t[0] && (1 < |u| ==> u[1] == t[1]);
      assert t[1..] == u[1..] + r;
      FindSkip(w, u[1..], r);
    }
  }

  // A type's name hides no `items:`, whatever its letters.
  lemma {:induction false} FindBehindKind(kind: string, r: string)
    requires AllWord(kind)
    ensures Find("items:", kind + ("'" + r)) == |kind| + 1 + Find("items:", r)
  {
    var t, w := kind + ("'" + r), "items:";
    if kind == "" {
      assert t[0] == '\'' && w[0] == 'i' && t[1..] == r;
    } else {
      assert t[|kind|] == '\'' && (5 < |kind| ==> t[5] == kind[5] && IsWord(t[5]));
      assert w[5] == ':' && forall i | 0 <= i < 6 :: w[i] != '\'';
      assert !(w <= t);
      assert t[1..] == kind[1..] + ("'" + r);
      FindBehindKind(kind[1..], r);
    }
  }

  lemma FindItems(kind: string, tail: string)
    requires AllWord(kind) && "items:" <= tail
    ensures var m := "type: '" + (kind + ("'" + (",\n        " + tail)));
            m[Find("items:", m)..] == tail
  {
    hide AllWord;
    var listing := ",\n        ";
    var rest := kind + ("'" + (listing + tail));
    FindSkip("items:", "type: '", rest);
    FindBehindKind(kind, listing + tail);
    FindSkip("items:", listing, tail);
    assert Find("items:", tail) == 0;
    hide Find;
    var front := "type: '" + kind + "'" + listing;
    assert |front| == 7 + |kind| + 1 + 10;
    assert "type: '" + rest == front + tail;
  }

  lemma ItemsBehindOpen(body: string)
    requires body != ""
    ensures ItemsBehind("\n" + body) == Strings(Enclosed(body, 1), false, "", false)
  {
    DepthPlain("\n", 1);
    EnclosedConcat("\n", body, 1);
    StringsPlain("\n", Enclosed(body, 1), "");
  }

  lemma ItemsAtHead(kind: string, body: string)
    requires AllWord(kind) && body != ""
    ensures ItemsAt("type: '" + (kind + ("'" + (",\n        items: [\n" + body))))
         == Strings(Enclosed(body, 1), false, "", false)
  {
    var tail := "items: [\n" + body;
    var m := "type: '" + (kind + ("'" + (",\n        items: [\n" + body)));
    assert ",\n        items: [\n" + body == ",\n        " + tail;
    FindItems(kind, tail);
    assert tail == "items: " + ("[" + ("\n" + body));
    NoBracketBefore();
    OpenBracket("items: ", "\n" + body);
    assert tail[8..] == "\n" + body;
    ItemsBehindOpen(body);
    hide Find, ItemsBehind, Strings, Enclosed, NoBracket, AllWord;
  }

  lemma NoBracketBefore()
    ensures NoBracket("items: ")
  {
  }

  lemma {:induction false} OpenBracket(u: string, r: string)
    requires NoBracket(u)
    ensures Find("[", u + ("[" + r)) == |u|
  {
    var t := u + ("[" + r);
    if u == "" {
      assert t == "[" + r;
    } else {
      assert t[0] == u[0] && t[1..] == u[1..] + ("[" + r);
      OpenBracket(u[1..], r);
    }
  }

  lemma KindMatches(kind: string, r: string)
    requires AllWord(kind) && kind != ""
    ensures var m := "type: '" + (kind + ("'" + r));
            MatchAt(TypeField, m) && Capture(TypeField, m) == kind && Behind(TypeField, m) == r
  {
    TypeWord();
    hide WordAndSpace, MatchAt, Opened, Behind, Capture;
    FieldMatches(TypeField, "type: ", kind, r);
    assert "type: " + "'" + (kind + ("'" + r)) == "type: '" + (kind + ("'" + r));
  }

  lemma TypeWord()
    ensures WordAndSpace(TypeField, "type: ")
  {
  }

  lemma TypeMatchFirst(m: string)
    requires MatchAt(TypeField, m)
    ensures SectionsIn(m) == Emit(Capture(TypeField, m), ItemsAt(m)) + SectionsIn(Behind(TypeField, m))
  {
  }

  // A section head, and whatever comes instead of its items.
  lemma HeadOutcome(kind: string, body: string)
    requires AllWord(kind) && kind != "" && body != ""
    ensures SectionsIn(SectionHead(kind) + body)
         == Emit(kind, Strings(Enclosed(body, 1), false, "", false)) + SectionsIn(body)
  {
    hide MatchAt, ItemsAt, Next, SectionsIn, Emit, AllWord, Opened;
    var listing, pad := ",\n        items: [\n", "      {\n        ";
    var m := "type: '" + (kind + ("'" + (listing + body)));
    assert SectionHead(kind) + body == pad + m;
    SkipPlain(TypeField, pad, m);
    SectionsSkip(pad, m);
    KindMatches(kind, listing + body);
    ItemsAtHead(kind, body);
    TypeMatchFirst(m);
    SkipPlain(TypeField, listing, body);
    SectionsSkip(listing, body);
  }

  // ---- Items hide no type ----------------------------------------------------------

  lemma {:induction false} ItemsHideNoType(items: seq<string>, r: string)
    ensures Next(TypeField, ItemsText(items) + r) == |ItemsText(items)| + Next(TypeField, r)
  {
    if items == [] {
      assert ItemsText(items) + r == r;
    } else {
      var x, t := items[0], ItemsText(items[1..]) + r;
      Assoc(ItemText(x), ItemsText(items[1..]), r);
      var pad := "          '";
      assert ItemText(x) + t == pad + (Escape(x) + "'" + (",\n" + t));
      SkipPlain(TypeField, pad, Escape(x) + "'" + (",\n" + t));
      assert !ValueAhead(TypeField, ",\n" + t);
      SkipQuoted(TypeField, x, ",\n" + t);
      SkipPlain(TypeField, ",\n", t);
      ItemsHideNoType(items[1..], r);
    }
  }

  lemma FootHidesNoType(r: string)
    ensures Next(TypeField, SECTION_FOOT + r) == |SECTION_FOOT| + Next(TypeField, r)
  {
    SkipPlain(TypeField, SECTION_FOOT, r);
  }

  lemma BodyOutcome(items: seq<string>, r: string)
    ensures SectionsIn(ItemsText(items) + (SECTION_FOOT + r)) == SectionsIn(r)
  {
    hide SECTION_FOOT, Next, SectionsIn, ItemsText;
    ItemsHideNoType(items, SECTION_FOOT + r);
    SectionsSkip(ItemsText(items), SECTION_FOOT + r);
    FootHidesNoType(r);
    SectionsSkip(SECTION_FOOT, r);
  }

  lemma CutBodyOutcome(items: seq<string>, y: string)
    ensures SectionsIn(ItemsText(items) + ("          '" + Escape(y))) == []
  {
    hide ItemsText, SectionsIn, Next, MatchAt, Escape;
    var pad := "          '";
    ItemsHideNoType(items, pad + Escape(y));
    SectionsSkip(ItemsText(items), pad + Escape(y));
    PadSkips(Escape(y));
    SectionsSkip(pad, Escape(y));
    CutHoldsNone(y);
  }

  lemma PadSkips(r: string)
    ensures Next(TypeField, "          '" + r) == 11 + Next(TypeField, r)
  {
    SkipPlain(TypeField, "          '", r);
  }

  lemma CutHoldsNone(y: string)
    ensures SectionsIn(Escape(y)) == []
  {
    SkipCut(TypeField, y);
    hide Next, Escape;
    assert Escape(y)[|Escape(y)|..] == "";
    assert !MatchAt(TypeField, "");
  }

  // ---- A list of sections, whole or cut ------------------------------------------

  // How a block ends: behind all its sections, or inside a literal, in front of
  // the word of a false version match.
  datatype End = Whole(tail: string) | Cut(section: nat, item: nat, part: string)

  predicate ValidEnd(ss: seq<Section>, end: End) {
    match end
    case Whole(tail) => tail != "" && NoQuote(tail) && NoStart(TypeField, tail)
    case Cut(s, k, part) => s < |ss| && k < |ss[s].items| && part < ss[s].items[k] && !Blank(ss[s].items[k])
  }

  function Shown(ss: seq<Section>, end: End): string {
    match end
    case Whole(tail) => SectionsText(ss) + tail
    case Cut(s, k, part) =>
      if ss == [] then ""
      else if s == 0 then SectionHead(ss[0].kind) + (ItemsText(Front(ss[0].items, k)) + ("          '" + Escape(part)))
      else SectionText(ss[0]) + Shown(ss[1..], Cut(s - 1, k, part))
  }

  function Front(items: seq<string>, k: nat): seq<string> {
    if k <= |items| then items[..k] else items
  }

  function Inner(end: End): End {
    if end.Cut? && end.section > 0 then end.(section := end.section - 1) else end
  }

  // Past its first section, a shown list is a shown list.
  lemma ShownCons(ss: seq<Section>, end: End)
    requires ss != [] && ValidEnd(ss, end) && (end.Cut? ==> end.section > 0)
    ensures ValidEnd(ss[1..], Inner(end))
    ensures Shown(ss, end) == SectionText(ss[0]) + Shown(ss[1..], Inner(end))
  {
    if end.Whole? {
      Assoc(SectionText(ss[0]), SectionsText(ss[1..]), end.tail);
    }
  }

  // What the parser reads for one section with the text t behind its foot.
  function ReadOf(s: Section, t: string): seq<string> {
    NonBlank(Survivors(s.items, 1))
    + if DepthOver(s.items, 1) == 0 then []
      else Strings(Enclosed(SECTION_FOOT + t, DepthOver(s.items, 1)), false, "", false)
  }

  lemma SectionOutcome(s: Section, t: string)
    requires WellFormedSection(s)
    ensures SectionsIn(SectionText(s) + t) == Emit(s.kind, ReadOf(s, t)) + SectionsIn(t)
  {
    hide SectionsIn, Emit, Strings, Enclosed, NonBlank, SectionHead;
    var body := ItemsText(s.items) + (SECTION_FOOT + t);
    assert SectionText(s) + t == SectionHead(s.kind) + body;
    HeadOutcome(s.kind, body);
    ReadItems(s.items, SECTION_FOOT + t, 1);
    BodyOutcome(s.items, t);
  }

  lemma CutOutcome(ss: seq<Section>, k: nat, part: string)
    requires ss != [] && WellFormedSection(ss[0]) && ValidEnd(ss, Cut(0, k, part))
    ensures SectionsIn(Shown(ss, Cut(0, k, part)))
         == Emit(ss[0].kind, NonBlank(Survivors(ss[0].items[..k], 1)))
  {
    hide SectionsIn, Emit, NonBlank, SectionHead;
    var items := ss[0].items[..k];
    var t := "          '" + Escape(part);
    HeadOutcome(ss[0].kind, ItemsText(items) + t);
    CutBodyOutcome(items, part);
    ReadItems(items, t, 1);
    if DepthOver(items, 1) > 0 {
      CutItemReadsNothing(part, DepthOver(items, 1));
    }
    hide Escape, Strings, Enclosed, Survivors, DepthOver, ItemsText;
    assert NonBlank(Survivors(items, 1)) + [] == NonBlank(Survivors(items, 1));
  }

  // Balanced: the foot's bracket closes the array. Still open: the foot itself
  // and text without a quote add nothing, a following section adds its type.
  lemma FootCloses(t: string)
    ensures Strings(Enclosed(SECTION_FOOT + t, 1), false, "", false) == []
  {
    var pad, rest := "        ", ",\n      },\n" + t;
    assert SECTION_FOOT == pad + ("]" + ",\n      },\n");
    assert SECTION_FOOT + t == pad + ("]" + rest);
    DepthPlain(pad, 1);
    EnclosedConcat(pad, "]" + rest, 1);
    assert CloseLen("]" + rest, 1) == 1 + CloseLen(rest, 0);
    hide SECTION_FOOT, Enclosed, CloseLen;
    StringsPlain(pad, "", "");
    assert pad + "" == pad;
  }

  lemma FootQuiet(t: string, d: nat)
    requires NoQuote(t)
    ensures Strings(Enclosed(SECTION_FOOT + t, d), false, "", false) == []
  {
    assert NoQuote(SECTION_FOOT);
    var all := SECTION_FOOT + t;
    var u := Enclosed(all, d);
    var n := CloseLen(all, d);
    assert u == all[..if n == 0 then 0 else n - 1];
    hide SECTION_FOOT, Enclosed, CloseLen;
    assert NoQuote(u);
    assert u + "" == u;
    StringsPlain(u, "", "");
  }

  const BETWEEN_TYPES := ",\n      },\n      {\n        type: '"
  const BETWEEN_ITEMS := "'" + ",\n        items: "

  const FOOT_TAIL := ",\n      },\n"
  const HEAD_OPEN := "      {\n        type: '"

  lemma FootAndHead(kind: string, t: string)
    ensures SECTION_FOOT + (SectionHead(kind) + t)
         == "        " + ("]" + (BETWEEN_TYPES + (kind + (BETWEEN_ITEMS + ("[\n" + t)))))
  {
    FootSplits();
    HeadSplits(kind);
    BetweenSplits();
    hide SECTION_FOOT, SectionHead, BETWEEN_TYPES, BETWEEN_ITEMS, FOOT_TAIL, HEAD_OPEN;
    JoinFootAndHead(FOOT_TAIL, HEAD_OPEN, kind, BETWEEN_ITEMS, t);
  }

  lemma BetweenSplits()
    ensures BETWEEN_TYPES == FOOT_TAIL + HEAD_OPEN
  {
  }

  lemma FootSplits()
    ensures SECTION_FOOT == "        " + ("]" + FOOT_TAIL)
  {
  }

  lemma HeadSplits(kind: string)
    ensures SectionHead(kind) == HEAD_OPEN + (kind + (BETWEEN_ITEMS + "[\n"))
  {
    assert ",\n        items: [\n" == ",\n        items: " + "[\n";
    assert "'" + (",\n        items: " + "[\n") == BETWEEN_ITEMS + "[\n";
  }

  lemma JoinFootAndHead(tail: string, open: string, kind: string, items: string, t: string)
    ensures ("        " + ("]" + tail)) + ((open + (kind + (items + "[\n"))) + t)
         == "        " + ("]" + ((tail + open) + (kind + (items + ("[\n" + t)))))
  {
    assert (open + (kind + (items + "[\n"))) + t == open + (kind + (items + ("[\n" + t)));
  }

  lemma EnclosedPlain(u: string, r: string, d: nat)
    requires d > 0 && NoBracket(u) && r != ""
    ensures Enclosed(u + r, d) == u + Enclosed(r, d)
  {
    DepthPlain(u, d);
    EnclosedConcat(u, r, d);
  }

  lemma FootMore(kind: string, t: string, d: nat) returns (more: seq<string>)
    requires d > 1 && AllWord(kind) && kind != ""
    ensures Strings(Enclosed(SECTION_FOOT + (SectionHead(kind) + t), d), false, "", false) == [kind] + more
  {
    FootAndHead(kind, t);
    assert NoBracket(kind) && NoBracket(BETWEEN_TYPES) && NoBracket(BETWEEN_ITEMS);
    hide SECTION_FOOT, SectionHead, BETWEEN_TYPES, BETWEEN_ITEMS, Strings, AllWord;
    var r4 := "[\n" + t;
    var r3 := BETWEEN_ITEMS + r4;
    var r2 := kind + r3;
    var r1 := BETWEEN_TYPES + r2;
    EnclosedPlain("        ", "]" + r1, d);
    assert Depth("]", d) == d - 1 by { assert "]"[1..] == ""; }
    EnclosedConcat("]", r1, d);
    EnclosedPlain(BETWEEN_TYPES, r2, d - 1);
    EnclosedPlain(kind, r3, d - 1);
    EnclosedPlain(BETWEEN_ITEMS, r4, d - 1);
    var e := Enclosed(r4, d - 1);
    more := Strings(e, false, "", false);
    ReadKind(kind, e);
  }

  const UP_TO_QUOTE := "        ],\n      },\n      {\n        type: "
  const AFTER_QUOTE := ",\n        items: "

  lemma Regroup(kind: string, e: string)
    ensures "        " + ("]" + (BETWEEN_TYPES + (kind + (BETWEEN_ITEMS + e))))
         == UP_TO_QUOTE + ("'" + (kind + ("'" + (AFTER_QUOTE + e))))
  {
    UpToQuoteSplits();
    assert BETWEEN_ITEMS == "'" + AFTER_QUOTE;
    hide BETWEEN_TYPES, BETWEEN_ITEMS, UP_TO_QUOTE, AFTER_QUOTE;
    var r := kind + (("'" + AFTER_QUOTE) + e);
    assert "        " + ("]" + (BETWEEN_TYPES + r)) == ("        " + ("]" + BETWEEN_TYPES)) + r;
    assert (UP_TO_QUOTE + "'") + r == UP_TO_QUOTE + ("'" + (kind + ("'" + (AFTER_QUOTE + e))));
  }

  lemma UpToQuoteSplits()
    ensures "        " + ("]" + BETWEEN_TYPES) == UP_TO_QUOTE + "'"
  {
  }

  lemma KindIsKept(kind: string)
    requires AllWord(kind) && kind != ""
    ensures NonBlank([kind]) == [kind] && NoQuote(kind)
  {
    assert IsWord(kind[0]) && !IsSpace(kind[0]);
  }

  lemma OpenString(r: string)
    ensures Strings("'" + r, false, "", false) == Strings(r, true, "", false)
  {
  }

  lemma LayoutIsPlain()
    ensures NoQuote(UP_TO_QUOTE) && NoQuote(AFTER_QUOTE)
  {
  }

  lemma ReadKind(kind: string, e: string)
    requires AllWord(kind) && kind != ""
    ensures Strings("        " + ("]" + (BETWEEN_TYPES + (kind + (BETWEEN_ITEMS + e)))), false, "", false)
         == [kind] + Strings(e, false, "", false)
  {
    hide BETWEEN_TYPES, BETWEEN_ITEMS, UP_TO_QUOTE, AFTER_QUOTE, NonBlank, AllWord, Escape;
    LayoutIsPlain();
    KindIsKept(kind);
    Regroup(kind, e);
    var rest := kind + ("'" + (AFTER_QUOTE + e));
    StringsPlain(UP_TO_QUOTE, "'" + rest, "");
    OpenString(rest);
    hide Strings;
    EscapePlain(kind);
    EscapeIsLiteral(kind);
    StringsQuoted(kind, AFTER_QUOTE + e, "");
    assert "" + kind == kind;
    StringsPlain(AFTER_QUOTE, e, "");
  }

  lemma ReadBalanced(s: Section, t: string)
    requires DepthOver(s.items, 1) == 1
    ensures ReadOf(s, t) == NonBlank(s.items)
  {
    SurvivorsAll(s.items, 1);
    FootCloses(t);
    hide Strings, Enclosed, NonBlank, SECTION_FOOT;
    assert NonBlank(s.items) + [] == NonBlank(s.items);
  }

  lemma ReadOpenLast(s: Section, t: string)
    requires DepthOver(s.items, 1) >= 1 && NoQuote(t)
    ensures ReadOf(s, t) == NonBlank(s.items)
  {
    SurvivorsAll(s.items, 1);
    FootQuiet(t, DepthOver(s.items, 1));
    hide Strings, Enclosed, NonBlank, SECTION_FOOT;
    assert NonBlank(s.items) + [] == NonBlank(s.items);
  }

  lemma ReadOpenMore(s: Section, kind: string, t: string) returns (more: seq<string>)
    requires DepthOver(s.items, 1) > 1 && AllWord(kind) && kind != ""
    ensures ReadOf(s, SectionHead(kind) + t) == NonBlank(s.items) + ([kind] + more)
  {
    SurvivorsAll(s.items, 1);
    more := FootMore(kind, t, DepthOver(s.items, 1));
    hide Strings, Enclosed, NonBlank, SECTION_FOOT, SectionHead;
  }

  lemma {:induction false} SurvivorsAll(items: seq<string>, d: nat)
    requires d > 0
    ensures DepthOver(items, d) > 0 ==> Survivors(items, d) == items
    ensures DepthOver(items, d) == 0 ==> |Survivors(items, d)| < |items|
    ensures Survivors(items, d) <= items
  {
    if items != [] {
      if Depth(items[0], d) == 0 {
        ZeroStays(items[1..]);
      } else {
        SurvivorsAll(items[1..], Depth(items[0], d));
      }
    }
  }
}
