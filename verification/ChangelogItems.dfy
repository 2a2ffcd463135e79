// Layers 3 and 4 against each other: what the quote-blind bracket counter and
// the quote automaton make of a printed items array.

module ChangelogItems {
  import opened Text
  import opened ChangelogParser
  import opened ChangelogPrinter

  // ---- The bracket counter over a concatenation ---------------------------

  lemma {:induction false} DepthConcat(a: string, b: string, d: nat)
    ensures Depth(a + b, d) == Depth(b, Depth(a, d))
  {
    if a == "" {
      assert a + b == b;
    } else if d > 0 {
      assert (a + b)[1..] == a[1..] + b;
      DepthConcat(a[1..], b, Nest(a[0], d));
    }
  }

  predicate NoBracket(s: string) {
    forall i | 0 <= i < |s| :: s[i] != '[' && s[i] != ']'
  }

  lemma {:induction false} DepthPlain(s: string, d: nat)
    requires NoBracket(s)
    ensures Depth(s, d) == d
  {
    if d > 0 && s != "" {
      DepthPlain(s[1..], d);
    }
  }

  lemma {:induction false} CloseConcat(a: string, b: string, d: nat)
    requires d > 0
    ensures Depth(a, d) > 0 ==> CloseLen(a + b, d) == |a| + CloseLen(b, Depth(a, d))
    ensures Depth(a, d) == 0 ==> 0 < CloseLen(a + b, d) <= |a|
  {
    if a == "" {
      assert a + b == b;
    } else {
      assert (a + b)[1..] == a[1..] + b;
      var d' := Nest(a[0], d);
      if d' > 0 {
        CloseConcat(a[1..], b, d');
      }
    }
  }

  lemma EnclosedConcat(a: string, b: string, d: nat)
    requires d > 0 && Depth(a, d) > 0 && b != ""
    ensures Enclosed(a + b, d) == a + Enclosed(b, Depth(a, d))
  {
    CloseConcat(a, b, d);
  }

  lemma EnclosedFalls(a: string, b: string, d: nat) returns (n: nat)
    requires d > 0 && Depth(a, d) == 0
    ensures n < |a| && Enclosed(a + b, d) == a[..n]
  {
    CloseConcat(a, b, d);
    n := CloseLen(a + b, d) - 1;
  }

  // ---- The automaton over a concatenation ------------------------------------

  predicate NoQuote(s: string) {
    forall i | 0 <= i < |s| :: s[i] != '\'' && s[i] != '\\'
  }

  // Outside a string the current item is dead.
  lemma {:induction false} CurrentDead(s: string, c: string, c': string, e: bool)
    ensures Strings(s, false, c, e) == Strings(s, false, c', e)
  {
    if s != "" {
      if e {
        CurrentDead(s[1..], c + [s[0]], c' + [s[0]], false);
      } else if s[0] == '\\' {
        CurrentDead(s[1..], c, c', true);
      } else if s[0] != '\'' {
        CurrentDead(s[1..], c, c', false);
      }
    }
  }

  lemma {:induction false} StringsPlain(u: string, r: string, c: string)
    requires NoQuote(u)
    ensures Strings(u + r, false, c, false) == Strings(r, false, c, false)
  {
    if u == "" {
      assert u + r == r;
    } else {
      assert (u + r)[1..] == u[1..] + r;
      StringsPlain(u[1..], r, c);
    }
  }

  // ---- Literals ----------------------------------------------------------------

  // The text between a literal's quotes: a backslash takes the character behind
  // it, and no quote stands alone.
  predicate Literal(b: string) {
    b != "" ==>
      if b[0] == '\\' then |b| >= 2 && Literal(b[2..]) else b[0] != '\'' && Literal(b[1..])
  }

  // What the script reads of it.
  function Unescape(b: string): string
    requires Literal(b)
  {
    if b == "" then ""
    else if b[0] == '\\' then [b[1]] + Unescape(b[2..])
    else [b[0]] + Unescape(b[1..])
  }

  lemma {:induction false} EscapeIsLiteral(x: string)
    ensures Literal(Escape(x)) && Unescape(Escape(x)) == x
  {
    if x != "" {
      EscapeIsLiteral(x[1..]);
      var e, t := Escape(x), Escape(x[1..]);
      if x[0] == '\'' || x[0] == '\\' {
        assert e[2..] == t;
      } else {
        assert e[1..] == t;
      }
      assert [x[0]] + x[1..] == x;
    }
  }

  // Escaping hides no bracket from the counter and adds none.
  lemma {:induction false} DepthLiteral(b: string, d: nat)
    requires Literal(b)
    ensures Depth(b, d) == Depth(Unescape(b), d)
  {
    if b != "" && d > 0 {
      var n := if b[0] == '\\' then 2 else 1;
      var rest := Unescape(b[n..]);
      assert ([b[n - 1]] + rest)[1..] == rest;
      DepthLiteral(b[n..], Nest(b[n - 1], d));
      if n == 2 {
        assert b[1..][1..] == b[2..];
      }
    }
  }

  // Only text with something else than spaces in it is kept.
  lemma PushedIs(x: string)
    ensures Pushed(x) == NonBlank([x]) == if HasText(x) then [x] else []
  {
  }

  lemma NonBlankFirst(items: seq<string>)
    requires items != []
    ensures NonBlank(items) == NonBlank([items[0]]) + NonBlank(items[1..])
  {
    hide HasText;
    assert [items[0]][1..] == [];
    assert NonBlank([]) == [];
  }

  // A literal gives its text, whatever follows it, unless that is only spaces.
  lemma {:induction false} StringsQuoted(b: string, r: string, c: string)
    requires Literal(b)
    ensures Strings(b + ("'" + r), true, c, false) == NonBlank([c + Unescape(b)]) + Strings(r, false, "", false)
  {
    hide Pushed, NonBlank;
    if b == "" {
      PushedIs(c);
      var t := b + ("'" + r);
      assert t == "'" + r && t[1..] == r && c + "" == c;
      CurrentDead(r, c, "", false);
    } else if b[0] == '\\' {
      StringsEscaped(b, "'" + r, c);
      StringsQuoted(b[2..], r, c + [b[1]]);
      assert c + [b[1]] + Unescape(b[2..]) == c + Unescape(b);
    } else {
      StringsChar(b, "'" + r, c);
      StringsQuoted(b[1..], r, c + [b[0]]);
      assert c + [b[0]] + Unescape(b[1..]) == c + Unescape(b);
    }
  }

  lemma StringsChar(b: string, r: string, c: string)
    requires b != "" && b[0] != '\'' && b[0] != '\\'
    ensures Strings(b + r, true, c, false) == Strings(b[1..] + r, true, c + [b[0]], false)
  {
    assert (b + r)[1..] == b[1..] + r;
  }

  lemma StringsEscaped(b: string, r: string, c: string)
    requires |b| >= 2 && b[0] == '\\'
    ensures Strings(b + r, true, c, false) == Strings(b[2..] + r, true, c + [b[1]], false)
  {
    var t := b + r;
    assert t[1..][0] == b[1] && t[1..][1..] == b[2..] + r;
  }

  lemma CutSplit(b: string, n: nat, k: nat)
    requires k <= n <= |b|
    ensures b[..n] == b[..k] + b[k..][..n - k]
    ensures b[..k][k..] + b[k..][..n - k] == b[k..][..n - k]
  {
  }

  // A literal cut before its closing quote gives nothing.
  lemma {:induction false} StringsCut(b: string, n: nat, c: string)
    requires Literal(b) && n <= |b|
    ensures Strings(b[..n], true, c, false) == []
  {
    if n == 1 && b[0] == '\\' {
      assert b[..1] == "\\" && b[..1][1..] == "";
    } else if n > 0 && b[0] == '\\' {
      hide Strings;
      CutSplit(b, n, 2);
      StringsEscaped(b[..2], b[2..][..n - 2], c);
      StringsCut(b[2..], n - 2, c + [b[1]]);
    } else if n > 0 {
      hide Strings;
      CutSplit(b, n, 1);
      StringsChar(b[..1], b[1..][..n - 1], c);
      StringsCut(b[1..], n - 1, c + [b[0]]);
    }
  }

  // ---- An array of literals -------------------------------------------------------

  // Whatever stands between literals: line ends, commas, comments, as long as
  // it holds neither quotes, backslashes nor brackets.
  predicate Filler(s: string) {
    NoBracket(s) && NoQuote(s)
  }

  predicate Fillers(gaps: seq<string>) {
    forall i | 0 <= i < |gaps| :: Filler(gaps[i])
  }

  predicate Literals(bodies: seq<string>) {
    forall i | 0 <= i < |bodies| :: Literal(bodies[i])
  }

  function Texts(bodies: seq<string>): seq<string>
    requires Literals(bodies)
  {
    if bodies == [] then [] else [Unescape(bodies[0])] + Texts(bodies[1..])
  }

  // Each literal with the gap in front of it.
  function ArrayText(gaps: seq<string>, bodies: seq<string>): string
    requires |gaps| == |bodies|
  {
    if bodies == [] then "" else LiteralText(gaps[0], bodies[0]) + ArrayText(gaps[1..], bodies[1..])
  }

  function LiteralText(gap: string, body: string): string {
    gap + ("'" + (body + "'"))
  }

  lemma StringsItem(gap: string, b: string, r: string)
    requires Filler(gap) && Literal(b)
    ensures Strings(LiteralText(gap, b) + r, false, "", false)
         == NonBlank([Unescape(b)]) + Strings(r, false, "", false)
  {
    hide NonBlank, Literal, Unescape;
    var body := b + ("'" + r);
    assert LiteralText(gap, b) + r == gap + ("'" + body);
    StringsPlain(gap, "'" + body, "");
    assert ("'" + body)[1..] == body;
    StringsQuoted(b, r, "");
    assert "" + Unescape(b) == Unescape(b);
  }

  lemma StringsItemCut(gap: string, b: string, n: nat)
    requires Filler(gap) && Literal(b) && n <= |gap| + 1 + |b|
    ensures Strings((gap + ("'" + b))[..n], false, "", false) == []
  {
    hide Literal;
    var t, g := (gap + ("'" + b))[..n], |gap|;
    if n <= g {
      assert t == gap[..n] + "";
      StringsPlain(gap[..n], "", "");
    } else {
      var body := b[..n - g - 1];
      assert t == gap + ("'" + body);
      StringsPlain(gap, "'" + body, "");
      assert ("'" + body)[1..] == body;
      StringsCut(b, n - g - 1, "");
    }
  }

  lemma DepthItem(gap: string, b: string, d: nat)
    requires Filler(gap) && Literal(b)
    ensures Depth(LiteralText(gap, b), d) == Depth(Unescape(b), d)
    ensures Depth(gap + ("'" + b), d) == Depth(Unescape(b), d)
  {
    hide Literal, Unescape;
    var open := gap + "'";
    assert LiteralText(gap, b) == (open + b) + "'" && gap + ("'" + b) == open + b;
    DepthPlain(open, d);
    DepthConcat(open, b, d);
    DepthLiteral(b, d);
    DepthConcat(open + b, "'", d);
    DepthPlain("'", Depth(b, d));
  }

  // The items in front of the one inside which the counter closes the array.
  function Survivors(items: seq<string>, d: nat): seq<string> {
    if items == [] || Depth(items[0], d) == 0 then []
    else [items[0]] + Survivors(items[1..], Depth(items[0], d))
  }

  lemma {:induction false} ZeroStays(items: seq<string>)
    ensures DepthOver(items, 0) == 0
  {
    if items != [] {
      ZeroStays(items[1..]);
    }
  }

  // What is read from any well-quoted array and any text behind it: the
  // surviving items, then, if the counter is still open, whatever that text
  // yields.
  lemma {:induction false} ReadLiterals(gaps: seq<string>, bodies: seq<string>, t: string, d: nat)
    requires |gaps| == |bodies| && Fillers(gaps) && Literals(bodies) && d > 0 && t != ""
    ensures var items := Texts(bodies);
            Strings(Enclosed(ArrayText(gaps, bodies) + t, d), false, "", false)
            == NonBlank(Survivors(items, d))
               + if DepthOver(items, d) == 0 then [] else Strings(Enclosed(t, DepthOver(items, d)), false, "", false)
    decreases |bodies|
  {
    hide Filler, Literal, Unescape, HasText;
    if bodies == [] {
      assert ArrayText(gaps, bodies) + t == t;
    } else {
      var g, b, x := gaps[0], bodies[0], Unescape(bodies[0]);
      var more := ArrayText(gaps[1..], bodies[1..]);
      var items, later := Texts(bodies), Texts(bodies[1..]);
      assert items[0] == x && items[1..] == later;
      Assoc(LiteralText(g, b), more, t);
      DepthItem(g, b, d);
      var d' := Depth(x, d);
      if d' == 0 {
        ZeroStays(later);
        ClosedInside(g, b, more + t, d);
      } else {
        EnclosedConcat(LiteralText(g, b), more + t, d);
        StringsItem(g, b, Enclosed(more + t, d'));
        ReadLiterals(gaps[1..], bodies[1..], t, d');
        var s := Survivors(later, d');
        assert ([x] + s)[1..] == s;
        NonBlankFirst([x] + s);
        Assoc(NonBlank([x]), NonBlank(s),
              if DepthOver(items, d) == 0 then [] else Strings(Enclosed(t, DepthOver(items, d)), false, "", false));
      }
    }
  }

  // Closed inside a literal, the array yields nothing more.
  lemma ClosedInside(gap: string, b: string, r: string, d: nat)
    requires Filler(gap) && Literal(b) && d > 0 && Depth(Unescape(b), d) == 0
    ensures Strings(Enclosed(LiteralText(gap, b) + r, d), false, "", false) == []
  {
    hide Filler, Literal, Unescape;
    var front := gap + ("'" + b);
    DepthItem(gap, b, d);
    assert LiteralText(gap, b) + r == front + ("'" + r);
    var n := EnclosedFalls(front, "'" + r, d);
    StringsItemCut(gap, b, n);
  }

  // ---- Scanner agreement -------------------------------------------------------

  function Net(s: string): int {
    if s == "" then 0 else (if s[0] == '[' then 1 else if s[0] == ']' then -1 else 0) + Net(s[1..])
  }

  // No prefix of s closes more brackets than it opens, by more than slack.
  ghost predicate NeverBelow(s: string, slack: int) {
    forall p | 0 <= p <= |s| :: slack + Net(s[..p]) >= 0
  }

  lemma {:induction false} DepthIsNet(s: string, d: nat)
    requires d > 0
    ensures Depth(s, d) > 0 <==> NeverBelow(s, d - 1)
    ensures Depth(s, d) > 0 ==> Depth(s, d) == d + Net(s)
  {
    if s == "" {
      assert forall p | 0 <= p <= |s| :: s[..p] == "";
    } else {
      assert forall p | 1 <= p <= |s| :: s[..p][0] == s[0] && s[..p][1..] == s[1..][..p - 1];
      assert s[..0] == "";
      var d' := Nest(s[0], d);
      if d' > 0 {
        DepthIsNet(s[1..], d');
        forall p | 0 <= p <= |s[1..]|
          ensures d - 1 + Net(s[..p + 1]) == d' - 1 + Net(s[1..][..p])
        {
          assert s[..p + 1][1..] == s[1..][..p];
        }
        if NeverBelow(s, d - 1) {
          assert NeverBelow(s[1..], d' - 1);
        }
        if NeverBelow(s[1..], d' - 1) {
          forall p | 0 <= p <= |s| ensures d - 1 + Net(s[..p]) >= 0 {
            if p > 0 {
              assert d' - 1 + Net(s[1..][..p - 1]) >= 0;
            }
          }
        }
      } else {
        assert s[..1][1..] == "";
        assert d - 1 + Net(s[..1]) < 0;
      }
    }
  }

  lemma {:induction false} DepthOfArray(gaps: seq<string>, bodies: seq<string>, d: nat)
    requires |gaps| == |bodies| && Fillers(gaps) && Literals(bodies)
    ensures Depth(ArrayText(gaps, bodies), d) == Depth(Flatten(Texts(bodies)), d)
    decreases |bodies|
  {
    hide Filler, Literal, Unescape;
    if bodies != [] {
      var x, more := Unescape(bodies[0]), Texts(bodies[1..]);
      assert Texts(bodies)[1..] == more;
      DepthConcat(LiteralText(gaps[0], bodies[0]), ArrayText(gaps[1..], bodies[1..]), d);
      DepthConcat(x, Flatten(more), d);
      DepthItem(gaps[0], bodies[0], d);
      DepthOfArray(gaps[1..], bodies[1..], Depth(x, d));
    }
  }

  // On any well-quoted array the counter stops at the array's own bracket
  // exactly when the brackets in the items, read one after the other, balance
  // (or the text ends there); it stops before it when they ever go negative,
  // and runs past it when they end positive and there is text to run into.
  lemma ScannerAgreement(gaps: seq<string>, bodies: seq<string>, end: string, rest: string)
    requires |gaps| == |bodies| && Fillers(gaps) && Literals(bodies) && Filler(end)
    ensures var stop := CloseLen(ArrayText(gaps, bodies) + (end + ("]" + rest)), 1);
            var own := |ArrayText(gaps, bodies)| + |end| + 1;
            var all := Flatten(Texts(bodies));
            && (stop == own <==> NeverBelow(all, 0) && (Net(all) == 0 || rest == ""))
            && (stop < own <==> !NeverBelow(all, 0))
            && (stop > own <==> NeverBelow(all, 0) && Net(all) > 0 && rest != "")
  {
    var a, b, all := ArrayText(gaps, bodies), end + ("]" + rest), Flatten(Texts(bodies));
    DepthOfArray(gaps, bodies, 1);
    DepthIsNet(all, 1);
    CloseConcat(a, b, 1);
    if Depth(a, 1) > 0 {
      EndStops(end, rest, Depth(a, 1));
    }
    hide ArrayText, Depth, Texts;
  }

  // Up to the bracket nothing counts; behind it the counter goes on if it is open.
  lemma EndStops(end: string, rest: string, d: nat)
    requires d > 0 && Filler(end)
    ensures CloseLen(end + ("]" + rest), d) == |end| + 1 + CloseLen(rest, d - 1)
    ensures d > 1 && rest != "" ==> CloseLen(rest, d - 1) > 0
  {
    DepthPlain(end, d);
    CloseConcat(end, "]" + rest, d);
    assert ("]" + rest)[1..] == rest;
    assert CloseLen("]" + rest, d) == 1 + CloseLen(rest, d - 1);
  }

  // ---- The printed array -----------------------------------------------------------

  const ITEM_PAD := "          "

  function Escapes(items: seq<string>): seq<string> {
    if items == [] then [] else [Escape(items[0])] + Escapes(items[1..])
  }

  function PrintedGaps(n: nat, lead: string): seq<string> {
    if n == 0 then [] else [lead + ITEM_PAD] + PrintedGaps(n - 1, ",\n")
  }

  lemma {:induction false} EscapesAre(items: seq<string>)
    ensures |Escapes(items)| == |items| && Literals(Escapes(items)) && Texts(Escapes(items)) == items
  {
    if items != [] {
      EscapeIsLiteral(items[0]);
      EscapesAre(items[1..]);
      var more := Escapes(items[1..]);
      assert Escapes(items)[1..] == more;
    }
  }

  lemma {:induction false} PrintedGapsAre(n: nat, lead: string)
    requires Filler(lead)
    ensures |PrintedGaps(n, lead)| == n && Fillers(PrintedGaps(n, lead))
  {
    if n > 0 {
      assert Filler(lead + ITEM_PAD) && Filler(",\n");
      PrintedGapsAre(n - 1, ",\n");
    }
  }

  // The printer's array is an array of literals.
  lemma {:induction false} PrintedIsArray(items: seq<string>, lead: string, t: string)
    requires Filler(lead) && |PrintedGaps(|items|, lead)| == |Escapes(items)|
    ensures lead + (ItemsText(items) + t)
         == ArrayText(PrintedGaps(|items|, lead), Escapes(items)) + ((if items == [] then lead else ",\n") + t)
  {
    if items == [] {
      assert ItemsText(items) + t == t;
    } else {
      PrintedGapsAre(|items| - 1, ",\n");
      EscapesAre(items[1..]);
      PrintedIsArray(items[1..], ",\n", t);
      var gaps, bodies := PrintedGaps(|items|, lead), Escapes(items);
      var first, more := LiteralText(lead + ITEM_PAD, Escape(items[0])), ArrayText(gaps[1..], bodies[1..]);
      assert gaps[1..] == PrintedGaps(|items| - 1, ",\n") && bodies[1..] == Escapes(items[1..]);
      PrintedItem(lead, items[0], ItemsText(items[1..]), t);
      hide LiteralText, ItemText, Escape;
      assert lead + (ItemsText(items) + t) == first + (more + (",\n" + t));
      Assoc(first, more, ",\n" + t);
      assert ArrayText(gaps, bodies) == first + more;
    }
  }

  lemma PrintedItem(lead: string, x: string, more: string, t: string)
    ensures lead + ((ItemText(x) + more) + t) == LiteralText(lead + ITEM_PAD, Escape(x)) + (",\n" + (more + t))
  {
    assert ItemText(x) == ITEM_PAD + ("'" + (Escape(x) + ("'" + ",\n")));
    hide ItemText, Escape;
    PrintedRegroup(lead, ITEM_PAD, Escape(x), more, t);
  }

  lemma PrintedRegroup(lead: string, pad: string, body: string, more: string, t: string)
    ensures lead + (((pad + ("'" + (body + ("'" + ",\n")))) + more) + t)
         == ((lead + pad) + ("'" + (body + "'"))) + (",\n" + (more + t))
  {
    var q := body + ("'" + ",\n");
    assert lead + (((pad + ("'" + q)) + more) + t) == (lead + pad) + ("'" + (q + (more + t)));
    assert q + (more + t) == (body + "'") + (",\n" + (more + t));
  }

  // A printed item cut off in front of its closing quote yields nothing.
  lemma CutItemReadsNothing(x: string, d: nat)
    requires d > 0
    ensures Strings(Enclosed("          '" + Escape(x), d), false, "", false) == []
  {
    hide Strings, Escape, CloseLen;
    var t := "          '" + Escape(x);
    PadJoins(Escape(x));
    EscapeIsLiteral(x);
    var n := CloseLen(t, d);
    PadIsFiller();
    hide ITEM_PAD, Literal, Filler;
    StringsItemCut(ITEM_PAD, Escape(x), if n == 0 then 0 else n - 1);
  }

  lemma PadJoins(r: string)
    ensures "          '" + r == ITEM_PAD + ("'" + r)
  {
  }

  lemma PadIsFiller()
    ensures Filler(ITEM_PAD)
  {
  }

  // What is read from a printed array and any text behind it.
  lemma ReadItems(items: seq<string>, t: string, d: nat)
    requires d > 0 && t != ""
    ensures Strings(Enclosed(ItemsText(items) + t, d), false, "", false)
         == NonBlank(Survivors(items, d))
            + if DepthOver(items, d) == 0 then [] else Strings(Enclosed(t, DepthOver(items, d)), false, "", false)
  {
    hide Survivors, DepthOver, Enclosed, Strings, ItemsText, NonBlank, Literal, ArrayText;
    var gaps, bodies := PrintedGaps(|items|, ""), Escapes(items);
    var foot := if items == [] then "" else ",\n";
    PrintedGapsAre(|items|, "");
    EscapesAre(items);
    PrintedIsArray(items, "", t);
    ReadLiterals(gaps, bodies, foot + t, d);
    assert "" + (ItemsText(items) + t) == ItemsText(items) + t;
    var open := DepthOver(items, d);
    if open > 0 {
      DepthPlain(foot, open);
      EnclosedConcat(foot, t, open);
      StringsPlain(foot, Enclosed(t, open), "");
    }
  }

  // ---- An item that spans lines ---------------------------------------------------------

  lemma {:induction false} PlainIsLiteral(x: string, more: string)
    requires NoQuote(x) && Literal(more)
    ensures Literal(x + more) && Unescape(x + more) == x + Unescape(more)
  {
    if x == "" {
      assert x + more == more;
    } else {
      PlainIsLiteral(x[1..], more);
      CharIsLiteral(x[0], x[1..] + more);
      hide Literal, Unescape;
      assert x + more == [x[0]] + (x[1..] + more);
      assert [x[0]] + (x[1..] + Unescape(more)) == x + Unescape(more);
    }
  }

  lemma CharIsLiteral(c: char, b: string)
    requires c != '\'' && c != '\\' && Literal(b)
    ensures Literal([c] + b) && Unescape([c] + b) == [c] + Unescape(b)
  {
    assert ([c] + b)[1..] == b;
  }

  // A line continuation, which a single-quoted TypeScript literal may hold,
  // reads as an item with a line end in it, whatever text surrounds it.
  lemma ContinuedLine(x: string, y: string)
    requires NoQuote(x) && NoQuote(y) && !Blank(x + ("\n" + y))
    ensures Strings(LiteralText("", x + ("\\\n" + y)), false, "", false) == [x + ("\n" + y)]
  {
    var more := "\\\n" + y;
    PlainIsLiteral(y, "");
    assert y + "" == y && more[2..] == y;
    PlainIsLiteral(x, more);
    hide Literal, Unescape, Blank;
    StringsItem("", x + more, "");
    assert LiteralText("", x + more) + "" == LiteralText("", x + more);
  }
}
