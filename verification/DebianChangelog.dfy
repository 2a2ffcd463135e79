// The Debian changelog step of scripts/prepare-release.js: the file's top
// stanza is rewritten by every release run.

module DebianChangelog {
  import opened Text

  // ---- /^ -- .*\n/m -----------------------------------------------------------

  // How many characters `.*` takes.
  function LineLen(s: string): (n: nat)
    ensures n <= |s|
  {
    if s == "" || IsLineEnd(s[0]) then 0 else 1 + LineLen(s[1..])
  }

  // A signature line stands at the front of s.
  predicate SignatureAt(s: string) {
    " -- " <= s && var n := 4 + LineLen(s[4..]); n < |s| && s[n] == '\n'
  }

  function SignatureLen(s: string): (n: nat)
    requires SignatureAt(s)
    ensures 4 < n <= |s|
  {
    4 + LineLen(s[4..]) + 1
  }

  // The text behind the first signature line; "" when there is none. lineStart
  // says whether `^` matches at the front of s.
  function BehindSignature(s: string, lineStart: bool): string {
    if s == "" then ""
    else if lineStart && SignatureAt(s) then s[SignatureLen(s)..]
    else BehindSignature(s[1..], IsLineEnd(s[0]))
  }

  predicate HasSignature(s: string, lineStart: bool) {
    s != "" && ((lineStart && SignatureAt(s)) || HasSignature(s[1..], IsLineEnd(s[0])))
  }

  // ---- The stanza ------------------------------------------------------------------

  function ItemLines(items: seq<string>): string {
    if items == [] then "" else "  * " + (items[0] + "\n") + ItemLines(items[1..])
  }

  function Head(version: string): string {
    "fluux-messenger (" + (version + "-1) unstable; urgency=medium\n") + "\n"
  }

  // A line per item, or the notice when there are none.
  function Body(version: string, items: seq<string>): string {
    if items == [] then ItemLines(["See release notes for v" + version]) else ItemLines(items)
  }

  function SignatureLine(date: string): string {
    " -- " + ("ProcessOne <contact@process-one.net>  " + date) + "\n"
  }

  datatype StanzaRun = StanzaRun(version: string, items: seq<string>, date: string)

  function Stanza(run: StanzaRun): string {
    Head(run.version) + (Body(run.version, run.items) + ("\n" + SignatureLine(run.date)))
  }

  function Update(content: string, run: StanzaRun): string {
    Stanza(run) + BehindSignature(content, true)
  }

  // ---- Joining a stanza and what is kept --------------------------------------------

  predicate OneLine(s: string) {
    forall i | 0 <= i < |s| :: !IsLineEnd(s[i])
  }

  predicate EndsLine(s: string) {
    s != "" && s[|s| - 1] == '\n'
  }

  lemma {:induction false} LineLenIn(a: string, r: string)
    requires EndsLine(a)
    ensures LineLen(a + r) == LineLen(a) < |a|
  {
    assert (a + r)[1..] == a[1..] + r;
    if |a| > 1 && !IsLineEnd(a[0]) {
      LineLenIn(a[1..], r);
    }
  }

  // A line that ends inside a is a signature line whatever follows a.
  lemma SignatureIn(a: string, r: string)
    requires EndsLine(a)
    ensures SignatureAt(a + r) <==> SignatureAt(a)
    ensures SignatureAt(a) ==> SignatureLen(a + r) == SignatureLen(a)
  {
    var t := a + r;
    if |a| > 4 {
      assert t[4..] == a[4..] + r;
      LineLenIn(a[4..], r);
      assert " -- " <= t <==> " -- " <= a by { assert t[..4] == a[..4]; }
    } else {
      var i := |a| - 1;
      assert t[i] == '\n' && forall k | 0 <= k < 4 :: " -- "[k] != '\n';
      assert !(" -- " <= t) && !(" -- " <= a);
    }
  }

  // Text without a signature line is searched through; otherwise the search
  // ends no later than with it.
  lemma {:induction false} BehindConcat(a: string, r: string, lineStart: bool)
    requires EndsLine(a)
    ensures !HasSignature(a, lineStart) ==> BehindSignature(a + r, lineStart) == BehindSignature(r, true)
    ensures HasSignature(a, lineStart) ==> |r| <= |BehindSignature(a + r, lineStart)|
  {
    SignatureIn(a, r);
    assert (a + r)[0] == a[0] && (a + r)[1..] == a[1..] + r;
    if !(lineStart && SignatureAt(a)) {
      if |a| > 1 {
        BehindConcat(a[1..], r, IsLineEnd(a[0]));
      } else {
        assert a[1..] + r == r && !HasSignature(a[1..], true);
      }
    }
  }

  // Text without a line end is passed over.
  lemma {:induction false} InLine(s: string, t: string)
    requires OneLine(s)
    ensures HasSignature(s + t, false) <==> HasSignature(t, false)
  {
    if s == "" {
      assert s + t == t;
    } else {
      assert (s + t)[1..] == s[1..] + t;
      InLine(s[1..], t);
    }
  }

  lemma {:induction false} LineLenOf(s: string, t: string)
    requires OneLine(s)
    ensures LineLen(s + ("\n" + t)) == |s|
  {
    if s == "" {
      assert s + ("\n" + t) == "\n" + t;
    } else {
      assert (s + ("\n" + t))[1..] == s[1..] + ("\n" + t);
      LineLenOf(s[1..], t);
    }
  }

  // ---- The pieces of a stanza ---------------------------------------------------------

  lemma HeadRegroup(version: string)
    ensures Head(version) == "f" + (("luux-messenger (" + version) + ("-1) unstable; urgency=medium" + "\n\n"))
    ensures EndsLine(Head(version))
  {
  }

  lemma HeadHasNone(version: string)
    requires OneLine(version)
    ensures EndsLine(Head(version)) && !HasSignature(Head(version), true)
  {
    var front, back := "luux-messenger (" + version, "-1) unstable; urgency=medium";
    assert OneLine(front) && OneLine(back);
    HeadRegroup(version);
    hide Head, SignatureAt, OneLine, EndsLine;
    var t := front + (back + "\n\n");
    assert ("f" + t)[1..] == t;
    InLine(front, back + "\n\n");
    InLine(back, "\n\n");
    assert "\n\n"[1..] == "\n" && "\n"[1..] == "";
    NotAtFront("f" + t);
    NotAtFront("\n");
  }

  lemma NotAtFront(s: string)
    requires s != "" && s[0] != ' '
    ensures !SignatureAt(s)
  {
  }

  // An item's own text makes no signature line: there is none behind its first
  // line end.
  predicate Unsigned(item: string) {
    !HasSignature(item + "\n", false)
  }

  lemma ItemLineHas(item: string)
    ensures var a := "  * " + (item + "\n"); EndsLine(a) && (HasSignature(a, true) <==> !Unsigned(item))
  {
    var t := item + "\n";
    var a := "  * " + t;
    assert !SignatureAt(a) by { assert a[1] == ' ' && " -- "[1] == '-'; }
    assert a[1..] == " * " + t;
    InLine(" * ", t);
  }

  lemma {:induction false} LinesBehind(items: seq<string>, r: string)
    ensures (forall i | 0 <= i < |items| :: Unsigned(items[i]))
        ==> BehindSignature(ItemLines(items) + r, true) == BehindSignature(r, true)
    ensures !(forall i | 0 <= i < |items| :: Unsigned(items[i]))
        ==> |r| <= |BehindSignature(ItemLines(items) + r, true)|
  {
    hide Unsigned, HasSignature, SignatureAt;
    if items == [] {
      assert ItemLines(items) + r == r;
    } else {
      var a, rest := "  * " + (items[0] + "\n"), ItemLines(items[1..]) + r;
      Assoc(a, ItemLines(items[1..]), r);
      ItemLineHas(items[0]);
      BehindConcat(a, rest, true);
      LinesBehind(items[1..], r);
      assert forall i | 1 <= i < |items| :: items[i] == items[1..][i - 1];
    }
  }

  lemma SignatureBehind(date: string, rest: string)
    requires OneLine(date)
    ensures BehindSignature(SignatureLine(date) + rest, true) == rest
  {
    var line := "ProcessOne <contact@process-one.net>  " + date;
    var t := SignatureLine(date) + rest;
    assert t == " -- " + (line + ("\n" + rest));
    assert t[4..] == line + ("\n" + rest);
    LineLenOf(line, rest);
    assert t[|line| + 5..] == rest;
  }

  lemma BlankLine(r: string)
    ensures BehindSignature("\n" + r, true) == BehindSignature(r, true)
  {
    assert ("\n" + r)[1..] == r;
    NotAtFront("\n" + r);
  }

  predicate QuietRun(run: StanzaRun) {
    forall i | 0 <= i < |run.items| :: Unsigned(run.items[i])
  }

  lemma NoticeIsQuiet(version: string)
    requires OneLine(version)
    ensures Unsigned("See release notes for v" + version)
  {
    var s := "See release notes for v" + version;
    InLine(s, "\n");
    assert "\n"[1..] == "";
  }

  // The next run never keeps less than followed the stanza, whatever that was,
  // and keeps exactly that if and only if no item spells a signature line.
  lemma StanzaKept(run: StanzaRun, rest: string)
    requires OneLine(run.version) && OneLine(run.date)
    ensures var kept := BehindSignature(Stanza(run) + rest, true);
            if QuietRun(run) then kept == rest else |kept| > |rest|
  {
    hide BehindSignature, HasSignature, SignatureAt, Unsigned, Head, SignatureLine;
    var sig := SignatureLine(run.date) + rest;
    var items := if run.items == [] then ["See release notes for v" + run.version] else run.items;
    var lines := ItemLines(items);
    assert Body(run.version, run.items) == lines;
    assert Stanza(run) + rest == Head(run.version) + (lines + ("\n" + sig));
    HeadHasNone(run.version);
    BehindConcat(Head(run.version), lines + ("\n" + sig), true);
    LinesBehind(items, "\n" + sig);
    BlankLine(sig);
    SignatureBehind(run.date, rest);
    NoticeIsQuiet(run.version);
    if run.items != [] {
      assert QuietRun(run) <==> forall i | 0 <= i < |items| :: Unsigned(items[i]);
    }
  }

  // The next run replaces exactly this stanza if and only if it is quiet.
  lemma StanzaReplaced(run: StanzaRun, rest: string)
    requires OneLine(run.version) && OneLine(run.date)
    ensures BehindSignature(Stanza(run) + rest, true) == rest <==> QuietRun(run)
  {
    hide BehindSignature, Stanza, QuietRun;
    StanzaKept(run, rest);
  }

  // ---- Many releases --------------------------------------------------------------------

  function UpdateAll(content: string, runs: seq<StanzaRun>): string
    decreases |runs|
  {
    if runs == [] then content else UpdateAll(Update(content, runs[0]), runs[1..])
  }

  predicate GoodRuns(runs: seq<StanzaRun>) {
    forall i | 0 <= i < |runs| :: OneLine(runs[i].version) && OneLine(runs[i].date)
  }

  // Every run but the last is quiet.
  predicate QuietHistory(runs: seq<StanzaRun>) {
    forall i | 0 <= i < |runs| - 1 :: QuietRun(runs[i])
  }

  // What the runs keep behind the last stanza only grows, and it grows at the
  // first run that is not quiet.
  lemma {:induction false} HistoryKeeps(content: string, runs: seq<StanzaRun>) returns (kept: string)
    requires runs != [] && GoodRuns(runs)
    ensures UpdateAll(content, runs) == Stanza(runs[|runs| - 1]) + kept
    ensures if QuietHistory(runs) then kept == BehindSignature(content, true)
        else |kept| > |BehindSignature(content, true)|
    decreases |runs|
  {
    hide Stanza, BehindSignature, QuietRun, OneLine;
    kept := BehindSignature(content, true);
    if |runs| == 1 {
      assert runs[1..] == [];
    } else {
      StanzaKept(runs[0], kept);
      assert forall i | 0 <= i < |runs[1..]| :: runs[1..][i] == runs[i + 1];
      kept := HistoryKeeps(Update(content, runs[0]), runs[1..]);
      assert QuietHistory(runs) <==> QuietRun(runs[0]) && QuietHistory(runs[1..]) by {
        assert forall i | 1 <= i < |runs| :: runs[i] == runs[1..][i - 1];
      }
    }
  }

  // After any number of releases the file is the last one's stanza and the
  // original text behind its first signature line, if and only if no item of
  // an earlier release spells a signature line.
  lemma History(content: string, runs: seq<StanzaRun>)
    requires runs != [] && GoodRuns(runs)
    ensures UpdateAll(content, runs) == Stanza(runs[|runs| - 1]) + BehindSignature(content, true)
        <==> QuietHistory(runs)
  {
    hide Stanza, BehindSignature, QuietHistory, GoodRuns, UpdateAll;
    var kept := HistoryKeeps(content, runs);
    var last, text := Stanza(runs[|runs| - 1]), BehindSignature(content, true);
    assert |last + kept| == |last| + |kept| && |last + text| == |last| + |text|;
  }

  // Preparing the same release twice changes nothing, exactly when its items
  // spell no signature line.
  lemma TwiceIsOnce(content: string, run: StanzaRun)
    requires OneLine(run.version) && OneLine(run.date)
    ensures Update(Update(content, run), run) == Update(content, run) <==> QuietRun(run)
  {
    hide Stanza, BehindSignature, QuietRun;
    var rest := BehindSignature(content, true);
    StanzaReplaced(run, rest);
    var s, again := Stanza(run), BehindSignature(Stanza(run) + rest, true);
    if s + again == s + rest {
      assert again == (s + again)[|s|..] == (s + rest)[|s|..] == rest;
    }
  }

  // ---- At an input -------------------------------------------------------------------------

  // An item whose second line reads as a signature line.
  const SIGNED_ITEM := "a\n -- b"

  lemma SignedItemIsSigned()
    ensures !Unsigned(SIGNED_ITEM)
  {
    var s := SIGNED_ITEM + "\n";
    var line := s[2..];
    assert s[1..][1..] == line && s[1..][0] == '\n';
    assert line == " -- b\n" && line[4..] == "b\n" && line[4..][1..] == "\n";
    assert LineLen("\n") == 0 && LineLen("b\n") == 1;
    assert SignatureAt(line);
    assert HasSignature(s[1..], false);
  }

  // Two releases with that item in the first: the second run leaves more than
  // its own stanza and the text behind the original signature line, and
  // repeating the first run changes the file.
  lemma SignedItemStays(content: string)
    ensures var one, two := StanzaRun("1.0.0", [SIGNED_ITEM], "d"), StanzaRun("1.0.1", [], "d");
            && UpdateAll(content, [one, two]) != Stanza(two) + BehindSignature(content, true)
            && Update(Update(content, one), one) != Update(content, one)
  {
    var one, two := StanzaRun("1.0.0", [SIGNED_ITEM], "d"), StanzaRun("1.0.1", [], "d");
    SignedItemIsSigned();
    assert one.items[0] == SIGNED_ITEM;
    assert !QuietRun(one) && [one, two][0] == one;
    assert OneLine(one.version) && OneLine(two.version) && OneLine("d");
    hide Unsigned, UpdateAll, Update, Stanza, BehindSignature, QuietRun;
    History(content, [one, two]);
    TwiceIsOnce(content, one);
  }
}
