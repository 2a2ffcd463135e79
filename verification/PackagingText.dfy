// The packaging files a run of scripts/prepare-release.js writes, as text: the
// lines it adds, the line it corrects and what it leaves as it was.

module PackagingText {
  import opened Text
  import opened Templates
  import opened WrittenFiles
  import Docs = ReleaseDocs
  import Debian = DebianChangelog
  import Lists = ReleaseLists

  // ---- The Debian stanza ---------------------------------------------------------------

  function DebianLines(version: string, items: seq<string>, date: string): seq<string> {
    ["fluux-messenger (" + (version + "-1) unstable; urgency=medium"), ""]
    + (Behind("  * ", if items == [] then ["See release notes for v" + version] else items)
       + ["", " -- ProcessOne <contact@process-one.net>  " + date])
  }

  lemma {:induction false} ItemLinesAre(items: seq<string>)
    ensures Debian.ItemLines(items) == Lines(Behind("  * ", items))
  {
    if items != [] {
      ItemLinesAre(items[1..]);
      assert Behind("  * ", items)[1..] == Behind("  * ", items[1..]);
      ItemLine(items[0], Lines(Behind("  * ", items[1..])));
    }
  }

  lemma ItemLine(item: string, rest: string)
    ensures ("  * " + (item + "\n")) + rest == ("  * " + item) + ("\n" + rest)
  {
  }

  // The new top stanza: a line per item, or the notice when there are none.
  lemma StanzaIs(run: Debian.StanzaRun)
    ensures Debian.Stanza(run) == Lines(DebianLines(run.version, run.items, run.date))
  {
    var items := if run.items == [] then ["See release notes for v" + run.version] else run.items;
    var head := "fluux-messenger (" + (run.version + "-1) unstable; urgency=medium");
    var signed := " -- ProcessOne <contact@process-one.net>  " + run.date;
    ItemLinesAre(items);
    TwoLines(head, "");
    TwoLines("", signed);
    LinesJoin(Behind("  * ", items), ["", signed]);
    LinesJoin([head, ""], Behind("  * ", items) + ["", signed]);
    assert Debian.Body(run.version, run.items) == Debian.ItemLines(items);
    HeadIs(run.version);
    SignatureIs(run.date);
    hide Lines, Behind, Debian.ItemLines, Debian.Body, Debian.Head, Debian.SignatureLine;
    StanzaJoins(head, Debian.ItemLines(items), signed);
  }

  lemma StanzaJoins(head: string, body: string, signed: string)
    ensures (head + "\n" + "\n") + (body + ("\n" + (signed + "\n")))
         == (head + ("\n" + ("" + "\n"))) + (body + ("" + ("\n" + (signed + "\n"))))
  {
    assert "" + ("\n" + (signed + "\n")) == "\n" + (signed + "\n");
    assert head + ("\n" + ("" + "\n")) == head + "\n" + "\n";
  }

  lemma HeadIs(version: string)
    ensures Debian.Head(version) == ("fluux-messenger (" + (version + "-1) unstable; urgency=medium")) + "\n" + "\n"
  {
    assert "-1) unstable; urgency=medium\n" == "-1) unstable; urgency=medium" + "\n";
    HeadJoins("fluux-messenger (", version, "-1) unstable; urgency=medium");
  }

  lemma HeadJoins(a: string, version: string, b: string)
    ensures a + (version + (b + "\n")) == (a + (version + b)) + "\n"
  {
  }

  lemma SignatureIs(date: string)
    ensures Debian.SignatureLine(date) == (" -- ProcessOne <contact@process-one.net>  " + date) + "\n"
  {
    SignerIs();
    Assoc(" -- ", "ProcessOne <contact@process-one.net>  ", date);
  }

  lemma SignerIs()
    ensures " -- " + "ProcessOne <contact@process-one.net>  " == " -- ProcessOne <contact@process-one.net>  "
  {
  }

  // A line that starts at k with the signature's mark and ends, after
  // characters of the same line, at n.
  predicate SignedLine(s: string, lineStart: bool, k: nat, n: nat) {
    && k + 4 <= n < |s|
    && (if k == 0 then lineStart else IsLineEnd(s[k - 1]))
    && s[k..k + 4] == " -- " && s[n] == '\n'
    && forall j | k + 4 <= j < n :: !IsLineEnd(s[j])
  }

  // The first of them.
  predicate FirstSigned(s: string, lineStart: bool, k: nat, n: nat) {
    SignedLine(s, lineStart, k, n) && forall i, m | 0 <= i < k && i < m < |s| :: !SignedLine(s, lineStart, i, m)
  }

  lemma {:induction false} LineLenIs(s: string)
    ensures var n := Debian.LineLen(s); (forall j | 0 <= j < n :: !IsLineEnd(s[j])) && (n < |s| ==> IsLineEnd(s[n]))
  {
    if s != "" && !IsLineEnd(s[0]) {
      LineLenIs(s[1..]);
    }
  }

  lemma SignedAtFront(s: string, n: nat)
    ensures SignedLine(s, true, 0, n) <==> Debian.SignatureAt(s) && n + 1 == Debian.SignatureLen(s)
  {
    if |s| >= 4 {
      LineLenIs(s[4..]);
      var m := Debian.LineLen(s[4..]);
      assert s[0..4] == s[..4];
      assert forall j | 4 <= j < |s| :: s[j] == s[4..][j - 4];
      if SignedLine(s, true, 0, n) {
        assert IsLineEnd(s[4..][n - 4]);
        assert !(m < n - 4) && !(n - 4 < m);
      }
    }
  }

  lemma SignedShifts(s: string, lineStart: bool, k: nat, n: nat)
    requires s != ""
    ensures SignedLine(s, lineStart, k + 1, n + 1) <==> SignedLine(s[1..], IsLineEnd(s[0]), k, n)
  {
    var t := s[1..];
    assert forall j | 0 <= j < |t| :: t[j] == s[j + 1];
    if k + 4 <= |t| {
      assert t[k..k + 4] == s[k + 1..k + 5];
    }
    if SignedLine(s, lineStart, k + 1, n + 1) {
      assert forall j | k + 4 <= j < n :: t[j] == s[j + 1];
    }
    if SignedLine(t, IsLineEnd(s[0]), k, n) {
      assert forall j | k + 5 <= j < n + 1 :: s[j] == t[j - 1];
    }
  }

  // What is kept of a Debian changelog: the text behind the first signature
  // line, nothing if there is none.
  lemma {:induction false} KeptIs(s: string, lineStart: bool)
    ensures forall k: nat, n: nat | FirstSigned(s, lineStart, k, n) ::
        Debian.BehindSignature(s, lineStart) == s[n + 1..]
    ensures (forall k: nat, n: nat :: !SignedLine(s, lineStart, k, n)) ==> Debian.BehindSignature(s, lineStart) == ""
  {
    hide Debian.SignatureAt, Debian.SignatureLen, SignedLine;
    if s != "" {
      var next := IsLineEnd(s[0]);
      StartsLine(s);
      forall n: nat ensures SignedLine(s, lineStart, 0, n) <==>
            lineStart && Debian.SignatureAt(s) && n + 1 == Debian.SignatureLen(s) {
        SignedAtFront(s, n);
      }
      if lineStart && Debian.SignatureAt(s) {
        var n := Debian.SignatureLen(s) - 1;
        assert SignedLine(s, lineStart, 0, n);
      } else {
        KeptIs(s[1..], next);
        forall k: nat, n: nat ensures SignedLine(s, lineStart, k + 1, n + 1) <==> SignedLine(s[1..], next, k, n) {
          SignedShifts(s, lineStart, k, n);
        }
        forall k: nat, n: nat | FirstSigned(s, lineStart, k, n)
          ensures Debian.BehindSignature(s, lineStart) == s[n + 1..]
        {
          FirstShifts(s, lineStart, k, n);
          assert s[1..][n..] == s[n + 1..];
        }
      }
    } else {
      StartsNoLine();
    }
  }

  lemma StartsLine(s: string)
    ensures forall n: nat, lineStart :: SignedLine(s, lineStart, 0, n) <==> lineStart && SignedLine(s, true, 0, n)
    ensures forall k: nat, n: nat, lineStart | SignedLine(s, lineStart, k, n) :: k < n < |s|
  {
  }

  lemma StartsNoLine()
    ensures forall k: nat, n: nat, lineStart :: !SignedLine("", lineStart, k, n)
  {
  }

  lemma FirstShifts(s: string, lineStart: bool, k: nat, n: nat)
    requires s != "" && FirstSigned(s, lineStart, k, n) && k > 0
    ensures FirstSigned(s[1..], IsLineEnd(s[0]), k - 1, n - 1)
  {
    hide SignedLine;
    assert k < n < |s| by { StartsLine(s); }
    SignedShifts(s, lineStart, k - 1, n - 1);
    forall i, m | 0 <= i < k - 1 && i < m < |s[1..]| ensures !SignedLine(s[1..], IsLineEnd(s[0]), i, m) {
      SignedShifts(s, lineStart, i, m);
    }
  }

  // The file a run leaves: the stanza, then what stood behind the first
  // signature line.
  lemma DebianIs(content: string, run: Debian.StanzaRun, k: nat, n: nat)
    requires FirstSigned(content, true, k, n)
    ensures n < |content|
         && Debian.Update(content, run) == Lines(DebianLines(run.version, run.items, run.date)) + content[n + 1..]
  {
    StanzaIs(run);
    KeptIs(content, true);
    StartsLine(content);
    hide SignedLine, Lines, DebianLines, Debian.Stanza, Debian.BehindSignature;
  }

  // Without one the stanza is the whole file.
  lemma DebianStartsOver(content: string, run: Debian.StanzaRun)
    requires forall k: nat, n: nat :: !SignedLine(content, true, k, n)
    ensures Debian.Update(content, run) == Lines(DebianLines(run.version, run.items, run.date))
  {
    hide SignedLine, Lines, DebianLines, Debian.Stanza, Debian.BehindSignature;
    StanzaIs(run);
    KeptIs(content, true);
    assert Debian.BehindSignature(content, true) == "";
  }

  // ---- The Flatpak metainfo ------------------------------------------------------------------

  function MetainfoLines(version: string, date: string): seq<string> {
    ["    <release version=\"" + (version + ("\" date=\"" + (date + "\">"))), "      <description>",
     "        <p>See release notes for details.</p>", "      </description>", "    </release>"]
  }

  lemma MetainfoItem(version: string, date: string)
    ensures Lists.ItemText(Lists.FLATPAK, Lists.Item(version, Lists.FlatpakMore(date, Lists.NEW_BODY)))
         == Lines(MetainfoLines(version, date))
  {
    var top := "    <release version=\"" + (version + ("\" date=\"" + (date + "\">")));
    var open, close := "      <description>", "      </description>";
    var notice := "        <p>See release notes for details.</p>";
    assert [top, open, notice, close, "    </release>"] == [top] + [open, notice, close, "    </release>"];
    LineFirst(top, [open, notice, close, "    </release>"]);
    BodyLines();
    MarksJoin();
    hide Lines, Lists.NEW_BODY;
    var body := "\n" + Lines([open, notice, close, "    </release>"]);
    EntryJoins("    <release ", "version=\"", version, "\"", " date=\"", date, ">" + body);
    assert "\"" + (">" + body) == "\">" + body;
    EntryEnds("    <release version=\"", version, "\" date=\"", date, "\">", body);
  }

  lemma MarksJoin()
    ensures "    <release " + "version=\"" == "    <release version=\"" && "\"" + " date=\"" == "\" date=\""
  {
  }

  lemma EntryJoins(a: string, b: string, v: string, c: string, d: string, date: string, body: string)
    ensures a + (b + (v + (c + (d + (date + ("\"" + body)))))) == (a + b) + (v + ((c + d) + (date + ("\"" + body))))
  {
  }

  lemma EntryEnds(a: string, v: string, b: string, date: string, c: string, body: string)
    ensures a + (v + (b + (date + (c + body)))) == (a + (v + (b + (date + c)))) + body
  {
  }

  lemma BodyLines()
    ensures Lists.NEW_BODY
         == ">" + ("\n" + Lines(["      <description>", "        <p>See release notes for details.</p>",
                                "      </description>", "    </release>"]))
  {
    var open, close := "      <description>", "      </description>";
    var notice := "        <p>See release notes for details.</p>";
    TwoLines(close, "    </release>");
    assert [open, notice, close, "    </release>"] == [open] + ([notice] + [close, "    </release>"]);
    LineFirst(notice, [close, "    </release>"]);
    LineFirst(open, [notice] + [close, "    </release>"]);
    hide Lines;
    OpenIs();
    NoticeIs();
    CloseIs();
    hide Lists.BODY_OPEN, Lists.BODY_TEXT, Lists.BODY_CLOSE;
    BodyJoins(open, "        <p>", Lists.BODY_TEXT, notice, Lists.BODY_CLOSE);
  }

  lemma NoticeIs()
    ensures "        <p>" + Lists.BODY_TEXT == "        <p>See release notes for details.</p>" + "\n"
  {
  }

  lemma OpenIs()
    ensures Lists.BODY_OPEN == ">" + ("\n" + ("      <description>" + ("\n" + "        <p>")))
  {
  }

  lemma CloseIs()
    ensures Lists.BODY_CLOSE == "      </description>" + ("\n" + ("    </release>" + "\n"))
  {
  }

  lemma BodyJoins(open: string, p: string, text: string, notice: string, close: string)
    requires p + text == notice + "\n"
    ensures (">" + ("\n" + (open + ("\n" + p)))) + (text + close)
         == ">" + ("\n" + (open + ("\n" + (notice + ("\n" + close)))))
  {
    assert (p + text) + close == p + (text + close);
    assert (notice + "\n") + close == notice + ("\n" + close);
  }

  lemma FoundIn(w: string, s: string)
    requires w != ""
    ensures Find(w, s) == |s| <==> Lists.Absent(w, s)
  {
    FindFirst(w, s);
  }

  // A version named nowhere: its entry goes behind the first marker.
  lemma MetainfoAdds(before: string, behind: string, run: Lists.DatedRun)
    requires Lists.Absent("<releases>\n", before) && NoDollar(run.version) && NoDollar(run.date)
    requires Lists.Absent("version=\"" + (run.version + "\""), before + ("<releases>\n" + behind))
    ensures Lists.UpdateMetainfo(before + ("<releases>\n" + behind), run)
         == before + ("<releases>\n" + (Lines(MetainfoLines(run.version, run.date)) + behind))
  {
    var item := Lists.Item(run.version, Lists.FlatpakMore(run.date, Lists.NEW_BODY));
    var text := before + ("<releases>\n" + behind);
    FoundIn("version=\"" + (run.version + "\""), text);
    MetainfoItem(run.version, run.date);
    Lists.NewEntryIsPlain(run);
    hide Lines, MetainfoLines, NoDollar, Find, Lists.Insert, Lists.NEW_BODY, Lists.Absent;
    Inserted(Lists.FLATPAK, before, behind, item);
  }

  lemma Inserted(f: Lists.Format, before: string, behind: string, item: Lists.Item)
    requires Lists.IsFormat(f) && Lists.Absent(f.marker, before) && NoDollar(Lists.ItemText(f, item))
    ensures Lists.Insert(f, before + (f.marker + behind), item)
         == before + (f.marker + (Lists.ItemText(f, item) + behind))
  {
    hide NoDollar, Lists.Insert, Lists.ItemText;
    Lists.InsertPrepends(f, before, [], behind, item);
    assert Lists.ItemsText(f, []) + behind == behind;
    assert [item][1..] == [];
    assert Lists.ItemsText(f, [item]) == Lists.ItemText(f, item);
    assert [item] + [] == [item];
  }

  function DateMark(version: string): string {
    "<release version=\"" + (version + "\" date=\"")
  }

  // A version that is named: the date behind its first `<release` tag changes
  // and not a character besides.
  lemma MetainfoRedates(before: string, was: string, behind: string, run: Lists.DatedRun)
    requires '"' !in was && NoDollar(run.date)
    requires var text := before + (DateMark(run.version) + (was + ("\"" + behind)));
             forall k | 0 <= k < |before| :: !(DateMark(run.version) <= text[k..])
    ensures Lists.UpdateMetainfo(before + (DateMark(run.version) + (was + ("\"" + behind))), run)
         == before + (DateMark(run.version) + (run.date + ("\"" + behind)))
  {
    var key, v := DateMark(run.version), run.version;
    var text := before + (key + (was + ("\"" + behind)));
    DateMarkIs(v);
    assert text[|before|..] == key + (was + ("\"" + behind));
    hide Find, Lists.DateKey, DateMark, Lists.Key, Lists.ReplaceDate, NoDollar;
    Lists.FindIs(key, text, |before|);
    Lists.DateKeyHasKey(v, text, |before|);
    FoundIn(Lists.Key(Lists.FLATPAK, v), text);
    assert Lists.Lists(Lists.FLATPAK, text, v);
    Lists.QuoteBehindDate(was, behind);
    Assoc(before, key, was + ("\"" + behind));
    Assoc(before, key, run.date + ("\"" + behind));
    Lists.ReplaceParts(v, text, before, was, behind, run.date);
  }

  lemma DateMarkIs(v: string)
    ensures Lists.DateKey(v) == DateMark(v) && DateMark(v) != "" && Lists.Key(Lists.FLATPAK, v) != ""
  {
    assert "<release " + "version=\"" == "<release version=\"" && "\"" + " date=\"" == "\" date=\"";
    assert Lists.DateKey(v) == ("<release " + "version=\"") + (v + ("\"" + " date=\""));
  }

  // Neither: named without such a tag, or not named where no list begins.
  lemma MetainfoKept(text: string, run: Lists.DatedRun)
    requires if Lists.Absent("version=\"" + (run.version + "\""), text) then Lists.Absent("<releases>\n", text)
             else Lists.Absent(DateMark(run.version), text)
    ensures Lists.UpdateMetainfo(text, run) == text
  {
    DateMarkIs(run.version);
    FoundIn("version=\"" + (run.version + "\""), text);
    hide Find, Lists.DateKey, DateMark;
    FoundIn("<releases>\n", text);
    FoundIn(Lists.DateKey(run.version), text);
  }

  // ---- The DOAP file -------------------------------------------------------------------------

  const RELEASE_LINK := "        <file-release "
      + ("rdf:resource=\"https://github.com/" + ("processone/fluux-messenger/" + "releases/tag/v"))

  function DoapLines(version: string, date: string): seq<string> {
    ["    <release>", "      <Version>", "        <revision>" + (version + "</revision>"),
     "        <created>" + (date + "</created>"), RELEASE_LINK + (version + "\"/>"),
     "      </Version>", "    </release>"]
  }

  lemma DoapItem(run: Lists.DatedRun)
    ensures Lists.ItemText(Lists.DOAP, Lists.Item(run.version, Lists.DoapMore(run)))
         == Lines(DoapLines(run.version, run.date))
  {
    var v, d := run.version, run.date;
    var top := ["    <release>", "      <Version>"];
    var revision, created := "        <revision>" + (v + "</revision>"), "        <created>" + (d + "</created>");
    var link, close := RELEASE_LINK + (v + "\"/>"), ["      </Version>", "    </release>"];
    assert DoapLines(v, d) == top + ([revision] + ([created] + ([link] + close)));
    LinesJoin(top, [revision] + ([created] + ([link] + close)));
    LineFirst(revision, [created] + ([link] + close));
    LineFirst(created, [link] + close);
    LineFirst(link, close);
    TwoLines("    <release>", "      <Version>");
    TwoLines("      </Version>", "    </release>");
    hide Lines, DoapLines;
    LinkIs();
    DoapJoins(v, d, Lines(close));
  }

  lemma LinkIs()
    ensures (Lists.LINK_OPEN + Lists.LINK_HOST) + (Lists.LINK_PATH + Lists.LINK_TAG)
         == "</created>" + ("\n" + RELEASE_LINK)
  {
    LinkParts();
    hide RELEASE_LINK, Lists.LINK_OPEN, Lists.LINK_HOST, Lists.LINK_PATH, Lists.LINK_TAG;
    LinkJoins("</created>", "\n", "        <file-release ", Lists.LINK_HOST, Lists.LINK_PATH + Lists.LINK_TAG);
  }

  lemma LinkParts()
    ensures Lists.LINK_OPEN == "</created>" + ("\n" + "        <file-release ")
    ensures RELEASE_LINK == "        <file-release " + (Lists.LINK_HOST + (Lists.LINK_PATH + Lists.LINK_TAG))
  {
  }

  lemma LinkJoins(a: string, n: string, b: string, c: string, d: string)
    ensures ((a + (n + b)) + c) + d == a + (n + (b + (c + d)))
  {
  }

  lemma DoapJoins(v: string, d: string, close: string)
    requires (Lists.LINK_OPEN + Lists.LINK_HOST) + (Lists.LINK_PATH + Lists.LINK_TAG)
          == "</created>" + ("\n" + RELEASE_LINK)
    requires close == "      </Version>" + ("\n" + ("    </release>" + "\n"))
    ensures Lists.ItemText(Lists.DOAP, Lists.Item(v, Lists.DoapMore(Lists.DatedRun(v, d))))
         == ("    <release>" + ("\n" + ("      <Version>" + "\n")))
            + (("        <revision>" + (v + "</revision>"))
               + ("\n" + (("        <created>" + (d + "</created>"))
                          + ("\n" + ((RELEASE_LINK + (v + "\"/>")) + ("\n" + close))))))
  {
    hide RELEASE_LINK, Lists.LINK_OPEN, Lists.LINK_HOST, Lists.LINK_PATH, Lists.LINK_TAG;
    var end := "\"/>" + ("\n" + close);
    assert Lists.DOAP_CLOSE == end;
    DoapMarksJoin();
    hide Lists.DOAP_CLOSE, Lists.RELEASE_TAG, Lists.VERSION_TAG;
    TagsJoin("    <release>" + ("\n" + ("      <Version>" + "\n")), "        ", "<revision>", v, "</revision>",
      Lists.DoapMore(Lists.DatedRun(v, d)));
    CreatedJoins("\n", "        <created>", d, "</created>", RELEASE_LINK, v, "\"/>", "\n" + close);
    RevisionJoins("        <revision>", v, "</revision>", "\n" + (("        <created>" + (d + "</created>"))
        + ("\n" + ((RELEASE_LINK + (v + "\"/>")) + ("\n" + close)))));
  }

  lemma DoapMarksJoin()
    ensures Lists.RELEASE_TAG + Lists.VERSION_TAG
         == ("    <release>" + ("\n" + ("      <Version>" + "\n"))) + "        "
    ensures "        " + "<revision>" == "        <revision>" && "\n" + "        <created>" == "\n        <created>"
  {
  }

  lemma TagsJoin(top: string, gap: string, mark: string, v: string, close: string, more: string)
    ensures (top + gap) + (mark + (v + (close + more))) == top + ((gap + mark) + (v + (close + more)))
  {
  }

  lemma CreatedJoins(n: string, mark: string, d: string, close: string, link: string, v: string, end: string,
      rest: string)
    ensures ((n + mark) + d) + (close + (n + link)) + (v + (end + rest))
         == n + ((mark + (d + close)) + (n + ((link + (v + end)) + rest)))
  {
  }

  lemma RevisionJoins(mark: string, v: string, close: string, more: string)
    ensures mark + (v + (close + more)) == (mark + (v + close)) + more
  {
  }

  // A revision that is named, or no list to put it in: nothing changes.
  lemma DoapKept(text: string, run: Lists.DatedRun)
    requires Lists.Absent("<revision>" + (run.version + "</revision>"), text) ==>
               Lists.Absent("<!-- Releases -->\n", text)
    ensures Lists.UpdateDoap(text, run) == text
  {
    FoundIn("<revision>" + (run.version + "</revision>"), text);
    hide Find;
    FoundIn("<!-- Releases -->\n", text);
  }

  // One that is not: its entry, with the date and the link, goes behind the
  // first marker.
  lemma DoapAdds(before: string, behind: string, run: Lists.DatedRun)
    requires Lists.Absent("<!-- Releases -->\n", before) && NoDollar(run.version) && NoDollar(run.date)
    requires Lists.Absent("<revision>" + (run.version + "</revision>"), before + ("<!-- Releases -->\n" + behind))
    ensures Lists.UpdateDoap(before + ("<!-- Releases -->\n" + behind), run)
         == before + ("<!-- Releases -->\n" + (Lines(DoapLines(run.version, run.date)) + behind))
  {
    var item := Lists.Item(run.version, Lists.DoapMore(run));
    FoundIn("<revision>" + (run.version + "</revision>"), before + ("<!-- Releases -->\n" + behind));
    DoapItem(run);
    Lists.DoapEntryIsPlain(run);
    hide Lines, DoapLines, NoDollar, Find, Lists.Insert, Lists.DoapMore, Lists.Absent;
    Inserted(Lists.DOAP, before, behind, item);
  }
}
