// The Flatpak metainfo and DOAP steps of scripts/prepare-release.js: release
// lists inside larger XML files, extended or corrected by every release run.

module ReleaseLists {
  import opened Text
  import opened Templates

  // ---- Text: first occurrences -------------------------------------------------

  // w stands nowhere in s.
  predicate Absent(w: string, s: string) {
    forall k | 0 <= k < |s| :: !(w <= s[k..])
  }

  // c is none of w's characters from index `from` on.
  predicate Free(w: string, from: nat, c: char) {
    forall i | from <= i < |w| :: w[i] != c
  }

  // An occurrence at the front of b + r is one of b, if r's first character is
  // none of w's but its first, or b's last is none of w's.
  lemma FrontStays(w: string, b: string, r: string)
    requires w != "" && b != "" && w <= b + r
    requires (r != "" && Free(w, 1, r[0])) || Free(w, 0, b[|b| - 1])
    ensures w <= b
  {
    var t := b + r;
    assert t[|b| - 1] == b[|b| - 1] && (r != "" ==> t[|b|] == r[0]);
    assert t[..|b|] == b;
  }

  lemma {:induction false} SkipAbsent(w: string, a: string, r: string)
    requires w != "" && Absent(w, a)
    requires a != "" ==> (r != "" && Free(w, 1, r[0])) || Free(w, 0, a[|a| - 1])
    ensures Find(w, a + r) == |a| + Find(w, r)
  {
    if a == "" {
      assert a + r == r;
    } else {
      var t, b := a + r, a[1..];
      assert a[0..] == a && t[1..] == b + r;
      if w <= t {
        FrontStays(w, a, r);
      }
      forall k | 0 <= k < |b| ensures !(w <= b[k..]) {
        assert b[k..] == a[k + 1..];
      }
      SkipAbsent(w, b, r);
    }
  }

  lemma FindAbsent(w: string, s: string)
    requires w != "" && Absent(w, s)
    ensures Find(w, s) == |s|
  {
    FindFirst(w, s);
  }

  // No occurrence of w can begin in u, by w's first four characters.
  predicate NoKeyStart(w: string, u: string)
    requires |w| >= 4
  {
    forall i | 0 <= i < |u| && u[i] == w[0] ::
      i + 3 < |u| && (u[i + 1] != w[1] || u[i + 2] != w[2] || u[i + 3] != w[3])
  }

  lemma NoStartJoins(w: string, a: string, b: string)
    requires |w| >= 4 && NoKeyStart(w, a) && NoKeyStart(w, b)
    ensures NoKeyStart(w, a + b)
  {
  }

  lemma NoStartIsAbsent(w: string, u: string)
    requires |w| >= 4 && NoKeyStart(w, u)
    ensures Absent(w, u)
  {
    SkipNoStart(w, u, "");
    assert u + "" == u;
    FindFirst(w, u);
  }

  lemma {:induction false} SkipNoStart(w: string, u: string, r: string)
    requires |w| >= 4 && NoKeyStart(w, u)
    ensures Find(w, u + r) == |u| + Find(w, r)
  {
    if u == "" {
      assert u + r == r;
    } else {
      var t := u + r;
      assert t[0] == u[0] && t[1..] == u[1..] + r;
      assert 3 < |u| ==> t[1] == u[1] && t[2] == u[2] && t[3] == u[3];
      SkipNoStart(w, u[1..], r);
    }
  }

  // ---- The two file formats --------------------------------------------------------

  // A release entry is open + mark + version + close + more; new ones go
  // behind the marker.
  datatype Format = Format(marker: string, open: string, mark: string, close: string)
  datatype Item = Item(version: string, more: string)

  const RELEASE_TAG := "    <release>\n"
  const VERSION_TAG := "      <Version>\n        "
  const FLATPAK := Format("<releases>\n", "    <release ", "version=\"", "\"")
  const DOAP := Format("<!-- Releases -->\n", RELEASE_TAG + VERSION_TAG, "<revision>", "</revision>")

  function Key(f: Format, version: string): string {
    f.mark + (version + f.close)
  }

  function ItemText(f: Format, item: Item): string {
    f.open + (f.mark + (item.version + (f.close + item.more)))
  }

  function ItemsText(f: Format, items: seq<Item>): string {
    if items == [] then "" else ItemText(f, items[0]) + ItemsText(f, items[1..])
  }

  function File(f: Format, head: string, items: seq<Item>, tail: string): string {
    head + (f.marker + (ItemsText(f, items) + tail))
  }

  // The version's key occurs somewhere in the text.
  predicate Lists(f: Format, text: string, version: string) {
    Find(Key(f, version), text) < |text|
  }

  // The first marker is replaced by itself and the entry, spelled as a
  // template; without a marker nothing happens.
  function Insert(f: Format, text: string, item: Item): string {
    var i := Find(f.marker, text);
    if i == |text| || i + |f.marker| > |text| then text
    else
      var before, behind := text[..i], text[i + |f.marker|..];
      before + (Expand("$1" + ItemText(f, item), Match(f.marker, before, behind, [f.marker])) + behind)
  }

  // ---- Where a version is found --------------------------------------------------------

  predicate IsFormat(f: Format) {
    f == FLATPAK || f == DOAP
  }

  // baseVersion: digits and dots.
  predicate IsVersion(v: string) {
    v != "" && forall i | 0 <= i < |v| :: '0' <= v[i] <= '9' || v[i] == '.'
  }

  predicate Gap(s: string) {
    s == "" || s[|s| - 1] == '\n' || s[|s| - 1] == ' '
  }

  // Text around or inside the list that mentions no release of its own.
  predicate Silent(f: Format, s: string, version: string) {
    Gap(s) && Absent(Key(f, version), s)
  }

  predicate Around(f: Format, head: string, items: seq<Item>, tail: string, version: string) {
    && Silent(f, head, version) && Absent(Key(f, version), tail)
    && Absent(f.marker, head)
    && forall i | 0 <= i < |items| :: IsVersion(items[i].version) && Silent(f, items[i].more, version)
  }

  lemma KeyShape(f: Format, v: string)
    requires IsFormat(f) && IsVersion(v)
    ensures |Key(f, v)| >= 4 && Free(Key(f, v), 0, '\n') && Free(Key(f, v), 0, ' ')
    ensures Key(f, v)[..4] == f.mark[..4]
  {
    if f == FLATPAK {} else {}
  }

  lemma FlatpakOpenHidesNoKey(w: string)
    requires |w| >= 4 && w[0] == 'v'
    ensures NoKeyStart(w, FLATPAK.marker) && NoKeyStart(w, FLATPAK.open)
  {
  }

  lemma FlatpakMarkHidesNoKey(w: string)
    requires |w| >= 4 && w[0] == 'v'
    ensures NoKeyStart(w, FLATPAK.mark[1..]) && NoKeyStart(w, FLATPAK.close)
  {
  }

  lemma DoapOpenHidesNoKey(w: string)
    requires |w| >= 4 && w[0] == '<' && w[1] == 'r' && w[2] == 'e' && w[3] == 'v'
    ensures NoKeyStart(w, DOAP.open)
  {
    VersionTagHidesNoKey(w);
    hide NoKeyStart, RELEASE_TAG, VERSION_TAG;
    NoStartJoins(w, RELEASE_TAG, VERSION_TAG);
  }

  lemma VersionTagHidesNoKey(w: string)
    requires |w| >= 4 && w[0] == '<' && w[1] == 'r' && w[2] == 'e' && w[3] == 'v'
    ensures NoKeyStart(w, VERSION_TAG)
  {
  }

  lemma DoapMarkerHidesNoKey(w: string)
    requires |w| >= 4 && w[0] == '<' && w[1] == 'r' && w[2] == 'e' && w[3] == 'v'
    ensures NoKeyStart(w, DOAP.marker)
  {
  }

  lemma DoapMarkHidesNoKey(w: string)
    requires |w| >= 4 && w[0] == '<' && w[1] == 'r' && w[2] == 'e' && w[3] == 'v'
    ensures NoKeyStart(w, DOAP.mark[1..])
  {
  }

  lemma DoapCloseHidesNoKey(w: string)
    requires |w| >= 4 && w[0] == '<' && w[1] == 'r' && w[2] == 'e' && w[3] == 'v'
    ensures NoKeyStart(w, DOAP.close)
  {
  }

  // Neither the marker nor an entry's layout can hide the key.
  lemma LayoutHidesNoKey(f: Format, w: string)
    requires IsFormat(f) && |w| >= 4 && w[..4] == f.mark[..4]
    ensures NoKeyStart(w, f.marker) && NoKeyStart(w, f.open) && NoKeyStart(w, f.mark[1..]) && NoKeyStart(w, f.close)
  {
    hide NoKeyStart;
    assert w[0] == w[..4][0] && w[1] == w[..4][1] && w[2] == w[..4][2] && w[3] == w[..4][3];
    if f == FLATPAK {
      FlatpakOpenHidesNoKey(w);
      FlatpakMarkHidesNoKey(w);
    } else {
      DoapOpenHidesNoKey(w);
      DoapMarkerHidesNoKey(w);
      DoapMarkHidesNoKey(w);
      DoapCloseHidesNoKey(w);
    }
  }

  lemma VersionHidesNoKey(f: Format, w: string, v: string)
    requires IsFormat(f) && |w| >= 4 && w[..4] == f.mark[..4] && IsVersion(v)
    ensures NoKeyStart(w, v)
  {
  }

  // One entry: the key is found in it exactly if it is this version's.
  lemma FindInItem(f: Format, item: Item, v: string, r: string)
    requires IsFormat(f) && IsVersion(v) && IsVersion(item.version) && Silent(f, item.more, v)
    ensures Find(Key(f, v), ItemText(f, item) + r)
         == if item.version == v then |f.open| else |ItemText(f, item)| + Find(Key(f, v), r)
  {
    hide Find, NoKeyStart, IsVersion, Absent;
    var w, u, more := Key(f, v), item.version, item.more + r;
    KeyShape(f, v);
    LayoutHidesNoKey(f, w);
    var rest := u + (f.close + more);
    assert ItemText(f, item) + r == f.open + (f.mark + rest);
    SkipNoStart(w, f.open, f.mark + rest);
    KeyHere(f, u, v, more);
    if u != v {
      VersionHidesNoKey(f, w, u);
      SkipNoStart(w, f.mark[1..], rest);
      SkipNoStart(w, u, f.close + more);
      SkipNoStart(w, f.close, more);
      assert item.more != "" ==> Free(w, 0, item.more[|item.more| - 1]);
      SkipAbsent(w, item.more, r);
    }
  }

  lemma KeyHere(f: Format, u: string, v: string, more: string)
    requires IsFormat(f) && IsVersion(u) && IsVersion(v)
    ensures var t := f.mark + (u + (f.close + more));
            Find(Key(f, v), t) == if u == v then 0 else 1 + Find(Key(f, v), f.mark[1..] + (u + (f.close + more)))
  {
    var w, rest := Key(f, v), u + (f.close + more);
    var t := f.mark + rest;
    assert f.mark != "" by { if f == FLATPAK {} else {} }
    assert t[1..] == f.mark[1..] + rest;
    if u == v {
      assert t == w + more;
    } else {
      if w <= t {
        assert w[|f.mark|..] == v + f.close && t[|f.mark|..] == rest;
        assert v + f.close <= rest;
        SameFront(u, v, f.close, more);
      }
    }
  }

  // ---- The list as a whole -------------------------------------------------------------

  function IndexOf(items: seq<Item>, v: string): (i: nat)
    ensures i <= |items|
  {
    if items == [] || items[0].version == v then 0 else 1 + IndexOf(items[1..], v)
  }

  predicate Has(items: seq<Item>, v: string) {
    exists i | 0 <= i < |items| :: items[i].version == v
  }

  lemma {:induction false} IndexOfIs(items: seq<Item>, v: string)
    ensures Has(items, v) <==> IndexOf(items, v) < |items|
    ensures Has(items, v) ==> items[IndexOf(items, v)].version == v
  {
    if items != [] && items[0].version != v {
      IndexOfIs(items[1..], v);
      assert forall i | 1 <= i < |items| :: items[i] == items[1..][i - 1];
      if i :| 0 <= i < |items| && items[i].version == v {
        assert items[1..][i - 1].version == v;
      }
    }
  }

  predicate SilentItems(f: Format, items: seq<Item>, v: string) {
    forall i | 0 <= i < |items| :: IsVersion(items[i].version) && Silent(f, items[i].more, v)
  }

  lemma {:induction false} FindInItems(f: Format, items: seq<Item>, v: string, tail: string)
    requires IsFormat(f) && IsVersion(v) && SilentItems(f, items, v) && Absent(Key(f, v), tail)
    ensures Find(Key(f, v), ItemsText(f, items) + tail)
         == if Has(items, v) then |ItemsText(f, items[..IndexOf(items, v)])| + |f.open|
             else |ItemsText(f, items)| + |tail|
  {
    hide Find, IsVersion, Silent, ItemText, IsFormat, Absent;
    IndexOfIs(items, v);
    KeyShape(f, v);
    if items == [] {
      FindAbsent(Key(f, v), tail);
      assert ItemsText(f, items) + tail == tail;
    } else {
      var item, rest := items[0], items[1..];
      assert forall i | 0 <= i < |rest| :: rest[i] == items[i + 1];
      Assoc(ItemText(f, item), ItemsText(f, rest), tail);
      FindInItem(f, item, v, ItemsText(f, rest) + tail);
      if item.version == v {
        assert items[..0] == [];
      } else {
        FindInItems(f, rest, v, tail);
        IndexOfIs(rest, v);
        var k := IndexOf(items, v);
        assert items[..k][1..] == rest[..k - 1] && items[..k][0] == item;
      }
    }
  }

  lemma MarkerHidesNoKey(f: Format, head: string, v: string, r: string)
    requires IsFormat(f) && IsVersion(v) && Silent(f, head, v)
    ensures Find(Key(f, v), head + (f.marker + r)) == |head| + |f.marker| + Find(Key(f, v), r)
  {
    hide Find, NoKeyStart, Absent;
    var w := Key(f, v);
    KeyShape(f, v);
    LayoutHidesNoKey(f, w);
    assert head != "" ==> Free(w, 0, head[|head| - 1]);
    SkipAbsent(w, head, f.marker + r);
    SkipNoStart(w, f.marker, r);
  }

  // includes() tells whether the version is in the list.
  lemma ListsIsHas(f: Format, head: string, items: seq<Item>, tail: string, v: string)
    requires IsFormat(f) && IsVersion(v) && Around(f, head, items, tail, v)
    ensures Lists(f, File(f, head, items, tail), v) <==> Has(items, v)
    ensures Has(items, v) ==>
              Find(Key(f, v), File(f, head, items, tail))
              == |head| + |f.marker| + |ItemsText(f, items[..IndexOf(items, v)])| + |f.open|
  {
    hide Find, IsVersion, Absent, ItemText, Silent;
    MarkerHidesNoKey(f, head, v, ItemsText(f, items) + tail);
    FindInItems(f, items, v, tail);
    if Has(items, v) {
      IndexOfIs(items, v);
      KeyShape(f, v);
      var k := IndexOf(items, v);
      ItemsSplit(f, items, k);
      ItemNotEmpty(f, items[k]);
    }
  }

  lemma {:induction false} ItemsSplit(f: Format, items: seq<Item>, k: nat)
    requires k < |items|
    ensures ItemsText(f, items) == ItemsText(f, items[..k]) + (ItemText(f, items[k]) + ItemsText(f, items[k + 1..]))
  {
    hide ItemText;
    if k == 0 {
      assert items[..0] == [];
    } else {
      var rest := items[1..];
      ItemsSplit(f, rest, k - 1);
      assert items[..k][1..] == rest[..k - 1] && items[..k][0] == items[0] && rest[k - 1] == items[k]
          && rest[k..] == items[k + 1..];
      Assoc(ItemText(f, items[0]), ItemsText(f, rest[..k - 1]), ItemText(f, items[k]) + ItemsText(f, items[k + 1..]));
    }
  }

  lemma ItemNotEmpty(f: Format, item: Item)
    requires IsFormat(f)
    ensures |ItemText(f, item)| > |f.open|
  {
  }

  lemma MarkerIsFree(f: Format)
    requires IsFormat(f)
    ensures f.marker != "" && Free(f.marker, 1, f.marker[0])
  {
  }

  // The new entry becomes the first of the list.
  lemma InsertPrepends(f: Format, head: string, items: seq<Item>, tail: string, item: Item)
    requires IsFormat(f) && Absent(f.marker, head) && NoDollar(ItemText(f, item))
    ensures Insert(f, File(f, head, items, tail), item) == File(f, head, [item] + items, tail)
  {
    hide Find, ItemText, NoDollar, Expand;
    MarkerIsFree(f);
    var rest := ItemsText(f, items) + tail;
    var text := head + (f.marker + rest);
    hide IsFormat;
    SkipAbsent(f.marker, head, f.marker + rest);
    FindAtFront(f.marker, rest);
    assert text[..|head|] == head && text[|head| + |f.marker|..] == rest;
    var m := Match(f.marker, head, rest, [f.marker]);
    FirstCapture(ItemText(f, item), m);
    PlainText(ItemText(f, item), m);
    assert Insert(f, text, item) == head + ((f.marker + ItemText(f, item)) + rest);
    assert ([item] + items)[1..] == items;
    Assoc(ItemText(f, item), ItemsText(f, items), tail);
    Assoc(f.marker, ItemText(f, item), rest);
  }

  lemma FindAtFront(w: string, r: string)
    requires w != ""
    ensures Find(w, w + r) == 0
  {
  }

  // ---- The two steps of a run ------------------------------------------------------------

  // A release run, with the date changelog.ts gives the version.
  datatype DatedRun = DatedRun(version: string, date: string)

  // A date that stays inside its attribute and spells no attribute of its own.
  predicate Quotable(d: string) {
    (forall i | 0 <= i < |d| :: d[i] != '"') && !(|d| >= 8 && d[|d| - 8..] == "version=")
  }

  // A date no metainfo text can confuse: it also spells no template reference.
  predicate MetainfoDate(d: string) {
    Quotable(d) && NoDollar(d)
  }

  // A date no DOAP text can confuse: no markup and no template reference.
  predicate DoapDate(d: string) {
    NoDollar(d) && forall i | 0 <= i < |d| :: d[i] != '<'
  }

  function FlatpakMore(date: string, body: string): string {
    " date=\"" + (date + ("\"" + body))
  }

  const BODY_OPEN := ">\n      <description>\n        <p>"
  const BODY_TEXT := "See release notes" + " for details.</p>\n"
  const BODY_CLOSE := "      </description>\n    </release>\n"
  const NEW_BODY := BODY_OPEN + (BODY_TEXT + BODY_CLOSE)

  const LINK_OPEN := "</created>\n        <file-release "
  const LINK_HOST := "rdf:resource=\"https://github.com/"
  const LINK_PATH := "processone/fluux-messenger/"
  const LINK_TAG := "releases/tag/v"
  const DOAP_CLOSE := "\"/>\n      </Version>\n    </release>\n"

  function DoapMore(run: DatedRun): string {
    ("\n        <created>" + run.date) + ((LINK_OPEN + LINK_HOST) + (LINK_PATH + LINK_TAG)) + (run.version + DOAP_CLOSE)
  }

  function DateKey(v: string): string {
    "<release " + (Key(FLATPAK, v) + " date=\"")
  }

  // The version's date attribute, if it stands right behind the version, is
  // replaced by the template that keeps its two ends around the new date.
  function ReplaceDate(text: string, v: string, date: string): string {
    var i, n := Find(DateKey(v), text), |DateKey(v)|;
    if i + n > |text| then text
    else
      var rest := text[i + n..];
      var q := Find("\"", rest);
      if q == |rest| then text
      else
        Replaced(text[..i], DateKey(v), rest[..q], rest[q + 1..], date)
  }

  // The attribute's start and its closing quote are the pattern's captures.
  function Replaced(before: string, key: string, was: string, behind: string, date: string): string {
    var m := Match(key + (was + "\""), before, behind, [key, "\""]);
    before + (Expand("$1" + (date + "$2"), m) + behind)
  }

  lemma DateExpands(date: string, m: Match)
    requires NoDollar(date) && |m.captures| == 2
    ensures Expand("$1" + (date + "$2"), m) == m.captures[0] + (date + m.captures[1])
  {
    hide Expand;
    FirstCapture(date + "$2", m);
    PlainFront(date, "$2", m);
    SecondCapture(m);
  }

  function UpdateMetainfo(text: string, run: DatedRun): string {
    if Lists(FLATPAK, text, run.version) then ReplaceDate(text, run.version, run.date)
    else Insert(FLATPAK, text, Item(run.version, FlatpakMore(run.date, NEW_BODY)))
  }

  function UpdateDoap(text: string, run: DatedRun): string {
    if Lists(DOAP, text, run.version) then text else Insert(DOAP, text, Item(run.version, DoapMore(run)))
  }

  // ---- The date of a listed release -------------------------------------------------------

  lemma FindIs(w: string, s: string, i: nat)
    requires w != "" && i < |s| && w <= s[i..]
    requires forall k | 0 <= k < i :: !(w <= s[k..])
    ensures Find(w, s) == i
  {
    FindFirst(w, s);
  }

  lemma DateKeyHasKey(v: string, s: string, k: nat)
    requires k <= |s| && DateKey(v) <= s[k..]
    ensures k + 9 <= |s| && Key(FLATPAK, v) <= s[k + 9..]
  {
  }

  // The date key stands where the version's own entry does.
  lemma DateKeyIsThere(v: string, front: string, r: string)
    requires Find(Key(FLATPAK, v), front + ("    <release " + (Key(FLATPAK, v) + (" date=\"" + r)))) == |front| + 13
    ensures Find(DateKey(v), front + ("    <release " + (Key(FLATPAK, v) + (" date=\"" + r)))) == |front| + 4
    ensures front + ("    <release " + (Key(FLATPAK, v) + (" date=\"" + r))) == (front + "    ") + (DateKey(v) + r)
  {
    var s := front + ("    <release " + (Key(FLATPAK, v) + (" date=\"" + r)));
    DateKeyJoins(v, front, r);
    KeyIsText(v);
    hide Find, Key, DateKey;
    FindFirst(Key(FLATPAK, v), s);
    BehindFour(front, DateKey(v), r);
    forall k | 0 <= k < |front| + 4 ensures !(DateKey(v) <= s[k..]) {
      if DateKey(v) <= s[k..] {
        DateKeyHasKey(v, s, k);
      }
    }
    FindIs(DateKey(v), s, |front| + 4);
  }

  lemma BehindFour(front: string, key: string, r: string)
    ensures (front + "    " + key) + r == (front + "    ") + (key + r)
    ensures ((front + "    " + key) + r)[|front| + 4..] == key + r
  {
    assert ((front + "    ") + (key + r))[|front| + 4..] == key + r;
  }

  lemma KeyIsText(v: string)
    ensures Key(FLATPAK, v) != "" && DateKey(v) != ""
  {
  }

  lemma {:induction false} QuoteBehindDate(date: string, r: string)
    requires forall i | 0 <= i < |date| :: date[i] != '"'
    ensures Find("\"", date + ("\"" + r)) == |date|
  {
    var t := date + ("\"" + r);
    if date == "" {
      assert t == "\"" + r;
    } else {
      assert t[0] == date[0] && t[1..] == date[1..] + ("\"" + r);
      QuoteBehindDate(date[1..], r);
    }
  }

  // A listed release: its date, and what its entry holds behind the date.
  datatype Dated = Dated(version: string, date: string, body: string)

  function ItemOf(e: Dated): Item {
    Item(e.version, FlatpakMore(e.date, e.body))
  }

  function ItemsOf(es: seq<Dated>): seq<Item> {
    seq(|es|, i requires 0 <= i < |es| => ItemOf(es[i]))
  }

  // The text from an entry's `<release ` on.
  function Shown(v: string, date: string, r: string): string {
    "    <release " + (Key(FLATPAK, v) + (" date=\"" + (date + ("\"" + r))))
  }

  lemma ReplaceAt(v: string, front: string, was: string, r: string, date: string)
    requires Find(Key(FLATPAK, v), front + Shown(v, was, r)) == |front| + 13
    requires forall i | 0 <= i < |was| :: was[i] != '"'
    requires NoDollar(date)
    ensures ReplaceDate(front + Shown(v, was, r), v, date) == front + Shown(v, date, r)
  {
    hide Find, Key, DateKey, ReplaceDate, NoDollar;
    var a, rest := front + "    ", was + ("\"" + r);
    DateKeyIsThere(v, front, rest);
    QuoteBehindDate(was, r);
    DateKeyJoins(v, front, rest);
    DateKeyJoins(v, front, date + ("\"" + r));
    ReplaceParts(v, front + Shown(v, was, r), a, was, r, date);
  }

  lemma ReplaceParts(v: string, text: string, a: string, was: string, r: string, date: string)
    requires text == (a + DateKey(v)) + (was + ("\"" + r)) && Find(DateKey(v), text) == |a|
    requires Find("\"", was + ("\"" + r)) == |was| && NoDollar(date)
    ensures ReplaceDate(text, v, date) == (a + DateKey(v)) + (date + ("\"" + r))
  {
    hide Find, DateKey, Replaced, NoDollar;
    var key, rest := DateKey(v), was + ("\"" + r);
    assert text[..|a|] == a && text[|a| + |key|..] == rest;
    assert rest[..|was|] == was && rest[|was| + 1..] == r;
    ReplacedIs(a, key, was, r, date);
  }

  lemma ReplacedIs(before: string, key: string, was: string, behind: string, date: string)
    requires NoDollar(date)
    ensures Replaced(before, key, was, behind, date) == (before + key) + (date + ("\"" + behind))
  {
    hide Expand, NoDollar;
    DateExpands(date, Match(key + (was + "\""), before, behind, [key, "\""]));
  }

  lemma DateReplaced(head: string, es: seq<Dated>, tail: string, v: string, date: string, k: nat)
    requires IsVersion(v) && Around(FLATPAK, head, ItemsOf(es), tail, v)
    requires k < |es| && IndexOf(ItemsOf(es), v) == k && es[k].version == v
    requires Quotable(es[k].date) && NoDollar(date)
    ensures ReplaceDate(File(FLATPAK, head, ItemsOf(es), tail), v, date)
         == File(FLATPAK, head, ItemsOf(es[k := es[k].(date := date)]), tail)
  {
    hide Find, Around, IsVersion, Key, File, ReplaceDate, Shown, ItemsText;
    var items, e, e' := ItemsOf(es), es[k], es[k].(date := date);
    var items' := ItemsOf(es[k := e']);
    assert items[k] == ItemOf(e) && items'[k] == ItemOf(e');
    assert items'[..k] == items[..k] && items'[k + 1..] == items[k + 1..];
    assert Has(items, v);
    ListsIsHas(FLATPAK, head, items, tail, v);
    FileAtItem(head, items, tail, k, e);
    FileAtItem(head, items', tail, k, e');
    var front := head + (FLATPAK.marker + ItemsText(FLATPAK, items[..k]));
    ReplaceAt(v, front, e.date, e.body + (ItemsText(FLATPAK, items[k + 1..]) + tail), date);
  }

  lemma DateKeyJoins(v: string, front: string, r: string)
    ensures front + ("    <release " + (Key(FLATPAK, v) + (" date=\"" + r))) == (front + "    " + DateKey(v)) + r
  {
  }

  lemma FileAtItem(head: string, items: seq<Item>, tail: string, k: nat, e: Dated)
    requires k < |items| && items[k] == ItemOf(e)
    ensures File(FLATPAK, head, items, tail)
         == (head + (FLATPAK.marker + ItemsText(FLATPAK, items[..k])))
            + Shown(e.version, e.date, e.body + (ItemsText(FLATPAK, items[k + 1..]) + tail))
  {
    ItemsSplit(FLATPAK, items, k);
    var before, behind := ItemsText(FLATPAK, items[..k]), ItemsText(FLATPAK, items[k + 1..]);
    ItemTextOf(e, behind + tail);
    hide ItemsText, ItemText, Shown;
    Regroup(head, FLATPAK.marker, before, ItemText(FLATPAK, items[k]), behind, tail);
  }

  lemma Regroup(a: string, b: string, c: string, d: string, e: string, g: string)
    ensures a + (b + ((c + (d + e)) + g)) == (a + (b + c)) + (d + (e + g))
  {
  }

  lemma ItemTextOf(e: Dated, r: string)
    ensures ItemText(FLATPAK, ItemOf(e)) + r == Shown(e.version, e.date, e.body + r)
  {
  }

  // ---- Text steps are list steps ----------------------------------------------------------

  function MetainfoStep(es: seq<Dated>, run: DatedRun): seq<Dated> {
    var k := IndexOf(ItemsOf(es), run.version);
    if k < |es| then es[k := es[k].(date := run.date)] else [Dated(run.version, run.date, NEW_BODY)] + es
  }

  function DoapStep(items: seq<Item>, run: DatedRun): seq<Item> {
    if Has(items, run.version) then items else [Item(run.version, DoapMore(run))] + items
  }

  // Nothing but the entry of a version spells its key.
  predicate GoodMetainfo(head: string, es: seq<Dated>, tail: string, v: string) {
    && IsVersion(v) && Silent(FLATPAK, head, v) && Absent(Key(FLATPAK, v), tail) && Absent(FLATPAK.marker, head)
    && forall i | 0 <= i < |es| :: IsVersion(es[i].version) && Quotable(es[i].date) && es[i].body != ""
        && Silent(FLATPAK, es[i].body, v)
  }

  predicate GoodDoap(head: string, items: seq<Item>, tail: string, v: string) {
    IsVersion(v) && Around(DOAP, head, items, tail, v)
  }

  lemma AbsentIfNotFound(w: string, s: string)
    requires w != "" && Find(w, s) == |s|
    ensures Absent(w, s)
  {
    FindFirst(w, s);
  }

  lemma NewBodyIsSilent(v: string)
    requires IsVersion(v)
    ensures Silent(FLATPAK, NEW_BODY, v) && NEW_BODY != ""
  {
    hide IsVersion, NoKeyStart;
    var w := Key(FLATPAK, v);
    KeyShape(FLATPAK, v);
    assert w[0] == w[..4][0];
    BodyTextHidesNoKey(w);
    BodyEndHidesNoKey(w);
    NoStartJoins(w, BODY_TEXT, BODY_CLOSE);
    NoStartJoins(w, BODY_OPEN, BODY_TEXT + BODY_CLOSE);
    NoStartIsAbsent(w, NEW_BODY);
    assert NEW_BODY[|NEW_BODY| - 1] == BODY_CLOSE[|BODY_CLOSE| - 1];
  }

  lemma BodyTextHidesNoKey(w: string)
    requires |w| >= 4 && w[0] == 'v'
    ensures NoKeyStart(w, BODY_TEXT)
  {
    assert NoKeyStart(w, "See release notes");
    NoticeEndHidesNoKey(w);
    hide NoKeyStart;
    NoStartJoins(w, "See release notes", " for details.</p>\n");
  }

  lemma NoticeEndHidesNoKey(w: string)
    requires |w| >= 4 && w[0] == 'v'
    ensures NoKeyStart(w, " for details.</p>\n")
  {
  }

  lemma BodyEndHidesNoKey(w: string)
    requires |w| >= 4 && w[0] == 'v'
    ensures NoKeyStart(w, BODY_CLOSE)
  {
  }

  // A date hides no key of its own: the key's first quote would have to be the
  // one behind the date.
  lemma {:induction false} SkipDate(v: string, date: string, r: string)
    requires IsVersion(v) && Quotable(date)
    ensures Find(Key(FLATPAK, v), date + ("\"" + r)) == |date| + Find(Key(FLATPAK, v), "\"" + r)
  {
    var w, t := Key(FLATPAK, v), date + ("\"" + r);
    if date == "" {
      assert t == "\"" + r;
    } else {
      assert t[0] == date[0] && t[1..] == date[1..] + ("\"" + r);
      DateIsNoKey(v, date, r);
      QuotableRest(date);
      SkipDate(v, date[1..], r);
    }
  }

  lemma QuotableRest(d: string)
    requires Quotable(d) && d != ""
    ensures Quotable(d[1..])
  {
    assert |d| >= 9 ==> d[1..][|d| - 9..] == d[|d| - 8..];
  }

  lemma DateIsNoKey(v: string, date: string, r: string)
    requires Quotable(date) && date != ""
    ensures !(Key(FLATPAK, v) <= date + ("\"" + r))
  {
    var w, t := Key(FLATPAK, v), date + ("\"" + r);
    KeyPrefix(v);
    hide Key;
    var p := if |date| < 8 then |date| else 8;
    if |date| == 8 {
      assert date[0..] == date != "version=";
      p :| 0 <= p < 8 && date[p] != "version="[p];
      assert t[p] == date[p];
    } else {
      assert t[p] == if |date| > 8 then date[p] else '"';
    }
    assert w[p] == w[..9][p] == "version=\""[p];
    assert w[p] != t[p];
  }

  lemma KeyPrefix(v: string)
    ensures |Key(FLATPAK, v)| >= 9 && Key(FLATPAK, v)[..9] == "version=\""
  {
    assert "version=\"" <= Key(FLATPAK, v);
  }

  lemma MoreIsSilent(v: string, date: string, body: string)
    requires IsVersion(v) && Quotable(date) && body != "" && Silent(FLATPAK, body, v)
    ensures Silent(FLATPAK, FlatpakMore(date, body), v)
  {
    var w, open, close := Key(FLATPAK, v), " date=\"", "\"";
    KeyShape(FLATPAK, v);
    assert w[0] == w[..4][0] == 'v';
    hide Find, Key, Absent, NoKeyStart, Quotable;
    SkipNoStart(w, open, date + (close + body));
    SkipDate(v, date, body);
    SkipNoStart(w, close, body);
    FindAbsent(w, body);
    AbsentIfNotFound(w, FlatpakMore(date, body));
    assert FlatpakMore(date, body)[|FlatpakMore(date, body)| - 1] == body[|body| - 1];
  }

  // ---- No entry of the script's spells a reference ---------------------------------------

  lemma EntryIsPlain(f: Format, item: Item)
    requires IsFormat(f) && NoDollar(item.version) && NoDollar(item.more)
    ensures NoDollar(ItemText(f, item))
  {
    FormatIsPlain(f);
    hide NoDollar, IsFormat;
  }

  lemma VersionIsPlain(v: string)
    requires IsVersion(v)
    ensures NoDollar(v)
  {
  }

  lemma FormatIsPlain(f: Format)
    requires IsFormat(f)
    ensures NoDollar(f.open) && NoDollar(f.mark) && NoDollar(f.close)
  {
    if f == FLATPAK {} else {}
  }

  lemma NewEntryIsPlain(run: DatedRun)
    requires NoDollar(run.version) && NoDollar(run.date)
    ensures NoDollar(ItemText(FLATPAK, Item(run.version, FlatpakMore(run.date, NEW_BODY))))
  {
    BodyIsPlain();
    assert NoDollar(" date=\"") && NoDollar("\"");
    hide NoDollar, BODY_OPEN, BODY_TEXT, BODY_CLOSE;
    EntryIsPlain(FLATPAK, Item(run.version, FlatpakMore(run.date, NEW_BODY)));
  }

  lemma BodyIsPlain()
    ensures NoDollar(BODY_OPEN) && NoDollar(BODY_TEXT) && NoDollar(BODY_CLOSE)
  {
  }

  lemma DoapEntryIsPlain(run: DatedRun)
    requires NoDollar(run.version) && NoDollar(run.date)
    ensures NoDollar(ItemText(DOAP, Item(run.version, DoapMore(run))))
  {
    LinkIsPlain();
    hide LINK_OPEN, LINK_HOST, LINK_PATH, LINK_TAG, DOAP_CLOSE;
    assert NoDollar(DoapMore(run));
    hide NoDollar;
    EntryIsPlain(DOAP, Item(run.version, DoapMore(run)));
  }

  lemma LinkIsPlain()
    ensures NoDollar("\n        <created>") && NoDollar(LINK_OPEN) && NoDollar(LINK_HOST)
    ensures NoDollar(LINK_PATH) && NoDollar(LINK_TAG) && NoDollar(DOAP_CLOSE)
  {
  }

  lemma GoodIsAround(head: string, es: seq<Dated>, tail: string, v: string)
    requires GoodMetainfo(head, es, tail, v)
    ensures Around(FLATPAK, head, ItemsOf(es), tail, v)
  {
    hide Absent, Key, IsVersion, Silent, Quotable, FlatpakMore;
    forall i | 0 <= i < |es| ensures Silent(FLATPAK, ItemsOf(es)[i].more, v) {
      MoreIsSilent(v, es[i].date, es[i].body);
    }
  }

  lemma MetainfoStepIs(head: string, es: seq<Dated>, tail: string, run: DatedRun)
    requires GoodMetainfo(head, es, tail, run.version) && NoDollar(run.date)
    ensures UpdateMetainfo(File(FLATPAK, head, ItemsOf(es), tail), run)
         == File(FLATPAK, head, ItemsOf(MetainfoStep(es, run)), tail)
  {
    hide Absent, Key, IsVersion, Quotable, Silent, File, Insert, ReplaceDate, FlatpakMore, Lists, NEW_BODY, NoDollar;
    assert IsVersion(run.version);
    var items := ItemsOf(es);
    GoodIsAround(head, es, tail, run.version);
    ListsIsHas(FLATPAK, head, items, tail, run.version);
    IndexOfIs(items, run.version);
    var k := IndexOf(items, run.version);
    if k < |es| {
      assert es[k].version == items[k].version;
      DateReplaced(head, es, tail, run.version, run.date, k);
    } else {
      var e := Dated(run.version, run.date, NEW_BODY);
      VersionIsPlain(run.version);
      NewEntryIsPlain(run);
      InsertPrepends(FLATPAK, head, items, tail, ItemOf(e));
      assert ItemsOf([e] + es) == [ItemOf(e)] + items;
    }
  }

  lemma DoapStepIs(head: string, items: seq<Item>, tail: string, run: DatedRun)
    requires GoodDoap(head, items, tail, run.version) && NoDollar(run.date)
    ensures UpdateDoap(File(DOAP, head, items, tail), run) == File(DOAP, head, DoapStep(items, run), tail)
  {
    hide Absent, Key, IsVersion, Quotable, Silent, File, Insert, Lists, DoapMore, NoDollar;
    assert IsVersion(run.version);
    ListsIsHas(DOAP, head, items, tail, run.version);
    VersionIsPlain(run.version);
    DoapEntryIsPlain(run);
    InsertPrepends(DOAP, head, items, tail, Item(run.version, DoapMore(run)));
  }

  // ---- Many releases ----------------------------------------------------------------------------

  function UpdateMetainfoAll(text: string, runs: seq<DatedRun>): string
    decreases |runs|
  {
    if runs == [] then text else UpdateMetainfoAll(UpdateMetainfo(text, runs[0]), runs[1..])
  }

  function UpdateDoapAll(text: string, runs: seq<DatedRun>): string
    decreases |runs|
  {
    if runs == [] then text else UpdateDoapAll(UpdateDoap(text, runs[0]), runs[1..])
  }

  function MetainfoSteps(es: seq<Dated>, runs: seq<DatedRun>): seq<Dated>
    decreases |runs|
  {
    if runs == [] then es else MetainfoSteps(MetainfoStep(es, runs[0]), runs[1..])
  }

  function DoapSteps(items: seq<Item>, runs: seq<DatedRun>): seq<Item>
    decreases |runs|
  {
    if runs == [] then items else DoapSteps(DoapStep(items, runs[0]), runs[1..])
  }

  lemma StaysGood(head: string, es: seq<Dated>, tail: string, run: DatedRun, v: string)
    requires GoodMetainfo(head, es, tail, v) && IsVersion(run.version) && MetainfoDate(run.date)
    ensures GoodMetainfo(head, MetainfoStep(es, run), tail, v)
  {
    hide Absent, Key, IsVersion, Silent, Quotable, NoDollar, NEW_BODY;
    NewBodyIsSilent(v);
  }

  lemma {:induction false} MetainfoFile(head: string, es: seq<Dated>, tail: string, runs: seq<DatedRun>)
    requires forall i | 0 <= i < |runs| :: GoodMetainfo(head, es, tail, runs[i].version) && MetainfoDate(runs[i].date)
    ensures UpdateMetainfoAll(File(FLATPAK, head, ItemsOf(es), tail), runs)
         == File(FLATPAK, head, ItemsOf(MetainfoSteps(es, runs)), tail)
    decreases |runs|
  {
    hide Absent, IsVersion, Silent, File, UpdateMetainfo, MetainfoStep, ItemsOf, Quotable, NoDollar;
    if runs != [] {
      MetainfoStepIs(head, es, tail, runs[0]);
      forall i | 0 <= i < |runs[1..]| ensures GoodMetainfo(head, MetainfoStep(es, runs[0]), tail,
          runs[1..][i].version) {
        assert runs[1..][i] == runs[i + 1];
        StaysGood(head, es, tail, runs[0], runs[i + 1].version);
      }
      MetainfoFile(head, MetainfoStep(es, runs[0]), tail, runs[1..]);
    }
  }

  lemma DoapMoreIsSilent(run: DatedRun, v: string)
    requires IsVersion(v) && IsVersion(run.version) && DoapDate(run.date)
    ensures Silent(DOAP, DoapMore(run), v)
  {
    var w := Key(DOAP, v);
    KeyShape(DOAP, v);
    assert w[0] == w[..4][0] && w[1] == w[..4][1] && w[2] == w[..4][2] && w[3] == w[..4][3];
    assert NoKeyStart(w, run.date) && NoKeyStart(w, run.version);
    hide IsVersion, DoapDate, NoKeyStart;
    DoapEndHidesNoKey(w);
    LinkHidesNoKey(w);
    HostHidesNoKey(w);
    TagHidesNoKey(w);
    NoStartJoins(w, "\n        <created>", run.date);
    NoStartJoins(w, LINK_OPEN, LINK_HOST);
    NoStartJoins(w, LINK_PATH, LINK_TAG);
    NoStartJoins(w, LINK_OPEN + LINK_HOST, LINK_PATH + LINK_TAG);
    NoStartJoins(w, run.version, DOAP_CLOSE);
    NoStartJoins(w, "\n        <created>" + run.date, (LINK_OPEN + LINK_HOST) + (LINK_PATH + LINK_TAG));
    NoStartJoins(w, ("\n        <created>" + run.date) + ((LINK_OPEN + LINK_HOST) + (LINK_PATH + LINK_TAG)),
        run.version + DOAP_CLOSE);
    NoStartIsAbsent(w, DoapMore(run));
    assert DoapMore(run)[|DoapMore(run)| - 1] == DOAP_CLOSE[|DOAP_CLOSE| - 1];
  }

  lemma DoapEndHidesNoKey(w: string)
    requires |w| >= 4 && w[0] == '<' && w[1] == 'r' && w[2] == 'e' && w[3] == 'v'
    ensures NoKeyStart(w, DOAP_CLOSE)
  {
  }

  lemma LinkHidesNoKey(w: string)
    requires |w| >= 4 && w[0] == '<' && w[1] == 'r' && w[2] == 'e' && w[3] == 'v'
    ensures NoKeyStart(w, LINK_OPEN)
  {
  }

  lemma HostHidesNoKey(w: string)
    requires |w| >= 4 && w[0] == '<' && w[1] == 'r' && w[2] == 'e' && w[3] == 'v'
    ensures NoKeyStart(w, LINK_HOST)
  {
    assert '<' !in LINK_HOST;
    hide LINK_HOST;
  }

  lemma TagHidesNoKey(w: string)
    requires |w| >= 4 && w[0] == '<' && w[1] == 'r' && w[2] == 'e' && w[3] == 'v'
    ensures NoKeyStart(w, LINK_PATH) && NoKeyStart(w, LINK_TAG)
  {
  }

  lemma DoapStaysGood(head: string, items: seq<Item>, tail: string, run: DatedRun, v: string)
    requires GoodDoap(head, items, tail, v) && IsVersion(run.version) && DoapDate(run.date)
    ensures GoodDoap(head, DoapStep(items, run), tail, v)
  {
    hide Absent, Key, IsVersion, Silent, DoapDate, DoapMore, Has;
    DoapMoreIsSilent(run, v);
  }

  lemma {:induction false} DoapFile(head: string, items: seq<Item>, tail: string, runs: seq<DatedRun>)
    requires forall i | 0 <= i < |runs| :: GoodDoap(head, items, tail, runs[i].version) && DoapDate(runs[i].date)
    ensures UpdateDoapAll(File(DOAP, head, items, tail), runs) == File(DOAP, head, DoapSteps(items, runs), tail)
    decreases |runs|
  {
    hide Absent, IsVersion, Silent, File, UpdateDoap, NoDollar, DoapMore, Has, DoapStep;
    if runs != [] {
      var run := runs[0];
      DoapStepIs(head, items, tail, run);
      var next := DoapStep(items, run);
      forall i | 0 <= i < |runs[1..]| ensures GoodDoap(head, next, tail, runs[1..][i].version) {
        assert runs[1..][i] == runs[i + 1];
        DoapStaysGood(head, items, tail, run, runs[i + 1].version);
      }
      DoapFile(head, next, tail, runs[1..]);
    }
  }
}
