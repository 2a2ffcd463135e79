// What holds of every entry parseChangelogTs can return, whatever the text, and
// when it returns none.

module ParsedEntries {
  import opened Text
  import opened FieldScan
  import opened ChangelogParser

  // ---- A match, spelled out ------------------------------------------------------

  lemma {:induction false} ValueIs(f: Field, r: string)
    ensures var value := r[..ValueLen(f, r)]; '\'' !in value && (f.TypeField? ==> AllWord(value))
  {
    if r != "" && InValue(f, r[0]) {
      ValueIs(f, r[1..]);
      assert r[..ValueLen(f, r)] == [r[0]] + r[1..][..ValueLen(f, r[1..])];
    }
  }

  lemma {:induction false} OpeningIs(s: string)
    requires Opens(s)
    ensures AllSpace(s[..OpenLen(s) - 1]) && s[OpenLen(s) - 1] == '\''
  {
    if s[0] != '\'' {
      OpeningIs(s[1..]);
      var n := OpenLen(s) - 1;
      assert s[..n] == [s[0]] + s[1..][..n - 1];
    }
  }

  function Keyword(f: Field): string {
    match f
    case VersionField => "version:"
    case DateField => "date:"
    case TypeField => "type:"
  }

  predicate Valued(f: Field, value: string) {
    value != "" && if f.TypeField? then AllWord(value) else '\'' !in value
  }

  // A match is the keyword, spaces, and a non-empty quoted value: of word
  // characters for a type, of anything but a quote otherwise.
  lemma MatchIs(f: Field, s: string) returns (space: string)
    requires MatchAt(f, s)
    ensures AllSpace(space) && Valued(f, Capture(f, s)) && '\'' !in Capture(f, s)
    ensures s == Keyword(f) + (space + ("'" + (Capture(f, s) + ("'" + Behind(f, s)))))
  {
    var n, v := MatchParts(f, s);
    KeywordIs(f);
    hide MatchAt, Capture, Behind, Word, Keyword, Valued, AllSpace, AllWord;
    var w, t := Word(f), s[|Word(f)|..];
    space := t[..n - 1];
    MatchPieces(t, n, v);
    assert t == space + ("'" + (Capture(f, s) + ("'" + Behind(f, s))));
    FrontAndRest(w, s);
  }

  lemma MatchParts(f: Field, s: string) returns (n: nat, v: nat)
    requires MatchAt(f, s)
    ensures Word(f) <= s
    ensures var t := s[|Word(f)|..];
            && 0 < n && 0 < v && n + v < |t|
            && AllSpace(t[..n - 1]) && t[n - 1] == '\'' && t[n..][v] == '\''
            && Capture(f, s) == t[n..][..v] && Behind(f, s) == t[n..][v + 1..]
    ensures Valued(f, Capture(f, s)) && '\'' !in Capture(f, s)
  {
    var t := s[|Word(f)|..];
    OpeningIs(t);
    ValueIs(f, Opened(f, s));
    n, v := OpenLen(t), ValueLen(f, Opened(f, s));
    hide Opens, OpenLen, ValueLen, Word, AllSpace, AllWord;
  }

  lemma MatchPieces(t: string, n: nat, v: nat)
    requires 0 < n <= |t| && t[n - 1] == '\'' && n + v < |t| && t[n..][v] == '\''
    ensures t == t[..n - 1] + ("'" + (t[n..][..v] + ("'" + t[n..][v + 1..])))
  {
    var r := t[n..];
    assert r == r[..v] + ("'" + r[v + 1..]);
    assert t == t[..n - 1] + ("'" + r);
  }

  // Wherever such a text stands there is a match, and it captures the value.
  lemma IsMatch(f: Field, space: string, value: string, rest: string)
    requires AllSpace(space) && Valued(f, value)
    ensures var s := Keyword(f) + (space + ("'" + (value + ("'" + rest))));
            MatchAt(f, s) && Capture(f, s) == value && Behind(f, s) == rest
  {
    hide MatchAt, Capture, Behind, InValue, Word, Keyword, AllSpace, AllWord;
    var x := Keyword(f) + space;
    KeywordIs(f);
    assert x[|Word(f)|..] == space;
    ValuedIn(f, value);
    FieldMatches(f, x, value, rest);
    Quoted(Keyword(f), space, value, rest);
  }

  lemma KeywordIs(f: Field)
    ensures Word(f) == Keyword(f)
  {
  }

  lemma Quoted(w: string, space: string, value: string, rest: string)
    ensures (w + space) + "'" + (value + ("'" + rest)) == w + (space + ("'" + (value + ("'" + rest))))
  {
  }

  lemma ValuedIn(f: Field, value: string)
    requires Valued(f, value)
    ensures forall i | 0 <= i < |value| :: InValue(f, value[i])
  {
  }

  // ---- Every entry -------------------------------------------------------------------

  // Each has text besides spaces.
  predicate AllText(items: seq<string>) {
    forall i | 0 <= i < |items| :: HasText(items[i])
  }

  predicate FullSection(s: Section) {
    s.kind != "" && AllWord(s.kind) && s.items != [] && AllText(s.items)
  }

  predicate Trimmed(s: string) {
    s != "" ==> !IsSpace(s[0]) && !IsSpace(s[|s| - 1])
  }

  predicate FullEntry(e: Entry) {
    && e.version != "" && '\'' !in e.version
    && Trimmed(e.date)
    && forall i | 0 <= i < |e.sections| :: FullSection(e.sections[i])
  }

  lemma {:induction false} StringsHaveText(s: string, inString: bool, current: string, escapeNext: bool)
    ensures AllText(Strings(s, inString, current, escapeNext))
  {
    if s != "" {
      var c, rest := s[0], s[1..];
      hide HasText;
      if escapeNext {
        StringsHaveText(rest, inString, current + [c], false);
      } else if c == '\\' {
        StringsHaveText(rest, inString, current, true);
      } else if c == '\'' && !inString {
        StringsHaveText(rest, true, "", false);
      } else if c == '\'' {
        StringsHaveText(rest, false, current, false);
        TrimsToNothing(current);
      } else if inString {
        StringsHaveText(rest, inString, current + [c], false);
      } else {
        StringsHaveText(rest, inString, current, false);
      }
    }
  }

  lemma {:induction false} SectionsAreFull(block: string)
    ensures forall i | 0 <= i < |SectionsIn(block)| :: FullSection(SectionsIn(block)[i])
    decreases |block|
  {
    hide MatchAt, Capture, Behind, Next, Strings, HasText, AllWord, Enclosed;
    var m := block[Next(TypeField, block)..];
    if MatchAt(TypeField, m) {
      var space := MatchIs(TypeField, m);
      ItemsHaveText(m);
      SectionsAreFull(Behind(TypeField, m));
    }
  }

  lemma ItemsHaveText(m: string)
    ensures AllText(ItemsAt(m))
  {
    hide HasText, Enclosed, Strings, Find;
    var a := m[Find("items:", m)..];
    var o := Find("[", a);
    if a != "" && o != |a| {
      StringsHaveText(Enclosed(a[o + 1..], 1), false, "", false);
    }
  }

  lemma TrimTrims(s: string)
    ensures Trimmed(Trim(s))
  {
    var t := TrimStart(s);
    assert Trim(s) <= t;
  }

  lemma DateIsTrimmed(block: string)
    ensures Trimmed(DateIn(block))
  {
    hide Trimmed, Trim, MatchAt, Capture, Next;
    var m := block[Next(DateField, block)..];
    if MatchAt(DateField, m) {
      TrimTrims(Capture(DateField, m));
    } else {
      assert Trimmed("") by { TrimTrims(""); EmptyIsTrimmed(); }
    }
  }

  lemma EmptyIsTrimmed()
    ensures Trimmed("")
  {
  }

  lemma EntryIsFull(version: string, block: string)
    requires version != "" && '\'' !in version
    ensures FullEntry(EntryOf(version, block))
  {
    hide FullSection, Trimmed, DateIn, SectionsIn;
    DateIsTrimmed(block);
    SectionsAreFull(block);
  }

  lemma {:induction false} PassIsFull(s: string)
    ensures forall i | 0 <= i < |ParseFrom(s)| :: FullEntry(ParseFrom(s)[i])
    decreases |s|
  {
    hide MatchAt, Capture, Behind, Next, EntryOf, FullEntry;
    var m := s[Next(VersionField, s)..];
    if MatchAt(VersionField, m) {
      var space := MatchIs(VersionField, m);
      var r := Behind(VersionField, m);
      PassIsFull(r);
      EntryIsFull(Capture(VersionField, m), m[..|m| - |r| + Next(VersionField, r)]);
    }
  }

  // Whatever the text: every version is a non-empty quote-free text, every date
  // is trimmed, every type is a word, every section has an item, and every item
  // has a character that is no space.
  lemma ParsedIsFull(content: string)
    ensures forall i | 0 <= i < |Parse(content)| :: FullEntry(Parse(content)[i])
  {
    hide FullEntry, EntriesOf, Marks, HasArray, ParseFrom;
    OnePass(content, 0);
    assert content[0..] == content;
    PassIsFull(content);
  }

  lemma ItemsAreNeverBlank(content: string, i: nat, j: nat, k: nat)
    requires i < |Parse(content)| && j < |Parse(content)[i].sections|
    ensures var items := Parse(content)[i].sections[j].items;
            items != [] && (k < |items| ==> exists p | 0 <= p < |items[k]| :: !IsSpace(items[k][p]))
  {
    hide Parse;
    ParsedIsFull(content);
    var e := Parse(content)[i];
    assert FullEntry(e) && FullSection(e.sections[j]);
    if k < |e.sections[j].items| {
      assert HasText(e.sections[j].items[k]);
    }
  }

  // ---- When there is nothing -----------------------------------------------------------

  // No bracket behind the declaration, or none at all without a declaration:
  // no entries, whatever versions the text holds.
  lemma NoArrayNoEntries(a: string, b: string)
    requires forall k | 0 <= k < |a| :: !("export const changelog" <= (a + ("export const changelog" + b))[k..])
    requires '[' !in b
    ensures Parse(a + ("export const changelog" + b)) == []
  {
    var w := "export const changelog";
    var content := a + (w + b);
    assert content[|a|..] == w + b;
    FindFirst(w, content);
    assert Find(w, content) == |a|;
    assert '[' !in w;
  }

  lemma NoBracketNoEntries(content: string)
    requires '[' !in content
    ensures Parse(content) == []
  {
    var h := Find("export const changelog", content);
    assert forall i | 0 <= i < |content[h..]| :: content[h..][i] == content[h + i];
  }

  // Without the word there is no date.
  lemma NoDate(block: string)
    requires forall k | 0 <= k <= |block| :: !("date:" <= block[k..])
    ensures DateIn(block) == ""
  {
    NextMatches(DateField, block);
  }

  // Without the word or a bracket behind it a type has no items.
  lemma NoItems(m: string)
    requires (forall k | 0 <= k < |m| :: !("items:" <= m[k..])) || '[' !in m
    ensures ItemsAt(m) == []
  {
    FindFirst("items:", m);
    var a := m[Find("items:", m)..];
    BracketFound(a);
    hide Strings, Enclosed, Find;
    assert '[' in a ==> '[' in m;
  }

  lemma BracketFound(a: string)
    ensures Find("[", a) < |a| ==> '[' in a
  {
    FindFirst("[", a);
    var o := Find("[", a);
    assert o < |a| ==> a[o..][0] == a[o];
  }
}
