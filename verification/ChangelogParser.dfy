// parseChangelogTs of scripts/prepare-release.js: the four scanning layers as
// functions on text, and the loops of the script proved against them.

module ChangelogParser {
  import opened Text
  import opened FieldScan

  datatype Section = Section(kind: string, items: seq<string>)
  datatype Entry = Entry(version: string, date: string, sections: seq<Section>)

  // A versionPositions element.
  datatype Mark = Mark(version: string, index: nat)

  // ---- Layer 3: the bracket counter ------------------------------------

  function Nest(c: char, depth: nat): nat
    requires depth > 0
  {
    if c == '[' then depth + 1 else if c == ']' then depth - 1 else depth
  }

  // How many characters of s, the text behind an opening bracket, the counter
  // consumes before the depth is zero or the text ends.
  function CloseLen(s: string, depth: nat): (n: nat)
    ensures n <= |s|
  {
    if depth == 0 || s == "" then 0 else 1 + CloseLen(s[1..], Nest(s[0], depth))
  }

  // The slice taken as the array's content: the last character consumed is
  // dropped, whether or not it is a bracket.
  function Enclosed(s: string, depth: nat): string {
    var n := CloseLen(s, depth);
    if n == 0 then "" else s[..n - 1]
  }

  // ---- Layer 4: the quote and escape automaton --------------------------

  function Strings(s: string, inString: bool, current: string, escapeNext: bool): seq<string> {
    if s == "" then []
    else
      var c, rest := s[0], s[1..];
      if escapeNext then Strings(rest, inString, current + [c], false)
      else if c == '\\' then Strings(rest, inString, current, true)
      else if c == '\'' && !inString then Strings(rest, true, "", false)
      else if c == '\'' then Pushed(current) + Strings(rest, false, current, false)
      else if inString then Strings(rest, inString, current + [c], false)
      else Strings(rest, inString, current, false)
  }

  function Pushed(item: string): seq<string> {
    if Blank(item) then [] else [item]
  }

  // ---- Layer 2: the sections of one entry --------------------------------

  function ItemsBehind(open: string): seq<string> {
    Strings(Enclosed(open, 1), false, "", false)
  }

  // The items found behind the type match at the front of m.
  function ItemsAt(m: string): seq<string> {
    var a := m[Find("items:", m)..];
    var o := Find("[", a);
    if a == "" || o == |a| then [] else ItemsBehind(a[o + 1..])
  }

  function Emit(kind: string, items: seq<string>): seq<Section> {
    if items == [] then [] else [Section(kind, items)]
  }

  function SectionsIn(block: string): seq<Section>
    decreases |block|
  {
    var m := block[Next(TypeField, block)..];
    if !MatchAt(TypeField, m) then []
    else Emit(Capture(TypeField, m), ItemsAt(m)) + SectionsIn(Behind(TypeField, m))
  }

  function DateIn(block: string): string {
    var m := block[Next(DateField, block)..];
    if !MatchAt(DateField, m) then ""
    else Trim(Capture(DateField, m))
  }

  function EntryOf(version: string, block: string): Entry {
    Entry(version, DateIn(block), SectionsIn(block))
  }

  // ---- Layer 1: splitting the file at its versions -----------------------

  function Marks(content: string, from: nat): seq<Mark>
    requires from <= |content|
    decreases |content| - from
  {
    var s := content[from..];
    var i := Next(VersionField, s);
    var m := s[i..];
    if !MatchAt(VersionField, m) then []
    else [Mark(Capture(VersionField, m), from + i)] + Marks(content, |content| - |Behind(VersionField, m)|)
  }

  // String.prototype.slice for indices that are not negative.
  function Slice(s: string, i: nat, j: nat): string {
    if i <= j <= |s| then s[i..j] else ""
  }

  function EndOf(marks: seq<Mark>, length: nat): nat {
    if marks == [] then length else marks[0].index
  }

  function EntriesOf(content: string, marks: seq<Mark>): seq<Entry> {
    if marks == [] then []
    else
      [EntryOf(marks[0].version, Slice(content, marks[0].index, EndOf(marks[1..], |content|)))]
      + EntriesOf(content, marks[1..])
  }

  // A bracket opens at or behind the declaration; a missing declaration makes
  // the search for it start at the front.
  predicate HasArray(content: string) {
    var h := Find("export const changelog", content);
    '[' in content[if h == |content| then 0 else h..]
  }

  function Parse(content: string): seq<Entry> {
    if HasArray(content) then EntriesOf(content, Marks(content, 0)) else []
  }

  // ---- The loops of the script --------------------------------------------

  method MatchBracket(s: string) returns (arrayClose: nat)
    ensures arrayClose == CloseLen(s, 1)
  {
    var depth: nat := 1;
    arrayClose := 0;
    while depth > 0 && arrayClose < |s|
      invariant arrayClose <= |s|
      invariant arrayClose + CloseLen(s[arrayClose..], depth) == CloseLen(s, 1)
      decreases |s| - arrayClose
    {
      assert s[arrayClose..][1..] == s[arrayClose + 1..];
      if s[arrayClose] == '[' {
        depth := depth + 1;
      } else if s[arrayClose] == ']' {
        depth := depth - 1;
      }
      arrayClose := arrayClose + 1;
    }
  }

  method ExtractStrings(itemsContent: string) returns (items: seq<string>)
    ensures items == Strings(itemsContent, false, "", false)
  {
    items := [];
    var inString, currentItem, escapeNext := false, "", false;
    for j := 0 to |itemsContent|
      invariant items + Strings(itemsContent[j..], inString, currentItem, escapeNext)
             == Strings(itemsContent, false, "", false)
    {
      var c := itemsContent[j];
      assert itemsContent[j..][1..] == itemsContent[j + 1..];
      if escapeNext {
        currentItem := currentItem + [c];
        escapeNext := false;
        continue;
      }
      if c == '\\' {
        escapeNext := true;
        continue;
      }
      if c == '\'' && !inString {
        inString := true;
        currentItem := "";
      } else if c == '\'' && inString {
        inString := false;
        TrimsToNothing(currentItem);
        if Trim(currentItem) != "" {
          items := items + [currentItem];
        }
      } else if inString {
        currentItem := currentItem + [c];
      }
    }
  }

  // Lines 340-388; an array that is not found leaves no items.
  method ExtractItems(m: string) returns (items: seq<string>)
    ensures items == ItemsAt(m)
  {
    var itemsStart := Find("items:", m);
    if itemsStart == |m| {
      return [];
    }
    var a := m[itemsStart..];
    var arrayOpen := Find("[", a);
    if arrayOpen == |a| {
      return [];
    }
    var open := a[arrayOpen + 1..];
    var arrayClose := MatchBracket(open);
    items := ExtractStrings(if arrayClose == 0 then "" else open[..arrayClose - 1]);
  }

  lemma SectionsStep(s: string, last: nat) returns (m: string, last': nat)
    requires last <= |s| && Next(TypeField, s[last..]) < |s[last..]|
    ensures m == s[last + Next(TypeField, s[last..])..] && MatchAt(TypeField, m)
    ensures last' == |s| - |Behind(TypeField, m)| && last < last' <= |s|
    ensures SectionsIn(s[last..]) == Emit(Capture(TypeField, m), ItemsAt(m)) + SectionsIn(s[last'..])
  {
    hide MatchAt, Opened;
    m, last' := Advance(TypeField, s, last);
  }

  method ParseSections(entryContent: string) returns (sections: seq<Section>)
    ensures sections == SectionsIn(entryContent)
  {
    hide MatchAt, Opened, ItemsAt;
    sections := [];
    var lastIndex := 0;
    var typeIndex := Next(TypeField, entryContent);
    assert entryContent[0..] == entryContent;
    while typeIndex < |entryContent|
      invariant lastIndex <= |entryContent|
      invariant typeIndex == lastIndex + Next(TypeField, entryContent[lastIndex..])
      invariant sections + SectionsIn(entryContent[lastIndex..]) == SectionsIn(entryContent)
      decreases |entryContent| - lastIndex
    {
      ghost var before := sections;
      ghost var found, after := SectionsStep(entryContent, lastIndex);
      var m := entryContent[typeIndex..];
      assert m == found;
      lastIndex := |entryContent| - |Behind(TypeField, m)|;
      typeIndex := lastIndex + Next(TypeField, entryContent[lastIndex..]);
      var items := ExtractItems(m);
      if |items| > 0 {
        sections := sections + [Section(Capture(TypeField, m), items)];
      }
      assert sections == before + Emit(Capture(TypeField, m), ItemsAt(m));
      Assoc(before, Emit(Capture(TypeField, m), ItemsAt(m)), SectionsIn(entryContent[lastIndex..]));
    }
  }

  lemma MarksStep(s: string, last: nat) returns (m: string, last': nat)
    requires last <= |s| && Next(VersionField, s[last..]) < |s[last..]|
    ensures m == s[last + Next(VersionField, s[last..])..] == s[last..][Next(VersionField, s[last..])..]
    ensures MatchAt(VersionField, m)
    ensures last' == |s| - |Behind(VersionField, m)| && last < last' <= |s| && s[last'..] == Behind(VersionField, m)
    ensures Marks(s, last) == [Mark(Capture(VersionField, m), last + Next(VersionField, s[last..]))] + Marks(s, last')
  {
    hide MatchAt, Opened;
    m, last' := Advance(VersionField, s, last);
  }

  method VersionPositions(content: string) returns (marks: seq<Mark>)
    ensures marks == Marks(content, 0)
  {
    hide MatchAt, Opened;
    marks := [];
    var lastIndex := 0;
    var index := Next(VersionField, content);
    assert content[0..] == content;
    while index < |content|
      invariant lastIndex <= |content|
      invariant index == lastIndex + Next(VersionField, content[lastIndex..])
      invariant marks + Marks(content, lastIndex) == Marks(content, 0)
      decreases |content| - lastIndex
    {
      ghost var before := marks;
      ghost var found, after := MarksStep(content, lastIndex);
      var m := content[index..];
      assert m == found;
      var mark := Mark(Capture(VersionField, m), index);
      marks := marks + [mark];
      lastIndex := |content| - |Behind(VersionField, m)|;
      Assoc(before, [mark], Marks(content, lastIndex));
      index := lastIndex + Next(VersionField, content[lastIndex..]);
    }
  }

  method ParseChangelogTs(content: string) returns (entries: seq<Entry>)
    ensures entries == Parse(content)
  {
    entries := [];
    var declared := Find("export const changelog", content);
    var fromIndex := if declared == |content| then 0 else declared;
    if '[' !in content[fromIndex..] {
      return;
    }
    var marks := VersionPositions(content);
    for i := 0 to |marks|
      invariant entries + EntriesOf(content, marks[i..]) == EntriesOf(content, marks)
    {
      ghost var before := entries;
      assert marks[i..][1..] == marks[i + 1..];
      var nextVersionIndex := if i < |marks| - 1 then marks[i + 1].index else |content|;
      var entryContent := Slice(content, marks[i].index, nextVersionIndex);
      var dateMatch := entryContent[Next(DateField, entryContent)..];
      var date := if MatchAt(DateField, dateMatch) then Trim(Capture(DateField, dateMatch)) else "";
      var sections := ParseSections(entryContent);
      var entry := Entry(marks[i].version, date, sections);
      entries := entries + [entry];
      assert EntriesOf(content, marks[i..]) == [entry] + EntriesOf(content, marks[i + 1..]);
      Assoc(before, [entry], EntriesOf(content, marks[i + 1..]));
    }
  }

  // ---- One pass instead of two ---------------------------------------------

  // The same result without absolute positions: each version match is followed
  // at once by its block.
  function ParseFrom(s: string): seq<Entry>
    decreases |s|
  {
    var m := s[Next(VersionField, s)..];
    if !MatchAt(VersionField, m) then []
    else
      var r := Behind(VersionField, m);
      [EntryOf(Capture(VersionField, m), m[..|m| - |r| + Next(VersionField, r)])] + ParseFrom(r)
  }

  lemma EntriesCons(content: string, mark: Mark, rest: seq<Mark>)
    ensures EntriesOf(content, [mark] + rest)
         == [EntryOf(mark.version, Slice(content, mark.index, EndOf(rest, |content|)))] + EntriesOf(content, rest)
  {
  }

  lemma ParseFromStep(s: string)
    requires Next(VersionField, s) < |s|
    ensures var m := s[Next(VersionField, s)..];
            MatchAt(VersionField, m) &&
            var r := Behind(VersionField, m);
            && |m| - |r| + Next(VersionField, r) <= |m|
            && ParseFrom(s) == [EntryOf(Capture(VersionField, m), m[..|m| - |r| + Next(VersionField, r)])]
                + ParseFrom(r)
  {
    NextMatches(VersionField, s);
    hide Next, MatchAt, Opened, EntryOf;
  }

  lemma ParseEnd(content: string, from: nat)
    requires from <= |content| && Next(VersionField, content[from..]) == |content[from..]|
    ensures Marks(content, from) == [] && ParseFrom(content[from..]) == []
  {
  }

  lemma {:induction false} OnePass(content: string, from: nat)
    requires from <= |content|
    ensures EntriesOf(content, Marks(content, from)) == ParseFrom(content[from..])
    ensures EndOf(Marks(content, from), |content|) == from + Next(VersionField, content[from..])
    decreases |content| - from
  {
    hide Opened, MatchAt, EntryOf, Next, Marks, ParseFrom;
    var s := content[from..];
    if Next(VersionField, s) == |s| {
      ParseEnd(content, from);
    } else {
      ParseFromStep(s);
      var m, last' := MarksStep(content, from);
      OnePass(content, last');
      var rest, r := Marks(content, last'), Behind(VersionField, m);
      var mark := Mark(Capture(VersionField, m), from + Next(VersionField, s));
      EntriesCons(content, mark, rest);
      var j := last' + Next(VersionField, r);
      assert content[mark.index..j] == m[..|m| - |r| + Next(VersionField, r)];
    }
  }
}
