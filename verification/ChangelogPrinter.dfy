// The layout of the older entries of apps/fluux/src/data/changelog.ts as a printer, what a
// release means once it is parsed, and the exact condition under which printing
// and parsing agree.

module ChangelogPrinter {
  import opened Text
  import opened FieldScan
  import opened ChangelogParser

  // ---- Printing -----------------------------------------------------------

  function ItemText(item: string): string {
    "          '" + (Escape(item) + ("'" + ",\n"))
  }

  function ItemsText(items: seq<string>): string {
    if items == [] then "" else ItemText(items[0]) + ItemsText(items[1..])
  }

  function SectionHead(kind: string): string {
    "      {\n        type: '" + (kind + ("'" + ",\n        items: [\n"))
  }

  const SECTION_FOOT := "        ],\n      },\n"

  function SectionText(s: Section): string {
    SectionHead(s.kind) + (ItemsText(s.items) + SECTION_FOOT)
  }

  function SectionsText(ss: seq<Section>): string {
    if ss == [] then "" else SectionText(ss[0]) + SectionsText(ss[1..])
  }

  const ENTRY_OPEN := "  {\n    "
  const ENTRY_FOOT := "    ],\n  },\n"
  const VERSION_OPEN := "version: '"
  const DATE_OPEN := ",\n    date: '"
  const SECTIONS_OPEN := ",\n    sections: [\n"

  // An entry from its version's closing quote on.
  function EntryRest(e: Entry): string {
    DATE_OPEN + (e.date + ("'" + (SECTIONS_OPEN + (SectionsText(e.sections) + ENTRY_FOOT))))
  }

  function EntryText(e: Entry): string {
    VERSION_OPEN + (e.version + ("'" + EntryRest(e)))
  }

  function EntriesText(es: seq<Entry>): string {
    if es == [] then "]\n" else ENTRY_OPEN + (EntryText(es[0]) + EntriesText(es[1..]))
  }

  const HEADER := "export const changelog" + ": ChangelogEntry[] = [\n"

  function File(preamble: string, es: seq<Entry>): string {
    preamble + (HEADER + EntriesText(es))
  }

  // ---- The domain -----------------------------------------------------------

  // Text that is its own single-quoted TypeScript literal.
  predicate PlainLiteral(s: string) {
    s != "" && forall i | 0 <= i < |s| :: s[i] !in {'\'', '\\', '\n', '\r'}
  }

  predicate WellFormedSection(s: Section) {
    s.kind != "" && AllWord(s.kind)
  }

  predicate WellFormed(e: Entry) {
    && PlainLiteral(e.version)
    && PlainLiteral(e.date)
    && forall i | 0 <= i < |e.sections| :: WellFormedSection(e.sections[i])
  }

  // No `version:` in the file's opening comment and types is followed by a quote.
  predicate Quiet(preamble: string) {
    forall i | 0 <= i < |preamble| :: !OpensAt(VersionField, preamble[i..])
  }

  // ---- What parsing is meant to give back ------------------------------------

  function NonBlank(items: seq<string>): seq<string> {
    if items == [] then []
    else if HasText(items[0]) then [items[0]] + NonBlank(items[1..])
    else NonBlank(items[1..])
  }

  function Kept(ss: seq<Section>): seq<Section> {
    if ss == [] then []
    else if NonBlank(ss[0].items) == [] then Kept(ss[1..])
    else [Section(ss[0].kind, NonBlank(ss[0].items))] + Kept(ss[1..])
  }

  function Normal(e: Entry): Entry {
    Entry(e.version, Trim(e.date), Kept(e.sections))
  }

  function Normals(es: seq<Entry>): seq<Entry> {
    if es == [] then [] else [Normal(es[0])] + Normals(es[1..])
  }

  // ---- When it does ------------------------------------------------------------

  // The depth the counter reaches over raw text, zero once it closes.
  function Depth(s: string, depth: nat): nat {
    if depth == 0 || s == "" then depth else Depth(s[1..], Nest(s[0], depth))
  }

  function DepthOver(items: seq<string>, depth: nat): nat {
    if items == [] then depth else DepthOver(items[1..], Depth(items[0], depth))
  }

  // Brackets: every section but an entry's last one must balance, the last one
  // must only never close more than it opens.
  predicate BracketsFit(ss: seq<Section>) {
    ss != [] ==>
      && (if |ss| == 1 then DepthOver(ss[0].items, 1) >= 1 else DepthOver(ss[0].items, 1) == 1)
      && BracketsFit(ss[1..])
  }

  // `version:` before a closing quote: fatal unless that is the file's last quote.
  predicate ItemsQuiet(items: seq<string>, followed: bool) {
    items != [] ==>
      && (EndsInWord(VersionField, items[0]) ==> |items| == 1 && !followed)
      && ItemsQuiet(items[1..], followed)
  }

  predicate SectionsQuiet(ss: seq<Section>, followed: bool) {
    ss != [] ==>
      && ItemsQuiet(ss[0].items, |ss| > 1 || followed)
      && SectionsQuiet(ss[1..], followed)
  }

  predicate EntryQuiet(e: Entry, followed: bool) {
    && (EndsInWord(VersionField, e.date) ==> e.sections == [] && !followed)
    && SectionsQuiet(e.sections, followed)
  }

  predicate Faithful(es: seq<Entry>) {
    es != [] ==>
      && !EndsInWord(DateField, es[0].version)
      && EntryQuiet(es[0], |es| > 1)
      && BracketsFit(es[0].sections)
      && Faithful(es[1..])
  }
}
