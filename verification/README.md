# Fluux Messenger: release scripts and trace monitors, verified

This project models the algorithms inside the release tooling and the browser
suites of Fluux Messenger and proves what they promise. `dafny verify
dfyconfig.toml` checks all of it.

## What is modelled

**The changelog parser and its printers** (`scripts/prepare-release.js`).
`FieldScan` is the leftmost scan for `word:\s*'value'`, `ChangelogParser` the
script's loops with the functions they compute, `ChangelogPrinter` the layout
of the older entries of `changelog.ts`. `ChangelogItems` proves what the bracket
counter and the quote automaton make of any array of well-quoted literals,
whatever stands between them; `ParsedEntries` what a match is, and what holds of
every entry of every text. `ChangelogItems`, `ChangelogSections`,
`ChangelogAgreement`, `ChangelogVersions` and `ChangelogRoundTrip` build up to
`RoundTrip`: parsing the printed file gives the changelog back (dates trimmed,
items without a non-space character and empty sections dropped) if and only if
`Faithful` holds of it. `Faithful` is read off
the entries: a version does not end in `date:` and optional space; a date or
item ends in `version:` and optional space only if its closing quote is the
last quote of the file; the brackets of each section's items balance, except
that an entry's last section may leave brackets open. Two of these clauses are
wider than "items are balanced and none ends in `version:`": those extra cases
do survive the script.

**What a release run writes.** `DebianChangelog` (top stanza replaced),
`ReleaseLists` and `ReleaseHistory` (Flatpak metainfo and DOAP lists, as text
and as lists, over any number of runs), `ReleaseDocs` and `ReleaseAgreement`
(CHANGELOG.md, RELEASE_NOTES.md, the Debian bullets, and readers that get the
same items back from each), `ReleaseRun` (the whole run as a class whose fields
are the files) with `RunOutcomes` (when it refuses, what it writes).
`WrittenFiles` and `PackagingText` give every written file line by line.
`Templates` is GetSubstitution of section 22.1.3.19.1 of ECMA-262, through which
the two XML steps put their entries and dates.

**Release assets** (`scripts/rename-release-assets.js`). `AssetNames` is the
table of 19 patterns as data with a matching relation, `AssetSpellings` the
names each row matches, spelled out; `RenameProtocol` the plan and the
DELETE/PATCH loop against a remote release that may stop answering after any
request; `RenameSafety` what every interrupted or repeated run keeps;
`RenameRestart` when a restart is harmless; `UpdaterManifest` the platform table
of `latest.json`.

**Layout and trace monitors** (`e2e/`). `HingeWalk` (visible part of a control,
against containing-block chains of sections 10.1 and 11.1.1 of CSS 2.1) with
`HingeSteps` (what each ancestor does), `ResidentTop`, `NativePan`,
`BacklogStream`, `SettledLayout`, `TypingFixtures` with `TypingRuns`,
`TouchRegistry` with `TouchRuns` (listener lists under section 2.7 of the WHATWG
DOM Standard). The backlog stream delivers a prefix under every clock
`performance.now()` can give; `PrefixIff` says how much of the clock that needs.

`Text` and `Prelude` hold what they share.

Classes and methods with loops stand where the source updates variables; each
is proved equal to a function, and the properties are lemmas about it. Text is
a sequence of characters, measured lengths and clocks are reals. File contents,
frame traces, clock readings and the date spelled for Debian are parameters.

## Where the code does less than it seems to

Each of these is a lemma with the exact condition, and one at an input the code
can receive.

- A tag that starts with `vv`: `main` strips one `v`, `getNewName` another, and
  every platform URL of `latest.json` then names another file than the one its
  signature signs (`UpdaterManifest.UrlNamesSignedFile`; tag `vv1.0.0` in
  `UpdaterManifest.DoubleVTag`).
- Restarting the rename phase keeps every asset that was due for renaming if and
  only if the targets are distinct (`RenameRestart.RestartSafeIff`). Otherwise
  the run fails with the first of two colliding assets renamed, and the first
  request of the next run deletes it (`RenameRestart.FailedRunEndangers`; two
  disk images in `RenameRestart.TwoBundles`).
- The Debian file is the last stanza above the original text if and only if no
  item of an earlier run holds a line that reads as a signature line
  (`DebianChangelog.History`; such an item in `DebianChangelog.SignedItemStays`
  and, for a repeated run, `ReleaseRun.SignedItemChangesAgain`). A line
  continuation in changelog.ts is all it takes for an item to span lines
  (`ChangelogItems.ContinuedLine`).
- A run that does not succeed leaves the files alone if and only if there is an
  entry to read; a changelog without one is noticed only after the packaging
  files have been rewritten (`ReleaseRun.FailsHarmlesslyFor`; a double-quoted
  changelog in `ReleaseRun.DoubleQuotedFails`).
- Unless an earlier entry spells the version's heading, the three release outputs
  say the same if and only if no item of the version spans lines
  (`ReleaseAgreement.OneMeaning`; `ReleaseAgreement.ContinuedItemDiffers`). If
  one does, CHANGELOG.md shows a piece of that entry instead.
- The resident-top probe observes anything if and only if the first key is Home
  (`ResidentTop.ObservesIffHomeFirst`; End before Home in
  `ResidentTop.EndBeforeHome`).
- Passing neighbours bound the drift of every message by a pixel a frame if and
  only if between two samples of one message in one row every sample shows it,
  or the order rises and no pan passes (`NativePan.DriftIff`; three samples in
  `NativePan.RowsMustNameMessages`).

## Model

| member | source | states |
|---|---|---|
| `FieldScan.NextMatches` | scripts/prepare-release.js:306-307 | the scan stops at the leftmost place where the field's pattern matches and at no earlier one |
| `FieldScan.Advance` | scripts/prepare-release.js:312-314 | one `exec` of a global pattern: the match at the scan position, and the strictly larger lastIndex it leaves |
| `FieldScan.SkipQuoted` | scripts/prepare-release.js:306-314 | an escaped literal hides no match unless its text ends in the word and a value can follow |
| `FieldScan.HitQuoted` | scripts/prepare-release.js:306-314 | in that case the scan stops inside the literal, at its final word |
| `FieldScan.SkipCut` | scripts/prepare-release.js:306-314 | a literal cut before its closing quote holds no match, whatever it says |
| `ParsedEntries.MatchIs` | scripts/prepare-release.js:306-307 | every match is the keyword, any spaces, and a quoted non-empty value: word characters for a type, no quote in any |
| `ParsedEntries.IsMatch` | scripts/prepare-release.js:306-307 | and every such text is a match that captures the value and ends behind its quote |
| `ChangelogParser.MatchBracket` | scripts/prepare-release.js:346-353 | the depth loop consumes exactly the characters up to depth zero or the end |
| `ChangelogParser.ExtractStrings` | scripts/prepare-release.js:357-388 | the quote and escape loop collects the automaton's non-blank strings in order |
| `ChangelogParser.ExtractItems` | scripts/prepare-release.js:339-388 | the items behind one type: none without `items:` or `[`, else the strings of the bracketed slice |
| `ChangelogParser.ParseSections` | scripts/prepare-release.js:330-393 | the global `type:` loop yields every non-empty section of the block in order |
| `ChangelogParser.VersionPositions` | scripts/prepare-release.js:305-314 | the global `version:` loop lists every version match and its index |
| `ChangelogParser.ParseChangelogTs` | scripts/prepare-release.js:298-399 | the whole function: entries sliced from one version match to the next |
| `ChangelogParser.OnePass` | scripts/prepare-release.js:305-323 | cutting by absolute positions equals one left-to-right pass over the text |
| `Text.TrimIs` | scripts/prepare-release.js:328 | trimming takes the spaces at both ends and nothing else |
| `ParsedEntries.ParsedIsFull` | scripts/prepare-release.js:298-399 | whatever the text: every version is non-empty and quote-free, every date trimmed, every type a word, every section non-empty, every item has a non-space character |
| `ParsedEntries.ItemsAreNeverBlank` | scripts/prepare-release.js:382-391 | the same of one item at any place: some character of it is no space |
| `ParsedEntries.NoArrayNoEntries` | scripts/prepare-release.js:301-303 | no bracket behind the declaration: no entries, whatever versions the text holds |
| `ParsedEntries.NoBracketNoEntries` | scripts/prepare-release.js:301-303 | no bracket at all: no entries, declaration or not |
| `ParsedEntries.NoDate` | scripts/prepare-release.js:327-328 | a block without the word `date:` has the empty date |
| `ParsedEntries.NoItems` | scripts/prepare-release.js:339-344 | a type without `items:` or a bracket has no items |
| `ChangelogItems.StringsQuoted` | scripts/prepare-release.js:363-388 | any well-quoted literal gives its unescaped text, dropped if every character is a space, whatever follows it |
| `ChangelogItems.StringsCut` | scripts/prepare-release.js:363-388 | any literal cut anywhere before its closing quote gives nothing |
| `ChangelogItems.DepthLiteral` | scripts/prepare-release.js:346-353 | escaping neither hides a bracket from the counter nor adds one |
| `ChangelogItems.DepthIsNet` | scripts/prepare-release.js:346-353 | the counter stays open over a text exactly if the running balance never falls below its start, and then counts the balance |
| `ChangelogItems.ScannerAgreement` | scripts/prepare-release.js:346-388 | on any array of well-quoted literals with any filler between them, the quote-blind counter stops at, before or behind its own bracket exactly if the item texts balance, go negative, or end positive with text behind |
| `ChangelogItems.ReadLiterals` | scripts/prepare-release.js:346-388 | what any such array followed by any text yields: the items before the one that closes it, and, if still open, the strings of the text behind |
| `ChangelogItems.ReadItems` | scripts/prepare-release.js:346-388 | the same for the printed array, which is an instance |
| `ChangelogItems.ContinuedLine` | scripts/prepare-release.js:363-388 | a literal with a line continuation in it reads as an item that spans lines, whatever text surrounds it |
| `ChangelogAgreement.ShownAgrees` | scripts/prepare-release.js:330-393 | the sections read from a block, whole or cut inside a literal, are the printed ones if and only if it is whole and its brackets fit |
| `ChangelogVersions.SectionsScan` | scripts/prepare-release.js:306-323 | printed sections hold no version match if they are quiet; otherwise the block is cut inside one of their items |
| `ChangelogRoundTrip.FalseDate` | scripts/prepare-release.js:327-328 | for a version ending in `date:` the date read is the layout between its quote and the next |
| `ChangelogRoundTrip.EntryAgrees` | scripts/prepare-release.js:316-396 | an entry's block gives the entry back if and only if it is uncut, its version hides no `date:` and its brackets fit |
| `ChangelogRoundTrip.EntriesAgree` | scripts/prepare-release.js:298-399 | the printed entries parse back in order if and only if `Faithful` |
| `ChangelogRoundTrip.RoundTrip` | scripts/prepare-release.js:298-399 | for every quiet preamble and every well-formed changelog: parsing the printed file gives the normal form back if and only if `Faithful` |
| `DebianChangelog.StanzaReplaced` | scripts/prepare-release.js:195-206 | behind a stanza's first signature line stands exactly what followed the stanza, if and only if no item spells a signature line |
| `DebianChangelog.StanzaKept` | scripts/prepare-release.js:195-206 | a run never keeps less than followed the stanza, and keeps more if an item spells a signature line |
| `DebianChangelog.History` | scripts/prepare-release.js:186-208 | after any runs the file is the last stanza above the original text behind its first signature line, if and only if no item of an earlier run spells a signature line |
| `DebianChangelog.TwiceIsOnce` | scripts/prepare-release.js:186-208 | repeating a run changes nothing if and only if no item spells a signature line |
| `DebianChangelog.SignedItemStays` | scripts/prepare-release.js:186-208 | an item that spells a signature line, over any original file: the next release leaves more than its stanza above the original text, and repeating the run changes the file |
| `PackagingText.StanzaIs` | scripts/prepare-release.js:190-198 | the new stanza line by line: head, a bullet per item or the notice, the signature with the date |
| `PackagingText.KeptIs` | scripts/prepare-release.js:200-205 | what is kept is the text behind the first line that starts with the signature mark and ends in a newline; nothing if no line does |
| `PackagingText.DebianIs` | scripts/prepare-release.js:186-208 | the file a run leaves: those lines, then that text |
| `PackagingText.DebianStartsOver` | scripts/prepare-release.js:200-206 | without such a line the stanza is the whole file |
| `ReleaseLists.ListsIsHas` | scripts/prepare-release.js:254 | the `includes` test finds a version's key exactly if the list holds the version, and finds it in that entry |
| `Templates.PlainFront` | scripts/prepare-release.js:255-265 | text without a dollar sign stands for itself in a replacement template |
| `Templates.FirstCapture` | scripts/prepare-release.js:256-287 | `$1` gives the first capture, also in front of digits, as the dates are |
| `Templates.Symbols` | scripts/prepare-release.js:255-287 | `$$`, `$&`, the text before and the text behind |
| `Templates.OneDigit` | scripts/prepare-release.js:255-287 | a one-digit reference, unless the digit behind makes one of two |
| `Templates.TwoDigits` | scripts/prepare-release.js:255-287 | a two-digit reference to a capture the pattern has |
| `Templates.NoReference` | scripts/prepare-release.js:255-287 | in front of anything else a dollar sign stands for itself |
| `ReleaseLists.InsertPrepends` | scripts/prepare-release.js:265 | the marker replacement, its entry expanded as a template, makes the new entry the first of the list |
| `ReleaseLists.DateReplaced` | scripts/prepare-release.js:255-258 | the date replacement, expanded as a template, changes that version's date and no other character |
| `ReleaseLists.MetainfoStepIs` | scripts/prepare-release.js:250-269 | one run on the metainfo text is one step on the list it spells |
| `ReleaseLists.DoapStepIs` | scripts/prepare-release.js:273-291 | one run on the DOAP text is one step on the list it spells |
| `PackagingText.MetainfoAdds` | scripts/prepare-release.js:259-266 | over any text that does not name the version: its five lines, with its date, go behind the first marker |
| `PackagingText.MetainfoRedates` | scripts/prepare-release.js:254-258 | over any text with the version's release tag: the date behind the first one changes and no other character |
| `PackagingText.MetainfoKept` | scripts/prepare-release.js:254-266 | a version named elsewhere only, or no list to extend: the text stays |
| `PackagingText.DoapAdds` | scripts/prepare-release.js:279-288 | over any text without the revision: its seven lines, with created date and link, go behind the first marker |
| `PackagingText.DoapKept` | scripts/prepare-release.js:276-288 | a revision that is named, or no list to extend: the text stays |
| `ReleaseHistory.MetainfoHistory` | scripts/prepare-release.js:247-269 | after any runs the metainfo file holds the new versions on top by first appearance, every entry with its version's last date, all else unchanged |
| `ReleaseHistory.DoapHistory` | scripts/prepare-release.js:271-291 | after any runs the DOAP file holds the new versions on top with their first run's date, above the untouched old list |
| `ReleaseHistory.MetainfoOnce` | scripts/prepare-release.js:254-266 | one entry per version stays one entry per version |
| `ReleaseHistory.DoapOnce` | scripts/prepare-release.js:276-288 | one entry per version stays one entry per version |
| `ReleaseHistory.FirstRunsAre` | scripts/prepare-release.js:254-266 | the added versions are exactly the runs' versions that were not listed |
| `ReleaseHistory.FirstRunIsEarliest` | scripts/prepare-release.js:276-288 | every added entry comes from the earliest run of its version |
| `ReleaseHistory.LatestDateIs` | scripts/prepare-release.js:254-258 | the date kept for a version is that of its last run |
| `ReleaseHistory.MetainfoRepeated` | scripts/prepare-release.js:250-269 | repeating a run leaves the metainfo text as it was |
| `ReleaseHistory.DoapRepeated` | scripts/prepare-release.js:273-291 | repeating a run leaves the DOAP text as it was |
| `ReleaseDocs.GenerateChangelog` | scripts/prepare-release.js:423-443 | the nested loops write the preamble and every entry's rendering |
| `ReleaseDocs.GenerateNotes` | scripts/prepare-release.js:452-463 | the loops write the heading, the version's sections and the footer |
| `ReleaseDocs.SectionsBullets` | scripts/prepare-release.js:435-442 | the bullets read back from rendered sections are their items in order if and only if no item spans lines |
| `WrittenFiles.TitleIs` | scripts/prepare-release.js:416-421 | the four titles, and any other type as its own |
| `WrittenFiles.ChangelogIs` | scripts/prepare-release.js:423-443 | CHANGELOG.md line by line: the opening, then heading, titles and bullets of every entry in order |
| `WrittenFiles.NotesAre` | scripts/prepare-release.js:450-463 | RELEASE_NOTES.md line by line |
| `WrittenFiles.HeadingsRead` | scripts/prepare-release.js:432-443 | one heading per entry, in order, with its version and date, and no other line reads as one |
| `WrittenFiles.TitlesRead` | scripts/prepare-release.js:435-442 | one title per section, in order, and no other line reads as one |
| `ReleaseAgreement.MisleadingEntry` | scripts/prepare-release.js:432-443 | what is read under a version from another version's entry that spells its heading depends on that entry alone |
| `ReleaseAgreement.ChangelogShows` | scripts/prepare-release.js:432-443 | under a version CHANGELOG.md shows a piece of the first earlier entry that spells its heading; without one, nothing if no entry has the version, and the sections of the first that does if and only if none of its items spells a heading |
| `ReleaseAgreement.NotesShow` | scripts/prepare-release.js:452-463 | the text between heading and rule of the release notes is the sections if and only if no item spells the rule |
| `ReleaseAgreement.StanzaShows` | scripts/prepare-release.js:189-198 | the stanza's bullets are the items, or the fallback line, above older stanzas' bullets, if and only if no item spans lines |
| `ReleaseAgreement.EachMeaning` | scripts/prepare-release.js:186-463 | for each output, the exact condition under which it carries the version's sections or items |
| `ReleaseAgreement.OneMeaning` | scripts/prepare-release.js:186-463 | unless an earlier entry misleads, the three outputs carry the same sections and items, apart from the fallback line, if and only if no item of the version spans lines |
| `ReleaseAgreement.ContinuedItemDiffers` | scripts/prepare-release.js:186-463 | a version whose only item spans two lines: the outputs no longer say the same |
| `ReleaseRun.Checkout.Prepare` | scripts/prepare-release.js:70-469 | the files after a run, including the refused run that changes nothing and the failure that leaves packaging files written |
| `RunOutcomes.OutcomeIs` | scripts/prepare-release.js:72-77 | a run refuses if and only if the version's first entry is dated Unreleased, and then touches nothing; it stops halfway if and only if there is no entry |
| `RunOutcomes.RefusedFor` | scripts/prepare-release.js:65-77 | from a faithful changelog.ts: refused with nothing touched if and only if the version's first entry says Unreleased, spaces around it or not |
| `RunOutcomes.UnreleasedOnTop` | scripts/prepare-release.js:72-77 | an unreleased entry on top is refused |
| `RunOutcomes.PreparedIs` | scripts/prepare-release.js:72-469 | any other run goes by the version's first entry: its items, its date or else today's, its notes; packaging files that are missing stay missing |
| `RunOutcomes.NotListedYet` | scripts/prepare-release.js:79-80 | a version without an entry is dated today, with no items and no notes of its own |
| `ReleaseRun.PreparedAgain` | scripts/prepare-release.js:180-469 | preparing a release twice leaves what once leaves, if and only if the Debian items spell no signature line |
| `ReleaseRun.SignedItemChangesAgain` | scripts/prepare-release.js:180-208 | an item that spells a signature line: preparing the release again changes the Debian file |
| `ReleaseRun.Published` | scripts/prepare-release.js:65-469 | from a faithful changelog.ts in which no earlier entry spells the version's heading, a run publishes the version's non-blank items, as written and in order, in all three outputs, if and only if none spans lines |
| `ReleaseRun.NothingParsed` | scripts/prepare-release.js:302-314 | no entry is read if and only if no array opens or no single-quoted version is found |
| `ReleaseRun.FailsHarmlesslyIff` | scripts/prepare-release.js:74-77 | a run that does not succeed leaves all files as they were, whatever they are, if and only if there is an entry |
| `ReleaseRun.FailsHarmlesslyFor` | scripts/prepare-release.js:401-406 | the same, read off the text of changelog.ts: an array opens and a single-quoted version is found |
| `ReleaseRun.DoubleQuotedFails` | scripts/prepare-release.js:401-406 | over a double-quoted changelog the run rewrites the Debian file and then fails |
| `AssetNames.AtMostOneRow` | scripts/rename-release-assets.js:20-57 | no file name matches two of the 19 patterns |
| `AssetNames.DebArchIsOne` | scripts/rename-release-assets.js:40-41 | no name matches both `.deb` patterns, although both contain `.*` |
| `AssetNames.OrderIrrelevant` | scripts/rename-release-assets.js:59-63 | any table with the same rows, in any order and repetition, gives the same name |
| `AssetNames.ProducedNameIsFinal` | scripts/rename-release-assets.js:17-66 | no produced name matches any pattern, for any versions |
| `AssetNames.RenamedIsFinal` | scripts/rename-release-assets.js:17-66 | renaming a renamed file finds nothing to do |
| `AssetNames.NameDetermines` | scripts/rename-release-assets.js:17-57 | a produced name determines its row and its version |
| `AssetSpellings.RowFits` | scripts/rename-release-assets.js:17-66 | for each of the 19 rows: its pattern matches exactly the spelled-out names, whatever version, prerelease part, release number and text behind the architecture |
| `AssetSpellings.RenamedAsSpelled` | scripts/rename-release-assets.js:17-66 | a file gets a row's literal new name if and only if it is spelled as that row's build spells it, tag with or without `v` |
| `AssetSpellings.LeftAlone` | scripts/rename-release-assets.js:60-66 | it is left alone if and only if no row spells it |
| `RenameProtocol.BuildPlan` | scripts/rename-release-assets.js:245-256 | the plan holds the assets whose new name differs, in order |
| `AssetSpellings.TargetAsSpelled` | scripts/rename-release-assets.js:247-251 | an asset is due for a row's literal name if and only if it is spelled as that row's build spells it |
| `AssetSpellings.PlannedAsSpelled` | scripts/rename-release-assets.js:245-256 | the plan takes up exactly the assets that some row spells |
| `RenameProtocol.RemoteRelease.RenameAssets` | scripts/rename-release-assets.js:264-279 | the loop issues the snapshot's DELETE and PATCH calls and stops at the first refused or unanswered one |
| `RenameSafety.Safety` | scripts/rename-release-assets.js:247-279 | wherever a run ends: names unique, every asset from the snapshot with its bytes under its old name or target, only stale holders of a target missing |
| `RenameSafety.CompletesIffDistinct` | scripts/rename-release-assets.js:247-279 | an uninterrupted run finishes, with the settled release, if and only if no two planned assets share a target |
| `RenameSafety.SecondIsRefused` | scripts/rename-release-assets.js:270-277 | behind an asset renamed to the same target, the PATCH is refused, whatever stale assets are gone |
| `RenameSafety.RestartConverges` | scripts/rename-release-assets.js:247-279 | after any number of runs stopped anywhere, one full run leaves what an undisturbed run would have |
| `RenameSafety.SettledMeaning` | scripts/rename-release-assets.js:264-279 | which bytes stand behind which name in the settled release |
| `RenameRestart.FailedRunEndangers` | scripts/rename-release-assets.js:264-279 | behind a failed run, every further run that makes a request deletes the first of two assets with one target, which was due for renaming and had been renamed |
| `RenameRestart.RestartSafeIff` | scripts/rename-release-assets.js:247-279 | however the phase is stopped and rerun no asset due for renaming is lost, if and only if the targets are distinct |
| `RenameRestart.TwoBundles` | scripts/rename-release-assets.js:264-279 | two disk images of one architecture: after a full run and one more request the first is gone |
| `UpdaterManifest.BuildManifest` | scripts/rename-release-assets.js:320-338 | the loops write the platforms of every signature found |
| `UpdaterManifest.MappingsDisjoint` | scripts/rename-release-assets.js:297-318 | no platform key belongs to two mappings |
| `UpdaterManifest.ManifestIs` | scripts/rename-release-assets.js:323-338 | each platform carries its own mapping's signature and file; other keys stay |
| `UpdaterManifest.KeysAreFound` | scripts/rename-release-assets.js:320-338 | the keys are exactly the platforms of the signatures found |
| `UpdaterManifest.PlatformIs` | scripts/rename-release-assets.js:297-338 | each of the five platforms by name: there if and only if its file's signature is, with the first such signature trimmed and the address of its own file |
| `UpdaterManifest.UrlNamesSignedFile` | scripts/rename-release-assets.js:236-338 | a platform's URL names the file its signature signs if and only if the tag does not begin with `vv` |
| `UpdaterManifest.DoubleVTag` | scripts/rename-release-assets.js:236-338 | at tag vv1.0.0 the macOS URL names a file with a `v` that the signed file lacks |
| `HingeWalk.ChainIs` | e2e/hinge-layout.ts:62-80 | the blocks the walk does not skip form the containing-block chain |
| `HingeWalk.ChainIsOne` | e2e/hinge-layout.ts:62-80 | a control has only one containing-block chain |
| `HingeWalk.VisibleBox` | e2e/hinge-layout.ts:56-95 | the ancestor loop ends with the box clipped along the chain |
| `HingeWalk.VisibleEdges` | e2e/hinge-layout.ts:56-95 | on each axis the edges are the tightest of viewport, control and the chain's blocks that clip that axis |
| `HingeWalk.NearIsPoint` | e2e/hinge-layout.ts:96-98 | the edge tests hold exactly if some visible point lies in the open band |
| `HingeWalk.ControlsNearHinge` | e2e/hinge-layout.ts:50-102 | a control is reported if and only if a point of its visible part lies in the band; each once, in document order, with its visible extent along the axis |
| `HingeWalk.FixedClipsLeast` | e2e/hinge-layout.ts:78-80 | whatever clips a fixed element clips any other in its place |
| `HingeWalk.InFlowClipsMost` | e2e/hinge-layout.ts:78-80 | whatever clips an absolute or any other element clips an in-flow one in its place |
| `HingeWalk.FixedBlockShowsNoMore` | e2e/hinge-layout.ts:65-80 | turning any ancestor into a fixed containing block never enlarges the visible part |
| `HingeWalk.InsideMenu` | e2e/hinge-layout.ts:60-80 | an in-flow control inside a menu is clipped by the boxes up to the menu, the menu and the menu's own clippers |
| `HingeSteps.NoAncestor` | e2e/hinge-layout.ts:60-63 | without ancestors the viewport alone limits a control |
| `HingeSteps.FixedEscapes` | e2e/hinge-layout.ts:78 | a fixed control passes any ancestor that is no fixed containing block |
| `HingeSteps.AbsoluteEscapes` | e2e/hinge-layout.ts:79 | an absolute control passes a static ancestor that is no fixed containing block |
| `HingeSteps.CutAndGoOn` | e2e/hinge-layout.ts:80-95 | any other ancestor cuts the control on the axes it clips, by its own client area and borders, and the walk goes on under its position |
| `HingeSteps.ReportedIs` | e2e/hinge-layout.ts:58-100 | reported if and only if rendered, not inert, visible on both axes and within the margin |
| `HingeSteps.AbsoluteButtonIsReported` | e2e/hinge-layout.ts:226-240 | the suite's absolute control is reported, and the same button in flow is not |
| `ResidentTop.ResidentTopProbe.OnKeydown` | e2e/scroll-reading.ts:458-464 | the first key, and only the first, can start the observation |
| `ResidentTop.ResidentTopProbe.Sample` | e2e/scroll-reading.ts:465-475 | a frame's effect on samples, running minimum and running maximum |
| `ResidentTop.RunningIsQuadratic` | e2e/scroll-reading.ts:450-475 | after every trace the value is the largest move down over all pairs of readings from the Home key on |
| `ResidentTop.WithinOnePixel` | e2e/scroll-reading.ts:456-475 | it is at most 1 if and only if no reading lies more than 1 px below an earlier one |
| `ResidentTop.ObservesIffHomeFirst` | e2e/scroll-reading.ts:458-464 | anything is observed if and only if the first key is Home |
| `ResidentTop.EndBeforeHome` | e2e/scroll-reading.ts:458-464 | End, Home and a frame leave the probe observing nothing |
| `ResidentTop.AfterHome` | e2e/scroll-reading.ts:458-475 | frames, Home, then anything: every later frame is sampled, the least and the largest backtrack are over them and the Home reading |
| `ResidentTop.FramesJoin` | e2e/scroll-reading.ts:465-475 | the frames of a trace are those of its parts, in order |
| `ResidentTop.FramesOfOne` | e2e/scroll-reading.ts:465-475 | one frame gives one reading, a key none |
| `NativePan.CheckPan` | e2e/scroll-native-pan.ts:296 | the loop passes exactly if all neighbours progress, else stops at the first pair that does not |
| `NativePan.LocalToGlobal` | e2e/scroll-native-pan.ts:166-171 | order never rises; samples of one row have only that row between them and it drifts back at most a pixel a frame |
| `NativePan.DriftIsReached` | e2e/scroll-native-pan.ts:170 | the drift bound is attained by a pan of any length |
| `NativePan.BoundedIff` | e2e/scroll-native-pan.ts:166-171 | for given anchors, every passing pan bounds the drift between two samples if and only if none passes or the message never changes in between |
| `NativePan.DriftIff` | e2e/scroll-native-pan.ts:166-171 | the drift of every message in its row is bounded in every passing pan if and only if no pan passes or between two samples of it every sample shows it |
| `NativePan.RowsMustNameMessages` | e2e/scroll-native-pan.ts:169-170 | a three-sample pan at which the bound fails by any distance |
| `BacklogStream.Stream.Run` | e2e/scroll-reading.ts:170-185 | the queue's tasks in order, and the count that is resolved |
| `BacklogStream.DeliversPrefix` | e2e/scroll-reading.ts:169-185 | under every clock that never runs back, as performance.now() does not: exactly the messages before the first closed task, and the count is all of them or above the minimum |
| `BacklogStream.PrefixIff` | e2e/scroll-reading.ts:169-185 | the messages delivered are those before the first closed task if and only if no later task finds the clock back inside the window; the count is all or above the minimum either way |
| `BacklogStream.ClockMustNotRunBack` | e2e/scroll-reading.ts:173 | a sharpness example for that condition, on a clock the code cannot receive: message 1 would be missing |
| `SettledLayout.SampleSettledLayout` | e2e/composer-geometry.ts:184-228 | the counter resolves at the first frame that ends a window of equal frames, and rejects at a late frame before any |
| `SettledLayout.OneOutcome` | e2e/composer-geometry.ts:184-228 | that window specification has one outcome |
| `SettledLayout.SettlesIff` | e2e/composer-geometry.ts:215-222 | it resolves if and only if some window ends with no late frame before it |
| `SettledLayout.WaitForMessageLayoutSettled` | e2e/composer-geometry.ts:234-244 | the loop ends under a running clock, accepting only a 31-frame layout that a 3-frame one repeats after the sync |
| `SettledLayout.AcceptedIff` | e2e/composer-geometry.ts:234-244 | it returns if and only if an attempt matches while every earlier one corrected the layout in time |
| `SettledLayout.SampleIs` | e2e/composer-geometry.ts:184-228 | one sampler run in frames and milliseconds: the first row of equal frames within 15 seconds, or the first frame behind them |
| `SettledLayout.WaitIs` | e2e/composer-geometry.ts:234-244 | the whole wait: the first attempt with 31 equal frames and 3 more of the same behind the sync, a sampler that gives up, or two layouts after 20 seconds |
| `TypingFixtures.RoomTyping.EmitRoomTyping` | e2e/scroll-live-edge.ts:1533-1548 | one call's effect on map, timers and emitted events, name by name |
| `TypingFixtures.RoomTyping.OnInterval` | e2e/scroll-live-edge.ts:1543-1547 | a callback, of a live or a cleared timer |
| `TypingFixtures.RunSound` | e2e/scroll-live-edge.ts:1533-1548 | every run keeps timers and map entries together and the log in step with the map |
| `TypingFixtures.Reached` | e2e/scroll-live-edge.ts:1533-1548 | live timers are the map's entries one for one; the last event is typing exactly for those; a callback emits exactly if its timer is live |
| `TypingFixtures.SilentUntilStart` | e2e/scroll-live-edge.ts:1537-1544 | after a stop nothing says typing before the next start, whatever callbacks run |
| `TypingFixtures.EveryEventCounted` | e2e/scroll-live-edge.ts:1539-1546 | a participant's typing events are its starts plus its recorded renewals |
| `TypingRuns.EmitIs` | e2e/scroll-live-edge.ts:1533-1548 | a call emits one event per name in order, starts exactly the named participants if it is on, clears their old timers, and leaves everyone else's fixtures and timers alone |
| `TypingRuns.CallbackIs` | e2e/scroll-live-edge.ts:1543-1547 | a live timer's callback says typing and counts a renewal; no callback changes map or timers |
| `TypingRuns.InMapIff` | e2e/scroll-live-edge.ts:1533-1548 | after any calls and callbacks a participant is in the map, with a live timer and typing said last, if and only if the last call that names it is on |
| `TypingRuns.FirstCallStarts` | e2e/scroll-live-edge.ts:1533-1548 | the first call on a fresh page: one fixture, its live timer, one event |
| `TouchRegistry.Recorder.AddEventListener` | e2e/scroll-touch-start.ts:26-38 | the patched add: shadow entry and native add |
| `TouchRegistry.Recorder.RemoveEventListener` | e2e/scroll-touch-start.ts:39-44 | the patched remove: first matching shadow entry spliced out, native remove |
| `TouchRegistry.RunSound` | e2e/scroll-touch-start.ts:19-46 | after any trace every holding listener the page has installed is recorded with its effective passive flag |
| `TouchRegistry.NothingWaits` | e2e/scroll-touch-start.ts:57-69 | a shadow list without non-passive entries means no page listener makes the engine wait |
| `TouchRegistry.StaysExact` | e2e/scroll-touch-start.ts:26-44 | from equal lists a step keeps them equal, in order, if and only if it adds no listener twice and loses none unseen |
| `TouchRegistry.RunExact` | e2e/scroll-touch-start.ts:19-46 | on runs of such steps the shadow list is the engine's, entry for entry |
| `TouchRuns.AddRecords` | e2e/scroll-touch-start.ts:26-38 | an add by the page with a listener for one of the four kinds is recorded last with its passive flag; no other add is |
| `TouchRuns.RemoveDrops` | e2e/scroll-touch-start.ts:39-44 | a remove drops the first entry recorded for its key and no other |
| `TouchRuns.NothingDrops` | e2e/scroll-touch-start.ts:39-44 | without such an entry nothing is dropped |
| `TouchRuns.InstalledIff` | e2e/scroll-touch-start.ts:19-46 | after any trace exactly the listeners are installed whose add found none under its key and was not followed by a drop, with that add's flags |
| `TouchRuns.PutIsRecorded` | e2e/scroll-touch-start.ts:19-46 | such a listener of the page, of one of the four kinds, is recorded |

## Left out

- Version bumps of package.json, version.ts, Cargo.toml, tauri.conf.json, iOS, RPM and AUR files, the npm lock step and the git tag: single replacements that only add easy members.
- File and network I/O, redirects, hashing, `generateChecksums` and the upload of `latest.json`: contents and requests are parameters; the `latest.json` fields other than `platforms` are constants.
- A rerun with nothing left to rename returns before latest.json and the checksums; restart convergence is claimed for names and bytes only.
- `Date.toUTCString`: Debian's date is a function passed to the run.
- Section types that name a member every JavaScript object inherits (`constructor`, `toString`): the title lookup finds that member there; the model has the type itself.
- Characters are Unicode scalar values, not UTF-16 code units; the scripts compare ASCII only.
- The Flatpak list lemmas take any date without `"` and `$` that does not end in `version=`, the DOAP ones any date without `<` and `$` (one step of either only needs no `$`), and versions of digits and dots, as the script's version check asks for; list files have the marker and the script's own attribute order.
- The two newest entries of changelog.ts open their sections on one line and indent less: the round trip prints the older layout, the array lemmas cover both.
- Versions, dates and types of the round trip are single-quoted literals without escapes, which is what the three patterns can read; items are any text.
- The style tests that make up `fixedBlock`, `checkVisibility` and `inert` are flags; a reported control is its index and extent, without label or rounding.
- Timer and fixture identities are numbered by creation instead of being heap references.
- Native lists are one list over all targets; `once` and `signal` appear as implicit removals, an already aborted signal and a null `passive` do not appear.
- The `resizeItem` wrapper and the rendezvous pulse of the pan capture, the `scrollTo` recorder of the resident-top probe: they pass calls through.
- All production behaviour the suites exercise from outside.
