# DropLinks store, modelled in Dafny

DropLinks is a browser page that keeps bookmarks in panels. The state it
keeps is an ordered list of panels, each with an id, a title and an
ordered list of links. A link is a record `{url, title, domain, favicon,
timestamp}`. The page also keeps:

- a panel counter that numbers new panels;
- a pending-delete slot for the two-phase delete;
- a compact-view flag;
- the time of the last save.

Every change writes a JSON snapshot of this state to `localStorage` under
`droplinks-data`. A JSON file can replace the whole state. `droplinks.js`
is the current class. `script.js` is an older copy whose snapshot holds
only panels and counter.

This project models that store:

- `Wrappers`: the `Option` type.
- `Text`: ECMAScript `trim`, suffix tests and decimal rendering of panel
  numbers.
- `UrlTitle`: the URL-to-title transform `extractTitleFromUrl`.
  `TitleExamples` checks the unit-test URLs against it.
- `Records`: the link, panel and document records, the link record
  builder, and the snapshot formats of both versions.
- `PanelOps`: every panel and link operation as a pure function on the
  panel list, with lemmas for what each one does and keeps.
- `WebStorage`: `localStorage` as a class holding a key→document map.
- `Store`: the droplinks.js `DropLinks` class. Its methods update the
  fields in place. Each one is proved equal to the `PanelOps` function
  and saves exactly when the source saves.
- `Legacy`: the script.js `DropLinks` class, in the same form.

The platform services are parameters:

- The `URL` constructor is a `UrlParser`, a function from a string to
  `Option<UrlParts>` holding pathname and hostname. `None` means the
  constructor throws, so `isValidUrl` is `parse(s).Some?`.
- `JSON.parse` of a stored or imported text is an `Option<Document>`.
  `None` means the parse throws. A stored text is kept as its parsed
  document, so `JSON.parse(JSON.stringify(x))` is taken to give `x` back.
- The clock is `now`, in milliseconds. ISO time strings are those
  integers, which keeps their order.

`extractTitleFromUrl` (script.js:144-167) and `extractLinkData`
(script.js:109-142) are the same code as droplinks.js:538-561 and
droplinks.js:503-536. Both versions use `UrlTitle.ExtractTitleFromUrl`
and `Records.ExtractLinkData`.

## Model

| member | source | states |
|---|---|---|
| Text.Trim | droplinks.js:393-394 | `trim()`: the result is the input with a run of whitespace cut from the front and from the back, it has no whitespace at either end, and it is empty exactly when the input is all whitespace |
| UrlTitle.StripLeadingSlashes | droplinks.js:544 | `replace(/^\/+/, "")`: a suffix of the input, only `/` removed, and it does not start with `/` |
| UrlTitle.DropExtension | droplinks.js:544 | `replace(/\.[^/.]+$/, "")`: either the input cut at a dot followed by one or more characters other than `/` and `.` up to the end, or the input unchanged when it has no such dot |
| UrlTitle.DashesToSpaces | droplinks.js:547 | `replace(/[-_]/g, " ")`: same length, each `-` and `_` becomes a space, every other character is kept |
| UrlTitle.CapitalizeWords | droplinks.js:550 | `replace(/\b\w/g, toUpperCase)`: same length, each ASCII letter that starts a word is upper-cased, every other character is kept |
| UrlTitle.StripWww | droplinks.js:554 | `replace(/^www\./, "")`: removes a leading `www.` and nothing else |
| UrlTitle.ExtractTitleFromUrl | droplinks.js:538-561 | `extractTitleFromUrl`: a non-empty URL never gives an empty title; an unparseable URL is its own title; a non-empty title read off the path is the title |
| UrlTitle.ExtractTitleCases | droplinks.js:538-561 | the whole title: an unparseable URL is returned unchanged; an empty path title falls back to the host without `www.`, and then to the URL; a non-empty URL never gives an empty title |
| UrlTitle.PathTitleShape | droplinks.js:544-550 | a title taken from the path has no `-` or `_`, does not start with `/`, and has no lower-case letter at the start of a word |
| TitleExamples.AboutUs | tests/unit/droplinks.test.js:133-145 | `https://example.com/about-us` gives "About Us" |
| TitleExamples.NestedPath | tests/unit/droplinks.test.js:133-145 | `https://github.com/user/repo` gives "User/Repo" |
| TitleExamples.HostWithEmptyPath | tests/unit/droplinks.test.js:133-145 | `https://domain.com/` gives "domain.com" |
| TitleExamples.WwwHostOnly | tests/unit/droplinks.test.js:133-145 | `https://www.test.com` gives "test.com" |
| TitleExamples.UnderscoreAndExtension | droplinks.js:544-550 | `https://x.io/a_b.md` gives "A B": the extension is dropped and `_` becomes a space |
| TitleExamples.Unparseable | droplinks.js:558-559 | a URL the parser rejects is its own title |
| Records.ExtractLinkData | droplinks.js:503-536 | the link keeps the URL and the time; its title is non-empty for a non-empty URL; it has a favicon exactly when the URL parses; a URL that parses gives the `extractTitleFromUrl` title, the parsed hostname as domain and the favicon-service address of that hostname; an unparseable URL gives title = URL and domain "Unknown" |
| Records.EditedLink | droplinks.js:396-408 | an edited link takes the new title and URL, keeps its creation time, and re-derives domain and favicon from a URL that parses |
| Records.Hydrate | droplinks.js:1140-1143 | the defaults `loadFromStorage` falls back to: an absent `panels` gives `[]`, an absent counter 0, an absent view flag false, present fields are taken as they are, and panels and counter agree with the older reader |
| Records.Snapshot | droplinks.js:930-946 | the snapshot `saveToStorage` writes is read back by `loadFromStorage` (droplinks.js:1139-1143) as exactly the saved state |
| Records.LegacyHydrate | script.js:455-456 | the older reader's defaults: an absent `panels` gives `[]`, an absent counter 0, present fields are taken as they are |
| Records.LegacySnapshot | script.js:444-458 | the older snapshot gives panels and counter back to the older reader; the newer reader gives them back with the view flag false and no save time |
| PanelOps.FindPanel | droplinks.js:488 | `panels.find(p => p.id === id)`: the first index holding the id, or none when no panel has it |
| PanelOps.NewPanel | droplinks.js:156-160 | the appended panel has the new counter as id, the title "Panel " followed by that number in decimal (for a non-negative id, digits whose decimal value is the id), and no links |
| PanelOps.AddPanelKeepsInvariants | droplinks.js:155-165 | when the counter covers every id, the new id is held by no panel, and after the append the counter still covers every id, ids stay distinct and URLs stay distinct per panel |
| PanelOps.Moved | droplinks.js:572-577 | `movePanel`'s two splices: same length, the old `from` element at `to`, and the same multiset of elements |
| PanelOps.MovedIsPermutation | droplinks.js:572-577 | `movePanel`: a permutation of the list with the old `from` element at `to`, and taking it out again leaves the list the old one was without it |
| PanelOps.MovedPositions | droplinks.js:572-577 | every position of the moved list holds the element of one old position, distinct positions drawing on distinct old ones, so the other elements keep their relative order |
| PanelOps.MovedInverse | droplinks.js:572-577 | moving back from `to` to `from` restores the list |
| PanelOps.MovedInPlace | droplinks.js:572-577 | moving an element onto its own position changes nothing |
| PanelOps.MovedFirstToLast | tests/unit/droplinks.test.js:91-104 | moving the first element to the last position rotates the list by one; the test's `[A, B, C]` becoming `[B, C, A]` is a case |
| PanelOps.MovedKeepsInvariants | droplinks.js:572-577 | a move keeps counter coverage, distinct ids and per-panel URL distinctness |
| PanelOps.WithoutId | droplinks.js:177-179 | `filter(p => p.id !== target)`: no panel with the id is left, and every panel kept was in the old list |
| PanelOps.WithoutIdKeepsOthers | droplinks.js:177-179 | every panel with another id keeps its number of occurrences, and the result is a subsequence of the old list (the old order) |
| PanelOps.WithoutIdKeepsUniqueIds | droplinks.js:177-179 | filtering keeps ids distinct |
| PanelOps.WithoutAbsentId | droplinks.js:177-179 | deleting an id no panel has changes nothing |
| PanelOps.WithoutUniqueId | tests/unit/droplinks.test.js:78-89 | with distinct ids, deleting a present id removes exactly one panel |
| PanelOps.WithoutIdKeepsInvariants | droplinks.js:175-184 | a delete keeps counter coverage, distinct ids and per-panel URL distinctness |
| PanelOps.MaxId | droplinks.js:1195 | `Math.max(...ids, 0)`: at least 0, at least every id, and either 0 or some panel's id |
| PanelOps.Renamed | droplinks.js:652-655 | the title blur: only that panel's title changes, to the given text, and all ids and links stay |
| PanelOps.AddLink | droplinks.js:487-501 | `addLinkToPanel` as one step on the panel list: the ids and their order stay |
| PanelOps.AddLinkEffect | droplinks.js:487-501 | `addLinkToPanel`: no change when the panel is missing or already has the URL; otherwise exactly one link is appended to that panel, no other panel changes, and the total grows by one |
| PanelOps.AddLinkIdempotent | tests/unit/droplinks.test.js:124-131 | after an add, the panel holds the URL, and a second add for the same URL changes nothing |
| PanelOps.AddLinkKeepsUrlsUnique | droplinks.js:491-494 | the duplicate check keeps each panel's URLs distinct |
| PanelOps.AddLinkAt | droplinks.js:487-501 | when the found panel lacks the URL, the add is exactly the push onto that panel, and it keeps counter coverage, distinct ids and per-panel URL distinctness |
| PanelOps.RemoveLink | droplinks.js:563-570 | `removeLinkFromPanel` on the panel list: the ids and their order stay |
| PanelOps.RemoveLinkEffect | droplinks.js:563-570 | `removeLinkFromPanel`: with the panel present and a link at `i`, exactly that link is gone, the rest keep their order, other panels are untouched and the total drops by one; otherwise nothing changes |
| PanelOps.RemoveLinkKeepsUrlsUnique | droplinks.js:563-570 | a removal keeps each panel's URLs distinct |
| PanelOps.RemoveLinkAt | droplinks.js:563-570 | when the found panel has a link at `i`, the removal is exactly the splice on that panel, and it keeps counter coverage, distinct ids and per-panel URL distinctness |
| PanelOps.MoveLink | droplinks.js:908-919 | `moveLinkBetweenPanels` keeps the ids and the multiset of all links |
| PanelOps.MoveLinkEffect | droplinks.js:908-919 | the total link count is conserved; between two panels the target gains exactly the moved link at its end, the source keeps its other links in order, and no other panel changes; both panels keep their titles; within one panel the link goes to the end; a missing panel or index changes nothing |
| PanelOps.MoveLinkCanDuplicateUrl | droplinks.js:908-919 | there is no duplicate check: a move can leave a panel holding the same URL twice |
| PanelOps.EditLink | droplinks.js:391-414 | the edit "Save" on the panel list: the ids and their order stay |
| PanelOps.EditLinkEffect | droplinks.js:391-414 | the edit "Save" on the trimmed input: an empty title or URL, or a URL that does not parse, changes nothing; otherwise only that link changes, to the given title and URL, keeping its time, and the link count stays |
| PanelOps.EditLinkAt | droplinks.js:396-407 | with an existing link and accepted input, the edit is exactly the rewrite of that link in place, and it keeps counter coverage and distinct ids |
| WebStorage.LocalStorage.SetItem | droplinks.js:941 | `setItem` replaces the entry under the key and keeps every other entry |
| Store.ImportedState | droplinks.js:1190-1244 | an import installs the document's panels, sets the counter to the largest id (or 0), and takes over view flag and save time only when present |
| Store.ImportIdempotent | droplinks.js:1190-1244 | importing the same document twice gives the state of one import |
| Store.IsNewer | droplinks.js:1112-1116 | the file is newer only when it carries a save time, and then exactly when that time is later than the local one, a missing local time counting as 0 |
| Store.NewerImportedOnce | droplinks.js:1107-1132 | last write wins: after a newer file is imported, the same file is no longer newer, and no file is newer than a later local save |
| Store.LoadSnapshotRestores | droplinks.js:1134-1144 | loading any stored snapshot restores the saved state whatever the reader held before, with outcome `Loaded` |
| Store.IsImportableFile | droplinks.js:227-231 | the drop test: a JSON media type is accepted whatever the name; with another media type an accepted name has at least five characters and ends in `n` or `s`, the last letter of `.json` and `.droplinks` |
| Store.OwnFilesImportable | droplinks.js:227-231 | the export file `droplinks-export-<date>.json` (droplinks.js:1180-1182) and the autosave file `.droplinks` (droplinks.js:969) pass the drop test; `notes.txt` with media type `text/plain` does not |
| Store.DropLinks.constructor | droplinks.js:2-26 | without a document or with `skipInit` (so `init` is not run), a new store is empty with counter 0, no pending delete, list view and no save time, and uses the injected storage |
| Store.DropLinks.SaveToStorage | droplinks.js:930-946 | the save time becomes `now`, and the storage, if any, holds the snapshot of the new state under the key and nothing else new |
| Store.DropLinks.AddPanel | droplinks.js:155-165 | the counter goes up by exactly one; one fresh empty panel with that id is appended and earlier panels stay; the state is saved; the id invariants are kept |
| Store.DropLinks.DeletePanel | droplinks.js:167-173 | only the pending-delete slot is set |
| Store.DropLinks.ConfirmDelete | droplinks.js:175-184 | with a set, non-zero target, the panels with that id are removed (`WithoutId`) and the state saved; otherwise nothing changes and nothing is saved; the slot is cleared either way; invariants are kept |
| Store.DropLinks.CancelDelete | droplinks.js:186-192 | clears the pending-delete slot; the panels are outside its frame |
| Store.DropLinks.ToggleView | droplinks.js:194-215 | flips the view flag and saves |
| Store.DropLinks.MovePanel | droplinks.js:572-577 | the panels become `Moved(old, from, to)`, a permutation with the moved panel at `to`; saved; invariants kept |
| Store.DropLinks.RenamePanelTitle | droplinks.js:652-655 | the panel's title becomes the text (empty allowed); saved; invariants kept |
| Store.DropLinks.AddLinkToPanel | droplinks.js:487-501 | the panels become `AddLink(old, id, ExtractLinkData(url))`; saved exactly when the panel exists without the URL, otherwise nothing changes; invariants and per-panel URL distinctness kept |
| Store.DropLinks.AddLinkRecord | droplinks.js:488-499 | for a given record: the panels become `AddLink(old, id, record)`; saved exactly when the panel exists without the record's URL, otherwise nothing changes; invariants and per-panel URL distinctness kept |
| Store.DropLinks.RemoveLinkFromPanel | droplinks.js:563-570 | the panels become `RemoveLink(old, id, i)`; saved exactly when the panel has a link at `i`, otherwise nothing changes |
| Store.DropLinks.MoveLinkBetweenPanels | droplinks.js:908-919 | the panels become `MoveLink(old, s, t, i)` and the total link count is kept; saved exactly when both panels exist and the source has a link at `i`, otherwise nothing changes |
| Store.DropLinks.SaveLinkEdit | droplinks.js:355-359 | the edit dialog's guard and "Save" (droplinks.js:391-414) on the raw field texts: the result is true exactly when the link exists and the trimmed input is accepted; the panels become `EditLink(old, id, i, trim(title), trim(url))`; saved exactly then, otherwise nothing changes |
| Store.DropLinks.ApplyLinkEdit | droplinks.js:396-409 | the same on already trimmed input: true exactly when the link exists and the input is accepted; the panels become `EditLink(...)`; saved exactly then; invariants kept |
| Store.DropLinks.ImportData | droplinks.js:1190-1244 | true exactly when the parsed document has a `panels` array; the state becomes `ImportedState` and its snapshot is written without a new save time; otherwise false with nothing changed |
| Store.DropLinks.CheckFileTimestamp | droplinks.js:1107-1132 | imports exactly when the file's save time is later than the local one (a missing one counting as 0) and the import accepts it; otherwise nothing changes |
| Store.DropLinks.LoadFromStorage | droplinks.js:1134-1164 | the outcome and the new state follow the stored entry: a snapshot is hydrated with defaults; no storage, no entry or a text that does not parse leaves the state unchanged |
| Store.DropLinks.AddInitialPanels | droplinks.js:34-38 | with no panels, three empty panels numbered on from the counter are appended, the counter goes up by three and the state is saved; with panels, nothing changes and nothing is saved |
| Store.DropLinks.Init | droplinks.js:28-43 | the outcome follows the stored entry; a text that throws changes nothing; otherwise the store ends with at least one panel: when the load left panels the state is exactly the loaded one and the storage is not written, and when it left none the panels are the three new panels numbered on from the loaded counter, the counter is three higher, the view flag is the loaded one and the state is saved |
| Store.SaveThenLoad | tests/unit/droplinks.test.js:201-239 | a save in one instance and a load in another sharing the storage carry the whole persisted state across |
| Store.ToggleTwice | tests/unit/droplinks.test.js:274-282 | toggling twice restores the view flag |
| Legacy.NewerSnapshotReadByOlder | script.js:451-458 | the older reader takes panels and counter from a newer snapshot |
| Legacy.DropLinks.constructor | script.js:2-10 | a new store is empty with counter 0 and no pending delete |
| Legacy.DropLinks.SaveToStorage | script.js:444-449 | the storage holds the panels-and-counter snapshot under the key and nothing else new |
| Legacy.DropLinks.AddPanel | script.js:62-72 | the counter goes up by one and one fresh empty panel with that id is appended; saved; invariants kept |
| Legacy.DropLinks.DeletePanel | script.js:74-77 | only the pending-delete slot is set |
| Legacy.DropLinks.ConfirmDelete | script.js:79-86 | with a set, non-zero target, the panels with that id are removed and the state saved; the slot is cleared either way |
| Legacy.DropLinks.CancelDelete | script.js:88-91 | clears the pending-delete slot |
| Legacy.DropLinks.MovePanel | script.js:178-183 | the panels become `Moved(old, from, to)`, a permutation; saved |
| Legacy.DropLinks.RenamePanelTitle | script.js:249-252 | the panel's title becomes the text; saved |
| Legacy.DropLinks.AddLinkToPanel | script.js:93-107 | as in droplinks.js: `AddLink`, saved exactly when it changes something |
| Legacy.DropLinks.AddLinkRecord | script.js:94-105 | as in droplinks.js, for a given record |
| Legacy.DropLinks.RemoveLinkFromPanel | script.js:169-176 | as in droplinks.js: `RemoveLink`, saved exactly when the link exists |
| Legacy.DropLinks.MoveLinkBetweenPanels | script.js:422-433 | as in droplinks.js: `MoveLink`, total link count kept |
| Legacy.DropLinks.ImportData | script.js:480-494 | true exactly with a `panels` array; panels installed, counter = largest id (or 0), then saved through `saveToStorage`; otherwise false with nothing changed |
| Legacy.DropLinks.LoadFromStorage | script.js:451-458 | a stored snapshot gives panels and counter with defaults (`LegacyLoaded`); a missing key or a text that does not parse leaves them unchanged |
| Legacy.LegacyLoaded | script.js:451-458 | what the older load makes of panels and counter: reading back the store's own snapshot gives them back; no entry or a text that throws leaves them |
| Legacy.DropLinks.AddInitialPanels | script.js:18-22 | with no panels, three empty panels numbered on from the counter, the counter three higher and the state saved; with panels, nothing changes |
| Legacy.DropLinks.Init | script.js:12-23 | the outcome follows the stored entry; a text that throws changes nothing; otherwise the store ends with at least one panel: when the load left panels, panels and counter are the loaded ones and the storage is not written; when it left none, the three new panels numbered on from the loaded counter, the counter three higher, and saved |
| Legacy.SaveThenLoad | script.js:444-458 | a save and a load sharing the storage carry panels and counter across |

## Left out

- Rendering and the DOM are not modelled: `render`, the panel and link elements, the modals, `showMessage` and the view-state class names. The edit dialog is reduced to its guard and its "Save" branch.
- Event wiring is not modelled: the click, drag, long-press and keyboard handlers and their `setTimeout` races. The title blur is kept as `RenamePanelTitle`.
- Browser capabilities are not modelled: the File System Access API, Blob downloads in `exportData` and `autoSaveToDownloads`, the clipboard, `fetch` and `window.open`. `saveToStorage` in droplinks.js also starts a download of the snapshot. The model covers only the `localStorage` write.
- `startSyncInterval` and `stopSyncInterval` are left out. They are timer plumbing and are disabled in the source.
- The WHATWG URL parser and JSON syntax are left out. Both are parameters (see above).
- Parsed JSON values whose fields have the wrong type are not modelled: non-number ids (which make `Math.max` give `NaN`) or a stored `null`. A `Document` field is either absent or of the expected type. A `panels` that is not an array is read as absent, which is exact for `importData` (droplinks.js:1193, script.js:480-494), where the `Array.isArray` test rejects it.
- Store.DropLinks.LoadFromStorage and Legacy.DropLinks.LoadFromStorage: `parsed.panels || []` (droplinks.js:1140, script.js:455) keeps a truthy `panels` that is not an array, such as `"x"` or `{}`, as the panel list. The model reads such a value as absent, so `Hydrate` and `LegacyHydrate` give `[]` where the source keeps the non-array value.
- Numbers: ids and the panel counter are exact, unbounded integers in the model. In the source they are JavaScript numbers (doubles). From 2^53 (9007199254740992), `++this.panelCounter` (droplinks.js:157, script.js:62-72) no longer changes the counter, so a new panel can repeat an id; a counter that high is reachable by importing a panel with that id (droplinks.js:1195). From 1e21, `${this.panelCounter}` prints exponent notation. The lines below name the members whose contracts rest on exact integers.
- PanelOps.NewPanel: the title is "Panel " followed by decimal digits; the source prints exponent notation for counters of 1e21 and above.
- PanelOps.AddPanelKeepsInvariants: the new id is fresh only while the counter is below 2^53 in the source; the model proves freshness for every counter.
- Store.DropLinks.AddPanel: "the counter goes up by exactly one" and the kept `Valid()` (distinct ids) hold in the source only while the counter is below 2^53.
- Legacy.DropLinks.AddPanel: "the counter goes up by exactly one" and the kept `Valid()` (distinct ids) hold in the source only while the counter is below 2^53.
- Store.DropLinks.AddInitialPanels: "three panels numbered on from the counter, the counter three higher" holds in the source only while the counter is at most 2^53 - 3; from 2^53 the three panels share one id.
- Legacy.DropLinks.AddInitialPanels: "three panels numbered on from the counter, the counter three higher" holds in the source only while the counter is at most 2^53 - 3; from 2^53 the three panels share one id.
- Store.DropLinks.Init: the three new panels numbered on from the loaded counter are distinct in the source only while that counter is at most 2^53 - 3.
- Legacy.DropLinks.Init: the three new panels numbered on from the loaded counter are distinct in the source only while that counter is at most 2^53 - 3.
- Store.DropLinks.AddLinkToPanel and Legacy.DropLinks.AddLinkToPanel: the `await` between the duplicate check and the push is taken as one atomic step. Two overlapping calls could both pass the check. That interleaving is not modelled. The record is built before the two checks rather than after them; building it has no effect here, so the outcome is the same.
- Store.DropLinks.RenamePanelTitle and Store.DropLinks.SaveLinkEdit: the handlers keep a reference to the panel or link object they were built for. The model addresses it by position and id at the time of the call. An object that was removed meanwhile and then changed through that reference is not modelled.
- Store.DropLinks.SaveToStorage and Legacy.DropLinks.SaveToStorage: `localStorage.setItem` (droplinks.js:941, script.js:445) can throw, for instance on a full quota. Neither version catches it: the in-memory change stays, the render after it is skipped and the error reaches the caller. The model takes every write to succeed, so each operation's contract describes the successful save only.
- Store.DropLinks.Init and Legacy.DropLinks.Init: a stored empty string is skipped by `if (data)` (droplinks.js:1138, script.js:453), so init goes on to add three panels. A stored entry is modelled only as a parsed document or a text that does not parse, so the empty string has no representation of its own; the model treats every stored text as parsed or as a parse error.
- Every clock read within one call (`new Date()`, `Date.now()`) is taken to see the same instant `now`.
- Store.DropLinks.constructor: the droplinks.js constructor runs `init` itself when it is given a document and `skipInit` is not set (droplinks.js:23-25). The model's constructor is the path that does not run `init`; the path with a document is the constructor followed by `Init`.
- Legacy.DropLinks.constructor: the script.js constructor runs `init` at once. The model splits allocation from `Init`. A stored text that makes `JSON.parse` throw there aborts the construction. The model reports it as `ParseError`.
- The `dragData` reference in script.js:317 sits in a DOM drop handler and is outside the model.
- Test, configuration and setup files are not modelled. The unit tests serve only as the examples some lemmas restate.
- TitleExamples: the unit-test case `https://site.com/products/awesome_widget` is not proved as a literal example. Its stages are covered by the general contracts of `StripLeadingSlashes`, `DropExtension`, `DashesToSpaces` and `CapitalizeWords`.
