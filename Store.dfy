/** The `DropLinks` class of droplinks.js: an ordered list of panels, the
    panel counter, the pending delete, the view flag and the time of the
    last save, persisted to an injected `localStorage` (which may be
    absent). Every operation that changes the panels saves a snapshot;
    `now` is the clock reading of the call. */
module Store {
  import opened Wrappers
  import opened Text
  import opened UrlTitle
  import opened Records
  import opened PanelOps
  import opened WebStorage

  /** The state `importData` installs from a document that has a `panels`
      array: those panels, the counter recomputed as the largest id (or 0),
      and the save time and view flag taken over only when present. */
  function ImportedState(s: AppState, d: Document): (r: AppState)
    requires d.panels.Some?
    ensures r.panels == d.panels.value && r.panelCounter == MaxId(r.panels)
    ensures CounterCovers(r.panels, r.panelCounter) && r.panelCounter >= 0
    ensures r.isCompactView == d.isCompactView.GetOr(s.isCompactView)
    ensures d.lastSaveTime.Some? ==> r.lastSaveTime == d.lastSaveTime
    ensures d.lastSaveTime.None? ==> r.lastSaveTime == s.lastSaveTime
  {
    AppState(d.panels.value, MaxId(d.panels.value), d.isCompactView.GetOr(s.isCompactView),
             if d.lastSaveTime.Some? then d.lastSaveTime else s.lastSaveTime)
  }

  /** Importing the same document twice gives the same state as once. */
  lemma ImportIdempotent(s: AppState, d: Document)
    requires d.panels.Some?
    ensures ImportedState(ImportedState(s, d), d) == ImportedState(s, d)
  {
  }

  /** `checkFileTimestamp`'s test: the file carries a save time strictly
      later than the local one, a missing local time counting as 0. */
  predicate IsNewer(d: Document, local: Option<Timestamp>): (newer: bool)
    ensures newer ==> d.lastSaveTime.Some?
    ensures local.None? && d.lastSaveTime.Some? ==> (newer <==> d.lastSaveTime.value > 0)
    ensures local.Some? && d.lastSaveTime.Some? ==> (newer <==> d.lastSaveTime.value > local.value)
  {
    d.lastSaveTime.Some? && d.lastSaveTime.value > local.GetOr(0)
  }

  /** Last write wins: once a newer file has been imported, the same file is
      no longer newer, so a second check does not import it again; and a
      file is never newer than a local state saved later than it. */
  lemma NewerImportedOnce(s: AppState, d: Document, later: Timestamp)
    requires d.panels.Some? && IsNewer(d, s.lastSaveTime)
    ensures !IsNewer(d, ImportedState(s, d).lastSaveTime)
    ensures later >= d.lastSaveTime.value ==> !IsNewer(d, Some(later))
  {
  }

  /** What `loadFromStorage` makes of state `s` given the stored entry: a
      parsed snapshot replaces the state field by field with defaults;
      anything else leaves it as it is. */
  function LoadedState(s: AppState, entry: Option<Option<Document>>): (r: AppState)
    ensures entry == Some(Some(Snapshot(s))) ==> r == s
    ensures entry.None? || entry == Some(None) ==> r == s
  {
    match entry
    case Some(Some(d)) => Hydrate(d)
    case _ => s
  }

  /** Reading back any snapshot restores the state that wrote it,
      whatever the reader held before. */
  lemma LoadSnapshotRestores(reader: AppState, writer: AppState)
    ensures LoadedState(reader, Some(Some(Snapshot(writer)))) == writer
    ensures OutcomeOf(Some(Some(Snapshot(writer)))) == Loaded
  {
  }

  /** The drop test for files (droplinks.js): a `.droplinks` or `.json`
      name, or the JSON media type. */
  predicate IsImportableFile(name: string, mime: string): (ok: bool)
    ensures mime == "application/json" ==> ok
    ensures ok && mime != "application/json" ==> |name| >= 5 && name[|name| - 1] in "ns"
  {
    EndsWith(name, ".droplinks") || EndsWith(name, ".json") || mime == "application/json"
  }

  /** Both files the application writes are accepted when dropped back,
      whatever media type the browser reports: the export file
      `droplinks-export-<date>.json` and the autosave file `.droplinks`. A
      text file is not. */
  lemma OwnFilesImportable(date: string, mime: string)
    ensures IsImportableFile("droplinks-export-" + date + ".json", mime)
    ensures IsImportableFile(".droplinks", mime)
    ensures !IsImportableFile("notes.txt", "text/plain")
  {
    EndsWithConcat("droplinks-export-" + date, ".json");
    EndsWithConcat("", ".droplinks");
    assert "notes.txt"[|"notes.txt"| - 1] != ".json"[|".json"| - 1];
    assert "notes.txt"[|"notes.txt"| - 1] != ".droplinks"[|".droplinks"| - 1];
  }

  class DropLinks {
    var panels: seq<Panel>
    var panelCounter: int
    var deleteTarget: Option<int>
    var isCompactView: bool
    var lastSaveTime: Option<Timestamp>
    const localStorage: LocalStorage?

    /** The constructor with an injected storage and no document, so
        `init` is not run. */
    constructor(storage: LocalStorage?)
      ensures panels == [] && panelCounter == 0 && deleteTarget == None
      ensures !isCompactView && lastSaveTime == None && localStorage == storage
    {
      panels := [];
      panelCounter := 0;
      deleteTarget := None;
      isCompactView := false;
      lastSaveTime := None;
      localStorage := storage;
    }

    /** The persisted part of the state. */
    function State(): AppState
      reads this
    {
      AppState(panels, panelCounter, isCompactView, lastSaveTime)
    }

    /** The counter is at least every panel id, and ids are distinct. */
    ghost predicate Valid()
      reads this
    {
      CounterCovers(panels, panelCounter) && UniqueIds(panels)
    }

    /** The call saved at `now`: the save time is `now`, and the storage,
        if any, holds the snapshot of the new state under the key and
        nothing else new. */
    twostate predicate SavedAt(now: Timestamp)
      reads this, localStorage
    {
      lastSaveTime == Some(now) &&
      (localStorage != null ==>
        localStorage.items == old(localStorage.items)[StorageKey := Some(Snapshot(State()))])
    }

    /** The storage, if any, holds what it held before the call. */
    twostate predicate StorageUnchanged()
      reads localStorage
    {
      localStorage != null ==> localStorage.items == old(localStorage.items)
    }

    /** The call did not save: save time and storage are as before. */
    twostate predicate NotSaved()
      reads this, localStorage
    {
      lastSaveTime == old(lastSaveTime) && StorageUnchanged()
    }

    /** `saveToStorage`: stamps the state with `now` and writes its
        snapshot. */
    method SaveToStorage(now: Timestamp)
      modifies this`lastSaveTime, localStorage
      ensures SavedAt(now)
    {
      lastSaveTime := Some(now);
      if localStorage != null {
        localStorage.SetItem(StorageKey, Some(Snapshot(State())));
      }
    }

    /** `addPanel`: the counter goes up by one and a fresh, empty panel with
        that id is appended. */
    method AddPanel(now: Timestamp)
      modifies this`panels, this`panelCounter, this`lastSaveTime, localStorage
      ensures panelCounter == old(panelCounter) + 1
      ensures panels == old(panels) + [NewPanel(panelCounter)]
      ensures SavedAt(now)
      ensures old(Valid()) ==> Valid()
      ensures old(UrlsUniquePerPanel(panels)) ==> UrlsUniquePerPanel(panels)
    {
      AddPanelKeepsInvariants(panels, panelCounter);
      panelCounter := panelCounter + 1;
      panels := panels + [NewPanel(panelCounter)];
      SaveToStorage(now);
    }

    /** `deletePanel`: only records which panel is to go. */
    method DeletePanel(panelId: int)
      modifies this`deleteTarget
      ensures deleteTarget == Some(panelId)
    {
      deleteTarget := Some(panelId);
    }

    /** `confirmDelete`: with a truthy target (set and non-zero) every panel
        with that id is removed and the rest keep their order; the target
        is cleared either way. */
    method ConfirmDelete(now: Timestamp)
      modifies this`panels, this`deleteTarget, this`lastSaveTime, localStorage
      ensures deleteTarget == None
      ensures old(deleteTarget).Some? && old(deleteTarget).value != 0 ==>
        panels == WithoutId(old(panels), old(deleteTarget).value) && SavedAt(now)
      ensures old(deleteTarget).None? || old(deleteTarget) == Some(0) ==>
        panels == old(panels) && NotSaved()
      ensures old(Valid()) ==> Valid()
      ensures old(UrlsUniquePerPanel(panels)) ==> UrlsUniquePerPanel(panels)
    {
      if deleteTarget.Some? && deleteTarget.value != 0 {
        WithoutIdKeepsInvariants(panels, deleteTarget.value, panelCounter);
        panels := WithoutId(panels, deleteTarget.value);
        SaveToStorage(now);
      }
      CancelDelete();
    }

    /** `cancelDelete`: clears the target; the panels are not in its frame. */
    method CancelDelete()
      modifies this`deleteTarget
      ensures deleteTarget == None
    {
      deleteTarget := None;
    }

    /** `toggleView`: flips the view flag and saves. */
    method ToggleView(now: Timestamp)
      modifies this`isCompactView, this`lastSaveTime, localStorage
      ensures isCompactView == !old(isCompactView)
      ensures SavedAt(now)
    {
      isCompactView := !isCompactView;
      SaveToStorage(now);
    }

    /** `movePanel`: the panel at `from` is spliced out and back in at `to`,
        which the drag handlers take from rendered positions. */
    method MovePanel(from: nat, to: nat, now: Timestamp)
      requires from < |panels| && to < |panels|
      modifies this`panels, this`lastSaveTime, localStorage
      ensures panels == Moved(old(panels), from, to)
      ensures multiset(panels) == multiset(old(panels)) && panels[to] == old(panels)[from]
      ensures SavedAt(now)
      ensures old(Valid()) ==> Valid()
    {
      MovedIsPermutation(panels, from, to);
      MovedKeepsInvariants(panels, from, to, panelCounter);
      var panel := panels[from];
      panels := RemoveAt(panels, from);
      panels := InsertAt(panels, to, panel);
      SaveToStorage(now);
    }

    /** The title blur on the panel rendered at `index`: the title becomes
        the element's text, whatever it is. */
    method RenamePanelTitle(index: nat, text: string, now: Timestamp)
      requires index < |panels|
      modifies this`panels, this`lastSaveTime, localStorage
      ensures panels == Renamed(old(panels), index, text)
      ensures SavedAt(now)
      ensures old(Valid()) ==> Valid()
    {
      SameIdsAgree(Renamed(panels, index, text), panels, 0, panelCounter);
      panels := panels[index := panels[index].(title := text)];
      SaveToStorage(now);
    }

    /** `addLinkToPanel`, taken as one step: when the panel exists and does
        not hold the URL, the record built for it is pushed onto the panel
        and the state saved; otherwise nothing happens. Building the record
        has no effect here, so it is built before the checks rather than
        after them. */
    method AddLinkToPanel(panelId: int, url: string, parse: UrlParser, now: Timestamp)
      modifies this`panels, this`lastSaveTime, localStorage
      ensures panels == AddLink(old(panels), panelId, ExtractLinkData(parse, url, now))
      ensures AcceptsUrl(old(panels), panelId, url) ==> SavedAt(now)
      ensures !AcceptsUrl(old(panels), panelId, url) ==> panels == old(panels) && NotSaved()
      ensures old(Valid()) ==> Valid()
      ensures old(UrlsUniquePerPanel(panels)) ==> UrlsUniquePerPanel(panels)
    {
      AddLinkRecord(panelId, ExtractLinkData(parse, url, now), now);
    }

    /** The lookup, the duplicate check and the push of `addLinkToPanel`,
        for the record built from the dropped URL. */
    method AddLinkRecord(panelId: int, link: Link, now: Timestamp)
      modifies this`panels, this`lastSaveTime, localStorage
      ensures panels == AddLink(old(panels), panelId, link)
      ensures AcceptsUrl(old(panels), panelId, link.url) ==> SavedAt(now)
      ensures !AcceptsUrl(old(panels), panelId, link.url) ==> panels == old(panels) && NotSaved()
      ensures old(Valid()) ==> Valid()
      ensures old(UrlsUniquePerPanel(panels)) ==> UrlsUniquePerPanel(panels)
    {
      var found := FindPanel(panels, panelId);
      if found.None? {
        assert AddLink(panels, panelId, link) == panels;
        return;
      }
      var k := found.value;
      if HasUrl(panels[k].links, link.url) {
        assert AddLink(panels, panelId, link) == panels;
        return;
      }
      AddLinkAt(panels, panelId, link, k, panelCounter);
      panels := panels[k := panels[k].(links := panels[k].links + [link])];
      SaveToStorage(now);
    }

    /** `removeLinkFromPanel`: when the panel has a link at `i`, that link
        is spliced out and the state saved; otherwise nothing happens. */
    method RemoveLinkFromPanel(panelId: int, i: int, now: Timestamp)
      modifies this`panels, this`lastSaveTime, localStorage
      ensures panels == RemoveLink(old(panels), panelId, i)
      ensures HasLinkAt(old(panels), panelId, i) ==> SavedAt(now)
      ensures !HasLinkAt(old(panels), panelId, i) ==> panels == old(panels) && NotSaved()
      ensures old(Valid()) ==> Valid()
      ensures old(UrlsUniquePerPanel(panels)) ==> UrlsUniquePerPanel(panels)
    {
      var found := FindPanel(panels, panelId);
      if found.None? || !(0 <= i < |panels[found.value].links|) {
        assert RemoveLink(panels, panelId, i) == panels;
        return;
      }
      var k := found.value;
      RemoveLinkAt(panels, panelId, i, k, panelCounter);
      panels := panels[k := panels[k].(links := RemoveAt(panels[k].links, i))];
      SaveToStorage(now);
    }

    /** `moveLinkBetweenPanels`: when both panels exist and the source has a
        link at `i`, that link is spliced out of the source and pushed onto
        the target, and the state saved; otherwise nothing happens. */
    method MoveLinkBetweenPanels(sourceId: int, targetId: int, i: int, now: Timestamp)
      modifies this`panels, this`lastSaveTime, localStorage
      ensures panels == MoveLink(old(panels), sourceId, targetId, i)
      ensures TotalLinks(panels) == TotalLinks(old(panels))
      ensures HasLinkAt(old(panels), sourceId, i) && FindPanel(old(panels), targetId).Some? ==> SavedAt(now)
      ensures !(HasLinkAt(old(panels), sourceId, i) && FindPanel(old(panels), targetId).Some?) ==>
        panels == old(panels) && NotSaved()
      ensures old(Valid()) ==> Valid()
    {
      MoveLinkEffect(panels, sourceId, targetId, i);
      SameIdsAgree(MoveLink(panels, sourceId, targetId, i), panels, sourceId, panelCounter);
      var source := FindPanel(panels, sourceId);
      var target := FindPanel(panels, targetId);
      if source.Some? && target.Some? && 0 <= i < |panels[source.value].links| {
        var ks, kt := source.value, target.value;
        var link := panels[ks].links[i];
        panels := panels[ks := panels[ks].(links := RemoveAt(panels[ks].links, i))];
        panels := panels[kt := panels[kt].(links := panels[kt].links + [link])];
        SaveToStorage(now);
      }
    }

    /** The link edit as the user drives it: the modal is opened on link
        `i` of the panel, and on "Save" the two fields are read and trimmed.
        With a non-empty title, a non-empty URL the parser accepts, the link
        is rewritten and the state saved, and `saved` is true; otherwise
        nothing changes. */
    method SaveLinkEdit(panelId: int, i: int, titleText: string, urlText: string, parse: UrlParser, now: Timestamp)
      returns (saved: bool)
      modifies this`panels, this`lastSaveTime, localStorage
      ensures saved <==> HasLinkAt(old(panels), panelId, i) && EditAccepted(Trim(titleText), Trim(urlText), parse)
      ensures panels == EditLink(old(panels), panelId, i, Trim(titleText), Trim(urlText), parse)
      ensures saved ==> SavedAt(now)
      ensures !saved ==> panels == old(panels) && NotSaved()
      ensures old(Valid()) ==> Valid()
    {
      saved := ApplyLinkEdit(panelId, i, Trim(titleText), Trim(urlText), parse, now);
    }

    /** The edit on the trimmed input: the modal exists only for an existing
        link, and "Save" rewrites that link when the input is accepted. */
    method ApplyLinkEdit(panelId: int, i: int, newTitle: string, newUrl: string, parse: UrlParser, now: Timestamp)
      returns (saved: bool)
      modifies this`panels, this`lastSaveTime, localStorage
      ensures saved <==> HasLinkAt(old(panels), panelId, i) && EditAccepted(newTitle, newUrl, parse)
      ensures panels == EditLink(old(panels), panelId, i, newTitle, newUrl, parse)
      ensures saved ==> SavedAt(now)
      ensures !saved ==> panels == old(panels) && NotSaved()
      ensures old(Valid()) ==> Valid()
    {
      var found := FindPanel(panels, panelId);
      if found.None? || !(0 <= i < |panels[found.value].links|) {
        assert EditLink(panels, panelId, i, newTitle, newUrl, parse) == panels;
        return false;
      }
      var k := found.value;
      if newTitle != [] && newUrl != [] && IsValidUrl(parse, newUrl) {
        EditLinkAt(panels, panelId, i, newTitle, newUrl, parse, k, panelCounter);
        var link := EditedLink(panels[k].links[i], newTitle, newUrl, parse);
        panels := panels[k := panels[k].(links := panels[k].links[i := link])];
        SaveToStorage(now);
        return true;
      }
      assert EditLink(panels, panelId, i, newTitle, newUrl, parse) == panels;
      return false;
    }

    /** `importData` on the parsed text (`None` when `JSON.parse` throws):
        a document with a `panels` array is installed and its snapshot
        written to the storage without a new save time; anything else is
        refused and changes nothing. */
    method ImportData(doc: Option<Document>) returns (ok: bool)
      modifies this`panels, this`panelCounter, this`isCompactView, this`lastSaveTime, localStorage
      ensures ok <==> doc.Some? && doc.value.panels.Some?
      ensures ok ==> State() == ImportedState(old(State()), doc.value)
      ensures ok ==> CounterCovers(panels, panelCounter)
      ensures ok && localStorage != null ==>
        localStorage.items == old(localStorage.items)[StorageKey := Some(Snapshot(State()))]
      ensures !ok ==> State() == old(State()) && NotSaved()
    {
      if doc.None? || doc.value.panels.None? {
        return false;
      }
      var d := doc.value;
      panels := d.panels.value;
      panelCounter := MaxId(panels);
      if d.lastSaveTime.Some? {
        lastSaveTime := d.lastSaveTime;
      }
      if d.isCompactView.Some? {
        isCompactView := d.isCompactView.value;
      }
      if localStorage != null {
        localStorage.SetItem(StorageKey, Some(Snapshot(State())));
      }
      return true;
    }

    /** `checkFileTimestamp` on a file's parsed text: the file is imported
        only when it carries a save time later than the local one. */
    method CheckFileTimestamp(doc: Option<Document>) returns (imported: bool)
      modifies this`panels, this`panelCounter, this`isCompactView, this`lastSaveTime, localStorage
      ensures imported <==> doc.Some? && IsNewer(doc.value, old(lastSaveTime)) && doc.value.panels.Some?
      ensures imported ==> State() == ImportedState(old(State()), doc.value)
      ensures imported && localStorage != null ==>
        localStorage.items == old(localStorage.items)[StorageKey := Some(Snapshot(State()))]
      ensures !imported ==> State() == old(State()) && NotSaved()
    {
      imported := false;
      if doc.Some? && IsNewer(doc.value, lastSaveTime) {
        imported := ImportData(doc);
      }
    }

    /** The stored entry under the key, if there is a storage holding it. */
    function StoredEntry(): Option<Option<Document>>
      reads localStorage
    {
      Entry(localStorage, StorageKey)
    }

    /** `loadFromStorage`: a stored snapshot replaces the state, absent
        fields taking their defaults; with no storage or no entry nothing
        changes; a stored text `JSON.parse` rejects throws, reported as
        `ParseError`, with nothing changed. */
    method LoadFromStorage() returns (outcome: LoadOutcome)
      modifies this`panels, this`panelCounter, this`isCompactView, this`lastSaveTime
      ensures outcome == OutcomeOf(StoredEntry())
      ensures State() == LoadedState(old(State()), StoredEntry())
    {
      outcome := OutcomeOf(StoredEntry());
      match StoredEntry()
      case Some(Some(d)) =>
        var s := Hydrate(d);
        panels := s.panels;
        panelCounter := s.panelCounter;
        isCompactView := s.isCompactView;
        lastSaveTime := s.lastSaveTime;
      case _ =>
    }

    /** The part of `init` after loading: an empty store gets three
        panels, numbered on from the counter, each one saved. */
    method AddInitialPanels(now: Timestamp)
      modifies this`panels, this`panelCounter, this`lastSaveTime, localStorage
      ensures |panels| > 0
      ensures old(panels) == [] ==>
        panelCounter == old(panelCounter) + 3 &&
        panels == old(panels) + [NewPanel(old(panelCounter) + 1)] + [NewPanel(old(panelCounter) + 2)] + [NewPanel(old(panelCounter) + 3)] &&
        SavedAt(now)
      ensures old(panels) != [] ==> panels == old(panels) && panelCounter == old(panelCounter) && NotSaved()
    {
      if |panels| == 0 {
        AddPanel(now);
        label first:
        AddPanel(now);
        label second:
        AddPanel(now);
        if localStorage != null {
          OverwrittenTwice(old(localStorage.items), StorageKey,
            old@first(localStorage.items)[StorageKey], old@second(localStorage.items)[StorageKey],
            localStorage.items[StorageKey]);
        }
      }
    }

    /** `init` without rendering: load, then add the initial panels unless
        the load threw (`ParseError`, which ends `init` there). */
    method Init(now: Timestamp) returns (outcome: LoadOutcome)
      modifies this`panels, this`panelCounter, this`isCompactView, this`lastSaveTime, localStorage
      ensures outcome == OutcomeOf(old(StoredEntry()))
      ensures outcome == ParseError ==> State() == old(State()) && NotSaved()
      ensures outcome != ParseError ==> |panels| > 0
      ensures outcome != ParseError && LoadedState(old(State()), old(StoredEntry())).panels != [] ==>
        State() == LoadedState(old(State()), old(StoredEntry())) && StorageUnchanged()
    ensures outcome != ParseError && LoadedState(old(State()), old(StoredEntry())).panels == [] ==>
      var loaded := LoadedState(old(State()), old(StoredEntry()));
      panelCounter == loaded.panelCounter + 3 &&
      panels == [NewPanel(loaded.panelCounter + 1), NewPanel(loaded.panelCounter + 2), NewPanel(loaded.panelCounter + 3)] &&
      isCompactView == loaded.isCompactView &&
      SavedAt(now)
    {
      outcome := LoadFromStorage();
      if outcome == ParseError {
        return;
      }
      AddInitialPanels(now);
    }
  }

  /** Saving in one instance and loading in another that shares the storage
      carries the whole persisted state across. */
  method SaveThenLoad(writer: DropLinks, reader: DropLinks, now: Timestamp)
    requires writer.localStorage != null && reader.localStorage == writer.localStorage
    requires reader != writer
    modifies writer`lastSaveTime, writer.localStorage
    modifies reader`panels, reader`panelCounter, reader`isCompactView, reader`lastSaveTime
    ensures writer.lastSaveTime == Some(now)
    ensures reader.State() == writer.State()
  {
    writer.SaveToStorage(now);
    var outcome := reader.LoadFromStorage();
    LoadSnapshotRestores(old(reader.State()), writer.State());
  }

  /** Toggling the view twice restores the flag. */
  method ToggleTwice(app: DropLinks, first: Timestamp, second: Timestamp)
    modifies app`isCompactView, app`lastSaveTime, app.localStorage
    ensures app.isCompactView == old(app.isCompactView)
    ensures app.lastSaveTime == Some(second)
  {
    app.ToggleView(first);
    app.ToggleView(second);
  }
}
