/** The older `DropLinks` class of script.js. The operations it shares with
    droplinks.js behave the same; what differs is that it uses the global
    storage (always present), that its snapshot holds only the panels and
    the counter, and that `importData` goes through `saveToStorage`. It
    has no view flag, save time, link edit or file sync. */
module Legacy {
  import opened Wrappers
  import opened UrlTitle
  import opened Records
  import opened PanelOps
  import opened WebStorage

  /** Both snapshot formats carry panels and counter across: the newer
      snapshot read by the older code gives the panels and counter back. */
  lemma NewerSnapshotReadByOlder(s: AppState)
    ensures LegacyHydrate(Snapshot(s)) == (s.panels, s.panelCounter)
  {
  }

  /** What the older `loadFromStorage` makes of panels and counter given
      the stored entry: a parsed snapshot replaces both with defaults;
      anything else leaves them as they are. */
  function LegacyLoaded(panels: seq<Panel>, counter: int, entry: Option<Option<Document>>): (r: (seq<Panel>, int))
    ensures entry == Some(Some(LegacySnapshot(panels, counter))) ==> r == (panels, counter)
    ensures entry.None? || entry == Some(None) ==> r == (panels, counter)
  {
    match entry
    case Some(Some(d)) => LegacyHydrate(d)
    case _ => (panels, counter)
  }

  class DropLinks {
    var panels: seq<Panel>
    var panelCounter: int
    var deleteTarget: Option<int>
    const localStorage: LocalStorage

    /** The field initialisation of the constructor; the `init` call it
        ends with is `Init`. */
    constructor(storage: LocalStorage)
      ensures panels == [] && panelCounter == 0 && deleteTarget == None
      ensures localStorage == storage
    {
      panels := [];
      panelCounter := 0;
      deleteTarget := None;
      localStorage := storage;
    }

    /** The counter is at least every panel id, and ids are distinct. */
    ghost predicate Valid()
      reads this
    {
      CounterCovers(panels, panelCounter) && UniqueIds(panels)
    }

    /** The storage holds the snapshot of the current panels and counter
        under the key, and nothing else new. */
    twostate predicate Saved()
      reads this, localStorage
    {
      localStorage.items == old(localStorage.items)[StorageKey := Some(LegacySnapshot(panels, panelCounter))]
    }

    /** `saveToStorage`: writes panels and counter. */
    method SaveToStorage()
      modifies localStorage
      ensures Saved()
    {
      localStorage.SetItem(StorageKey, Some(LegacySnapshot(panels, panelCounter)));
    }

    /** `addPanel`: the counter goes up by one and a fresh, empty panel with
        that id is appended. */
    method AddPanel()
      modifies this`panels, this`panelCounter, localStorage
      ensures panelCounter == old(panelCounter) + 1
      ensures panels == old(panels) + [NewPanel(panelCounter)]
      ensures Saved()
      ensures old(Valid()) ==> Valid()
    {
      AddPanelKeepsInvariants(panels, panelCounter);
      panelCounter := panelCounter + 1;
      panels := panels + [NewPanel(panelCounter)];
      SaveToStorage();
    }

    /** `deletePanel`: only records which panel is to go. */
    method DeletePanel(panelId: int)
      modifies this`deleteTarget
      ensures deleteTarget == Some(panelId)
    {
      deleteTarget := Some(panelId);
    }

    /** `confirmDelete`: with a truthy target every panel with that id is
        removed and the rest keep their order; the target is cleared. */
    method ConfirmDelete()
      modifies this`panels, this`deleteTarget, localStorage
      ensures deleteTarget == None
      ensures old(deleteTarget).Some? && old(deleteTarget).value != 0 ==>
        panels == WithoutId(old(panels), old(deleteTarget).value) && Saved()
      ensures old(deleteTarget).None? || old(deleteTarget) == Some(0) ==>
        panels == old(panels) && localStorage.items == old(localStorage.items)
      ensures old(Valid()) ==> Valid()
    {
      if deleteTarget.Some? && deleteTarget.value != 0 {
        WithoutIdKeepsInvariants(panels, deleteTarget.value, panelCounter);
        panels := WithoutId(panels, deleteTarget.value);
        SaveToStorage();
      }
      CancelDelete();
    }

    /** `cancelDelete`: clears the target; the panels are not in its frame. */
    method CancelDelete()
      modifies this`deleteTarget
      ensures deleteTarget == None
    {
      deleteTarget := None;
    }

    /** `movePanel`: the panel at `from` spliced out and back in at `to`. */
    method MovePanel(from: nat, to: nat)
      requires from < |panels| && to < |panels|
      modifies this`panels, localStorage
      ensures panels == Moved(old(panels), from, to)
      ensures multiset(panels) == multiset(old(panels)) && panels[to] == old(panels)[from]
      ensures Saved()
      ensures old(Valid()) ==> Valid()
    {
      MovedIsPermutation(panels, from, to);
      MovedKeepsInvariants(panels, from, to, panelCounter);
      var panel := panels[from];
      panels := RemoveAt(panels, from);
      panels := InsertAt(panels, to, panel);
      SaveToStorage();
    }

    /** The title blur on the panel rendered at `index`. */
    method RenamePanelTitle(index: nat, text: string)
      requires index < |panels|
      modifies this`panels, localStorage
      ensures panels == Renamed(old(panels), index, text)
      ensures Saved()
      ensures old(Valid()) ==> Valid()
    {
      SameIdsAgree(Renamed(panels, index, text), panels, 0, panelCounter);
      panels := panels[index := panels[index].(title := text)];
      SaveToStorage();
    }

    /** `addLinkToPanel`, taken as one step: as in droplinks.js. */
    method AddLinkToPanel(panelId: int, url: string, parse: UrlParser, now: Timestamp)
      modifies this`panels, localStorage
      ensures panels == AddLink(old(panels), panelId, ExtractLinkData(parse, url, now))
      ensures AcceptsUrl(old(panels), panelId, url) ==> Saved()
      ensures !AcceptsUrl(old(panels), panelId, url) ==>
        panels == old(panels) && localStorage.items == old(localStorage.items)
      ensures old(Valid()) ==> Valid()
      ensures old(UrlsUniquePerPanel(panels)) ==> UrlsUniquePerPanel(panels)
    {
      AddLinkRecord(panelId, ExtractLinkData(parse, url, now));
    }

    /** The lookup, the duplicate check and the push of `addLinkToPanel`,
        for the record built from the dropped URL. */
    method AddLinkRecord(panelId: int, link: Link)
      modifies this`panels, localStorage
      ensures panels == AddLink(old(panels), panelId, link)
      ensures AcceptsUrl(old(panels), panelId, link.url) ==> Saved()
      ensures !AcceptsUrl(old(panels), panelId, link.url) ==>
        panels == old(panels) && localStorage.items == old(localStorage.items)
      ensures old(Valid()) ==> Valid()
      ensures old(UrlsUniquePerPanel(panels)) ==> UrlsUniquePerPanel(panels)
    {
      var found := FindPanel(panels, panelId);
      if found.None? {
        assert AddLink(panels, panelId, link) == panels;
        return;
      }
      var k := found.value;
      if HasUrl(panels[k].links, link.url) {
        assert AddLink(panels, panelId, link) == panels;
        return;
      }
      AddLinkAt(panels, panelId, link, k, panelCounter);
      panels := panels[k := panels[k].(links := panels[k].links + [link])];
      SaveToStorage();
    }

    /** `removeLinkFromPanel`: as in droplinks.js. */
    method RemoveLinkFromPanel(panelId: int, i: int)
      modifies this`panels, localStorage
      ensures panels == RemoveLink(old(panels), panelId, i)
      ensures HasLinkAt(old(panels), panelId, i) ==> Saved()
      ensures !HasLinkAt(old(panels), panelId, i) ==>
        panels == old(panels) && localStorage.items == old(localStorage.items)
      ensures old(Valid()) ==> Valid()
      ensures old(UrlsUniquePerPanel(panels)) ==> UrlsUniquePerPanel(panels)
    {
      var found := FindPanel(panels, panelId);
      if found.None? || !(0 <= i < |panels[found.value].links|) {
        assert RemoveLink(panels, panelId, i) == panels;
        return;
      }
      var k := found.value;
      RemoveLinkAt(panels, panelId, i, k, panelCounter);
      panels := panels[k := panels[k].(links := RemoveAt(panels[k].links, i))];
      SaveToStorage();
    }

    /** `moveLinkBetweenPanels`: as in droplinks.js. */
    method MoveLinkBetweenPanels(sourceId: int, targetId: int, i: int)
      modifies this`panels, localStorage
      ensures panels == MoveLink(old(panels), sourceId, targetId, i)
      ensures TotalLinks(panels) == TotalLinks(old(panels))
      ensures HasLinkAt(old(panels), sourceId, i) && FindPanel(old(panels), targetId).Some? ==> Saved()
      ensures !(HasLinkAt(old(panels), sourceId, i) && FindPanel(old(panels), targetId).Some?) ==>
        panels == old(panels) && localStorage.items == old(localStorage.items)
      ensures old(Valid()) ==> Valid()
    {
      MoveLinkEffect(panels, sourceId, targetId, i);
      SameIdsAgree(MoveLink(panels, sourceId, targetId, i), panels, sourceId, panelCounter);
      var source := FindPanel(panels, sourceId);
      var target := FindPanel(panels, targetId);
      if source.Some? && target.Some? && 0 <= i < |panels[source.value].links| {
        var ks, kt := source.value, target.value;
        var link := panels[ks].links[i];
        panels := panels[ks := panels[ks].(links := RemoveAt(panels[ks].links, i))];
        panels := panels[kt := panels[kt].(links := panels[kt].links + [link])];
        SaveToStorage();
      }
    }

    /** `importData` on the parsed text: a document with a `panels` array
        is installed, the counter recomputed as the largest id (or 0), and
        the state saved; anything else is refused and changes nothing. */
    method ImportData(doc: Option<Document>) returns (ok: bool)
      modifies this`panels, this`panelCounter, localStorage
      ensures ok <==> doc.Some? && doc.value.panels.Some?
      ensures ok ==> panels == doc.value.panels.value && panelCounter == MaxId(panels)
      ensures ok ==> CounterCovers(panels, panelCounter) && Saved()
      ensures !ok ==>
        panels == old(panels) && panelCounter == old(panelCounter) &&
        localStorage.items == old(localStorage.items)
    {
      if doc.None? || doc.value.panels.None? {
        return false;
      }
      panels := doc.value.panels.value;
      panelCounter := MaxId(panels);
      SaveToStorage();
      return true;
    }

    /** `loadFromStorage`: a stored snapshot replaces panels and counter,
        absent fields taking their defaults; a missing key changes nothing;
        a stored text `JSON.parse` rejects throws, reported as
        `ParseError`, with nothing changed. */
    method LoadFromStorage() returns (outcome: LoadOutcome)
      modifies this`panels, this`panelCounter
      ensures outcome == OutcomeOf(Entry(localStorage, StorageKey))
      ensures outcome == Loaded ==>
        (panels, panelCounter) == LegacyHydrate(localStorage.items[StorageKey].value)
      ensures outcome != Loaded ==> panels == old(panels) && panelCounter == old(panelCounter)
      ensures (panels, panelCounter) == LegacyLoaded(old(panels), old(panelCounter), Entry(localStorage, StorageKey))
    {
      outcome := OutcomeOf(Entry(localStorage, StorageKey));
      if StorageKey in localStorage.items && localStorage.items[StorageKey].Some? {
        var loaded := LegacyHydrate(localStorage.items[StorageKey].value);
        panels := loaded.0;
        panelCounter := loaded.1;
      }
    }

    /** The part of `init` after loading: an empty store gets three
        panels, numbered on from the counter, each one saved. */
    method AddInitialPanels()
      modifies this`panels, this`panelCounter, localStorage
      ensures |panels| > 0
      ensures old(panels) == [] ==>
        panelCounter == old(panelCounter) + 3 &&
        panels == old(panels) + [NewPanel(old(panelCounter) + 1)] + [NewPanel(old(panelCounter) + 2)] + [NewPanel(old(panelCounter) + 3)] &&
        Saved()
      ensures old(panels) != [] ==>
        panels == old(panels) && panelCounter == old(panelCounter) &&
        localStorage.items == old(localStorage.items)
    {
      if |panels| == 0 {
        AddPanel();
        label first:
        AddPanel();
        label second:
        AddPanel();
        OverwrittenTwice(old(localStorage.items), StorageKey,
          old@first(localStorage.items)[StorageKey], old@second(localStorage.items)[StorageKey],
          localStorage.items[StorageKey]);
      }
    }

    /** `init` without rendering: load, and when that leaves no panel, add
        three, numbered on from the loaded counter. */
    method Init() returns (outcome: LoadOutcome)
      modifies this`panels, this`panelCounter, localStorage
      ensures outcome == OutcomeOf(old(Entry(localStorage, StorageKey)))
      ensures outcome == ParseError ==>
        panels == old(panels) && panelCounter == old(panelCounter) &&
        localStorage.items == old(localStorage.items)
      ensures outcome != ParseError ==> |panels| > 0
      ensures outcome != ParseError && LegacyLoaded(old(panels), old(panelCounter), old(Entry(localStorage, StorageKey))).0 != [] ==>
        (panels, panelCounter) == LegacyLoaded(old(panels), old(panelCounter), old(Entry(localStorage, StorageKey))) &&
        localStorage.items == old(localStorage.items)
      ensures outcome != ParseError && LegacyLoaded(old(panels), old(panelCounter), old(Entry(localStorage, StorageKey))).0 == [] ==>
        var loadedCounter := LegacyLoaded(old(panels), old(panelCounter), old(Entry(localStorage, StorageKey))).1;
        panelCounter == loadedCounter + 3 &&
        panels == [NewPanel(loadedCounter + 1), NewPanel(loadedCounter + 2), NewPanel(loadedCounter + 3)] &&
        Saved()
    {
      ghost var loaded := LegacyLoaded(panels, panelCounter, Entry(localStorage, StorageKey));
      outcome := LoadFromStorage();
      assert panels == loaded.0 && panelCounter == loaded.1;
      if outcome == ParseError {
        return;
      }
      AddInitialPanels();
    }
  }

  /** Saving in one instance and loading in another that shares the storage
      carries panels and counter across. */
  method SaveThenLoad(writer: DropLinks, reader: DropLinks)
    requires reader.localStorage == writer.localStorage && reader != writer
    modifies writer.localStorage, reader`panels, reader`panelCounter
    ensures reader.panels == writer.panels && reader.panelCounter == writer.panelCounter
  {
    writer.SaveToStorage();
    var outcome := reader.LoadFromStorage();
  }
}
