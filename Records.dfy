/** The values the store holds and persists: links, panels, the parsed
    form of a stored or imported JSON document, and the application state
    a snapshot carries. */
module Records {
  import opened Wrappers
  import opened UrlTitle

  /** ISO-8601 instants are modelled by their epoch milliseconds. */
  type Timestamp = int

  datatype Link = Link(url: string, title: string, domain: string, favicon: Option<string>, timestamp: Timestamp)

  datatype Panel = Panel(id: int, title: string, links: seq<Link>)

  /** What `JSON.parse` yields for a stored snapshot or an imported file,
      reduced to the fields the store reads. `None` is a field that is
      absent (for `panels`: absent or not an array; for `lastSaveTime`:
      absent or falsy). */
  datatype Document = Document(
    panels: Option<seq<Panel>>,
    panelCounter: Option<int>,
    isCompactView: Option<bool>,
    lastSaveTime: Option<Timestamp>)

  /** The persisted part of a `DropLinks` instance. */
  datatype AppState = AppState(
    panels: seq<Panel>,
    panelCounter: int,
    isCompactView: bool,
    lastSaveTime: Option<Timestamp>)

  /** The localStorage key both versions of the store write to. */
  const StorageKey: string := "droplinks-data"

  const UnknownDomain: string := "Unknown"

  /** The favicon-service address built for a hostname. */
  function FaviconUrl(domain: string): string {
    "https://www.google.com/s2/favicons?domain=" + domain + "&sz=32"
  }

  /** `extractLinkData`: the record built for a dropped or pasted URL. The
      network probe it makes has no effect on the record and is not
      modelled. */
  function ExtractLinkData(parse: UrlParser, url: string, now: Timestamp): (link: Link)
    ensures link.url == url && link.timestamp == now
    ensures url != [] ==> link.title != []
    ensures link.favicon.Some? <==> IsValidUrl(parse, url)
    ensures !IsValidUrl(parse, url) ==> link.title == url && link.domain == UnknownDomain
    ensures IsValidUrl(parse, url) ==>
      link.title == ExtractTitleFromUrl(parse, url) &&
      link.domain == parse(url).value.hostname &&
      link.favicon == Some(FaviconUrl(link.domain))
  {
    ExtractTitleCases(parse, url);
    match parse(url)
    case Some(parts) =>
      Link(url, ExtractTitleFromUrl(parse, url), parts.hostname, Some(FaviconUrl(parts.hostname)), now)
    case None =>
      Link(url, url, UnknownDomain, None, now)
  }

  /** The record after a successful edit: new title and URL, the domain and
      favicon re-derived from the URL, the creation time kept. */
  function EditedLink(link: Link, title: string, url: string, parse: UrlParser): (r: Link)
    ensures r.url == url && r.title == title && r.timestamp == link.timestamp
    ensures IsValidUrl(parse, url) ==>
      r.domain == parse(url).value.hostname && r.favicon == Some(FaviconUrl(r.domain))
  {
    match parse(url)
    case Some(parts) => link.(title := title, url := url, domain := parts.hostname, favicon := Some(FaviconUrl(parts.hostname)))
    case None => link.(title := title, url := url, domain := UnknownDomain)
  }

  /** How `loadFromStorage` (droplinks.js) reads a parsed snapshot: each
      absent field falls back to its default. */
  function Hydrate(d: Document): (s: AppState)
    ensures d.panels.None? ==> s.panels == []
    ensures d.panelCounter.None? ==> s.panelCounter == 0
    ensures d.isCompactView.None? ==> !s.isCompactView
    ensures d.panels.Some? ==> s.panels == d.panels.value
    ensures d.panelCounter.Some? ==> s.panelCounter == d.panelCounter.value
    ensures d.isCompactView.Some? ==> s.isCompactView == d.isCompactView.value
    ensures s.lastSaveTime == d.lastSaveTime
    ensures (s.panels, s.panelCounter) == LegacyHydrate(d)
  {
    AppState(d.panels.GetOr([]), d.panelCounter.GetOr(0), d.isCompactView.GetOr(false), d.lastSaveTime)
  }

  /** The object `saveToStorage` (droplinks.js) serialises; reading it back
      restores the state exactly. */
  function Snapshot(s: AppState): (d: Document)
    ensures Hydrate(d) == s
  {
    Document(Some(s.panels), Some(s.panelCounter), Some(s.isCompactView), s.lastSaveTime)
  }

  /** How `loadFromStorage` (script.js) reads a parsed snapshot. */
  function LegacyHydrate(d: Document): (r: (seq<Panel>, int))
    ensures d.panels.None? ==> r.0 == []
    ensures d.panelCounter.None? ==> r.1 == 0
    ensures d.panels.Some? ==> r.0 == d.panels.value
    ensures d.panelCounter.Some? ==> r.1 == d.panelCounter.value
  {
    (d.panels.GetOr([]), d.panelCounter.GetOr(0))
  }

  /** The object `saveToStorage` (script.js) serialises: panels and counter
      only. The older reader restores both; the newer reader restores both
      and falls back to the defaults for the two fields it lacks. */
  function LegacySnapshot(panels: seq<Panel>, counter: int): (d: Document)
    ensures LegacyHydrate(d) == (panels, counter)
    ensures Hydrate(d) == AppState(panels, counter, false, None)
  {
    Document(Some(panels), Some(counter), None, None)
  }
}
