/** The browser's `localStorage`, as both versions of the store use it: a
    mutable map from keys to stored JSON text. A stored text is represented
    by what `JSON.parse` makes of it: `Some(d)` for a document, `None` for
    text it rejects. Writing `JSON.stringify(x)` stores `Some(x)`. */
module WebStorage {
  import opened Wrappers
  import opened Records

  class LocalStorage {
    var items: map<string, Option<Document>>

    /** An empty storage area. */
    constructor()
      ensures items == map[]
    {
      items := map[];
    }

    /** `setItem(key, value)`: the key now holds the value; every other key
        keeps what it held. */
    method SetItem(key: string, value: Option<Document>)
      modifies this
      ensures items == old(items)[key := value]
    {
      items := items[key := value];
    }
  }

  /** Writing a key three times leaves only the last value. */
  lemma OverwrittenTwice(m: map<string, Option<Document>>, key: string, a: Option<Document>, b: Option<Document>, c: Option<Document>)
    ensures m[key := a][key := b][key := c] == m[key := c]
  {
  }

  /** How a load attempt ended: a snapshot was read back, nothing was stored
      (or there is no storage), or the stored text made `JSON.parse` throw. */
  datatype LoadOutcome = Loaded | NoData | ParseError

  /** The entry under `key`, if there is a storage and it holds the key. */
  function Entry(storage: LocalStorage?, key: string): (r: Option<Option<Document>>)
    reads storage
    ensures r.Some? <==> storage != null && key in storage.items
    ensures r.Some? ==> r.value == storage.items[key]
  {
    if storage != null && key in storage.items then Some(storage.items[key]) else None
  }

  /** How a load attempt with this entry ends. */
  function OutcomeOf(entry: Option<Option<Document>>): LoadOutcome {
    match entry
    case None => NoData
    case Some(None) => ParseError
    case Some(Some(_)) => Loaded
  }
}
