/** The panel list as a value: the lookups the store performs
    (`panels.find`, `links.some`, `filter`, `Math.max` over the ids), the
    list surgery of its operations (`splice`, `push`), the invariants the
    store keeps, and the lemmas that say what each operation does to them.
    The classes in Store and Legacy are specified by these
    functions. */
module PanelOps {
  import opened Wrappers
  import opened Text
  import opened UrlTitle
  import opened Records

  // ---------------------------------------------------------------------
  // Lookups

  /** `panels.find((p) => p.id === id)`: the position of the first panel
      with that id. */
  function FindPanel(ps: seq<Panel>, id: int): (r: Option<nat>)
    ensures r.Some? ==> r.value < |ps| && ps[r.value].id == id
    ensures r.Some? ==> forall j :: 0 <= j < r.value ==> ps[j].id != id
    ensures r.None? ==> forall j :: 0 <= j < |ps| ==> ps[j].id != id
  {
    if ps == [] then None
    else if ps[0].id == id then Some(0)
    else
      match FindPanel(ps[1..], id)
      case None => None
      case Some(k) => Some(k + 1)
  }

  /** `links.some((link) => link.url === url)`. */
  predicate HasUrl(links: seq<Link>, url: string) {
    exists i :: 0 <= i < |links| && links[i].url == url
  }

  // ---------------------------------------------------------------------
  // Invariants

  /** No two panels share an id. */
  ghost predicate UniqueIds(ps: seq<Panel>) {
    forall i, j :: 0 <= i < |ps| && 0 <= j < |ps| && i != j ==> ps[i].id != ps[j].id
  }

  /** The counter is at least every panel id, so the next id is fresh. */
  ghost predicate CounterCovers(ps: seq<Panel>, counter: int) {
    forall i :: 0 <= i < |ps| ==> ps[i].id <= counter
  }

  /** No URL appears twice in one link list. */
  ghost predicate UrlsUnique(links: seq<Link>) {
    forall i, j :: 0 <= i < |links| && 0 <= j < |links| && i != j ==> links[i].url != links[j].url
  }

  ghost predicate UrlsUniquePerPanel(ps: seq<Panel>) {
    forall k :: 0 <= k < |ps| ==> UrlsUnique(ps[k].links)
  }

  /** Two panel lists with the same ids in the same positions. */
  ghost predicate SameIds(a: seq<Panel>, b: seq<Panel>) {
    |a| == |b| && forall k :: 0 <= k < |a| ==> a[k].id == b[k].id
  }

  /** Lists with the same ids in the same places find the same panel and
      satisfy the id invariants alike. */
  lemma {:induction false} SameIdsAgree(a: seq<Panel>, b: seq<Panel>, id: int, counter: int)
    requires SameIds(a, b)
    ensures FindPanel(a, id) == FindPanel(b, id)
    ensures UniqueIds(a) <==> UniqueIds(b)
    ensures CounterCovers(a, counter) <==> CounterCovers(b, counter)
  {
    if a != [] && a[0].id != id {
      SameIdsAgree(a[1..], b[1..], id, counter);
    }
  }

  // ---------------------------------------------------------------------
  // Panels

  /** The panel `addPanel` appends once the counter has become `id`. */
  function NewPanel(id: int): (p: Panel)
    ensures p.id == id && p.links == []
    ensures p.title == "Panel " + IntToDecimal(id)
    ensures id >= 0 ==> p.title[..6] == "Panel " && DecimalValue(p.title[6..]) == id
  {
    Panel(id, "Panel " + IntToDecimal(id), [])
  }

  /** Appending the panel for `counter + 1` keeps both id invariants and
      gives it an id no existing panel has. */
  lemma AddPanelKeepsInvariants(ps: seq<Panel>, counter: int)
    ensures CounterCovers(ps, counter) ==> forall i :: 0 <= i < |ps| ==> ps[i].id != counter + 1
    ensures CounterCovers(ps, counter) ==> CounterCovers(ps + [NewPanel(counter + 1)], counter + 1)
    ensures CounterCovers(ps, counter) && UniqueIds(ps) ==> UniqueIds(ps + [NewPanel(counter + 1)])
    ensures UrlsUniquePerPanel(ps) ==> UrlsUniquePerPanel(ps + [NewPanel(counter + 1)])
  {
    var r := ps + [NewPanel(counter + 1)];
    assert forall i :: 0 <= i < |ps| ==> r[i] == ps[i];
  }

  /** `splice(i, 1)`: the element at `i` taken out. */
  function RemoveAt<T>(s: seq<T>, i: nat): (r: seq<T>)
    requires i < |s|
    ensures |r| == |s| - 1
    ensures forall k :: 0 <= k < i ==> r[k] == s[k]
    ensures forall k :: i <= k < |r| ==> r[k] == s[k + 1]
    ensures multiset(r) + multiset{s[i]} == multiset(s)
  {
    assert s == s[..i] + [s[i]] + s[i + 1..];
    s[..i] + s[i + 1..]
  }

  /** `splice(i, 0, x)`: `x` put in at `i`. */
  function InsertAt<T>(s: seq<T>, i: nat, x: T): (r: seq<T>)
    requires i <= |s|
    ensures |r| == |s| + 1 && r[i] == x
    ensures forall k :: 0 <= k < i ==> r[k] == s[k]
    ensures forall k :: i < k < |r| ==> r[k] == s[k - 1]
    ensures multiset(r) == multiset(s) + multiset{x}
  {
    assert s == s[..i] + s[i..];
    s[..i] + [x] + s[i..]
  }

  /** Taking out what was put in gives the list back. */
  lemma RemoveInserted<T>(s: seq<T>, i: nat, x: T)
    requires i <= |s|
    ensures RemoveAt(InsertAt(s, i, x), i) == s
  {
    var r := RemoveAt(InsertAt(s, i, x), i);
    assert forall k :: 0 <= k < |s| ==> r[k] == s[k];
  }

  /** Putting back what was taken out gives the list back. */
  lemma InsertRemoved<T>(s: seq<T>, i: nat)
    requires i < |s|
    ensures InsertAt(RemoveAt(s, i), i, s[i]) == s
  {
    var r := InsertAt(RemoveAt(s, i), i, s[i]);
    assert forall k :: 0 <= k < |s| ==> r[k] == s[k];
  }

  /** `movePanel(from, to)`: the element at `from` spliced out and spliced
      back in at `to`. */
  function Moved<T>(s: seq<T>, from: nat, to: nat): (r: seq<T>)
    requires from < |s| && to < |s|
    ensures |r| == |s| && r[to] == s[from]
    ensures multiset(r) == multiset(s)
  {
    InsertAt(RemoveAt(s, from), to, s[from])
  }

  /** Where the element now at `k` came from. */
  function MovedSource(from: nat, to: nat, k: nat): nat {
    if k == to then from
    else
      var rk := if k < to then k else k - 1;
      if rk < from then rk else rk + 1
  }

  /** A move is a permutation that brings the element at `from` to `to`;
      taking it out again leaves what taking it out of the old list left. */
  lemma MovedIsPermutation<T>(s: seq<T>, from: nat, to: nat)
    requires from < |s| && to < |s|
    ensures var r := Moved(s, from, to);
      |r| == |s| && r[to] == s[from] &&
      multiset(r) == multiset(s) &&
      RemoveAt(r, to) == RemoveAt(s, from)
  {
    RemoveInserted(RemoveAt(s, from), to, s[from]);
  }

  /** Every other element keeps its relative order: the element now at `k`
      is the old one at `MovedSource(from, to, k)`, and distinct positions
      come from distinct old positions. */
  lemma MovedPositions<T>(s: seq<T>, from: nat, to: nat)
    requires from < |s| && to < |s|
    ensures forall k :: 0 <= k < |s| ==>
      MovedSource(from, to, k) < |s| && Moved(s, from, to)[k] == s[MovedSource(from, to, k)]
    ensures forall i, j :: 0 <= i < |s| && 0 <= j < |s| && i != j ==>
      MovedSource(from, to, i) != MovedSource(from, to, j)
  {
    var r := Moved(s, from, to);
    var t := RemoveAt(s, from);
    forall k | 0 <= k < |s| ensures MovedSource(from, to, k) < |s| && r[k] == s[MovedSource(from, to, k)] {
      if k != to {
        var rk := if k < to then k else k - 1;
        assert r[k] == t[rk];
      }
    }
  }

  /** Moving back from `to` to `from` undoes a move. */
  lemma MovedInverse<T>(s: seq<T>, from: nat, to: nat)
    requires from < |s| && to < |s|
    ensures Moved(Moved(s, from, to), to, from) == s
  {
    MovedIsPermutation(s, from, to);
    InsertRemoved(s, from);
  }

  /** Moving an element onto its own position changes nothing. */
  lemma MovedInPlace<T>(s: seq<T>, i: nat)
    requires i < |s|
    ensures Moved(s, i, i) == s
  {
    InsertRemoved(s, i);
  }

  /** Moving the first element to the last position rotates the list by
      one; the unit-test scenario `[A, B, C]` to `[B, C, A]` is a case. */
  lemma MovedFirstToLast<T>(s: seq<T>)
    requires |s| > 0
    ensures Moved(s, 0, |s| - 1) == s[1..] + [s[0]]
  {
    var t := s[1..];
    assert RemoveAt(s, 0) == t by {
      assert s[..0] + s[1..] == t;
    }
    assert InsertAt(t, |t|, s[0]) == t + [s[0]] by {
      assert t[..|t|] == t && t[|t|..] == [];
    }
  }

  /** A move of panels keeps every invariant. */
  lemma MovedKeepsInvariants(ps: seq<Panel>, from: nat, to: nat, counter: int)
    requires from < |ps| && to < |ps|
    ensures CounterCovers(ps, counter) ==> CounterCovers(Moved(ps, from, to), counter)
    ensures UniqueIds(ps) ==> UniqueIds(Moved(ps, from, to))
    ensures UrlsUniquePerPanel(ps) ==> UrlsUniquePerPanel(Moved(ps, from, to))
  {
    var r := Moved(ps, from, to);
    MovedPositions(ps, from, to);
    assert forall k :: 0 <= k < |r| ==> r[k] == ps[MovedSource(from, to, k)];
    if UniqueIds(ps) {
      forall i, j | 0 <= i < |r| && 0 <= j < |r| && i != j ensures r[i].id != r[j].id {
        assert MovedSource(from, to, i) != MovedSource(from, to, j);
      }
    }
  }

  /** The `filter` order: `a` is `b` with some elements left out. */
  ghost predicate IsSubsequence<T>(a: seq<T>, b: seq<T>)
    decreases |b|
  {
    a == [] ||
    (b != [] && ((a[0] == b[0] && IsSubsequence(a[1..], b[1..])) || IsSubsequence(a, b[1..])))
  }

  /** `panels.filter((panel) => panel.id !== id)`: no panel with that id
      is left, and every panel left was in the list. */
  function WithoutId(ps: seq<Panel>, id: int): (r: seq<Panel>)
    ensures |r| <= |ps|
    ensures forall i :: 0 <= i < |r| ==> r[i].id != id
    ensures forall i :: 0 <= i < |r| ==> r[i] in ps
  {
    if ps == [] then []
    else
      var rest := WithoutId(ps[1..], id);
      assert forall i :: 0 <= i < |rest| ==> rest[i] in ps by {
        assert forall p :: p in ps[1..] ==> p in ps;
      }
      if ps[0].id == id then rest else [ps[0]] + rest
  }

  /** The filter keeps every other panel as often as it occurred, in the
      old order. */
  lemma {:induction false} WithoutIdKeepsOthers(ps: seq<Panel>, id: int)
    ensures forall p: Panel :: p.id != id ==> multiset(WithoutId(ps, id))[p] == multiset(ps)[p]
    ensures IsSubsequence(WithoutId(ps, id), ps)
  {
    if ps != [] {
      var rest := WithoutId(ps[1..], id);
      WithoutIdKeepsOthers(ps[1..], id);
      assert ps == [ps[0]] + ps[1..];
      assert multiset(ps) == multiset{ps[0]} + multiset(ps[1..]);
      if ps[0].id != id {
        var r := [ps[0]] + rest;
        assert WithoutId(ps, id) == r;
        assert r[1..] == rest;
        assert multiset(r) == multiset{ps[0]} + multiset(rest);
      }
    }
  }

  /** Removing the panels with an id no panel has changes nothing. */
  lemma {:induction false} WithoutAbsentId(ps: seq<Panel>, id: int)
    requires forall i :: 0 <= i < |ps| ==> ps[i].id != id
    ensures WithoutId(ps, id) == ps
  {
    if ps != [] {
      WithoutAbsentId(ps[1..], id);
      assert ps == [ps[0]] + ps[1..];
    }
  }

  /** With unique ids, deleting a present id removes exactly one panel. */
  lemma {:induction false} WithoutUniqueId(ps: seq<Panel>, id: int)
    requires UniqueIds(ps)
    requires exists i :: 0 <= i < |ps| && ps[i].id == id
    ensures |WithoutId(ps, id)| == |ps| - 1
  {
    if ps[0].id == id {
      WithoutAbsentId(ps[1..], id);
    } else {
      assert UniqueIds(ps[1..]);
      var i :| 0 <= i < |ps| && ps[i].id == id;
      assert ps[1..][i - 1].id == id;
      WithoutUniqueId(ps[1..], id);
    }
  }

  /** Deleting panels keeps ids distinct. */
  lemma {:induction false} WithoutIdKeepsUniqueIds(ps: seq<Panel>, id: int)
    requires UniqueIds(ps)
    ensures UniqueIds(WithoutId(ps, id))
  {
    if ps != [] {
      var tail := ps[1..];
      assert UniqueIds(tail) by {
        forall i, j | 0 <= i < |tail| && 0 <= j < |tail| && i != j ensures tail[i].id != tail[j].id {
          assert tail[i] == ps[i + 1] && tail[j] == ps[j + 1];
        }
      }
      WithoutIdKeepsUniqueIds(tail, id);
      var rest := WithoutId(tail, id);
      if ps[0].id != id {
        var r := [ps[0]] + rest;
        assert WithoutId(ps, id) == r;
        forall i | 0 <= i < |rest| ensures rest[i].id != ps[0].id {
          assert rest[i] in tail;
          var j :| 0 <= j < |tail| && tail[j] == rest[i];
          assert ps[j + 1] == rest[i];
        }
        forall i, j | 0 <= i < |r| && 0 <= j < |r| && i != j ensures r[i].id != r[j].id {
          if i > 0 && j > 0 {
            assert r[i] == rest[i - 1] && r[j] == rest[j - 1];
          } else if i == 0 {
            assert r[j] == rest[j - 1];
          } else {
            assert r[i] == rest[i - 1];
          }
        }
      }
    }
  }

  /** Deleting panels keeps every invariant: what is left was there. */
  lemma WithoutIdKeepsInvariants(ps: seq<Panel>, id: int, counter: int)
    ensures CounterCovers(ps, counter) ==> CounterCovers(WithoutId(ps, id), counter)
    ensures UniqueIds(ps) ==> UniqueIds(WithoutId(ps, id))
    ensures UrlsUniquePerPanel(ps) ==> UrlsUniquePerPanel(WithoutId(ps, id))
  {
    var r := WithoutId(ps, id);
    forall i | 0 <= i < |r| ensures exists j :: 0 <= j < |ps| && ps[j] == r[i] {
      assert r[i] in ps;
    }
    if UniqueIds(ps) {
      WithoutIdKeepsUniqueIds(ps, id);
    }
  }

  /** `Math.max(...panels.map((p) => p.id), 0)`: the largest id, and 0 when
      there is none or all are below 0. */
  function MaxId(ps: seq<Panel>): (r: int)
    ensures r >= 0
    ensures CounterCovers(ps, r)
    ensures r == 0 || exists i :: 0 <= i < |ps| && ps[i].id == r
  {
    if ps == [] then 0
    else
      var m := MaxId(ps[1..]);
      if ps[0].id > m then ps[0].id else m
  }

  /** The panel at `index` renamed, as the title blur does. */
  function Renamed(ps: seq<Panel>, index: nat, title: string): (r: seq<Panel>)
    requires index < |ps|
    ensures SameIds(r, ps) && r[index].title == title
    ensures forall k :: 0 <= k < |ps| ==> r[k].links == ps[k].links
    ensures forall k :: 0 <= k < |ps| && k != index ==> r[k] == ps[k]
  {
    ps[index := ps[index].(title := title)]
  }

  // ---------------------------------------------------------------------
  // Links

  /** All links of all panels, panel by panel. */
  function Flatten(ps: seq<Panel>): seq<Link> {
    if ps == [] then [] else ps[0].links + Flatten(ps[1..])
  }

  /** The total number of links across all panels. */
  function TotalLinks(ps: seq<Panel>): nat {
    |Flatten(ps)|
  }

  /** Replacing one panel swaps its links for the new panel's in the
      multiset of all links. */
  lemma FlattenCons(ps: seq<Panel>)
    requires ps != []
    ensures multiset(Flatten(ps)) == multiset(ps[0].links) + multiset(Flatten(ps[1..]))
  {
  }

  lemma {:induction false} FlattenUpdate(ps: seq<Panel>, k: nat, p: Panel)
    requires k < |ps|
    ensures multiset(Flatten(ps[k := p])) + multiset(ps[k].links) == multiset(Flatten(ps)) + multiset(p.links)
  {
    var q := ps[k := p];
    FlattenCons(q);
    FlattenCons(ps);
    if k == 0 {
      assert q[1..] == ps[1..];
    } else {
      assert q[1..] == ps[1..][k - 1 := p];
      FlattenUpdate(ps[1..], k - 1, p);
      ShiftSum(multiset(ps[0].links), multiset(Flatten(q[1..])), multiset(ps[k].links),
               multiset(Flatten(ps[1..])), multiset(p.links));
    }
  }

  lemma Cancel(a: multiset<Link>, b: multiset<Link>, c: multiset<Link>)
    requires a + c == b + c
    ensures a == b
  {
    forall x ensures a[x] == b[x] {
      assert (a + c)[x] == (b + c)[x];
    }
  }

  lemma ShiftSum(x: multiset<Link>, y: multiset<Link>, b: multiset<Link>, z: multiset<Link>, d: multiset<Link>)
    requires y + b == z + d
    ensures x + y + b == x + z + d
  {
    assert x + y + b == x + (y + b);
    assert x + z + d == x + (z + d);
  }

  /** The panel at `k` with `link` pushed onto its links. */
  function WithLinkAppended(ps: seq<Panel>, k: nat, link: Link): (r: seq<Panel>)
    requires k < |ps|
    ensures SameIds(r, ps)
    ensures multiset(Flatten(r)) == multiset(Flatten(ps)) + multiset{link}
  {
    var r := ps[k := ps[k].(links := ps[k].links + [link])];
    FlattenUpdate(ps, k, r[k]);
    assert multiset(r[k].links) == multiset(ps[k].links) + multiset{link};
    Cancel(multiset(Flatten(r)), multiset(Flatten(ps)) + multiset{link}, multiset(ps[k].links));
    r
  }

  /** The panel at `k` with the link at `i` spliced out of its links. */
  function WithLinkRemoved(ps: seq<Panel>, k: nat, i: nat): (r: seq<Panel>)
    requires k < |ps| && i < |ps[k].links|
    ensures SameIds(r, ps)
    ensures multiset(Flatten(r)) + multiset{ps[k].links[i]} == multiset(Flatten(ps))
  {
    var r := ps[k := ps[k].(links := RemoveAt(ps[k].links, i))];
    FlattenUpdate(ps, k, r[k]);
    assert multiset(r[k].links) + multiset{ps[k].links[i]} == multiset(ps[k].links);
    Cancel(multiset(Flatten(r)) + multiset{ps[k].links[i]}, multiset(Flatten(ps)), multiset(r[k].links));
    r
  }

  /** `addLinkToPanel` has something to do: the panel exists and does not
      hold the URL yet. */
  predicate AcceptsUrl(ps: seq<Panel>, id: int, url: string) {
    FindPanel(ps, id).Some? && !HasUrl(ps[FindPanel(ps, id).value].links, url)
  }

  /** The panel exists and has a link at `i` (`panel && panel.links[i]`). */
  predicate HasLinkAt(ps: seq<Panel>, id: int, i: int) {
    FindPanel(ps, id).Some? && 0 <= i < |ps[FindPanel(ps, id).value].links|
  }

  /** `addLinkToPanel` taken as one atomic step: nothing happens when no
      panel has the id or its panel already holds the URL; otherwise the
      link is pushed onto the first panel with that id. */
  function AddLink(ps: seq<Panel>, id: int, link: Link): (r: seq<Panel>)
    ensures SameIds(r, ps)
  {
    match FindPanel(ps, id)
    case None => ps
    case Some(k) => if HasUrl(ps[k].links, link.url) then ps else WithLinkAppended(ps, k, link)
  }

  /** What `AddLink` does: either nothing, or exactly one new link, at the
      end of the found panel, with every other panel untouched. */
  lemma AddLinkEffect(ps: seq<Panel>, id: int, link: Link)
    ensures FindPanel(ps, id).None? ==> AddLink(ps, id, link) == ps
    ensures FindPanel(ps, id).Some? && HasUrl(ps[FindPanel(ps, id).value].links, link.url) ==>
      AddLink(ps, id, link) == ps
    ensures FindPanel(ps, id).Some? && !HasUrl(ps[FindPanel(ps, id).value].links, link.url) ==>
      var k := FindPanel(ps, id).value;
      var r := AddLink(ps, id, link);
      r[k].links == ps[k].links + [link] && r[k].title == ps[k].title &&
      (forall j :: 0 <= j < |ps| && j != k ==> r[j] == ps[j]) &&
      multiset(Flatten(r)) == multiset(Flatten(ps)) + multiset{link} &&
      TotalLinks(r) == TotalLinks(ps) + 1
  {
    if k :| FindPanel(ps, id) == Some(k) && !HasUrl(ps[k].links, link.url) {
      var r := AddLink(ps, id, link);
      assert |Flatten(r)| == |multiset(Flatten(r))|;
      assert |Flatten(ps)| == |multiset(Flatten(ps))|;
    }
  }

  /** After the call the panel holds the URL; a second call with a link for
      the same URL changes nothing, so repeating the call leaves one copy. */
  lemma AddLinkIdempotent(ps: seq<Panel>, id: int, first: Link, second: Link)
    requires first.url == second.url
    ensures FindPanel(ps, id).Some? ==>
      HasUrl(AddLink(ps, id, first)[FindPanel(ps, id).value].links, first.url)
    ensures AddLink(AddLink(ps, id, first), id, second) == AddLink(ps, id, first)
  {
    var r := AddLink(ps, id, first);
    SameIdsAgree(r, ps, id, 0);
    match FindPanel(ps, id)
    case None =>
    case Some(k) =>
      if !HasUrl(ps[k].links, first.url) {
        assert r[k].links[|ps[k].links|] == first;
      }
  }

  /** Adding keeps each panel's URLs distinct. */
  lemma AddLinkKeepsUrlsUnique(ps: seq<Panel>, id: int, link: Link)
    requires UrlsUniquePerPanel(ps)
    ensures UrlsUniquePerPanel(AddLink(ps, id, link))
  {
    var r := AddLink(ps, id, link);
    match FindPanel(ps, id)
    case None =>
    case Some(k) =>
      if !HasUrl(ps[k].links, link.url) {
        var ls := r[k].links;
        assert ls == ps[k].links + [link];
        forall i, j | 0 <= i < |ls| && 0 <= j < |ls| && i != j ensures ls[i].url != ls[j].url {
          if i == |ls| - 1 {
            assert ps[k].links[j].url != link.url;
          } else if j == |ls| - 1 {
            assert ps[k].links[i].url != link.url;
          }
        }
      }
  }

  /** The step `addLinkToPanel` takes when panel `k` is the one found and
      lacks the URL: the link is pushed onto it, and the invariants carry
      over. */
  lemma AddLinkAt(ps: seq<Panel>, id: int, link: Link, k: nat, counter: int)
    requires FindPanel(ps, id) == Some(k) && !HasUrl(ps[k].links, link.url)
    ensures AddLink(ps, id, link) == ps[k := ps[k].(links := ps[k].links + [link])]
    ensures CounterCovers(ps, counter) ==> CounterCovers(AddLink(ps, id, link), counter)
    ensures UniqueIds(ps) ==> UniqueIds(AddLink(ps, id, link))
    ensures UrlsUniquePerPanel(ps) ==> UrlsUniquePerPanel(AddLink(ps, id, link))
  {
    SameIdsAgree(AddLink(ps, id, link), ps, id, counter);
    if UrlsUniquePerPanel(ps) {
      AddLinkKeepsUrlsUnique(ps, id, link);
    }
  }

  /** `removeLinkFromPanel`: the link at `i` of the first panel with the
      id spliced out; nothing happens when there is no such panel or no
      link at `i`. */
  function RemoveLink(ps: seq<Panel>, id: int, i: int): (r: seq<Panel>)
    ensures SameIds(r, ps)
  {
    match FindPanel(ps, id)
    case None => ps
    case Some(k) => if 0 <= i < |ps[k].links| then WithLinkRemoved(ps, k, i) else ps
  }

  /** What `RemoveLink` does: exactly the link at `i` is gone, the rest of
      that panel keeps its order, and no other panel changes. */
  lemma RemoveLinkEffect(ps: seq<Panel>, id: int, i: int)
    ensures FindPanel(ps, id).None? ==> RemoveLink(ps, id, i) == ps
    ensures FindPanel(ps, id).Some? && !(0 <= i < |ps[FindPanel(ps, id).value].links|) ==>
      RemoveLink(ps, id, i) == ps
    ensures FindPanel(ps, id).Some? && 0 <= i < |ps[FindPanel(ps, id).value].links| ==>
      var k := FindPanel(ps, id).value;
      var r := RemoveLink(ps, id, i);
      r[k].links == ps[k].links[..i] + ps[k].links[i + 1..] && r[k].title == ps[k].title &&
      (forall j :: 0 <= j < |ps| && j != k ==> r[j] == ps[j]) &&
      multiset(Flatten(r)) + multiset{ps[k].links[i]} == multiset(Flatten(ps)) &&
      TotalLinks(r) == TotalLinks(ps) - 1
  {
    if k :| FindPanel(ps, id) == Some(k) && 0 <= i < |ps[k].links| {
      var r := WithLinkRemoved(ps, k, i);
      assert RemoveLink(ps, id, i) == r;
      assert |multiset(Flatten(r))| + 1 == |multiset(Flatten(ps))| by {
        assert |multiset(Flatten(r)) + multiset{ps[k].links[i]}| == |multiset(Flatten(ps))|;
      }
      assert |Flatten(r)| == |multiset(Flatten(r))|;
      assert |Flatten(ps)| == |multiset(Flatten(ps))|;
    }
  }

  /** The step `removeLinkFromPanel` takes when panel `k` is the one found
      and has a link at `i`: that link is spliced out, and the invariants
      carry over. */
  lemma RemoveLinkAt(ps: seq<Panel>, id: int, i: int, k: nat, counter: int)
    requires FindPanel(ps, id) == Some(k) && 0 <= i < |ps[k].links|
    ensures RemoveLink(ps, id, i) == ps[k := ps[k].(links := RemoveAt(ps[k].links, i))]
    ensures CounterCovers(ps, counter) ==> CounterCovers(RemoveLink(ps, id, i), counter)
    ensures UniqueIds(ps) ==> UniqueIds(RemoveLink(ps, id, i))
    ensures UrlsUniquePerPanel(ps) ==> UrlsUniquePerPanel(RemoveLink(ps, id, i))
  {
    SameIdsAgree(RemoveLink(ps, id, i), ps, id, counter);
    if UrlsUniquePerPanel(ps) {
      RemoveLinkKeepsUrlsUnique(ps, id, i);
    }
  }

  /** Removing keeps each panel's URLs distinct. */
  lemma RemoveLinkKeepsUrlsUnique(ps: seq<Panel>, id: int, i: int)
    requires UrlsUniquePerPanel(ps)
    ensures UrlsUniquePerPanel(RemoveLink(ps, id, i))
  {
    var r := RemoveLink(ps, id, i);
    match FindPanel(ps, id)
    case None =>
    case Some(k) =>
      if 0 <= i < |ps[k].links| {
        var ls := r[k].links;
        forall a, b | 0 <= a < |ls| && 0 <= b < |ls| && a != b ensures ls[a].url != ls[b].url {
          var a' := if a < i then a else a + 1;
          var b' := if b < i then b else b + 1;
          assert ls[a] == ps[k].links[a'] && ls[b] == ps[k].links[b'];
        }
      }
  }

  /** `moveLinkBetweenPanels`: the link at `i` of the source panel spliced
      out and pushed onto the target panel (the same panel when the ids
      are equal); nothing happens when either panel is missing or there is
      no link at `i`. There is no duplicate check. */
  function MoveLink(ps: seq<Panel>, sourceId: int, targetId: int, i: int): (r: seq<Panel>)
    ensures SameIds(r, ps)
    ensures multiset(Flatten(r)) == multiset(Flatten(ps))
  {
    match (FindPanel(ps, sourceId), FindPanel(ps, targetId))
    case (Some(ks), Some(kt)) =>
      if 0 <= i < |ps[ks].links| then
        var link := ps[ks].links[i];
        var removed := WithLinkRemoved(ps, ks, i);
        WithLinkAppended(removed, kt, link)
      else ps
    case _ => ps
  }

  /** What `MoveLink` does: the total link count is conserved; between two
      different panels the moved link is the only new link of the target,
      at its end, and the source keeps its other links in order; panels
      other than these two are untouched, and both panels keep their
      titles. Within one panel the link moves to the end. */
  lemma MoveLinkEffect(ps: seq<Panel>, sourceId: int, targetId: int, i: int)
    ensures TotalLinks(MoveLink(ps, sourceId, targetId, i)) == TotalLinks(ps)
    ensures FindPanel(ps, sourceId).None? || FindPanel(ps, targetId).None? ==>
      MoveLink(ps, sourceId, targetId, i) == ps
    ensures FindPanel(ps, sourceId).Some? && !(0 <= i < |ps[FindPanel(ps, sourceId).value].links|) ==>
      MoveLink(ps, sourceId, targetId, i) == ps
    ensures (FindPanel(ps, sourceId).Some? && FindPanel(ps, targetId).Some? &&
             FindPanel(ps, sourceId) != FindPanel(ps, targetId) &&
             0 <= i < |ps[FindPanel(ps, sourceId).value].links|) ==>
      var ks := FindPanel(ps, sourceId).value;
      var kt := FindPanel(ps, targetId).value;
      var r := MoveLink(ps, sourceId, targetId, i);
      r[kt].links == ps[kt].links + [ps[ks].links[i]] &&
      r[ks].links == ps[ks].links[..i] + ps[ks].links[i + 1..] &&
      (forall j :: 0 <= j < |ps| && j != ks && j != kt ==> r[j] == ps[j])
    ensures (FindPanel(ps, sourceId).Some? && FindPanel(ps, targetId).Some? &&
             0 <= i < |ps[FindPanel(ps, sourceId).value].links|) ==>
      var ks := FindPanel(ps, sourceId).value;
      var kt := FindPanel(ps, targetId).value;
      var r := MoveLink(ps, sourceId, targetId, i);
      |r| == |ps| && r[ks].title == ps[ks].title && r[kt].title == ps[kt].title &&
      (ks == kt ==> r[ks].links == ps[ks].links[..i] + ps[ks].links[i + 1..] + [ps[ks].links[i]])
  {
    var r := MoveLink(ps, sourceId, targetId, i);
    assert |Flatten(r)| == |multiset(Flatten(r))|;
    assert |Flatten(ps)| == |multiset(Flatten(ps))|;
  }

  /** A move can leave the target panel holding the same URL twice, which
      `AddLink` never does: one panel with a link, another with a link for
      the same URL. */
  lemma MoveLinkCanDuplicateUrl(a: Link, b: Link)
    requires a.url == b.url
    ensures UrlsUniquePerPanel([Panel(1, "A", [a]), Panel(2, "B", [b])])
    ensures !UrlsUniquePerPanel(MoveLink([Panel(1, "A", [a]), Panel(2, "B", [b])], 1, 2, 0))
  {
    var ps := [Panel(1, "A", [a]), Panel(2, "B", [b])];
    assert FindPanel(ps, 1) == Some(0);
    assert FindPanel(ps, 2) == Some(1);
    var r := MoveLink(ps, 1, 2, 0);
    assert r[1].links == [b, a];
    assert r[1].links[0].url == r[1].links[1].url;
  }

  /** The edit-modal check on the trimmed input: title and URL non-empty,
      and the URL accepted by the parser. */
  predicate EditAccepted(newTitle: string, newUrl: string, parse: UrlParser) {
    newTitle != [] && newUrl != [] && IsValidUrl(parse, newUrl)
  }

  /** The "Save" branch of the link edit modal, opened on link `i` of the
      first panel with the id, given the trimmed title and URL: when the
      modal exists and the input is accepted, that link takes them and
      re-derives its domain and favicon; otherwise nothing changes. */
  function EditLink(ps: seq<Panel>, id: int, i: int, newTitle: string, newUrl: string, parse: UrlParser): (r: seq<Panel>)
    ensures SameIds(r, ps)
  {
    match FindPanel(ps, id)
    case None => ps
    case Some(k) =>
      if 0 <= i < |ps[k].links| && EditAccepted(newTitle, newUrl, parse) then
        var links := ps[k].links;
        ps[k := ps[k].(links := links[i := EditedLink(links[i], newTitle, newUrl, parse)])]
      else ps
  }

  /** The step the "Save" handler takes on link `i` of panel `k`, the one
      found, with accepted input: that link is rewritten in place, and the
      id invariants carry over. */
  lemma EditLinkAt(ps: seq<Panel>, id: int, i: int, newTitle: string, newUrl: string, parse: UrlParser, k: nat, counter: int)
    requires FindPanel(ps, id) == Some(k) && 0 <= i < |ps[k].links| && EditAccepted(newTitle, newUrl, parse)
    ensures EditLink(ps, id, i, newTitle, newUrl, parse) ==
      ps[k := ps[k].(links := ps[k].links[i := EditedLink(ps[k].links[i], newTitle, newUrl, parse)])]
    ensures CounterCovers(ps, counter) ==> CounterCovers(EditLink(ps, id, i, newTitle, newUrl, parse), counter)
    ensures UniqueIds(ps) ==> UniqueIds(EditLink(ps, id, i, newTitle, newUrl, parse))
  {
    SameIdsAgree(EditLink(ps, id, i, newTitle, newUrl, parse), ps, id, counter);
  }

  /** Rewriting one link of one panel keeps the total link count. */
  lemma {:induction false} ReplaceLinkKeepsTotal(ps: seq<Panel>, k: nat, i: nat, link: Link)
    requires k < |ps| && i < |ps[k].links|
    ensures TotalLinks(ps[k := ps[k].(links := ps[k].links[i := link])]) == TotalLinks(ps)
  {
    var r := ps[k := ps[k].(links := ps[k].links[i := link])];
    FlattenUpdate(ps, k, r[k]);
    assert |r[k].links| == |ps[k].links|;
    assert |multiset(Flatten(r))| + |r[k].links| == |multiset(Flatten(ps))| + |ps[k].links| by {
      assert |multiset(Flatten(r)) + multiset(ps[k].links)| == |multiset(Flatten(ps)) + multiset(r[k].links)|;
    }
    assert |Flatten(r)| == |multiset(Flatten(r))|;
    assert |Flatten(ps)| == |multiset(Flatten(ps))|;
  }

  /** What `EditLink` does: either nothing, or exactly the link at `i` of
      the found panel changes, to the given title and URL, keeping its
      creation time; the link count is unchanged. */
  lemma EditLinkEffect(ps: seq<Panel>, id: int, i: int, newTitle: string, newUrl: string, parse: UrlParser)
    ensures TotalLinks(EditLink(ps, id, i, newTitle, newUrl, parse)) == TotalLinks(ps)
    ensures !EditAccepted(newTitle, newUrl, parse) ==> EditLink(ps, id, i, newTitle, newUrl, parse) == ps
    ensures FindPanel(ps, id).None? ==> EditLink(ps, id, i, newTitle, newUrl, parse) == ps
    ensures (FindPanel(ps, id).Some? && 0 <= i < |ps[FindPanel(ps, id).value].links| &&
             EditAccepted(newTitle, newUrl, parse)) ==>
      var k := FindPanel(ps, id).value;
      var r := EditLink(ps, id, i, newTitle, newUrl, parse);
      |r[k].links| == |ps[k].links| &&
      r[k].links[i].url == newUrl && r[k].links[i].title == newTitle &&
      r[k].links[i].timestamp == ps[k].links[i].timestamp &&
      (forall j :: 0 <= j < |ps[k].links| && j != i ==> r[k].links[j] == ps[k].links[j]) &&
      (forall j :: 0 <= j < |ps| && j != k ==> r[j] == ps[j])
  {
    if k :| FindPanel(ps, id) == Some(k) && 0 <= i < |ps[k].links| && EditAccepted(newTitle, newUrl, parse) {
      var links := ps[k].links;
      ReplaceLinkKeepsTotal(ps, k, i, EditedLink(links[i], newTitle, newUrl, parse));
    }
  }
}
