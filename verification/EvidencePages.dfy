/** Keyset paging through the evidence references. */
module EvidencePages {
  import opened Identifiers
  import opened Text
  import opened TextOrder
  import opened Wrappers

  datatype RefRow = RefRow(snapshot: string, artifact: string, selector: Option<string>)

  datatype SnapshotRow = SnapshotRow(source: string, artifact: string, capturedAt: int)

  datatype SourceRow = SourceRow(sourceType: string, locator: string)

  datatype ArtifactRow = ArtifactRow(sha256: string, mediaType: string, artifactClass: string, byteLength: int)

  datatype Tables = Tables(refs: map<string, RefRow>, snapshots: map<string, SnapshotRow>,
                           sources: map<string, SourceRow>, artifacts: map<string, ArtifactRow>)

  /** An evidence reference read with its provenance. */
  datatype Item = Item(id: string, ref: RefRow, snapshot: SnapshotRow, source: SourceRow, artifact: ArtifactRow)

  /** The items of a page, and the cursor of the next one if there is one. */
  datatype Page = Page(items: seq<Item>, next: Option<string>)

  datatype PageError =
    | BadLimit | BadCursor | SnapshotMissing | ArtifactMismatch | ProvenanceIncomplete | InvalidRecord | Disappeared

  const ARTIFACT_CLASSES := {"public_source", "personal", "sensitive", "credential_session"}

  predicate FitsRecords(item: Item) {
    && OpaqueId(item.id) && OpaqueId(item.ref.snapshot) && OpaqueId(item.ref.artifact) && OpaqueId(item.snapshot.source)
    && (item.ref.selector.Some? ==> |item.ref.selector.value| <= 2048)
    && 1 <= |item.source.sourceType| <= 128 && 1 <= |item.source.locator| <= 2048
    && IsSha256(item.artifact.sha256) && 1 <= |item.artifact.mediaType| <= 255
    && item.artifact.artifactClass in ARTIFACT_CLASSES && 0 <= item.artifact.byteLength
  }

  /** A reference with its snapshot, and the snapshot's source and artifact. */
  function Joined(t: Tables, id: string): (r: Result<Option<Item>, PageError>)
    ensures r.Ok? && r.value.Some? ==> r.value.value.id == id && id in t.refs
    ensures id in t.refs && r.Ok? ==> r.value.Some?
  {
    if id !in t.refs then Ok(None)
    else
      var ref := t.refs[id];
      if ref.snapshot !in t.snapshots then Err(SnapshotMissing)
      else
        var snapshot := t.snapshots[ref.snapshot];
        if snapshot.artifact != ref.artifact then Err(ArtifactMismatch)
        else if snapshot.source !in t.sources || snapshot.artifact !in t.artifacts then Err(ProvenanceIncomplete)
        else
          var source, artifact := t.sources[snapshot.source], t.artifacts[snapshot.artifact];
          var item := Item(id, ref, snapshot, source, artifact);
          if FitsRecords(item) then Ok(Some(item)) else Err(InvalidRecord)
  }

  function ItemOf(t: Tables, id: string): Item
    requires id in t.refs && t.refs[id].snapshot in t.snapshots
    requires t.snapshots[t.refs[id].snapshot].source in t.sources
    requires t.snapshots[t.refs[id].snapshot].artifact in t.artifacts
  {
    var snapshot := t.snapshots[t.refs[id].snapshot];
    Item(id, t.refs[id], snapshot, t.sources[snapshot.source], t.artifacts[snapshot.artifact])
  }

  /** The rows that the keys ask for are there, and the snapshot is of the artifact referred to. */
  predicate Complete(t: Tables, id: string)
    requires id in t.refs
  {
    var ref := t.refs[id];
    && ref.snapshot in t.snapshots && t.snapshots[ref.snapshot].artifact == ref.artifact && ref.artifact in t.artifacts
    && t.snapshots[ref.snapshot].source in t.sources
    && FitsRecords(ItemOf(t, id))
  }

  function Ids(items: seq<Item>): (r: seq<string>)
    ensures |r| == |items| && forall i :: 0 <= i < |r| ==> r[i] == items[i].id
  {
    if items == [] then [] else Ids(items[..|items| - 1]) + [items[|items| - 1].id]
  }

  lemma IdsAppend(items: seq<Item>, item: Item)
    ensures Ids(items + [item]) == Ids(items) + [item.id]
  {
  }

  predicate ValidId(id: string) {
    1 <= |id| <= 128
  }

  predicate AcceptsQuery(after: Option<string>, limit: int) {
    1 <= limit <= 100 && (after.None? || ValidId(after.value))
  }

  function After(ids: set<string>, after: Option<string>): set<string> {
    set id <- ids | after.None? || Before(after.value, id)
  }

  function Min(a: int, b: int): int {
    if a < b then a else b
  }

  /** At most one row more than the limit: the extra row only tells that there is a next page. */
  function Selected(ids: set<string>, after: Option<string>, limit: nat): seq<string> {
    var rows := Ascending(After(ids, after));
    rows[..Min(limit + 1, |rows|)]
  }

  /** The references that a page reads in full. */
  function PageIds(ids: set<string>, after: Option<string>, limit: int): seq<string> {
    var selected := Selected(ids, after, if limit < 0 then 0 else limit);
    selected[..Min(if limit < 0 then 0 else limit, |selected|)]
  }

  lemma PageIdsAreThere(ids: set<string>, after: Option<string>, limit: int)
    ensures forall id :: id in PageIds(ids, after, limit) ==> id in ids
  {
    SelectedRows(ids, after, if limit < 0 then 0 else limit);
    hide Selected;
  }

  lemma SelectedRows(ids: set<string>, after: Option<string>, limit: nat)
    ensures var rows, selected := Ascending(After(ids, after)), Selected(ids, after, limit);
            && selected[..Min(limit, |selected|)] == rows[..Min(limit, |rows|)]
            && (|selected| > limit <==> |rows| > limit)
            && (1 <= limit < |rows| ==> selected[limit - 1] == rows[limit - 1])
            && (forall id :: id in selected ==> id in ids)
  {
    hide Ascending;
    forall id | id in Selected(ids, after, limit) ensures id in ids {
      assert id in Ascending(After(ids, after));
    }
  }

  /** What a page is, of the references that are there when it is read. */
  ghost predicate IsPage(ids: set<string>, after: Option<string>, limit: int, page: Page) {
    && AcceptsQuery(after, limit)
    && var rows := Ascending(After(ids, after));
       && Ids(page.items) == rows[..Min(limit, |rows|)]
       && page.next == if |rows| > limit then Some(rows[limit - 1]) else None
  }

  /** The error of the first identity that is not complete. */
  ghost predicate FirstIncomplete(t: Tables, ids: seq<string>, error: PageError) {
    exists k :: 0 <= k < |ids| && Joined(t, ids[k]) == Err(error)
                && forall i :: 0 <= i < k ==> Joined(t, ids[i]).Ok?
  }

  predicate ItemsFrom(t: Tables, items: seq<Item>) {
    forall i :: 0 <= i < |items| ==> Joined(t, items[i].id) == Ok(Some(items[i]))
  }

  class EvidenceRepository {
    var tables: Tables

    constructor (tables: Tables)
      ensures this.tables == tables
    {
      this.tables := tables;
    }

    /** Raises exactly for a reference whose provenance is not complete. */
    method Get(id: string) returns (r: Result<Option<Item>, PageError>)
      ensures r == Joined(tables, id)
      ensures r.Err? <==> id in tables.refs && !Complete(tables, id)
      ensures r == Ok(None) <==> id !in tables.refs
      ensures r.Ok? && id in tables.refs ==>
                var ref := tables.refs[id];
                && ref.snapshot in tables.snapshots && ref.artifact in tables.artifacts
                && tables.snapshots[ref.snapshot].artifact == ref.artifact
                && tables.snapshots[ref.snapshot].source in tables.sources
                && r == Ok(Some(Item(id, ref, tables.snapshots[ref.snapshot],
                                     tables.sources[tables.snapshots[ref.snapshot].source],
                                     tables.artifacts[ref.artifact])))
      ensures r == Err(SnapshotMissing) <==> id in tables.refs && tables.refs[id].snapshot !in tables.snapshots
      ensures r == Err(ArtifactMismatch) <==>
                && id in tables.refs && tables.refs[id].snapshot in tables.snapshots
                && tables.snapshots[tables.refs[id].snapshot].artifact != tables.refs[id].artifact
      ensures r == Err(ProvenanceIncomplete) <==>
                && id in tables.refs && tables.refs[id].snapshot in tables.snapshots
                && tables.snapshots[tables.refs[id].snapshot].artifact == tables.refs[id].artifact
                && (tables.refs[id].artifact !in tables.artifacts
                    || tables.snapshots[tables.refs[id].snapshot].source !in tables.sources)
      ensures r.Err? ==> r.error in {SnapshotMissing, ArtifactMismatch, ProvenanceIncomplete, InvalidRecord}
    {
      if id !in tables.refs { return Ok(None); }
      var ref := tables.refs[id];
      if ref.snapshot !in tables.snapshots { return Err(SnapshotMissing); }
      var snapshot := tables.snapshots[ref.snapshot];
      if snapshot.artifact != ref.artifact { return Err(ArtifactMismatch); }
      if snapshot.source !in tables.sources || snapshot.artifact !in tables.artifacts {
        return Err(ProvenanceIncomplete);
      }
      var source, artifact := tables.sources[snapshot.source], tables.artifacts[snapshot.artifact];
      var item := Item(id, ref, snapshot, source, artifact);
      r := if FitsRecords(item) then Ok(Some(item)) else Err(InvalidRecord);
    }

    /** A page is read for exactly the accepted limits and cursors whose references are complete;
        else the error is the query's, or that of the first reference that is not. */
    method ReadPage(after: Option<string>, limit: int) returns (r: Result<Page, PageError>)
      ensures r.Ok? <==> AcceptsQuery(after, limit)
                         && forall id :: id in PageIds(tables.refs.Keys, after, limit) ==>
                              id in tables.refs && Complete(tables, id)
      ensures r.Ok? ==> IsPage(tables.refs.Keys, after, limit, r.value) && ItemsFrom(tables, r.value.items)
      ensures r.Err? && AcceptsQuery(after, limit) ==>
                FirstIncomplete(tables, PageIds(tables.refs.Keys, after, limit), r.error)
      ensures r == Err(BadLimit) <==> !(1 <= limit <= 100)
      ensures r == Err(BadCursor) <==> 1 <= limit <= 100 && after.Some? && !(1 <= |after.value| <= 128)
    {
      hide Ascending, After, Selected, Ids, Joined, Complete;
      if !(1 <= limit <= 100) { return Err(BadLimit); }
      if after.Some? && !ValidId(after.value) { return Err(BadCursor); }
      var ids := Selected(tables.refs.Keys, after, limit);
      SelectedRows(tables.refs.Keys, after, limit);
      var items: seq<Item> := [];
      assert Ids(items) == [];
      for k := 0 to Min(limit, |ids|)
        invariant Ids(items) == ids[..k] && ItemsFrom(tables, items)
        invariant forall i :: 0 <= i < k ==>
                    Joined(tables, ids[i]).Ok? && ids[i] in tables.refs && Complete(tables, ids[i])
      {
        assert ids[k] == PageIds(tables.refs.Keys, after, limit)[k];
        var item := Get(ids[k]);
        if item.Err? { return Err(item.error); }
        if item.value.None? { return Err(Disappeared); }
        IdsAppend(items, item.value.value);
        items := items + [item.value.value];
      }
      r := Ok(Page(items, if |ids| > limit then Some(ids[limit - 1]) else None));
    }

    /** Following the cursors to their end, over a table that does not change, visits every reference
        once, in ascending order; only a bad limit or a reference that is not complete stops it. */
    method ReadAll(limit: int) returns (r: Result<seq<Item>, PageError>)
      ensures r.Ok? ==> Ids(r.value) == Ascending(tables.refs.Keys) && ItemsFrom(tables, r.value)
      ensures r.Ok? <==> 1 <= limit <= 100 && forall id :: id in tables.refs ==> Complete(tables, id)
    {
      hide Ascending, Ids, Complete, IsPage, Visited, Follows, AcceptsQuery, ItemsFrom;
      var ids := tables.refs.Keys;
      var cursor: Option<string> := None;
      var items: seq<Item> := [];
      var more := true;
      ghost var pages: seq<Page> := [];
      NothingVisited(tables);
      CompleteIsValid(tables);
      while more
        invariant Ids(items) == Visited(pages) && ItemsFrom(tables, items)
        invariant if pages == [] then more && cursor == None else Traversed(ids, limit, pages)
        invariant pages != [] ==> cursor == pages[|pages| - 1].next && more == cursor.Some?
        decreases |ids| + 1 - |pages|
      {
        ghost var before := pages;
        FirstQueryIsAccepted(limit);
        if pages != [] { LastPageIsPage(ids, limit, pages); CursorIsAccepted(ids, limit, pages); }
        PageIdsAreThere(ids, cursor, limit);
        var page := ReadPage(cursor, limit);
        if page.Err? { return Err(page.error); }
        TraversedMore(ids, limit, pages, page.value);
        pages := pages + [page.value];
        TraversalEnds(ids, limit, pages);
        VisitedMore(tables, items, before, page.value);
        items := items + page.value.items;
        cursor := page.value.next;
        more := cursor.Some?;
      }
      TraversalEnds(ids, limit, pages);
      LastPageIsPage(ids, limit, pages);
      PageHasLimit(ids, CursorOf(pages, |pages| - 1), limit, pages[|pages| - 1]);
      VisitedIsComplete(tables, items);
      r := Ok(items);
    }
  }

  /** Pages read one after the other from a table that does not change. */
  ghost predicate Traversed(ids: set<string>, limit: int, pages: seq<Page>) {
    && pages != []
    && (forall i :: 0 <= i < |pages| - 1 ==> pages[i].next.Some?)
    && forall i :: 0 <= i < |pages| ==> IsPage(ids, CursorOf(pages, i), limit, pages[i])
  }

  lemma NothingVisited(t: Tables)
    ensures Ids([]) == Visited([]) && ItemsFrom(t, [])
  {
  }

  lemma FirstQueryIsAccepted(limit: int)
    ensures AcceptsQuery(None, limit) <==> 1 <= limit <= 100
  {
  }

  lemma LastPageIsPage(ids: set<string>, limit: int, pages: seq<Page>)
    requires Traversed(ids, limit, pages)
    ensures IsPage(ids, CursorOf(pages, |pages| - 1), limit, pages[|pages| - 1])
  {
  }

  lemma CompleteIsValid(t: Tables)
    ensures (forall id :: id in t.refs ==> Complete(t, id)) ==> forall id :: id in t.refs ==> ValidId(id)
  {
    if forall id :: id in t.refs ==> Complete(t, id) {
      forall id | id in t.refs ensures ValidId(id) { assert Complete(t, id); }
    }
  }

  lemma PageHasLimit(ids: set<string>, after: Option<string>, limit: int, page: Page)
    requires IsPage(ids, after, limit, page)
    ensures 1 <= limit <= 100
  {
  }

  lemma VisitedIsComplete(t: Tables, items: seq<Item>)
    requires Ids(items) == Ascending(t.refs.Keys) && ItemsFrom(t, items)
    ensures forall id :: id in t.refs ==> Complete(t, id)
  {
    hide Ids, Ascending;
    forall id | id in t.refs ensures Complete(t, id) {
      assert id in Ascending(t.refs.Keys);
      var i :| 0 <= i < |items| && items[i].id == id;
    }
  }

  lemma CursorIsAccepted(ids: set<string>, limit: int, pages: seq<Page>)
    requires pages != [] && IsPage(ids, CursorOf(pages, |pages| - 1), limit, pages[|pages| - 1])
    ensures pages[|pages| - 1].next.Some? && 1 <= limit <= 100 && (forall id :: id in ids ==> ValidId(id)) ==>
              AcceptsQuery(pages[|pages| - 1].next, limit)
  {
    var n := |pages| - 1;
    if pages[n].next.Some? && 1 <= limit <= 100 && forall id :: id in ids ==> ValidId(id) {
      NextCursorIsAccepted(ids, CursorOf(pages, n), limit, pages[n], limit);
    }
  }

  lemma TraversedMore(ids: set<string>, limit: int, pages: seq<Page>, page: Page)
    requires pages == [] || (Traversed(ids, limit, pages) && pages[|pages| - 1].next.Some?)
    requires IsPage(ids, if pages == [] then None else pages[|pages| - 1].next, limit, page)
    ensures Traversed(ids, limit, pages + [page])
  {
    hide IsPage, CursorOf;
    var longer := pages + [page];
    forall i | 0 <= i < |longer|
      ensures IsPage(ids, CursorOf(longer, i), limit, longer[i])
    {
      CursorOfLonger(pages, page, i);
    }
  }

  lemma CursorOfLonger(pages: seq<Page>, page: Page, i: nat)
    requires i <= |pages|
    ensures i < |pages| ==> CursorOf(pages + [page], i) == CursorOf(pages, i)
    ensures i == |pages| ==> CursorOf(pages + [page], i) == if pages == [] then None else pages[|pages| - 1].next
  {
  }

  lemma TraversalEnds(ids: set<string>, limit: int, pages: seq<Page>)
    requires Traversed(ids, limit, pages)
    ensures |pages| <= |ids| + 1
    ensures pages[|pages| - 1].next.None? ==> Visited(pages) == Ascending(ids)
  {
    hide IsPage;
    assert Follows(Repeated(|pages|, ids), Repeated(|pages|, limit), pages);
    FixedTraversal(ids, Repeated(|pages|, limit), pages);
  }

  lemma {:induction false} IdsOfBoth(a: seq<Item>, b: seq<Item>)
    ensures Ids(a + b) == Ids(a) + Ids(b)
    decreases |b|
  {
    if b == [] {
      assert a + b == a;
    } else {
      var front, last := b[..|b| - 1], b[|b| - 1];
      assert a + b == (a + front) + [last];
      IdsOfBoth(a, front);
      IdsAppend(a + front, last);
    }
  }

  lemma VisitedMore(t: Tables, items: seq<Item>, pages: seq<Page>, page: Page)
    requires Ids(items) == Visited(pages) && ItemsFrom(t, items) && ItemsFrom(t, page.items)
    ensures Ids(items + page.items) == Visited(pages + [page]) && ItemsFrom(t, items + page.items)
  {
    IdsOfBoth(items, page.items);
    assert (pages + [page])[..|pages|] == pages;
    hide Ids, Joined;
  }

  // ---- One page ----

  /** The page holds the first references after the cursor, and the next cursor is the last of them. */
  lemma PageMeaning(ids: set<string>, after: Option<string>, limit: int, page: Page)
    requires IsPage(ids, after, limit, page)
    ensures Ordered(Ids(page.items))
    ensures forall id :: id in Ids(page.items) ==> id in After(ids, after)
    ensures page.next.None? ==> forall id :: id in After(ids, after) ==> id in Ids(page.items)
    ensures page.next.Some? ==> 1 <= limit == |page.items| && page.next.value == Ids(page.items)[limit - 1]
    ensures page.next.Some? ==>
              forall id :: id in After(ids, after) ==> id in Ids(page.items) || Before(page.next.value, id)
  {
    hide Ascending;
    var rows := Ascending(After(ids, after));
    forall id | id in After(ids, after)
      ensures id in Ids(page.items) || (page.next.Some? && Before(page.next.value, id))
    {
      var i :| 0 <= i < |rows| && rows[i] == id;
      if i < Min(limit, |rows|) { assert Ids(page.items)[i] == id; }
    }
  }

  // ---- A table that grows between the pages ----

  function Repeated<T>(n: nat, x: T): (r: seq<T>)
    ensures |r| == n && forall i :: 0 <= i < n ==> r[i] == x
  {
    seq(n, _ => x)
  }

  function CursorOf(pages: seq<Page>, i: nat): Option<string>
    requires i < |pages|
  {
    if i == 0 then None else pages[i - 1].next
  }

  /** Each page begins where the one before ended; references may be added in between, and
      the limits may differ. */
  ghost predicate Follows(tables: seq<set<string>>, limits: seq<int>, pages: seq<Page>) {
    && |tables| == |limits| == |pages|
    && (forall i, j :: 0 <= i < j < |tables| ==> tables[i] <= tables[j])
    && (forall i :: 0 <= i < |pages| - 1 ==> pages[i].next.Some?)
    && forall i :: 0 <= i < |pages| ==> IsPage(tables[i], CursorOf(pages, i), limits[i], pages[i])
  }

  function Visited(pages: seq<Page>): seq<string> {
    if pages == [] then [] else Visited(pages[..|pages| - 1]) + Ids(pages[|pages| - 1].items)
  }

  ghost predicate Covers(table: set<string>, visited: seq<string>, next: Option<string>) {
    && (forall id :: id in table ==> id in visited || (next.Some? && Before(next.value, id)))
    && (next.Some? ==> forall id :: id in visited ==> id == next.value || Before(id, next.value))
  }

  lemma FollowsPrefix(tables: seq<set<string>>, limits: seq<int>, pages: seq<Page>, n: nat)
    requires Follows(tables, limits, pages) && n <= |pages|
    ensures Follows(tables[..n], limits[..n], pages[..n])
  {
    hide IsPage;
    forall i | 0 <= i < n ensures IsPage(tables[..n][i], CursorOf(pages[..n], i), limits[..n][i], pages[..n][i]) {
      assert CursorOf(pages[..n], i) == CursorOf(pages, i);
    }
  }

  lemma AllAfterNone(ids: set<string>)
    ensures After(ids, None) == ids
  {
  }

  lemma {:induction false} GrowingTraversal(tables: seq<set<string>>, limits: seq<int>, pages: seq<Page>)
    requires Follows(tables, limits, pages) && pages != []
    ensures Ordered(Visited(pages))
    ensures Covers(tables[0], Visited(pages), pages[|pages| - 1].next)
    decreases |pages|
  {
    hide IsPage, Ordered, Covers, Ids;
    var n := |pages| - 1;
    var last := pages[n];
    if n == 0 {
      assert Visited(pages) == Ids(last.items);
      AllAfterNone(tables[0]);
      PageCovers(tables[0], None, limits[0], last);
    } else {
      FollowsPrefix(tables, limits, pages, n);
      GrowingTraversal(tables[..n], limits[..n], pages[..n]);
      NextPageCovers(tables[0], tables[n], Visited(pages[..n]), pages[n - 1].next.value, limits[n], last);
    }
  }

  /** Every page but the last has at least one reference, and all of them are in the table. */
  lemma {:induction false} PagesAreFilled(tables: seq<set<string>>, limits: seq<int>, pages: seq<Page>)
    requires Follows(tables, limits, pages) && pages != []
    ensures |Visited(pages)| >= |pages| - 1
    ensures pages[|pages| - 1].next.Some? ==> |Visited(pages)| >= |pages|
    ensures forall id :: id in Visited(pages) ==> id in tables[|pages| - 1]
    decreases |pages|
  {
    hide IsPage, Ids;
    var n := |pages| - 1;
    PageMeaning(tables[n], CursorOf(pages, n), limits[n], pages[n]);
    if n == 0 {
      assert Visited(pages) == Ids(pages[0].items);
    } else {
      FollowsPrefix(tables, limits, pages, n);
      PagesAreFilled(tables[..n], limits[..n], pages[..n]);
    }
  }

  lemma PageCovers(ids: set<string>, after: Option<string>, limit: int, page: Page)
    requires IsPage(ids, after, limit, page)
    ensures Ordered(Ids(page.items))
    ensures Covers(After(ids, after), Ids(page.items), page.next)
  {
    hide Ascending, IsPage;
    PageMeaning(ids, after, limit, page);
    if page.next.Some? {
      forall id | id in Ids(page.items) ensures id == page.next.value || Before(id, page.next.value) {
        var i :| 0 <= i < limit && Ids(page.items)[i] == id;
      }
    }
  }

  lemma NextPageCovers(table: set<string>, now: set<string>, visited: seq<string>, cursor: string, limit: int,
                       page: Page)
    requires table <= now && Ordered(visited) && Covers(table, visited, Some(cursor))
    requires IsPage(now, Some(cursor), limit, page)
    ensures Ordered(visited + Ids(page.items)) && Covers(table, visited + Ids(page.items), page.next)
  {
    hide Ascending, IsPage, Ids;
    PageMeaning(now, Some(cursor), limit, page);
    PageCovers(now, Some(cursor), limit, page);
    var ids := Ids(page.items);
    forall a, b | a in visited && b in ids ensures Before(a, b) {
      if a != cursor { BeforeIsTransitive(a, cursor, b); }
    }
    if page.next.Some? {
      assert page.next.value in ids;
    }
  }

  /** However the table grows, no reference is visited twice and the order is kept, and a
      traversal that reaches its end has visited every reference that was there at the start. */
  lemma GrowingTraversalVisitsOnce(tables: seq<set<string>>, limits: seq<int>, pages: seq<Page>)
    requires Follows(tables, limits, pages) && pages != []
    ensures forall id :: id in Visited(pages) ==> id in tables[|pages| - 1]
    ensures forall i, j :: 0 <= i < j < |Visited(pages)| ==> Visited(pages)[i] != Visited(pages)[j]
    ensures Ordered(Visited(pages))
    ensures pages[|pages| - 1].next.None? ==> forall id :: id in tables[0] ==> id in Visited(pages)
  {
    hide Follows, Visited;
    PagesAreFilled(tables, limits, pages);
    GrowingTraversal(tables, limits, pages);
    forall i, j | 0 <= i < j < |Visited(pages)| ensures Visited(pages)[i] != Visited(pages)[j] {
      BeforeIsStrict(Visited(pages)[i]);
    }
  }

  // ---- A table that does not change ----

  /** An identity of a valid length is accepted as the next cursor. */
  lemma NextCursorIsAccepted(ids: set<string>, after: Option<string>, limit: int, page: Page, nextLimit: int)
    requires IsPage(ids, after, limit, page) && page.next.Some?
    requires 1 <= nextLimit <= 100 && forall id :: id in ids ==> ValidId(id)
    ensures AcceptsQuery(page.next, nextLimit)
  {
    assert page.next.value in Ids(page.items);
    PageMeaning(ids, after, limit, page);
  }

  lemma {:induction false} OrderedInSetIsShort(r: seq<string>, s: set<string>)
    requires Ordered(r) && forall x :: x in r ==> x in s
    ensures |r| <= |s|
    decreases |r|
  {
    if r != [] {
      var last := r[|r| - 1];
      forall x | x in r[..|r| - 1] ensures x in s - {last} {
        var i :| 0 <= i < |r| - 1 && r[i] == x;
        assert Before(r[i], last);
        BeforeIsStrict(last);
      }
      OrderedInSetIsShort(r[..|r| - 1], s - {last});
    }
  }

  /** Through a fixed table the cursors come to an end, within one page more than there are
      references, and then every reference was visited exactly once, in ascending order. */
  lemma FixedTraversal(ids: set<string>, limits: seq<int>, pages: seq<Page>)
    requires Follows(Repeated(|pages|, ids), limits, pages) && pages != []
    ensures |pages| <= |ids| + 1
    ensures pages[|pages| - 1].next.None? ==> Visited(pages) == Ascending(ids)
  {
    PagesAreFilled(Repeated(|pages|, ids), limits, pages);
    GrowingTraversal(Repeated(|pages|, ids), limits, pages);
    OrderedInSetIsShort(Visited(pages), ids);
    if pages[|pages| - 1].next.None? {
      AscendingIsUnique(Visited(pages), ids);
    }
  }
}
