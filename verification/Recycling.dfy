/** Which page the allocator takes, and by how much the file grows. */
module Recycling {
  import opened Common
  import opened PageLayout
  import opened PageRows
  import opened StorageModel
  import opened StorageFrames
  import opened CursorModel
  import opened Allocation
  import opened TableContents

  /** The rows of the free-page table for extents of this size. */
  function SameScale(scale: nat): Filter {
    (row: Row) => |row| == FREE_ROW_SIZE && DecodeScale(row) == scale
  }

  /** The extent at `e` is recorded as free and has this size. */
  ghost predicate IsSpare(v: View, scale: nat, e: nat) {
    e in v.owner && v.owner[e].Recorded? && e in v.pages && v.pages[e].scale == scale
  }

  ghost predicate HasSpare(v: View, scale: nat) {
    exists e :: IsSpare(v, scale, e)
  }

  /** There is another one than that recorded at (q, r). */
  ghost predicate SpareBeside(v: View, scale: nat, q: nat, r: nat) {
    exists e :: IsSpare(v, scale, e) && v.owner[e] != Recorded(q, r)
  }

  /** Without this row the page is empty. */
  ghost predicate LastRow(v: View, p: nat, r: nat) {
    p in v.pages && r < |v.pages[p].slots| && NoRows(v.pages[p].slots[r := None])
  }

  /** The free-page table has a page with room other than `p`. */
  ghost predicate RoomBeside(v: View, p: nat) {
    ListId(FREE_PAGES, false) in v.lists && exists q :: q in v.lists[ListId(FREE_PAGES, false)] && q != p
  }

  /** A row can be removed: if its page becomes free, that can be recorded. */
  ghost predicate RemovalOk(v: View, p: nat, r: nat) {
    LastRow(v, p, r) ==> RoomBeside(v, p) || v.pagesNumber < 0x1_0000
  }

  /** By how many pages the file grows then: by the page for the new record, if there is none. */
  ghost function RemovalCost(v: View, p: nat, r: nat): nat {
    if LastRow(v, p, r) && !RoomBeside(v, p) && !SpareBeside(v, 1, p, r) then 1 else 0
  }

  /** An extent can be had: the search does not stray, and the record can be removed or the file has room. */
  ghost predicate TakeOk(v: View, scale: nat) {
    && FREE_PAGES in v.tabs && (v.tabs[FREE_PAGES].firstFree != 0 || v.pagesNumber < 0x1_0000)
    && if HasSpare(v, scale) then forall k :: MetFirst(v, FREE_PAGES, SameScale(scale), k) ==> RemovalOk(v, k.page, k.row)
       else v.pagesNumber + scale <= PAGES_LIMIT
  }

  /**
   * `p` is the extent that is taken, and `n` the page count then. If an extent of that size is
   * recorded as free, it is the one whose record a search meets first; otherwise it is at the end of the file.
   */
  ghost predicate Taken(v: View, scale: nat, p: nat, n: nat) {
    if HasSpare(v, scale) then exists k :: TakenFrom(v, scale, p, n, k)
    else p == v.pagesNumber && n == v.pagesNumber + scale
  }

  ghost predicate TakenFrom(v: View, scale: nat, p: nat, n: nat, k: Key) {
    && MetFirst(v, FREE_PAGES, SameScale(scale), k) && p in v.owner && v.owner[p] == Recorded(k.page, k.row)
    && n == v.pagesNumber + RemovalCost(v, k.page, k.row)
  }

  /** The new head of the first list of table `t` is an empty page that was taken. */
  ghost predicate TakenHead(v: View, w: View, t: nat) {
    && t in v.tabs && t in w.tabs && w.tabs[t].firstFree in w.pages && NoRows(w.pages[w.tabs[t].firstFree].slots)
    && Taken(v, v.tabs[t].scale, w.tabs[t].firstFree, w.pagesNumber)
  }

  /** Where a new row of table `t` goes, and the page count then. */
  ghost predicate PlaceFor(v: View, t: nat, p: nat, r: nat, n: nat) {
    && t in v.tabs
    && if v.tabs[t].firstFree != 0
       then p == v.tabs[t].firstFree && p in v.pages && r == FirstEmpty(v.pages[p].slots) && n == v.pagesNumber
       else r == 0 && Taken(v, v.tabs[t].scale, p, n)
  }

  // ---------------------------------------------------------------- the search

  /** A record in the free-page table and the extent that it names. */
  lemma SpareRow(v: View, scale: nat, e: nat)
    requires Inv(v, 0) && NoMoving(v) && IsSpare(v, scale, e)
    ensures var q, r := v.owner[e].page, v.owner[e].row;
      RowAt(v, FREE_PAGES, q, r).Some? && SameScale(scale)(RowAt(v, FREE_PAGES, q, r).value)
  {
    hide Geometry, Lists, Occupancy, Tiling;
    assert IsRecord(v.pages, v.owner[e].page, v.owner[e].row, e);
  }

  lemma RowSpare(v: View, scale: nat, q: nat, r: nat)
    requires Inv(v, 0) && RowAt(v, FREE_PAGES, q, r).Some? && SameScale(scale)(RowAt(v, FREE_PAGES, q, r).value)
    ensures exists e :: IsSpare(v, scale, e) && v.owner[e] == Recorded(q, r)
  {
    hide Lists, Occupancy, Tiling, TabOk, PageOk;
    assert RecordedAt(v, q, r);
    var e :| e in v.owner && v.owner[e] == Recorded(q, r);
    assert IsRecord(v.pages, q, r, e);
    assert IsSpare(v, scale, e);
  }

  /** The search meets a row if and only if there is an extent of that size. */
  lemma SpareMet(v: View, scale: nat)
    requires Inv(v, 0) && NoMoving(v)
    ensures ListId(FREE_PAGES, false) in v.lists && ListId(FREE_PAGES, true) in v.lists
    ensures HasSpare(v, scale) <==> TableHits(v, FREE_PAGES, SameScale(scale)) != []
  {
    hide Inv, NoMoving, TableHits, SameScale, RowAt, IsSpare;
    InvParts(v, 0);
    FreePagesStart(v, SameScale(scale));
    TableHitsExact(v, FREE_PAGES, SameScale(scale));
    var hits := TableHits(v, FREE_PAGES, SameScale(scale));
    if hits != [] {
      assert hits[0] in hits;
      RowSpare(v, scale, hits[0].page, hits[0].row);
    }
    if HasSpare(v, scale) {
      var e :| IsSpare(v, scale, e);
      SpareRow(v, scale, e);
      SpareOwner(v, scale, e);
      assert Key(v.owner[e].page, v.owner[e].row) in hits;
    }
  }

  lemma SpareOwner(v: View, scale: nat, e: nat)
    requires IsSpare(v, scale, e)
    ensures e in v.owner && v.owner[e].Recorded?
  {
  }

  /** The row found is the first one met, and its extent is the one that is taken. */
  lemma SearchTakes(v: View, i: nat, d: Cursor, j: nat, scale: nat)
    requires Inv(v, 0) && NoMoving(v) && FREE_PAGES in v.tabs && i == (if v.tabs[FREE_PAGES].firstFree == 0 then 0 else 1)
    requires FoundAt(v, FREE_PAGES, Cursor(v.tabs[FREE_PAGES].firstFree, 0, false), i, d, j, SameScale(scale))
    ensures d.row > 0 && HasSpare(v, scale) && MetFirst(v, FREE_PAGES, SameScale(scale), Key(d.page, d.row - 1))
  {
    hide Inv, NoMoving, TableHits, SameScale, RowAt, IsSpare, HasSpare, Pending, Behind, CursorOk, Hit;
    InvParts(v, 0);
    StartPending(v, FREE_PAGES, SameScale(scale));
    SpareMet(v, scale);
  }

  /** Otherwise there is no extent of that size. */
  lemma SearchFails(v: View, i: nat, scale: nat)
    requires Inv(v, 0) && NoMoving(v) && FREE_PAGES in v.tabs && i == (if v.tabs[FREE_PAGES].firstFree == 0 then 0 else 1)
    requires Exhausted(v, FREE_PAGES, Cursor(v.tabs[FREE_PAGES].firstFree, 0, false), i, SameScale(scale))
    ensures !HasSpare(v, scale) && Taken(v, scale, v.pagesNumber, v.pagesNumber + scale)
  {
    hide Inv, NoMoving, TableHits, SameScale, RowAt, IsSpare, HasSpare, Pending, Behind, CursorOk;
    InvParts(v, 0);
    StartPending(v, FREE_PAGES, SameScale(scale));
    SpareMet(v, scale);
  }

  lemma TakenFound(v: View, scale: nat, p: nat, k: Key)
    requires HasSpare(v, scale) && MetFirst(v, FREE_PAGES, SameScale(scale), k)
    requires p in v.owner && v.owner[p] == Recorded(k.page, k.row)
    ensures Taken(v, scale, p, v.pagesNumber + RemovalCost(v, k.page, k.row))
  {
    hide HasSpare, MetFirst, RemovalCost;
    assert TakenFrom(v, scale, p, v.pagesNumber + RemovalCost(v, k.page, k.row), k);
  }

  lemma TakeOkFound(v: View, scale: nat, k: Key)
    requires HasSpare(v, scale) && MetFirst(v, FREE_PAGES, SameScale(scale), k)
    requires FREE_PAGES in v.tabs && (v.tabs[FREE_PAGES].firstFree != 0 || v.pagesNumber < 0x1_0000)
    ensures TakeOk(v, scale) <==> RemovalOk(v, k.page, k.row)
  {
    hide HasSpare, RemovalOk, TableHits;
    assert forall l :: MetFirst(v, FREE_PAGES, SameScale(scale), l) ==> l == k;
  }

  /** A file of less than 65536 pages has any extent. */
  lemma SmallTakes(v: View, scale: nat)
    requires FREE_PAGES in v.tabs && v.pagesNumber < 0x1_0000 && scale < 0x1_0000
    ensures TakeOk(v, scale)
  {
    hide HasSpare, MetFirst, LastRow, RoomBeside;
  }

  /** The page that was taken becomes the head of the first list. */
  lemma TakenPushed(v: View, m: View, t: nat, p: nat)
    requires t in v.tabs && NewRoomReady(m, t, p) && Taken(v, v.tabs[t].scale, p, m.pagesNumber)
    ensures TakenHead(v, Push(m, ListId(t, false), p), t)
  {
    hide Inv, Taken, NoRows;
    PushFacts(m, ListId(t, false), p);
  }

  /** The row goes in the first slot of the page that was taken. */
  lemma PlaceMade(v: View, m: View, t: nat)
    requires TakenHead(v, m, t) && v.tabs[t].firstFree == 0 && FirstEmpty(m.pages[m.tabs[t].firstFree].slots) != -1
    ensures PlaceFor(v, t, m.tabs[t].firstFree, FirstEmpty(m.pages[m.tabs[t].firstFree].slots), m.pagesNumber)
  {
    hide Taken;
  }

  lemma PlaceThere(v: View, t: nat)
    requires t in v.tabs && v.tabs[t].firstFree != 0 && v.tabs[t].firstFree in v.pages
    requires FirstEmpty(v.pages[v.tabs[t].firstFree].slots) != -1
    ensures PlaceFor(v, t, v.tabs[t].firstFree, FirstEmpty(v.pages[v.tabs[t].firstFree].slots), v.pagesNumber)
  {
    hide FirstEmpty, Taken;
  }

  // ---------------------------------------------------------------- the record that goes

  /** What is left when the row is cleared: whether the page has rows, where records can go, and the other extents of one page. */
  ghost predicate RestOf(v: View, m: View, p: nat, r: nat) {
    && p in m.pages && (LastRow(v, p, r) <==> NoRows(m.pages[p].slots)) && (RoomBeside(v, p) <==> RoomBeside(m, p))
    && m.pagesNumber == v.pagesNumber && (SpareBeside(v, 1, p, r) <==> HasSpare(m, 1))
  }

  lemma ClearedRest(v: View, m: View, t: nat, p: nat, r: nat)
    requires Inv(v, 0) && NoMoving(v) && RowAt(v, t, p, r).Some? && p in v.pages && p in v.owner && r < |v.pages[p].slots|
    requires v.pages[p].slots[r].Some? && (Of(v.owner[p], FREE_PAGES) ==> |v.pages[p].slots[r].value| == FREE_ROW_SIZE)
    requires m == ClearRow(v, p, r)
    ensures RestOf(v, m, p, r)
  {
    hide Inv, NoMoving, RowAt, DecodePage;
    forall e ensures IsSpare(v, 1, e) && v.owner[e] != Recorded(p, r) <==> IsSpare(m, 1, e) {
      if e in v.owner && v.owner[e].Recorded? {
        OneRecord(v, t, p, r, e);
      }
    }
  }

  /** Only the extent that the row names is recorded there. */
  lemma OneRecord(v: View, t: nat, p: nat, r: nat, e: nat)
    requires Inv(v, 0) && RowAt(v, t, p, r).Some? && e in v.owner && v.owner[e].Recorded?
    ensures p in v.pages && p in v.owner && r < |v.pages[p].slots| && v.pages[p].slots[r].Some?
    ensures Of(v.owner[p], FREE_PAGES) ==> |v.pages[p].slots[r].value| == FREE_ROW_SIZE
    ensures v.owner[e] == Recorded(p, r) <==> Of(v.owner[p], FREE_PAGES) && DecodePage(v.pages[p].slots[r].value) == e
    ensures 0 !in v.pages && e != p
  {
    hide Lists, Occupancy, Tiling, TabOk, PageOk, DecodePage;
    RecordOf(v, p, r);
    if v.owner[e] == Recorded(p, r) {
      assert IsRecord(v.pages, p, r, e);
    }
  }

  /** A record that a search meets when the free-page table has only full pages is not the last row of its page. */
  lemma FullMet(v: View, f: Filter, k: Key)
    requires Inv(v, 0) && FREE_PAGES in v.tabs && v.tabs[FREE_PAGES].firstFree == 0 && MetFirst(v, FREE_PAGES, f, k)
    ensures !LastRow(v, k.page, k.row)
  {
    hide Records, Tiling, Chain, TableHits, Mappable, Least;
    InvParts(v, 0);
    TableHitsExact(v, FREE_PAGES, f);
    assert k in TableHits(v, FREE_PAGES, f);
    NoHead(v);
    var g := v.pages[k.page];
    assert Fits(g, v.owner[k.page], v.tabs) && TabOk(v.tabs[FREE_PAGES]) && PageOk(g);
    assert PageOccupancy(g, true);
    var i := if k.row == 0 then 1 else 0;
    assert g.slots[k.row := None][i].Some?;
  }

  /** No page of the free-page table has room. */
  lemma NoHead(v: View)
    requires Inv(v, 0) && FREE_PAGES in v.tabs && v.tabs[FREE_PAGES].firstFree == 0
    ensures forall p :: p in v.owner ==> v.owner[p] != InList(ListId(FREE_PAGES, false))
  {
    hide Occupancy, Records, Tiling, TabOk, PageOk;
    var id := ListId(FREE_PAGES, false);
    assert id in v.lists && Chain(v.pages, v.lists[id], Head(v.tabs, id));
    assert v.lists[id] == [];
  }

  /** Then one page for the free-page table itself can be had below 65536 pages only, and costs that page or nothing. */
  lemma NestedTake(v: View)
    requires Inv(v, 0) && NoMoving(v) && FREE_PAGES in v.tabs && v.tabs[FREE_PAGES].firstFree == 0
    ensures TakeOk(v, 1) <==> v.pagesNumber < 0x1_0000
    ensures forall p, n :: Taken(v, 1, p, n) ==> n == v.pagesNumber + if HasSpare(v, 1) then 0 else 1
  {
    hide Inv, NoMoving, MetFirst, LastRow, HasSpare, RoomBeside, SpareBeside;
    if v.pagesNumber < 0x1_0000 {
      SmallTakes(v, 1);
    }
    forall k | MetFirst(v, FREE_PAGES, SameScale(1), k) ensures !LastRow(v, k.page, k.row) {
      FullMet(v, SameScale(1), k);
    }
  }

  /** An empty page that has left its list: the free-page table has room if it has another page with room. */
  lemma UnlinkedRest(m: View, t: nat, p: nat, k: nat)
    requires Inv(m, p) && t in m.tabs && ListId(t, false) in m.lists && k < |m.lists[ListId(t, false)]|
    requires m.lists[ListId(t, false)][k] == p && p in m.pages && NoRows(m.pages[p].slots)
    ensures var u := Unlink(m, ListId(t, false), k, Loose);
      && FREE_PAGES in u.tabs && (u.tabs[FREE_PAGES].firstFree != 0 <==> RoomBeside(m, p))
      && u.pagesNumber == m.pagesNumber && (HasSpare(u, 1) <==> HasSpare(m, 1))
  {
    hide *;
    InvParts(m, p);
    UnlinkKeeps(m, ListId(t, false), k, Loose);
    UnlinkedHead(m, t, p, k);
    UnlinkedSpare(m, t, p, k);
  }

  lemma UnlinkedSpare(m: View, t: nat, p: nat, k: nat)
    requires Geometry(m) && Lists(m) && t in m.tabs && ListId(t, false) in m.lists && k < |m.lists[ListId(t, false)]|
    requires m.lists[ListId(t, false)][k] == p && Relinked(m.pages, Unlink(m, ListId(t, false), k, Loose).pages)
    ensures var u := Unlink(m, ListId(t, false), k, Loose);
      u.pagesNumber == m.pagesNumber && (HasSpare(u, 1) <==> HasSpare(m, 1))
  {
    hide Geometry, UnlinkPages, Chain;
    assert p in m.lists[ListId(t, false)];
    var u := Unlink(m, ListId(t, false), k, Loose);
    forall e ensures IsSpare(m, 1, e) <==> IsSpare(u, 1, e) {
    }
  }

  lemma UnlinkedHead(m: View, t: nat, p: nat, k: nat)
    requires Geometry(m) && Lists(m) && t in m.tabs && ListId(t, false) in m.lists && k < |m.lists[ListId(t, false)]|
    requires m.lists[ListId(t, false)][k] == p
    ensures var u := Unlink(m, ListId(t, false), k, Loose);
      FREE_PAGES in u.tabs && (u.tabs[FREE_PAGES].firstFree != 0 <==> RoomBeside(m, p))
  {
    hide TabOk, PageOk, UnlinkPages, Fits;
    var s := m.lists[ListId(FREE_PAGES, false)];
    assert Chain(m.pages, s, Head(m.tabs, ListId(FREE_PAGES, false)));
    if t == FREE_PAGES {
      assert m.lists[ListId(t, false)] == s;
      if RoomBeside(m, p) {
        var q :| q in s && q != p;
        var i :| 0 <= i < |s| && s[i] == q;
      }
      if |s| > 1 {
        var i := if k == 0 then 1 else 0;
        assert s[i] in s && s[i] != p;
      }
    } else {
      assert p in m.lists[ListId(t, false)];
      if s != [] {
        assert s[0] in s;
      }
    }
  }

  // ---------------------------------------------------------------- what it comes to

  /** An extent that was recorded is taken if and only if there is one of that size, and then no record names it any more. */
  lemma TakenExact(v: View, w: View, p: nat, rowSize: nat, scale: nat)
    requires Inv(v, 0) && PageAdded(v, w, p, rowSize, scale) && Taken(v, scale, p, w.pagesNumber)
    ensures HasSpare(v, scale) <==> p in v.owner && v.owner[p].Recorded?
    ensures HasSpare(v, scale) <==> p != v.pagesNumber
    ensures forall q: nat, r: nat :: RowAt(w, FREE_PAGES, q, r).Some? ==>
      |RowAt(w, FREE_PAGES, q, r).value| == FREE_ROW_SIZE && DecodePage(RowAt(w, FREE_PAGES, q, r).value) != p
  {
    hide Inv, NoMoving, Untouched, Transits, FreshPage, DecodePage, MetFirst, RemovalCost, HasSpare;
    InvParts(v, 0);
    NextPage(v);
    forall q: nat, r: nat | RowAt(w, FREE_PAGES, q, r).Some?
      ensures |RowAt(w, FREE_PAGES, q, r).value| == FREE_ROW_SIZE && DecodePage(RowAt(w, FREE_PAGES, q, r).value) != p
    {
      RecordNames(w, q, r);
    }
  }

  lemma RecordNames(w: View, q: nat, r: nat)
    requires Inv(w, 0) && RowAt(w, FREE_PAGES, q, r).Some?
    ensures var row := RowAt(w, FREE_PAGES, q, r).value;
      |row| == FREE_ROW_SIZE && DecodePage(row) in w.owner && w.owner[DecodePage(row)].Recorded?
  {
    hide Lists, Occupancy, Tiling, TabOk, PageOk, DecodePage;
    RecordOf(w, q, r);
  }

  /** A page of a client table that loses its last row can be taken again. */
  lemma FreedIsSpare(v: View, w: View, t: nat, p: nat, r: nat, k: nat)
    requires Inv(v, 0) && RowRemoved(v, w, t, p, r, k) && t != FREE_PAGES && Transits(v) == {} && LastRow(v, p, r)
    ensures p in w.owner && w.owner[p].Recorded? && HasSpare(w, v.pages[p].scale)
  {
    hide Geometry, Lists, Records, Tiling, NoMoving, RowAt, SameRowsBut, DecodePage;
    InvParts(v, 0);
    InvParts(w, 0);
    assert p !in Transits(w);
    assert w.pages[p].slots == v.pages[p].slots[r := None];
    if w.owner[p].InList? {
      ListedHasRow(w, p);
      assert false;
    }
    assert IsSpare(w, v.pages[p].scale, p);
  }

  lemma ListedHasRow(w: View, p: nat)
    requires Inv(w, 0) && p in w.pages && p in w.owner && w.owner[p].InList?
    ensures !NoRows(w.pages[p].slots)
  {
    hide Lists, Records, Tiling, Mappable, Least;
    assert PageOk(w.pages[p]) && Fits(w.pages[p], w.owner[p], w.tabs) && TabOk(w.tabs[w.owner[p].id.tid]);
    assert PageOccupancy(w.pages[p], w.owner[p].id.full);
    assert w.owner[p].id.full ==> w.pages[p].slots[0].Some?;
  }

  /** Then the next row for that table, or for any other table without room and with extents of that size, takes such an extent. */
  lemma TakesSpare(v: View, t: nat, p: nat, r: nat, n: nat)
    requires PlaceFor(v, t, p, r, n) && v.tabs[t].firstFree == 0 && HasSpare(v, v.tabs[t].scale)
    ensures p in v.owner && v.owner[p].Recorded? && n <= v.pagesNumber + 1
  {
    hide MetFirst, HasSpare;
  }
}
