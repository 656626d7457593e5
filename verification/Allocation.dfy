/** The allocator's steps: from the promises of the parts to the promise of `storage_add_page`. */
module Allocation {
  import opened Common
  import opened PageLayout
  import opened PageRows
  import opened StorageModel
  import opened StorageFrames
  import opened CursorModel

  /** A search of the free-page table can start. */
  lemma FreePagesStart(v: View, f: Filter)
    requires Inv(v, 0)
    ensures FREE_PAGES in v.tabs && Lists(v)
    ensures var c := Cursor(v.tabs[FREE_PAGES].firstFree, 0, false);
      CursorOk(v, FREE_PAGES, c, if c.page == 0 then 0 else 1)
  {
    hide Lists, Occupancy, Records, Tiling, TabOk, PageOk, CursorOk;
    StartPending(v, FREE_PAGES, f);
  }

  /** A row found in the free-page table is the record of a page, with that page's scale. */
  lemma FreeRowFound(v: View, c: Cursor, i: nat, d: Cursor, j: nat, f: Filter)
    requires Inv(v, 0) && FoundAt(v, FREE_PAGES, c, i, d, j, f)
    ensures d.page != 0 && d.row > 0 && d.page in v.pages && d.row - 1 < |v.pages[d.page].slots|
    ensures d.page in v.owner && v.owner[d.page] == InList(ListId(FREE_PAGES, d.full))
    ensures RowAt(v, FREE_PAGES, d.page, d.row - 1) == v.pages[d.page].slots[d.row - 1]
    ensures var row := v.pages[d.page].slots[d.row - 1];
      && row.Some? && f(row.value) && |row.value| == FREE_ROW_SIZE
      && var e := DecodePage(row.value);
      e in v.owner && e in v.pages && v.owner[e] == Recorded(d.page, d.row - 1) && v.pages[e].scale == DecodeScale(row.value)
    ensures d.full <==> d.page !in v.lists[ListId(FREE_PAGES, false)]
    ensures ListId(FREE_PAGES, false) in v.lists
    ensures FREE_PAGES in v.tabs && (v.tabs[FREE_PAGES].firstFree == 0 ==> d.full)
  {
    hide Lists, Tiling, Occupancy, TabOk, PageOk, Pending, Behind, CursorOk, DecodePage, DecodeScale, EncodeFree;
    FoundOwner(v, c, i, d, j, f);
    RecordOf(v, d.page, d.row - 1);
  }

  lemma FoundOwner(v: View, c: Cursor, i: nat, d: Cursor, j: nat, f: Filter)
    requires Geometry(v) && Lists(v) && FoundAt(v, FREE_PAGES, c, i, d, j, f)
    ensures d.page != 0 && d.page in v.owner && v.owner[d.page] == InList(ListId(FREE_PAGES, d.full))
    ensures FREE_PAGES in v.tabs && (v.tabs[FREE_PAGES].firstFree == 0 ==> d.full)
    ensures ListId(FREE_PAGES, false) in v.lists && (d.full <==> d.page !in v.lists[ListId(FREE_PAGES, false)])
  {
    hide TabOk, PageOk, Pending, Behind;
    var s := v.lists[ListId(FREE_PAGES, d.full)];
    assert s[j - 1] in s;
    assert Chain(v.pages, s, Head(v.tabs, ListId(FREE_PAGES, d.full)));
  }

  /** Blanking the page whose record was just removed. */
  lemma RecycledPage(v: View, w: View, e: nat, q: nat, r: nat, k: nat, rowSize: nat, scale: nat)
    requires Inv(v, 0) && e in v.owner && v.owner[e].Recorded? && e in v.pages && v.pages[e].scale == scale
    requires RowRemoved(v, w, FREE_PAGES, q, r, k) && NoMoving(v) && rowSize >= 1
    requires Named(FREE_PAGES, RowAt(v, FREE_PAGES, q, r).value) == {e}
    ensures scale >= 1 && e in w.pages && w.pages[e].scale == scale && e in w.owner && w.owner[e].Loose?
    ensures PageAdded(v, Reuse(w, e, rowSize), e, rowSize, scale)
  {
    hide Geometry, Lists, Occupancy, Records, Tiling, FreshPage, DecodePage, RowAt, RowRemoved;
    PageScale(v, e);
    InvParts(v, 0);
    RecycledState(v, w, e, q, r, k);
    InvParts(w, 0);
    ReuseKeeps(w, e, rowSize);
    ReuseFrame(w, e, rowSize, FREE_PAGES);
    UntouchedCompose(v, w, Reuse(w, e, rowSize), FREE_PAGES, e);
  }

  /** Once its record is removed, the page is loose, and so is every page that was. */
  lemma RecycledState(v: View, w: View, e: nat, q: nat, r: nat, k: nat)
    requires RowRemoved(v, w, FREE_PAGES, q, r, k) && NoMoving(v)
    requires Named(FREE_PAGES, RowAt(v, FREE_PAGES, q, r).value) == {e}
    ensures Inv(w, 0) && NoMoving(w) && Untouched(v, w, FREE_PAGES, 0) && Transits(w) == Transits(v) + {e}
    ensures IsLoose(w, e) && forall p :: p in v.owner && v.owner[p].Loose? ==> p in w.owner && w.owner[p].Loose?
  {
    hide Inv, Untouched, RowAt, DecodePage;
    assert e in Transits(w);
    assert forall p :: p in v.owner && v.owner[p].Loose? ==> p in Transits(v);
    assert forall p :: p in v.owner && v.owner[p].Loose? ==> p in Transits(w);
  }

  lemma PageScale(v: View, p: nat)
    requires Geometry(v) && p in v.pages
    ensures 1 <= v.pages[p].scale < 0x1_0000
  {
    assert PageOk(v.pages[p]);
  }

  /** Extending the file by one extent. */
  lemma AppendedPage(v: View, rowSize: nat, scale: nat)
    requires Inv(v, 0) && NoMoving(v) && rowSize >= 1 && 1 <= scale < 0x1_0000 && v.pagesNumber + scale <= PAGES_LIMIT
    ensures PageAdded(v, Bump(v, rowSize, scale), v.pagesNumber, rowSize, scale) && v.pagesNumber !in v.pages
  {
    hide Geometry, Lists, Occupancy, Records, FreshPage;
    InvParts(v, 0);
    NextPage(v);
    BumpKeeps(v, rowSize, scale);
    BumpFrame(v, rowSize, scale, FREE_PAGES);
  }

  lemma NextPage(v: View)
    requires Inv(v, 0)
    ensures v.pagesNumber !in v.pages
  {
    hide Lists, Occupancy, Records, Covered, Mappable, Capacity;
    forall p | p in v.pages ensures p < v.pagesNumber {
      assert PageOk(v.pages[p]);
    }
  }

  // ---------------------------------------------------------------- insertion

  /** The head of a non-empty first list has room. */
  lemma HeadRoom(v: View, t: nat)
    requires Inv(v, 0) && NoMoving(v) && t in v.tabs && v.tabs[t].firstFree != 0
    ensures RoomMade(v, v, t, v.tabs[t].firstFree)
  {
    hide Records, Tiling, Capacity;
    var id := ListId(t, false);
    HeadFacts(v, id);
    var p := v.tabs[t].firstFree;
    assert Chain(v.pages, v.lists[id], p);
    assert PageOk(v.pages[p]) && TabOk(v.tabs[t]) && Fits(v.pages[p], v.owner[p], v.tabs);
    assert PageOccupancy(v.pages[p], false);
  }

  /** A blank page pushed on the first list of its table. */
  lemma NewRoom(v: View, m: View, t: nat, p: nat)
    requires Inv(v, 0) && t in v.tabs && PageAdded(v, m, p, v.tabs[t].rowSize, v.tabs[t].scale)
    ensures NewRoomReady(m, t, p)
    ensures RoomMade(v, Push(m, ListId(t, false), p), t, p)
  {
    hide *;
    var id := ListId(t, false);
    InvParts(v, 0);
    NewRoomPage(v, t);
    AddedFacts(v, m, t, p);
    NewRoomReadyFacts(m, t, p);
    var w := Push(m, id, p);
    PushKeeps(m, id, p, 0);
    PushFrame(m, id, p);
    NewRoomFrame(v, m, w, t, p);
    PushFacts(m, id, p);
    NewRoomRows(v, m, w, t, p);
    RoomMadeOf(v, m, w, t, p);
  }

  lemma TabScale(v: View, t: nat)
    requires Inv(v, 0) && t in v.tabs
    ensures Mappable(v.tabs[t].rowSize, v.tabs[t].scale) && v.tabs[t].scale >= 1 && v.tabs[t].rowSize >= 1
  {
    hide Lists, Occupancy, Records, Tiling, PageOk, Capacity;
    assert TabOk(v.tabs[t]);
  }

  lemma RoomHead(v: View, w: View, t: nat, p: nat)
    requires RoomMade(v, w, t, p)
    ensures t in w.tabs && w.tabs[t].firstFree == p
  {
    hide Inv, NoMoving, Untouched, SameRows, Transits;
  }

  /** A loose page of the geometry of table `t` may be pushed. */
  ghost predicate NewRoomReady(m: View, t: nat, p: nat) {
    && Inv(m, 0) && ListId(t, false) in m.lists && t in m.tabs
    && p in m.owner && m.owner[p].Loose? && p in m.pages
    && m.pages[p].rowSize == m.tabs[t].rowSize && m.pages[p].scale == m.tabs[t].scale
    && NoRows(m.pages[p].slots)
  }

  lemma NewRoomReadyFacts(m: View, t: nat, p: nat)
    requires NewRoomReady(m, t, p)
    ensures Inv(m, 0) && Geometry(m) && Lists(m) && ListId(t, false) in m.lists && t in m.tabs
    ensures p in m.owner && m.owner[p].Loose? && p in m.pages && NoRows(m.pages[p].slots)
    ensures m.pages[p].rowSize == m.tabs[t].rowSize && m.pages[p].scale == m.tabs[t].scale
  {
    hide Geometry, Lists, Occupancy, Records, Tiling;
  }

  lemma AddedFacts(v: View, m: View, t: nat, p: nat)
    requires Geometry(v) && t in v.tabs && PageAdded(v, m, p, v.tabs[t].rowSize, v.tabs[t].scale)
    requires var g := FreshPage(v.tabs[t].rowSize, v.tabs[t].scale); NoRows(g.slots) && !IsFull(g.slots) && |g.slots| >= 2
    ensures NewRoomReady(m, t, p) && NoMoving(m) && Untouched(v, m, FREE_PAGES, 0)
    ensures p in v.owner ==> v.owner[p].Recorded?
    ensures Transits(m) == Transits(v) + {p}
    ensures !IsFull(m.pages[p].slots) && |m.pages[p].slots| >= 2
    ensures p !in Transits(v) && IsLoose(m, p)
  {
    hide Lists, Occupancy, Records, Tiling, Capacity, TabOk, PageOk;
  }

  lemma PushFacts(m: View, id: ListId, p: nat)
    requires id in m.lists && id.tid in m.tabs && p in m.pages
    ensures var w := Push(m, id, p);
      && w.owner == m.owner[p := InList(id)] && w.tabs == SetHead(m.tabs, id, p) && w.lists == m.lists[id := [p] + m.lists[id]]
      && p in w.pages && w.pages[p].slots == m.pages[p].slots && w.pages[p].rowSize == m.pages[p].rowSize
  {
  }

  lemma RoomMadeOf(v: View, m: View, w: View, t: nat, p: nat)
    requires NoMoving(m) && t in m.tabs && ListId(t, false) in m.lists && p in m.pages && p in m.owner
    requires var id := ListId(t, false);
      w.owner == m.owner[p := InList(id)] && w.tabs == SetHead(m.tabs, id, p) && w.lists == m.lists[id := [p] + m.lists[id]]
    requires p in w.pages && w.pages[p].slots == m.pages[p].slots && w.pages[p].rowSize == m.pages[p].rowSize
    requires m.pages[p].rowSize == m.tabs[t].rowSize && !IsFull(m.pages[p].slots) && |m.pages[p].slots| >= 2
    requires Inv(w, p) && Untouched(v, w, t, 0) && Transits(m) == Transits(v) + {p} && Transits(w) == Transits(m) - {p}
    requires p !in Transits(v) && (t != FREE_PAGES ==> SameRows(v, w, t))
    ensures RoomMade(v, w, t, p)
  {
    hide Inv, Untouched, SameRows, Transits;
  }

  lemma NewRoomPage(v: View, t: nat)
    requires Geometry(v) && t in v.tabs
    ensures v.tabs[t].scale >= 1
    ensures var g := FreshPage(v.tabs[t].rowSize, v.tabs[t].scale); NoRows(g.slots) && !IsFull(g.slots) && |g.slots| >= 2
  {
    assert TabOk(v.tabs[t]);
    var g := FreshPage(v.tabs[t].rowSize, v.tabs[t].scale);
    assert g.slots[0].None?;
  }

  lemma NewRoomFrame(v: View, m: View, w: View, t: nat, p: nat)
    requires Untouched(v, m, FREE_PAGES, 0) && Untouched(m, w, t, p) && NoMoving(m) && 0 !in v.pages
    requires p in v.owner ==> v.owner[p].Recorded?
    requires Transits(m) == Transits(v) + {p}
    ensures Untouched(v, w, t, 0)
  {
    hide Untouched;
    forall q | q in v.owner && v.owner[q].Loose? ensures q in m.owner && m.owner[q].Loose? && q != p {
      assert q in Transits(v);
      assert q in Transits(m);
    }
    FreePagesOnly(v, m, t);
    UntouchedCompose(v, m, w, t, p);
  }

  lemma FreePagesOnly(v: View, m: View, t: nat)
    requires Untouched(v, m, FREE_PAGES, 0)
    ensures Untouched(v, m, t, 0)
  {
  }

  lemma NewRoomRows(v: View, m: View, w: View, t: nat, p: nat)
    requires Geometry(v) && Lists(v) && Geometry(m) && Lists(m) && Untouched(v, m, FREE_PAGES, 0)
    requires IsLoose(m, p) && p in m.pages && NoRows(m.pages[p].slots)
    requires Relinked(m.pages, w.pages) && w.owner == m.owner[p := InList(ListId(t, false))]
    ensures t != FREE_PAGES ==> SameRows(v, w, t)
  {
    hide Geometry, Lists, Untouched;
    if t != FREE_PAGES {
      UntouchedRows(v, m, FREE_PAGES, t);
    }
  }

  /** The page that was made ready has an empty slot for the row. */
  lemma RoomFacts(v: View, m: View, t: nat, row: Row)
    requires t in m.tabs && RoomMade(v, m, t, m.tabs[t].firstFree) && Inv(v, 0)
    requires t in v.tabs && |row| == v.tabs[t].rowSize && (t == FREE_PAGES ==> Recordable(v, row))
    ensures var p := m.tabs[t].firstFree;
      && p in m.pages && m.pages[p].rowSize >= 1 && FirstEmpty(m.pages[p].slots) != -1
      && Writable(m, t, p, FirstEmpty(m.pages[p].slots), row)
  {
    hide Inv, RowAt, EncodeFree, DecodePage;
    PageSized(m, m.tabs[t].firstFree, m.tabs[t].firstFree);
    if t == FREE_PAGES {
      InvParts(v, 0);
      RecordableKept(v, m, row);
    }
  }

  lemma RecordableKept(v: View, m: View, row: Row)
    requires Untouched(v, m, FREE_PAGES, 0) && NoMoving(m) && Transits(m) == Transits(v) && 0 !in v.pages
    requires Recordable(v, row)
    ensures Recordable(m, row)
  {
    hide EncodeFree, DecodePage;
    assert DecodePage(row) in Transits(v);
    assert DecodePage(row) in Transits(m);
  }

  ghost predicate Writable(m: View, t: nat, p: nat, r: nat, row: Row) {
    && p in m.pages && p in m.owner && m.owner[p] == InList(ListId(t, false))
    && r < |m.pages[p].slots| && m.pages[p].slots[r].None? && |row| == m.pages[p].rowSize
    && |m.pages[p].slots| >= 2 && (t == FREE_PAGES ==> Recordable(m, row))
  }

  /** Writing a row in the room that was made. */
  lemma FilledRoom(v: View, m: View, t: nat, p: nat, r: nat, row: Row)
    requires RoomMade(v, m, t, p) && Writable(m, t, p, r, row) && NoMoving(v)
    ensures var w := FillRow(m, p, r, row);
      && Inv(w, p) && NoMoving(w) && Untouched(v, w, t, 0) && Transits(w) == Transits(v) - Named(t, row)
      && RowAt(w, t, p, r) == Some(row) && NowRecorded(w, t, p, r, row)
      && (t != FREE_PAGES ==> RowAt(v, t, p, r) == None && SameRowsBut(v, w, t, p, r))
  {
    hide *;
    RoomParts(v, m, t, p, r, row);
    FillKeeps(m, p, r, row, p);
    FillFrame(m, p, r, row);
    var w := FillRow(m, p, r, row);
    InvParts(m, p);
    InvParts(w, p);
    FillOwners(m, t, p, r, row);
    FilledFrame(v, m, w, t, p, r, row);
  }

  lemma RoomParts(v: View, m: View, t: nat, p: nat, r: nat, row: Row)
    requires RoomMade(v, m, t, p) && Writable(m, t, p, r, row)
    ensures Inv(m, p) && NoMoving(m) && Untouched(v, m, t, 0) && Transits(m) == Transits(v)
    ensures Geometry(m) && 0 !in v.pages
    ensures p in m.pages && p in m.owner && m.owner[p] == InList(ListId(t, false)) && r < |m.pages[p].slots|
    ensures |row| == m.pages[p].rowSize && m.pages[p].slots[r].None?
    ensures m.owner[p].InList? && m.owner[p].id.tid == t && RowAt(m, t, p, r) == None
    ensures t == FREE_PAGES ==>
      && |row| == FREE_ROW_SIZE && IsLoose(m, DecodePage(row)) && DecodePage(row) in m.pages
      && DecodePage(row) < 0x1_0000_0000 && m.pages[DecodePage(row)].scale < 0x1_0000
      && row == EncodeFree(DecodePage(row), m.pages[DecodePage(row)].scale)
    ensures Of(m.owner[p], FREE_PAGES) ==> |row| == FREE_ROW_SIZE
    ensures t != FREE_PAGES ==> SameRows(v, m, t)
  {
    hide Lists, Occupancy, Records, Tiling, TabOk, PageOk, EncodeFree, DecodePage;
  }

  lemma FillOwners(m: View, t: nat, p: nat, r: nat, row: Row)
    requires p in m.pages && p in m.owner && m.owner[p] == InList(ListId(t, false)) && r < |m.pages[p].slots| && NoMoving(m)
    requires t == FREE_PAGES ==> |row| == FREE_ROW_SIZE
    ensures Of(m.owner[p], FREE_PAGES) ==> |row| == FREE_ROW_SIZE
    ensures NoMoving(FillRow(m, p, r, row)) && NowRecorded(FillRow(m, p, r, row), t, p, r, row)
  {
    hide DecodePage;
  }

  lemma FilledFrame(v: View, m: View, w: View, t: nat, p: nat, r: nat, row: Row)
    requires Untouched(v, m, t, 0) && Untouched(m, w, t, 0) && 0 !in v.pages
    requires Transits(m) == Transits(v) && NoMoving(m)
    requires Transits(w) == Transits(m) - (if t == FREE_PAGES && |row| == FREE_ROW_SIZE then {DecodePage(row)} else {})
    requires t != FREE_PAGES ==> SameRows(v, m, t) && RowAt(m, t, p, r) == None && SameRowsBut(m, w, t, p, r)
    ensures Untouched(v, w, t, 0) && Transits(w) == Transits(v) - Named(t, row)
    ensures t != FREE_PAGES ==> RowAt(v, t, p, r) == None && SameRowsBut(v, w, t, p, r)
  {
    hide RowAt, DecodePage;
    forall q | q in v.owner && v.owner[q].Loose? ensures q in m.owner && m.owner[q].Loose? {
      assert q in Transits(v);
      assert q in Transits(m);
    }
    UntouchedCompose(v, m, w, t, 0);
  }

  /** After the write: the row is in, and the page is where its occupancy wants it. */
  lemma InsertSettles(v: View, m: View, t: nat, p: nat, r: nat, row: Row)
    requires RoomMade(v, m, t, p) && Writable(m, t, p, r, row) && NoMoving(v)
    requires !IsFull(m.pages[p].slots[r := Some(row)])
    ensures Inv(FillRow(m, p, r, row), p)
    ensures RowInserted(v, FillRow(m, p, r, row), t, p, r, row)
  {
    hide *;
    RoomParts(v, m, t, p, r, row);
    var w := FillRow(m, p, r, row);
    FilledRoom(v, m, t, p, r, row);
    FilledPage(m, t, p, r, row);
    Settle(w, p);
    InsertedOf(v, w, t, p, r, row);
  }

  lemma FilledPage(m: View, t: nat, p: nat, r: nat, row: Row)
    requires Writable(m, t, p, r, row)
    ensures Of(m.owner[p], FREE_PAGES) ==> |row| == FREE_ROW_SIZE
    ensures var w := FillRow(m, p, r, row);
      && p in w.pages && p in w.owner && w.owner[p].InList? && w.owner[p].id == ListId(t, false)
      && w.pages[p].slots == m.pages[p].slots[r := Some(row)]
      && (!IsFull(w.pages[p].slots) ==> PageOccupancy(w.pages[p], w.owner[p].id.full))
  {
    hide DecodePage, EncodeFree;
    assert m.pages[p].slots[r := Some(row)][r].Some?;
  }

  lemma InsertedOf(v: View, w: View, t: nat, p: nat, r: nat, row: Row)
    requires Inv(w, 0) && NoMoving(w) && Untouched(v, w, t, 0) && RowAt(w, t, p, r) == Some(row)
    requires t != FREE_PAGES ==> RowAt(v, t, p, r) == None && SameRowsBut(v, w, t, p, r)
    requires Transits(w) == Transits(v) - Named(t, row) && NowRecorded(w, t, p, r, row)
    ensures RowInserted(v, w, t, p, r, row)
  {
    hide Inv, NoMoving, Untouched, SameRowsBut, Transits, Named, RowAt, NowRecorded;
  }

  /** After the write the page is full: it goes to the list of full pages. */
  lemma InsertMoves(v: View, m: View, w: View, t: nat, p: nat, r: nat, row: Row)
    requires RoomMade(v, m, t, p) && Writable(m, t, p, r, row) && NoMoving(v)
    requires Moved(FillRow(m, p, r, row), w, ListId(t, false), 0)
    ensures RowInserted(v, w, t, p, r, row)
  {
    hide *;
    RoomParts(v, m, t, p, r, row);
    var n := FillRow(m, p, r, row);
    FilledRoom(v, m, t, p, r, row);
    MovedParts(n, w, t);
    FilledLoose(v, m, t, p, r, row);
    FilledMove(v, n, w, t, p, r, row);
    InsertedOf(v, w, t, p, r, row);
  }

  /** A loose page is still outside every table after the write. */
  lemma FilledLoose(v: View, m: View, t: nat, p: nat, r: nat, row: Row)
    requires NoMoving(m) && Transits(m) == Transits(v)
    requires p in m.pages && p in m.owner && m.owner[p].InList? && r < |m.pages[p].slots|
    requires Of(m.owner[p], FREE_PAGES) ==> |row| == FREE_ROW_SIZE
    ensures forall q :: q in v.owner && v.owner[q].Loose? ==>
      q in FillRow(m, p, r, row).owner && !Of(FillRow(m, p, r, row).owner[q], t)
  {
    hide DecodePage;
    forall q | q in v.owner && v.owner[q].Loose? ensures q in m.owner && m.owner[q].Loose? {
      assert q in Transits(v);
      assert q in Transits(m);
    }
  }

  lemma MovedParts(n: View, w: View, t: nat)
    requires Moved(n, w, ListId(t, false), 0)
    ensures Inv(w, 0) && NoMoving(w) && Untouched(n, w, t, 0) && SameRows(n, w, t) && Transits(w) == Transits(n)
    ensures OthersKept(n, w, t)
  {
    hide Inv, NoMoving, Untouched, SameRows, Transits, Move, OthersKept;
  }

  lemma FilledMove(v: View, n: View, w: View, t: nat, p: nat, r: nat, row: Row)
    requires Untouched(v, n, t, 0) && Untouched(n, w, t, 0) && OthersKept(n, w, t) && SameRows(n, w, t) && NoMoving(n)
    requires forall q :: q in v.owner && v.owner[q].Loose? ==> q in n.owner && !Of(n.owner[q], t)
    requires Transits(n) == Transits(v) - Named(t, row) && Transits(w) == Transits(n)
    requires RowAt(n, t, p, r) == Some(row) && NowRecorded(n, t, p, r, row)
    requires t != FREE_PAGES ==> RowAt(v, t, p, r) == None && SameRowsBut(v, n, t, p, r)
    ensures Untouched(v, w, t, 0) && Transits(w) == Transits(v) - Named(t, row)
    ensures RowAt(w, t, p, r) == Some(row) && NowRecorded(w, t, p, r, row)
    ensures t != FREE_PAGES ==> RowAt(v, t, p, r) == None && SameRowsBut(v, w, t, p, r)
  {
    hide RowAt, Named, Untouched, Transits;
    UntouchedMove(v, n, w, t);
  }

  lemma UntouchedMove(v: View, n: View, w: View, t: nat)
    requires Untouched(v, n, t, 0) && Untouched(n, w, t, 0) && OthersKept(n, w, t)
    requires forall q :: q in v.owner && v.owner[q].Loose? ==> q in n.owner && !Of(n.owner[q], t)
    ensures Untouched(v, w, t, 0)
  {
    hide SameTable;
    forall u | u in v.tabs ensures SameTable(v.tabs[u], w.tabs[u], u == t || u == FREE_PAGES) {
      SameTableThen(v.tabs[u], n.tabs[u], w.tabs[u], u == t || u == FREE_PAGES);
    }
  }

  /** The page just filled heads the first list, and may be moved when it is full. */
  lemma FilledHead(v: View, m: View, t: nat, p: nat, r: nat, row: Row)
    requires RoomMade(v, m, t, p) && Writable(m, t, p, r, row) && NoMoving(v)
    ensures Of(m.owner[p], FREE_PAGES) ==> |row| == FREE_ROW_SIZE
    ensures var w := FillRow(m, p, r, row); var id := ListId(t, false);
      && Inv(w, p) && NoMoving(w) && id in w.lists && |w.lists[id]| > 0 && w.lists[id][0] == p
      && p in w.pages && w.pages[p].slots == m.pages[p].slots[r := Some(row)]
      && (IsFull(w.pages[p].slots) ==> PageOccupancy(w.pages[p], true))
      && SameHeader(w.pages[p], m.pages[p])
  {
    hide Inv, Untouched, SameRows, SameRowsBut, Transits, EncodeFree, DecodePage, NoMoving, Recordable, Named, RowAt,
         NowRecorded;
    FilledRoom(v, m, t, p, r, row);
    HeadPosition(v, m, t, p);
    FillHeader(m, t, p, r, row);
  }

  lemma HeadPosition(v: View, m: View, t: nat, p: nat)
    requires RoomMade(v, m, t, p)
    ensures p != 0 && |m.lists[ListId(t, false)]| > 0 && m.lists[ListId(t, false)][0] == p
  {
    hide Lists, Occupancy, Records, Tiling, TabOk, PageOk, Untouched, SameRows, Transits;
  }

  lemma FillHeader(m: View, t: nat, p: nat, r: nat, row: Row)
    requires Writable(m, t, p, r, row)
    ensures Of(m.owner[p], FREE_PAGES) ==> |row| == FREE_ROW_SIZE
    ensures var w := FillRow(m, p, r, row);
      && w.lists == m.lists && p in w.pages && SameHeader(w.pages[p], m.pages[p])
      && w.pages[p].slots == m.pages[p].slots[r := Some(row)]
  {
    hide DecodePage, EncodeFree;
  }

  // ---------------------------------------------------------------- removal

  /** Where an occupied row is: on a listed page, at some position of the list. */
  lemma RowPlace(v: View, t: nat, p: nat, r: nat) returns (k: nat)
    requires Geometry(v) && Lists(v) && RowAt(v, t, p, r).Some?
    ensures p in v.pages && p in v.owner && v.owner[p].InList? && v.owner[p].id.tid == t && t in v.tabs
    ensures r < |v.pages[p].slots| && v.pages[p].slots[r].Some? && RowAt(v, t, p, r) == v.pages[p].slots[r]
    ensures |v.pages[p].slots[r].value| == v.pages[p].rowSize
    ensures var id := v.owner[p].id; id in v.lists && k < |v.lists[id]| && v.lists[id][k] == p
    ensures |v.pages[p].slots| >= 2
  {
    hide Chain;
    var id := v.owner[p].id;
    assert PageOk(v.pages[p]) && Fits(v.pages[p], v.owner[p], v.tabs) && TabOk(v.tabs[t]);
    assert id in v.lists && p in v.lists[id];
    k :| 0 <= k < |v.lists[id]| && v.lists[id][k] == p;
  }

  /**
   * The three outcomes of a removal tell which list the page was on: a page that became
   * empty was on the list of pages with room, because it can hold at least two rows.
   */
  lemma RemovalCases(s: Slots, r: nat, full: bool)
    requires r < |s| && s[r].Some? && |s| >= 2
    requires if full then IsFull(s) else !IsFull(s) && !NoRows(s)
    ensures var (s', status) := PageRows.RemoveRow(s, r);
      && s' == s[r := None]
      && match status
         case RemoveOk => !full && !IsFull(s') && !NoRows(s')
         case RemoveOkPageNotFull => full && !IsFull(s') && !NoRows(s')
         case RemoveOkPageFreed => !full && NoRows(s')
         case RemoveBitmapError => false
         case RemoveOutOfBound => false
  {
    var s' := s[r := None];
    assert s'[r].None?;
    if NoRows(s') {
      var j := if r == 0 then 1 else 0;
      assert s'[j] == s[j];
    }
  }

  lemma RemovalPlace(v: View, t: nat, p: nat, r: nat) returns (k: nat)
    requires Inv(v, 0) && RowAt(v, t, p, r).Some?
    ensures RemovalAt(v, t, p, r, k)
    ensures p in v.pages && p in v.owner && v.owner[p].InList?
  {
    hide *;
    InvParts(v, 0);
    k := RowPlace(v, t, p, r);
    PlaceOccupied(v, t, p, r, k);
  }

  ghost predicate RemovalAt(v: View, t: nat, p: nat, r: nat, k: nat) {
    && p in v.pages && p in v.owner && v.owner[p].InList? && v.owner[p].id.tid == t
    && ListId(t, false) in v.lists && ListId(t, true) in v.lists
    && k < |v.lists[v.owner[p].id]| && v.lists[v.owner[p].id][k] == p
    && r < |v.pages[p].slots| && v.pages[p].slots[r].Some? && |v.pages[p].slots| >= 2
    && PageOccupancy(v.pages[p], v.owner[p].id.full)
  }

  lemma PlaceOccupied(v: View, t: nat, p: nat, r: nat, k: nat)
    requires Inv(v, 0) && p in v.pages && p in v.owner && v.owner[p].InList? && v.owner[p].id.tid == t && t in v.tabs
    requires v.owner[p].id in v.lists && k < |v.lists[v.owner[p].id]| && v.lists[v.owner[p].id][k] == p
    requires r < |v.pages[p].slots| && v.pages[p].slots[r].Some? && |v.pages[p].slots| >= 2
    ensures RemovalAt(v, t, p, r, k)
  {
    hide Lists, Records, Tiling, PageOk, TabOk, PageOccupancy;
  }

  /** The outcome of clearing the slot decides which branch is taken, and what that branch may rely on. */
  lemma RemovalReady(v: View, m: View, t: nat, p: nat, r: nat, k: nat)
    requires Cleared(v, m, t, p, r) && RemovalAt(v, t, p, r, k)
    ensures Inv(m, p) && NoMoving(m) && m.lists == v.lists && p in m.pages && SameHeader(v.pages[p], m.pages[p])
    ensures ListId(t, false) in v.lists && ListId(t, true) in v.lists
    ensures match PageRows.RemoveRow(v.pages[p].slots, r).1
      case RemoveOk =>
        v.owner[p].id == ListId(t, false) && !IsFull(m.pages[p].slots) && !NoRows(m.pages[p].slots)
        && k < |m.lists[ListId(t, false)]| && m.lists[ListId(t, false)][k] == p
      case RemoveOkPageNotFull =>
        v.owner[p].id == ListId(t, true) && PageOccupancy(m.pages[p], false)
        && k < |m.lists[ListId(t, true)]| && m.lists[ListId(t, true)][k] == p
      case RemoveOkPageFreed =>
        v.owner[p].id == ListId(t, false) && NoRows(m.pages[p].slots)
        && k < |m.lists[ListId(t, false)]| && m.lists[ListId(t, false)][k] == p
      case RemoveBitmapError => false
      case RemoveOutOfBound => false
  {
    hide Inv, NoMoving, Untouched, SameRowsBut, Transits, RowAt, Named, PageRows.RemoveRow, IsFull, NoRows, SameHeader;
    RemovalCases(v.pages[p].slots, r, v.owner[p].id.full);
  }

  /** The state right after the slot was cleared. */
  ghost predicate Cleared(v: View, m: View, t: nat, p: nat, r: nat) {
    && p in v.pages && p in v.owner && v.owner[p].InList? && v.owner[p].id.tid == t && t in v.tabs
    && r < |v.pages[p].slots| && v.pages[p].slots[r].Some? && RowAt(v, t, p, r) == v.pages[p].slots[r]
    && Inv(m, p) && NoMoving(m) && Untouched(v, m, t, 0) && 0 !in v.pages
    && RowAt(m, t, p, r) == None && SameRowsBut(v, m, t, p, r)
    && Transits(m) == Transits(v) + Named(t, RowAt(v, t, p, r).value)
    && m.lists == v.lists && m.tabs == v.tabs && p in m.pages && p in m.owner && m.owner[p] == v.owner[p]
    && SameHeader(v.pages[p], m.pages[p]) && m.pages[p].slots == v.pages[p].slots[r := None]
    && p !in Transits(m)
  }

  lemma ClearIsCleared(v: View, t: nat, p: nat, r: nat)
    requires Inv(v, 0) && NoMoving(v) && RowAt(v, t, p, r).Some?
    ensures p in v.pages && p in v.owner && r < |v.pages[p].slots| && v.pages[p].slots[r].Some?
    ensures Of(v.owner[p], FREE_PAGES) ==> |v.pages[p].slots[r].value| == FREE_ROW_SIZE
    ensures Cleared(v, ClearRow(v, p, r), t, p, r)
  {
    hide *;
    InvParts(v, 0);
    var k := RowPlace(v, t, p, r);
    Exempt(v, p);
    ClearKeeps(v, p, r);
    InvRecords(v);
    ClearFrame(v, p, r);
    ClearOwners(v, t, p, r);
    ClearedOf(v, ClearRow(v, p, r), t, p, r);
  }

  lemma ClearedTable(v: View, m: View, t: nat, p: nat, r: nat)
    requires Cleared(v, m, t, p, r)
    ensures p in v.owner && v.owner[p].InList? && v.owner[p].id.tid == t
  {
    hide Inv, NoMoving, Untouched, RowAt, SameRowsBut, Transits, SameHeader, Named;
  }

  lemma InvRecords(v: View)
    requires Inv(v, 0)
    ensures Records(v)
  {
    hide Geometry, Lists, Occupancy, Records, Tiling;
  }

  lemma Exempt(v: View, p: nat)
    requires Inv(v, 0)
    ensures Inv(v, p)
  {
    hide Geometry, Lists, Records, Tiling, PageOccupancy;
    assert 0 !in v.pages by { InvParts(v, 0); }
  }

  lemma ClearOwners(v: View, t: nat, p: nat, r: nat)
    requires p in v.pages && p in v.owner && v.owner[p].InList? && v.owner[p].id.tid == t
    requires r < |v.pages[p].slots| && v.pages[p].slots[r].Some? && NoMoving(v)
    requires t == FREE_PAGES ==> |v.pages[p].slots[r].value| == FREE_ROW_SIZE
    requires Of(v.owner[p], FREE_PAGES) ==>
      var e := DecodePage(v.pages[p].slots[r].value); e in v.owner && v.owner[e] == Recorded(p, r)
    ensures Of(v.owner[p], FREE_PAGES) ==> |v.pages[p].slots[r].value| == FREE_ROW_SIZE
    ensures var m := ClearRow(v, p, r);
      && NoMoving(m) && m.lists == v.lists && m.tabs == v.tabs && p in m.pages && p in m.owner && m.owner[p] == v.owner[p]
      && SameHeader(v.pages[p], m.pages[p]) && m.pages[p].slots == v.pages[p].slots[r := None]
      && p !in Transits(m)
  {
    hide DecodePage;
  }

  lemma ClearedOf(v: View, m: View, t: nat, p: nat, r: nat)
    requires p in v.pages && p in v.owner && v.owner[p].InList? && v.owner[p].id.tid == t && t in v.tabs
    requires r < |v.pages[p].slots| && v.pages[p].slots[r].Some? && RowAt(v, t, p, r) == v.pages[p].slots[r]
    requires Inv(m, p) && NoMoving(m) && Untouched(v, m, t, 0) && 0 !in v.pages
    requires RowAt(m, t, p, r) == None && SameRowsBut(v, m, t, p, r)
    requires t == FREE_PAGES ==> |v.pages[p].slots[r].value| == FREE_ROW_SIZE
    requires Transits(m) == Transits(v) + (if t == FREE_PAGES then {DecodePage(v.pages[p].slots[r].value)} else {})
    requires m.lists == v.lists && m.tabs == v.tabs && p in m.pages && p in m.owner && m.owner[p] == v.owner[p]
    requires SameHeader(v.pages[p], m.pages[p]) && m.pages[p].slots == v.pages[p].slots[r := None]
    requires p !in Transits(m)
    ensures Cleared(v, m, t, p, r)
  {
    hide Inv, NoMoving, Untouched, RowAt, SameRowsBut, Transits, SameHeader, DecodePage;
  }

  /** The page keeps a row and stays in its list. */
  lemma RemovalStays(v: View, m: View, t: nat, p: nat, r: nat, k: nat)
    requires Cleared(v, m, t, p, r) && v.owner[p].id == ListId(t, false)
    requires ListId(t, false) in v.lists && ListId(t, true) in v.lists
    requires k < |v.lists[ListId(t, false)]| && v.lists[ListId(t, false)][k] == p
    requires !IsFull(m.pages[p].slots) && !NoRows(m.pages[p].slots)
    ensures RowRemoved(v, m, t, p, r, k)
  {
    hide Geometry, Lists, Occupancy, Records, Tiling, NoMoving, Untouched, RowAt, SameRowsBut, Transits;
    Settle(m, p);
  }

  /** The page was full and goes to the list of pages with room. */
  lemma RemovalMoves(v: View, m: View, w: View, t: nat, p: nat, r: nat, k: nat)
    requires Cleared(v, m, t, p, r) && v.owner[p].id == ListId(t, true) && NoMoving(v)
    requires k < |v.lists[ListId(t, true)]| && v.lists[ListId(t, true)][k] == p
    requires Moved(m, w, ListId(t, true), k)
    ensures RowRemoved(v, w, t, p, r, k)
  {
    hide Inv, NoMoving, RowAt, Relinked, SameHeader, Untouched;
    MovedLists(m, w, t, k);
    MovedSlots(m, w, t, k);
    LooseStay(v, m, t, p, r);
    UntouchedThenKept(v, m, w, t);
  }

  lemma MovedLists(m: View, w: View, t: nat, k: nat)
    requires Moved(m, w, ListId(t, true), k)
    ensures ListId(t, false) in m.lists && ListId(t, false) in w.lists && ListId(t, true) in w.lists
    ensures w.lists[ListId(t, true)] == Without(m.lists[ListId(t, true)], k)
    ensures w.lists[ListId(t, false)] == [m.lists[ListId(t, true)][k]] + m.lists[ListId(t, false)]
    ensures m.lists[ListId(t, true)][k] in w.owner && w.owner[m.lists[ListId(t, true)][k]] == InList(ListId(t, false))
  {
    hide Inv, NoMoving, Untouched, SameRows, Transits, Relinked, OthersKept, UnlinkPages, PushPages;
  }

  lemma MovedSlots(m: View, w: View, t: nat, k: nat)
    requires Moved(m, w, ListId(t, true), k)
    ensures forall q :: q in m.pages ==> q in w.pages && w.pages[q].slots == m.pages[q].slots
  {
    hide Inv, NoMoving, Untouched, SameRows, Transits, OthersKept, Move;
  }

  /** A loose page stays outside every table when a slot is cleared. */
  lemma LooseStay(v: View, m: View, t: nat, p: nat, r: nat)
    requires Cleared(v, m, t, p, r)
    ensures forall q :: q in v.owner && v.owner[q].Loose? ==> q in m.owner && m.owner[q].Loose?
  {
    hide Inv, Untouched, RowAt, SameRowsBut, SameHeader, Named;
    forall q | q in v.owner && v.owner[q].Loose? ensures q in m.owner && m.owner[q].Loose? {
      assert q in Transits(v);
      assert q in Transits(m);
    }
  }

  lemma UntouchedThenKept(v: View, m: View, w: View, t: nat)
    requires Untouched(v, m, t, 0) && Untouched(m, w, t, 0) && 0 !in v.pages
    requires forall q :: q in v.owner && v.owner[q].Loose? ==> q in m.owner && m.owner[q].Loose?
    ensures Untouched(v, w, t, 0)
  {
    UntouchedCompose(v, m, w, t, 0);
  }

  /** An emptied page has left its table and is recorded as free; nothing else changed for other tables. */
  ghost predicate PageFreed(m: View, w: View, t: nat, p: nat, k: nat) {
    && Inv(w, 0) && NoMoving(w) && Untouched(m, w, t, 0) && Transits(w) == Transits(m)
    && p in m.pages && p in w.pages && w.pages[p] == m.pages[p] && p in w.owner && w.owner[p].Recorded?
    && (t != FREE_PAGES ==>
          && SameRows(m, w, t)
          && ListId(t, false) in m.lists && ListId(t, true) in m.lists
          && ListId(t, false) in w.lists && ListId(t, true) in w.lists
          && k < |m.lists[ListId(t, false)]|
          && w.lists[ListId(t, false)] == Without(m.lists[ListId(t, false)], k)
          && w.lists[ListId(t, true)] == m.lists[ListId(t, true)])
  }

  /** The page was emptied and freed. */
  lemma RemovalFrees(v: View, m: View, w: View, t: nat, p: nat, r: nat, k: nat)
    requires Cleared(v, m, t, p, r) && v.owner[p].id == ListId(t, false)
    requires ListId(t, false) in v.lists && ListId(t, true) in v.lists
    requires k < |v.lists[ListId(t, false)]| && v.lists[ListId(t, false)][k] == p
    requires PageFreed(m, w, t, p, k) && NoRows(m.pages[p].slots)
    ensures RowRemoved(v, w, t, p, r, k)
  {
    hide Inv, NoMoving, RowAt, Untouched;
    LooseStay(v, m, t, p, r);
    UntouchedThenKept(v, m, w, t);
  }

  /** The unlinked page can be recorded as free. */
  lemma FreedUnlinked(m: View, t: nat, p: nat, k: nat)
    requires Inv(m, p) && NoMoving(m) && p in m.pages && NoRows(m.pages[p].slots)
    requires ListId(t, false) in m.lists && k < |m.lists[ListId(t, false)]| && m.lists[ListId(t, false)][k] == p
    ensures t in m.tabs && p < 0x1_0000_0000 && 1 <= m.pages[p].scale < 0x1_0000
    ensures var u := Unlink(m, ListId(t, false), k, Loose);
      && Inv(u, 0) && NoMoving(u) && Untouched(m, u, t, 0) && Transits(u) == Transits(m) + {p}
      && OthersKept(m, u, t) && p in u.pages && u.pages[p] == m.pages[p]
      && FREE_PAGES in u.tabs && u.tabs[FREE_PAGES].rowSize == FREE_ROW_SIZE && u.tabs[FREE_PAGES].scale == 1
      && Recordable(u, EncodeFree(p, m.pages[p].scale))
      && p !in Transits(m)
  {
    hide *;
    var id := ListId(t, false);
    InvParts(m, p);
    MoveGeometry(m, id, k);
    UnlinkKeeps(m, id, k, Loose);
    UnlinkFrame(m, id, k, Loose);
    UnlinkOthers(m, id, k, Loose);
    FreedFacts(m, t, p, k);
    Settle(Unlink(m, id, k, Loose), p);
  }

  lemma FreedFacts(m: View, t: nat, p: nat, k: nat)
    requires Inv(m, p) && NoMoving(m) && p in m.pages && t in m.tabs && p in m.owner && m.owner[p] == InList(ListId(t, false))
    requires ListId(t, false) in m.lists && k < |m.lists[ListId(t, false)]| && m.lists[ListId(t, false)][k] == p
    requires var u := Unlink(m, ListId(t, false), k, Loose); Inv(u, p) && p in u.pages && u.pages[p] == m.pages[p]
    ensures p < 0x1_0000_0000 && 1 <= m.pages[p].scale < 0x1_0000 && p !in Transits(m)
    ensures var u := Unlink(m, ListId(t, false), k, Loose);
      && NoMoving(u) && p in u.owner && !u.owner[p].InList?
      && FREE_PAGES in u.tabs && u.tabs[FREE_PAGES].rowSize == FREE_ROW_SIZE && u.tabs[FREE_PAGES].scale == 1
      && Recordable(u, EncodeFree(p, m.pages[p].scale))
  {
    hide Lists, Occupancy, Records, TabOk, UnlinkPages, Capacity;
    assert PageOk(m.pages[p]);
  }

  /** Recording the unlinked page completes the freeing. */
  lemma FreedRecorded(m: View, u: View, w: View, t: nat, p: nat, k: nat, q: nat, r: nat, row: Row)
    requires Inv(m, p) && ListId(t, false) in m.lists && k < |m.lists[ListId(t, false)]| && t in m.tabs
    requires m.lists[ListId(t, false)][k] == p && p in m.pages && NoRows(m.pages[p].slots) && p !in Transits(m)
    requires u == Unlink(m, ListId(t, false), k, Loose)
    requires Inv(u, 0) && NoMoving(u) && Untouched(m, u, t, 0) && Transits(u) == Transits(m) + {p}
    requires OthersKept(m, u, t) && p in u.pages && u.pages[p] == m.pages[p]
    requires Named(FREE_PAGES, row) == {p} && RowInserted(u, w, FREE_PAGES, q, r, row)
    ensures PageFreed(m, w, t, p, k)
  {
    hide *;
    InvParts(m, p);
    InvParts(u, 0);
    InsertedParts(u, w, q, r, row);
    InvParts(w, 0);
    UnlinkRows(m, t, p, k);
    FreedOwner(u, w, p, q, r, row);
    FreedFrame(m, u, w, t, p);
    FreedLists(m, u, w, t, p, k);
    FreedOf(m, u, w, t, p, k);
  }

  lemma InsertedParts(u: View, w: View, q: nat, r: nat, row: Row)
    requires RowInserted(u, w, FREE_PAGES, q, r, row)
    ensures Inv(w, 0) && NoMoving(w) && Untouched(u, w, FREE_PAGES, 0) && Transits(w) == Transits(u) - Named(FREE_PAGES, row)
    ensures NowRecorded(w, FREE_PAGES, q, r, row)
  {
    hide Inv, NoMoving, Untouched, Transits, Named, NowRecorded;
  }

  lemma FreedOwner(u: View, w: View, p: nat, q: nat, r: nat, row: Row)
    requires NowRecorded(w, FREE_PAGES, q, r, row) && Named(FREE_PAGES, row) == {p}
    requires Untouched(u, w, FREE_PAGES, 0) && p in u.pages && IsLoose(u, p) && 0 !in u.pages
    ensures p in w.owner && w.owner[p].Recorded? && p in w.pages && w.pages[p] == u.pages[p]
  {
    assert p in Named(FREE_PAGES, row);
  }

  lemma FreedFrame(m: View, u: View, w: View, t: nat, p: nat)
    requires Untouched(m, u, t, 0) && Untouched(u, w, FREE_PAGES, 0) && 0 !in m.pages && OthersKept(m, u, t)
    ensures Untouched(m, w, t, 0)
  {
    hide Untouched;
    LooseKept(m, u, t);
    FreePagesOnly(u, w, t);
    UntouchedCompose(m, u, w, t, 0);
  }

  lemma LooseKept(m: View, u: View, t: nat)
    requires OthersKept(m, u, t) && 0 !in m.pages
    ensures 0 !in m.owner && forall q :: q in m.owner && m.owner[q].Loose? ==> q in u.owner && u.owner[q].Loose?
  {
  }

  lemma FreedLists(m: View, u: View, w: View, t: nat, p: nat, k: nat)
    requires Geometry(m) && Lists(m) && ListId(t, false) in m.lists && k < |m.lists[ListId(t, false)]| && t in m.tabs
    requires m.lists[ListId(t, false)][k] == p && p in m.pages && NoRows(m.pages[p].slots)
    requires u == Unlink(m, ListId(t, false), k, Loose)
    requires Geometry(u) && Lists(u) && Geometry(w) && Lists(w) && Untouched(u, w, FREE_PAGES, 0)
    ensures t != FREE_PAGES ==>
      && SameRows(m, w, t) && ListId(t, true) in m.lists
      && ListId(t, false) in w.lists && ListId(t, true) in w.lists
      && w.lists[ListId(t, false)] == Without(m.lists[ListId(t, false)], k)
      && w.lists[ListId(t, true)] == m.lists[ListId(t, true)]
  {
    hide *;
    if t != FREE_PAGES {
      UnlinkRows(m, t, p, k);
      UntouchedRows(u, w, FREE_PAGES, t);
      FreedListsOf(m, u, w, t, k);
    }
  }

  lemma FreedListsOf(m: View, u: View, w: View, t: nat, k: nat)
    requires ListId(t, false) in m.lists && k < |m.lists[ListId(t, false)]| && t in m.tabs && t != FREE_PAGES
    requires ListId(t, true) in m.lists
    requires u == Unlink(m, ListId(t, false), k, Loose)
    requires Untouched(u, w, FREE_PAGES, 0) && SameRows(m, u, t) && SameRows(u, w, t)
    ensures SameRows(m, w, t)
    ensures ListId(t, false) in w.lists && ListId(t, true) in w.lists
    ensures w.lists[ListId(t, false)] == Without(m.lists[ListId(t, false)], k)
    ensures w.lists[ListId(t, true)] == m.lists[ListId(t, true)]
  {
    hide RowAt, UnlinkPages;
  }

  /** Taking an empty page off its list changes no row of the table. */
  lemma UnlinkRows(m: View, t: nat, p: nat, k: nat)
    requires Geometry(m) && Lists(m) && ListId(t, false) in m.lists && k < |m.lists[ListId(t, false)]| && t in m.tabs
    requires m.lists[ListId(t, false)][k] == p && p in m.pages && NoRows(m.pages[p].slots)
    ensures SameRows(m, Unlink(m, ListId(t, false), k, Loose), t)
    ensures ListId(t, true) in m.lists
    ensures IsLoose(Unlink(m, ListId(t, false), k, Loose), p)
  {
    hide TabOk, PageOk, Chain, UnlinkPages;
    ChainUnlink(m.pages, m.lists[ListId(t, false)], Head(m.tabs, ListId(t, false)), k);
  }

  lemma FreedOf(m: View, u: View, w: View, t: nat, p: nat, k: nat)
    requires ListId(t, false) in m.lists && k < |m.lists[ListId(t, false)]|
    requires Inv(w, 0) && NoMoving(w) && Untouched(m, w, t, 0)
    requires p !in Transits(m) && Transits(u) == Transits(m) + {p} && Transits(w) == Transits(u) - {p}
    requires p in m.pages && p in w.pages && p in u.pages && u.pages[p] == m.pages[p] && w.pages[p] == u.pages[p]
    requires p in w.owner && w.owner[p].Recorded?
    requires t != FREE_PAGES ==>
      && SameRows(m, w, t) && ListId(t, true) in m.lists
      && ListId(t, false) in w.lists && ListId(t, true) in w.lists
      && w.lists[ListId(t, false)] == Without(m.lists[ListId(t, false)], k)
      && w.lists[ListId(t, true)] == m.lists[ListId(t, true)]
    ensures PageFreed(m, w, t, p, k)
  {
    hide Inv, NoMoving, Untouched, SameRows, Transits;
  }

  // ---------------------------------------------------------------- replacement

  lemma ReplaceReady(v: View, t: nat, p: nat, r: nat, row: Row)
    requires Inv(v, 0) && NoMoving(v) && t != FREE_PAGES && RowAt(v, t, p, r).Some?
    requires t in v.tabs && |row| == v.tabs[t].rowSize
    ensures p in v.pages && r < |v.pages[p].slots| && v.pages[p].slots[r].Some? && |row| == v.pages[p].rowSize
    ensures RowReplaced(v, v.(pages := v.pages[p := v.pages[p].(slots := v.pages[p].slots[r := Some(row)])]), t, p, r, row)
  {
    hide *;
    InvParts(v, 0);
    var k := RowPlace(v, t, p, r);
    PlaceOccupied(v, t, p, r, k);
    ReplaceFits(v, t, p, r);
    FillKeeps(v, p, r, row, 0);
    FillFrame(v, p, r, row);
    ReplaceSettles(v, t, p, r, row, k);
    Settle(FillRow(v, p, r, row), p);
    ReplacedOf(v, FillRow(v, p, r, row), t, p, r, row);
  }

  lemma ReplaceFits(v: View, t: nat, p: nat, r: nat)
    requires Geometry(v) && p in v.pages && p in v.owner && v.owner[p].InList? && v.owner[p].id.tid == t && t != FREE_PAGES
    ensures t in v.tabs && v.pages[p].rowSize == v.tabs[t].rowSize && !Of(v.owner[p], FREE_PAGES)
  {
    hide TabOk, PageOk;
    assert Fits(v.pages[p], v.owner[p], v.tabs);
  }

  lemma ReplaceSettles(v: View, t: nat, p: nat, r: nat, row: Row, k: nat)
    requires RemovalAt(v, t, p, r, k) && t != FREE_PAGES && NoMoving(v) && !Of(v.owner[p], FREE_PAGES)
    ensures var w := FillRow(v, p, r, row);
      && NoMoving(w) && p in w.pages && p in w.owner && w.owner[p].InList? && PageOccupancy(w.pages[p], w.owner[p].id.full)
      && w == v.(pages := v.pages[p := v.pages[p].(slots := v.pages[p].slots[r := Some(row)])])
  {
    var s' := v.pages[p].slots[r := Some(row)];
    assert s'[r].Some?;
    if !IsFull(v.pages[p].slots) {
      var e :| 0 <= e < |s'| && v.pages[p].slots[e].None?;
      assert s'[e].None?;
    }
  }

  lemma ReplacedOf(v: View, w: View, t: nat, p: nat, r: nat, row: Row)
    requires Inv(w, 0) && NoMoving(w) && Untouched(v, w, t, 0) && Transits(w) == Transits(v)
    requires RowAt(v, t, p, r).Some? && RowAt(w, t, p, r) == Some(row) && SameRowsBut(v, w, t, p, r)
    requires p in v.pages && r < |v.pages[p].slots|
    requires w == v.(pages := v.pages[p := v.pages[p].(slots := v.pages[p].slots[r := Some(row)])])
    ensures RowReplaced(v, w, t, p, r, row)
  {
    hide Inv, NoMoving, Untouched, Transits, RowAt, SameRowsBut;
  }

  // ---------------------------------------------------------------- the first page

  function FirstDataPage(record: Row): Page {
    var slots := seq(Capacity(TABLE_RECORD_SIZE, 1), _ => None);
    Page(TABLE_RECORD_SIZE, 1, 0, 0, if |slots| > 0 then slots[0 := Some(record)] else slots)
  }

  /** The state after the table of tables got its first page. */
  ghost function FirstPage(record: Row): View {
    View(map[RESERVED_TO_FILE_META := FirstDataPage(record)],
         map[TABLES := Tab(TABLE_RECORD_SIZE, 1, RESERVED_TO_FILE_META, 0), FREE_PAGES := Tab(FREE_ROW_SIZE, 1, 0, 0)],
         RESERVED_TO_FILE_META + 1,
         map[ListId(TABLES, false) := [RESERVED_TO_FILE_META], ListId(TABLES, true) := [],
             ListId(FREE_PAGES, false) := [], ListId(FREE_PAGES, true) := []],
         map[RESERVED_TO_FILE_META := InList(ListId(TABLES, false))])
  }

  lemma FirstPageGood(record: Row)
    requires |record| == TABLE_RECORD_SIZE
    ensures var v := FirstPage(record); Inv(v, 0) && NoMoving(v) && Transits(v) == {}
  {
    var v := FirstPage(record);
    hide *;
    FirstGeometry(record);
    FirstLists(record);
    FirstRest(record);
    InvOf(v, 0);
  }

  lemma FirstGeometry(record: Row)
    requires |record| == TABLE_RECORD_SIZE
    ensures var v := FirstPage(record); Geometry(v) && Occupancy(v, 0)
  {
    hide TabOk, Capacity;
    FirstTables();
    SmallRows(TABLE_RECORD_SIZE);
    var g := FirstDataPage(record);
    assert g.slots[0].Some? && g.slots[1].None?;
  }

  lemma FirstTables()
    ensures TabOk(Tab(TABLE_RECORD_SIZE, 1, RESERVED_TO_FILE_META, 0)) && TabOk(Tab(FREE_ROW_SIZE, 1, 0, 0))
  {
    hide Capacity;
    SmallRows(TABLE_RECORD_SIZE);
    SmallRows(FREE_ROW_SIZE);
  }

  /** One page holds at least two and less than a thousand rows of such sizes. */
  lemma SmallRows(rowSize: nat)
    requires 6 <= rowSize <= 100
    ensures 2 <= Capacity(rowSize, 1) < 1000 && Mappable(rowSize, 1) && Least(rowSize, 1)
  {
    CapacityExact(rowSize, 1, 2);
    CapacityExact(rowSize, 1, 1000);
  }

  lemma FirstLists(record: Row)
    ensures Lists(FirstPage(record))
  {
    hide FirstDataPage;
    var v := FirstPage(record);
    assert v.pages[RESERVED_TO_FILE_META].prev == 0 && v.pages[RESERVED_TO_FILE_META].next == 0 by { FirstLinks(record); }
    forall id | id in v.lists ensures id.tid in v.tabs && Chain(v.pages, v.lists[id], Head(v.tabs, id)) {
    }
  }

  lemma FirstLinks(record: Row)
    ensures FirstDataPage(record).prev == 0 && FirstDataPage(record).next == 0 && FirstDataPage(record).scale == 1
  {
  }

  lemma FirstRest(record: Row)
    ensures var v := FirstPage(record); Records(v) && Tiling(v) && NoMoving(v) && Transits(v) == {}
  {
    hide FirstDataPage;
    FirstLinks(record);
    var v := FirstPage(record);
    forall x | RESERVED_TO_FILE_META <= x < v.pagesNumber ensures Covered(v.pages, x) {
      assert Covers(v.pages, RESERVED_TO_FILE_META, x);
    }
  }
}
