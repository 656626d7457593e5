/**
 * The storage engine: page lists of every table, the page allocator that keeps freed pages
 * as rows of an ordinary table, and the cursor step that the allocator itself uses.
 */
module StorageEngine {
  import opened Common
  import opened Bytes
  import opened PageLayout
  import opened PageRows
  import opened FileImage
  import opened ListHeads
  import opened StorageModel
  import opened StorageFrames
  import opened CursorModel
  import opened Allocation
  import opened Recycling

  /** In-memory copy of a page header. */
  datatype PageMeta = PageMeta(offset: nat, rowSize: nat, scale: nat, prev: nat, next: nat)

  predicate MetaOf(m: PageMeta, p: nat, pages: map<nat, Page>) {
    && p in pages && m.offset == p
    && m.rowSize == pages[p].rowSize && m.scale == pages[p].scale
    && m.prev == pages[p].prev && m.next == pages[p].next
  }

  datatype IterResult = RowFound | SearchEnd | Strayed

  /**
   * The file header as it reads when page 0 is taken for a table page: the magic number and
   * the data offset make the row size, the table count makes the scale, and the upper half
   * of the page count makes the link to the next page.
   */
  function HeaderPage(tablesNumber: nat, pagesNumber: nat): (g: Page)
    requires tablesNumber >= 1
    ensures NoRows(g.slots) && g.rowSize >= 1 && (g.next == 0 <==> pagesNumber < 0x1_0000)
  {
    var rowSize := HEADER_MAGIC + 0x1_0000 * RESERVED_TO_FILE_META;
    Page(rowSize, tablesNumber, 0x1_0000 * (pagesNumber % 0x1_0000), pagesNumber / 0x1_0000,
         seq(Capacity(rowSize, tablesNumber), _ => None))
  }

  /** The bytes of a new file: the header, and the first data page with the record as its row. */
  method FirstFile(record: Row) returns (file: seq<byte>)
    requires |record| == TABLE_RECORD_SIZE
    ensures Image(file, map[RESERVED_TO_FILE_META := FirstDataPage(record)])
    ensures (RESERVED_TO_FILE_META + 1) * SYS_PAGE_SIZE == |file|
    ensures Counts(Header(file), 1, RESERVED_TO_FILE_META + 1)
  {
    hide Image, Capacity, Mappable, Apart, Inside, FirstEmpty, Counts, ClearBehind, Header;
    NoPages();
    FirstSlot(record);
    file := Grow([], map[], RESERVED_TO_FILE_META + 1);
    file := WriteCounts(file, map[], 1, RESERVED_TO_FILE_META + 1);
    file := BlankPage(file, map[], RESERVED_TO_FILE_META, TABLE_RECORD_SIZE, 1);
    ghost var pages := map[RESERVED_TO_FILE_META := FreshPage(TABLE_RECORD_SIZE, 1)];
    var status, r;
    file, status, r := FileImage.FindAndWrite(file, pages, RESERVED_TO_FILE_META, record);
    assert pages[RESERVED_TO_FILE_META := FirstDataPage(record)] == map[RESERVED_TO_FILE_META := FirstDataPage(record)];
  }

  lemma NoPages()
    ensures Image([], map[]) && Apart(map[RESERVED_TO_FILE_META := FreshPage(TABLE_RECORD_SIZE, 1)])
  {
  }

  lemma FirstSlot(record: Row)
    ensures Mappable(TABLE_RECORD_SIZE, 1)
    ensures var g := FreshPage(TABLE_RECORD_SIZE, 1);
      FirstDataPage(record) == g.(slots := FindAndWriteRow(g.slots, record).0)
  {
    CapacityExact(TABLE_RECORD_SIZE, 1, 1);
    CapacityExact(TABLE_RECORD_SIZE, 1, 100);
  }

  /** What happens to a place that is not that of a table record. */
  lemma PlaceTaken(disk: map<nat, Page>, pages: map<nat, Page>, tabs: map<nat, Tab>, homes: map<nat, Key>, records: map<Key, nat>,
                   p: nat, r: nat, x: Option<Row>)
    requires Mirrors(disk, pages, tabs, records) && Placed(pages, tabs, homes, records)
    requires p in pages && r < |pages[p].slots| && (pages[p].slots[r].None? || Key(p, r) !in records)
    ensures p in disk && |disk[p].slots| == |pages[p].slots| && disk[p].rowSize == pages[p].rowSize && Key(p, r) !in records
    ensures forall i :: 0 <= i < |pages[p].slots| ==> (disk[p].slots[i].Some? <==> pages[p].slots[i].Some?)
    ensures FirstEmpty(disk[p].slots) == FirstEmpty(pages[p].slots)
    ensures FirstEmpty(disk[p].slots[r := x]) == FirstEmpty(pages[p].slots[r := x])
    ensures AllEmpty(disk[p].slots[r := x]) == AllEmpty(pages[p].slots[r := x])
    ensures Mirrors(disk[p := disk[p].(slots := disk[p].slots[r := x])], pages[p := pages[p].(slots := pages[p].slots[r := x])], tabs, records)
    ensures Placed(pages[p := pages[p].(slots := pages[p].slots[r := x])], tabs, homes, records)
  {
    hide Mirrors, Placed;
    EmptyPlace(pages, tabs, homes, records, p, r);
    SlotChanged(disk, pages, tabs, homes, records, p, r, x);
    TakenAlike(disk, pages, tabs, records, p);
    ShapeOnDisk(disk, pages, tabs, records, p);
    AlikeSlots(disk[p].slots, pages[p].slots);
    AlikeSlots(disk[p].slots[r := x], pages[p].slots[r := x]);
  }

  lemma EmptyPlace(pages: map<nat, Page>, tabs: map<nat, Tab>, homes: map<nat, Key>, records: map<Key, nat>, p: nat, r: nat)
    requires Placed(pages, tabs, homes, records) && p in pages && r < |pages[p].slots|
    ensures pages[p].slots[r].None? ==> Key(p, r) !in records
    ensures pages[p].slots[r].Some? && |pages[p].slots[r].value| != TABLE_RECORD_SIZE ==> Key(p, r) !in records
  {
    hide Headless;
  }

  lemma NotMapped(pages: map<nat, Page>, tabs: map<nat, Tab>, homes: map<nat, Key>, records: map<Key, nat>, t: nat)
    requires Placed(pages, tabs, homes, records) && t !in tabs
    ensures t !in homes
  {
    hide InSlot, Headless;
  }

  /** A row of the free-page table names a page outside all tables. */
  lemma NamedIsRecorded(v: View, p: nat, r: nat)
    requires Inv(v, 0) && RowAt(v, FREE_PAGES, p, r).Some?
    ensures p in v.pages && r < |v.pages[p].slots| && v.pages[p].slots[r].Some?
    ensures var e := DecodePage(v.pages[p].slots[r].value); e in v.owner && v.owner[e].Recorded?
  {
    hide Lists, Occupancy, Tiling, DecodePage;
    RecordOf(v, p, r);
  }

  lemma BlankFresh(rowSize: nat, scale: nat)
    requires scale >= 1
    ensures NoRows(FreshPage(rowSize, scale).slots)
  {
    hide Capacity;
  }

  lemma MirrorsApart(disk: map<nat, Page>, pages: map<nat, Page>, tabs: map<nat, Tab>, records: map<Key, nat>, p: nat, g: Page)
    requires Mirrors(disk, pages, tabs, records) && Apart(pages[p := g])
    ensures Apart(disk[p := g])
  {
    hide OnDisk, Apart;
    ApartAlike(disk, pages, p, g);
  }

  lemma RecordThere(pages: map<nat, Page>, k: Key)
    requires InSlot(pages, k)
    ensures k.page in pages && k.row < |pages[k.page].slots| && pages[k.page].slots[k.row].Some?
    ensures |pages[k.page].slots[k.row].value| == TABLE_RECORD_SIZE
  {
    hide Headless;
  }

  /** The first page on disk. */
  lemma FirstRecordPlaced(record: Row, tabs: map<nat, Tab>)
    requires Headless(record) && TABLES in tabs
    ensures var k := Key(RESERVED_TO_FILE_META, 0); var pages := map[RESERVED_TO_FILE_META := FirstDataPage(record)];
      && Placed(pages, tabs, map[TABLES := k], map[k := TABLES])
      && Mirrors(map[RESERVED_TO_FILE_META := FirstDataPage(WithHeads(record, tabs[TABLES]))], pages, tabs, map[k := TABLES])
  {
    hide WithHeads, Capacity, Headless;
    CapacityExact(TABLE_RECORD_SIZE, 1, 1);
  }

  /** With a page added the extents still lie apart, and the new one in the file. */
  lemma AddedApart(v: View, w: View, p: nat, rowSize: nat, scale: nat)
    requires PageAdded(v, w, p, rowSize, scale)
    ensures Apart(w.pages) && p in w.pages && w.pages[p] == FreshPage(rowSize, scale)
    ensures p + scale <= w.pagesNumber
  {
    hide Inv, NoMoving, Untouched, Transits, Apart, Capacity;
    ReachedRight(w);
  }

  /** The counters, in page 0. */
  lemma CountersClear(file: seq<byte>, tablesNumber: nat, pagesNumber: nat)
    requires Counts(Header(file), tablesNumber, pagesNumber)
    ensures ClearBehind(Header(file)) && |file| >= SYS_PAGE_SIZE
  {
  }

  /**
   * `bytes` is the file itself: every change of a page, of a list head or of a counter is made in the
   * bytes, by the operations on mapped memory. `pages` are the pages as the engine reads them, without
   * the list heads, which are in `tabs`; `disk` are the pages with the list heads in the records of the
   * tables, which are mapped at `homes`.
   */
  class Storage {
    var pages: map<nat, Page>
    var bytes: seq<byte>
    var tabs: map<nat, Tab>
    var homes: map<nat, Key>
    var pagesNumber: nat
    var tablesNumber: nat
    ghost var disk: map<nat, Page>
    ghost var records: map<Key, nat>
    ghost var lists: map<ListId, seq<nat>>
    ghost var owner: map<nat, Owner>

    ghost function V(): View
      reads this
    {
      View(pages, tabs, pagesNumber, lists, owner)
    }

    /** The bytes of the file stand for its pages, with the list heads of the tables, and for its counters. */
    ghost predicate OnBytes()
      reads this`pages, this`bytes, this`disk, this`tabs, this`homes, this`records, this`owner, this`pagesNumber, this`tablesNumber
    {
      && Image(bytes, disk) && pagesNumber * SYS_PAGE_SIZE <= |bytes| && Counts(Header(bytes), tablesNumber, pagesNumber)
      && Mirrors(disk, pages, tabs, records) && Placed(pages, tabs, homes, records) && Housed(owner, records)
    }

    /** The state between operations. */
    ghost predicate Good()
      reads this
    {
      OnBytes() && Inv(V(), 0) && NoMoving(V()) && Transits(V()) == {} && tablesNumber >= 1
    }

    /**
     * The part of the creation of a file that must come first: the table of tables gets the
     * first data page, with its own record as the only row. The record of the free-page table
     * is there from the start; while it has no pages a search of it finds nothing.
     */
    constructor (record: Row)
      requires Headless(record)
      ensures Good() && tablesNumber == 1 && pagesNumber == RESERVED_TO_FILE_META + 1
      ensures tabs.Keys == {TABLES, FREE_PAGES} && tabs[TABLES].rowSize == TABLE_RECORD_SIZE && tabs[TABLES].scale == 1
      ensures tabs[FREE_PAGES].rowSize == FREE_ROW_SIZE && tabs[FREE_PAGES].scale == 1
      ensures V() == FirstPage(record) && homes == map[TABLES := Key(RESERVED_TO_FILE_META, 0)]
    {
      hide Image, Inv, NoMoving, Capacity, FirstDataPage, Mirrors, Placed, Counts, Header, WithHeads, Headless;
      var tab := Tab(TABLE_RECORD_SIZE, 1, RESERVED_TO_FILE_META, 0);
      pages := map[RESERVED_TO_FILE_META := FirstDataPage(record)];
      tabs := map[TABLES := tab, FREE_PAGES := Tab(FREE_ROW_SIZE, 1, 0, 0)];
      pagesNumber := RESERVED_TO_FILE_META + 1;
      tablesNumber := 1;
      lists := map[ListId(TABLES, false) := [RESERVED_TO_FILE_META], ListId(TABLES, true) := [],
                   ListId(FREE_PAGES, false) := [], ListId(FREE_PAGES, true) := []];
      owner := map[RESERVED_TO_FILE_META := InList(ListId(TABLES, false))];
      homes, records := map[TABLES := Key(RESERVED_TO_FILE_META, 0)], map[Key(RESERVED_TO_FILE_META, 0) := TABLES];
      disk := map[RESERVED_TO_FILE_META := FirstDataPage(WithHeads(record, tab))];
      bytes := [];
      new;
      bytes := FirstFile(WithHeads(record, tab));
      FirstRecordPlaced(record, tabs);
      FirstPageGood(record);
    }

    /** The page as its header and bitmap read; page 0 is the file header. */
    function PageImage(p: nat): Page
      requires tablesNumber >= 1 && (p != 0 ==> p in pages)
      reads this
    {
      if p == 0 then HeaderPage(tablesNumber, pagesNumber) else pages[p]
    }

    /** One search step of a cursor over table `t`: `rows_iterator_next` without an outer cursor. */
    method NextRow(t: nat, c: Cursor, f: Filter, ghost i: nat)
      returns (res: IterResult, d: Cursor, ghost j: nat)
      requires Lists(V()) && AllSized(V()) && tablesNumber >= 1 && CursorOk(V(), t, c, i)
      ensures res == Strayed <==> c.page == 0 && !c.full && pagesNumber >= 0x1_0000
      ensures res == SearchEnd ==> Exhausted(V(), t, c, i, f) && d.page == 0 && Exhausted(V(), t, d, j, f)
      ensures res == RowFound ==> FoundAt(V(), t, c, i, d, j, f)
    {
      hide Lists, Reached, FoundAt, Exhausted, CursorOk, At, OnPage, HeaderPage, Geometry, NoRows, Pending, Behind;
      ghost var v := V();
      var page: nat, row: nat, full := c.page, c.row, c.full;
      j := i;
      ReachStart(v, t, c, i, f);
      while !full || page != 0
        invariant page != 0 ==> page in pages
        invariant row <= |PageImage(page).slots|
        invariant page == 0 ==> c.page == 0 && full == c.full
        invariant page != 0 ==> !(c.page == 0 && !c.full && pagesNumber >= 0x1_0000)
        invariant Reached(v, t, c, i, Cursor(page, if page == 0 then 0 else row, full), j, f)
        decreases !full, ListLeft(v, t, full, j), page != 0, |PageImage(page).slots| - row
      {
        var g := PageImage(page);
        if g.rowSize == 0 {
          assert false;
        }
        if row >= |g.slots| {
          if page == 0 {
            if g.next != 0 {
              return Strayed, Cursor(g.next, 0, full), j;
            }
          } else {
            ReachPage(v, t, c, i, Cursor(page, row, full), j, f);
            j := if g.next == 0 then j else j + 1;
          }
          page, row := g.next, 0;
          if page == 0 {
            ReachList(v, t, c, i, Cursor(0, 0, full), j, f);
            if !full && tabs[t].firstFull != 0 {
              full, page, j := true, tabs[t].firstFull, 1;
            } else {
              return SearchEnd, Cursor(0, 0, full), j;
            }
          }
        } else if page == 0 {
          row := row + 1;
        } else {
          ReachRow(v, t, c, i, Cursor(page, row, full), j, f);
          row := row + 1;
          if g.slots[row - 1].Some? && f(g.slots[row - 1].value) {
            return RowFound, Cursor(page, row, full), j;
          }
        }
      }
      ReachList(v, t, c, i, Cursor(0, 0, true), j, f);
      return SearchEnd, Cursor(0, 0, true), j;
    }

    // -------------------------------------------------------------- page lists

    /** `read_page_meta`; the memory is that of a page, so the row size is not 0. */
    method ReadPageMeta(p: nat) returns (m: PageMeta)
      requires OnBytes() && p in pages && pages[p].rowSize >= 1
      ensures MetaOf(m, p, pages)
    {
      hide Image, StandsFor, Apart, Placed, Counts, OnDisk;
      var r := ReadMeta(bytes, disk, p);
      if r.rowSize == 0 {
        assert false;
      }
      m := PageMeta(p, r.rowSize, r.scale, r.prev, r.next);
    }

    /** `write_page_meta` */
    method WritePageMeta(m: PageMeta)
      requires m.offset in pages && m.rowSize == pages[m.offset].rowSize && m.scale == pages[m.offset].scale
      requires OnBytes() && m.prev < 0x1_0000_0000 && m.next < 0x1_0000_0000
      modifies this`pages, this`bytes, this`disk
      ensures OnBytes() && pages == old(pages)[m.offset := old(pages)[m.offset].(prev := m.prev, next := m.next)]
    {
      hide Image, Mirrors, Placed, Housed, Counts, Header;
      LinksChanged(disk, pages, tabs, homes, records, m.offset, m.prev, m.next);
      bytes := WriteMeta(bytes, disk, m.offset, m.prev, m.next);
      disk := disk[m.offset := disk[m.offset].(prev := m.prev, next := m.next)];
      pages := pages[m.offset := Page(m.rowSize, m.scale, m.prev, m.next, pages[m.offset].slots)];
    }

    /** The number of a page fits in a link. */
    lemma PageFits(p: nat)
      requires OnBytes() && (p != 0 ==> p in pages)
      ensures p < 0x1_0000_0000 && (p in pages ==> pages[p].prev < 0x1_0000_0000 && pages[p].next < 0x1_0000_0000)
    {
      hide Image, Placed, Counts, OnDisk;
      PageBelow(bytes, disk, p);
    }

    /** Only the link to the next page changes. */
    method SetNext(p: nat, next: nat)
      requires OnBytes() && p in pages && (next != 0 ==> next in pages)
      modifies this`pages, this`bytes, this`disk
      ensures OnBytes() && pages == old(pages)[p := old(pages)[p].(next := next)]
    {
      hide Image, Mirrors, Placed, Housed, Counts, Header;
      PageFits(next);
      LinksChanged(disk, pages, tabs, homes, records, p, pages[p].prev, next);
      ShapeOnDisk(disk, pages, tabs, records, p);
      bytes := SetNextIn(bytes, disk, p, next);
      disk := disk[p := disk[p].(next := next)];
      pages := pages[p := pages[p].(next := next)];
    }

    /** Only the link to the page before changes. */
    method SetPrev(p: nat, prev: nat)
      requires OnBytes() && p in pages && (prev != 0 ==> prev in pages)
      modifies this`pages, this`bytes, this`disk
      ensures OnBytes() && pages == old(pages)[p := old(pages)[p].(prev := prev)]
    {
      hide Image, Mirrors, Placed, Housed, Counts, Header;
      PageFits(prev);
      LinksChanged(disk, pages, tabs, homes, records, p, prev, pages[p].next);
      ShapeOnDisk(disk, pages, tabs, records, p);
      bytes := SetPrevIn(bytes, disk, p, prev);
      disk := disk[p := disk[p].(prev := prev)];
      pages := pages[p := pages[p].(prev := prev)];
    }

    /** Unlinks a page from the list that starts at `listStart`; a page without a predecessor must be its head. */
    method RemoveFromTableList(page: PageMeta, listStart: nat) returns (start: nat)
      requires page.prev == 0 ==> page.offset == listStart
      requires 0 !in pages && (page.prev != 0 ==> page.prev in pages) && (page.next != 0 ==> page.next in pages)
      requires OnBytes()
      modifies this`pages, this`bytes, this`disk
      ensures OnBytes()
      ensures pages == UnlinkPages(old(pages), page.prev, page.next)
      ensures start == if page.prev == 0 then page.next else listStart
    {
      hide Storage.OnBytes;
      start := listStart;
      if page.prev == 0 {
        if page.offset != listStart {
          assert false;
        }
        start := page.next;
      } else {
        SetNext(page.prev, page.next);
      }
      if page.next != 0 {
        SetPrev(page.next, page.prev);
      }
    }

    /** Puts a page at the head of the list that starts at `listStart`. */
    method PushToTableList(page: PageMeta, listStart: nat) returns (start: nat)
      requires page.offset in pages && 0 !in pages && page.offset != listStart
      requires pages[page.offset].rowSize == page.rowSize && pages[page.offset].scale == page.scale
      requires listStart != 0 ==> listStart in pages && pages[listStart].prev == 0 && pages[listStart].rowSize >= 1
      requires OnBytes()
      modifies this`pages, this`bytes, this`disk
      ensures OnBytes()
      ensures pages == PushPages(old(pages), page.offset, listStart) && start == page.offset
    {
      hide Storage.OnBytes;
      PageFits(page.offset);
      PageFits(listStart);
      start := page.offset;
      if listStart == 0 {
        WritePageMeta(page.(prev := 0, next := 0));
        return;
      }
      var listPage := ReadPageMeta(listStart);
      if listPage.prev != 0 {
        assert false;
      }
      WritePageMeta(page.(prev := 0, next := listPage.offset));
      WritePageMeta(listPage.(prev := page.offset));
    }

    /** The new list head of a table, in its record: in the bytes too, if the record is mapped. */
    method StoreHead(id: ListId, start: nat)
      requires OnBytes() && id.tid in tabs
      modifies this`tabs, this`bytes, this`disk
      ensures OnBytes() && tabs == SetHead(old(tabs), id, start)
    {
      hide Image, Mirrors, Placed, Housed, Counts, Header, WithHeads, Headed, InSlot;
      var tab := SetHead(tabs, id, start)[id.tid];
      assert SetHead(tabs, id, start) == tabs[id.tid := tab];
      if id.tid in homes {
        var k := homes[id.tid];
        HeadsStored(disk, pages, tabs, homes, records, id.tid, tab);
        RecordThere(pages, k);
        bytes := WriteHeads(bytes, disk, pages, tabs, records, k, pages[k.page].slots[k.row].value, tab);
        disk := Headed(disk, pages, k, tab);
      } else {
        NoPlace(disk, pages, tabs, homes, records, id.tid, tab);
      }
      tabs := SetHead(tabs, id, start);
    }

    /** A page outside all tables has no record of a table, nor has one without rows. */
    lemma Homeless(p: nat)
      requires OnBytes()
      ensures p !in pages ==> NoRecordOn(records, p)
      ensures p in owner && TableOf(owner[p]) < 0 ==> NoRecordOn(records, p)
      ensures p in pages && NoRows(pages[p].slots) ==> NoRecordOn(records, p)
    {
      hide Image, Mirrors, Counts, Header, Placed, Housed, NoRecordOn, NoRows;
      NoneHoused(pages, owner, tabs, homes, records, p);
    }

    /** A row of another size than a table record is none. */
    lemma FreeRowUnmapped(p: nat, r: nat)
      requires OnBytes() && p in pages && r < |pages[p].slots| && pages[p].slots[r].Some?
      requires |pages[p].slots[r].value| == FREE_ROW_SIZE
      ensures Key(p, r) !in records
    {
      hide Image, Mirrors, Counts, Header, Housed;
      EmptyPlace(pages, tabs, homes, records, p, r);
    }

    /** Where a record is mapped, and whose it is. */
    lemma RecordHome(k: Key)
      requires OnBytes() && k in records
      ensures records[k] in homes && homes[records[k]] == k && records[k] in tabs
    {
      hide Image, Mirrors, Counts, Header, Housed, InSlot;
    }

    /** A page changes hands. */
    ghost method PassOn(p: nat, o: Owner)
      requires OnBytes() && (TableOf(o) >= 0 || NoRecordOn(records, p))
      modifies this`owner
      ensures OnBytes() && owner == old(owner)[p := o]
    {
      hide Image, Mirrors, Counts, Header, Placed, Housed, NoRecordOn;
      HousedStill(owner, records, p, o);
      owner := owner[p := o];
    }

    /** Unlinks a page from a list of its table and stores the new list head in the table record. */
    method UnlinkPage(page: PageMeta, id: ListId, ghost k: nat, ghost o: Owner)
      requires Geometry(V()) && Lists(V())
      requires id in lists && k < |lists[id]| && page.offset == lists[id][k] && MetaOf(page, page.offset, pages)
      requires OnBytes() && (TableOf(o) >= 0 || NoRows(pages[page.offset].slots))
      modifies this`pages, this`bytes, this`disk, this`tabs, this`lists, this`owner
      ensures OnBytes()
      ensures id.tid in old(tabs) && V() == Unlink(old(V()), id, k, o)
    {
      hide Storage.OnBytes, Geometry, Lists, UnlinkPages;
      LinkFacts(V(), id, k);
      Homeless(page.offset);
      var start := RemoveFromTableList(page, Head(tabs, id));
      StoreHead(id, start);
      lists := lists[id := Without(lists[id], k)];
      PassOn(page.offset, o);
    }

    /** Pushes a page on a list of its table and stores the new list head in the table record. */
    method PushPage(page: PageMeta, id: ListId)
      requires Geometry(V()) && Lists(V()) && id in lists
      requires page.offset in pages && page.offset in owner && (owner[page.offset].Loose? || owner[page.offset].Moving?)
      requires pages[page.offset].rowSize == page.rowSize && pages[page.offset].scale == page.scale
      requires OnBytes()
      modifies this`pages, this`bytes, this`disk, this`tabs, this`lists, this`owner
      ensures OnBytes()
      ensures id.tid in old(tabs) && V() == Push(old(V()), id, page.offset)
    {
      hide Storage.OnBytes, Geometry, Lists, PushPages;
      HeadFacts(V(), id);
      var start := PushToTableList(page, Head(tabs, id));
      StoreHead(id, start);
      lists := lists[id := [page.offset] + lists[id]];
      PassOn(page.offset, InList(id));
    }

    /** `move_page_to_full_list` and `move_page_to_free_list`: from list `id` to the other list of the table. */
    method MovePage(page: PageMeta, id: ListId, ghost k: nat)
      requires id in lists && k < |lists[id]| && page.offset == lists[id][k]
      requires Inv(V(), page.offset) && NoMoving(V())
      requires MetaOf(page, page.offset, pages)
      requires PageOccupancy(pages[page.offset], !id.full)
      requires OnBytes()
      modifies this`pages, this`bytes, this`disk, this`tabs, this`lists, this`owner
      ensures OnBytes()
      ensures Moved(old(V()), V(), id, k)
    {
      hide Storage.OnBytes, Inv, NoMoving, Moved, UnlinkPages, PushPages, Geometry, Lists;
      if (FirstEmpty(pages[page.offset].slots) == -1) == id.full {
        assert false;
      }
      ghost var v := V();
      MoveIsMoved(v, id, k);
      MoveReady(v, id, k);
      UnlinkPage(page, id, k, Moving(id.tid));
      PushPage(page, ListId(id.tid, !id.full));
    }

    // -------------------------------------------------------------- allocation and recycling

    /** How much recursion through the free-page table is still possible: 1 or 0. */
    ghost function Nesting(): nat
      reads this
    {
      if NoFreeRoom() then 0 else 1
    }

    /** The free-page table has no page with room, so a search of it starts at page 0. */
    ghost predicate NoFreeRoom()
      reads this
    {
      FREE_PAGES in tabs && tabs[FREE_PAGES].firstFree == 0
    }

    /** The file gets more pages, and page 0 the new count. */
    method ExtendFile(scale: nat)
      requires OnBytes()
      modifies this`bytes, this`pagesNumber
      ensures OnBytes() && pagesNumber == old(pagesNumber) + scale
    {
      hide Image, Mirrors, Placed, Housed, Counts, Header, ClearBehind;
      CountersClear(bytes, tablesNumber, pagesNumber);
      bytes := Grow(bytes, disk, pagesNumber + scale);
      bytes := WriteCounts(bytes, disk, tablesNumber, pagesNumber + scale);
      pagesNumber := pagesNumber + scale;
    }

    /** `create_page` in the file. */
    method CreatePage(p: nat, rowSize: nat, scale: nat)
      requires Mappable(rowSize, scale) && OnBytes()
      requires Apart(pages[p := FreshPage(rowSize, scale)]) && p + scale <= pagesNumber
      requires NoRecordOn(records, p)
      modifies this`pages, this`bytes, this`disk
      ensures OnBytes() && pages == old(pages)[p := FreshPage(rowSize, scale)]
    {
      hide Image, Apart, HeaderSize, Mirrors, Placed, Counts, Header, FreshPage, Housed, NoRecordOn;
      ghost var g := FreshPage(rowSize, scale);
      BlankFresh(rowSize, scale);
      PageBlanked(disk, pages, tabs, homes, records, p, g);
      MirrorsApart(disk, pages, tabs, records, p, g);
      bytes := BlankPage(bytes, disk, p, rowSize, scale);
      disk := disk[p := g];
      pages := pages[p := FreshPage(rowSize, scale)];
    }

    /** A new page at the end of the file. */
    method AppendPage(rowSize: nat, scale: nat)
      requires Mappable(rowSize, scale) && OnBytes() && pagesNumber !in pages
      requires Apart(pages[pagesNumber := FreshPage(rowSize, scale)])
      modifies this`pages, this`bytes, this`disk, this`pagesNumber, this`owner
      ensures OnBytes() && V() == Bump(old(V()), rowSize, scale)
    {
      hide Storage.OnBytes, Apart, FreshPage;
      var p := pagesNumber;
      Homeless(p);
      ExtendFile(scale);
      CreatePage(p, rowSize, scale);
      PassOn(p, Loose);
    }

    /**
     * `storage_add_page`: takes a recorded free page of the same scale if there is one, the first
     * that a search of the free-page table meets, and otherwise extends the file.
     */
    method StorageAddPage(rowSize: nat, scale: nat) returns (ok: bool, p: nat)
      requires Inv(V(), 0) && NoMoving(V()) && tablesNumber >= 1 && rowSize >= 1 && Mappable(rowSize, scale)
      requires OnBytes()
      modifies this`pages, this`bytes, this`disk, this`tabs, this`pagesNumber, this`lists, this`owner
      ensures ok ==> OnBytes()
      ensures ok <==> TakeOk(old(V()), scale)
      ensures old(pagesNumber) <= pagesNumber <= old(pagesNumber) + scale
      ensures ok ==> PageAdded(old(V()), V(), p, rowSize, scale) && Taken(old(V()), scale, p, pagesNumber)
      decreases Nesting(), 5
    {
      hide Storage.OnBytes, Inv, NoMoving, PageAdded, FreshPage, Geometry, Lists, CursorOk, FoundAt, Exhausted,
           RowRemoved, RowAt, Taken, HasSpare, RemovalOk, RemovalCost, MetFirst, DecodePage;
      ghost var v := V();
      var f := SameScale(scale);
      FreePagesStart(v, f);
      ghost var i := if tabs[FREE_PAGES].firstFree == 0 then 0 else 1;
      ghost var start := Cursor(tabs[FREE_PAGES].firstFree, 0, false);
      AllAreSized(v);
      var res, c, j := NextRow(FREE_PAGES, Cursor(tabs[FREE_PAGES].firstFree, 0, false), f, i);
      match res {
        case Strayed =>
          return false, 0;
        case RowFound =>
          FreeRowFound(v, start, i, c, j, f);
          SearchTakes(v, i, c, j, scale);
          var found := pages[c.page].slots[c.row - 1].value;
          p := DecodePage(found);
          TakeOkFound(v, scale, Key(c.page, c.row - 1));
          TakenFound(v, scale, p, Key(c.page, c.row - 1));
          ghost var k: nat;
          FreeRowUnmapped(c.page, c.row - 1);
          ok, k := RemoveRow(FREE_PAGES, c.page, c.row - 1);
          if ok {
            RecycledPage(v, V(), p, c.page, c.row - 1, k, rowSize, scale);
            Homeless(p);
            AddedApart(v, Reuse(V(), p, rowSize), p, rowSize, scale);
            CreatePage(p, rowSize, scale);
          }
        case SearchEnd =>
          SearchFails(v, i, scale);
          if pagesNumber + scale > PAGES_LIMIT {
            return false, 0;
          }
          p := pagesNumber;
          AppendedPage(v, rowSize, scale);
          AddedApart(v, Bump(v, rowSize, scale), p, rowSize, scale);
          AppendPage(rowSize, scale);
          ok := true;
      }
    }

    /** `create_table_page`: a new blank page at the head of the table's first list. */
    method CreateTablePage(t: nat) returns (ok: bool)
      requires Inv(V(), 0) && NoMoving(V()) && tablesNumber >= 1 && t in tabs
      requires OnBytes()
      modifies this`pages, this`bytes, this`disk, this`tabs, this`pagesNumber, this`lists, this`owner
      ensures ok ==> OnBytes()
      ensures ok <==> TakeOk(old(V()), old(tabs[t].scale))
      ensures old(pagesNumber) <= pagesNumber <= old(pagesNumber) + old(tabs[t].scale)
      ensures ok ==> t in tabs && RoomMade(old(V()), V(), t, tabs[t].firstFree) && TakenHead(old(V()), V(), t)
      decreases Nesting(), 6
    {
      hide Storage.OnBytes, Inv, NoMoving, PageAdded, RoomMade, NewRoomReady, Push, Taken, TakeOk, TakenHead;
      ghost var v := V();
      TabScale(v, t);
      var p;
      ok, p := StorageAddPage(tabs[t].rowSize, tabs[t].scale);
      if ok {
        NewRoom(v, V(), t, p);
        NewRoomReadyFacts(V(), t, p);
        TakenPushed(v, V(), t, p);
        PageSized(V(), 0, p);
        var page := ReadPageMeta(p);
        PushPage(page, ListId(t, false));
        RoomHead(v, V(), t, p);
      }
    }

    /** `table_insert_row` for a row whose bytes are ready. */
    method InsertRow(t: nat, row: Row) returns (ok: bool, p: nat, r: nat)
      requires Inv(V(), 0) && NoMoving(V()) && tablesNumber >= 1
      requires t in tabs && |row| == tabs[t].rowSize && (t == FREE_PAGES ==> Recordable(V(), row))
      requires OnBytes()
      modifies this`pages, this`bytes, this`disk, this`tabs, this`pagesNumber, this`lists, this`owner
      ensures ok ==> OnBytes()
      ensures ok <==> old(tabs[t].firstFree) != 0 || TakeOk(old(V()), old(tabs[t].scale))
      ensures old(pagesNumber) <= pagesNumber <= old(pagesNumber) + old(tabs[t].scale)
      ensures ok ==> RowInserted(old(V()), V(), t, p, r, row) && PlaceFor(old(V()), t, p, r, pagesNumber)
      decreases if t in tabs && tabs[t].firstFree == 0 then Nesting() else 0, 7
    {
      hide Storage.OnBytes, Inv, NoMoving, RoomMade, RowInserted, Recordable, Moved, Writable, FillRow, PageOccupancy, IsFull,
           TakeOk, TakenHead, PlaceFor;
      ghost var v := V();
      if tabs[t].firstFree == 0 {
        ok := CreateTablePage(t);
        if !ok {
          return false, 0, 0;
        }
      } else {
        HeadRoom(v, t);
      }
      ghost var m := V();
      RoomFacts(v, m, t, row);
      if v.tabs[t].firstFree == 0 {
        PlaceMade(v, m, t);
      } else {
        PlaceThere(v, t);
      }
      var page := ReadPageMeta(tabs[t].firstFree);
      p := page.offset;
      var status;
      status, r := FindAndWrite(t, p, row);
      ok := true;
      FilledHead(v, m, t, p, r, row);
      match status {
        case WriteNotEmpty =>
          assert false;
        case WriteOutOfBound =>
          assert false;
        case WriteOkButFull =>
          MovePage(page, ListId(t, false), 0);
          InsertMoves(v, m, V(), t, p, r, row);
        case WriteOk =>
          InsertSettles(v, m, t, p, r, row);
      }
    }

    /** `find_and_write_row` in the file. */
    method FindAndWrite(t: nat, p: nat, row: Row) returns (status: WriteStatus, r: nat)
      requires p in pages && FirstEmpty(pages[p].slots) != -1 && Writable(V(), t, p, FirstEmpty(pages[p].slots), row)
      requires OnBytes()
      modifies this`pages, this`bytes, this`disk, this`owner
      ensures OnBytes()
      ensures r == FirstEmpty(old(pages)[p].slots) && Writable(old(V()), t, p, r, row)
      ensures V() == FillRow(old(V()), p, r, row)
      ensures p in pages && status == if IsFull(pages[p].slots) then WriteOkButFull else WriteOk
    {
      hide Image, FirstEmpty, EncodeFree, Mirrors, Placed, Counts, Header, InSlot, Housed, NoRecordOn;
      var (slots, s, i) := FindAndWriteRow(pages[p].slots, row);
      if t == FREE_PAGES {
        Homeless(DecodePage(row));
      }
      PlaceTaken(disk, pages, tabs, homes, records, p, i, Some(row));
      bytes, status, r := FileImage.FindAndWrite(bytes, disk, p, row);
      disk := disk[p := disk[p].(slots := disk[p].slots[i := Some(row)])];
      pages := pages[p := pages[p].(slots := slots)];
      if t == FREE_PAGES {
        PassOn(DecodePage(row), Recorded(p, r));
      }
    }

    /** `handle_page_freed`: an emptied page leaves its table and becomes a row of the free-page table. */
    method HandlePageFreed(page: PageMeta, t: nat, ghost k: nat) returns (ok: bool)
      requires Inv(V(), page.offset) && NoMoving(V()) && tablesNumber >= 1
      requires ListId(t, false) in lists && k < |lists[ListId(t, false)]| && lists[ListId(t, false)][k] == page.offset
      requires MetaOf(page, page.offset, pages) && NoRows(pages[page.offset].slots)
      requires OnBytes()
      modifies this`pages, this`bytes, this`disk, this`tabs, this`pagesNumber, this`lists, this`owner
      ensures ok ==> OnBytes()
      ensures ok <==> old(RoomBeside(V(), page.offset)) || old(pagesNumber) < 0x1_0000
      ensures ok ==> pagesNumber == old(pagesNumber) + if old(RoomBeside(V(), page.offset) || HasSpare(V(), 1)) then 0 else 1
      ensures old(pagesNumber) <= pagesNumber <= old(pagesNumber) + 1
      ensures ok ==> PageFreed(old(V()), V(), t, page.offset, k)
      decreases 1, 3
    {
      hide Storage.OnBytes, Geometry, Lists, Occupancy, Records, Tiling, EncodeFree, DecodePage, Inv, NoMoving,
           PageFreed, Unlink, RowInserted, Recordable, Untouched, OthersKept, Transits, NoRows, TakeOk, Taken, HasSpare, RoomBeside;
      ghost var m := V();
      InvParts(m, page.offset);
      FreedUnlinked(m, t, page.offset, k);
      UnlinkedRest(m, t, page.offset, k);
      UnlinkPage(page, ListId(t, false), k, Loose);
      ghost var u := V();
      if u.tabs[FREE_PAGES].firstFree == 0 {
        NestedTake(u);
      }
      var q, r;
      ok, q, r := InsertRow(FREE_PAGES, EncodeFree(page.offset, page.scale));
      if ok {
        FreedRecorded(m, u, V(), t, page.offset, k, q, r, EncodeFree(page.offset, page.scale));
      }
    }

    /** `remove_row` in the file, at a place that is not that of a table record. */
    method EmptySlot(p: nat, r: nat) returns (status: RemoveStatus)
      requires OnBytes() && p in pages && r < |pages[p].slots| && pages[p].slots[r].Some? && Key(p, r) !in records
      modifies this`pages, this`bytes, this`disk
      ensures OnBytes()
      ensures pages == old(pages)[p := old(pages)[p].(slots := old(pages)[p].slots[r := None])]
      ensures status == PageRows.RemoveRow(old(pages)[p].slots, r).1
    {
      hide Image, Mirrors, Placed, Housed, Counts, Header, AllEmpty, FirstEmpty;
      PlaceTaken(disk, pages, tabs, homes, records, p, r, None);
      bytes, status := RemoveFrom(bytes, disk, p, r);
      disk := disk[p := disk[p].(slots := disk[p].slots[r := None])];
      pages := pages[p := pages[p].(slots := pages[p].slots[r := None])];
    }

    /** `remove_row` in the file: clears the slot and reports what became of the page. */
    method ClearSlot(t: nat, p: nat, r: nat) returns (status: RemoveStatus)
      requires Inv(V(), 0) && NoMoving(V()) && RowAt(V(), t, p, r).Some? && Key(p, r) !in records
      requires OnBytes()
      modifies this`pages, this`bytes, this`disk, this`owner
      ensures OnBytes()
      ensures Cleared(old(V()), V(), t, p, r) && RestOf(old(V()), V(), p, r)
      ensures p in old(pages) && status == PageRows.RemoveRow(old(pages)[p].slots, r).1
    {
      hide Storage.OnBytes, Inv, NoMoving, Cleared, RowAt, AllEmpty, FirstEmpty, NoRecordOn, RestOf;
      ClearIsCleared(V(), t, p, r);
      ClearedTable(V(), ClearRow(V(), p, r), t, p, r);
      ClearedRest(V(), ClearRow(V(), p, r), t, p, r);
      var row := pages[p].slots[r].value;
      if t == FREE_PAGES {
        NamedIsRecorded(V(), p, r);
        Homeless(DecodePage(row));
      }
      status := EmptySlot(p, r);
      if t == FREE_PAGES {
        PassOn(DecodePage(row), Loose);
      }
    }

    /** `table_remove_row` for a row without string columns. */
    method RemoveRow(t: nat, p: nat, r: nat) returns (ok: bool, ghost k: nat)
      requires Inv(V(), 0) && NoMoving(V()) && tablesNumber >= 1 && RowAt(V(), t, p, r).Some? && Key(p, r) !in records
      requires OnBytes()
      modifies this`pages, this`bytes, this`disk, this`tabs, this`pagesNumber, this`lists, this`owner
      ensures ok ==> OnBytes()
      ensures ok <==> RemovalOk(old(V()), p, r)
      ensures old(pagesNumber) <= pagesNumber <= old(pagesNumber) + 1
      ensures ok ==> RowRemoved(old(V()), V(), t, p, r, k) && pagesNumber == old(pagesNumber) + RemovalCost(old(V()), p, r)
      decreases if p in owner && owner[p].InList? && owner[p].id.full then 0 else 1, 4
    {
      hide Storage.OnBytes, Inv, NoMoving, RowRemoved, Cleared, Moved, PageFreed, RowAt, NoRows, LastRow, RoomBeside,
           SpareBeside, HasSpare;
      ghost var v := V();
      k := RemovalPlace(v, t, p, r);
      PageSized(v, 0, p);
      var page := ReadPageMeta(p);
      var status := ClearSlot(t, p, r);
      ghost var m := V();
      RemovalReady(v, m, t, p, r, k);
      ok := true;
      match status {
        case RemoveOutOfBound =>
          assert false;
        case RemoveBitmapError =>
          assert false;
        case RemoveOkPageNotFull =>
          MovePage(page, ListId(t, true), k);
          RemovalMoves(v, m, V(), t, p, r, k);
        case RemoveOkPageFreed =>
          ok := HandlePageFreed(page, t, k);
          if ok {
            RemovalFrees(v, m, V(), t, p, r, k);
          }
        case RemoveOk =>
          RemovalStays(v, m, t, p, r, k);
      }
    }

    /** `table_replace_row` for a row whose bytes are ready. */
    method ReplaceRow(t: nat, p: nat, r: nat, row: Row)
      requires Inv(V(), 0) && NoMoving(V()) && t != FREE_PAGES && RowAt(V(), t, p, r).Some?
      requires t in tabs && |row| == tabs[t].rowSize && Key(p, r) !in records
      requires OnBytes()
      modifies this`pages, this`bytes, this`disk
      ensures OnBytes()
      ensures RowReplaced(old(V()), V(), t, p, r, row)
    {
      hide Image, Inv, NoMoving, RowReplaced, RowAt, Mirrors, Placed, Counts, Header, Housed;
      ghost var v := V();
      ReplaceReady(v, t, p, r, row);
      var (slots, s) := PageRows.ReplaceRow(pages[p].slots, r, row);
      PlaceTaken(disk, pages, tabs, homes, records, p, r, Some(row));
      var status;
      bytes, status := ReplaceIn(bytes, disk, p, r, row);
      disk := disk[p := disk[p].(slots := disk[p].slots[r := Some(row)])];
      match status {
        case WriteNotEmpty =>
          assert false;
        case WriteOutOfBound =>
          assert false;
        case WriteOkButFull =>
          assert false;
        case WriteOk =>
      }
      pages := pages[p := pages[p].(slots := slots)];
    }

    /** A row of the size of a table record, on a page of a table, that is not the record of any. */
    ghost predicate CanBeRecord(k: Key)
      reads this
    {
      InSlot(pages, k) && k !in records && k.page in owner && TableOf(owner[k.page]) >= 0
    }

    /** The record of table `t` is mapped at `k`, and page 0 counts one more table. */
    method MapRecord(t: nat, k: Key)
      requires OnBytes() && t in tabs && t !in homes && CanBeRecord(k)
      modifies this`bytes, this`disk, this`homes, this`records, this`tablesNumber
      ensures OnBytes() && homes == old(homes)[t := k] && records == old(records)[k := t] && tablesNumber == old(tablesNumber) + 1
    {
      hide Image, Mirrors, Placed, Housed, Counts, Header, WithHeads, Headed, ClearBehind, InSlot;
      RecordThere(pages, k);
      CountersClear(bytes, tablesNumber, pagesNumber);
      RecordPlaced(disk, pages, tabs, homes, records, t, k);
      bytes := WriteHeads(bytes, disk, pages, tabs, records, k, pages[k.page].slots[k.row].value, tabs[t]);
      disk := Headed(disk, pages, k, tabs[t]);
      bytes := WriteCounts(bytes, disk, tablesNumber + 1, pagesNumber);
      OneMoreHoused(owner, records, k, t);
      homes, records, tablesNumber := homes[t := k], records[k := t], tablesNumber + 1;
    }

    /** The record of a new table: it has no pages yet, and takes the next table id. */
    method RegisterTable(rowSize: nat, scale: nat, k: Key) returns (t: nat)
      requires Inv(V(), 0) && NoMoving(V()) && tablesNumber !in tabs && TabOk(Tab(rowSize, scale, 0, 0))
      requires OnBytes() && CanBeRecord(k)
      modifies this`bytes, this`disk, this`tabs, this`homes, this`records, this`lists, this`tablesNumber
      ensures OnBytes() && homes == old(homes)[t := k] && records == old(records)[k := t]
      ensures t == old(tablesNumber) && tablesNumber == t + 1
      ensures V() == AddTable(old(V()), t, rowSize, scale)
      ensures Inv(V(), 0) && NoMoving(V()) && Transits(V()) == Transits(old(V()))
    {
      hide Inv, TabOk, Image, Mirrors, Placed, Housed, Counts, Header, InSlot;
      AddTableKeeps(V(), tablesNumber, rowSize, scale);
      t := tablesNumber;
      NotMapped(pages, tabs, homes, records, t);
      NoPlace(disk, pages, tabs, homes, records, t, Tab(rowSize, scale, 0, 0));
      tabs := tabs[t := Tab(rowSize, scale, 0, 0)];
      lists := lists[ListId(t, false) := []][ListId(t, true) := []];
      MapRecord(t, k);
    }
  }
}
