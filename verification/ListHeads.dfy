/** The list heads of tables in the bytes of the file: they are part of the rows of the table of tables. */
module ListHeads {
  import opened Common
  import opened Bytes
  import opened PageLayout
  import opened PageRows
  import MappedPage
  import opened FileImage
  import opened StorageModel
  import opened CursorModel

  /** Where the list heads are in a row of the table of tables. */
  const FIRST_FREE_AT: nat := 42
  const FIRST_FULL_AT: nat := 46

  /** The row with these list heads in it. */
  function WithHeads(row: Row, t: Tab): (r: Row)
    requires |row| == TABLE_RECORD_SIZE
    ensures |r| == TABLE_RECORD_SIZE && r[..FIRST_FREE_AT] == row[..FIRST_FREE_AT]
    ensures U32(r[FIRST_FREE_AT..FIRST_FULL_AT]) == t.firstFree % 0x1_0000_0000
    ensures U32(r[FIRST_FULL_AT..]) == t.firstFull % 0x1_0000_0000
  {
    var a, b := EncodeU32(t.firstFree % 0x1_0000_0000), EncodeU32(t.firstFull % 0x1_0000_0000);
    var r := row[..FIRST_FREE_AT] + a + b;
    assert r[FIRST_FREE_AT..FIRST_FULL_AT] == a && r[FIRST_FULL_AT..] == b;
    r
  }

  const NO_HEADS: seq<byte> := [0, 0, 0, 0, 0, 0, 0, 0]

  /** A row of the size of a table record, with no list heads in it. */
  predicate Headless(row: Row): (b: bool)
    ensures b ==> |row| == TABLE_RECORD_SIZE
  {
    |row| == TABLE_RECORD_SIZE && row[FIRST_FREE_AT..] == NO_HEADS
  }

  /** Such a row at a place. */
  ghost predicate InSlot(pages: map<nat, Page>, k: Key) {
    && k.page in pages && k.row < |pages[k.page].slots|
    && pages[k.page].slots[k.row].Some? && Headless(pages[k.page].slots[k.row].value)
  }

  ghost predicate SameShape(a: Page, b: Page) {
    && a.rowSize == b.rowSize && a.scale == b.scale && a.prev == b.prev && a.next == b.next && |a.slots| == |b.slots|
  }

  /** `homes` are the places of the records of tables, and `records` tells whose record a place has. */
  ghost predicate Placed(pages: map<nat, Page>, tabs: map<nat, Tab>, homes: map<nat, Key>, records: map<Key, nat>) {
    && (forall t :: t in homes ==> t in tabs && homes[t] in records && records[homes[t]] == t)
    && (forall k :: k in records ==> records[k] in homes && homes[records[k]] == k && InSlot(pages, k))
  }

  ghost predicate NoRecordOn(records: map<Key, nat>, p: nat) {
    forall k :: k in records ==> k.page != p
  }

  /** The records of tables are on pages that belong to a table. */
  ghost predicate Housed(owner: map<nat, Owner>, records: map<Key, nat>) {
    forall k :: k in records ==> k.page in owner && TableOf(owner[k.page]) >= 0
  }

  /** A slot as it is on disk. */
  ghost function OnDisk(s: Option<Row>, tabs: map<nat, Tab>, records: map<Key, nat>, k: Key): Option<Row> {
    if k in records && records[k] in tabs && s.Some? && |s.value| == TABLE_RECORD_SIZE
    then Some(WithHeads(s.value, tabs[records[k]])) else s
  }

  /** The pages on disk are those of the engine, except that the records of tables have their list heads in them. */
  ghost predicate Mirrors(disk: map<nat, Page>, pages: map<nat, Page>, tabs: map<nat, Tab>, records: map<Key, nat>) {
    && disk.Keys == pages.Keys
    && (forall p :: p in pages ==> SameShape(disk[p], pages[p]))
    && forall p, r :: p in pages && p in disk && 0 <= r < |pages[p].slots| && r < |disk[p].slots| ==>
         disk[p].slots[r] == OnDisk(pages[p].slots[r], tabs, records, Key(p, r))
  }

  // ---------------------------------------------------------------- what changes of pages do

  /** New links. */
  lemma LinksChanged(disk: map<nat, Page>, pages: map<nat, Page>, tabs: map<nat, Tab>, homes: map<nat, Key>, records: map<Key, nat>,
                 p: nat, prev: nat, next: nat)
    requires Mirrors(disk, pages, tabs, records) && Placed(pages, tabs, homes, records) && p in pages
    ensures p in disk
    ensures Mirrors(disk[p := disk[p].(prev := prev, next := next)], pages[p := pages[p].(prev := prev, next := next)], tabs, records)
    ensures Placed(pages[p := pages[p].(prev := prev, next := next)], tabs, homes, records)
  {
    hide OnDisk, Headless;
  }

  lemma ShapeOnDisk(disk: map<nat, Page>, pages: map<nat, Page>, tabs: map<nat, Tab>, records: map<Key, nat>, p: nat)
    requires Mirrors(disk, pages, tabs, records) && p in pages
    ensures p in disk && SameShape(disk[p], pages[p])
  {
    hide OnDisk, Headless;
  }

  /** A row at a place that is not that of a table record. */
  lemma SlotChanged(disk: map<nat, Page>, pages: map<nat, Page>, tabs: map<nat, Tab>, homes: map<nat, Key>, records: map<Key, nat>,
                  p: nat, r: nat, x: Option<Row>)
    requires Mirrors(disk, pages, tabs, records) && Placed(pages, tabs, homes, records)
    requires p in pages && r < |pages[p].slots| && Key(p, r) !in records
    ensures p in disk && |disk[p].slots| == |pages[p].slots|
    ensures Mirrors(disk[p := disk[p].(slots := disk[p].slots[r := x])], pages[p := pages[p].(slots := pages[p].slots[r := x])], tabs, records)
    ensures Placed(pages[p := pages[p].(slots := pages[p].slots[r := x])], tabs, homes, records)
  {
    hide OnDisk, Headless;
    NotOnDisk(tabs, records, p, r);
    PlacesStay(pages, tabs, homes, records, p, r, x);
  }

  lemma NotOnDisk(tabs: map<nat, Tab>, records: map<Key, nat>, p: nat, r: nat)
    requires Key(p, r) !in records
    ensures forall x :: OnDisk(x, tabs, records, Key(p, r)) == x
  {
  }

  lemma PlacesStay(pages: map<nat, Page>, tabs: map<nat, Tab>, homes: map<nat, Key>, records: map<Key, nat>, p: nat, r: nat, x: Option<Row>)
    requires Placed(pages, tabs, homes, records) && p in pages && r < |pages[p].slots| && Key(p, r) !in records
    ensures Placed(pages[p := pages[p].(slots := pages[p].slots[r := x])], tabs, homes, records)
  {
    hide Headless;
    var g := pages[p := pages[p].(slots := pages[p].slots[r := x])];
    forall k | k in records ensures InSlot(g, k) {
      assert InSlot(pages, k) && k == Key(k.page, k.row);
    }
  }

  /** A page without a record changes hands, or one passes to a table. */
  lemma HousedStill(owner: map<nat, Owner>, records: map<Key, nat>, p: nat, o: Owner)
    requires Housed(owner, records) && (NoRecordOn(records, p) || TableOf(o) >= 0)
    ensures Housed(owner[p := o], records)
  {
  }

  lemma OneMoreHoused(owner: map<nat, Owner>, records: map<Key, nat>, k: Key, t: nat)
    requires Housed(owner, records) && k.page in owner && TableOf(owner[k.page]) >= 0
    ensures Housed(owner, records[k := t])
  {
  }

  /** Pages outside all tables have no record, and neither have pages without rows. */
  lemma NoneHoused(pages: map<nat, Page>, owner: map<nat, Owner>, tabs: map<nat, Tab>, homes: map<nat, Key>, records: map<Key, nat>, p: nat)
    requires Placed(pages, tabs, homes, records) && Housed(owner, records)
    ensures p !in pages ==> NoRecordOn(records, p)
    ensures p in owner && TableOf(owner[p]) < 0 ==> NoRecordOn(records, p)
    ensures p in pages && NoRows(pages[p].slots) ==> NoRecordOn(records, p)
  {
    hide Headless;
    forall k | k in records ensures InSlot(pages, k) {
    }
  }

  /** A page becomes blank that has no record of a table. */
  lemma PageBlanked(disk: map<nat, Page>, pages: map<nat, Page>, tabs: map<nat, Tab>, homes: map<nat, Key>, records: map<Key, nat>, p: nat, g: Page)
    requires Mirrors(disk, pages, tabs, records) && Placed(pages, tabs, homes, records)
    requires NoRows(g.slots) && NoRecordOn(records, p)
    ensures Mirrors(disk[p := g], pages[p := g], tabs, records) && Placed(pages[p := g], tabs, homes, records)
  {
    hide OnDisk, Placed, Headless;
    EmptyOnDisk(tabs, records);
    BlankHasNone(pages, tabs, homes, records, p, g);
  }

  lemma EmptyOnDisk(tabs: map<nat, Tab>, records: map<Key, nat>)
    ensures forall k :: OnDisk(None, tabs, records, k) == None
  {
  }

  lemma BlankHasNone(pages: map<nat, Page>, tabs: map<nat, Tab>, homes: map<nat, Key>, records: map<Key, nat>, p: nat, g: Page)
    requires Placed(pages, tabs, homes, records) && NoRecordOn(records, p)
    ensures Placed(pages[p := g], tabs, homes, records)
  {
    hide Headless;
    forall k | k in records ensures InSlot(pages[p := g], k) {
      assert InSlot(pages, k);
    }
  }

  /** The slots on disk are taken where the engine sees them taken. */
  lemma TakenAlike(disk: map<nat, Page>, pages: map<nat, Page>, tabs: map<nat, Tab>, records: map<Key, nat>, p: nat)
    requires Mirrors(disk, pages, tabs, records) && p in pages
    ensures p in disk && |disk[p].slots| == |pages[p].slots|
    ensures forall r :: 0 <= r < |pages[p].slots| ==> (disk[p].slots[r].Some? <==> pages[p].slots[r].Some?)
  {
    hide WithHeads, Headless;
  }

  /** Slots that are taken alike look the same to the page operations. */
  lemma AlikeSlots(a: Slots, b: Slots)
    requires |a| == |b| && forall r :: 0 <= r < |a| ==> (a[r].Some? <==> b[r].Some?)
    ensures FirstEmpty(a) == FirstEmpty(b) && (NoRows(a) <==> NoRows(b)) && (IsFull(a) <==> IsFull(b))
  {
  }

  /** The extents lie where they lay. */
  lemma ApartAlike(disk: map<nat, Page>, pages: map<nat, Page>, p: nat, g: Page)
    requires disk.Keys == pages.Keys && (forall q :: q in pages ==> SameShape(disk[q], pages[q])) && Apart(pages[p := g])
    ensures Apart(disk[p := g])
  {
    var d := disk[p := g];
    forall a | a in d ensures d[a].scale == pages[p := g][a].scale {
    }
  }

  /** The page with the record of a table, with these list heads in it. */
  ghost function Headed(disk: map<nat, Page>, pages: map<nat, Page>, k: Key, tab: Tab): map<nat, Page>
    requires InSlot(pages, k) && k.page in disk && |disk[k.page].slots| == |pages[k.page].slots|
  {
    var row := WithHeads(pages[k.page].slots[k.row].value, tab);
    disk[k.page := disk[k.page].(slots := disk[k.page].slots[k.row := Some(row)])]
  }

  /** The list heads of a table have changed. */
  lemma HeadsStored(disk: map<nat, Page>, pages: map<nat, Page>, tabs: map<nat, Tab>, homes: map<nat, Key>, records: map<Key, nat>, t: nat, tab: Tab)
    requires Mirrors(disk, pages, tabs, records) && Placed(pages, tabs, homes, records) && t in homes
    ensures InSlot(pages, homes[t]) && homes[t].page in disk && |disk[homes[t].page].slots| == |pages[homes[t].page].slots|
    ensures Mirrors(Headed(disk, pages, homes[t], tab), pages, tabs[t := tab], records)
    ensures Placed(pages, tabs[t := tab], homes, records)
  {
    hide WithHeads, Placed, Headless;
    OnePlace(pages, tabs, homes, records, t, tab);
    var k := homes[t];
    assert k == Key(k.page, k.row);
    var d := Headed(disk, pages, k, tab);
    forall p, r | p in pages && 0 <= r < |pages[p].slots|
      ensures d[p].slots[r] == OnDisk(pages[p].slots[r], tabs[t := tab], records, Key(p, r))
    {
      assert disk[p].slots[r] == OnDisk(pages[p].slots[r], tabs, records, Key(p, r));
    }
  }

  lemma OnePlace(pages: map<nat, Page>, tabs: map<nat, Tab>, homes: map<nat, Key>, records: map<Key, nat>, t: nat, tab: Tab)
    requires Placed(pages, tabs, homes, records)
    ensures Placed(pages, tabs[t := tab], homes, records)
    ensures t in homes ==> InSlot(pages, homes[t]) && homes[t] in records && records[homes[t]] == t
    ensures forall k :: k in records && records[k] == t ==> t in homes && k == homes[t]
  {
    hide InSlot, Headless;
  }

  /** A table whose record has no place yet. */
  lemma NoPlace(disk: map<nat, Page>, pages: map<nat, Page>, tabs: map<nat, Tab>, homes: map<nat, Key>, records: map<Key, nat>, t: nat, tab: Tab)
    requires Mirrors(disk, pages, tabs, records) && Placed(pages, tabs, homes, records) && t !in homes
    ensures Mirrors(disk, pages, tabs[t := tab], records) && Placed(pages, tabs[t := tab], homes, records)
  {
    hide WithHeads, Placed, Headless;
    OnePlace(pages, tabs, homes, records, t, tab);
    forall p, r | p in pages && 0 <= r < |pages[p].slots|
      ensures disk[p].slots[r] == OnDisk(pages[p].slots[r], tabs[t := tab], records, Key(p, r))
    {
      assert disk[p].slots[r] == OnDisk(pages[p].slots[r], tabs, records, Key(p, r));
    }
  }

  /** The record of a table gets its place. */
  lemma RecordPlaced(disk: map<nat, Page>, pages: map<nat, Page>, tabs: map<nat, Tab>, homes: map<nat, Key>, records: map<Key, nat>, t: nat, k: Key)
    requires Mirrors(disk, pages, tabs, records) && Placed(pages, tabs, homes, records)
    requires t in tabs && t !in homes && InSlot(pages, k) && k !in records
    ensures k.page in disk && |disk[k.page].slots| == |pages[k.page].slots|
    ensures Mirrors(Headed(disk, pages, k, tabs[t]), pages, tabs, records[k := t])
    ensures Placed(pages, tabs, homes[t := k], records[k := t])
  {
    hide WithHeads, Placed, Headless;
    assert k == Key(k.page, k.row);
    OneMorePlace(pages, tabs, homes, records, t, k);
    var d := Headed(disk, pages, k, tabs[t]);
    forall p, r | p in pages && 0 <= r < |pages[p].slots|
      ensures d[p].slots[r] == OnDisk(pages[p].slots[r], tabs, records[k := t], Key(p, r))
    {
      assert disk[p].slots[r] == OnDisk(pages[p].slots[r], tabs, records, Key(p, r));
    }
  }

  lemma OneMorePlace(pages: map<nat, Page>, tabs: map<nat, Tab>, homes: map<nat, Key>, records: map<Key, nat>, t: nat, k: Key)
    requires Placed(pages, tabs, homes, records) && t in tabs && t !in homes && InSlot(pages, k) && k !in records
    ensures Placed(pages, tabs, homes[t := k], records[k := t])
  {
    hide InSlot, Headless;
  }

  lemma SlotLength(m: seq<byte>, rowSize: nat, scale: nat, r: nat)
    requires MappedPage.Shape(|m|, rowSize, scale) && r < Capacity(rowSize, scale)
    ensures MappedPage.SlotAt(m, rowSize, scale, r).Some? ==> |MappedPage.SlotAt(m, rowSize, scale, r).value| == rowSize
  {
    hide Capacity, MappedPage.Taken, RowOffset;
    MappedPage.SlotInside(rowSize, scale, r);
  }

  /** Rows on a page have its row size. */
  lemma RowLength(file: seq<byte>, disk: map<nat, Page>, p: nat, r: nat)
    requires Image(file, disk) && p in disk && r < |disk[p].slots| && disk[p].slots[r].Some?
    ensures |disk[p].slots[r].value| == disk[p].rowSize
  {
    hide Apart, Window, MappedPage.RecordAt, Capacity, MappedPage.SlotAt, MappedPage.PaddingClear;
    assert Inside(file, p, disk[p]);
    var g := disk[p];
    var m := Window(file, p, g.scale);
    assert MappedPage.SlotsOf(m, g.rowSize, g.scale)[r] == MappedPage.SlotAt(m, g.rowSize, g.scale, r);
    SlotLength(m, g.rowSize, g.scale, r);
  }

  /** The list heads are written into the mapped record of a table. */
  method WriteHeads(file: seq<byte>, ghost disk: map<nat, Page>, ghost pages: map<nat, Page>, ghost tabs: map<nat, Tab>,
                    ghost records: map<Key, nat>, k: Key, row: Row, tab: Tab) returns (now: seq<byte>)
    requires Image(file, disk) && Mirrors(disk, pages, tabs, records) && InSlot(pages, k) && row == pages[k.page].slots[k.row].value
    ensures k.page in disk && |disk[k.page].slots| == |pages[k.page].slots|
    ensures Image(now, Headed(disk, pages, k, tab)) && |now| == |file| && Header(now) == Header(file)
  {
    hide Image, Header, WithHeads, Headless;
    assert disk[k.page].slots[k.row] == OnDisk(pages[k.page].slots[k.row], tabs, records, Key(k.page, k.row));
    RowLength(file, disk, k.page, k.row);
    var status;
    now, status := ReplaceIn(file, disk, k.page, k.row, WithHeads(row, tab));
  }
}
