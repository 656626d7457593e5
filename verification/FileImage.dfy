/**
 * The file as bytes: what it means that they stand for the pages of the engine, and every change
 * that the engine makes to a page, made in the bytes by the operations on mapped memory.
 */
module FileImage {
  import opened Bytes
  import opened PageLayout
  import opened PageRows
  import opened MappedPage
  import opened StorageModel
  import ChunkCache

  const HEADER_MAGIC: nat := 0x7F38

  /** The record in page 0: magic number, data offset, table count, two bytes of padding, page count. */
  function HeaderBytes(tablesNumber: nat, pagesNumber: nat): (b: seq<byte>)
    requires tablesNumber < 0x1_0000 && pagesNumber < 0x1_0000_0000
    ensures |b| == HEADER_SIZE
  {
    EncodeU16(HEADER_MAGIC) + EncodeU16(RESERVED_TO_FILE_META) + EncodeU16(tablesNumber) + [0, 0] + EncodeU32(pagesNumber)
  }

  const HEADER_SIZE: nat := 12

  /** Page 0. */
  function Header(file: seq<byte>): seq<byte> {
    if |file| < SYS_PAGE_SIZE then file else file[..SYS_PAGE_SIZE]
  }

  /** A page with nothing behind the record. */
  ghost predicate ClearBehind(h: seq<byte>) {
    |h| == SYS_PAGE_SIZE && forall j :: HEADER_SIZE <= j < SYS_PAGE_SIZE ==> h[j] == 0
  }

  /** Page 0 has the two counters, of 16 and 32 bits. */
  ghost predicate Counts(h: seq<byte>, tablesNumber: nat, pagesNumber: nat) {
    ClearBehind(h) && h[..HEADER_SIZE] == HeaderBytes(tablesNumber % 0x1_0000, pagesNumber % 0x1_0000_0000)
  }

  /** The bytes of an extent stand for the page: header record, rows, and clear padding. */
  ghost predicate StandsFor(m: seq<byte>, g: Page) {
    && Shape(|m|, g.rowSize, g.scale)
    && RecordAt(m) == PageRecord(g.rowSize, g.scale, g.prev, g.next)
    && SlotsOf(m, g.rowSize, g.scale) == g.slots && PaddingClear(m, g.rowSize, g.scale)
  }

  /** The bytes of the extent at page `p`. */
  function Window(file: seq<byte>, p: nat, scale: nat): (m: seq<byte>)
    requires (p + scale) * SYS_PAGE_SIZE <= |file|
    ensures |m| == SYS_PAGE_SIZE * scale
  {
    file[p * SYS_PAGE_SIZE..(p + scale) * SYS_PAGE_SIZE]
  }

  /** The extents do not overlap, and start behind page 0 and below the limit of byte offsets. */
  ghost predicate Apart(pages: map<nat, Page>) {
    && (forall p :: p in pages ==> pages[p].scale >= 1 && 1 <= p < PAGES_LIMIT)
    && forall p, q :: p in pages && q in pages && p < q ==> p + pages[p].scale <= q
  }

  ghost predicate Inside(file: seq<byte>, p: nat, g: Page) {
    (p + g.scale) * SYS_PAGE_SIZE <= |file| && StandsFor(Window(file, p, g.scale), g)
  }

  /** The bytes of the file stand for all the pages. */
  ghost predicate Image(file: seq<byte>, pages: map<nat, Page>) {
    Apart(pages) && forall p :: p in pages ==> Inside(file, p, pages[p])
  }

  /** The file with the bytes from page `p` on replaced. */
  function Patched(file: seq<byte>, p: nat, m: seq<byte>): (r: seq<byte>)
    requires p * SYS_PAGE_SIZE + |m| <= |file|
    ensures |r| == |file|
  {
    file[..p * SYS_PAGE_SIZE] + m + file[p * SYS_PAGE_SIZE + |m|..]
  }

  lemma PatchHere(file: seq<byte>, p: nat, m: seq<byte>, scale: nat)
    requires |m| == SYS_PAGE_SIZE * scale && (p + scale) * SYS_PAGE_SIZE <= |file|
    ensures Window(Patched(file, p, m), p, scale) == m
  {
  }

  lemma PatchElsewhere(file: seq<byte>, p: nat, m: seq<byte>, scale: nat, q: nat, scale': nat)
    requires |m| == SYS_PAGE_SIZE * scale && (p + scale) * SYS_PAGE_SIZE <= |file| && (q + scale') * SYS_PAGE_SIZE <= |file|
    requires q + scale' <= p || p + scale <= q
    ensures Window(Patched(file, p, m), q, scale') == Window(file, q, scale')
  {
    var a, b := Window(Patched(file, p, m), q, scale'), Window(file, q, scale');
    assert |a| == |b|;
    forall i | 0 <= i < |a| ensures a[i] == b[i] {
    }
  }

  /** Page 0 is behind no extent. */
  lemma PatchBehind(file: seq<byte>, p: nat, m: seq<byte>)
    requires p >= 1 && p * SYS_PAGE_SIZE + |m| <= |file|
    ensures Header(Patched(file, p, m)) == Header(file)
  {
    var a, b := Header(Patched(file, p, m)), Header(file);
    forall i | 0 <= i < |a| ensures a[i] == b[i] {
    }
  }

  /** Replacing one extent by bytes that stand for another page replaces that page alone. */
  lemma PatchKeeps(file: seq<byte>, pages: map<nat, Page>, p: nat, m: seq<byte>, g: Page)
    requires Image(file, pages) && Apart(pages[p := g]) && StandsFor(m, g) && (p + g.scale) * SYS_PAGE_SIZE <= |file|
    ensures Image(Patched(file, p, m), pages[p := g]) && Header(Patched(file, p, m)) == Header(file)
  {
    hide StandsFor, Patched, Window, Header;
    assert |m| == SYS_PAGE_SIZE * g.scale by { StandsSize(m, g); }
    var now := pages[p := g];
    assert p in now;
    PatchBehind(file, p, m);
    forall q | q in now ensures Inside(Patched(file, p, m), q, now[q]) {
      if q == p {
        PatchHere(file, p, m, g.scale);
      } else {
        assert Inside(file, q, pages[q]);
        assert q + now[q].scale <= p || p + g.scale <= q;
        PatchElsewhere(file, p, m, g.scale, q, now[q].scale);
      }
    }
  }

  lemma StandsSize(m: seq<byte>, g: Page)
    requires StandsFor(m, g)
    ensures |m| == SYS_PAGE_SIZE * g.scale && |m| >= PAGE_RECORD_SIZE
  {
    hide Capacity;
  }

  /**
   * All pages of a file in order lie where the chunk cache computes their bytes right, and their
   * extents do not overlap.
   */
  lemma ReachedRight(v: View)
    requires Inv(v, 0)
    ensures Apart(v.pages)
    ensures forall p :: p in v.pages ==> p < ChunkCache.BYTE_LIMIT && ChunkCache.Bytes32(p) == p * SYS_PAGE_SIZE
    ensures forall p :: p in v.pages ==> p + v.pages[p].scale <= v.pagesNumber
  {
    hide Lists, Occupancy, Records, Capacity;
    forall q | q in v.pages ensures v.pages[q].scale >= 1 {
      assert PageOk(v.pages[q]);
    }
  }

  // ---------------------------------------------------------------- the operations on the file

  /** The extent of page `p`, mapped. */
  method Map(file: seq<byte>, p: nat, scale: nat) returns (mem: array<byte>)
    requires (p + scale) * SYS_PAGE_SIZE <= |file|
    ensures fresh(mem) && mem[..] == Window(file, p, scale)
  {
    var m := Window(file, p, scale);
    mem := new byte[|m|](i requires 0 <= i < |m| => m[i]);
    assert mem[..] == m;
  }

  /** What was done to a mapped extent is done to the file. */
  method Unmap(file: seq<byte>, ghost pages: map<nat, Page>, p: nat, mem: array<byte>, ghost g: Page) returns (now: seq<byte>)
    requires Image(file, pages) && StandsFor(mem[..], g) && Apart(pages[p := g]) && (p + g.scale) * SYS_PAGE_SIZE <= |file|
    ensures Image(now, pages[p := g]) && |now| == |file| && Header(now) == Header(file)
  {
    hide Image, StandsFor, Apart;
    StandsSize(mem[..], g);
    PatchKeeps(file, pages, p, mem[..], g);
    now := Patched(file, p, mem[..]);
  }

  /** `read_page_meta`, through a mapping of one page. */
  method ReadMeta(file: seq<byte>, ghost pages: map<nat, Page>, p: nat) returns (r: PageRecord)
    requires Image(file, pages) && p in pages
    ensures r == PageRecord(pages[p].rowSize, pages[p].scale, pages[p].prev, pages[p].next) && Storable(r)
    ensures Apart(pages) && (p + r.scale) * SYS_PAGE_SIZE <= |file| && StandsFor(Window(file, p, r.scale), pages[p])
  {
    hide StandsFor, Window, RecordAt;
    assert Inside(file, p, pages[p]);
    FirstPageReads(file, p, pages[p]);
    r := RecordAt(Window(file, p, 1));
  }

  /** `write_page_meta` and the link updates: the page has new links. */
  method WriteMeta(file: seq<byte>, ghost pages: map<nat, Page>, p: nat, prev: nat, next: nat) returns (now: seq<byte>)
    requires Image(file, pages) && p in pages && prev < 0x1_0000_0000 && next < 0x1_0000_0000
    ensures Image(now, pages[p := pages[p].(prev := prev, next := next)]) && |now| == |file| && Header(now) == Header(file)
  {
    hide Image, Window, RecordAt, SlotsOf, Capacity, PaddingClear, Apart;
    var r := ReadMeta(file, pages, p);
    var mem := Map(file, p, r.scale);
    ghost var g := pages[p].(prev := prev, next := next);
    WritePageMeta(mem, PageRecord(r.rowSize, r.scale, prev, next), r.rowSize, r.scale);
    ApartKept(pages, p, g);
    now := Unmap(file, pages, p, mem, g);
  }

  /** Pages of the file have numbers of 32 bits, and so have their links. */
  lemma PageBelow(file: seq<byte>, pages: map<nat, Page>, p: nat)
    requires Image(file, pages)
    ensures p in pages ==> p < 0x1_0000_0000 && pages[p].prev < 0x1_0000_0000 && pages[p].next < 0x1_0000_0000
  {
    hide StandsFor, Window, RecordAt;
    if p in pages {
      assert Inside(file, p, pages[p]);
      FirstPageReads(file, p, pages[p]);
    }
  }

  /** Only the link to the next page changes. */
  method SetNextIn(file: seq<byte>, ghost pages: map<nat, Page>, p: nat, next: nat) returns (now: seq<byte>)
    requires Image(file, pages) && p in pages && next < 0x1_0000_0000
    ensures Image(now, pages[p := pages[p].(next := next)]) && |now| == |file| && Header(now) == Header(file)
  {
    hide Image, StandsFor, Apart;
    var r := ReadMeta(file, pages, p);
    now := WriteMeta(file, pages, p, r.prev, next);
    assert pages[p].(prev := r.prev, next := next) == pages[p].(next := next);
  }

  /** Only the link to the page before changes. */
  method SetPrevIn(file: seq<byte>, ghost pages: map<nat, Page>, p: nat, prev: nat) returns (now: seq<byte>)
    requires Image(file, pages) && p in pages && prev < 0x1_0000_0000
    ensures Image(now, pages[p := pages[p].(prev := prev)]) && |now| == |file| && Header(now) == Header(file)
  {
    hide Image, StandsFor, Apart;
    var r := ReadMeta(file, pages, p);
    now := WriteMeta(file, pages, p, prev, r.next);
    assert pages[p].(prev := prev, next := r.next) == pages[p].(prev := prev);
  }

  /** `create_page`: a new extent, or one that was there. */
  method BlankPage(file: seq<byte>, ghost pages: map<nat, Page>, p: nat, rowSize: nat, scale: nat) returns (now: seq<byte>)
    requires Image(file, pages) && Mappable(rowSize, scale)
    requires Apart(pages[p := FreshPage(rowSize, scale)]) && (p + scale) * SYS_PAGE_SIZE <= |file|
    ensures Image(now, pages[p := FreshPage(rowSize, scale)]) && |now| == |file| && Header(now) == Header(file)
  {
    hide Image, Window, RecordAt, SlotsOf, Capacity, PaddingClear, Apart, HeaderSize;
    var mem := Map(file, p, scale);
    CreatePage(mem, rowSize, scale, 0);
    BlankSlots(SlotsOf(mem[..], rowSize, scale), rowSize, scale);
    now := Unmap(file, pages, p, mem, FreshPage(rowSize, scale));
  }

  /** `find_and_write_row`. */
  method FindAndWrite(file: seq<byte>, ghost pages: map<nat, Page>, p: nat, row: Row) returns (now: seq<byte>, status: WriteStatus, r: nat)
    requires Image(file, pages) && p in pages && |row| == pages[p].rowSize
    ensures var (slots, s, i) := FindAndWriteRow(pages[p].slots, row);
      status == s && r == i && Image(now, pages[p := pages[p].(slots := slots)]) && |now| == |file| && Header(now) == Header(file)
  {
    hide Image, Window, RecordAt, SlotsOf, Capacity, PaddingClear, Apart, FirstEmpty, PageRows.WriteRow;
    var h := ReadMeta(file, pages, p);
    var mem := Map(file, p, h.scale);
    ghost var was := mem[..];
    var free := FindEmptyRow(mem, h.rowSize, h.scale);
    if free == -1 {
      status, r := WriteOutOfBound, 0;
    } else {
      r := free;
      status := MappedPage.WriteRow(mem, h.rowSize, h.scale, free, row);
    }
    SameRecord(was, mem[..]);
    ghost var g := pages[p].(slots := SlotsOf(mem[..], h.rowSize, h.scale));
    ApartKept(pages, p, g);
    now := Unmap(file, pages, p, mem, g);
  }

  /** `replace_row`. */
  method ReplaceIn(file: seq<byte>, ghost pages: map<nat, Page>, p: nat, index: nat, row: Row) returns (now: seq<byte>, status: WriteStatus)
    requires Image(file, pages) && p in pages && |row| == pages[p].rowSize
    ensures var (slots, s) := PageRows.ReplaceRow(pages[p].slots, index, row);
      status == s && Image(now, pages[p := pages[p].(slots := slots)]) && |now| == |file| && Header(now) == Header(file)
  {
    hide Image, Window, RecordAt, SlotsOf, Capacity, PaddingClear, Apart, PageRows.ReplaceRow;
    var h := ReadMeta(file, pages, p);
    var mem := Map(file, p, h.scale);
    ghost var was := mem[..];
    status := MappedPage.ReplaceRow(mem, h.rowSize, h.scale, index, row);
    SameRecord(was, mem[..]);
    ghost var g := pages[p].(slots := SlotsOf(mem[..], h.rowSize, h.scale));
    ApartKept(pages, p, g);
    now := Unmap(file, pages, p, mem, g);
  }

  /** `remove_row`. */
  method RemoveFrom(file: seq<byte>, ghost pages: map<nat, Page>, p: nat, index: nat) returns (now: seq<byte>, status: RemoveStatus)
    requires Image(file, pages) && p in pages
    ensures var (slots, s) := PageRows.RemoveRow(pages[p].slots, index);
      status == s && Image(now, pages[p := pages[p].(slots := slots)]) && |now| == |file| && Header(now) == Header(file)
  {
    hide Image, Window, RecordAt, SlotsOf, Capacity, PaddingClear, Apart, PageRows.RemoveRow;
    var h := ReadMeta(file, pages, p);
    var mem := Map(file, p, h.scale);
    ghost var was := mem[..];
    status := MappedPage.RemoveRow(mem, h.rowSize, h.scale, index);
    SameRecord(was, mem[..]);
    ghost var g := pages[p].(slots := SlotsOf(mem[..], h.rowSize, h.scale));
    ApartKept(pages, p, g);
    now := Unmap(file, pages, p, mem, g);
  }

  /** `posix_fallocate`: the file has so many pages; what was in it stays. */
  method Grow(file: seq<byte>, ghost pages: map<nat, Page>, pagesNumber: nat) returns (now: seq<byte>)
    requires Image(file, pages)
    ensures Image(now, pages) && file <= now && forall j :: |file| <= j < |now| ==> now[j] == 0
    ensures |now| == if |file| < pagesNumber * SYS_PAGE_SIZE then pagesNumber * SYS_PAGE_SIZE else |file|
    ensures |file| >= SYS_PAGE_SIZE ==> Header(now) == Header(file)
    ensures |file| == 0 < pagesNumber ==> ClearBehind(Header(now))
  {
    hide *;
    var missing := pagesNumber * SYS_PAGE_SIZE - |file|;
    var more := if missing > 0 then seq(missing, _ => 0) else [];
    now := file + more;
    GrownImage(file, more, pages);
    GrownHeader(file, more);
  }

  /** What was in the file stays. */
  lemma GrownImage(file: seq<byte>, more: seq<byte>, pages: map<nat, Page>)
    requires Image(file, pages)
    ensures Image(file + more, pages)
  {
    hide StandsFor, Apart;
    forall p | p in pages ensures Inside(file + more, p, pages[p]) {
      assert Inside(file, p, pages[p]);
      assert Window(file + more, p, pages[p].scale) == Window(file, p, pages[p].scale);
    }
  }

  lemma GrownHeader(file: seq<byte>, more: seq<byte>)
    ensures |file| >= SYS_PAGE_SIZE ==> Header(file + more) == Header(file)
    ensures |file| == 0 && |more| >= SYS_PAGE_SIZE && (forall i :: 0 <= i < |more| ==> more[i] == 0) ==> ClearBehind(Header(file + more))
  {
    if |file| >= SYS_PAGE_SIZE {
      assert (file + more)[..SYS_PAGE_SIZE] == file[..SYS_PAGE_SIZE];
    }
  }

  /** The counters are written. */
  method WriteCounts(file: seq<byte>, ghost pages: map<nat, Page>, tablesNumber: nat, pagesNumber: nat) returns (now: seq<byte>)
    requires Image(file, pages) && ClearBehind(Header(file))
    ensures Image(now, pages) && Counts(Header(now), tablesNumber, pagesNumber) && |now| == |file|
  {
    hide StandsFor, HeaderBytes;
    now := HeaderBytes(tablesNumber % 0x1_0000, pagesNumber % 0x1_0000_0000) + file[HEADER_SIZE..];
    forall p | p in pages ensures Inside(now, p, pages[p]) {
      assert Inside(file, p, pages[p]);
      assert Window(now, p, pages[p].scale) == Window(file, p, pages[p].scale);
    }
    forall j | HEADER_SIZE <= j < SYS_PAGE_SIZE ensures Header(now)[j] == 0 {
      assert Header(now)[j] == Header(file)[j];
    }
  }

  lemma ApartKept(pages: map<nat, Page>, p: nat, g: Page)
    requires Apart(pages) && p in pages && g.scale == pages[p].scale
    ensures Apart(pages[p := g])
  {
  }

  lemma BlankSlots(s: Slots, rowSize: nat, scale: nat)
    requires scale >= 1 && NoRows(s) && |s| == Capacity(rowSize, scale)
    ensures s == FreshPage(rowSize, scale).slots
  {
    hide Capacity;
  }

  lemma SameRecord(m: seq<byte>, n: seq<byte>)
    requires |m| >= PAGE_RECORD_SIZE && |n| >= PAGE_RECORD_SIZE && m[..PAGE_RECORD_SIZE] == n[..PAGE_RECORD_SIZE]
    ensures RecordAt(m) == RecordAt(n)
  {
    hide U16, U32;
    var a, b := m[..PAGE_RECORD_SIZE], n[..PAGE_RECORD_SIZE];
    assert m[0..4] == a[0..4] && n[0..4] == b[0..4];
    assert m[4..6] == a[4..6] && n[4..6] == b[4..6];
    assert m[6..10] == a[6..10] && n[6..10] == b[6..10];
    assert m[10..14] == a[10..14] && n[10..14] == b[10..14];
  }

  /** The header record lies in the first page of the extent, and its numbers are what fits in it. */
  lemma FirstPageReads(file: seq<byte>, p: nat, g: Page)
    requires Inside(file, p, g)
    ensures g.scale >= 1 && (p + 1) * SYS_PAGE_SIZE <= |file|
    ensures RecordAt(Window(file, p, 1)) == PageRecord(g.rowSize, g.scale, g.prev, g.next)
    ensures Storable(PageRecord(g.rowSize, g.scale, g.prev, g.next))
  {
    hide U16, U32, Capacity, SlotsOf, PaddingClear, RecordAt;
    var m := Window(file, p, g.scale);
    assert Window(file, p, 1)[..PAGE_RECORD_SIZE] == m[..PAGE_RECORD_SIZE];
    SameRecord(Window(file, p, 1), m);
    RecordFits(m);
  }

  lemma RecordFits(m: seq<byte>)
    requires |m| >= PAGE_RECORD_SIZE
    ensures Storable(RecordAt(m))
  {
  }
}
