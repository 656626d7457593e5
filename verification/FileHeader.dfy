/** Page 0, the file header, taken for a table page: what a cursor over an empty list reads. */
module FileHeader {
  import opened Bytes
  import opened PageLayout
  import opened PageRows
  import opened MappedPage
  import opened StorageModel
  import opened FileImage
  import opened ListHeads
  import opened StorageFrames
  import opened StorageEngine

  /** The page header record at the start of a mapped extent. */
  function PageRecordAt(m: seq<byte>, slots: Slots): Page
    requires |m| >= PAGE_RECORD_SIZE
  {
    var r := RecordAt(m);
    Page(r.rowSize, r.scale, r.prev, r.next, slots)
  }

  lemma U32OfHalves(b: seq<byte>)
    requires |b| == 4
    ensures U32(b) == U16(b[..2]) + 0x1_0000 * U16(b[2..])
  {
  }

  lemma EncodedHalves(v: nat)
    requires v < 0x1_0000_0000
    ensures U16(EncodeU32(v)[..2]) == v % 0x1_0000 && U16(EncodeU32(v)[2..]) == v / 0x1_0000
  {
    hide U16, U32, EncodeU32;
    U32OfHalves(EncodeU32(v));
  }

  /** Where the halves of each field of a page record fall in the file header. */
  lemma HeaderPieces(m: seq<byte>, tablesNumber: nat, pagesNumber: nat)
    requires tablesNumber < 0x1_0000 && pagesNumber < 0x1_0000_0000 && |m| >= SYS_PAGE_SIZE
    requires m[..12] == HeaderBytes(tablesNumber, pagesNumber) && m[12] == 0 && m[13] == 0
    ensures m[0..4] == EncodeU16(HEADER_MAGIC) + EncodeU16(RESERVED_TO_FILE_META)
    ensures m[4..6] == EncodeU16(tablesNumber)
    ensures m[6..10] == [0, 0] + EncodeU32(pagesNumber)[..2]
    ensures m[10..14] == EncodeU32(pagesNumber)[2..] + [0, 0]
  {
    hide EncodeU16, EncodeU32;
    var h := HeaderBytes(tablesNumber, pagesNumber);
    var e := EncodeU32(pagesNumber);
    forall i | 0 <= i < 12 ensures m[i] == h[i] {
      assert m[i] == m[..12][i];
    }
    assert h[0..4] == EncodeU16(HEADER_MAGIC) + EncodeU16(RESERVED_TO_FILE_META);
    assert h[4..6] == EncodeU16(tablesNumber);
    assert h[6..10] == [0, 0] + e[..2];
    assert h[10..12] == e[2..];
  }

  lemma HeaderFields(m: seq<byte>, tablesNumber: nat, pagesNumber: nat, slots: Slots)
    requires tablesNumber < 0x1_0000 && pagesNumber < 0x1_0000_0000 && |m| >= SYS_PAGE_SIZE
    requires m[..12] == HeaderBytes(tablesNumber, pagesNumber) && m[12] == 0 && m[13] == 0
    ensures PageRecordAt(m, slots) ==
      Page(HEADER_MAGIC + 0x1_0000 * RESERVED_TO_FILE_META, tablesNumber,
           0x1_0000 * (pagesNumber % 0x1_0000), pagesNumber / 0x1_0000, slots)
  {
    hide U16, U32, EncodeU16, EncodeU32, HeaderBytes;
    HeaderPieces(m, tablesNumber, pagesNumber);
    EncodedHalves(pagesNumber);
    Joined(EncodeU16(HEADER_MAGIC), EncodeU16(RESERVED_TO_FILE_META));
    Joined([0, 0], EncodeU32(pagesNumber)[..2]);
    Joined(EncodeU32(pagesNumber)[2..], [0, 0]);
    ZeroHalf();
  }

  lemma Joined(a: seq<byte>, b: seq<byte>)
    requires |a| == 2 && |b| == 2
    ensures U32(a + b) == U16(a) + 0x1_0000 * U16(b)
  {
    hide U16, U32;
    U32OfHalves(a + b);
    assert (a + b)[..2] == a && (a + b)[2..] == b;
  }

  lemma ZeroHalf()
    ensures U16([0, 0]) == 0
  {
  }

  /** The bitmap of page 0 never gets past its first 4096 bytes. */
  lemma HeaderBitmap(rowSize: nat, tablesNumber: nat)
    requires rowSize == HEADER_MAGIC + 0x1_0000 * RESERVED_TO_FILE_META && 1 <= tablesNumber < 0x1_0000
    ensures HeaderSize(rowSize, tablesNumber) <= SYS_PAGE_SIZE
  {
    var c := Capacity(rowSize, tablesNumber);
    CapacityExact(rowSize, tablesNumber, c);
    if c > 2000 {
      Multiples(rowSize, 2000, c);
    }
  }

  /**
   * The mapped bytes of page 0 read exactly as the page that the engine's cursor uses there:
   * no occupied row, and a link to page `pagesNumber / 65536`.
   */
  lemma HeaderReadsAsPage(m: seq<byte>, tablesNumber: nat, pagesNumber: nat)
    requires 1 <= tablesNumber < 0x1_0000 && pagesNumber < 0x1_0000_0000
    requires |m| == SYS_PAGE_SIZE * tablesNumber
    requires m[..12] == HeaderBytes(tablesNumber, pagesNumber)
    requires forall j :: 12 <= j < SYS_PAGE_SIZE ==> m[j] == 0
    ensures var g := HeaderPage(tablesNumber, pagesNumber);
      Shape(|m|, g.rowSize, g.scale) && PageRecordAt(m, SlotsOf(m, g.rowSize, g.scale)) == g
  {
    hide U16, U32, Capacity, HeaderBytes, SlotsOf;
    var g := HeaderPage(tablesNumber, pagesNumber);
    HeaderBitmap(g.rowSize, tablesNumber);
    HeaderFields(m, tablesNumber, pagesNumber, g.slots);
    UnusedBytes(m, g.rowSize, g.scale);
    assert SlotsOf(m, g.rowSize, g.scale) == g.slots;
  }

  /** So does page 0 of a file whose bytes stand for it, as far as the file reaches. */
  lemma HeaderOnFile(st: Storage)
    requires st.Good() && st.tablesNumber < 0x1_0000 && SYS_PAGE_SIZE * st.tablesNumber <= |st.bytes|
    ensures var m := st.bytes[..SYS_PAGE_SIZE * st.tablesNumber]; var g := st.PageImage(0);
      Shape(|m|, g.rowSize, g.scale) && PageRecordAt(m, SlotsOf(m, g.rowSize, g.scale)) == g
  {
    hide Image, Mirrors, Placed, Housed, HeaderBytes, Geometry, Lists, Occupancy, Records, HeaderPage, SlotsOf, Capacity, NoMoving, Transits;
    var m, h := st.bytes[..SYS_PAGE_SIZE * st.tablesNumber], Header(st.bytes);
    assert m[..HEADER_SIZE] == h[..HEADER_SIZE];
    forall j | HEADER_SIZE <= j < SYS_PAGE_SIZE ensures m[j] == 0 {
      assert m[j] == h[j];
    }
    HeaderReadsAsPage(m, st.tablesNumber, st.pagesNumber);
  }
}
