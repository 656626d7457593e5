/**
 * One page extent as mapped memory: the 14-byte header, the occupancy bitmap and the row
 * slots, all in one buffer. Each operation is proved against the row-level operation of
 * `PageRows` on the slots that the buffer stands for.
 */
module MappedPage {
  import opened Common
  import opened Bytes
  import opened PageLayout
  import opened PageRows

  // ---------------------------------------------------------------- single bits

  /** The mask with only bit `k` set, counted from the most significant one. */
  function Mask(k: nat): byte
    requires k < 8
  {
    if k == 0 then 0x80 else if k == 1 then 0x40 else if k == 2 then 0x20 else if k == 3 then 0x10
    else if k == 4 then 0x08 else if k == 5 then 0x04 else if k == 6 then 0x02 else 0x01
  }

  /** Bit `k` of a byte, as `is_row_empty` tests it: shifted to the top. */
  predicate Bit(b: byte, k: nat)
    requires k < 8
  {
    (b << k) & 0x80 != 0
  }

  /** Both tests of a bit agree: shifting it to the top and masking it. */
  lemma ShiftIsMask(b: byte, k: nat)
    requires k < 8
    ensures Bit(b, k) <==> b & Mask(k) != 0
  {
    match k {
      case 0 => case 1 => case 2 => case 3 => case 4 => case 5 => case 6 => case 7 =>
    }
  }

  function WithBit(b: byte, k: nat, value: bool): byte
    requires k < 8
  {
    if value then b | Mask(k) else b & !Mask(k)
  }

  /** Setting or clearing bit `k` changes no other bit. */
  lemma OneBit(b: byte, k: nat, j: nat, value: bool)
    requires k < 8 && j < 8
    ensures Bit(WithBit(b, k, value), j) <==> if j == k then value else Bit(b, j)
  {
    hide Bit;
    ShiftIsMask(b, j);
    ShiftIsMask(WithBit(b, k, value), j);
  }

  lemma ZeroByte(b: byte)
    ensures b == 0 <==> forall k: nat :: k < 8 ==> !Bit(b, k)
  {
    if b != 0 {
      assert Bit(b, 0) || Bit(b, 1) || Bit(b, 2) || Bit(b, 3) || Bit(b, 4) || Bit(b, 5) || Bit(b, 6) || Bit(b, 7);
    }
  }

  // ---------------------------------------------------------------- the buffer

  /** The buffer is one extent, with header and bitmap in its first 4096 bytes. */
  ghost predicate Shape(len: nat, rowSize: nat, scale: nat) {
    scale >= 1 && len == SYS_PAGE_SIZE * scale && HeaderSize(rowSize, scale) <= SYS_PAGE_SIZE
  }

  ghost predicate Taken(m: seq<byte>, i: nat)
    requires PAGE_RECORD_SIZE + i / 8 < |m|
  {
    Bit(m[PAGE_RECORD_SIZE + i / 8], i % 8)
  }

  lemma SlotInside(rowSize: nat, scale: nat, i: nat)
    requires scale >= 1 && i < Capacity(rowSize, scale)
    ensures PAGE_RECORD_SIZE + i / 8 < HeaderSize(rowSize, scale) <= RowOffset(rowSize, scale, i)
    ensures RowOffset(rowSize, scale, i) + rowSize <= SYS_PAGE_SIZE * scale
  {
    SlotsDisjoint(rowSize, scale, i, Capacity(rowSize, scale));
  }

  ghost function SlotAt(m: seq<byte>, rowSize: nat, scale: nat, i: nat): Option<Row>
    requires Shape(|m|, rowSize, scale) && i < Capacity(rowSize, scale)
  {
    SlotInside(rowSize, scale, i);
    if Taken(m, i) then Some(m[RowOffset(rowSize, scale, i)..RowOffset(rowSize, scale, i) + rowSize]) else None
  }

  /** The row slots that the buffer stands for. */
  ghost function SlotsOf(m: seq<byte>, rowSize: nat, scale: nat): (s: Slots)
    requires Shape(|m|, rowSize, scale)
    ensures |s| == Capacity(rowSize, scale)
    ensures forall i :: 0 <= i < |s| ==> s[i] == SlotAt(m, rowSize, scale, i)
  {
    seq(Capacity(rowSize, scale), i requires 0 <= i < Capacity(rowSize, scale) => SlotAt(m, rowSize, scale, i))
  }

  /** The bits behind the last row, up to the end of the last bitmap byte, are zero. */
  ghost predicate PaddingClear(m: seq<byte>, rowSize: nat, scale: nat)
    requires Shape(|m|, rowSize, scale)
  {
    var n := Capacity(rowSize, scale);
    forall i: nat :: n <= i < 8 * BytesFor(n) ==> !Taken(m, i)
  }

  /** Only the flipped bit reads differently. */
  lemma FlippedBit(m: seq<byte>, n: seq<byte>, index: nat, value: bool)
    requires |m| == |n| && PAGE_RECORD_SIZE + index / 8 < |m|
    requires forall j :: 0 <= j < |m| && j != PAGE_RECORD_SIZE + index / 8 ==> n[j] == m[j]
    requires n[PAGE_RECORD_SIZE + index / 8] == WithBit(m[PAGE_RECORD_SIZE + index / 8], index % 8, value)
    ensures forall i: nat :: PAGE_RECORD_SIZE + i / 8 < |m| ==>
      (Taken(n, i) <==> if i == index then value else Taken(m, i))
  {
    hide Bit, Mask;
    forall i: nat | PAGE_RECORD_SIZE + i / 8 < |m|
      ensures Taken(n, i) <==> if i == index then value else Taken(m, i)
    {
      OneBit(m[PAGE_RECORD_SIZE + index / 8], index % 8, i % 8, value);
      if i / 8 == index / 8 && i % 8 == index % 8 {
        assert i == 8 * (i / 8) + i % 8 && index == 8 * (index / 8) + index % 8;
      }
    }
  }

  /** Writes the bit under the mask. */
  method FlipBit(mem: array<byte>, at: nat, k: nat, mask: byte, value: bool)
    requires at < mem.Length && k < 8 && mask == Mask(k)
    modifies mem
    ensures mem[at] == WithBit(old(mem[at]), k, value)
    ensures forall j :: 0 <= j < mem.Length && j != at ==> mem[j] == old(mem[j])
  {
    hide Bit, Mask;
    if value {
      mem[at] := mem[at] | mask;
    } else {
      mem[at] := mem[at] & !mask;
    }
  }

  /** `set_into_bitmap`: flips one bit, or reports that it already had the value. */
  method SetIntoBitmap(mem: array<byte>, index: nat, value: bool) returns (changed: bool)
    requires PAGE_RECORD_SIZE + index / 8 < mem.Length
    modifies mem
    ensures changed <==> Taken(old(mem[..]), index) != value
    ensures Taken(mem[..], index) == value
    ensures forall i: nat :: PAGE_RECORD_SIZE + i / 8 < mem.Length && i != index ==> Taken(mem[..], i) == Taken(old(mem[..]), i)
    ensures forall j :: 0 <= j < mem.Length && j != PAGE_RECORD_SIZE + index / 8 ==> mem[j] == old(mem[j])
  {
    hide Bit, Mask, WithBit;
    var at := PAGE_RECORD_SIZE + index / 8;
    var mask := Mask(index % 8);
    var masked := mask & mem[at];
    ShiftIsMask(mem[at], index % 8);
    if (masked != 0 && value) || (masked == 0 && !value) {
      return false;
    }
    FlipBit(mem, at, index % 8, mask, value);
    FlippedBit(old(mem[..]), mem[..], index, value);
    return true;
  }

  /** `is_row_empty`. */
  method IsRowEmpty(mem: array<byte>, index: nat) returns (empty: bool)
    requires PAGE_RECORD_SIZE + index / 8 < mem.Length
    ensures empty <==> !Taken(mem[..], index)
  {
    empty := (mem[PAGE_RECORD_SIZE + index / 8] << (index % 8)) & 0x80 == 0;
  }

  lemma NextMask(k: nat)
    requires k < 8
    ensures if k == 7 then Mask(k) >> 1 == 0 else Mask(k) >> 1 == Mask(k + 1) && Mask(k) >> 1 != 0
  {
  }

  lemma SlotTaken(m: seq<byte>, rowSize: nat, scale: nat, i: nat)
    requires Shape(|m|, rowSize, scale) && i < Capacity(rowSize, scale)
    ensures PAGE_RECORD_SIZE + i / 8 < |m|
    ensures SlotsOf(m, rowSize, scale)[i].Some? <==> Taken(m, i)
  {
    SlotInside(rowSize, scale, i);
  }

  /** `find_empty_row`: the first clear bit below the capacity, byte by byte. */
  method FindEmptyRow(mem: array<byte>, rowSize: nat, scale: nat) returns (r: int)
    requires Shape(mem.Length, rowSize, scale)
    ensures r == FirstEmpty(SlotsOf(mem[..], rowSize, scale))
  {
    hide Bit, Mask, SlotsOf, Capacity, Taken, FirstEmptyFrom, FirstEmpty;
    ghost var m := mem[..];
    ghost var slots := SlotsOf(m, rowSize, scale);
    var rows := Capacity(rowSize, scale);
    var i, at := 0, PAGE_RECORD_SIZE;
    while at < PAGE_RECORD_SIZE + BytesFor(rows)
      invariant i == 8 * (at - PAGE_RECORD_SIZE) && PAGE_RECORD_SIZE <= at <= PAGE_RECORD_SIZE + BytesFor(rows)
      invariant forall k :: 0 <= k < i && k < rows ==> slots[k].Some?
    {
      var mask, inByte := 0x80 as byte, 0;
      FirstMask();
      while true
        invariant 0 <= inByte < 8 && mask == Mask(inByte) && i + inByte < rows
        invariant forall k :: 0 <= k < i + inByte ==> slots[k].Some?
        decreases 8 - inByte
      {
        BitOfSlot(m, rowSize, scale, at, i, inByte);
        if mem[at] & mask == 0 {
          return i + inByte;
        }
        NextMask(inByte);
        inByte := inByte + 1;
        mask := mask >> 1;
        if mask == 0 || i + inByte >= rows {
          break;
        }
      }
      i, at := i + 8, at + 1;
    }
    return -1;
  }

  lemma FirstMask()
    ensures Mask(0) == 0x80
  {
  }

  lemma BitOfSlot(m: seq<byte>, rowSize: nat, scale: nat, at: nat, i: nat, k: nat)
    requires Shape(|m|, rowSize, scale) && i + k < Capacity(rowSize, scale)
    requires at >= PAGE_RECORD_SIZE && i == 8 * (at - PAGE_RECORD_SIZE) && k < 8
    ensures at < |m| && (SlotsOf(m, rowSize, scale)[i + k].Some? <==> m[at] & Mask(k) != 0)
  {
    hide Bit, Mask, SlotsOf, Capacity;
    SlotTaken(m, rowSize, scale, i + k);
    assert (i + k) / 8 == at - PAGE_RECORD_SIZE && (i + k) % 8 == k;
    ShiftIsMask(m[at], k);
  }

  /** `is_page_empty`: all bitmap bytes are zero. */
  method IsPageEmpty(mem: array<byte>, rowSize: nat, scale: nat) returns (empty: bool)
    requires Shape(mem.Length, rowSize, scale) && PaddingClear(mem[..], rowSize, scale)
    ensures empty <==> NoRows(SlotsOf(mem[..], rowSize, scale))
  {
    hide Bit, SlotsOf, Capacity, PaddingClear, Taken, NoRows;
    var p := PAGE_RECORD_SIZE;
    var end := PAGE_RECORD_SIZE + BytesFor(Capacity(rowSize, scale));
    while p < end
      invariant PAGE_RECORD_SIZE <= p <= end
      invariant forall j :: PAGE_RECORD_SIZE <= j < p ==> mem[j] == 0
    {
      if mem[p] != 0 {
        UsedByte(mem[..], rowSize, scale, p);
        return false;
      }
      p := p + 1;
    }
    UnusedBytes(mem[..], rowSize, scale);
    return true;
  }

  /** A non-zero bitmap byte has the bit of some row, because the padding bits are zero. */
  lemma UsedByte(m: seq<byte>, rowSize: nat, scale: nat, p: nat)
    requires Shape(|m|, rowSize, scale) && PaddingClear(m, rowSize, scale)
    requires PAGE_RECORD_SIZE <= p < PAGE_RECORD_SIZE + BytesFor(Capacity(rowSize, scale)) && m[p] != 0
    ensures !NoRows(SlotsOf(m, rowSize, scale))
  {
    hide Bit, Capacity;
    ZeroByte(m[p]);
    var k: nat :| k < 8 && Bit(m[p], k);
    var i := 8 * (p - PAGE_RECORD_SIZE) + k;
    assert i / 8 == p - PAGE_RECORD_SIZE && i % 8 == k;
    assert Taken(m, i);
    assert SlotsOf(m, rowSize, scale)[i] == SlotAt(m, rowSize, scale, i);
  }

  lemma UnusedBytes(m: seq<byte>, rowSize: nat, scale: nat)
    requires Shape(|m|, rowSize, scale)
    requires forall j :: PAGE_RECORD_SIZE <= j < HeaderSize(rowSize, scale) ==> m[j] == 0
    ensures NoRows(SlotsOf(m, rowSize, scale))
  {
    hide Bit, Capacity;
    forall i | 0 <= i < Capacity(rowSize, scale) ensures SlotsOf(m, rowSize, scale)[i].None? {
      SlotInside(rowSize, scale, i);
      ZeroByte(m[PAGE_RECORD_SIZE + i / 8]);
      assert !Bit(m[PAGE_RECORD_SIZE + i / 8], i % 8);
      assert SlotsOf(m, rowSize, scale)[i] == SlotAt(m, rowSize, scale, i);
    }
  }

  ghost predicate InSlot(rowSize: nat, scale: nat, idx: nat, j: int)
    requires scale >= 1
  {
    RowOffset(rowSize, scale, idx) <= j < RowOffset(rowSize, scale, idx) + rowSize
  }

  /** Outside slot `idx` and its bit the two buffers agree. */
  ghost predicate AgreeBut(m: seq<byte>, n: seq<byte>, rowSize: nat, scale: nat, idx: nat)
    requires Shape(|m|, rowSize, scale) && |n| == |m| && idx < Capacity(rowSize, scale)
  {
    && (forall i: nat :: i < 8 * BytesFor(Capacity(rowSize, scale)) && i != idx ==> Taken(n, i) == Taken(m, i))
    && (forall j :: HeaderSize(rowSize, scale) <= j < |m| && !InSlot(rowSize, scale, idx, j) ==> n[j] == m[j])
    && (forall j :: 0 <= j < PAGE_RECORD_SIZE ==> n[j] == m[j])
  }

  /** Then they stand for the same slots but for that one, and the padding is as before. */
  lemma OneSlotChanged(m: seq<byte>, n: seq<byte>, rowSize: nat, scale: nat, idx: nat)
    requires Shape(|m|, rowSize, scale) && |n| == |m| && idx < Capacity(rowSize, scale)
    requires AgreeBut(m, n, rowSize, scale, idx)
    ensures SlotsOf(n, rowSize, scale) == SlotsOf(m, rowSize, scale)[idx := SlotAt(n, rowSize, scale, idx)]
    ensures PaddingClear(m, rowSize, scale) ==> PaddingClear(n, rowSize, scale)
  {
    hide Bit, Capacity, SlotsOf;
    var a, b := SlotsOf(n, rowSize, scale), SlotsOf(m, rowSize, scale)[idx := SlotAt(n, rowSize, scale, idx)];
    forall i | 0 <= i < Capacity(rowSize, scale) ensures a[i] == b[i] {
      if i != idx {
        SameSlot(m, n, rowSize, scale, idx, i);
      }
    }
    assert a == b;
  }

  lemma SameSlot(m: seq<byte>, n: seq<byte>, rowSize: nat, scale: nat, idx: nat, i: nat)
    requires Shape(|m|, rowSize, scale) && |n| == |m| && idx < Capacity(rowSize, scale) && i < Capacity(rowSize, scale) && i != idx
    requires AgreeBut(m, n, rowSize, scale, idx)
    ensures SlotAt(n, rowSize, scale, i) == SlotAt(m, rowSize, scale, i)
  {
    hide Bit, Capacity;
    SlotInside(rowSize, scale, i);
    if i < idx {
      SlotsDisjoint(rowSize, scale, i, idx);
    } else {
      SlotsDisjoint(rowSize, scale, idx, i);
    }
    var from := RowOffset(rowSize, scale, i);
    forall j | from <= j < from + rowSize ensures n[j] == m[j] {
      assert !InSlot(rowSize, scale, idx, j);
    }
    assert m[from..from + rowSize] == n[from..from + rowSize];
  }

  // ---------------------------------------------------------------- operations

  datatype ReadStatus = ReadOk | ReadIsNull | ReadOutOfBound | ReadDestNotFree

  /** `read_row`; `destFree` tells that the destination holds no row yet. */
  method ReadRow(mem: array<byte>, rowSize: nat, scale: nat, index: nat, destFree: bool) returns (status: ReadStatus, row: Row)
    requires Shape(mem.Length, rowSize, scale)
    ensures var s := SlotsOf(mem[..], rowSize, scale);
      && (status == ReadOutOfBound <==> index >= |s|)
      && (status == ReadIsNull <==> index < |s| && s[index].None?)
      && (status == ReadDestNotFree <==> index < |s| && s[index].Some? && !destFree)
      && (status == ReadOk ==> s[index] == Some(row))
  {
    hide Bit, Capacity, Taken;
    row := [];
    if index >= Capacity(rowSize, scale) {
      return ReadOutOfBound, row;
    }
    SlotInside(rowSize, scale, index);
    assert SlotsOf(mem[..], rowSize, scale)[index] == SlotAt(mem[..], rowSize, scale, index);
    var empty := IsRowEmpty(mem, index);
    if empty {
      return ReadIsNull, row;
    }
    if !destFree {
      return ReadDestNotFree, row;
    }
    var from := RowOffset(rowSize, scale, index);
    return ReadOk, mem[from..from + rowSize];
  }

  /** `memcpy` into one row slot. */
  method CopyInto(mem: array<byte>, from: nat, row: Row)
    requires from + |row| <= mem.Length
    modifies mem
    ensures mem[from..from + |row|] == row
    ensures forall j :: 0 <= j < mem.Length && !(from <= j < from + |row|) ==> mem[j] == old(mem[j])
  {
    var k := 0;
    while k < |row|
      invariant 0 <= k <= |row|
      invariant mem[from..from + k] == row[..k]
      invariant forall j :: 0 <= j < mem.Length && !(from <= j < from + k) ==> mem[j] == old(mem[j])
    {
      mem[from + k] := row[k];
      k := k + 1;
    }
  }

  // ---------------------------------------------------------------- the header record

  datatype PageRecord = PageRecord(rowSize: nat, scale: nat, prev: nat, next: nat)

  /** The packed record at the start of an extent. */
  function RecordAt(m: seq<byte>): PageRecord
    requires |m| >= PAGE_RECORD_SIZE
  {
    PageRecord(U32(m[0..4]), U16(m[4..6]), U32(m[6..10]), U32(m[10..14]))
  }

  /** The numbers fit in the record. */
  predicate Storable(r: PageRecord) {
    r.rowSize < 0x1_0000_0000 && r.scale < 0x1_0000 && r.prev < 0x1_0000_0000 && r.next < 0x1_0000_0000
  }

  function EncodeRecord(r: PageRecord): (b: seq<byte>)
    requires Storable(r)
    ensures |b| == PAGE_RECORD_SIZE
  {
    EncodeU32(r.rowSize) + EncodeU16(r.scale) + EncodeU32(r.prev) + EncodeU32(r.next)
  }

  /** A record reads back from the bytes that it was written to. */
  lemma RecordReads(m: seq<byte>, r: PageRecord)
    requires Storable(r) && |m| >= PAGE_RECORD_SIZE && m[..PAGE_RECORD_SIZE] == EncodeRecord(r)
    ensures RecordAt(m) == r
  {
    hide U16, U32, EncodeU16, EncodeU32;
    var h := m[..PAGE_RECORD_SIZE];
    assert m[0..4] == h[0..4] == EncodeU32(r.rowSize);
    assert m[4..6] == h[4..6] == EncodeU16(r.scale);
    assert m[6..10] == h[6..10] == EncodeU32(r.prev);
    assert m[10..14] == h[10..14] == EncodeU32(r.next);
  }

  /** Buffers that agree behind the record stand for the same slots. */
  lemma SameBehindRecord(m: seq<byte>, n: seq<byte>, rowSize: nat, scale: nat)
    requires Shape(|m|, rowSize, scale) && |n| == |m|
    requires forall j :: PAGE_RECORD_SIZE <= j < |m| ==> n[j] == m[j]
    ensures SlotsOf(n, rowSize, scale) == SlotsOf(m, rowSize, scale)
    ensures PaddingClear(n, rowSize, scale) <==> PaddingClear(m, rowSize, scale)
  {
    hide Bit, Capacity, SlotsOf;
    var a, b := SlotsOf(n, rowSize, scale), SlotsOf(m, rowSize, scale);
    forall i: nat | PAGE_RECORD_SIZE + i / 8 < |m| ensures Taken(n, i) == Taken(m, i) {
    }
    forall i | 0 <= i < Capacity(rowSize, scale) ensures a[i] == b[i] {
      SlotInside(rowSize, scale, i);
      var from := RowOffset(rowSize, scale, i);
      assert m[from..from + rowSize] == n[from..from + rowSize];
    }
    assert a == b;
  }

  /** `write_page_meta`: the record reads back as it was given, and no row of the page is touched. */
  method WritePageMeta(mem: array<byte>, r: PageRecord, ghost rowSize: nat, ghost scale: nat)
    requires Shape(mem.Length, rowSize, scale) && Storable(r)
    modifies mem
    ensures RecordAt(mem[..]) == r
    ensures SlotsOf(mem[..], rowSize, scale) == SlotsOf(old(mem[..]), rowSize, scale)
    ensures PaddingClear(mem[..], rowSize, scale) <==> PaddingClear(old(mem[..]), rowSize, scale)
  {
    hide Bit, Capacity, SlotsOf, PaddingClear, RecordAt, EncodeRecord;
    CopyInto(mem, 0, EncodeRecord(r));
    assert mem[..PAGE_RECORD_SIZE] == mem[0..PAGE_RECORD_SIZE];
    RecordReads(mem[..], r);
    SameBehindRecord(old(mem[..]), mem[..], rowSize, scale);
  }

  /** `create_page`: all slots are empty, and the record has the geometry and the link it was given. */
  method CreatePage(mem: array<byte>, rowSize: nat, scale: nat, next: nat)
    requires Shape(mem.Length, rowSize, scale) && Storable(PageRecord(rowSize, scale, 0, next))
    modifies mem
    ensures NoRows(SlotsOf(mem[..], rowSize, scale)) && PaddingClear(mem[..], rowSize, scale)
    ensures RecordAt(mem[..]) == PageRecord(rowSize, scale, 0, next)
  {
    hide Bit, Capacity, SlotsOf, NoRows, RecordAt, PaddingClear;
    var k := 0;
    while k < mem.Length
      invariant 0 <= k <= mem.Length
      invariant forall j :: 0 <= j < k ==> mem[j] == 0
    {
      mem[k] := 0;
      k := k + 1;
    }
    UnusedBytes(mem[..], rowSize, scale);
    ZeroPadding(mem[..], rowSize, scale);
    WritePageMeta(mem, PageRecord(rowSize, scale, 0, next), rowSize, scale);
  }

  lemma ZeroPadding(m: seq<byte>, rowSize: nat, scale: nat)
    requires Shape(|m|, rowSize, scale) && forall j :: 0 <= j < |m| ==> m[j] == 0
    ensures PaddingClear(m, rowSize, scale)
  {
    hide Bit, Capacity;
    var n := Capacity(rowSize, scale);
    forall i: nat | n <= i < 8 * BytesFor(n) ensures !Taken(m, i) {
      ZeroByte(m[PAGE_RECORD_SIZE + i / 8]);
      assert !Bit(m[PAGE_RECORD_SIZE + i / 8], i % 8);
    }
  }

  /** One bit and one slot were written, in either order. */
  lemma Touched(m: seq<byte>, n: seq<byte>, rowSize: nat, scale: nat, idx: nat, value: bool)
    requires Shape(|m|, rowSize, scale) && |n| == |m| && idx < Capacity(rowSize, scale)
    requires forall j :: 0 <= j < |m| && j != PAGE_RECORD_SIZE + idx / 8 && !InSlot(rowSize, scale, idx, j) ==> n[j] == m[j]
    requires PAGE_RECORD_SIZE + idx / 8 < |m|
    requires forall i: nat :: i / 8 == idx / 8 ==> (Taken(n, i) <==> if i == idx then value else Taken(m, i))
    ensures AgreeBut(m, n, rowSize, scale, idx)
    ensures Taken(n, idx) == value
  {
    hide Bit, Capacity;
    SlotInside(rowSize, scale, idx);
  }

  /** The slots after one bit and one slot were written. */
  lemma SlotSet(m: seq<byte>, n: seq<byte>, rowSize: nat, scale: nat, idx: nat, row: Row)
    requires Shape(|m|, rowSize, scale) && |n| == |m| && idx < Capacity(rowSize, scale)
    requires AgreeBut(m, n, rowSize, scale, idx) && PAGE_RECORD_SIZE + idx / 8 < |m| && Taken(n, idx)
    requires RowOffset(rowSize, scale, idx) + rowSize <= |m|
    requires n[RowOffset(rowSize, scale, idx)..RowOffset(rowSize, scale, idx) + rowSize] == row
    ensures SlotsOf(n, rowSize, scale) == SlotsOf(m, rowSize, scale)[idx := Some(row)]
    ensures PaddingClear(m, rowSize, scale) ==> PaddingClear(n, rowSize, scale)
  {
    hide Bit, Capacity, SlotsOf, AgreeBut, PaddingClear;
    OneSlotChanged(m, n, rowSize, scale, idx);
  }

  lemma SlotCleared(m: seq<byte>, n: seq<byte>, rowSize: nat, scale: nat, idx: nat)
    requires Shape(|m|, rowSize, scale) && |n| == |m| && idx < Capacity(rowSize, scale)
    requires AgreeBut(m, n, rowSize, scale, idx) && PAGE_RECORD_SIZE + idx / 8 < |m| && !Taken(n, idx)
    ensures SlotsOf(n, rowSize, scale) == SlotsOf(m, rowSize, scale)[idx := None]
    ensures PaddingClear(m, rowSize, scale) ==> PaddingClear(n, rowSize, scale)
  {
    hide Bit, Capacity, SlotsOf, AgreeBut, PaddingClear;
    OneSlotChanged(m, n, rowSize, scale, idx);
  }

  /** `write_row`. */
  method WriteRow(mem: array<byte>, rowSize: nat, scale: nat, index: nat, row: Row) returns (status: WriteStatus)
    requires Shape(mem.Length, rowSize, scale) && PaddingClear(mem[..], rowSize, scale) && |row| == rowSize
    modifies mem
    ensures (SlotsOf(mem[..], rowSize, scale), status) == PageRows.WriteRow(SlotsOf(old(mem[..]), rowSize, scale), index, row)
    ensures PaddingClear(mem[..], rowSize, scale)
    ensures mem[..PAGE_RECORD_SIZE] == old(mem[..PAGE_RECORD_SIZE])
  {
    hide Bit, Capacity, Taken, SlotsOf, PaddingClear, AgreeBut, HeaderSize;
    ghost var was := mem[..];
    if index >= Capacity(rowSize, scale) {
      return WriteOutOfBound;
    }
    SlotInside(rowSize, scale, index);
    SlotTaken(was, rowSize, scale, index);
    var empty := IsRowEmpty(mem, index);
    if !empty {
      return WriteNotEmpty;
    }
    var changed := SetIntoBitmap(mem, index, true);
    if !changed {
      assert false;
    }
    ghost var mid := mem[..];
    CopyInto(mem, RowOffset(rowSize, scale, index), row);
    BitsKept(mid, mem[..], rowSize, scale, index);
    Touched(was, mem[..], rowSize, scale, index, true);
    SlotSet(was, mem[..], rowSize, scale, index, row);
    var free := FindEmptyRow(mem, rowSize, scale);
    return if free == -1 then WriteOkButFull else WriteOk;
  }

  /** Copying into a slot does not reach the bitmap. */
  lemma BitsKept(m: seq<byte>, n: seq<byte>, rowSize: nat, scale: nat, idx: nat)
    requires Shape(|m|, rowSize, scale) && |n| == |m| && idx < Capacity(rowSize, scale)
    requires forall j :: 0 <= j < |m| && !InSlot(rowSize, scale, idx, j) ==> n[j] == m[j]
    ensures forall i: nat :: i / 8 == idx / 8 ==> PAGE_RECORD_SIZE + i / 8 < |m| && Taken(n, i) == Taken(m, i)
  {
    hide Bit, Capacity;
    SlotInside(rowSize, scale, idx);
  }

  /** A slot overwritten first and its bit cleared afterwards. */
  lemma SlotErased(was: seq<byte>, mid: seq<byte>, now: seq<byte>, rowSize: nat, scale: nat, idx: nat)
    requires Shape(|was|, rowSize, scale) && |mid| == |was| && |now| == |was| && idx < Capacity(rowSize, scale)
    requires PAGE_RECORD_SIZE + idx / 8 < |was|
    requires forall j :: 0 <= j < |was| && !InSlot(rowSize, scale, idx, j) ==> mid[j] == was[j]
    requires forall j :: 0 <= j < |was| && j != PAGE_RECORD_SIZE + idx / 8 ==> now[j] == mid[j]
    requires !Taken(now, idx)
    requires forall i: nat :: PAGE_RECORD_SIZE + i / 8 < |was| && i != idx ==> Taken(now, i) == Taken(mid, i)
    ensures Taken(mid, idx) == Taken(was, idx)
    ensures SlotsOf(now, rowSize, scale) == SlotsOf(was, rowSize, scale)[idx := None]
    ensures PaddingClear(was, rowSize, scale) ==> PaddingClear(now, rowSize, scale)
    ensures now[..PAGE_RECORD_SIZE] == was[..PAGE_RECORD_SIZE]
  {
    hide Bit, Capacity, Taken, SlotsOf, PaddingClear, AgreeBut, HeaderSize;
    SlotInside(rowSize, scale, idx);
    BitsKept(was, mid, rowSize, scale, idx);
    Touched(was, now, rowSize, scale, idx, false);
    SlotCleared(was, now, rowSize, scale, idx);
  }

  /** `replace_row`. */
  method ReplaceRow(mem: array<byte>, rowSize: nat, scale: nat, index: nat, row: Row) returns (status: WriteStatus)
    requires Shape(mem.Length, rowSize, scale) && PaddingClear(mem[..], rowSize, scale) && |row| == rowSize
    modifies mem
    ensures (SlotsOf(mem[..], rowSize, scale), status) == PageRows.ReplaceRow(SlotsOf(old(mem[..]), rowSize, scale), index, row)
    ensures PaddingClear(mem[..], rowSize, scale)
    ensures mem[..PAGE_RECORD_SIZE] == old(mem[..PAGE_RECORD_SIZE])
  {
    hide Bit, Capacity, Taken, SlotsOf, PaddingClear, AgreeBut, HeaderSize;
    ghost var was := mem[..];
    if index >= Capacity(rowSize, scale) {
      return WriteOutOfBound;
    }
    SlotInside(rowSize, scale, index);
    SlotTaken(was, rowSize, scale, index);
    var empty := IsRowEmpty(mem, index);
    if empty {
      return WriteNotEmpty;
    }
    CopyInto(mem, RowOffset(rowSize, scale, index), row);
    BitsKept(was, mem[..], rowSize, scale, index);
    Touched(was, mem[..], rowSize, scale, index, true);
    SlotSet(was, mem[..], rowSize, scale, index, row);
    return WriteOk;
  }

  /** The place of row `i` has zeros. */
  ghost predicate Erased(m: seq<byte>, rowSize: nat, scale: nat, i: nat)
    requires Shape(|m|, rowSize, scale) && i < Capacity(rowSize, scale)
  {
    SlotInside(rowSize, scale, i);
    forall j :: RowOffset(rowSize, scale, i) <= j < RowOffset(rowSize, scale, i) + rowSize ==> m[j] == 0
  }

  /** The bitmap is not where the row is. */
  lemma StaysErased(mid: seq<byte>, now: seq<byte>, rowSize: nat, scale: nat, i: nat)
    requires Shape(|mid|, rowSize, scale) && |now| == |mid| && i < Capacity(rowSize, scale)
    requires RowOffset(rowSize, scale, i) + rowSize <= |mid|
    requires mid[RowOffset(rowSize, scale, i)..RowOffset(rowSize, scale, i) + rowSize] == seq(rowSize, _ => 0)
    requires forall j :: 0 <= j < |mid| && j != PAGE_RECORD_SIZE + i / 8 ==> now[j] == mid[j]
    ensures Erased(now, rowSize, scale, i)
  {
    hide Capacity, HeaderSize, RowOffset;
    SlotInside(rowSize, scale, i);
    var at := RowOffset(rowSize, scale, i);
    forall j | at <= j < at + rowSize ensures now[j] == 0 {
      assert mid[j] == mid[at..at + rowSize][j - at];
    }
  }

  /** `remove_row`. */
  method RemoveRow(mem: array<byte>, rowSize: nat, scale: nat, index: nat) returns (status: RemoveStatus)
    requires Shape(mem.Length, rowSize, scale) && PaddingClear(mem[..], rowSize, scale)
    modifies mem
    ensures (SlotsOf(mem[..], rowSize, scale), status) == PageRows.RemoveRow(SlotsOf(old(mem[..]), rowSize, scale), index)
    ensures index < Capacity(rowSize, scale) ==> Erased(mem[..], rowSize, scale, index)
    ensures PaddingClear(mem[..], rowSize, scale)
    ensures mem[..PAGE_RECORD_SIZE] == old(mem[..PAGE_RECORD_SIZE])
  {
    hide Bit, Capacity, Taken, SlotsOf, PaddingClear, AgreeBut, HeaderSize, Erased;
    ghost var was := mem[..];
    if index >= Capacity(rowSize, scale) {
      return RemoveOutOfBound;
    }
    var emptyRow := FindEmptyRow(mem, rowSize, scale);
    SlotInside(rowSize, scale, index);
    SlotTaken(was, rowSize, scale, index);
    CopyInto(mem, RowOffset(rowSize, scale, index), seq(rowSize, _ => 0));
    ghost var mid := mem[..];
    var changed := SetIntoBitmap(mem, index, false);
    SlotErased(was, mid, mem[..], rowSize, scale, index);
    StaysErased(mid, mem[..], rowSize, scale, index);
    if !changed {
      assert SlotsOf(was, rowSize, scale)[index := None] == SlotsOf(was, rowSize, scale);
      return RemoveBitmapError;
    }
    var empty := IsPageEmpty(mem, rowSize, scale);
    if empty {
      return RemoveOkPageFreed;
    }
    return if emptyRow == -1 then RemoveOkPageNotFull else RemoveOk;
  }
}
