/** Pages reached through the chunk cache: what the memory behind a pointer is. */
module MappedFile {
  import opened Common
  import opened Bytes
  import opened FileImage
  import opened StorageModel
  import opened StorageEngine
  import opened ChunkCache

  /** The memory from a pointer on. A mapping shares the bytes of the file. */
  ghost function Seen(file: seq<byte>, p: Pointer, pages: nat): (m: seq<byte>)
    requires Reaches(p, pages) && FileByte(p).value + pages * PAGE_BYTES <= |file|
    reads p.chunk
    ensures |m| == pages * PAGE_BYTES
  {
    file[FileByte(p).value..FileByte(p).value + pages * PAGE_BYTES]
  }

  /** The memory from a pointer on stands for a page. */
  ghost predicate Shows(file: seq<byte>, q: Pointer, g: Page)
    reads q.chunk
  {
    && Reaches(q, g.scale) && FileByte(q).value + g.scale * PAGE_BYTES <= |file|
    && StandsFor(Seen(file, q, g.scale), g)
  }

  lemma ShowsPage(file: seq<byte>, q: Pointer, p: nat, g: Page)
    requires Inside(file, p, g) && Reaches(q, g.scale) && FileByte(q) == Some(p * PAGE_BYTES)
    ensures Shows(file, q, g)
  {
    hide StandsFor;
    assert Seen(file, q, g.scale) == Window(file, p, g.scale);
  }

  /** The pointer that the cache gives for a page of the engine shows the bytes that stand for the page. */
  method GetPage(cache: MemoryManager, st: Storage, p: nat) returns (q: Pointer)
    requires cache.Valid() && st.Good() && p in st.pages
    modifies cache`fileSize, cache`fileLength, cache`overrun, cache`chunks, cache`lastUsed, cache.sentinel, cache.chunks
    ensures cache.Valid() <==> cache.Holders()[q.chunk] < 0x1_0000
    ensures p in st.disk && Shows(st.bytes, q, st.disk[p])
  {
    hide *;
    PageInFile(st, p);
    q := cache.GetPages(p, st.pages[p].scale);
    ShowsPage(st.bytes, q, p, st.disk[p]);
  }

  lemma PageInFile(st: Storage, p: nat)
    requires st.Good() && p in st.pages
    ensures p in st.disk && st.disk[p].scale == st.pages[p].scale && 1 <= st.pages[p].scale < 0x1_0000
    ensures p < BYTE_LIMIT && p < 0x1_0000_0000
    ensures Inside(st.bytes, p, st.disk[p])
  {
  }
}
