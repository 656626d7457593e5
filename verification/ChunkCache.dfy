/**
 * The cache of mapped file chunks: a circular intrusive list of chunks with reference counts,
 * through which every page access goes.
 */
module ChunkCache {
  import opened Common

  const ALLOC_GRAN: nat := 16
  const PAGE_BYTES: nat := 4096

  /** Byte offsets in the file are computed in 32 bits, so they are right below this page. */
  const BYTE_LIMIT: nat := 0x10_0000

  /** So many pages in bytes, in 32 bits. */
  function Bytes32(pages: nat): (n: nat)
    ensures n == pages * PAGE_BYTES <==> pages < BYTE_LIMIT
  {
    (pages * PAGE_BYTES) % 0x1_0000_0000
  }

  /** What `mem_map` returned: a window on the file, in bytes. */
  datatype Mapping = Mapping(start: nat, length: nat)

  class Chunk {
    var next: Chunk
    var prev: Chunk
    var size: nat
    var offset: nat
    var refs: nat
    var pointer: Option<Mapping>

    /** `lst_init`: a list of one. */
    constructor ()
      ensures next == this && prev == this && refs == 1 && pointer == None && size == 0 && offset == 0
    {
      next, prev, refs, pointer, size, offset := this, this, 1, None, 0, 0;
    }
  }

  /** A pointer into a chunk: so many bytes behind the start of its mapping. */
  datatype Pointer = Pointer(chunk: Chunk, delta: int)

  datatype UserChunk = UserChunk(backing: Chunk, offset: nat, size: nat)

  /** The chunk contains the pages asked for. */
  predicate Contains(c: Chunk, offset: nat, pages: nat)
    reads c`size, c`offset
    ensures Contains(c, offset, pages) <==> c.offset <= offset && offset + pages <= c.offset + c.size
  {
    c.offset <= offset && c.size >= pages && c.size - pages >= offset - c.offset
  }

  /** `c` is the first of these chunks that contains the pages asked for. */
  ghost predicate FirstWith(s: seq<Chunk>, c: Chunk, offset: nat, pages: nat)
    reads s`size, s`offset
  {
    exists i :: 0 <= i < |s| && s[i] == c && Contains(s[i], offset, pages) && forall j :: 0 <= j < i ==> !Contains(s[j], offset, pages)
  }

  /** None of these chunks contains the pages asked for. */
  ghost predicate NoneWith(s: seq<Chunk>, offset: nat, pages: nat)
    reads s`size, s`offset
  {
    forall i :: 0 <= i < |s| ==> !Contains(s[i], offset, pages)
  }

  /** `s` is what is left of `was` when `c` is taken out. */
  ghost predicate TakenOut(was: seq<Chunk>, c: Chunk, s: seq<Chunk>) {
    exists k :: 0 <= k < |was| && was[k] == c && s == Without(was, k)
  }

  /** Some of these chunks contains the pages asked for, and stays when `last` loses a holder. */
  ghost predicate StaysWith(s: seq<Chunk>, last: Chunk?, offset: nat, pages: nat)
    reads s
  {
    exists c :: c in s && Contains(c, offset, pages) && (c == last ==> c.refs > 1)
  }

  /** The file byte that a pointer denotes, if its chunk is mapped. */
  function FileByte(p: Pointer): Option<int>
    reads p.chunk
  {
    match p.chunk.pointer
    case None => None
    case Some(m) => Some(m.start + p.delta)
  }

  /** That many pages from the pointer on are mapped. */
  predicate Reaches(p: Pointer, pages: nat)
    reads p.chunk
  {
    p.chunk.pointer.Some? && 0 <= p.delta && p.delta + pages * PAGE_BYTES <= p.chunk.pointer.value.length
  }

  /**
   * A chunk made for page `offset` starts at a byte that is right exactly when `offset` is below the
   * limit; beyond it the page is sought at its place modulo 2 to the power 32. Page 0x100000 is
   * sought at byte 0, in the header of the file.
   */
  lemma NewChunkStart(offset: nat)
    ensures RoundDown(offset) < BYTE_LIMIT <==> offset < BYTE_LIMIT
    ensures Bytes32(RoundDown(offset)) + (offset - RoundDown(offset)) * PAGE_BYTES == Bytes32(offset)
    ensures Bytes32(offset) == offset * PAGE_BYTES <==> offset < BYTE_LIMIT
    ensures Bytes32(0x10_0000) == 0
  {
    var k, l := offset / ALLOC_GRAN, offset % ALLOC_GRAN;
    var a, b := k / 0x1_0000, k % 0x1_0000;
    Wrapped(a, 0x1_0000 * b);
    Wrapped(a, 0x1_0000 * b + PAGE_BYTES * l);
    assert RoundDown(offset) * PAGE_BYTES == 0x1_0000_0000 * a + 0x1_0000 * b;
    assert offset * PAGE_BYTES == 0x1_0000_0000 * a + (0x1_0000 * b + PAGE_BYTES * l);
    assert offset < BYTE_LIMIT <==> k < 0x1_0000;
  }

  lemma Wrapped(a: nat, n: nat)
    requires n < 0x1_0000_0000
    ensures (0x1_0000_0000 * a + n) % 0x1_0000_0000 == n
  {
  }

  /** The sizes of a chunk for a request of at most 65535 pages do not wrap, nor does its end below the limit. */
  lemma NewChunkSize(offset: nat, pages: nat)
    requires offset < 0x1_0000_0000 && 1 <= pages < 0x1_0000
    ensures var size := RoundUp(pages + (offset - RoundDown(offset)));
      && 0 < size < BYTE_LIMIT && Bytes32(size) == size * PAGE_BYTES
      && (offset < BYTE_LIMIT ==>
            RoundUp((pages + offset) % 0x1_0000_0000) % 0x1_0000_0000 == RoundDown(offset) + size)
  {
    hide Bytes32;
    ChunkFits(offset, pages);
  }

  /** The next multiple of the granularity; never `n` itself. */
  function RoundUp(n: nat): (r: nat)
    ensures r % ALLOC_GRAN == 0 && n < r <= n + ALLOC_GRAN
  {
    (n / ALLOC_GRAN + 1) * ALLOC_GRAN
  }

  function RoundDown(n: nat): (r: nat)
    ensures r % ALLOC_GRAN == 0 && r <= n < r + ALLOC_GRAN
  {
    n / ALLOC_GRAN * ALLOC_GRAN
  }

  /** The chunk sized for a request covers it and ends exactly at the file size it asks for. */
  lemma ChunkFits(offset: nat, pages: nat)
    ensures var start := RoundDown(offset); var size := RoundUp(pages + (offset - start));
      start <= offset && offset + pages <= start + size && start + size == RoundUp(pages + offset)
  {
    var start := RoundDown(offset);
    assert start % ALLOC_GRAN == 0;
    assert (pages + offset) / ALLOC_GRAN == (pages + (offset - start)) / ALLOC_GRAN + offset / ALLOC_GRAN;
  }

  // ---------------------------------------------------------------- the circular list

  /** The chunks met when the list is followed from its sentinel `ring[0]`, once around. */
  ghost predicate Ring(ring: seq<Chunk>)
    reads ring
  {
    && |ring| > 0
    && (forall i, j :: 0 <= i < j < |ring| ==> ring[i] != ring[j])
    && (forall i :: 0 <= i < |ring| ==> Tied(ring, i))
    && (|ring| > 1 ==> ring[0].prev == ring[|ring| - 1])
  }

  ghost predicate Tied(ring: seq<Chunk>, i: nat)
    requires i < |ring|
    reads ring
  {
    && ring[i].next == ring[if i + 1 < |ring| then i + 1 else 0]
    && (i > 0 ==> ring[i].prev == ring[i - 1])
  }

  /** A ring whose links were not touched is still that ring. */
  twostate lemma RingKept(ring: seq<Chunk>)
    requires old(Ring(ring))
    requires forall c :: c in ring ==> c.next == old(c.next) && c.prev == old(c.prev)
    ensures Ring(ring)
  {
    forall i | 0 <= i < |ring| ensures Tied(ring, i) {
      assert old(Tied(ring, i)) && ring[i] in ring;
    }
    assert ring[0] in ring;
  }

  lemma RingMembers(first: Chunk, rest: seq<Chunk>, k: nat)
    requires Ring([first] + rest) && k < |rest|
    ensures first !in rest
    ensures Without([first] + rest, k + 1) == [first] + Without(rest, k)
    ensures forall c :: c in rest ==> c in [first] + rest
    ensures forall q :: q in Without(rest, k) <==> q in rest && q != rest[k]
  {
    hide Ring;
    DistinctRest(first, rest);
    MembersWithout(rest, k);
  }

  lemma DistinctRest(first: Chunk, rest: seq<Chunk>)
    requires Ring([first] + rest)
    ensures first !in rest && forall i, j :: 0 <= i < j < |rest| ==> rest[i] != rest[j]
  {
    hide Tied;
    var ring := [first] + rest;
    assert forall i :: 0 <= i < |rest| ==> ring[i + 1] == rest[i];
  }

  lemma MembersWithout(s: seq<Chunk>, k: nat)
    requires k < |s| && forall i, j :: 0 <= i < j < |s| ==> s[i] != s[j]
    ensures forall q :: q in Without(s, k) <==> q in s && q != s[k]
  {
    var w := Without(s, k);
    forall q | q in s && q != s[k] ensures q in w {
      var j :| 0 <= j < |s| && s[j] == q;
      assert w[if j < k then j else j - 1] == q;
    }
  }

  /** `lst_push`: right behind the sentinel. */
  method LstPush(lst: Chunk, e: Chunk, ghost ring: seq<Chunk>)
    requires Ring(ring) && ring[0] == lst && e !in ring
    modifies ring, e
    ensures Ring([lst, e] + ring[1..])
    ensures forall c :: c in ring || c == e ==>
      c.size == old(c.size) && c.offset == old(c.offset) && c.refs == old(c.refs) && c.pointer == old(c.pointer)
  {
    assert Tied(ring, 0);
    assert forall i :: 0 <= i < |ring| ==> Tied(ring, i);
    e.next := lst.next;
    e.prev := lst;
    lst.next.prev := e;
    lst.next := e;
    ghost var now := [lst, e] + ring[1..];
    forall i | 0 <= i < |now| ensures Tied(now, i) {
      if i > 1 {
        assert now[i] == ring[i - 1] && old(Tied(ring, i - 1));
      }
    }
  }

  /** `lst_remove`: the element at position `k`, which is not the sentinel. */
  method LstRemove(e: Chunk, ghost ring: seq<Chunk>, ghost k: nat)
    requires Ring(ring) && 0 < k < |ring| && ring[k] == e
    modifies ring
    ensures Ring(Without(ring, k))
    ensures forall c :: c in ring ==>
      c.size == old(c.size) && c.offset == old(c.offset) && c.refs == old(c.refs) && c.pointer == old(c.pointer)
  {
    assert Tied(ring, k) && Tied(ring, k - 1);
    assert forall i :: 0 <= i < |ring| ==> Tied(ring, i);
    e.prev.next := e.next;
    e.next.prev := e.prev;
    ghost var now := Without(ring, k);
    forall i | 0 <= i < |now| ensures Tied(now, i) {
      var j := if i < k then i else i + 1;
      assert now[i] == ring[j] && old(Tied(ring, j));
    }
  }

  lemma MinusOne(a: multiset<Chunk>, b: multiset<Chunk>, c: Chunk)
    requires c in a
    ensures a + b == ((a - multiset{c}) + b) + multiset{c}
  {
  }

  // ---------------------------------------------------------------- the manager

  class MemoryManager {
    const sentinel: Chunk
    var fileSize: nat
    var fileLength: nat
    var lastUsed: Chunk?
    ghost var overrun: bool
    ghost var chunks: seq<Chunk>
    ghost var users: multiset<Chunk>

    // `fileSize` counts pages, `fileLength` the bytes that the file has. `overrun` remembers that a
    // chunk beyond the limit of byte offsets was made: from then on the file may be too short.

    /** The holders of chunks: the outstanding user chunks and the manager's last used chunk. */
    ghost function Holders(): multiset<Chunk>
      reads this`users, this`lastUsed
    {
      users + Last()
    }

    ghost function Last(): multiset<Chunk>
      reads this`lastUsed
    {
      if lastUsed == null then multiset{} else multiset{lastUsed}
    }

    /** A listed chunk is mapped, and inside the file as long as no offset has wrapped. */
    ghost predicate MappedOk(c: Chunk)
      reads this`fileSize, this`overrun, c
    {
      && c.pointer == Some(Mapping(Bytes32(c.offset), c.size * PAGE_BYTES)) && 0 < c.size < BYTE_LIMIT
      && (!overrun ==> c.offset < BYTE_LIMIT && c.offset + c.size <= fileSize)
    }

    /** Every listed chunk is referenced once per holder, and only listed chunks have holders. */
    ghost predicate Counted(holders: multiset<Chunk>)
      reads this`fileSize, this`fileLength, this`overrun, this`chunks, sentinel, chunks
    {
      && Ring([sentinel] + chunks)
      && sentinel.pointer == None && sentinel.size == 0 && sentinel.offset == 0
      && (!overrun ==> fileSize * PAGE_BYTES <= fileLength)
      && (forall c :: c in chunks ==> MappedOk(c) && c.refs == holders[c] && 0 < holders[c] < 0x1_0000)
      && (forall c :: c in holders ==> c in chunks)
    }

    ghost predicate Valid()
      reads this, sentinel, chunks
    {
      Counted(Holders())
    }

    /** `init_memory_manager`, on a file of the given length. */
    constructor (length: nat)
      ensures Valid() && fresh(sentinel) && chunks == [] && users == multiset{} && lastUsed == null
      ensures fileSize == 0 && fileLength == length && !overrun
    {
      sentinel := new Chunk();
      fileSize, fileLength, lastUsed, overrun := 0, length, null, false;
      chunks, users := [], multiset{};
      new;
      assert Tied([sentinel], 0);
    }

    /** `realloc_chunk` on a chunk that is not mapped: sizes it for the request, grows the file, maps it. */
    method ReallocChunk(c: Chunk, offset: nat, pages: nat)
      requires c.pointer == None && offset < 0x1_0000_0000 && 1 <= pages < 0x1_0000
      requires !overrun ==> fileSize * PAGE_BYTES <= fileLength
      modifies c, this`fileSize, this`fileLength, this`overrun
      ensures c.next == old(c.next) && c.prev == old(c.prev) && c.refs == old(c.refs)
      ensures MappedOk(c) && Contains(c, offset, pages) && c.offset == RoundDown(offset)
      ensures c.size % ALLOC_GRAN == 0 && c.offset + c.size <= offset + pages + ALLOC_GRAN
      ensures overrun <==> old(overrun) || offset >= BYTE_LIMIT
      ensures old(fileSize) <= fileSize && old(fileLength) <= fileLength && (!overrun ==> fileSize * PAGE_BYTES <= fileLength)
      ensures fileLength == old(fileLength) || (fileSize > old(fileSize) && fileLength == Bytes32(c.offset) + Bytes32(c.size))
      ensures !overrun && fileSize > old(fileSize) ==> fileSize == c.offset + c.size
    {
      hide RoundUp, RoundDown, Bytes32;
      ChunkFits(offset, pages);
      NewChunkStart(offset);
      NewChunkSize(offset, pages);
      var needFileSize := RoundUp((pages + offset) % 0x1_0000_0000) % 0x1_0000_0000;
      c.offset := RoundDown(offset);
      c.size := RoundUp(pages + (offset - c.offset));
      if fileSize < needFileSize {
        if fileLength < Bytes32(c.offset) + Bytes32(c.size) {
          fileLength := Bytes32(c.offset) + Bytes32(c.size);
        }
        fileSize := needFileSize;
      }
      c.pointer := Some(Mapping(Bytes32(c.offset), Bytes32(c.size)));
      overrun := overrun || offset >= BYTE_LIMIT;
    }

    /** A new chunk, not mapped yet, at the front of the list. */
    method Enlist() returns (c: Chunk)
      requires Ring([sentinel] + chunks)
      modifies this`chunks, sentinel, chunks
      ensures fresh(c) && chunks == [c] + old(chunks) && Ring([sentinel] + chunks) && c.refs == 1 && c.pointer == None
      ensures Same(sentinel) && forall d :: d in old(chunks) ==> Same(d) && d.refs == old(d.refs)
    {
      hide Ring;
      c := new Chunk();
      LstPush(sentinel, c, [sentinel] + chunks);
      assert ([sentinel] + chunks)[1..] == chunks;
      assert [sentinel, c] + chunks == [sentinel] + ([c] + chunks);
      chunks := [c] + chunks;
    }

    /** `alloc_chunk`: a new chunk at the front of the list, with one holder. */
    method AllocChunk(offset: nat, pages: nat, ghost holders: multiset<Chunk>) returns (c: Chunk)
      requires Counted(holders) && offset < 0x1_0000_0000 && 1 <= pages < 0x1_0000
      modifies this`fileSize, this`fileLength, this`overrun, this`chunks, sentinel, chunks
      ensures fresh(c) && chunks == [c] + old(chunks) && Contains(c, offset, pages) && c.offset == RoundDown(offset)
      ensures overrun <==> old(overrun) || offset >= BYTE_LIMIT
      ensures Counted(holders + multiset{c})
      ensures Stable(old(chunks))
    {
      hide RoundUp, RoundDown, Bytes32, Ring;
      c := Enlist();
      label Pushed:
      ReallocChunk(c, offset, pages);
      RingKept@Pushed([sentinel] + chunks);
    }

    /** The file is as long as before. */
    twostate predicate SameFile()
      reads this`fileSize, this`fileLength, this`overrun
    {
      fileSize == old(fileSize) && fileLength == old(fileLength) && overrun == old(overrun)
    }

    /** The mappings of these chunks are as before. */
    twostate predicate Stable(cs: seq<Chunk>)
      reads cs
    {
      forall c :: c in cs ==> Same(c)
    }

    twostate predicate Same(c: Chunk)
      reads c
    {
      c.size == old(c.size) && c.offset == old(c.offset) && c.pointer == old(c.pointer)
    }

    /** The search of `get_chunk_with`: the first listed chunk that contains the request, or else the sentinel. */
    method FindChunk(offset: nat, pages: nat) returns (c: Chunk)
      requires Ring([sentinel] + chunks) && sentinel.size == 0 && pages >= 1
      ensures if NoneWith(chunks, offset, pages) then c == sentinel else c in chunks && FirstWith(chunks, c, offset, pages)
    {
      ghost var ring := [sentinel] + chunks;
      ghost var i := 0;
      c := sentinel;
      while true
        invariant 0 <= i < |ring| && c == ring[i]
        invariant forall j :: 0 <= j < i ==> !Contains(ring[j], offset, pages)
        decreases |ring| - i
      {
        if Contains(c, offset, pages) {
          assert i > 0 && c == chunks[i - 1];
          assert forall j :: 0 <= j < i - 1 ==> chunks[j] == ring[j + 1];
          return c;
        }
        assert Tied(ring, i);
        c := c.next;
        if c == sentinel {
          break;
        }
        i := i + 1;
      }
      assert forall j :: 0 <= j < |chunks| ==> chunks[j] == ring[j + 1];
    }

    /**
     * `get_chunk_with`: the first chunk in list order that contains the request, or a new one;
     * never the sentinel. The caller becomes one more holder, which is counted right exactly
     * while the 16 bits of the counter can hold the number.
     */
    method GetChunkWith(offset: nat, pages: nat, ghost holders: multiset<Chunk>) returns (c: Chunk)
      requires Counted(holders) && offset < 0x1_0000_0000 && 1 <= pages < 0x1_0000
      modifies this`fileSize, this`fileLength, this`overrun, this`chunks, sentinel, chunks
      ensures c in chunks && MappedOk(c) && Contains(c, offset, pages)
      ensures Counted(holders + multiset{c}) <==> holders[c] + 1 < 0x1_0000
      ensures holders[c] + 1 == 0x1_0000 ==> c.refs == 0
      ensures forall d :: d in old(chunks) ==> d in chunks && Same(d)
      ensures old(NoneWith(chunks, offset, pages)) ==> fresh(c) && chunks == [c] + old(chunks)
      ensures !old(NoneWith(chunks, offset, pages)) ==> chunks == old(chunks) && FirstWith(chunks, c, offset, pages) && SameFile()
      ensures c !in old(chunks) ==> c.offset == RoundDown(offset) && (overrun <==> old(overrun) || offset >= BYTE_LIMIT)
      ensures !overrun ==> fileSize * PAGE_BYTES <= fileLength
    {
      hide RoundUp, RoundDown, Bytes32, Ring, Contains, FirstWith;
      c := FindChunk(offset, pages);
      if c == sentinel {
        SentinelApart();
        c := AllocChunk(offset, pages, holders);
      } else {
        FirstContains(chunks, c, offset, pages);
        Hold(c, holders);
      }
    }

    /** One holder more of a listed chunk. */
    method Hold(c: Chunk, ghost holders: multiset<Chunk>)
      requires Counted(holders) && c in chunks
      modifies c
      ensures Counted(holders + multiset{c}) <==> holders[c] + 1 < 0x1_0000
      ensures holders[c] + 1 == 0x1_0000 ==> c.refs == 0
      ensures Stable(chunks)
      ensures MappedOk(c)
    {
      hide Ring, Tied, Bytes32;
      SentinelApart();
      c.refs := (c.refs + 1) % 0x1_0000;
      RingLinked();
    }

    twostate lemma RingLinked()
      requires old(Ring([sentinel] + chunks)) && chunks == old(chunks)
      requires forall c :: c in [sentinel] + chunks ==> c.next == old(c.next) && c.prev == old(c.prev)
      ensures Ring([sentinel] + chunks)
    {
      RingKept([sentinel] + chunks);
    }

    lemma SentinelApart()
      requires Ring([sentinel] + chunks)
      ensures sentinel !in chunks
    {
      DistinctRest(sentinel, chunks);
    }

    lemma FirstContains(s: seq<Chunk>, c: Chunk, offset: nat, pages: nat)
      requires FirstWith(s, c, offset, pages)
      ensures c in s && Contains(c, offset, pages) && !NoneWith(s, offset, pages)
    {
    }

    /** Takes a chunk off the list. */
    method Unlist(c: Chunk)
      requires Ring([sentinel] + chunks) && c in chunks
      modifies this`chunks, sentinel, chunks
      ensures Ring([sentinel] + chunks)
      ensures TakenOut(old(chunks), c, chunks) && forall d :: d in chunks <==> d in old(chunks) && d != c
      ensures Same(sentinel) && forall d :: d in old(chunks) ==> Same(d) && d.refs == old(d.refs)
    {
      hide Ring;
      ghost var ring := [sentinel] + chunks;
      ghost var k :| 0 <= k < |chunks| && chunks[k] == c;
      RingMembers(sentinel, chunks, k);
      LstRemove(c, ring, k + 1);
      chunks := Without(chunks, k);
    }

    /** The last holder of a chunk leaves: the chunk is unmapped and unlisted. */
    method FreeLast(c: Chunk, ghost others: multiset<Chunk>)
      requires Counted(others + multiset{c}) && c.refs == 1
      modifies this`chunks, sentinel, chunks
      ensures Counted(others) && c !in chunks && c.pointer == None && TakenOut(old(chunks), c, chunks)
      ensures forall d :: d in chunks <==> d in old(chunks) && d != c
      ensures forall d :: d in old(chunks) && d != c ==> Same(d)
    {
      hide TakenOut, Tied, Bytes32;
      assert c in others + multiset{c};
      c.pointer := None;
      RingLinked();
      Unlist(c);
    }

    /** `free_chunk`: one holder leaves; with the last one the chunk is unmapped and unlisted. */
    method FreeChunk(c: Chunk, ghost others: multiset<Chunk>)
      requires Counted(others + multiset{c})
      modifies this`chunks, sentinel, chunks
      ensures Counted(others)
      ensures c in chunks <==> old(c.refs) > 1
      ensures c !in chunks ==> c.pointer == None
      ensures forall d :: d in chunks <==> d in old(chunks) && (d != c || old(c.refs) > 1)
      ensures forall i :: 0 <= i < |chunks| ==> chunks[i] in old(chunks)
      ensures if old(c.refs) > 1 then chunks == old(chunks) else TakenOut(old(chunks), c, chunks)
      ensures forall d :: d in old(chunks) && (d != c || old(c.refs) > 1) ==> Same(d)
    {
      hide TakenOut, Tied, Bytes32;
      assert c in others + multiset{c};
      if c.refs == 0 {
        assert false;
      } else if c.refs == 1 {
        FreeLast(c, others);
        return;
      }
      c.refs := c.refs - 1;
      RingLinked();
    }

    // -------------------------------------------------------------- what clients call

    /** `load_chunk`. */
    method LoadChunk(offset: nat, pages: nat) returns (u: UserChunk)
      requires Valid() && offset < 0x1_0000_0000 && 1 <= pages < 0x1_0000
      modifies this`fileSize, this`fileLength, this`overrun, this`chunks, this`users, sentinel, chunks
      ensures users == old(users) + multiset{u.backing} && lastUsed == old(lastUsed)
      ensures Valid() <==> Holders()[u.backing] < 0x1_0000
      ensures u.offset == offset && u.size == pages && u.backing in chunks && Contains(u.backing, offset, pages)
      ensures old(NoneWith(chunks, offset, pages)) ==> fresh(u.backing) && chunks == [u.backing] + old(chunks)
      ensures !old(NoneWith(chunks, offset, pages)) ==>
        chunks == old(chunks) && FirstWith(chunks, u.backing, offset, pages) && SameFile()
      ensures forall c :: c in old(chunks) ==> c in chunks && Same(c)
    {
      hide Ring, Counted, Last;
      var parent := GetChunkWith(offset, pages, Holders());
      u := UserChunk(parent, offset, pages);
      users := users + multiset{parent};
      assert Holders() == old(Holders()) + multiset{parent};
    }

    /** `remove_chunk`: every user chunk may be given back once. */
    method RemoveChunk(u: UserChunk)
      requires Valid() && u.backing in users
      modifies this`chunks, this`users, sentinel, chunks
      ensures Valid() && users == old(users) - multiset{u.backing} && lastUsed == old(lastUsed)
      ensures u.backing in chunks <==> old(u.backing.refs) > 1
      ensures if old(u.backing.refs) > 1 then chunks == old(chunks) else TakenOut(old(chunks), u.backing, chunks)
      ensures u.backing !in chunks ==> u.backing.pointer == None
      ensures forall c :: c in old(chunks) && c in chunks ==> Same(c)
    {
      hide Ring, Tied, Counted, Last, Contains, Bytes32, MemoryManager.MappedOk;
      MinusOne(users, Last(), u.backing);
      FreeChunk(u.backing, (users - multiset{u.backing}) + Last());
      users := users - multiset{u.backing};
    }

    /** The manager lets go of the chunk it used last. */
    method Release(ghost offset: nat, ghost pages: nat)
      requires Valid()
      modifies this`chunks, sentinel, chunks
      ensures Counted(users)
      ensures forall c :: c in old(chunks) && c in users ==> c in chunks && Same(c)
      ensures forall i :: 0 <= i < |chunks| ==> chunks[i] in old(chunks)
      ensures NoneWith(chunks, offset, pages) <==> !old(StaysWith(chunks, lastUsed, offset, pages))
    {
      hide Ring;
      if lastUsed != null {
        FreeChunk(lastUsed, users);
      } else {
        assert Holders() == users;
      }
    }

    /**
     * `get_pages`: a pointer that reaches over the whole request, in the first listed chunk that
     * contains it and is still listed without the manager's own hold, or else in a new one. It denotes the first byte of page
     * `offset` exactly when the chunk starts below the limit of byte offsets, which pages below the
     * limit always do, and pages beyond it never when the chunk is new.
     */
    method GetPages(offset: nat, pages: nat) returns (p: Pointer)
      requires Valid() && offset < 0x1_0000_0000 && 1 <= pages < 0x1_0000
      modifies this`fileSize, this`fileLength, this`overrun, this`chunks, this`lastUsed, sentinel, chunks
      ensures Valid() <==> Holders()[p.chunk] < 0x1_0000
      ensures lastUsed == p.chunk && p.chunk in chunks && Contains(p.chunk, offset, pages) && Reaches(p, pages)
      ensures FileByte(p) == Some(offset * PAGE_BYTES) <==> p.chunk.offset < BYTE_LIMIT
      ensures offset < BYTE_LIMIT ==> p.chunk.offset < BYTE_LIMIT
      ensures p.chunk !in old(chunks) ==> FileByte(p) == Some(Bytes32(offset)) && (p.chunk.offset < BYTE_LIMIT <==> offset < BYTE_LIMIT)
      ensures !overrun ==> FileByte(p) == Some(offset * PAGE_BYTES) && (p.chunk.offset + p.chunk.size) * PAGE_BYTES <= fileLength
      ensures overrun ==> old(overrun) || offset >= BYTE_LIMIT
      ensures forall c :: c in old(chunks) && c in old(users) ==> c in chunks && Same(c)
      ensures old(StaysWith(chunks, lastUsed, offset, pages)) ==>
        p.chunk in old(chunks) && FirstWith(chunks, p.chunk, offset, pages) && SameFile()
      ensures !old(StaysWith(chunks, lastUsed, offset, pages)) ==> fresh(p.chunk) && chunks[0] == p.chunk
      ensures forall c :: c in chunks && c != p.chunk ==> c in old(chunks)
    {
      hide Counted, Ring, Tied, Contains, Bytes32, RoundUp, RoundDown, NoneWith, StaysWith;
      Release(offset, pages);
      var c := GetChunkWith(offset, pages, users);
      ChunkPointer(c, offset, pages);
      NewChunkStart(offset);
      p := Pointer(c, Bytes32(offset - c.offset));
      lastUsed := c;
    }

    /** The place of a page in its chunk is computed right: chunks are smaller than the limit. */
    lemma ChunkPointer(c: Chunk, offset: nat, pages: nat)
      requires MappedOk(c) && Contains(c, offset, pages)
      ensures offset >= c.offset && Bytes32(offset - c.offset) == (offset - c.offset) * PAGE_BYTES
      ensures Reaches(Pointer(c, Bytes32(offset - c.offset)), pages)
      ensures FileByte(Pointer(c, Bytes32(offset - c.offset))) == Some(offset * PAGE_BYTES) <==> c.offset < BYTE_LIMIT
    {
    }

    /** `chunk_get_pointer`: an outstanding user chunk still denotes its page, if its chunk starts below the limit. */
    method ChunkGetPointer(u: UserChunk) returns (p: Pointer)
      requires Valid() && u.backing in users && Contains(u.backing, u.offset, u.size)
      ensures p.chunk == u.backing && Reaches(p, u.size)
      ensures FileByte(p) == Some(u.offset * PAGE_BYTES) <==> u.backing.offset < BYTE_LIMIT
      ensures u.offset < BYTE_LIMIT || !overrun ==> FileByte(p) == Some(u.offset * PAGE_BYTES)
    {
      assert u.backing in Holders();
      ChunkPointer(u.backing, u.offset, u.size);
      p := Pointer(u.backing, Bytes32(u.offset - u.backing.offset));
    }

    /** `destroy_memory_manager`: lets go of every holder's share until nothing is mapped. */
    method Destroy()
      requires Valid()
      modifies this`chunks, sentinel, chunks
      ensures chunks == [] && sentinel.pointer == None
      ensures forall c :: c in old(chunks) ==> c.pointer == None
    {
      hide MappedOk, Ring, Last, Counted;
      ghost var holders := Holders();
      FirstChunk(holders);
      while sentinel.next != sentinel
        invariant Counted(holders)
        invariant forall i :: 0 <= i < |chunks| ==> chunks[i] in old(chunks)
        invariant forall c :: c in old(chunks) ==> c in chunks || c.pointer == None
        decreases |holders|
      {
        FirstChunk(holders);
        var c := sentinel.next;
        assert holders == (holders - multiset{c}) + multiset{c};
        holders := holders - multiset{c};
        FreeChunk(c, holders);
      }
      FirstChunk(holders);
    }

    lemma FirstChunk(holders: multiset<Chunk>)
      requires Counted(holders)
      ensures chunks == [] <==> sentinel.next == sentinel
      ensures chunks != [] ==> sentinel.next == chunks[0] && chunks[0] in holders
      ensures sentinel.pointer == None && sentinel !in chunks
    {
      DistinctRest(sentinel, chunks);
      var ring := [sentinel] + chunks;
      assert Tied(ring, 0);
      if chunks != [] {
        assert ring[1] == chunks[0] && chunks[0] in chunks;
      }
    }
  }
}
