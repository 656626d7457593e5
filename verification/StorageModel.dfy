/**
 * The state of the storage file as one value, the invariant that ties the page headers,
 * the table records and the rows of the free-page table together, and one lemma per
 * elementary step of the list and allocator code.
 */
module StorageModel {
  import opened Common
  import opened Bytes
  import opened PageLayout
  import opened PageRows

  const RESERVED_TO_FILE_META: nat := 2
  const TABLES: nat := 0
  const SCHEME_TABLE: nat := 1
  const FREE_PAGES: nat := 2
  const FREE_ROW_SIZE: nat := 6
  const TABLE_RECORD_SIZE: nat := 50

  /** File byte offsets are computed in 32 bits, so no page lies beyond this one. */
  const PAGES_LIMIT: nat := 0x10_0000

  datatype Page = Page(rowSize: nat, scale: nat, prev: nat, next: nat, slots: Slots)

  datatype Tab = Tab(rowSize: nat, scale: nat, firstFree: nat, firstFull: nat)

  /** Each table has a list of pages with room and a list of full pages. */
  datatype ListId = ListId(tid: nat, full: bool)

  /** Who holds a page extent. `Moving` and `Loose` occur only inside an operation. */
  datatype Owner =
    | InList(id: ListId)
    | Moving(from: nat)
    | Loose
    | Recorded(page: nat, row: nat)

  datatype View = View(
    pages: map<nat, Page>,
    tabs: map<nat, Tab>,
    pagesNumber: nat,
    lists: map<ListId, seq<nat>>,
    owner: map<nat, Owner>)

  function EncodeFree(page: nat, scale: nat): (r: Row)
    requires page < 0x1_0000_0000 && scale < 0x1_0000
    ensures |r| == FREE_ROW_SIZE && DecodePage(r) == page && DecodeScale(r) == scale
  {
    var r := EncodeU32(page) + EncodeU16(scale);
    assert r[..4] == EncodeU32(page) && r[4..6] == EncodeU16(scale);
    r
  }

  function DecodePage(r: Row): nat
    requires |r| == FREE_ROW_SIZE
  {
    U32(r[..4])
  }

  function DecodeScale(r: Row): nat
    requires |r| == FREE_ROW_SIZE
  {
    U16(r[4..6])
  }

  function Head(tabs: map<nat, Tab>, id: ListId): nat
    requires id.tid in tabs
  {
    if id.full then tabs[id.tid].firstFull else tabs[id.tid].firstFree
  }

  function SetHead(tabs: map<nat, Tab>, id: ListId, head: nat): map<nat, Tab>
    requires id.tid in tabs
  {
    tabs[id.tid := if id.full then tabs[id.tid].(firstFull := head) else tabs[id.tid].(firstFree := head)]
  }

  /** The table a page belongs to, in a list or between its two lists; -1 for none. */
  ghost function TableOf(o: Owner): int {
    match o
    case InList(id) => id.tid
    case Moving(from) => from
    case _ => -1
  }

  ghost predicate Of(o: Owner, t: nat) {
    TableOf(o) == t
  }

  // ---------------------------------------------------------------- invariant

  ghost predicate TabOk(tab: Tab) {
    && 1 <= tab.rowSize && Mappable(tab.rowSize, tab.scale) && Capacity(tab.rowSize, tab.scale) >= 2
    && Least(tab.rowSize, tab.scale)
  }

  ghost predicate PageOk(g: Page) {
    && 1 <= g.rowSize && 1 <= g.scale < 0x1_0000
    && |g.slots| == Capacity(g.rowSize, g.scale)
    && forall r :: 0 <= r < |g.slots| && g.slots[r].Some? ==> |g.slots[r].value| == g.rowSize
  }

  /** No page header has row size 0, not even that of a page which is in no table. */
  ghost predicate AllSized(v: View) {
    forall p :: p in v.pages ==> v.pages[p].rowSize >= 1
  }

  /** A page of a table has the table's geometry. */
  ghost predicate Fits(g: Page, o: Owner, tabs: map<nat, Tab>) {
    TableOf(o) >= 0 ==>
      && TableOf(o) in tabs
      && g.rowSize == tabs[TableOf(o)].rowSize
      && g.scale == tabs[TableOf(o)].scale
  }

  ghost predicate Geometry(v: View) {
    && v.pages.Keys == v.owner.Keys && 0 !in v.pages
    && (forall id :: id in v.lists <==> id.tid in v.tabs)
    && (forall t :: t in v.tabs ==> TabOk(v.tabs[t]))
    && (forall p :: p in v.pages ==> PageOk(v.pages[p]))
    && (forall p :: p in v.pages ==> Fits(v.pages[p], v.owner[p], v.tabs))
    && FREE_PAGES in v.tabs && v.tabs[FREE_PAGES].rowSize == FREE_ROW_SIZE && v.tabs[FREE_PAGES].scale == 1
  }

  /** `s` is the doubly linked list that starts at `head`. */
  ghost predicate Chain(pages: map<nat, Page>, s: seq<nat>, head: nat) {
    && head == At(s, 0)
    && Distinct(s)
    && (forall i :: 0 <= i < |s| ==> s[i] in pages && s[i] != 0)
    && (forall i :: 0 <= i < |s| ==> Linked(pages, s, i))
  }

  ghost predicate Lists(v: View) {
    && (forall id :: id in v.lists ==> id.tid in v.tabs && Chain(v.pages, v.lists[id], Head(v.tabs, id)))
    && (forall id, p :: id in v.lists ==>
          (p in v.lists[id] <==> p in v.owner && v.owner[p] == InList(id)))
  }

  ghost predicate PageOccupancy(g: Page, full: bool) {
    if full then IsFull(g.slots) else !IsFull(g.slots) && !NoRows(g.slots)
  }

  /** Pages on a full list are full; pages on a free list have room and a row; `x` is exempt. */
  ghost predicate Occupancy(v: View, x: nat) {
    forall p :: p in v.pages && p in v.owner && p != x && v.owner[p].InList? ==> PageOccupancy(v.pages[p], v.owner[p].id.full)
  }

  ghost predicate IsRecord(pages: map<nat, Page>, q: nat, r: nat, p: nat) {
    && q in pages && r < |pages[q].slots| && p in pages && p < 0x1_0000_0000 && pages[p].scale < 0x1_0000
    && pages[q].slots[r] == Some(EncodeFree(p, pages[p].scale))
  }

  /** The rows of the free-page table are exactly the recorded pages, each with its own scale. */
  ghost predicate Records(v: View) {
    && (forall p :: p in v.owner && v.owner[p].Recorded? ==>
          var q := v.owner[p].page;
          IsRecord(v.pages, q, v.owner[p].row, p) && q in v.owner && Of(v.owner[q], FREE_PAGES))
    && (forall q, r :: q in v.owner && q in v.pages && Of(v.owner[q], FREE_PAGES) &&
                       0 <= r < |v.pages[q].slots| && v.pages[q].slots[r].Some? ==>
          RecordedAt(v, q, r))
  }

  /** Row `r` of page `q` is the record of some page. */
  ghost predicate RecordedAt(v: View, q: nat, r: nat) {
    exists p :: p in v.owner && v.owner[p] == Recorded(q, r)
  }

  ghost predicate Covers(pages: map<nat, Page>, p: nat, x: nat) {
    p in pages && p <= x < p + pages[p].scale
  }

  ghost predicate Covered(pages: map<nat, Page>, x: nat) {
    exists p :: Covers(pages, p, x)
  }

  /** The extents tile the data part of the file. */
  ghost predicate Tiling(v: View) {
    && RESERVED_TO_FILE_META <= v.pagesNumber <= PAGES_LIMIT
    && (forall p :: p in v.pages ==> RESERVED_TO_FILE_META <= p && p + v.pages[p].scale <= v.pagesNumber)
    && (forall p, q :: p in v.pages && q in v.pages && p < q ==> p + v.pages[p].scale <= q)
    && (forall x :: RESERVED_TO_FILE_META <= x < v.pagesNumber ==> Covered(v.pages, x))
  }

  /** The invariant inside an operation that is working on page `x` (0 for none). */
  ghost predicate Inv(v: View, x: nat) {
    Geometry(v) && Lists(v) && Occupancy(v, x) && Records(v) && Tiling(v)
  }

  ghost predicate IsLoose(v: View, p: nat) {
    p in v.owner && v.owner[p].Loose?
  }

  // ---------------------------------------------------------------- elementary steps

  /** Page 0 stands for "none", so a neighbour that is no page is left alone. */
  function SetNext(pages: map<nat, Page>, p: nat, next: nat): map<nat, Page> {
    if p in pages then pages[p := pages[p].(next := next)] else pages
  }

  function SetPrev(pages: map<nat, Page>, p: nat, prev: nat): map<nat, Page> {
    if p in pages then pages[p := pages[p].(prev := prev)] else pages
  }

  /** `remove_from_table_list` on the page headers; the removed page itself keeps its links. */
  function UnlinkPages(pages: map<nat, Page>, prev: nat, next: nat): map<nat, Page> {
    SetPrev(SetNext(pages, prev, next), next, prev)
  }

  /** `push_to_table_list` on the page headers. */
  function PushPages(pages: map<nat, Page>, p: nat, head: nat): map<nat, Page> {
    SetPrev(SetNext(SetPrev(pages, p, 0), p, head), head, p)
  }

  ghost function Unlink(v: View, id: ListId, k: nat, o: Owner): View
    requires id in v.lists && k < |v.lists[id]| && id.tid in v.tabs
  {
    var s := v.lists[id];
    View(UnlinkPages(v.pages, At(s, k - 1), At(s, k + 1)),
         if k == 0 then SetHead(v.tabs, id, At(s, 1)) else v.tabs,
         v.pagesNumber,
         v.lists[id := Without(s, k)],
         v.owner[s[k] := o])
  }

  ghost function Push(v: View, id: ListId, p: nat): View
    requires id in v.lists && id.tid in v.tabs
  {
    View(PushPages(v.pages, p, Head(v.tabs, id)),
         SetHead(v.tabs, id, p),
         v.pagesNumber,
         v.lists[id := [p] + v.lists[id]],
         v.owner[p := InList(id)])
  }

  /** Same pages, possibly relinked. */
  ghost predicate Relinked(a: map<nat, Page>, b: map<nat, Page>) {
    && a.Keys == b.Keys
    && forall p :: p in a ==> b[p].rowSize == a[p].rowSize && b[p].scale == a[p].scale && b[p].slots == a[p].slots
  }

  ghost predicate Linked(pages: map<nat, Page>, s: seq<nat>, i: nat)
    requires i < |s| && s[i] in pages
  {
    pages[s[i]].next == At(s, i + 1) && pages[s[i]].prev == At(s, i - 1)
  }

  lemma ChainUnlink(pages: map<nat, Page>, s: seq<nat>, head: nat, k: nat)
    requires Chain(pages, s, head) && k < |s| && 0 !in pages
    ensures Chain(UnlinkPages(pages, At(s, k - 1), At(s, k + 1)), Without(s, k), if k == 0 then At(s, 1) else head)
    ensures Relinked(pages, UnlinkPages(pages, At(s, k - 1), At(s, k + 1)))
    ensures forall p :: p in pages && (p !in s || p == s[k]) ==>
      UnlinkPages(pages, At(s, k - 1), At(s, k + 1))[p] == pages[p]
  {
    var b := UnlinkPages(pages, At(s, k - 1), At(s, k + 1));
    var w := Without(s, k);
    forall i | 0 <= i < |w| ensures Linked(b, w, i) {
      var j := if i < k then i else i + 1;
      assert w[i] == s[j] && Linked(pages, s, j);
    }
  }

  lemma ChainPush(pages: map<nat, Page>, s: seq<nat>, head: nat, p: nat)
    requires Chain(pages, s, head) && p in pages && p !in s && 0 !in pages
    ensures Chain(PushPages(pages, p, head), [p] + s, p)
    ensures Relinked(pages, PushPages(pages, p, head))
    ensures forall q :: q in pages && q != p && q !in s ==> PushPages(pages, p, head)[q] == pages[q]
  {
    var b := PushPages(pages, p, head);
    var w := [p] + s;
    forall i | 0 <= i < |w| ensures Linked(b, w, i) {
      if i > 0 {
        assert w[i] == s[i - 1] && Linked(pages, s, i - 1);
      }
    }
  }

  /** A list none of whose pages changed is still that list. */
  lemma ChainFrame(a: map<nat, Page>, b: map<nat, Page>, s: seq<nat>, head: nat)
    requires Chain(a, s, head)
    requires forall i :: 0 <= i < |s| ==> s[i] in b && b[s[i]].next == a[s[i]].next && b[s[i]].prev == a[s[i]].prev
    ensures Chain(b, s, head)
  {
    forall i | 0 <= i < |s| ensures Linked(b, s, i) {
      assert Linked(a, s, i);
    }
  }

  lemma TilingKept(v: View, w: View)
    requires Tiling(v) && w.pagesNumber == v.pagesNumber && w.pages.Keys == v.pages.Keys
    requires forall p :: p in v.pages ==> w.pages[p].scale == v.pages[p].scale
    ensures Tiling(w)
  {
    forall x | RESERVED_TO_FILE_META <= x < w.pagesNumber ensures Covered(w.pages, x) {
      assert Covered(v.pages, x);
      var e :| Covers(v.pages, e, x);
      assert Covers(w.pages, e, x);
    }
  }

  /** Rows kept, and no page that is or holds a record changed hands. */
  lemma RecordsKept(v: View, w: View, p: nat)
    requires Records(v) && v.pages.Keys == v.owner.Keys && p in v.pages
    requires Relinked(v.pages, w.pages) && w.owner.Keys == v.owner.Keys
    requires forall q :: q in v.owner && q != p ==> w.owner[q] == v.owner[q]
    requires !v.owner[p].Recorded? && !w.owner[p].Recorded?
    requires Of(v.owner[p], FREE_PAGES) == Of(w.owner[p], FREE_PAGES) || NoRows(v.pages[p].slots)
    ensures Records(w)
  {
    forall q, r | q in w.owner && q in w.pages && Of(w.owner[q], FREE_PAGES) &&
                  0 <= r < |w.pages[q].slots| && w.pages[q].slots[r].Some?
      ensures RecordedAt(w, q, r)
    {
      assert RecordedAt(v, q, r);
      var e :| e in v.owner && v.owner[e] == Recorded(q, r);
      assert e in w.owner && w.owner[e] == Recorded(q, r);
    }
  }

  lemma GeometryKept(v: View, w: View, p: nat)
    requires Geometry(v) && p in v.pages && Relinked(v.pages, w.pages)
    requires w.lists.Keys == v.lists.Keys && w.tabs.Keys == v.tabs.Keys && w.owner.Keys == v.owner.Keys
    requires forall t :: t in v.tabs ==> w.tabs[t].rowSize == v.tabs[t].rowSize && w.tabs[t].scale == v.tabs[t].scale
    requires forall q :: q in v.owner && q != p ==> w.owner[q] == v.owner[q]
    requires Fits(v.pages[p], w.owner[p], v.tabs)
    ensures Geometry(w)
  {
  }

  lemma OccupancyKept(v: View, w: View, p: nat, x: nat)
    requires Occupancy(v, x) && (x == p || x == 0) && v.pages.Keys == v.owner.Keys && 0 !in v.pages
    requires Relinked(v.pages, w.pages)
    requires w.owner.Keys == v.owner.Keys
    requires forall q :: q in v.owner && q != p ==> w.owner[q] == v.owner[q]
    ensures Occupancy(w, p)
  {
  }

  lemma UnlinkKeeps(v: View, id: ListId, k: nat, o: Owner)
    requires id in v.lists && k < |v.lists[id]|
    requires Inv(v, v.lists[id][k])
    requires o == Moving(id.tid) || (o == Loose && NoRows(v.pages[v.lists[id][k]].slots))
    ensures Inv(Unlink(v, id, k, o), v.lists[id][k])
    ensures Relinked(v.pages, Unlink(v, id, k, o).pages)
    ensures forall q :: q in v.pages && (q !in v.lists[id] || q == v.lists[id][k]) ==>
      Unlink(v, id, k, o).pages[q] == v.pages[q]
  {
    hide Records, Tiling, Chain, PageOk, TabOk, Occupancy, UnlinkPages;
    var s := v.lists[id];
    var p := s[k];
    var w := Unlink(v, id, k, o);
    assert p in s && p in v.owner && v.owner[p] == InList(id);
    ChainUnlink(v.pages, s, Head(v.tabs, id), k);
    GeometryKept(v, w, p);
    RecordsKept(v, w, p);
    TilingKept(v, w);
    OccupancyKept(v, w, p, p);
    UnlinkLists(v, id, k, o);
  }

  lemma UnlinkLists(v: View, id: ListId, k: nat, o: Owner)
    requires Geometry(v) && Lists(v) && id in v.lists && k < |v.lists[id]|
    requires o.Moving? || o.Loose?
    ensures Lists(Unlink(v, id, k, o))
  {
    hide Chain, TabOk, PageOk, Fits, UnlinkPages, Head, SetHead;
    var w := Unlink(v, id, k, o);
    forall d | d in w.lists ensures d.tid in w.tabs && Chain(w.pages, w.lists[d], Head(w.tabs, d)) {
      UnlinkChain(v, id, k, o, d);
    }
    forall d, q | d in w.lists
      ensures q in w.lists[d] <==> q in w.owner && w.owner[q] == InList(d)
    {
      UnlinkMembers(v, id, k, o, d, q);
    }
  }

  lemma UnlinkChain(v: View, id: ListId, k: nat, o: Owner, d: ListId)
    requires Geometry(v) && Lists(v) && id in v.lists && k < |v.lists[id]| && d in v.lists
    ensures var w := Unlink(v, id, k, o);
      d.tid in w.tabs && Chain(w.pages, w.lists[d], Head(w.tabs, d))
  {
    hide Chain, Capacity, TabOk, PageOk, Fits, Mappable;
    var s := v.lists[id];
    var w := Unlink(v, id, k, o);
    ChainUnlink(v.pages, s, Head(v.tabs, id), k);
    if d != id {
      assert Head(w.tabs, d) == Head(v.tabs, d);
      forall i | 0 <= i < |v.lists[d]| ensures v.lists[d][i] !in s && v.lists[d][i] in v.pages {
        assert v.lists[d][i] in v.lists[d];
        assert v.owner[v.lists[d][i]] == InList(d);
      }
      ChainFrame(v.pages, w.pages, v.lists[d], Head(v.tabs, d));
    }
  }

  lemma UnlinkMembers(v: View, id: ListId, k: nat, o: Owner, d: ListId, q: nat)
    requires Geometry(v) && Lists(v) && id in v.lists && k < |v.lists[id]| && d in v.lists
    requires o.Moving? || o.Loose?
    ensures var w := Unlink(v, id, k, o);
      q in w.lists[d] <==> q in w.owner && w.owner[q] == InList(d)
  {
    hide Linked, TabOk, PageOk, Fits, UnlinkPages, Head, SetHead;
    var s := v.lists[id];
    WithoutMembers(s, k, q);
    assert s[k] in s;
    assert q in v.lists[d] <==> q in v.owner && v.owner[q] == InList(d);
  }

  lemma PushKeeps(v: View, id: ListId, p: nat, x: nat)
    requires Inv(v, x) && (x == p || x == 0) && id in v.lists && p in v.pages
    requires v.owner[p] == Moving(id.tid) || (v.owner[p] == Loose && NoRows(v.pages[p].slots))
    requires v.pages[p].rowSize == v.tabs[id.tid].rowSize && v.pages[p].scale == v.tabs[id.tid].scale
    ensures Inv(Push(v, id, p), p)
    ensures Relinked(v.pages, Push(v, id, p).pages)
    ensures forall q :: q in v.pages && q !in v.lists[id] && q != p ==> Push(v, id, p).pages[q] == v.pages[q]
  {
    hide Records, Tiling, Chain, PageOk, TabOk, Occupancy;
    var s := v.lists[id];
    assert p !in s;
    var w := Push(v, id, p);
    ChainPush(v.pages, s, Head(v.tabs, id), p);
    GeometryKept(v, w, p);
    RecordsKept(v, w, p);
    TilingKept(v, w);
    OccupancyKept(v, w, p, x);
    PushLists(v, id, p);
  }

  lemma PushLists(v: View, id: ListId, p: nat)
    requires Geometry(v) && Lists(v) && id in v.lists && p in v.pages && p != 0
    requires v.owner[p].Moving? || v.owner[p].Loose?
    ensures Lists(Push(v, id, p))
  {
    hide Chain, TabOk, PageOk, Fits, PushPages, Head, SetHead;
    var w := Push(v, id, p);
    forall d | d in w.lists ensures d.tid in w.tabs && Chain(w.pages, w.lists[d], Head(w.tabs, d)) {
      PushChain(v, id, p, d);
    }
    forall d, q | d in w.lists
      ensures q in w.lists[d] <==> q in w.owner && w.owner[q] == InList(d)
    {
      assert q in v.lists[d] <==> q in v.owner && v.owner[q] == InList(d);
    }
  }

  lemma PushChain(v: View, id: ListId, p: nat, d: ListId)
    requires Geometry(v) && Lists(v) && id in v.lists && d in v.lists && p in v.pages && p != 0
    requires v.owner[p].Moving? || v.owner[p].Loose?
    ensures var w := Push(v, id, p);
      d.tid in w.tabs && Chain(w.pages, w.lists[d], Head(w.tabs, d))
  {
    hide Chain, Capacity;
    var s := v.lists[id];
    var w := Push(v, id, p);
    ChainPush(v.pages, s, Head(v.tabs, id), p);
    if d != id {
      assert Head(w.tabs, d) == Head(v.tabs, d);
      forall i | 0 <= i < |v.lists[d]| ensures v.lists[d][i] !in s && v.lists[d][i] != p && v.lists[d][i] in v.pages {
        assert v.lists[d][i] in v.lists[d];
        assert v.owner[v.lists[d][i]] == InList(d);
      }
      ChainFrame(v.pages, w.pages, v.lists[d], Head(v.tabs, d));
    }
  }

  // ---------------------------------------------------------------- steps that change rows

  /** Clearing a slot of the free-page table sets the recorded page loose. */
  ghost function ClearRow(v: View, p: nat, r: nat): View
    requires p in v.pages && p in v.owner && r < |v.pages[p].slots| && v.pages[p].slots[r].Some?
    requires Of(v.owner[p], FREE_PAGES) ==> |v.pages[p].slots[r].value| == FREE_ROW_SIZE
  {
    var g := v.pages[p];
    v.(pages := v.pages[p := g.(slots := g.slots[r := None])],
       owner := if Of(v.owner[p], FREE_PAGES) then v.owner[DecodePage(g.slots[r].value) := Loose] else v.owner)
  }

  /** Filling a slot of the free-page table records the page it names. */
  ghost function FillRow(v: View, p: nat, r: nat, row: Row): View
    requires p in v.pages && p in v.owner && r < |v.pages[p].slots|
    requires Of(v.owner[p], FREE_PAGES) ==> |row| == FREE_ROW_SIZE
  {
    var g := v.pages[p];
    v.(pages := v.pages[p := g.(slots := g.slots[r := Some(row)])],
       owner := if Of(v.owner[p], FREE_PAGES) then v.owner[DecodePage(row) := Recorded(p, r)] else v.owner)
  }

  ghost predicate SameHeader(a: Page, b: Page) {
    a.rowSize == b.rowSize && a.scale == b.scale && a.prev == b.prev && a.next == b.next
  }

  /** Everything but the record bookkeeping survives a change of one page's rows. */
  lemma SlotsKept(v: View, w: View, p: nat, x: nat)
    requires Geometry(v) && Lists(v) && Occupancy(v, x) && Tiling(v) && (x == p || x == 0)
    requires w.pages.Keys == v.pages.Keys && w.owner.Keys == v.owner.Keys && w.pagesNumber == v.pagesNumber
    requires p in v.pages && PageOk(w.pages[p])
    requires forall q :: q in v.pages && q != p ==> w.pages[q] == v.pages[q]
    requires SameHeader(v.pages[p], w.pages[p])
    requires w.tabs == v.tabs && w.lists == v.lists
    requires forall q :: q in v.owner ==>
      w.owner[q] == v.owner[q] || (!v.owner[q].InList? && (w.owner[q].Recorded? || w.owner[q].Loose?))
    ensures Geometry(w) && Lists(w) && Occupancy(w, p) && Tiling(w)
  {
    hide Tiling, Lists, Occupancy, TabOk, PageOk;
    SlotsGeometry(v, w, p);
    SlotsOccupancy(v, w, p, x);
    TilingKept(v, w);
    SlotsKeepLists(v, w);
  }

  lemma SlotsOccupancy(v: View, w: View, p: nat, x: nat)
    requires w.pages.Keys == v.pages.Keys && w.owner.Keys == v.owner.Keys && 0 !in v.pages && v.pages.Keys == v.owner.Keys
    requires Occupancy(v, x) && (x == p || x == 0)
    requires forall q :: q in v.pages && q != p ==> w.pages[q] == v.pages[q]
    requires forall q :: q in v.owner ==> w.owner[q] == v.owner[q] || !w.owner[q].InList?
    ensures Occupancy(w, p)
  {
  }

  lemma SlotsGeometry(v: View, w: View, p: nat)
    requires w.pages.Keys == v.pages.Keys && w.owner.Keys == v.owner.Keys && w.lists == v.lists && w.tabs == v.tabs
    requires Geometry(v) && p in v.pages && PageOk(w.pages[p])
    requires forall q :: q in v.pages && q != p ==> w.pages[q] == v.pages[q]
    requires SameHeader(v.pages[p], w.pages[p])
    requires forall q :: q in v.owner ==> w.owner[q] == v.owner[q] || TableOf(w.owner[q]) == -1
    ensures Geometry(w)
  {
    hide TabOk, PageOk;
  }

  lemma SlotsKeepLists(v: View, w: View)
    requires Geometry(v) && Lists(v)
    requires w.pages.Keys == v.pages.Keys && w.owner.Keys == v.owner.Keys
    requires forall q :: q in v.pages ==> w.pages[q].next == v.pages[q].next && w.pages[q].prev == v.pages[q].prev
    requires w.tabs == v.tabs && w.lists == v.lists
    requires forall q :: q in v.owner ==>
      w.owner[q] == v.owner[q] || (!v.owner[q].InList? && !w.owner[q].InList?)
    ensures Lists(w)
  {
    hide Chain, TabOk, PageOk;
    forall d | d in w.lists ensures d.tid in w.tabs && Chain(w.pages, w.lists[d], Head(w.tabs, d)) {
      forall i | 0 <= i < |v.lists[d]| ensures v.lists[d][i] in v.pages {
        assert v.lists[d][i] in v.lists[d];
      }
      ChainFrame(v.pages, w.pages, v.lists[d], Head(v.tabs, d));
    }
  }

  lemma ClearKeeps(v: View, p: nat, r: nat)
    requires Inv(v, p) && p in v.pages && v.owner[p].InList?
    requires r < |v.pages[p].slots| && v.pages[p].slots[r].Some?
    ensures |v.pages[p].slots[r].value| == v.pages[p].rowSize
    ensures Of(v.owner[p], FREE_PAGES) ==>
      var e := DecodePage(v.pages[p].slots[r].value);
      e in v.owner && v.owner[e] == Recorded(p, r) && v.pages[e].scale == DecodeScale(v.pages[p].slots[r].value)
    ensures Inv(ClearRow(v, p, r), p)
  {
    var w := ClearRow(v, p, r);
    RecordOf(v, p, r);
    ClearHeaders(v, p, r);
    hide *;
    SlotsKept(v, w, p, p);
    ClearRecords(v, p, r);
    InvOf(w, p);
  }

  lemma InvOf(v: View, x: nat)
    requires Geometry(v) && Lists(v) && Occupancy(v, x) && Records(v) && Tiling(v)
    ensures Inv(v, x)
  {
    hide Geometry, Lists, Occupancy, Records, Tiling;
  }

  /** An occupied row of the free-page table names the page it records. */
  lemma RecordOf(v: View, p: nat, r: nat)
    requires Geometry(v) && Records(v) && p in v.pages && v.owner[p].InList?
    requires r < |v.pages[p].slots| && v.pages[p].slots[r].Some?
    ensures |v.pages[p].slots[r].value| == v.pages[p].rowSize
    ensures Of(v.owner[p], FREE_PAGES) ==> v.pages[p].rowSize == FREE_ROW_SIZE
    ensures Of(v.owner[p], FREE_PAGES) ==>
      var e := DecodePage(v.pages[p].slots[r].value);
      e in v.owner && v.owner[e] == Recorded(p, r) && v.pages[e].scale == DecodeScale(v.pages[p].slots[r].value)
  {
    hide TabOk;
    assert PageOk(v.pages[p]) && Fits(v.pages[p], v.owner[p], v.tabs);
    if Of(v.owner[p], FREE_PAGES) {
      assert RecordedAt(v, p, r);
      var e :| e in v.owner && v.owner[e] == Recorded(p, r);
      assert IsRecord(v.pages, p, r, e);
    }
  }

  lemma ClearHeaders(v: View, p: nat, r: nat)
    requires Geometry(v) && p in v.pages && p in v.owner && v.owner[p].InList?
    requires r < |v.pages[p].slots| && v.pages[p].slots[r].Some?
    requires Of(v.owner[p], FREE_PAGES) ==> |v.pages[p].slots[r].value| == FREE_ROW_SIZE
    requires Of(v.owner[p], FREE_PAGES) ==> var e := DecodePage(v.pages[p].slots[r].value); e in v.owner && v.owner[e] == Recorded(p, r)
    ensures var w := ClearRow(v, p, r);
      && w.pages.Keys == v.pages.Keys && w.owner.Keys == v.owner.Keys && w.pagesNumber == v.pagesNumber
      && w.tabs == v.tabs && w.lists == v.lists
      && PageOk(w.pages[p]) && SameHeader(v.pages[p], w.pages[p])
      && (forall q :: q in v.pages && q != p ==> w.pages[q] == v.pages[q])
      && (forall q :: q in v.owner ==>
            w.owner[q] == v.owner[q] || (!v.owner[q].InList? && (w.owner[q].Recorded? || w.owner[q].Loose?)))
  {
    hide TabOk, DecodePage, DecodeScale, Fits;
    assert PageOk(v.pages[p]);
  }

  lemma ClearRecords(v: View, p: nat, r: nat)
    requires v.pages.Keys == v.owner.Keys && Records(v) && p in v.pages && v.owner[p].InList?
    requires r < |v.pages[p].slots| && v.pages[p].slots[r].Some?
    requires |v.pages[p].slots[r].value| == v.pages[p].rowSize
    requires Of(v.owner[p], FREE_PAGES) ==> |v.pages[p].slots[r].value| == FREE_ROW_SIZE
    requires Of(v.owner[p], FREE_PAGES) ==>
      var e := DecodePage(v.pages[p].slots[r].value); e in v.owner && v.owner[e] == Recorded(p, r)
    ensures Records(ClearRow(v, p, r))
  {
    hide TabOk, PageOk, EncodeFree, DecodePage, DecodeScale;
    var w := ClearRow(v, p, r);
    forall q, k | q in w.owner && q in w.pages && Of(w.owner[q], FREE_PAGES) &&
                  0 <= k < |w.pages[q].slots| && w.pages[q].slots[k].Some?
      ensures RecordedAt(w, q, k)
    {
      assert RecordedAt(v, q, k);
      var e :| e in v.owner && v.owner[e] == Recorded(q, k);
      assert w.owner[e] == Recorded(q, k);
    }
    forall e | e in w.owner && w.owner[e].Recorded?
      ensures IsRecord(w.pages, w.owner[e].page, w.owner[e].row, e)
      ensures w.owner[e].page in w.owner && Of(w.owner[w.owner[e].page], FREE_PAGES)
    {
      assert v.owner[e] == w.owner[e];
      assert IsRecord(v.pages, w.owner[e].page, w.owner[e].row, e);
    }
  }

  lemma FillKeeps(v: View, p: nat, r: nat, row: Row, x: nat)
    requires Inv(v, x) && (x == p || x == 0) && p in v.pages && v.owner[p].InList?
    requires r < |v.pages[p].slots| && |row| == v.pages[p].rowSize
    requires v.owner[p].id.tid == FREE_PAGES ==>
      && v.pages[p].slots[r].None? && |row| == FREE_ROW_SIZE
      && IsLoose(v, DecodePage(row)) && v.pages[DecodePage(row)].scale < 0x1_0000
      && row == EncodeFree(DecodePage(row), v.pages[DecodePage(row)].scale)
    ensures Inv(FillRow(v, p, r, row), p)
  {
    hide Lists, Tiling, Occupancy, TabOk, EncodeFree, DecodePage, DecodeScale;
    var w := FillRow(v, p, r, row);
    assert PageOk(v.pages[p]) && Fits(v.pages[p], v.owner[p], v.tabs);
    SlotsKept(v, w, p, x);
    FillRecords(v, p, r, row);
  }

  lemma FillRecords(v: View, p: nat, r: nat, row: Row)
    requires Geometry(v) && Records(v) && p in v.pages && v.owner[p].InList?
    requires r < |v.pages[p].slots|
    requires v.owner[p].id.tid == FREE_PAGES ==>
      && v.pages[p].slots[r].None? && |row| == FREE_ROW_SIZE
      && IsLoose(v, DecodePage(row)) && v.pages[DecodePage(row)].scale < 0x1_0000
      && row == EncodeFree(DecodePage(row), v.pages[DecodePage(row)].scale)
    ensures Records(FillRow(v, p, r, row))
  {
    hide TabOk, PageOk, EncodeFree, DecodeScale;
    var w := FillRow(v, p, r, row);
    forall q, k | q in w.owner && q in w.pages && Of(w.owner[q], FREE_PAGES) &&
                  0 <= k < |w.pages[q].slots| && w.pages[q].slots[k].Some?
      ensures RecordedAt(w, q, k)
    {
      if q == p && k == r {
        assert w.owner[DecodePage(row)] == Recorded(p, r);
      } else {
        assert RecordedAt(v, q, k);
        var e :| e in v.owner && v.owner[e] == Recorded(q, k);
        assert w.owner[e] == Recorded(q, k);
      }
    }
    forall e | e in w.owner && w.owner[e].Recorded?
      ensures IsRecord(w.pages, w.owner[e].page, w.owner[e].row, e)
      ensures w.owner[e].page in w.owner && Of(w.owner[w.owner[e].page], FREE_PAGES)
    {
      if v.owner[e] == w.owner[e] {
        assert IsRecord(v.pages, w.owner[e].page, w.owner[e].row, e);
      } else {
        assert e == DecodePage(row);
      }
    }
  }

  // ---------------------------------------------------------------- new pages and tables

  function FreshPage(rowSize: nat, scale: nat): Page
    requires scale >= 1
  {
    Page(rowSize, scale, 0, 0, seq(Capacity(rowSize, scale), _ => None))
  }

  /** The file grows by one extent. */
  ghost function Bump(v: View, rowSize: nat, scale: nat): View
    requires scale >= 1
  {
    v.(pages := v.pages[v.pagesNumber := FreshPage(rowSize, scale)],
       pagesNumber := v.pagesNumber + scale,
       owner := v.owner[v.pagesNumber := Loose])
  }

  /** `create_page` over an extent that is already there. */
  ghost function Reuse(v: View, p: nat, rowSize: nat): View
    requires p in v.pages && v.pages[p].scale >= 1
  {
    v.(pages := v.pages[p := FreshPage(rowSize, v.pages[p].scale)])
  }

  ghost function AddTable(v: View, t: nat, rowSize: nat, scale: nat): View {
    v.(tabs := v.tabs[t := Tab(rowSize, scale, 0, 0)],
       lists := v.lists[ListId(t, false) := []][ListId(t, true) := []])
  }

  lemma BumpKeeps(v: View, rowSize: nat, scale: nat)
    requires Inv(v, 0) && rowSize >= 1 && 1 <= scale < 0x1_0000 && v.pagesNumber + scale <= PAGES_LIMIT
    ensures v.pagesNumber !in v.pages
    ensures Inv(Bump(v, rowSize, scale), 0)
  {
    hide Records, Lists, Geometry, Occupancy;
    BumpGeometry(v, rowSize, scale);
    hide Tiling;
    BumpTiling(v, rowSize, scale);
    BumpLists(v, rowSize, scale);
    BumpRecords(v, rowSize, scale);
  }

  lemma BumpGeometry(v: View, rowSize: nat, scale: nat)
    requires Geometry(v) && Occupancy(v, 0) && rowSize >= 1 && 1 <= scale < 0x1_0000 && v.pagesNumber != 0
    ensures v.pages.Keys == v.owner.Keys
    ensures forall p :: p in v.pages ==> v.pages[p].scale >= 1
    ensures v.pagesNumber !in v.pages ==> Geometry(Bump(v, rowSize, scale)) && Occupancy(Bump(v, rowSize, scale), 0)
  {
    hide TabOk;
    forall p | p in v.pages ensures v.pages[p].scale >= 1 {
      assert PageOk(v.pages[p]);
    }
  }

  lemma BumpTiling(v: View, rowSize: nat, scale: nat)
    requires Tiling(v) && 1 <= scale && v.pagesNumber + scale <= PAGES_LIMIT
    requires forall p :: p in v.pages ==> v.pages[p].scale >= 1
    ensures v.pagesNumber !in v.pages
    ensures Tiling(Bump(v, rowSize, scale))
  {
    hide Capacity;
    var n := v.pagesNumber;
    var w := Bump(v, rowSize, scale);
    forall x | RESERVED_TO_FILE_META <= x < w.pagesNumber ensures Covered(w.pages, x) {
      if x < n {
        assert Covered(v.pages, x);
        var e :| Covers(v.pages, e, x);
        assert Covers(w.pages, e, x);
      } else {
        assert Covers(w.pages, n, x);
      }
    }
  }

  lemma BumpLists(v: View, rowSize: nat, scale: nat)
    requires Lists(v) && v.pages.Keys == v.owner.Keys && v.pagesNumber !in v.pages && scale >= 1
    ensures Lists(Bump(v, rowSize, scale))
  {
    hide Capacity;
    var w := Bump(v, rowSize, scale);
    forall d | d in w.lists ensures d.tid in w.tabs && Chain(w.pages, w.lists[d], Head(w.tabs, d)) {
      ChainFrame(v.pages, w.pages, v.lists[d], Head(v.tabs, d));
    }
  }

  lemma BumpRecords(v: View, rowSize: nat, scale: nat)
    requires Records(v) && v.pages.Keys == v.owner.Keys && v.pagesNumber !in v.pages && scale >= 1
    ensures Records(Bump(v, rowSize, scale))
  {
    hide EncodeFree, Capacity;
    var w := Bump(v, rowSize, scale);
    forall q, r | q in w.owner && q in w.pages && Of(w.owner[q], FREE_PAGES) &&
                  0 <= r < |w.pages[q].slots| && w.pages[q].slots[r].Some?
      ensures RecordedAt(w, q, r)
    {
      assert RecordedAt(v, q, r);
      var e :| e in v.owner && v.owner[e] == Recorded(q, r);
      assert w.owner[e] == Recorded(q, r);
    }
  }

  lemma ReuseKeeps(v: View, p: nat, rowSize: nat)
    requires Inv(v, 0) && IsLoose(v, p) && rowSize >= 1
    ensures Inv(Reuse(v, p, rowSize), 0)
  {
    hide Geometry, Occupancy, Records, Lists, Tiling, FreshPage;
    ReuseGeometry(v, p, rowSize);
    TilingKept(v, Reuse(v, p, rowSize));
    ReuseLists(v, p, rowSize);
    ReuseRecords(v, p, rowSize);
  }

  lemma ReuseGeometry(v: View, p: nat, rowSize: nat)
    requires Geometry(v) && Occupancy(v, 0) && IsLoose(v, p) && rowSize >= 1
    ensures v.pages.Keys == v.owner.Keys && p in v.pages && 1 <= v.pages[p].scale < 0x1_0000
    ensures var w := Reuse(v, p, rowSize);
      && Geometry(w) && Occupancy(w, 0) && w.pagesNumber == v.pagesNumber && w.pages.Keys == v.pages.Keys
      && forall q :: q in v.pages ==> w.pages[q].scale == v.pages[q].scale
  {
    hide TabOk, Capacity;
    assert PageOk(v.pages[p]);
    BlankGeometry(rowSize, v.pages[p].scale);
  }

  lemma BlankGeometry(rowSize: nat, scale: nat)
    requires rowSize >= 1 && 1 <= scale < 0x1_0000
    ensures PageOk(FreshPage(rowSize, scale))
  {
    hide Capacity;
  }

  lemma ReuseLists(v: View, p: nat, rowSize: nat)
    requires Lists(v) && v.pages.Keys == v.owner.Keys && IsLoose(v, p) && v.pages[p].scale >= 1
    ensures Lists(Reuse(v, p, rowSize))
  {
    hide Chain, Capacity;
    var w := Reuse(v, p, rowSize);
    forall d | d in w.lists ensures d.tid in w.tabs && Chain(w.pages, w.lists[d], Head(w.tabs, d)) {
      forall i | 0 <= i < |v.lists[d]| ensures v.lists[d][i] in v.pages && v.lists[d][i] != p {
        assert v.lists[d][i] in v.lists[d];
      }
      ChainFrame(v.pages, w.pages, v.lists[d], Head(v.tabs, d));
    }
  }

  lemma ReuseRecords(v: View, p: nat, rowSize: nat)
    requires Records(v) && v.pages.Keys == v.owner.Keys && IsLoose(v, p) && v.pages[p].scale >= 1
    ensures Records(Reuse(v, p, rowSize))
  {
    hide EncodeFree, Capacity;
    var w := Reuse(v, p, rowSize);
    forall q, r | q in w.owner && q in w.pages && Of(w.owner[q], FREE_PAGES) &&
                  0 <= r < |w.pages[q].slots| && w.pages[q].slots[r].Some?
      ensures RecordedAt(w, q, r)
    {
      assert RecordedAt(v, q, r);
      var e :| e in v.owner && v.owner[e] == Recorded(q, r);
      assert w.owner[e] == Recorded(q, r);
    }
  }

  lemma AddTableKeeps(v: View, t: nat, rowSize: nat, scale: nat)
    requires Inv(v, 0) && t !in v.tabs && TabOk(Tab(rowSize, scale, 0, 0))
    ensures Inv(AddTable(v, t, rowSize, scale), 0)
  {
    hide Records, Lists, Tiling, TabOk, PageOk;
    var w := AddTable(v, t, rowSize, scale);
    forall p | p in v.owner ensures TableOf(v.owner[p]) != t {
      assert Fits(v.pages[p], v.owner[p], v.tabs);
    }
    TilingKept(v, w);
    AddTableLists(v, t, rowSize, scale);
    AddTableRecords(v, w);
  }

  lemma AddTableLists(v: View, t: nat, rowSize: nat, scale: nat)
    requires Lists(v) && t !in v.tabs
    requires forall id :: id in v.lists <==> id.tid in v.tabs
    requires forall p :: p in v.owner ==> TableOf(v.owner[p]) != t
    ensures Lists(AddTable(v, t, rowSize, scale))
  {
    var w := AddTable(v, t, rowSize, scale);
    forall d | d in w.lists ensures d.tid in w.tabs && Chain(w.pages, w.lists[d], Head(w.tabs, d)) {
      if d.tid != t {
        ChainFrame(v.pages, w.pages, v.lists[d], Head(v.tabs, d));
      }
    }
  }

  lemma AddTableRecords(v: View, w: View)
    requires Records(v) && w.pages == v.pages && w.owner == v.owner
    ensures Records(w)
  {
    forall q, r | q in w.owner && q in w.pages && Of(w.owner[q], FREE_PAGES) &&
                  0 <= r < |w.pages[q].slots| && w.pages[q].slots[r].Some?
      ensures RecordedAt(w, q, r)
    {
      assert RecordedAt(v, q, r);
    }
  }

  /** Once page `x` is as its list demands, the exemption can be dropped. */
  lemma Settle(v: View, x: nat)
    requires Inv(v, x) && x in v.pages
    requires v.owner[x].InList? ==> PageOccupancy(v.pages[x], v.owner[x].id.full)
    ensures Inv(v, 0)
  {
    hide Chain, Capacity;
  }
}
