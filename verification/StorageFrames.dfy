/** What an operation on one table leaves alone, and what it does to the rows of that table. */
module StorageFrames {
  import opened Common
  import opened PageLayout
  import opened PageRows
  import opened StorageModel

  /** The row of table `t` kept at (page, row), if any. */
  ghost function RowAt(v: View, t: nat, p: nat, r: nat): Option<Row> {
    if p in v.pages && p in v.owner && v.owner[p].InList? && v.owner[p].id.tid == t && r < |v.pages[p].slots|
    then v.pages[p].slots[r]
    else None
  }

  /** Pages that are on no list and not recorded as free: none between operations. */
  ghost function Transits(v: View): set<nat> {
    set p | p in v.owner && (v.owner[p].Loose? || v.owner[p].Moving?)
  }

  ghost predicate NoMoving(v: View) {
    forall p :: p in v.owner ==> !v.owner[p].Moving?
  }

  /** A holder that an operation on table `t` must not disturb. */
  ghost predicate Foreign(o: Owner, t: nat) {
    TableOf(o) >= 0 && TableOf(o) != t && TableOf(o) != FREE_PAGES
  }

  /**
   * Every table but `t` and the free-page table, and every loose page but `x`, is as before;
   * no extent disappears or changes its size.
   */
  ghost predicate Untouched(v: View, w: View, t: nat, x: nat) {
    && v.pages.Keys == v.owner.Keys
    && w.pages.Keys == w.owner.Keys
    && w.tabs.Keys == v.tabs.Keys
    && w.lists.Keys == v.lists.Keys
    && (forall p :: p in v.pages ==> p in w.pages && w.pages[p].scale == v.pages[p].scale)
    && (forall p :: p in v.pages && p != x && (v.owner[p].Loose? || Foreign(v.owner[p], t)) ==> w.pages[p] == v.pages[p])
    && (forall p :: p in v.pages && Foreign(v.owner[p], t) ==> p in w.owner && w.owner[p] == v.owner[p])
    && (forall d :: d in v.lists && d.tid != t && d.tid != FREE_PAGES ==> w.lists[d] == v.lists[d])
    && (forall u :: u in v.tabs ==> SameTable(v.tabs[u], w.tabs[u], u == t || u == FREE_PAGES))
  }

  ghost predicate SameTable(a: Tab, b: Tab, relisted: bool) {
    b.rowSize == a.rowSize && b.scale == a.scale && (relisted || b == a)
  }

  ghost predicate SameRows(v: View, w: View, t: nat) {
    forall p: nat, r: nat :: RowAt(w, t, p, r) == RowAt(v, t, p, r)
  }

  ghost predicate SameRowsBut(v: View, w: View, t: nat, p: nat, r: nat) {
    forall q: nat, k: nat :: (q, k) != (p, r) ==> RowAt(w, t, q, k) == RowAt(v, t, q, k)
  }

  lemma UntouchedCompose(a: View, b: View, c: View, t: nat, x: nat)
    requires Untouched(a, b, t, 0) && Untouched(b, c, t, x) && 0 !in a.pages
    requires forall p :: p in a.owner && a.owner[p].Loose? ==> p in b.owner && b.owner[p].Loose? && p != x
    requires x in a.owner ==> !Foreign(a.owner[x], t)
    ensures Untouched(a, c, t, 0)
  {
    hide SameTable;
    forall u | u in a.tabs ensures SameTable(a.tabs[u], c.tabs[u], u == t || u == FREE_PAGES) {
      SameTableThen(a.tabs[u], b.tabs[u], c.tabs[u], u == t || u == FREE_PAGES);
    }
  }

  lemma SameTableThen(a: Tab, b: Tab, c: Tab, relisted: bool)
    requires SameTable(a, b, relisted) && SameTable(b, c, relisted)
    ensures SameTable(a, c, relisted)
  {
  }

  /** Other tables keep all their rows. */
  lemma UntouchedRows(v: View, w: View, t: nat, u: nat)
    requires Geometry(v) && Lists(v) && Geometry(w) && Lists(w) && Untouched(v, w, t, 0)
    requires u != t && u != FREE_PAGES
    ensures SameRows(v, w, u)
  {
    hide Chain, TabOk, PageOk, Capacity, SameTable;
    forall p: nat, r: nat ensures RowAt(w, u, p, r) == RowAt(v, u, p, r) {
      if p in w.owner && w.owner[p].InList? && w.owner[p].id.tid == u {
        var d := w.owner[p].id;
        assert Fits(w.pages[p], w.owner[p], w.tabs);
        assert d in w.lists && p in w.lists[d];
        assert p in v.lists[d];
        assert v.owner[p] == InList(d);
      }
      if p in v.owner && v.owner[p].InList? && v.owner[p].id.tid == u {
        assert Foreign(v.owner[p], t);
      }
    }
  }

  // ---------------------------------------------------------------- frames of the elementary steps

  lemma SetHeadSame(tabs: map<nat, Tab>, id: ListId, head: nat)
    requires id.tid in tabs
    ensures forall u, b :: u in tabs && (u == id.tid ==> b) ==> SameTable(tabs[u], SetHead(tabs, id, head)[u], b)
    ensures forall u, b :: u in tabs ==> SameTable(tabs[u], tabs[u], b)
  {
  }

  lemma UnlinkedPages(v: View, id: ListId, k: nat)
    requires Geometry(v) && Lists(v) && id in v.lists && k < |v.lists[id]| && id.tid in v.tabs
    ensures var s := v.lists[id]; var b := UnlinkPages(v.pages, At(s, k - 1), At(s, k + 1));
      && v.pages.Keys == v.owner.Keys && 0 !in v.pages && s[k] in v.owner && v.owner[s[k]] == InList(id)
      && b.Keys == v.pages.Keys && (forall q :: q in v.pages ==> b[q].scale == v.pages[q].scale)
      && (forall q :: q in v.pages && q !in s ==> b[q] == v.pages[q])
  {
    hide Chain, TabOk, PageOk, UnlinkPages;
    ChainUnlink(v.pages, v.lists[id], Head(v.tabs, id), k);
    assert v.lists[id][k] in v.lists[id];
  }

  lemma UnlinkFrame(v: View, id: ListId, k: nat, o: Owner)
    requires Geometry(v) && Lists(v) && id in v.lists && k < |v.lists[id]| && id.tid in v.tabs
    requires o == Moving(id.tid) || o == Loose
    ensures Untouched(v, Unlink(v, id, k, o), id.tid, 0)
    ensures Transits(Unlink(v, id, k, o)) == Transits(v) + {v.lists[id][k]}
  {
    hide Geometry, Lists, UnlinkPages, SameTable, SetHead;
    UnlinkedPages(v, id, k);
    SetHeadSame(v.tabs, id, At(v.lists[id], 1));
    NotListed(v, id);
    HeadKeys(v.tabs, id, At(v.lists[id], 1));
  }

  lemma HeadKeys(tabs: map<nat, Tab>, id: ListId, head: nat)
    requires id.tid in tabs
    ensures SetHead(tabs, id, head).Keys == tabs.Keys
  {
  }

  lemma NotListed(v: View, id: ListId)
    requires Lists(v) && id in v.lists && v.pages.Keys == v.owner.Keys
    ensures forall q :: q in v.pages && (v.owner[q].Loose? || v.owner[q].Moving? || Foreign(v.owner[q], id.tid)) ==> q !in v.lists[id]
  {
    hide Chain;
  }

  lemma PushedPages(v: View, id: ListId, p: nat)
    requires Geometry(v) && Lists(v) && id in v.lists && p in v.pages && id.tid in v.tabs
    requires v.owner[p] == Moving(id.tid) || v.owner[p] == Loose
    ensures var b := PushPages(v.pages, p, Head(v.tabs, id));
      && v.pages.Keys == v.owner.Keys && 0 !in v.pages
      && b.Keys == v.pages.Keys && (forall q :: q in v.pages ==> b[q].scale == v.pages[q].scale)
      && (forall q :: q in v.pages && q != p && q !in v.lists[id] ==> b[q] == v.pages[q])
  {
    hide Chain, TabOk, PageOk, PushPages;
    NotListed(v, id);
    ChainPush(v.pages, v.lists[id], Head(v.tabs, id), p);
  }

  lemma PushFrame(v: View, id: ListId, p: nat)
    requires Geometry(v) && Lists(v) && id in v.lists && p in v.pages && id.tid in v.tabs
    requires v.owner[p] == Moving(id.tid) || v.owner[p] == Loose
    ensures Untouched(v, Push(v, id, p), id.tid, if v.owner[p].Loose? then p else 0)
    ensures Transits(Push(v, id, p)) == Transits(v) - {p}
  {
    hide Geometry, Lists, PushPages, SameTable, SetHead;
    PushedPages(v, id, p);
    SetHeadSame(v.tabs, id, p);
    HeadKeys(v.tabs, id, p);
    NotListed(v, id);
    PushTransits(v, id, p);
  }

  lemma PushTransits(v: View, id: ListId, p: nat)
    requires id in v.lists && id.tid in v.tabs
    ensures Transits(Push(v, id, p)) == Transits(v) - {p}
  {
    hide PushPages;
  }

  /** A page that goes from one list of its table to the other. */
  ghost function Move(v: View, id: ListId, k: nat): View
    requires id in v.lists && k < |v.lists[id]| && id.tid in v.tabs && ListId(id.tid, !id.full) in v.lists
  {
    Push(Unlink(v, id, k, Moving(id.tid)), ListId(id.tid, !id.full), v.lists[id][k])
  }

  lemma MoveKeeps(v: View, id: ListId, k: nat)
    requires id in v.lists && k < |v.lists[id]| && id.tid in v.tabs && ListId(id.tid, !id.full) in v.lists
    requires v.lists[id][k] in v.pages && Inv(v, v.lists[id][k])
    requires PageOccupancy(v.pages[v.lists[id][k]], !id.full)
    ensures Inv(Move(v, id, k), 0)
    ensures Relinked(v.pages, Move(v, id, k).pages)
    ensures Untouched(v, Move(v, id, k), id.tid, 0)
    ensures Transits(Move(v, id, k)) == Transits(v)
    ensures SameRows(v, Move(v, id, k), id.tid)
  {
    var p := v.lists[id][k];
    var m := Unlink(v, id, k, Moving(id.tid));
    var to := ListId(id.tid, !id.full);
    hide *;
    InvParts(v, p);
    MoveGeometry(v, id, k);
    UnlinkKeeps(v, id, k, Moving(id.tid));
    UnlinkFrame(v, id, k, Moving(id.tid));
    InvParts(m, p);
    PushKeeps(m, to, p, p);
    PushFrame(m, to, p);
    MoveIs(v, id, k);
    var w := Push(m, to, p);
    MoveEnd(v, m, w, id, p);
    Settle(w, p);
  }

  /** The two halves of a move put together. */
  lemma MoveEnd(v: View, m: View, w: View, id: ListId, p: nat)
    requires p in v.owner && v.owner[p] == InList(id) && p in m.owner && m.owner[p] == Moving(id.tid)
    requires 0 !in v.pages && v.pages.Keys == v.owner.Keys
    requires Relinked(v.pages, m.pages) && Relinked(m.pages, w.pages)
    requires Untouched(v, m, id.tid, 0) && Untouched(m, w, id.tid, 0)
    requires Transits(m) == Transits(v) + {p} && Transits(w) == Transits(m) - {p}
    requires m.owner == v.owner[p := m.owner[p]] && w.owner == m.owner[p := InList(ListId(id.tid, !id.full))]
    requires p in v.pages && PageOccupancy(v.pages[p], !id.full)
    ensures p in w.pages && w.owner[p].InList? && PageOccupancy(w.pages[p], w.owner[p].id.full)
    ensures Untouched(v, w, id.tid, 0) && Transits(w) == Transits(v) && Relinked(v.pages, w.pages)
    ensures SameRows(v, w, id.tid)
  {
    hide Untouched, SameRows;
    assert p !in Transits(v);
    assert forall q :: q in v.owner && v.owner[q].Loose? ==> q in m.owner && m.owner[q].Loose?;
    MoveEndRows(v, w, id, p);
    UntouchedCompose(v, m, w, id.tid, 0);
  }

  lemma MoveEndRows(v: View, w: View, id: ListId, p: nat)
    requires p in v.owner && v.owner[p] == InList(id) && w.owner == v.owner[p := InList(ListId(id.tid, !id.full))]
    requires Relinked(v.pages, w.pages)
    ensures SameRows(v, w, id.tid)
  {
  }

  lemma MoveIs(v: View, id: ListId, k: nat)
    requires id in v.lists && k < |v.lists[id]| && id.tid in v.tabs && ListId(id.tid, !id.full) in v.lists
    ensures var m := Unlink(v, id, k, Moving(id.tid)); var to := ListId(id.tid, !id.full);
      && to in m.lists && to.tid in m.tabs && Push(m, to, v.lists[id][k]) == Move(v, id, k)
      && m.owner == v.owner[v.lists[id][k] := Moving(id.tid)]
      && Move(v, id, k).owner == m.owner[v.lists[id][k] := InList(to)]
  {
    hide UnlinkPages, PushPages;
  }

  lemma InvParts(v: View, x: nat)
    requires Inv(v, x)
    ensures Geometry(v) && Lists(v) && 0 !in v.pages && v.pages.Keys == v.owner.Keys
  {
    hide Lists, Occupancy, Records, Tiling;
  }

  lemma PageSized(v: View, x: nat, p: nat)
    requires Inv(v, x) && p in v.pages
    ensures v.pages[p].rowSize >= 1
  {
    hide Lists, Occupancy, Records, Tiling, TabOk, Fits, Capacity;
    assert PageOk(v.pages[p]);
  }

  lemma AllAreSized(v: View)
    requires Inv(v, 0)
    ensures AllSized(v)
  {
    hide Inv;
    forall p | p in v.pages ensures v.pages[p].rowSize >= 1 {
      PageSized(v, 0, p);
    }
  }

  lemma MoveGeometry(v: View, id: ListId, k: nat)
    requires Geometry(v) && Lists(v) && id in v.lists && k < |v.lists[id]|
    ensures var p := v.lists[id][k]; var to := ListId(id.tid, !id.full); var m := Unlink(v, id, k, Moving(id.tid));
      && p in v.pages && v.owner[p] == InList(id) && to in v.lists && id.tid in v.tabs
      && p in m.pages && m.owner[p] == Moving(id.tid) && to in m.lists && id.tid in m.tabs
      && m.pages[p].rowSize == m.tabs[id.tid].rowSize && m.pages[p].scale == m.tabs[id.tid].scale
  {
    hide Chain, TabOk, PageOk;
    var p := v.lists[id][k];
    assert p in v.lists[id];
    assert Fits(v.pages[p], v.owner[p], v.tabs);
    ChainUnlink(v.pages, v.lists[id], Head(v.tabs, id), k);
  }

  // ---------------------------------------------------------------- frames of the row steps

  lemma RecordKeys(v: View)
    requires Geometry(v)
    ensures v.pages.Keys == v.owner.Keys && 0 !in v.pages
  {
    hide TabOk, PageOk;
  }

  /** Slots of one listed page change, and at most one unlisted page `e` changes holder. */
  ghost predicate SlotsStep(v: View, w: View, p: nat, e: nat) {
    && v.pages.Keys == v.owner.Keys && w.pages.Keys == v.pages.Keys && w.owner.Keys == v.owner.Keys
    && w.tabs == v.tabs && w.lists == v.lists
    && p in v.pages && v.owner[p].InList? && w.owner[p] == v.owner[p]
    && (forall q :: q in v.pages && q != p ==> w.pages[q] == v.pages[q])
    && |w.pages[p].slots| == |v.pages[p].slots| && w.pages[p].scale == v.pages[p].scale
    && (forall q :: q in v.owner && q != e ==> w.owner[q] == v.owner[q])
    && (e in v.owner && w.owner[e] != v.owner[e] ==> TableOf(v.owner[e]) == -1 && TableOf(w.owner[e]) == -1)
  }

  lemma SlotsUntouched(v: View, w: View, p: nat, e: nat)
    requires SlotsStep(v, w, p, e)
    ensures Untouched(v, w, v.owner[p].id.tid, 0)
  {
  }

  lemma SlotsRows(v: View, w: View, p: nat, e: nat, r: nat)
    requires SlotsStep(v, w, p, e) && r < |v.pages[p].slots|
    requires w.pages[p].slots == v.pages[p].slots[r := w.pages[p].slots[r]]
    ensures var t := v.owner[p].id.tid; RowAt(w, t, p, r) == w.pages[p].slots[r] && SameRowsBut(v, w, t, p, r)
  {
  }

  lemma ClearFrame(v: View, p: nat, r: nat)
    requires Geometry(v) && Records(v) && p in v.pages && v.owner[p].InList?
    requires r < |v.pages[p].slots| && v.pages[p].slots[r].Some?
    ensures |v.pages[p].slots[r].value| == v.pages[p].rowSize
    ensures v.owner[p].id.tid == FREE_PAGES ==> |v.pages[p].slots[r].value| == FREE_ROW_SIZE
    ensures var t := v.owner[p].id.tid; var w := ClearRow(v, p, r);
      && Untouched(v, w, t, 0)
      && RowAt(w, t, p, r) == None && SameRowsBut(v, w, t, p, r)
      && Transits(w) == Transits(v) + (if t == FREE_PAGES then {DecodePage(v.pages[p].slots[r].value)} else {})
  {
    var w := ClearRow(v, p, r);
    RecordOf(v, p, r);
    RecordKeys(v);
    var e := if v.owner[p].id.tid == FREE_PAGES then DecodePage(v.pages[p].slots[r].value) else 0;
    hide Geometry, Records, DecodePage, DecodeScale, Untouched, RowAt;
    ClearStep(v, p, r, e);
    SlotsUntouched(v, w, p, e);
    SlotsRows(v, w, p, e, r);
  }

  lemma ClearStep(v: View, p: nat, r: nat, e: nat)
    requires v.pages.Keys == v.owner.Keys && p in v.pages && v.owner[p].InList?
    requires r < |v.pages[p].slots| && v.pages[p].slots[r].Some?
    requires v.owner[p].id.tid == FREE_PAGES ==> |v.pages[p].slots[r].value| == FREE_ROW_SIZE
    requires v.owner[p].id.tid == FREE_PAGES ==>
      e == DecodePage(v.pages[p].slots[r].value) && e in v.owner && v.owner[e] == Recorded(p, r)
    ensures var w := ClearRow(v, p, r);
      && SlotsStep(v, w, p, e) && w.pages[p].slots == v.pages[p].slots[r := None]
      && Transits(w) == Transits(v) + (if v.owner[p].id.tid == FREE_PAGES then {e} else {})
  {
    hide DecodePage;
  }

  lemma FillFrame(v: View, p: nat, r: nat, row: Row)
    requires Geometry(v) && p in v.pages && p in v.owner && v.owner[p].InList? && r < |v.pages[p].slots|
    requires v.owner[p].id.tid == FREE_PAGES ==> |row| == FREE_ROW_SIZE && IsLoose(v, DecodePage(row))
    ensures var t := v.owner[p].id.tid; var w := FillRow(v, p, r, row);
      && Untouched(v, w, t, 0)
      && RowAt(w, t, p, r) == Some(row) && SameRowsBut(v, w, t, p, r)
      && Transits(w) == Transits(v) - (if t == FREE_PAGES then {DecodePage(row)} else {})
  {
    hide Geometry, DecodePage, DecodeScale, Untouched;
    RecordKeys(v);
    var w := FillRow(v, p, r, row);
    var e := if v.owner[p].id.tid == FREE_PAGES then DecodePage(row) else 0;
    assert SlotsStep(v, w, p, e);
    SlotsUntouched(v, w, p, e);
    SlotsRows(v, w, p, e, r);
  }

  lemma BumpFrame(v: View, rowSize: nat, scale: nat, t: nat)
    requires Geometry(v) && scale >= 1 && v.pagesNumber !in v.pages && v.pagesNumber != 0
    ensures var w := Bump(v, rowSize, scale);
      && Untouched(v, w, t, 0) && (forall u: nat :: SameRows(v, w, u)) && Transits(w) == Transits(v) + {v.pagesNumber}
  {
    hide Geometry, FreshPage, SameTable;
    RecordKeys(v);
    SameTabs(v);
  }

  lemma SameTabs(v: View)
    ensures forall u, b :: u in v.tabs ==> SameTable(v.tabs[u], v.tabs[u], b)
  {
  }

  lemma ReuseFrame(v: View, p: nat, rowSize: nat, t: nat)
    requires Geometry(v) && IsLoose(v, p) && v.pages[p].scale >= 1
    ensures var w := Reuse(v, p, rowSize);
      && Untouched(v, w, t, p) && (forall u: nat :: SameRows(v, w, u)) && Transits(w) == Transits(v)
  {
    RecordKeys(v);
    hide Geometry, FreshPage;
  }

  // ---------------------------------------------------------------- facts the list code relies on

  /** Links of a listed page: none of the consistency checks in the list code can fail. */
  lemma LinkFacts(v: View, id: ListId, k: nat)
    requires Geometry(v) && Lists(v) && id in v.lists && k < |v.lists[id]|
    ensures id.tid in v.tabs && 0 !in v.pages
    ensures var s := v.lists[id]; var p := s[k];
      && p in v.pages && v.pages[p].prev == At(s, k - 1) && v.pages[p].next == At(s, k + 1)
      && (At(s, k - 1) == 0 <==> k == 0) && (k == 0 ==> p == Head(v.tabs, id))
      && (k > 0 ==> At(s, k - 1) in v.pages) && (k + 1 < |s| ==> At(s, k + 1) in v.pages)
      && (At(s, k + 1) == 0 <==> k + 1 == |s|)
  {
    hide TabOk, PageOk;
    var s := v.lists[id];
    assert Chain(v.pages, s, Head(v.tabs, id));
    assert Linked(v.pages, s, k);
  }

  /** The head of a list, as the code that pushes on it finds it. */
  lemma HeadFacts(v: View, id: ListId)
    requires Geometry(v) && Lists(v) && id in v.lists
    ensures id.tid in v.tabs && 0 !in v.pages
    ensures var h := Head(v.tabs, id);
      h != 0 ==> h in v.pages && v.pages[h].prev == 0 && v.pages[h].rowSize >= 1 && h in v.owner && v.owner[h] == InList(id)
  {
    hide TabOk, Capacity;
    var s := v.lists[id];
    assert Chain(v.pages, s, Head(v.tabs, id));
    if s != [] {
      assert PageOk(v.pages[s[0]]);
      assert Linked(v.pages, s, 0);
      assert s[0] in s;
    }
  }

  /** Every page that does not belong to table `t` keeps its content and its holder. */
  ghost predicate OthersKept(v: View, w: View, t: nat) {
    && w.pages.Keys == v.pages.Keys && v.owner.Keys == v.pages.Keys && w.owner.Keys == v.pages.Keys
    && forall q :: q in v.pages && !Of(v.owner[q], t) ==> w.pages[q] == v.pages[q] && w.owner[q] == v.owner[q]
  }

  lemma UnlinkOthers(v: View, id: ListId, k: nat, o: Owner)
    requires Geometry(v) && Lists(v) && id in v.lists && k < |v.lists[id]| && id.tid in v.tabs
    ensures OthersKept(v, Unlink(v, id, k, o), id.tid)
    ensures v.lists[id][k] in v.pages && v.lists[id][k] in Unlink(v, id, k, o).pages
    ensures Unlink(v, id, k, o).pages[v.lists[id][k]] == v.pages[v.lists[id][k]]
  {
    hide Chain, TabOk, PageOk, UnlinkPages;
    ChainUnlink(v.pages, v.lists[id], Head(v.tabs, id), k);
    assert v.lists[id][k] in v.lists[id];
    ListedOnly(v, id);
  }

  lemma ListedOnly(v: View, id: ListId)
    requires Lists(v) && id in v.lists && v.pages.Keys == v.owner.Keys
    ensures forall q :: q in v.pages && !Of(v.owner[q], id.tid) ==> q !in v.lists[id]
  {
    hide Chain;
  }

  lemma PushOthers(v: View, id: ListId, p: nat)
    requires Geometry(v) && Lists(v) && id in v.lists && p in v.pages && id.tid in v.tabs
    requires v.owner[p] == Moving(id.tid)
    ensures OthersKept(v, Push(v, id, p), id.tid)
  {
    hide Chain, TabOk, PageOk, PushPages;
    ListedOnly(v, id);
    assert p !in v.lists[id];
    ChainPush(v.pages, v.lists[id], Head(v.tabs, id), p);
  }

  /** What moving the page at position `k` of list `id` does to the whole state. */
  ghost predicate Moved(v: View, w: View, id: ListId, k: nat) {
    && id in v.lists && k < |v.lists[id]| && id.tid in v.tabs && ListId(id.tid, !id.full) in v.lists
    && w == Move(v, id, k)
    && Inv(w, 0) && NoMoving(w)
    && Untouched(v, w, id.tid, 0) && SameRows(v, w, id.tid) && Transits(w) == Transits(v)
    && Relinked(v.pages, w.pages) && OthersKept(v, w, id.tid)
  }

  lemma MoveIsMoved(v: View, id: ListId, k: nat)
    requires id in v.lists && k < |v.lists[id]| && v.lists[id][k] in v.pages
    requires Inv(v, v.lists[id][k]) && NoMoving(v)
    requires PageOccupancy(v.pages[v.lists[id][k]], !id.full)
    ensures id.tid in v.tabs && ListId(id.tid, !id.full) in v.lists
    ensures Moved(v, Move(v, id, k), id, k)
  {
    hide *;
    InvParts(v, v.lists[id][k]);
    MoveGeometry(v, id, k);
    MoveKeeps(v, id, k);
    MoveCalm(v, id, k);
    MoveOthers(v, id, k);
    MovedOf(v, id, k);
  }

  lemma MoveOthers(v: View, id: ListId, k: nat)
    requires id in v.lists && k < |v.lists[id]| && v.lists[id][k] in v.pages && Inv(v, v.lists[id][k])
    requires id.tid in v.tabs && ListId(id.tid, !id.full) in v.lists
    ensures OthersKept(v, Move(v, id, k), id.tid)
  {
    hide *;
    var p := v.lists[id][k];
    InvParts(v, p);
    MoveReady(v, id, k);
    var m := Unlink(v, id, k, Moving(id.tid));
    MoveGeometry(v, id, k);
    UnlinkOthers(v, id, k, Moving(id.tid));
    PushOthers(m, ListId(id.tid, !id.full), p);
    MoveIs(v, id, k);
    OthersCompose(v, m, Move(v, id, k), id.tid);
  }

  lemma OthersCompose(v: View, m: View, w: View, t: nat)
    requires OthersKept(v, m, t) && OthersKept(m, w, t)
    ensures OthersKept(v, w, t)
  {
  }

  /** Between the two halves of a move the state is still well formed. */
  lemma MoveReady(v: View, id: ListId, k: nat)
    requires id in v.lists && k < |v.lists[id]| && v.lists[id][k] in v.pages && Inv(v, v.lists[id][k])
    ensures Geometry(v) && Lists(v) && id.tid in v.tabs
    ensures var m := Unlink(v, id, k, Moving(id.tid)); var p := v.lists[id][k];
      && Geometry(m) && Lists(m) && ListId(id.tid, !id.full) in m.lists
      && p in m.pages && p in m.owner && m.owner[p].Moving?
      && m.pages[p].rowSize == v.pages[p].rowSize && m.pages[p].scale == v.pages[p].scale
  {
    hide *;
    InvParts(v, v.lists[id][k]);
    MoveGeometry(v, id, k);
    UnlinkKeeps(v, id, k, Moving(id.tid));
    InvParts(Unlink(v, id, k, Moving(id.tid)), v.lists[id][k]);
  }

  lemma MovedOf(v: View, id: ListId, k: nat)
    requires id in v.lists && k < |v.lists[id]| && id.tid in v.tabs && ListId(id.tid, !id.full) in v.lists
    requires var w := Move(v, id, k);
      && Inv(w, 0) && NoMoving(w)
      && Untouched(v, w, id.tid, 0) && SameRows(v, w, id.tid) && Transits(w) == Transits(v)
      && Relinked(v.pages, w.pages) && OthersKept(v, w, id.tid)
    ensures Moved(v, Move(v, id, k), id, k)
  {
    hide Inv, NoMoving, Untouched, SameRows, Transits, Relinked, OthersKept, Move;
  }

  lemma MoveCalm(v: View, id: ListId, k: nat)
    requires id in v.lists && k < |v.lists[id]| && id.tid in v.tabs && ListId(id.tid, !id.full) in v.lists
    requires NoMoving(v)
    ensures NoMoving(Move(v, id, k))
  {
    hide UnlinkPages, PushPages;
  }

  // ---------------------------------------------------------------- what the operations promise

  /** `w` is `v` with one more loose page `p`, blank, either recycled or from the end of the file. */
  ghost predicate PageAdded(v: View, w: View, p: nat, rowSize: nat, scale: nat) {
    && scale >= 1 && Inv(w, 0) && NoMoving(w) && Untouched(v, w, FREE_PAGES, 0)
    && IsLoose(w, p) && p in w.pages && w.pages[p] == FreshPage(rowSize, scale)
    && (p in v.owner ==> v.owner[p].Recorded?)
    && Transits(w) == Transits(v) + {p}
  }

  /** `w` is `v` with table `t` able to take a row in page `p`, the head of its first list. */
  ghost predicate RoomMade(v: View, w: View, t: nat, p: nat) {
    && Inv(w, p) && NoMoving(w) && Untouched(v, w, t, 0) && Transits(w) == Transits(v)
    && t in w.tabs && ListId(t, false) in w.lists
    && p == w.tabs[t].firstFree && At(w.lists[ListId(t, false)], 0) == p
    && p in w.pages && p in w.owner && w.owner[p] == InList(ListId(t, false))
    && w.pages[p].rowSize == w.tabs[t].rowSize
    && !IsFull(w.pages[p].slots) && |w.pages[p].slots| >= 2
    && (t != FREE_PAGES ==> SameRows(v, w, t))
  }

  /** A row of the free-page table names a loose page and that page's scale. */
  ghost predicate Recordable(v: View, row: Row) {
    && |row| == FREE_ROW_SIZE && IsLoose(v, DecodePage(row)) && DecodePage(row) in v.pages
    && DecodePage(row) < 0x1_0000_0000 && v.pages[DecodePage(row)].scale < 0x1_0000
    && row == EncodeFree(DecodePage(row), v.pages[DecodePage(row)].scale)
  }

  ghost function Named(t: nat, row: Row): set<nat> {
    if t == FREE_PAGES && |row| == FREE_ROW_SIZE then {DecodePage(row)} else {}
  }

  /** A row written to the free-page table is now the record of the page it names. */
  ghost predicate NowRecorded(w: View, t: nat, p: nat, r: nat, row: Row) {
    t == FREE_PAGES && |row| == FREE_ROW_SIZE ==> DecodePage(row) in w.owner && w.owner[DecodePage(row)] == Recorded(p, r)
  }

  /** `w` is `v` with exactly one more row in table `t`. */
  ghost predicate RowInserted(v: View, w: View, t: nat, p: nat, r: nat, row: Row) {
    && Inv(w, 0) && NoMoving(w) && Untouched(v, w, t, 0)
    && RowAt(w, t, p, r) == Some(row)
    && (t != FREE_PAGES ==> RowAt(v, t, p, r) == None && SameRowsBut(v, w, t, p, r))
    && Transits(w) == Transits(v) - Named(t, row)
    && NowRecorded(w, t, p, r, row)
  }

  /** What a removal does to the lists of its table. */
  ghost predicate ListsAfterRemoval(v: View, w: View, t: nat, p: nat, k: nat) {
    && p in v.owner && v.owner[p].InList? && v.owner[p].id.tid == t && p in w.owner
    && ListId(t, false) in v.lists && ListId(t, true) in v.lists
    && ListId(t, false) in w.lists && ListId(t, true) in w.lists
    && v.owner[p].id in v.lists && k < |v.lists[v.owner[p].id]| && v.lists[v.owner[p].id][k] == p
    && var free, full := v.lists[ListId(t, false)], v.lists[ListId(t, true)];
    if v.owner[p].id == ListId(t, true) then
      && w.lists[ListId(t, true)] == Without(full, k)
      && w.lists[ListId(t, false)] == [p] + free
    else if w.owner[p].InList? then
      w.lists[ListId(t, false)] == free && w.lists[ListId(t, true)] == full
    else
      v.owner[p].id == ListId(t, false) && w.lists[ListId(t, false)] == Without(free, k) && w.lists[ListId(t, true)] == full
  }

  /** `w` is `v` without the row of table `t` at (p, r). */
  ghost predicate RowRemoved(v: View, w: View, t: nat, p: nat, r: nat, k: nat) {
    && Inv(w, 0) && NoMoving(w) && Untouched(v, w, t, 0)
    && RowAt(v, t, p, r).Some?
    && (t != FREE_PAGES ==> RowAt(w, t, p, r) == None && SameRowsBut(v, w, t, p, r))
    && Transits(w) == Transits(v) + Named(t, RowAt(v, t, p, r).value)
    && (t != FREE_PAGES ==>
          && p in v.pages && p in w.pages && r < |v.pages[p].slots|
          && w.pages[p].slots == v.pages[p].slots[r := None]
          && (p in w.owner && !w.owner[p].InList? ==> w.pages[p].next == v.pages[p].next && NoRows(w.pages[p].slots))
          && ListsAfterRemoval(v, w, t, p, k))
  }

  /** `w` is `v` with the row of table `t` at (p, r) overwritten in place. */
  ghost predicate RowReplaced(v: View, w: View, t: nat, p: nat, r: nat, row: Row) {
    && Inv(w, 0) && NoMoving(w) && Untouched(v, w, t, 0) && Transits(w) == Transits(v)
    && RowAt(v, t, p, r).Some? && RowAt(w, t, p, r) == Some(row) && SameRowsBut(v, w, t, p, r)
    && w.lists == v.lists && w.tabs == v.tabs && w.pagesNumber == v.pagesNumber
    && p in v.pages && r < |v.pages[p].slots| && w.pages == v.pages[p := v.pages[p].(slots := v.pages[p].slots[r := Some(row)])]
  }
}
