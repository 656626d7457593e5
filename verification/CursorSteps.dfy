/** How changes made through a cursor affect what is still ahead of it. */
module CursorSteps {
  import opened Common
  import opened PageLayout
  import opened PageRows
  import opened StorageModel
  import opened StorageFrames
  import opened CursorModel

  lemma {:induction false} WalkSame(a: map<nat, Page>, b: map<nat, Page>, s: seq<nat>, f: Filter)
    requires forall j :: 0 <= j < |s| ==> s[j] in a && s[j] in b && a[s[j]].slots == b[s[j]].slots
    ensures WalkHits(a, s, f) == WalkHits(b, s, f)
  {
    if s != [] {
      forall j | 0 <= j < |s[1..]| ensures s[1..][j] in a && s[1..][j] in b && a[s[1..][j]].slots == b[s[1..][j]].slots {
        assert s[1..][j] == s[j + 1];
      }
      WalkSame(a, b, s[1..], f);
    }
  }

  lemma {:induction false} WalkAppend(a: map<nat, Page>, s: seq<nat>, s': seq<nat>, f: Filter)
    ensures WalkHits(a, s + s', f) == WalkHits(a, s, f) + WalkHits(a, s', f)
  {
    if s == [] {
      assert s + s' == s';
    } else {
      assert (s + s')[1..] == s[1..] + s';
      WalkAppend(a, s[1..], s', f);
    }
  }

  lemma {:induction false} HitsSame(s: Slots, s': Slots, p: nat, k: nat, f: Filter)
    requires |s| == |s'| && forall r :: k <= r < |s| ==> s[r] == s'[r]
    ensures Hits(s, p, k, f) == Hits(s', p, k, f)
    decreases |s| - k
  {
    if k < |s| {
      HitsSame(s, s', p, k + 1, f);
    }
  }

  lemma SlotsFromRows(v: View, w: View, t: nat, p: nat, r: nat, q: nat)
    requires Geometry(v) && Geometry(w) && Untouched(v, w, t, 0) && SameRowsBut(v, w, t, p, r) && q != p
    requires q in v.owner && v.owner[q].InList? && v.owner[q].id.tid == t
    requires q in w.owner && w.owner[q].InList? && w.owner[q].id.tid == t
    ensures q in v.pages && q in w.pages && w.pages[q].slots == v.pages[q].slots
  {
    assert Fits(v.pages[q], v.owner[q], v.tabs) && Fits(w.pages[q], w.owner[q], w.tabs);
    assert PageOk(v.pages[q]) && PageOk(w.pages[q]);
    assert SameTable(v.tabs[t], w.tabs[t], true);
    hide TabOk, PageOk, Capacity;
    forall k | 0 <= k < |v.pages[q].slots| ensures w.pages[q].slots[k] == v.pages[q].slots[k] {
      assert RowAt(v, t, q, k) == v.pages[q].slots[k];
      assert RowAt(w, t, q, k) == w.pages[q].slots[k];
    }
  }

  lemma ListSlots(v: View, w: View, t: nat, p: nat, r: nat, d: ListId, e: ListId)
    requires Inv(v, 0) && Inv(w, 0) && Untouched(v, w, t, 0) && SameRowsBut(v, w, t, p, r)
    requires d in v.lists && e in w.lists && d.tid == t && e.tid == t
    ensures forall j :: 0 <= j < |v.lists[d]| && v.lists[d][j] != p && v.lists[d][j] in w.lists[e] ==>
      v.lists[d][j] in v.pages && v.lists[d][j] in w.pages && w.pages[v.lists[d][j]].slots == v.pages[v.lists[d][j]].slots
  {
    hide Occupancy, Records, Tiling, Untouched, SameRowsBut, Chain, TabOk, PageOk;
    forall j | 0 <= j < |v.lists[d]| && v.lists[d][j] != p && v.lists[d][j] in w.lists[e]
      ensures v.lists[d][j] in v.pages && v.lists[d][j] in w.pages && w.pages[v.lists[d][j]].slots == v.pages[v.lists[d][j]].slots
    {
      var q := v.lists[d][j];
      assert q in v.lists[d] && q in w.lists[e];
      SlotsFromRows(v, w, t, p, r, q);
    }
  }

  /** What a removal through the cursor rests on. */
  ghost predicate RemovedAt(v: View, w: View, t: nat, c: Cursor, i: nat, k: nat, f: Filter) {
    && Inv(v, 0) && t != FREE_PAGES && c.row > 0
    && CursorOk(v, t, c, i) && OnPage(v.lists[ListId(t, c.full)], c, i)
    && RowRemoved(v, w, t, c.page, c.row - 1, k)
  }

  /**
   * The cursor `d` on the changed table: if there was nothing to report behind the old
   * cursor but its own row, there is nothing behind the new one, and the same is ahead.
   */
  ghost predicate SameAhead(v: View, w: View, t: nat, c: Cursor, i: nat, d: Cursor, j: nat, f: Filter) {
    && CursorOk(v, t, c, i) && CursorOk(w, t, d, j) && c.row > 0
    && (Behind(v, t, c, i, c.row - 1, f) ==>
          Pending(w, t, d, j, f) == Pending(v, t, c, i, f) && Behind(w, t, d, j, d.row, f))
  }

  /**
   * `rows_iterator_remove_current`: a page of the second list has jumped to the head of the
   * first one and the cursor switches to that list; a page that was freed keeps only its
   * stale link. Either way the passing rows ahead are the same as before.
   */
  lemma RemovalAhead(v: View, w: View, t: nat, c: Cursor, i: nat, k: nat, f: Filter) returns (j: nat)
    requires RemovedAt(v, w, t, c, i, k, f)
    ensures SameAhead(v, w, t, c, i, Cursor(c.page, c.row, false), j, f)
  {
    hide Inv, Pending, Behind, CursorOk, NoRows, RowRemoved, SameAhead, RemovedAt, Shifted;
    PlaceOfCursor(v, w, t, c, i, k, f);
    ShiftedBy(v, w, t, c, i, f);
    if c.full {
      j := 1;
      assert w.lists[ListId(t, false)][0] == c.page;
      FromFullList(v, w, t, c, i, f);
    } else if w.owner[c.page].InList? {
      j := i;
      assert w.lists[ListId(t, false)][i - 1] == c.page;
      StillListed(v, w, t, c, i, f);
    } else {
      j := i - 1;
      PageGone(v, w, t, c, i, f);
    }
  }

  lemma PlaceOfCursor(v: View, w: View, t: nat, c: Cursor, i: nat, k: nat, f: Filter)
    requires RemovedAt(v, w, t, c, i, k, f)
    ensures i > 0 && k == i - 1 && c.page in w.owner && c.page in v.owner && v.owner[c.page] == InList(ListId(t, c.full))
    ensures ListsAfterRemoval(v, w, t, c.page, i - 1)
  {
    hide *;
    RemovedParts(v, w, t, c, i, k, f);
    InvParts(v, 0);
    PlaceUnique(v, t, c, i, k);
  }

  lemma RemovedParts(v: View, w: View, t: nat, c: Cursor, i: nat, k: nat, f: Filter)
    requires RemovedAt(v, w, t, c, i, k, f)
    ensures Inv(v, 0) && Inv(w, 0) && c.row > 0 && t != FREE_PAGES && OnPage(v.lists[ListId(t, c.full)], c, i) && CursorOk(v, t, c, i)
    ensures ListId(t, c.full) in v.lists && 0 < i <= |v.lists[ListId(t, c.full)]| && v.lists[ListId(t, c.full)][i - 1] == c.page
    ensures Untouched(v, w, t, 0) && SameRowsBut(v, w, t, c.page, c.row - 1)
    ensures ListsAfterRemoval(v, w, t, c.page, k)
    ensures c.page in v.pages && c.page in w.pages && c.row - 1 < |v.pages[c.page].slots|
    ensures w.pages[c.page].slots == v.pages[c.page].slots[c.row - 1 := None]
    ensures c.page in w.owner && !w.owner[c.page].InList? ==>
      w.pages[c.page].next == v.pages[c.page].next && NoRows(w.pages[c.page].slots)
    ensures c.page in v.owner && v.owner[c.page].InList? && v.owner[c.page].id in v.lists && v.owner[c.page].id.tid == t
    ensures k < |v.lists[v.owner[c.page].id]| && v.lists[v.owner[c.page].id][k] == c.page && c.page in w.owner
  {
    hide Inv, NoMoving, Untouched, SameRowsBut, Behind, Transits, RowAt, Named;
  }

  lemma PlaceUnique(v: View, t: nat, c: Cursor, i: nat, k: nat)
    requires Lists(v) && ListId(t, c.full) in v.lists && 0 < i <= |v.lists[ListId(t, c.full)]|
    requires v.lists[ListId(t, c.full)][i - 1] == c.page
    requires c.page in v.owner && v.owner[c.page].InList? && v.owner[c.page].id in v.lists
    requires k < |v.lists[v.owner[c.page].id]| && v.lists[v.owner[c.page].id][k] == c.page
    ensures v.owner[c.page] == InList(ListId(t, c.full)) && k == i - 1
  {
    var s := v.lists[ListId(t, c.full)];
    assert s[i - 1] in s;
    assert Chain(v.pages, s, Head(v.tabs, ListId(t, c.full)));
  }

  /** The pages of the table that keep all their rows. */
  ghost predicate Alike(v: View, w: View, q: nat) {
    q in v.pages && q in w.pages && w.pages[q].slots == v.pages[q].slots
  }

  lemma OtherPages(v: View, w: View, t: nat, c: Cursor, i: nat, k: nat, f: Filter, d: ListId, e: ListId)
    requires RemovedAt(v, w, t, c, i, k, f) && d in v.lists && e in w.lists && d.tid == t && e.tid == t
    ensures forall j :: 0 <= j < |v.lists[d]| && v.lists[d][j] != c.page && v.lists[d][j] in w.lists[e] ==> Alike(v, w, v.lists[d][j])
  {
    hide Inv, Untouched, SameRowsBut;
    RemovedParts(v, w, t, c, i, k, f);
    ListSlots(v, w, t, c.page, c.row - 1, d, e);
  }

  /** The lists of the table, once the row at the cursor is gone, from the lists before. */
  ghost predicate Shifted(v: View, w: View, t: nat, c: Cursor, i: nat) {
    && ListId(t, false) in v.lists && ListId(t, true) in v.lists && ListId(t, false) in w.lists && ListId(t, true) in w.lists
    && 0 < i <= |v.lists[ListId(t, c.full)]| && v.lists[ListId(t, c.full)][i - 1] == c.page
    && Distinct(v.lists[ListId(t, c.full)]) && c.page !in v.lists[ListId(t, !c.full)]
    && (forall d, j :: d in v.lists && d.tid == t && 0 <= j < |v.lists[d]| && v.lists[d][j] != c.page ==> Alike(v, w, v.lists[d][j]))
    && c.page in v.pages && c.page in w.pages && c.page != 0 && 0 < c.row <= |v.pages[c.page].slots|
    && w.pages[c.page].slots == v.pages[c.page].slots[c.row - 1 := None]
  }

  lemma ShiftedBy(v: View, w: View, t: nat, c: Cursor, i: nat, f: Filter)
    requires i > 0 && RemovedAt(v, w, t, c, i, i - 1, f)
    ensures Shifted(v, w, t, c, i)
    ensures var free := w.lists[ListId(t, false)];
      forall j :: 0 <= j < |free| && free[j] == c.page ==> w.pages[c.page].next == At(free, j + 1)
    ensures ListsAfterRemoval(v, w, t, c.page, i - 1) && c.page in v.owner && c.page in w.owner
    ensures v.owner[c.page] == InList(ListId(t, c.full))
    ensures !w.owner[c.page].InList? ==> w.pages[c.page].next == v.pages[c.page].next && NoRows(w.pages[c.page].slots)
    ensures CursorOk(v, t, c, i)
  {
    hide *;
    RemovedParts(v, w, t, c, i, i - 1, f);
    PlaceOfCursor(v, w, t, c, i, i - 1, f);
    InvParts(v, 0);
    InvParts(w, 0);
    ListsThere(v, w, t, c, i - 1);
    ListsDistinct(v, t, c, i);
    TableAlike(v, w, t, c, i, f);
    HeadLinks(w, t);
    CursorRow(v, t, c, i);
    ShiftedOf(v, w, t, c, i);
  }

  lemma ListsThere(v: View, w: View, t: nat, c: Cursor, k: nat)
    requires ListsAfterRemoval(v, w, t, c.page, k)
    ensures ListId(t, false) in v.lists && ListId(t, true) in v.lists && ListId(t, false) in w.lists && ListId(t, true) in w.lists
  {
  }

  lemma CursorRow(v: View, t: nat, c: Cursor, i: nat)
    requires CursorOk(v, t, c, i) && c.page in v.pages && 0 !in v.pages
    ensures c.page != 0 && c.row <= |v.pages[c.page].slots|
  {
  }

  lemma HeadLinks(w: View, t: nat)
    requires Lists(w)
    ensures ListId(t, false) in w.lists ==>
      var free := w.lists[ListId(t, false)];
      forall j :: 0 <= j < |free| ==> free[j] in w.pages && w.pages[free[j]].next == At(free, j + 1)
  {
    if ListId(t, false) in w.lists {
      var free := w.lists[ListId(t, false)];
      assert Chain(w.pages, free, Head(w.tabs, ListId(t, false)));
      forall j | 0 <= j < |free| ensures free[j] in w.pages && w.pages[free[j]].next == At(free, j + 1) {
        assert Linked(w.pages, free, j);
      }
    }
  }

  lemma ListsDistinct(v: View, t: nat, c: Cursor, i: nat)
    requires Lists(v) && ListId(t, c.full) in v.lists && ListId(t, !c.full) in v.lists
    requires c.page in v.owner && v.owner[c.page] == InList(ListId(t, c.full))
    ensures Distinct(v.lists[ListId(t, c.full)]) && c.page !in v.lists[ListId(t, !c.full)]
  {
    assert Chain(v.pages, v.lists[ListId(t, c.full)], Head(v.tabs, ListId(t, c.full)));
  }

  lemma TableAlike(v: View, w: View, t: nat, c: Cursor, i: nat, f: Filter)
    requires i > 0 && RemovedAt(v, w, t, c, i, i - 1, f)
    requires c.page in v.owner && v.owner[c.page] == InList(ListId(t, c.full))
    ensures forall d, j :: d in v.lists && d.tid == t && 0 <= j < |v.lists[d]| && v.lists[d][j] != c.page ==> Alike(v, w, v.lists[d][j])
  {
    hide *;
    RemovedParts(v, w, t, c, i, i - 1, f);
    ListsThere(v, w, t, c, i - 1);
    forall d, j | d in v.lists && d.tid == t && 0 <= j < |v.lists[d]| && v.lists[d][j] != c.page
      ensures Alike(v, w, v.lists[d][j])
    {
      var e := StillSomewhere(v, w, t, c, i - 1, d, j);
      OtherPages(v, w, t, c, i, i - 1, f, d, e);
    }
  }

  /** A removal drops no page other than the one in hand from the table's lists. */
  lemma StillSomewhere(v: View, w: View, t: nat, c: Cursor, k: nat, d: ListId, j: nat) returns (e: ListId)
    requires ListsAfterRemoval(v, w, t, c.page, k) && d in v.lists && d.tid == t && j < |v.lists[d]| && v.lists[d][j] != c.page
    ensures e in w.lists && e.tid == t && v.lists[d][j] in w.lists[e]
  {
    e := d;
    if v.owner[c.page].id == d && (d.full || !w.owner[c.page].InList?) {
      assert w.lists[d][if j < k then j else j - 1] == v.lists[d][j];
    } else if !d.full && v.owner[c.page].id.full {
      assert w.lists[d][j + 1] == v.lists[d][j];
    } else {
      assert w.lists[d][j] == v.lists[d][j];
    }
  }

  lemma ShiftedOf(v: View, w: View, t: nat, c: Cursor, i: nat)
    requires ListId(t, false) in v.lists && ListId(t, true) in v.lists && ListId(t, false) in w.lists && ListId(t, true) in w.lists
    requires 0 < i <= |v.lists[ListId(t, c.full)]| && v.lists[ListId(t, c.full)][i - 1] == c.page
    requires Distinct(v.lists[ListId(t, c.full)]) && c.page !in v.lists[ListId(t, !c.full)]
    requires forall d, j :: d in v.lists && d.tid == t && 0 <= j < |v.lists[d]| && v.lists[d][j] != c.page ==> Alike(v, w, v.lists[d][j])
    requires c.page in v.pages && c.page in w.pages && c.page != 0 && 0 < c.row <= |v.pages[c.page].slots|
    requires w.pages[c.page].slots == v.pages[c.page].slots[c.row - 1 := None]
    ensures Shifted(v, w, t, c, i)
  {
  }

  lemma FromFullList(v: View, w: View, t: nat, c: Cursor, i: nat, f: Filter)
    requires Shifted(v, w, t, c, i) && c.full && CursorOk(v, t, c, i)
    requires w.lists[ListId(t, false)] == [c.page] + v.lists[ListId(t, false)]
    requires w.lists[ListId(t, true)] == Without(v.lists[ListId(t, true)], i - 1)
    requires w.pages[c.page].next == At(w.lists[ListId(t, false)], 1)
    ensures SameAhead(v, w, t, c, i, Cursor(c.page, c.row, false), 1, f)
  {
    hide Hits, WalkHits, NoHits, Hit;
    var free, full := v.lists[ListId(t, false)], v.lists[ListId(t, true)];
    var full' := w.lists[ListId(t, true)];
    var d := Cursor(c.page, c.row, false);
    assert CursorOk(w, t, d, 1);
    if Behind(v, t, c, i, c.row - 1, f) {
      assert w.lists[ListId(t, false)][1..] == free;
      assert full[i..] == full[i - 1..][1..];
      assert full' == full[..i - 1] + full[i..];
      var before := full[..i - 1];
      forall j | 0 <= j < |before| ensures before[j] in v.pages && NoHits(v.pages[before[j]].slots, f) {
        assert before[j] == full[j];
      }
      HitsSame(v.pages[c.page].slots, w.pages[c.page].slots, c.page, c.row, f);
      WalkSame(v.pages, w.pages, free, f);
      WalkAppend(w.pages, full[..i - 1], full[i..], f);
      WalkSame(v.pages, w.pages, full[..i - 1], f);
      WalkSame(v.pages, w.pages, full[i..], f);
      WalkNone(v.pages, full[..i - 1], f);
      assert Pending(w, t, d, 1, f) == Pending(v, t, c, i, f);
      RowsBefore(v.pages[c.page].slots, w.pages[c.page].slots, c.row, f);
    }
  }

  /** Rows before the removed one have nothing to report, and now neither has the removed one. */
  lemma RowsBefore(s: Slots, s': Slots, k: nat, f: Filter)
    requires 0 < k <= |s| && s' == s[k - 1 := None]
    requires forall r: nat :: r < k - 1 ==> !Hit(s, r, f)
    ensures forall r: nat :: r < k ==> !Hit(s', r, f)
  {
    forall r: nat | r < k ensures !Hit(s', r, f) {
      if r < k - 1 {
        assert !Hit(s, r, f);
      }
    }
  }

  lemma StillListed(v: View, w: View, t: nat, c: Cursor, i: nat, f: Filter)
    requires Shifted(v, w, t, c, i) && !c.full && CursorOk(v, t, c, i)
    requires w.lists[ListId(t, false)] == v.lists[ListId(t, false)] && w.lists[ListId(t, true)] == v.lists[ListId(t, true)]
    requires w.pages[c.page].next == At(w.lists[ListId(t, false)], i)
    ensures SameAhead(v, w, t, c, i, Cursor(c.page, c.row, false), i, f)
  {
    hide Hits, WalkHits, Hit;
    var free, full := v.lists[ListId(t, false)], v.lists[ListId(t, true)];
    if Behind(v, t, c, i, c.row - 1, f) {
      HitsSame(v.pages[c.page].slots, w.pages[c.page].slots, c.page, c.row, f);
      WalkSame(v.pages, w.pages, free[i..], f);
      WalkSame(v.pages, w.pages, full, f);
      RowsBefore(v.pages[c.page].slots, w.pages[c.page].slots, c.row, f);
      SameClean(v, w, t, c, i, f);
    }
  }

  lemma SameClean(v: View, w: View, t: nat, c: Cursor, i: nat, f: Filter)
    requires Shifted(v, w, t, c, i) && !c.full && CleanTo(v, v.lists[ListId(t, false)], c, i, c.row - 1, f)
    ensures forall j :: 0 <= j < i && v.lists[ListId(t, false)][j] != c.page ==>
      v.lists[ListId(t, false)][j] in w.pages && NoHits(w.pages[v.lists[ListId(t, false)][j]].slots, f)
  {
    hide NoHits, Hit;
    var free := v.lists[ListId(t, false)];
    forall j | 0 <= j < i && free[j] != c.page ensures free[j] in w.pages && NoHits(w.pages[free[j]].slots, f) {
      assert Alike(v, w, free[j]);
    }
  }

  lemma PageGone(v: View, w: View, t: nat, c: Cursor, i: nat, f: Filter)
    requires Shifted(v, w, t, c, i) && !c.full && CursorOk(v, t, c, i)
    requires NoRows(w.pages[c.page].slots)
    requires w.lists[ListId(t, false)] == Without(v.lists[ListId(t, false)], i - 1)
    requires w.lists[ListId(t, true)] == v.lists[ListId(t, true)]
    requires w.pages[c.page].next == v.pages[c.page].next
    ensures SameAhead(v, w, t, c, i, Cursor(c.page, c.row, false), i - 1, f)
  {
    hide Hits, WalkHits, Hit;
    var free, full := v.lists[ListId(t, false)], v.lists[ListId(t, true)];
    if Behind(v, t, c, i, c.row - 1, f) {
      HitsSame(v.pages[c.page].slots, w.pages[c.page].slots, c.page, c.row, f);
      assert w.lists[ListId(t, false)][i - 1..] == free[i..];
      WalkSame(v.pages, w.pages, free[i..], f);
      WalkSame(v.pages, w.pages, full, f);
      RowsBefore(v.pages[c.page].slots, w.pages[c.page].slots, c.row, f);
      SameClean(v, w, t, c, i, f);
    }
  }

  lemma NextReady(v: View)
    requires Inv(v, 0)
    ensures Lists(v) && AllSized(v)
  {
    hide Inv, Lists, AllSized;
    InvParts(v, 0);
    AllAreSized(v);
  }

  /** A row that was found is a row of the table. */
  lemma FoundRow(v: View, t: nat, c: Cursor, i: nat, d: Cursor, j: nat, f: Filter)
    requires Inv(v, 0) && FoundAt(v, t, c, i, d, j, f)
    ensures RowAt(v, t, d.page, d.row - 1).Some? && RowAt(v, t, d.page, d.row - 1) == v.pages[d.page].slots[d.row - 1]
    ensures f(RowAt(v, t, d.page, d.row - 1).value)
  {
    hide Occupancy, Records, Tiling, TabOk, PageOk, Chain, Pending, Behind;
    assert v.lists[ListId(t, d.full)][j - 1] in v.lists[ListId(t, d.full)];
  }

  lemma RowPage(v: View, t: nat, p: nat, r: nat)
    requires Inv(v, 0) && RowAt(v, t, p, r).Some?
    ensures p != 0
  {
    InvParts(v, 0);
    hide Inv;
  }

  lemma RemovedGood(v: View, w: View, t: nat, p: nat, r: nat, k: nat)
    requires RowRemoved(v, w, t, p, r, k) && t != FREE_PAGES
    ensures Inv(w, 0) && NoMoving(w) && Untouched(v, w, t, 0) && Transits(w) == Transits(v)
    ensures RowAt(v, t, p, r).Some? && RowAt(w, t, p, r) == None && SameRowsBut(v, w, t, p, r)
  {
    hide Inv, NoMoving, Untouched, Transits, RowAt, SameRowsBut, ListsAfterRemoval;
  }

  lemma ReplacedGood(v: View, w: View, t: nat, p: nat, r: nat, row: Row)
    requires RowReplaced(v, w, t, p, r, row)
    ensures Inv(w, 0) && NoMoving(w) && Untouched(v, w, t, 0) && Transits(w) == Transits(v)
    ensures w.tabs == v.tabs && w.pagesNumber == v.pagesNumber
    ensures RowAt(w, t, p, r) == Some(row) && SameRowsBut(v, w, t, p, r)
  {
    hide Inv, NoMoving, Untouched, Transits, RowAt, SameRowsBut;
  }

  /** Overwriting the current row changes nothing ahead of the cursor. */
  lemma ReplacementAhead(v: View, w: View, t: nat, c: Cursor, i: nat, row: Row, f: Filter)
    requires Inv(v, 0) && CursorOk(v, t, c, i) && c.row > 0 && OnPage(v.lists[ListId(t, c.full)], c, i)
    requires RowReplaced(v, w, t, c.page, c.row - 1, row)
    ensures CursorOk(w, t, c, i) && Pending(w, t, c, i, f) == Pending(v, t, c, i, f)
  {
    hide *;
    InvParts(v, 0);
    ReplacedPages(v, w, t, c, row);
    OwnPlace(v, t, c, i);
    ListsDistinct(v, t, c, i);
    ReplacementWalk(v, w, t, c, i, row, f);
  }

  lemma ReplacedPages(v: View, w: View, t: nat, c: Cursor, row: Row)
    requires c.row > 0 && RowReplaced(v, w, t, c.page, c.row - 1, row)
    ensures c.page in v.pages && c.row - 1 < |v.pages[c.page].slots| && w.lists == v.lists
    ensures w.pages == v.pages[c.page := v.pages[c.page].(slots := v.pages[c.page].slots[c.row - 1 := Some(row)])]
  {
    hide Inv, NoMoving, Untouched, Transits, RowAt, SameRowsBut;
  }

  lemma OwnPlace(v: View, t: nat, c: Cursor, i: nat)
    requires Lists(v) && CursorOk(v, t, c, i) && OnPage(v.lists[ListId(t, c.full)], c, i)
    ensures ListId(t, c.full) in v.lists && ListId(t, !c.full) in v.lists
    ensures 0 < i <= |v.lists[ListId(t, c.full)]| && v.lists[ListId(t, c.full)][i - 1] == c.page
    ensures c.page in v.owner && v.owner[c.page] == InList(ListId(t, c.full))
    ensures forall d, j :: d in v.lists && d.tid == t && 0 <= j < |v.lists[d]| ==> v.lists[d][j] in v.pages
  {
    var s := v.lists[ListId(t, c.full)];
    assert s[i - 1] in s;
    forall d, j | d in v.lists && d.tid == t && 0 <= j < |v.lists[d]| ensures v.lists[d][j] in v.pages {
      assert Chain(v.pages, v.lists[d], Head(v.tabs, d));
    }
  }

  lemma ReplacementWalk(v: View, w: View, t: nat, c: Cursor, i: nat, row: Row, f: Filter)
    requires CursorOk(v, t, c, i) && c.row > 0 && c.page in v.pages && c.row - 1 < |v.pages[c.page].slots|
    requires w.lists == v.lists
    requires w.pages == v.pages[c.page := v.pages[c.page].(slots := v.pages[c.page].slots[c.row - 1 := Some(row)])]
    requires ListId(t, c.full) in v.lists && ListId(t, !c.full) in v.lists
    requires 0 < i <= |v.lists[ListId(t, c.full)]| && v.lists[ListId(t, c.full)][i - 1] == c.page
    requires Distinct(v.lists[ListId(t, c.full)]) && c.page !in v.lists[ListId(t, !c.full)]
    requires forall d, j :: d in v.lists && d.tid == t && 0 <= j < |v.lists[d]| ==> v.lists[d][j] in v.pages
    ensures CursorOk(w, t, c, i) && Pending(w, t, c, i, f) == Pending(v, t, c, i, f)
  {
    hide Hits, WalkHits;
    HitsSame(v.pages[c.page].slots, w.pages[c.page].slots, c.page, c.row, f);
    WalkSame(v.pages, w.pages, v.lists[ListId(t, c.full)][i..], f);
    WalkSame(v.pages, w.pages, v.lists[ListId(t, !c.full)], f);
  }

  // ---------------------------------------------------------------- filters that agree

  ghost predicate AgreeOn(s: Slots, k: nat, f: Filter, g: Filter) {
    forall r: nat :: k <= r < |s| && s[r].Some? ==> f(s[r].value) == g(s[r].value)
  }

  lemma {:induction false} HitsAgree(s: Slots, p: nat, k: nat, f: Filter, g: Filter)
    requires AgreeOn(s, k, f, g)
    ensures Hits(s, p, k, f) == Hits(s, p, k, g)
    decreases |s| - k
  {
    if k < |s| {
      HitsAgree(s, p, k + 1, f, g);
    }
  }

  lemma {:induction false} WalkAgree(pages: map<nat, Page>, s: seq<nat>, f: Filter, g: Filter)
    requires forall j :: 0 <= j < |s| && s[j] in pages ==> AgreeOn(pages[s[j]].slots, 0, f, g)
    ensures WalkHits(pages, s, f) == WalkHits(pages, s, g)
  {
    if s != [] {
      forall j | 0 <= j < |s[1..]| && s[1..][j] in pages ensures AgreeOn(pages[s[1..][j]].slots, 0, f, g) {
        assert s[1..][j] == s[j + 1];
      }
      if s[0] in pages {
        HitsAgree(pages[s[0]].slots, s[0], 0, f, g);
      }
      WalkAgree(pages, s[1..], f, g);
    }
  }

  /** Two filters that agree on the rows of the table, except for rows of the page in hand that were passed. */
  ghost predicate AgreeAhead(v: View, t: nat, c: Cursor, f: Filter, g: Filter) {
    forall p: nat, r: nat :: RowAt(v, t, p, r).Some? && !(p == c.page && r < c.row) ==>
      f(RowAt(v, t, p, r).value) == g(RowAt(v, t, p, r).value)
  }

  lemma SameAheadBy(v: View, t: nat, c: Cursor, i: nat, f: Filter, g: Filter)
    requires Geometry(v) && Lists(v) && CursorOk(v, t, c, i) && AgreeAhead(v, t, c, f, g)
    ensures Pending(v, t, c, i, f) == Pending(v, t, c, i, g)
  {
    hide Hits, WalkHits, Geometry, Lists, RowAt;
    var s := v.lists[ListId(t, c.full)];
    var full := v.lists[ListId(t, true)];
    forall j | i <= j < |s| && s[j] in v.pages ensures AgreeOn(v.pages[s[j]].slots, 0, f, g) {
      ListedAgree(v, t, c, i, ListId(t, c.full), j, f, g);
    }
    forall j | 0 <= j < |s[i..]| && s[i..][j] in v.pages ensures AgreeOn(v.pages[s[i..][j]].slots, 0, f, g) {
      assert s[i..][j] == s[i + j];
    }
    WalkAgree(v.pages, s[i..], f, g);
    if !c.full {
      forall j | 0 <= j < |full| && full[j] in v.pages ensures AgreeOn(v.pages[full[j]].slots, 0, f, g) {
        ListedAgree(v, t, c, i, ListId(t, true), j, f, g);
      }
      WalkAgree(v.pages, full, f, g);
    }
    if c.page != 0 {
      RestAgrees(v, t, c, i, f, g);
      HitsAgree(v.pages[c.page].slots, c.page, c.row, f, g);
    }
  }

  /** On a page that is still ahead the filters agree. */
  lemma ListedAgree(v: View, t: nat, c: Cursor, i: nat, d: ListId, j: nat, f: Filter, g: Filter)
    requires Geometry(v) && Lists(v) && CursorOk(v, t, c, i) && AgreeAhead(v, t, c, f, g)
    requires d in v.lists && d.tid == t && j < |v.lists[d]| && v.lists[d][j] in v.pages
    requires d.full == c.full ==> j >= i
    ensures AgreeOn(v.pages[v.lists[d][j]].slots, 0, f, g)
  {
    hide TabOk, PageOk, Fits;
    var s := v.lists[ListId(t, c.full)];
    var q := v.lists[d][j];
    assert q in v.lists[d] && v.owner[q] == InList(d);
    assert Chain(v.pages, v.lists[d], Head(v.tabs, d));
    assert OnPage(s, c, i) ==> s[i - 1] in s;
    forall r: nat | 0 <= r < |v.pages[q].slots| && v.pages[q].slots[r].Some?
      ensures f(v.pages[q].slots[r].value) == g(v.pages[q].slots[r].value)
    {
      assert RowAt(v, t, q, r).Some?;
    }
  }

  lemma RestAgrees(v: View, t: nat, c: Cursor, i: nat, f: Filter, g: Filter)
    requires Geometry(v) && Lists(v) && CursorOk(v, t, c, i) && AgreeAhead(v, t, c, f, g) && c.page != 0
    ensures AgreeOn(v.pages[c.page].slots, c.row, f, g)
  {
    hide TabOk, PageOk, Fits, Chain;
    var s := v.lists[ListId(t, c.full)];
    if OnPage(s, c, i) {
      assert s[i - 1] in s && v.owner[c.page] == InList(ListId(t, c.full));
      forall r: nat | c.row <= r < |v.pages[c.page].slots| && v.pages[c.page].slots[r].Some?
        ensures f(v.pages[c.page].slots[r].value) == g(v.pages[c.page].slots[r].value)
      {
        assert RowAt(v, t, c.page, r).Some?;
      }
    }
  }

  /** Two filters that agree on all rows of the table. */
  ghost predicate AgreeAll(v: View, t: nat, f: Filter, g: Filter) {
    forall p: nat, r: nat :: RowAt(v, t, p, r).Some? ==> f(RowAt(v, t, p, r).value) == g(RowAt(v, t, p, r).value)
  }

  lemma SameBehindBy(v: View, t: nat, c: Cursor, i: nat, k: nat, f: Filter, g: Filter)
    requires Geometry(v) && Lists(v) && CursorOk(v, t, c, i) && AgreeAll(v, t, f, g) && Behind(v, t, c, i, k, f)
    ensures Behind(v, t, c, i, k, g)
  {
    hide Hits, WalkHits, TabOk, PageOk, Fits, Chain, Linked, Hit, NoRows;
    var s := v.lists[ListId(t, c.full)];
    var free := v.lists[ListId(t, false)];
    forall j | 0 <= j < i <= |s| && s[j] in v.pages && s[j] != c.page ensures NoHits(v.pages[s[j]].slots, g) {
      assert s[j] in s;
      PageAgrees(v, t, s[j], f, g);
    }
    if c.page in v.pages {
      if OnPage(s, c, i) {
        assert s[i - 1] in s;
        PageAgrees(v, t, c.page, f, g);
      } else {
        EmptyNoHits(v, c, g);
      }
    }
    if c.full {
      forall j | 0 <= j < |free| && free[j] in v.pages ensures AgreeOn(v.pages[free[j]].slots, 0, f, g) {
        assert free[j] in free;
        PageAgrees(v, t, free[j], f, g);
      }
      WalkAgree(v.pages, free, f, g);
    }
  }

  lemma PageAgrees(v: View, t: nat, q: nat, f: Filter, g: Filter)
    requires AgreeAll(v, t, f, g) && q in v.pages && q in v.owner && v.owner[q].InList? && v.owner[q].id.tid == t
    ensures AgreeOn(v.pages[q].slots, 0, f, g)
    ensures forall r: nat :: Hit(v.pages[q].slots, r, f) <==> Hit(v.pages[q].slots, r, g)
  {
    forall r: nat | 0 <= r < |v.pages[q].slots| && v.pages[q].slots[r].Some?
      ensures f(v.pages[q].slots[r].value) == g(v.pages[q].slots[r].value)
    {
      assert RowAt(v, t, q, r).Some?;
    }
  }

  lemma EmptyNoHits(v: View, c: Cursor, g: Filter)
    requires c.page in v.pages && (c.page == 0 || NoRows(v.pages[c.page].slots))
    requires c.page != 0
    ensures NoHits(v.pages[c.page].slots, g)
  {
  }
}
