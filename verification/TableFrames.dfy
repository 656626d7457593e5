/** A table that an operation on other tables leaves exactly as it is, and cursors that stand in it. */
module TableFrames {
  import opened StorageModel
  import opened StorageFrames
  import opened CursorModel
  import opened CursorSteps

  ghost predicate ListKept(v: View, w: View, d: ListId) {
    && d in v.lists && d in w.lists && w.lists[d] == v.lists[d]
    && forall p :: p in v.lists[d] ==> p in v.pages && p in w.pages && w.pages[p] == v.pages[p]
  }

  /** Table `t` has the same lists of the same pages. */
  ghost predicate TableKept(v: View, w: View, t: nat) {
    && t in v.tabs && t in w.tabs && w.tabs[t] == v.tabs[t]
    && ListKept(v, w, ListId(t, false)) && ListKept(v, w, ListId(t, true))
  }

  ghost predicate AllKept(v: View, w: View, ts: set<nat>) {
    forall t :: t in ts ==> TableKept(v, w, t)
  }

  lemma AllKeptThen(v: View, m: View, w: View, ts: set<nat>)
    requires AllKept(v, m, ts) && AllKept(m, w, ts)
    ensures AllKept(v, w, ts)
  {
    forall t | t in ts ensures TableKept(v, w, t) {
      assert TableKept(v, m, t) && TableKept(m, w, t);
    }
  }

  /** An operation on table `u` keeps the other tables. */
  lemma OthersStay(v: View, w: View, u: nat, ts: set<nat>)
    requires Inv(v, 0) && Untouched(v, w, u, 0) && ts <= v.tabs.Keys && u !in ts && FREE_PAGES !in ts
    ensures AllKept(v, w, ts)
  {
    hide Inv, Untouched;
    InvParts(v, 0);
    forall t | t in ts ensures TableKept(v, w, t) {
      OtherStays(v, w, u, t);
    }
  }

  lemma OtherStays(v: View, w: View, u: nat, t: nat)
    requires Geometry(v) && Lists(v) && Untouched(v, w, u, 0) && t in v.tabs && t != u && t != FREE_PAGES
    ensures TableKept(v, w, t)
  {
    hide Chain, TabOk, PageOk, Fits, Lists, ListKept;
    assert SameTable(v.tabs[t], w.tabs[t], t == u || t == FREE_PAGES);
    OtherListStays(v, w, u, ListId(t, false));
    OtherListStays(v, w, u, ListId(t, true));
  }

  lemma OtherListStays(v: View, w: View, u: nat, d: ListId)
    requires Lists(v) && Untouched(v, w, u, 0) && d in v.lists && d.tid != u && d.tid != FREE_PAGES && 0 !in v.pages
    ensures ListKept(v, w, d)
  {
    hide Chain, SameTable;
    forall p | p in v.lists[d] ensures p in v.pages && p in w.pages && w.pages[p] == v.pages[p] {
      assert p in v.owner && v.owner[p] == InList(d) && Foreign(v.owner[p], u);
    }
  }

  /** A new table keeps all others. */
  lemma NewTableStays(v: View, t: nat, rowSize: nat, scale: nat, ts: set<nat>)
    requires Inv(v, 0) && ts <= v.tabs.Keys && t !in v.tabs
    ensures AllKept(v, AddTable(v, t, rowSize, scale), ts)
  {
    hide Inv;
    InvParts(v, 0);
    forall u | u in ts ensures TableKept(v, AddTable(v, t, rowSize, scale), u) {
      AllHere(v, u);
    }
  }

  lemma SameStays(v: View, ts: set<nat>)
    requires Inv(v, 0) && ts <= v.tabs.Keys
    ensures AllKept(v, v, ts)
  {
    hide Inv;
    InvParts(v, 0);
    forall t | t in ts ensures TableKept(v, v, t) {
      AllHere(v, t);
    }
  }

  lemma AllHere(v: View, t: nat)
    requires Geometry(v) && Lists(v) && t in v.tabs
    ensures ListId(t, false) in v.lists && ListId(t, true) in v.lists
    ensures forall d, p :: d in v.lists && p in v.lists[d] ==> p in v.pages
  {
    hide Chain, TabOk, PageOk, Fits;
    assert ListId(t, false) in v.lists && ListId(t, true) in v.lists;
  }

  /** A cursor on a page of a table that is kept does not notice. */
  lemma CursorKept(v: View, w: View, t: nat, c: Cursor, i: nat, f: Filter)
    requires Lists(v) && TableKept(v, w, t) && CursorOk(v, t, c, i) && OnPage(v.lists[ListId(t, c.full)], c, i)
    ensures CursorOk(w, t, c, i) && OnPage(w.lists[ListId(t, c.full)], c, i)
    ensures Pending(w, t, c, i, f) == Pending(v, t, c, i, f)
    ensures forall k: nat :: Behind(v, t, c, i, k, f) ==> Behind(w, t, c, i, k, f)
  {
    hide Hits, WalkHits, Lists;
    assert c.page in v.lists[ListId(t, c.full)];
    WalkSame(v.pages, w.pages, v.lists[ListId(t, c.full)][i..], f);
    WalkSame(v.pages, w.pages, v.lists[ListId(t, true)], f);
    WalkSame(v.pages, w.pages, v.lists[ListId(t, false)], f);
  }

  /** Rows of a kept table are the same. */
  lemma RowsKept(v: View, w: View, t: nat)
    requires Inv(v, 0) && Inv(w, 0) && TableKept(v, w, t)
    ensures SameRows(v, w, t)
  {
    hide Inv;
    InvParts(v, 0);
    InvParts(w, 0);
    forall p: nat, r: nat ensures RowAt(w, t, p, r) == RowAt(v, t, p, r) {
      PageOfList(v, t, p);
      PageOfList(w, t, p);
    }
  }

  lemma PageOfList(v: View, t: nat, p: nat)
    requires Lists(v) && ListId(t, false) in v.lists && ListId(t, true) in v.lists
    ensures p in v.lists[ListId(t, false)] || p in v.lists[ListId(t, true)] <==> p in v.owner && v.owner[p].InList? && v.owner[p].id.tid == t
  {
    hide Chain;
    if p in v.owner && v.owner[p].InList? && v.owner[p].id.tid == t {
      assert v.owner[p].id == ListId(t, v.owner[p].id.full);
    }
  }
}
