/** A walk reports exactly the passing rows of the table, each of them once. */
module TableContents {
  import opened Common
  import opened PageRows
  import opened StorageModel
  import opened StorageFrames
  import opened CursorModel

  lemma {:induction false} HitsMembers(s: Slots, p: nat, k: nat, f: Filter)
    ensures forall e: Key :: e in Hits(s, p, k, f) <==> e.page == p && k <= e.row && Hit(s, e.row, f)
    ensures Distinct(Hits(s, p, k, f))
    decreases |s| - k
  {
    if k < |s| {
      HitsMembers(s, p, k + 1, f);
    }
  }

  lemma {:induction false} WalkMembers(pages: map<nat, Page>, s: seq<nat>, f: Filter)
    requires Distinct(s) && forall j :: 0 <= j < |s| ==> s[j] in pages
    ensures forall e: Key :: e in WalkHits(pages, s, f) <==> e.page in s && e.page in pages && Hit(pages[e.page].slots, e.row, f)
    ensures Distinct(WalkHits(pages, s, f))
  {
    if s != [] {
      var rest := s[1..];
      forall j | 0 <= j < |rest| ensures rest[j] in pages && rest[j] != s[0] {
        assert rest[j] == s[j + 1];
      }
      assert forall q :: q in s <==> q == s[0] || q in rest;
      WalkMembers(pages, rest, f);
      HitsMembers(pages[s[0]].slots, s[0], 0, f);
      DistinctAppend(Hits(pages[s[0]].slots, s[0], 0, f), WalkHits(pages, rest, f));
    }
  }

  /**
   * The keys a full walk reports are pairwise different, and a key is reported exactly when
   * the table has a row there that passes.
   */
  lemma TableHitsExact(v: View, t: nat, f: Filter)
    requires Geometry(v) && Lists(v) && t in v.tabs
    ensures ListId(t, false) in v.lists && ListId(t, true) in v.lists
    ensures Distinct(TableHits(v, t, f))
    ensures forall p: nat, r: nat :: Key(p, r) in TableHits(v, t, f) <==>
      RowAt(v, t, p, r).Some? && f(RowAt(v, t, p, r).value)
  {
    hide Hit, WalkHits, Chain, TabOk, PageOk, RowAt;
    var free, full := v.lists[ListId(t, false)], v.lists[ListId(t, true)];
    ListMembers(v, ListId(t, false));
    ListMembers(v, ListId(t, true));
    WalkMembers(v.pages, free, f);
    WalkMembers(v.pages, full, f);
    DistinctAppend(WalkHits(v.pages, free, f), WalkHits(v.pages, full, f));
    forall p: nat, r: nat
      ensures Key(p, r) in TableHits(v, t, f) <==> RowAt(v, t, p, r).Some? && f(RowAt(v, t, p, r).value)
    {
      RowHit(v, t, p, r, f);
    }
  }

  lemma ListMembers(v: View, id: ListId)
    requires Lists(v) && id in v.lists && v.pages.Keys == v.owner.Keys
    ensures Distinct(v.lists[id])
    ensures forall j :: 0 <= j < |v.lists[id]| ==> v.lists[id][j] in v.pages
    ensures forall q :: q in v.lists[id] <==> q in v.owner && v.owner[q] == InList(id)
  {
    assert Chain(v.pages, v.lists[id], Head(v.tabs, id));
  }

  lemma DistinctAppend<T(!new)>(a: seq<T>, b: seq<T>)
    requires Distinct(a) && Distinct(b) && forall x :: x in a ==> x !in b
    ensures Distinct(a + b)
  {
    forall i, j | 0 <= i < j < |a + b| ensures (a + b)[i] != (a + b)[j] {
      if i < |a| <= j {
        assert a[i] in a && b[j - |a|] in b;
      }
    }
  }

  /** A key is a hit of a listed page exactly when the table has a passing row there. */
  lemma RowHit(v: View, t: nat, p: nat, r: nat, f: Filter)
    requires v.pages.Keys == v.owner.Keys && ListId(t, false) in v.lists && ListId(t, true) in v.lists
    requires forall b: bool, q :: q in v.lists[ListId(t, b)] <==> q in v.owner && v.owner[q] == InList(ListId(t, b))
    ensures (p in v.lists[ListId(t, false)] || p in v.lists[ListId(t, true)]) && Hit(v.pages[p].slots, r, f) <==>
      RowAt(v, t, p, r).Some? && f(RowAt(v, t, p, r).value)
  {
  }
}
