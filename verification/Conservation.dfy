/**
 * Main consequences of the invariant, stated on what is actually in the file: the page
 * headers, the list heads and the rows of the free-page table.
 */
module Conservation {
  import opened Common
  import opened StorageModel
  import opened StorageFrames

  /** What can account for a page extent. */
  datatype Holder = ListedIn(id: ListId) | FreeRow(page: nat, row: nat)

  /** Page `p` is met when the list is followed from its head. */
  ghost predicate Reachable(pages: map<nat, Page>, head: nat, p: nat) {
    exists s: seq<nat> :: Chain(pages, s, head) && p in s
  }

  /** `h` accounts for the extent that starts at page `p`. */
  ghost predicate AccountsFor(v: View, h: Holder, p: nat) {
    match h
    case ListedIn(id) => id.tid in v.tabs && Reachable(v.pages, Head(v.tabs, id), p)
    case FreeRow(q, r) =>
      p < 0x1_0000_0000 && p in v.pages && v.pages[p].scale < 0x1_0000 &&
      RowAt(v, FREE_PAGES, q, r) == Some(EncodeFree(p, v.pages[p].scale))
  }

  /** The links determine the list. */
  lemma {:induction false} ChainUnique(pages: map<nat, Page>, a: seq<nat>, b: seq<nat>, head: nat, n: nat)
    requires Chain(pages, a, head) && Chain(pages, b, head)
    requires n <= |a| && n <= |b|
    ensures a[..n] == b[..n] && (n == |a| <==> n == |b|)
  {
    if n > 0 {
      ChainUnique(pages, a, b, head, n - 1);
      assert a[..n] == a[..n - 1] + [a[n - 1]] && b[..n] == b[..n - 1] + [b[n - 1]];
      if n > 1 {
        assert Linked(pages, a, n - 2) && Linked(pages, b, n - 2);
        assert a[..n - 1][n - 2] == b[..n - 1][n - 2];
      }
      assert Linked(pages, a, n - 1) && Linked(pages, b, n - 1);
    }
  }

  lemma SameChain(pages: map<nat, Page>, a: seq<nat>, b: seq<nat>, head: nat)
    requires Chain(pages, a, head) && Chain(pages, b, head)
    ensures a == b
  {
    var n := if |a| < |b| then |a| else |b|;
    ChainUnique(pages, a, b, head, n);
    assert a[..|a|] == a && b[..|b|] == b;
  }

  /** Being met on a list and the recorded holder agree. */
  lemma ListedIffOwner(v: View, id: ListId, p: nat)
    requires Lists(v) && id in v.lists && id.tid in v.tabs
    ensures Reachable(v.pages, Head(v.tabs, id), p) <==> p in v.owner && v.owner[p] == InList(id)
  {
    assert Chain(v.pages, v.lists[id], Head(v.tabs, id));
    if Reachable(v.pages, Head(v.tabs, id), p) {
      var s :| Chain(v.pages, s, Head(v.tabs, id)) && p in s;
      SameChain(v.pages, s, v.lists[id], Head(v.tabs, id));
    }
  }

  lemma FreeRowIffOwner(v: View, q: nat, r: nat, p: nat)
    requires Inv(v, 0) && NoMoving(v)
    ensures AccountsFor(v, FreeRow(q, r), p) <==> p in v.owner && v.owner[p] == Recorded(q, r)
  {
    hide Tiling, Lists, Occupancy, TabOk, PageOk;
    assert v.pages.Keys == v.owner.Keys;
    if AccountsFor(v, FreeRow(q, r), p) {
      assert RecordedAt(v, q, r);
      var e :| e in v.owner && v.owner[e] == Recorded(q, r);
      assert IsRecord(v.pages, q, r, e);
      assert DecodePage(EncodeFree(p, v.pages[p].scale)) == p;
      assert DecodePage(EncodeFree(e, v.pages[e].scale)) == e;
    }
    if p in v.owner && v.owner[p] == Recorded(q, r) {
      assert IsRecord(v.pages, q, r, p);
    }
  }

  lemma HolderIsOwner(v: View, h: Holder, p: nat)
    requires Inv(v, 0) && NoMoving(v)
    ensures AccountsFor(v, h, p) <==> p in v.owner && v.owner[p] == (if h.ListedIn? then InList(h.id) else Recorded(h.page, h.row))
  {
    match h {
      case FreeRow(q, r) => FreeRowIffOwner(v, q, r, p);
      case ListedIn(id) => ListHolder(v, id, p);
    }
  }

  lemma ListHolder(v: View, id: ListId, p: nat)
    requires Inv(v, 0)
    ensures AccountsFor(v, ListedIn(id), p) <==> p in v.owner && v.owner[p] == InList(id)
  {
    hide Tiling, Occupancy, Records, TabOk, PageOk, Chain;
    if p in v.owner && v.owner[p] == InList(id) {
      assert Fits(v.pages[p], v.owner[p], v.tabs);
    }
    if id.tid in v.tabs {
      ListedIffOwner(v, id, p);
    }
  }

  /** Page `x` lies in exactly one extent that is accounted for, and that extent has exactly one holder. */
  ghost predicate OneHolder(v: View, x: nat) {
    && (exists p: nat, h: Holder :: Covers(v.pages, p, x) && AccountsFor(v, h, p))
    && (forall p: nat, q: nat, h: Holder, k: Holder ::
          Covers(v.pages, p, x) && Covers(v.pages, q, x) && AccountsFor(v, h, p) && AccountsFor(v, k, q) ==> p == q && h == k)
  }

  /**
   * Page conservation. Between operations every page of the data part of the file lies in
   * exactly one extent, and that extent is accounted for exactly once: by one list of one
   * table, or by one row of the free-page table with the right size.
   */
  lemma PageConservation(v: View, x: nat)
    requires Inv(v, 0) && NoMoving(v) && Transits(v) == {}
    requires RESERVED_TO_FILE_META <= x < v.pagesNumber
    ensures OneHolder(v, x)
  {
    hide Records, Lists, Occupancy, AccountsFor;
    InvParts(v, 0);
    assert Covered(v.pages, x);
    var p :| Covers(v.pages, p, x);
    assert p in v.owner && p !in Transits(v);
    var h := if v.owner[p].InList? then ListedIn(v.owner[p].id) else FreeRow(v.owner[p].page, v.owner[p].row);
    HolderIsOwner(v, h, p);
    forall p: nat, q: nat, h: Holder, k: Holder |
      Covers(v.pages, p, x) && Covers(v.pages, q, x) && AccountsFor(v, h, p) && AccountsFor(v, k, q)
      ensures p == q && h == k
    {
      OneExtent(v, p, q, x);
      HolderIsOwner(v, h, p);
      HolderIsOwner(v, k, q);
    }
  }

  lemma OneExtent(v: View, p: nat, q: nat, x: nat)
    requires Tiling(v) && Covers(v.pages, p, x) && Covers(v.pages, q, x)
    ensures p == q
  {
  }
}
