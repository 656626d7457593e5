/**
 * The walk of a cursor over a table: first the list of pages with room, then the list of
 * full pages, each page row by row. The specification of the walk is the sequence of keys
 * of the rows that pass the filter and are still ahead.
 */
module CursorModel {
  import opened Common
  import opened PageRows
  import opened StorageModel

  datatype Key = Key(page: nat, row: nat)

  type Filter = Row -> bool

  /** `page` is 0 when the list in hand is finished; `full` tells which list is in hand. */
  datatype Cursor = Cursor(page: nat, row: nat, full: bool)

  ghost predicate Hit(s: Slots, r: nat, f: Filter) {
    r < |s| && s[r].Some? && f(s[r].value)
  }

  ghost predicate NoHits(s: Slots, f: Filter) {
    forall r: nat :: !Hit(s, r, f)
  }

  /** Keys of the passing rows of one page from row `k` on. */
  ghost function Hits(s: Slots, p: nat, k: nat, f: Filter): seq<Key>
    decreases |s| - k
  {
    if k >= |s| then [] else (if Hit(s, k, f) then [Key(p, k)] else []) + Hits(s, p, k + 1, f)
  }

  /** Keys of the passing rows of the listed pages, in list order. */
  ghost function WalkHits(pages: map<nat, Page>, s: seq<nat>, f: Filter): seq<Key> {
    if s == [] then []
    else (if s[0] in pages then Hits(pages[s[0]].slots, s[0], 0, f) else []) + WalkHits(pages, s[1..], f)
  }

  ghost function TableHits(v: View, t: nat, f: Filter): seq<Key>
    requires ListId(t, false) in v.lists && ListId(t, true) in v.lists
  {
    WalkHits(v.pages, v.lists[ListId(t, false)], f) + WalkHits(v.pages, v.lists[ListId(t, true)], f)
  }

  /** The first row of the table that a cursor meets. */
  ghost predicate MetFirst(v: View, t: nat, f: Filter, k: Key) {
    ListId(t, false) in v.lists && ListId(t, true) in v.lists && TableHits(v, t, f) != [] && TableHits(v, t, f)[0] == k
  }

  /**
   * The cursor stands on the page before position `i` of its list. It may instead stand on
   * a page that has been freed under it: such a page is empty and its stale link still
   * leads to position `i`.
   */
  ghost predicate CursorOk(v: View, t: nat, c: Cursor, i: nat) {
    && ListId(t, false) in v.lists && ListId(t, true) in v.lists
    && var s := v.lists[ListId(t, c.full)];
    && i <= |s|
    && (if c.page == 0 then i == |s| && c.row == 0
        else
          && c.page in v.pages && c.row <= |v.pages[c.page].slots|
          && v.pages[c.page].next == At(s, i)
          && (OnPage(s, c, i) || NoRows(v.pages[c.page].slots)))
  }

  ghost predicate OnPage(s: seq<nat>, c: Cursor, i: nat) {
    0 < i <= |s| && s[i - 1] == c.page
  }

  /** Keys of the passing rows ahead of the cursor, in the order in which it meets them. */
  ghost function Pending(v: View, t: nat, c: Cursor, i: nat, f: Filter): seq<Key>
    requires CursorOk(v, t, c, i)
  {
    (if c.page == 0 then [] else Hits(v.pages[c.page].slots, c.page, c.row, f))
    + WalkHits(v.pages, v.lists[ListId(t, c.full)][i..], f)
    + (if c.full then [] else WalkHits(v.pages, v.lists[ListId(t, true)], f))
  }

  /** No passing row in the first `i` pages of the list, nor before row `k` of the page in hand. */
  ghost predicate CleanTo(v: View, s: seq<nat>, c: Cursor, i: nat, k: nat, f: Filter) {
    && (forall j :: 0 <= j < i <= |s| && s[j] in v.pages && s[j] != c.page ==> NoHits(v.pages[s[j]].slots, f))
    && (c.page in v.pages ==> forall r: nat :: r < k ==> !Hit(v.pages[c.page].slots, r, f))
  }

  /** No passing row is behind the cursor, rows from `k` of the page in hand aside. */
  ghost predicate Behind(v: View, t: nat, c: Cursor, i: nat, k: nat, f: Filter)
    requires ListId(t, false) in v.lists && ListId(t, true) in v.lists
  {
    && CleanTo(v, v.lists[ListId(t, c.full)], c, i, k, f)
    && (c.full ==> WalkHits(v.pages, v.lists[ListId(t, false)], f) == [])
  }

  /** How many pages of the list are still ahead. */
  ghost function ListLeft(v: View, t: nat, full: bool, i: nat): int {
    if ListId(t, full) in v.lists then |v.lists[ListId(t, full)]| - i else 0
  }

  lemma {:induction false} HitsNone(s: Slots, p: nat, k: nat, f: Filter)
    requires forall r: nat :: k <= r ==> !Hit(s, r, f)
    ensures Hits(s, p, k, f) == []
    decreases |s| - k
  {
    if k < |s| {
      HitsNone(s, p, k + 1, f);
    }
  }

  /** A list gives no keys exactly when none of its pages has a passing row. */
  lemma {:induction false} WalkNone(pages: map<nat, Page>, s: seq<nat>, f: Filter)
    requires forall j :: 0 <= j < |s| ==> s[j] in pages && NoHits(pages[s[j]].slots, f)
    ensures WalkHits(pages, s, f) == []
  {
    if s != [] {
      HitsNone(pages[s[0]].slots, s[0], 0, f);
      forall j | 0 <= j < |s[1..]| ensures s[1..][j] in pages && NoHits(pages[s[1..][j]].slots, f) {
        assert s[1..][j] == s[j + 1];
      }
      WalkNone(pages, s[1..], f);
    }
  }

  lemma WalkStep(pages: map<nat, Page>, s: seq<nat>, i: nat, f: Filter)
    requires i < |s| && s[i] in pages
    ensures WalkHits(pages, s[i..], f) == Hits(pages[s[i]].slots, s[i], 0, f) + WalkHits(pages, s[i + 1..], f)
  {
    assert s[i..][1..] == s[i + 1..];
  }

  /** The position of a fresh cursor, and that everything is ahead of it. */
  lemma StartPending(v: View, t: nat, f: Filter)
    requires Geometry(v) && Lists(v) && t in v.tabs
    ensures ListId(t, false) in v.lists && ListId(t, true) in v.lists
    ensures var c := Cursor(v.tabs[t].firstFree, 0, false); var i := if c.page == 0 then 0 else 1;
      CursorOk(v, t, c, i) && Pending(v, t, c, i, f) == TableHits(v, t, f) && Behind(v, t, c, i, 0, f)
  {
    hide TabOk, PageOk, Hits, WalkHits;
    var id := ListId(t, false);
    assert id in v.lists && ListId(t, true) in v.lists;
    var s := v.lists[id];
    assert Chain(v.pages, s, v.tabs[t].firstFree);
    if s != [] {
      assert Linked(v.pages, s, 0);
      WalkStep(v.pages, s, 0, f);
      assert s[0..] == s;
    } else {
      WalkNone(v.pages, s[0..], f);
    }
  }

  /** Passing over one row of the page in hand. */
  lemma StepRow(v: View, t: nat, c: Cursor, i: nat, f: Filter)
    requires CursorOk(v, t, c, i) && c.page != 0 && c.row < |v.pages[c.page].slots|
    ensures var d := c.(row := c.row + 1);
      && CursorOk(v, t, d, i)
      && Pending(v, t, c, i, f) ==
         (if Hit(v.pages[c.page].slots, c.row, f) then [Key(c.page, c.row)] else []) + Pending(v, t, d, i, f)
      && (Hit(v.pages[c.page].slots, c.row, f) ==> OnPage(v.lists[ListId(t, c.full)], c, i))
      && (Behind(v, t, c, i, c.row, f) ==>
            Behind(v, t, d, i, if Hit(v.pages[c.page].slots, c.row, f) then c.row else c.row + 1, f))
  {
    hide WalkHits, Hits, Behind, At, NoHits;
    HitsFrom(v.pages[c.page].slots, c.page, c.row, f);
    if Behind(v, t, c, i, c.row, f) {
      StepBehind(v, t, c, i, f);
    }
  }

  lemma HitsFrom(s: Slots, p: nat, k: nat, f: Filter)
    requires k < |s|
    ensures Hits(s, p, k, f) == (if Hit(s, k, f) then [Key(p, k)] else []) + Hits(s, p, k + 1, f)
  {
  }

  lemma StepBehind(v: View, t: nat, c: Cursor, i: nat, f: Filter)
    requires CursorOk(v, t, c, i) && c.page != 0 && c.row < |v.pages[c.page].slots| && Behind(v, t, c, i, c.row, f)
    ensures var d := c.(row := c.row + 1);
      Behind(v, t, d, i, if Hit(v.pages[c.page].slots, c.row, f) then c.row else c.row + 1, f)
  {
    hide WalkHits, Hits, Hit, At, NoHits;
  }

  /** Leaving a page whose rows are exhausted, by its own link. */
  lemma StepPage(v: View, t: nat, c: Cursor, i: nat, f: Filter)
    requires Lists(v) && CursorOk(v, t, c, i) && c.page != 0 && c.row == |v.pages[c.page].slots|
    ensures var n := v.pages[c.page].next; var d := Cursor(n, 0, c.full); var j := if n == 0 then i else i + 1;
      && CursorOk(v, t, d, j)
      && Pending(v, t, c, i, f) == Pending(v, t, d, j, f)
      && (Behind(v, t, c, i, c.row, f) ==> Behind(v, t, d, j, 0, f))
      && j <= |v.lists[ListId(t, c.full)]|
  {
    hide Hits, WalkHits, Lists, Hit, NoRows;
    var s := v.lists[ListId(t, c.full)];
    PageAhead(v, t, c.full, i);
    HitsNone(v.pages[c.page].slots, c.page, c.row, f) by { RowsEnd(v.pages[c.page].slots, c.row, f); }
    if i < |s| {
      WalkStep(v.pages, s, i, f);
    }
    if Behind(v, t, c, i, c.row, f) {
      CleanStep(v, s, c, i, f);
    }
  }

  lemma RowsEnd(s: Slots, k: nat, f: Filter)
    requires k >= |s|
    ensures forall r: nat :: k <= r ==> !Hit(s, r, f)
  {
  }

  /** The page at position `i` of a list leads to the next position. */
  lemma PageAhead(v: View, t: nat, full: bool, i: nat)
    requires Lists(v) && ListId(t, full) in v.lists && i <= |v.lists[ListId(t, full)]|
    ensures var s := v.lists[ListId(t, full)];
      && (i < |s| ==> s[i] in v.pages && s[i] != 0 && v.pages[s[i]].next == At(s, i + 1))
      && (forall j :: 0 <= j < |s| ==> s[j] in v.pages)
  {
    var s := v.lists[ListId(t, full)];
    assert Chain(v.pages, s, Head(v.tabs, ListId(t, full)));
    if i < |s| {
      assert Linked(v.pages, s, i);
    }
  }

  lemma CleanStep(v: View, s: seq<nat>, c: Cursor, i: nat, f: Filter)
    requires i <= |s| && c.page in v.pages && c.row == |v.pages[c.page].slots|
    requires forall j :: 0 <= j < |s| ==> s[j] in v.pages
    requires CleanTo(v, s, c, i, c.row, f)
    ensures forall j :: 0 <= j < i ==> NoHits(v.pages[s[j]].slots, f)
  {
  }

  /** From the end of the first list to the start of the second. */
  lemma StepList(v: View, t: nat, i: nat, f: Filter)
    requires Lists(v) && CursorOk(v, t, Cursor(0, 0, false), i) && t in v.tabs
    ensures var n := v.tabs[t].firstFull; var c := Cursor(0, 0, false); var d := Cursor(n, 0, true);
      if n == 0 then Pending(v, t, c, i, f) == []
      else
        && CursorOk(v, t, d, 1)
        && Pending(v, t, c, i, f) == Pending(v, t, d, 1, f)
        && (Behind(v, t, c, i, 0, f) ==> Behind(v, t, d, 1, 0, f))
  {
    var s := v.lists[ListId(t, true)];
    var s0 := v.lists[ListId(t, false)];
    assert Chain(v.pages, s, v.tabs[t].firstFull) && Chain(v.pages, s0, v.tabs[t].firstFree);
    hide Hits, WalkHits, Lists;
    WalkNone(v.pages, s0[i..], f);
    if s != [] {
      assert Linked(v.pages, s, 0);
      WalkStep(v.pages, s, 0, f);
      assert s[0..] == s;
    } else {
      WalkNone(v.pages, s, f);
    }
    if Behind(v, t, Cursor(0, 0, false), i, 0, f) {
      WalkNone(v.pages, s0, f);
    }
  }

  /** The cursor `d` is further along than `c`, with the same passing rows ahead. */
  ghost predicate Reached(v: View, t: nat, c: Cursor, i: nat, d: Cursor, j: nat, f: Filter) {
    && CursorOk(v, t, c, i) && CursorOk(v, t, d, j)
    && Pending(v, t, c, i, f) == Pending(v, t, d, j, f)
    && (Behind(v, t, c, i, c.row, f) ==> Behind(v, t, d, j, d.row, f))
  }

  /** From `c` the next passing row is the one just before `d`. */
  ghost predicate FoundAt(v: View, t: nat, c: Cursor, i: nat, d: Cursor, j: nat, f: Filter) {
    && CursorOk(v, t, c, i) && CursorOk(v, t, d, j)
    && d.row > 0 && d.page in v.pages && OnPage(v.lists[ListId(t, d.full)], d, j)
    && Hit(v.pages[d.page].slots, d.row - 1, f)
    && Pending(v, t, c, i, f) == [Key(d.page, d.row - 1)] + Pending(v, t, d, j, f)
    && (Behind(v, t, c, i, c.row, f) ==> Behind(v, t, d, j, d.row - 1, f))
  }

  ghost predicate Exhausted(v: View, t: nat, c: Cursor, i: nat, f: Filter) {
    CursorOk(v, t, c, i) && Pending(v, t, c, i, f) == []
  }

  lemma ReachStart(v: View, t: nat, c: Cursor, i: nat, f: Filter)
    requires Lists(v) && CursorOk(v, t, c, i)
    ensures t in v.tabs && Reached(v, t, c, i, c, i, f)
    ensures if c.page == 0 then c.row == 0 else c.page in v.pages && c.row <= |v.pages[c.page].slots|
  {
    hide Chain, Pending, Behind;
  }

  lemma ReachRow(v: View, t: nat, c: Cursor, i: nat, d: Cursor, j: nat, f: Filter)
    requires Reached(v, t, c, i, d, j, f) && d.page != 0 && d.page in v.pages && d.row < |v.pages[d.page].slots|
    ensures var e := d.(row := d.row + 1);
      if Hit(v.pages[d.page].slots, d.row, f) then FoundAt(v, t, c, i, e, j, f) else Reached(v, t, c, i, e, j, f)
  {
    hide Pending, Behind;
    StepRow(v, t, d, j, f);
  }

  lemma ReachPage(v: View, t: nat, c: Cursor, i: nat, d: Cursor, j: nat, f: Filter)
    requires Lists(v) && Reached(v, t, c, i, d, j, f)
    requires d.page != 0 && d.page in v.pages && d.row >= |v.pages[d.page].slots|
    ensures var n := v.pages[d.page].next;
      && Reached(v, t, c, i, Cursor(n, 0, d.full), if n == 0 then j else j + 1, f)
      && (n != 0 ==> n in v.pages && ListLeft(v, t, d.full, j) > 0)
  {
    hide Pending, Behind, Lists;
    StepPage(v, t, d, j, f);
  }

  lemma ReachList(v: View, t: nat, c: Cursor, i: nat, d: Cursor, j: nat, f: Filter)
    requires Lists(v) && Reached(v, t, c, i, d, j, f) && t in v.tabs && d == Cursor(0, 0, d.full)
    ensures if d.full || v.tabs[t].firstFull == 0 then Exhausted(v, t, c, i, f) && Exhausted(v, t, d, j, f)
      else v.tabs[t].firstFull in v.pages && Reached(v, t, c, i, Cursor(v.tabs[t].firstFull, 0, true), 1, f)
  {
    if d.full {
      assert Pending(v, t, d, j, f) == [];
    } else {
      hide Pending, Behind, Lists;
      StepList(v, t, j, f);
    }
  }
}
