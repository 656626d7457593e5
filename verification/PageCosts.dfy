/** By how many pages and tables an operation on rows may make the file grow. */
module PageCosts {
  import opened Common
  import opened CursorModel
  import opened PageLayout
  import opened RowFormat
  import opened StringStore

  /** A string of `n` characters: a row of the table of tables for a new heap table, and an extent of that table. */
  function StringPages(n: nat): nat {
    1 + ExtentPages(HeapRowSize(n + 1))
  }

  function ValuePages(f: SchemeItem, x: Value): nat {
    if f.ftype == Str && x.Text? then StringPages(|x.chars|) else 0
  }

  /** The strings of the first `i` columns. */
  function ValuesPages(fields: Fields, values: seq<Value>, i: nat): nat
    requires i <= |fields| && i <= |values|
  {
    if i == 0 then 0 else ValuesPages(fields, values, i - 1) + ValuePages(fields[i - 1], values[i - 1])
  }

  /** The row sizes of the heap tables for the strings of the first `i` columns. */
  function TextSizes(fields: Fields, values: seq<Value>, i: nat): set<nat>
    requires i <= |fields| && i <= |values|
  {
    if i == 0 then {} else TextSizes(fields, values, i - 1) + TextSize(fields[i - 1], values[i - 1])
  }

  function TextSize(f: SchemeItem, x: Value): set<nat> {
    if f.ftype == Str && x.Text? then {HeapRowSize(|x.chars| + 1)} else {}
  }

  lemma NoSizesYet(a: set<nat>, fields: Fields, values: seq<Value>)
    ensures a + TextSizes(fields, values, 0) == a
  {
  }

  lemma NextSizes(a: set<nat>, fields: Fields, values: seq<Value>, i: nat)
    requires i < |fields| && i < |values|
    ensures a + TextSizes(fields, values, i) + TextSize(fields[i], values[i]) == a + TextSizes(fields, values, i + 1)
  {
    hide TextSize;
  }

  /** How many of the first `i` columns are strings; each may need a new heap table. */
  function StringColumns(fields: Fields, i: nat): (n: nat)
    requires i <= |fields|
    ensures n <= i
  {
    if i == 0 then 0 else StringColumns(fields, i - 1) + if fields[i - 1].ftype == Str then 1 else 0
  }

  lemma {:induction false} CountsGrow(fields: Fields, i: nat, j: nat)
    requires i <= j <= |fields|
    ensures StringColumns(fields, i) <= StringColumns(fields, j)
    decreases j - i
  {
    if i < j {
      CountsGrow(fields, i, j - 1);
    }
  }

  lemma {:induction false} PagesGrow(fields: Fields, values: seq<Value>, i: nat, j: nat)
    requires i <= j <= |fields| && j <= |values|
    ensures ValuesPages(fields, values, i) <= ValuesPages(fields, values, j)
    decreases j - i
  {
    if i < j {
      PagesGrow(fields, values, i, j - 1);
    }
  }

  function StringCount(fields: Fields): nat {
    StringColumns(fields, |fields|)
  }

  function TextPages(fields: Fields, values: seq<Value>): nat
    requires |values| == |fields|
  {
    ValuesPages(fields, values, |fields|)
  }

  /** The strings, and an extent for the row. */
  function InsertPages(fields: Fields, values: seq<Value>): nat
    requires |values| == |fields|
  {
    TextPages(fields, values) + ExtentPages(RowSize(fields))
  }

  /** A freed page is recorded in a row of the free-page table, which may need a page for it. */
  function RemovePages(fields: Fields): nat {
    StringCount(fields) + 1
  }

  /** The old strings go, the new ones come. */
  function ReplacePages(fields: Fields, values: seq<Value>): nat
    requires |values| == |fields|
  {
    StringCount(fields) + TextPages(fields, values)
  }

  // ---------------------------------------------------------------- sums over rows

  ghost function Pick(s: set<Key>): (k: Key)
    requires s != {}
    ensures k in s
  {
    var k :| k in s;
    k
  }

  /** The sum of the weights of the keys. */
  ghost function Sum(s: set<Key>, w: Key -> nat): nat {
    if s == {} then 0 else w(Pick(s)) + Sum(s - {Pick(s)}, w)
  }

  /** It does not matter in which order they are added. */
  lemma {:induction false} SumSplit(s: set<Key>, w: Key -> nat, x: Key)
    requires x in s
    ensures Sum(s, w) == w(x) + Sum(s - {x}, w)
    decreases |s|
  {
    var k := Pick(s);
    if k != x {
      SumSplit(s - {k}, w, x);
      SumSplit(s - {x}, w, k);
      assert s - {k} - {x} == s - {x} - {k};
    }
  }

  /** A part weighs no more than the whole. */
  lemma {:induction false} SumPart(a: set<Key>, b: set<Key>, w: Key -> nat)
    requires a <= b
    ensures Sum(a, w) <= Sum(b, w)
    decreases |b|
  {
    if a != b {
      var x :| x in b && x !in a;
      SumSplit(b, w, x);
      SumPart(a, b - {x}, w);
    }
  }

  lemma OneMoreTime(n: nat, m: nat, c: nat)
    requires n < m
    ensures Times(n + 1, c) == Times(n, c) + c <= Times(m, c)
  {
  }

  lemma NoTime(m: nat, c: nat)
    ensures Times(0, c) == 0 <= Times(m, c)
  {
  }
}
