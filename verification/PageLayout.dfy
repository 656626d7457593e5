/** Sizes inside one page extent: header, bitmap and row slots; and the choice of the extent size. */
module PageLayout {

  const SYS_PAGE_SIZE: nat := 4096
  const PAGE_RECORD_SIZE: nat := 14
  const TABLE_MIN_ROWS_PER_PAGE: nat := 10

  /** The largest row for which some 16-bit extent size is big enough. */
  const MAX_ROW_SIZE: nat := 26_843_134

  /** How many times `d` goes into `n`. */
  function Quotient(n: nat, d: nat): nat
    requires d > 0
  {
    if n < d then 0 else 1 + Quotient(n - d, d)
  }

  /** How many rows fit: the floor of (size - 14) / (rowSize + 1/8), in integers. */
  function Capacity(rowSize: nat, scale: nat): nat
    requires scale >= 1
  {
    var room: nat := 8 * (SYS_PAGE_SIZE * scale - PAGE_RECORD_SIZE);
    Quotient(room, 8 * rowSize + 1)
  }

  /** Bytes for `n` bits. */
  function BytesFor(n: nat): nat {
    n / 8 + if n % 8 != 0 then 1 else 0
  }

  function HeaderSize(rowSize: nat, scale: nat): nat
    requires scale >= 1
  {
    PAGE_RECORD_SIZE + BytesFor(Capacity(rowSize, scale))
  }

  /** An extent of that geometry can be mapped as the page operations need it: header and bitmap in one page. */
  predicate Mappable(rowSize: nat, scale: nat) {
    rowSize < 0x1_0000_0000 && 1 <= scale < 0x1_0000 && HeaderSize(rowSize, scale) <= SYS_PAGE_SIZE
  }

  function RowOffset(rowSize: nat, scale: nat, i: nat): nat
    requires scale >= 1
  {
    HeaderSize(rowSize, scale) + i * rowSize
  }

  /** What header, bitmap and `n` rows take. */
  function Needs(rowSize: nat, n: nat): nat {
    PAGE_RECORD_SIZE + BytesFor(n) + n * rowSize
  }

  /** `x` rows fit in the extent exactly when `x` does not exceed the computed capacity. */
  lemma CapacityExact(rowSize: nat, scale: nat, x: nat)
    requires scale >= 1
    ensures x <= Capacity(rowSize, scale) <==> Needs(rowSize, x) <= SYS_PAGE_SIZE * scale
  {
    var room: nat := SYS_PAGE_SIZE * scale - PAGE_RECORD_SIZE;
    var d := 8 * rowSize + 1;
    QuotientBound(8 * room, d, x);
    assert x * d == 8 * (x * rowSize) + x;
    CeilBound(x, room - x * rowSize);
  }

  lemma {:induction false} QuotientBound(n: nat, d: nat, x: nat)
    requires d > 0
    ensures x <= Quotient(n, d) <==> x * d <= n
    decreases n
  {
    if x > 0 {
      assert x * d == (x - 1) * d + d;
      if n >= d {
        QuotientBound(n - d, d, x - 1);
      }
    }
  }

  /** It is the integer quotient. */
  lemma QuotientIsDivision(n: nat, d: nat)
    requires d > 0
    ensures Quotient(n, d) == n / d
  {
    var q := n / d;
    assert q * d <= n < (q + 1) * d;
    QuotientBound(n, d, q);
    QuotientBound(n, d, q + 1);
  }

  /** What a division of doubles may give for the quotient `q`: exact on integers, else within half a unit in the last place. */
  ghost predicate Rounded(q: real, x: real) {
    (q == q.Floor as real ==> x == q) && -q <= 9007199254740992.0 * (x - q) <= q
  }

  /** The floor of the rounded quotient that the program computes is the capacity. */
  lemma DoubleQuotient(rowSize: nat, scale: nat, x: real)
    requires rowSize < 0x1_0000_0000 && 1 <= scale < 0x1_0000
    requires Rounded((SYS_PAGE_SIZE * scale - PAGE_RECORD_SIZE) as real / (rowSize as real + 0.125), x)
    ensures x.Floor == Capacity(rowSize, scale)
  {
    var n, d := 8 * (SYS_PAGE_SIZE * scale - PAGE_RECORD_SIZE), 8 * rowSize + 1;
    var q := (SYS_PAGE_SIZE * scale - PAGE_RECORD_SIZE) as real / (rowSize as real + 0.125);
    QuotientIsDivision(n, d);
    assert q == n as real / d as real;
    NearFloor(n, d, q, x);
  }

  lemma NearFloor(n: nat, d: nat, q: real, x: real)
    requires d > 0 && n < 0x8000_0000 && q == n as real / d as real && Rounded(q, x)
    ensures x.Floor == n / d
  {
    hide Rounded;
    var k := n / d;
    assert q * d as real == n as real;
    assert n == k * d + n % d;
    if n == k * d {
      OnInteger(n, d, k, q, x);
    } else {
      OffInteger(n, d, k, k * d, q, x);
    }
  }

  lemma OnInteger(n: nat, d: nat, k: nat, q: real, x: real)
    requires d > 0 && q * d as real == n as real && n == k * d && Rounded(q, x)
    ensures x.Floor == k
  {
    RealProduct(k, d, n);
    Cancelled(q, k as real, d as real, n as real);
  }

  lemma OffInteger(n: nat, d: nat, k: nat, m: nat, q: real, x: real)
    requires d > 0 && n < 0x8000_0000 && q * d as real == n as real && m == k * d && m < n < m + d && Rounded(q, x)
    ensures x.Floor == k
  {
    var r, e := d as real, x - q;
    SmallError(q, e, r, n as real);
    Split(q, e, r);
    RealProduct(k, d, m);
    NearMultiple(n, m, d, e * r, (q + e) * r);
    Between(q + e, k as real, m as real, r);
  }

  lemma Split(q: real, e: real, r: real)
    ensures (q + e) * r == q * r + e * r
  {
  }

  lemma RealProduct(k: nat, d: nat, n: nat)
    requires n == k * d
    ensures k as real * d as real == n as real
  {
  }

  lemma NearMultiple(n: nat, m: nat, d: nat, w: real, y: real)
    requires m < n < m + d && -1.0 < w < 1.0 && y == n as real + w
    ensures m as real < y < m as real + d as real
  {
  }

  lemma SmallError(q: real, e: real, r: real, n: real)
    requires r > 0.0 && q * r == n && n < 2147483648.0 && -q <= 9007199254740992.0 * e <= q
    ensures -1.0 < e * r < 1.0
  {
    Scaled(9007199254740992.0 * e, q, r);
    Scaled(-q, 9007199254740992.0 * e, r);
    assert (-q) * r == -(q * r);
    Regroup(e, r);
    Small(e * r, n);
  }

  lemma Regroup(e: real, r: real)
    ensures (9007199254740992.0 * e) * r == 9007199254740992.0 * (e * r)
  {
  }

  lemma Small(w: real, n: real)
    requires -n <= 9007199254740992.0 * w <= n < 2147483648.0
    ensures -1.0 < w < 1.0
  {
  }

  lemma Scaled(a: real, b: real, r: real)
    requires a <= b && r > 0.0
    ensures a * r <= b * r
  {
  }

  lemma Cancelled(a: real, b: real, r: real, n: real)
    requires a * r == n && b * r == n && r > 0.0
    ensures a == b
  {
  }

  lemma Ordered(a: real, b: real, r: real)
    requires a * r <= b * r && r > 0.0
    ensures a <= b
  {
  }

  lemma Between(x: real, k: real, m: real, r: real)
    requires r > 0.0 && k * r == m && m < x * r < m + r && k == k.Floor as real
    ensures x.Floor == k.Floor
  {
    Split(k, 1.0, r);
    Ordered(k, x, r);
    Ordered(x, k + 1.0, r);
  }

  lemma CeilBound(x: nat, m: int)
    ensures x <= 8 * m <==> BytesFor(x) <= m
  {
  }

  /** Header, bitmap and all slots lie inside the extent, one behind the other. */
  lemma SlotsDisjoint(rowSize: nat, scale: nat, i: nat, j: nat)
    requires scale >= 1 && i < j <= Capacity(rowSize, scale)
    ensures HeaderSize(rowSize, scale) <= RowOffset(rowSize, scale, i)
    ensures RowOffset(rowSize, scale, i) + rowSize <= RowOffset(rowSize, scale, j) <= SYS_PAGE_SIZE * scale
  {
    var n := Capacity(rowSize, scale);
    CapacityExact(rowSize, scale, n);
    Multiples(rowSize, i + 1, j);
    Multiples(rowSize, j, n);
    assert (i + 1) * rowSize == i * rowSize + rowSize;
  }

  lemma Multiples(d: nat, a: nat, b: nat)
    requires a <= b
    ensures a * d <= b * d
  {
  }

  // ---------------------------------------------------------------- choice of the extent size

  /** `page_actual_size`: the extent without header and bitmap. */
  function ActualSize(rowSize: nat, scale: nat): int
    requires scale >= 1
  {
    SYS_PAGE_SIZE * scale - HeaderSize(rowSize, scale)
  }

  /** The bound that ends the search in `init_table`. */
  predicate BigEnough(rowSize: nat, scale: nat)
    requires scale >= 1
  {
    ActualSize(rowSize, scale) >= rowSize * TABLE_MIN_ROWS_PER_PAGE
  }

  /** The bound as the program computes it, in 32 bits. */
  function Wanted(rowSize: nat): nat {
    (rowSize * TABLE_MIN_ROWS_PER_PAGE) % 0x1_0000_0000
  }

  /** The search ends at this extent size. */
  predicate Stops(rowSize: nat, scale: nat)
    requires scale >= 1
  {
    ActualSize(rowSize, scale) >= Wanted(rowSize)
  }

  /**
   * The search for the extent size, over 16-bit sizes. When it runs out of them it takes the size 0
   * and is lost. It ends with an extent that is big enough exactly for rows of at most
   * `MAX_ROW_SIZE` bytes.
   */
  method ChooseScale(rowSize: nat) returns (ended: bool, scale: nat)
    requires rowSize < 0x1_0000_0000
    ensures ended <==> Stops(rowSize, 0xFFFF)
    ensures ended ==> 1 <= scale < 0x1_0000 && Stops(rowSize, scale) && forall s :: 1 <= s < scale ==> !Stops(rowSize, s)
    ensures ended && BigEnough(rowSize, scale) <==> rowSize <= MAX_ROW_SIZE
    ensures rowSize <= MAX_ROW_SIZE ==> Least(rowSize, scale)
  {
    ScaleExists(rowSize);
    scale := 1;
    while scale < 0x1_0000 && ActualSize(rowSize, scale) < (rowSize * TABLE_MIN_ROWS_PER_PAGE) % 0x1_0000_0000
      invariant 1 <= scale <= 0x1_0000
      invariant forall s :: 1 <= s < scale ==> !Stops(rowSize, s)
      decreases 0x1_0000 - scale
    {
      scale := scale + 1;
    }
    ended := scale < 0x1_0000;
    if ended {
      ActualGrows(rowSize, scale, 0xFFFF);
    }
    if rowSize <= MAX_ROW_SIZE {
      LastScale(rowSize);
      SmallProduct(rowSize);
    }
  }

  /** The least extent that is big enough. */
  predicate Least(rowSize: nat, scale: nat) {
    1 <= scale < 0x1_0000 && BigEnough(rowSize, scale) && (scale > 1 ==> !BigEnough(rowSize, scale - 1))
  }

  /** How many pages the least extent for such rows takes at most. */
  function ExtentPages(rowSize: nat): (n: nat)
    ensures n >= 1
  {
    (TABLE_MIN_ROWS_PER_PAGE * rowSize + 15) / SYS_PAGE_SIZE + 1
  }

  /** The least extent is hardly larger than ten rows. */
  lemma LeastBound(rowSize: nat, scale: nat)
    requires Least(rowSize, scale)
    ensures scale <= ExtentPages(rowSize)
    ensures TABLE_MIN_ROWS_PER_PAGE * rowSize < SYS_PAGE_SIZE * scale
  {
    if scale > 1 {
      var c := Capacity(rowSize, scale - 1);
      if c >= TABLE_MIN_ROWS_PER_PAGE {
        TenRowsEnough(rowSize, scale - 1);
      }
    }
  }

  /** For rows of at most `MAX_ROW_SIZE` bytes the product does not wrap. */
  lemma SmallProduct(rowSize: nat)
    requires rowSize <= MAX_ROW_SIZE
    ensures forall s :: s >= 1 ==> (Stops(rowSize, s) <==> BigEnough(rowSize, s))
  {
  }

  /** A larger extent has more room beside header and bitmap. */
  lemma ActualGrows(rowSize: nat, s: nat, t: nat)
    requires 1 <= s <= t
    ensures ActualSize(rowSize, s) <= ActualSize(rowSize, t)
  {
    var c, c' := Capacity(rowSize, s), Capacity(rowSize, t);
    if c < c' {
      CapacityExact(rowSize, s, c + 1);
      CapacityExact(rowSize, t, c');
      Multiples(rowSize, c + 1, c');
      OneByteMore(c);
    }
  }

  lemma OneByteMore(n: nat)
    ensures BytesFor(n + 1) <= BytesFor(n) + 1
  {
  }

  /**
   * A row of 429516390 bytes: ten times that is 196604 in 32 bits, so the search ends at an extent
   * of 49 pages, in which no row fits.
   */
  lemma WrappedProduct()
    ensures Wanted(429_516_390) == 196_604
    ensures Stops(429_516_390, 49) && forall s :: 1 <= s < 49 ==> !Stops(429_516_390, s)
    ensures Capacity(429_516_390, 49) == 0
    ensures forall s :: 1 <= s < 0x1_0000 ==> !BigEnough(429_516_390, s)
  {
    CapacityExact(429_516_390, 49, 1);
    ScaleExists(429_516_390);
  }

  /** Some 16-bit extent size is big enough exactly for rows of at most `MAX_ROW_SIZE` bytes. */
  lemma ScaleExists(rowSize: nat)
    ensures (exists s :: 1 <= s < 0x1_0000 && BigEnough(rowSize, s)) <==> rowSize <= MAX_ROW_SIZE
  {
    if rowSize <= MAX_ROW_SIZE {
      LastScale(rowSize);
      assert BigEnough(rowSize, 0xFFFF);
    } else {
      forall s | 1 <= s < 0x1_0000 ensures !BigEnough(rowSize, s) {
        assert SYS_PAGE_SIZE * s <= SYS_PAGE_SIZE * 0xFFFF;
      }
    }
  }

  lemma LastScale(rowSize: nat)
    requires rowSize <= MAX_ROW_SIZE
    ensures BigEnough(rowSize, 0xFFFF)
  {
    CapacityExact(rowSize, 0xFFFF, TABLE_MIN_ROWS_PER_PAGE);
    TenRowsEnough(rowSize, 0xFFFF);
  }

  /** Room for ten rows is enough for the bound of the search. */
  lemma TenRowsEnough(rowSize: nat, scale: nat)
    requires scale >= 1 && Capacity(rowSize, scale) >= TABLE_MIN_ROWS_PER_PAGE
    ensures BigEnough(rowSize, scale)
  {
    var c := Capacity(rowSize, scale);
    CapacityExact(rowSize, scale, c);
    Multiples(rowSize, TABLE_MIN_ROWS_PER_PAGE, c);
  }

  lemma FewRows(rowSize: nat, scale: nat)
    requires rowSize >= 1 && scale >= 1 && Capacity(rowSize, scale) < TABLE_MIN_ROWS_PER_PAGE
    ensures !BigEnough(rowSize, scale)
  {
    var c := Capacity(rowSize, scale);
    CapacityExact(rowSize, scale, c + 1);
    Multiples(rowSize, c + 1, TABLE_MIN_ROWS_PER_PAGE);
    if c < 9 {
      Multiples(rowSize, c + 2, TABLE_MIN_ROWS_PER_PAGE);
      assert (c + 2) * rowSize == (c + 1) * rowSize + rowSize;
    }
  }

  /** An extent that meets the bound of the search holds at least ten rows. */
  lemma TenRows(rowSize: nat, scale: nat)
    requires rowSize >= 1 && scale >= 1 && BigEnough(rowSize, scale)
    ensures Capacity(rowSize, scale) >= TABLE_MIN_ROWS_PER_PAGE
  {
    if Capacity(rowSize, scale) < TABLE_MIN_ROWS_PER_PAGE {
      FewRows(rowSize, scale);
    }
  }

  /** With the least big enough extent, header and bitmap lie in its first 4096 bytes. */
  lemma BitmapInFirstPage(rowSize: nat, scale: nat)
    requires rowSize >= 1 && scale >= 1
    requires scale > 1 ==> !BigEnough(rowSize, scale - 1)
    ensures HeaderSize(rowSize, scale) <= SYS_PAGE_SIZE
  {
    var c := Capacity(rowSize, scale);
    CapacityExact(rowSize, scale, c);
    if scale > 1 {
      if Capacity(rowSize, scale - 1) >= TABLE_MIN_ROWS_PER_PAGE {
        TenRowsEnough(rowSize, scale - 1);
      }
      CapacityExact(rowSize, scale - 1, TABLE_MIN_ROWS_PER_PAGE);
      assert rowSize >= 409;
      if c > 20 {
        Multiples(rowSize, 21, c);
      }
    }
  }

  /** There is one least extent. */
  lemma LeastOnce(rowSize: nat, a: nat, b: nat)
    requires Least(rowSize, a) && Least(rowSize, b)
    ensures a == b
  {
    if a < b {
      BigStays(rowSize, a, b - 1);
    } else if b < a {
      BigStays(rowSize, b, a - 1);
    }
  }

  /** A larger extent is big enough if a smaller one is. */
  lemma BigStays(rowSize: nat, a: nat, b: nat)
    requires 1 <= a <= b && BigEnough(rowSize, a)
    ensures BigEnough(rowSize, b)
  {
    ActualGrows(rowSize, a, b);
  }
}
