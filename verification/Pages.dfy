/** Rounding a buffer to whole pages in 64-bit arithmetic. */
module Pages {

  /** UINTPTR_MAX of a 64-bit machine. */
  const TOP: int := 0xFFFF_FFFF_FFFF_FFFF

  /** Clearing the bits of an address below the page size. */
  function PageOf(address: int, pageSize: int): int
    requires pageSize > 0
  {
    address - address % pageSize
  }

  function FirstByte(base: int, pageSize: int): int
    requires pageSize > 0
  {
    PageOf(base, pageSize)
  }

  /** The last byte of the last page, computed in 64-bit arithmetic. */
  function LastByte(base: int, size: int, pageSize: int): int
    requires pageSize > 0
  {
    (PageOf((base + size + pageSize - 1) % (TOP + 1), pageSize) - 1) % (TOP + 1)
  }

  lemma Small(d: int, n: int)
    requires n > 0 && -n < d * n < n
    ensures d == 0
  {
    if d >= 1 {
      NotNegative(d - 1, n);
    } else if d <= -1 {
      NotNegative(-d - 1, n);
    }
  }

  lemma NotNegative(d: int, n: int)
    requires d >= 0 && n >= 0
    ensures d * n >= 0
  {
  }

  /** Rounding down is to the only multiple of the page size within a page below. */
  lemma Rounds(address: int, k: int, pageSize: int)
    requires pageSize > 0 && k * pageSize <= address < k * pageSize + pageSize
    ensures PageOf(address, pageSize) == k * pageSize
  {
    var q := address / pageSize;
    assert address == q * pageSize + address % pageSize;
    assert (k - q) * pageSize == k * pageSize - q * pageSize;
    Small(k - q, pageSize);
  }

  lemma Below(m: int, pageSize: int)
    requires pageSize > 0 && -pageSize < m * pageSize
    ensures 0 <= m * pageSize
  {
    if m < 0 {
      NotNegative(-m - 1, pageSize);
    }
  }

  lemma LastInside(base: int, size: int, pageSize: int)
    requires pageSize > 0 && 0 <= base && 0 < size && base + size + pageSize - 1 <= TOP
    ensures var end := LastByte(base, size, pageSize);
            && base + size <= end + 1 < base + size + pageSize && end <= TOP && PageOf(end + 1, pageSize) == end + 1
  {
    hide PageOf;
    var s := base + size + pageSize - 1;
    var k := Rounded(s, pageSize);
    Rounds(k * pageSize, k, pageSize);
  }

  lemma Rounded(address: int, pageSize: int) returns (k: int)
    requires pageSize > 0
    ensures PageOf(address, pageSize) == k * pageSize && k * pageSize <= address < k * pageSize + pageSize
  {
    k := address / pageSize;
    assert address == k * pageSize + address % pageSize;
  }

  /** The sum wraps to zero, and taking one away wraps it back to the top. */
  lemma LastWraps(base: int, size: int, pageSize: int, pages: int)
    requires pageSize > 0 && pages * pageSize == TOP + 1 && base + size <= TOP + 1 < base + size + pageSize
    ensures LastByte(base, size, pageSize) == TOP && PageOf(TOP + 1, pageSize) == TOP + 1
  {
    hide PageOf;
    var s := base + size + pageSize - 1;
    FitsWord(base, size, pageSize, pages);
    WordWraps(s);
    Rounds(s - (TOP + 1), 0, pageSize);
    Rounds(TOP + 1, pages, pageSize);
  }

  lemma WordWraps(s: int)
    requires TOP + 1 <= s < 2 * (TOP + 1)
    ensures s % (TOP + 1) == s - (TOP + 1)
  {
  }

  lemma FitsWord(base: int, size: int, pageSize: int, pages: int)
    requires pageSize > 0 && pages * pageSize == TOP + 1 && base + size <= TOP + 1 < base + size + pageSize
    ensures base + size + pageSize - 1 < 2 * (TOP + 1)
  {
    if pageSize > TOP + 1 {
      assert pages >= 1 by {
        if pages <= 0 {
          NotNegative(-pages, pageSize);
        }
      }
      NotNegative(pages - 1, pageSize);
    }
  }

  /** The range that is advised is the smallest one of whole pages around the bytes of the caller,
      also where it ends at the top of the address space. */
  lemma WholePages(base: int, size: int, pageSize: int, pages: int)
    requires pageSize > 0 && pages * pageSize == TOP + 1 && 0 <= base && 0 < size && base + size <= TOP + 1
    ensures var start, end := FirstByte(base, pageSize), LastByte(base, size, pageSize);
            && 0 <= start <= base < base + size <= end + 1 && end <= TOP
            && PageOf(start, pageSize) == start && PageOf(end + 1, pageSize) == end + 1
            && base - start < pageSize && end + 1 - (base + size) < pageSize
  {
    var m := base / pageSize;
    assert base == m * pageSize + base % pageSize;
    assert FirstByte(base, pageSize) == m * pageSize;
    Rounds(m * pageSize, m, pageSize);
    Below(m, pageSize);
    if base + size + pageSize - 1 <= TOP {
      LastInside(base, size, pageSize);
    } else {
      LastWraps(base, size, pageSize, pages);
    }
  }
}
