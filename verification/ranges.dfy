/**
 * Kotlin `Int` ranges (`first..last`) as the search specification's `count`
 * and the grid dump's row range use them, with the 32-bit arithmetic of
 * the `IntRange.size` extension written out.
 */
module Ranges {
  import Text

  const INT_MIN: int := -0x8000_0000
  const INT_MAX: int := 0x7FFF_FFFF

  /** A Kotlin `Int`. */
  type Int32 = x: int | INT_MIN <= x <= INT_MAX

  /** Two's complement wrap-around of an integer into 32 bits. */
  function Wrap32(x: int): (r: Int32)
    ensures INT_MIN <= x <= INT_MAX ==> r == x
  {
    (x - INT_MIN) % 0x1_0000_0000 + INT_MIN
  }

  /** Wrap-around repeats only after 2^32 steps: integers less than 2^32 apart wrap to different values. */
  lemma Wrap32Injective(a: int, b: int)
    requires a < b < a + 0x1_0000_0000
    ensures Wrap32(a) != Wrap32(b)
  {
    var m := 0x1_0000_0000;
    var qa, qb := (a - INT_MIN) / m, (b - INT_MIN) / m;
    assert a - INT_MIN == qa * m + (a - INT_MIN) % m;
    assert b - INT_MIN == qb * m + (b - INT_MIN) % m;
  }

  /** An inclusive `IntRange`. */
  datatype IntRange = IntRange(first: Int32, last: Int32)
  {
    /** `n in range`. */
    predicate Contains(n: int)
    {
      first <= n <= last
    }

    /** `IntRange.toString()`: "first..last". */
    function ToString(): string
    {
      Text.IntToString(first) + ".." + Text.IntToString(last)
    }
  }

  /**
   * `IntRange.size`: `(endInclusive + 1 - start).coerceAtLeast(0)` evaluated in
   * `Int` arithmetic, so both operations wrap around.
   */
  function Size(r: IntRange): (n: nat)
  {
    var d := Wrap32(Wrap32(r.last + 1) - r.first);
    if d < 0 then 0 else d
  }

  predicate Between(a: int, k: int, b: int)
  {
    a <= k <= b
  }

  /** The members of a range, as a set. */
  ghost function Members(r: IntRange): set<int>
  {
    set k | r.first <= k <= r.last && Between(r.first, k, r.last)
  }

  lemma {:induction false} MembersCount(a: int, b: int)
    requires a <= b + 1
    ensures |set k | a <= k <= b && Between(a, k, b)| == b + 1 - a
    decreases b + 1 - a
  {
    if a <= b {
      var c := b - 1;
      MembersCount(a, c);
      assert (set k | a <= k <= b && Between(a, k, b)) == (set k | a <= k <= c && Between(a, k, c)) + {b};
    } else {
      assert (set k | a <= k <= b && Between(a, k, b)) == {};
    }
  }

  /**
   * Without overflow, `size` counts the members: max(0, last + 1 - first).
   * The arithmetic stays in range whenever the true size fits in an `Int`.
   */
  lemma SizeCountsMembers(r: IntRange)
    requires INT_MIN <= r.last + 1 - r.first <= INT_MAX
    ensures Size(r) == (if r.last + 1 - r.first < 0 then 0 else r.last + 1 - r.first)
    ensures Size(r) == |Members(r)|
  {
    if r.last + 1 - r.first >= 0 {
      MembersCount(r.first, r.last);
    } else {
      assert Members(r) == {};
    }
    if r.last == INT_MAX {
      assert r.first >= 1;
      assert (INT_MAX + 1 - INT_MIN) % 0x1_0000_0000 == 0;
      assert Wrap32(r.last + 1) == INT_MIN;
      assert (-r.first) % 0x1_0000_0000 == 0x1_0000_0000 - r.first;
      assert Wrap32(INT_MIN - r.first) == INT_MIN - r.first + 0x1_0000_0000;
    } else {
      assert Wrap32(r.last + 1) == r.last + 1;
    }
  }

  /**
   * Outside that bound the arithmetic wraps: `(0..Int.MAX_VALUE).size` is 0
   * and the empty `(Int.MAX_VALUE..Int.MIN_VALUE).size` is 2.
   */
  lemma SizeWrapsAtTheEnds()
    ensures Size(IntRange(0, INT_MAX)) == 0
    ensures |Members(IntRange(0, INT_MAX))| == INT_MAX + 1
    ensures Size(IntRange(INT_MAX, INT_MIN)) == 2
    ensures Members(IntRange(INT_MAX, INT_MIN)) == {}
  {
    MembersCount(0, INT_MAX);
  }
}
