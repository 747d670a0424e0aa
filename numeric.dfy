/** The numeric primitives the engine takes from Python and numpy, over exact
    numbers: non-negative integer bit operations (`>>`, `<<`, `&`, `|`),
    sorting, `max`, `np.percentile` with linear interpolation, and `np.round`
    (round half to even). */
module Numeric {

  // ------------------------------------------------------- bits of naturals

  /** `a >> k` for a non-negative Python int: `k` halvings, each rounding down. */
  function Shr(a: nat, k: nat): nat
  {
    if k == 0 then a else Shr(a, k - 1) / 2
  }

  /** `a << k` for a non-negative Python int: `k` doublings. */
  function Shl(a: nat, k: nat): nat
  {
    if k == 0 then a else 2 * Shl(a, k - 1)
  }

  /** Shifting by `j` and then by `k` is shifting by `j + k`. */
  lemma {:induction false} ShrAdd(a: nat, j: nat, k: nat)
    ensures Shr(a, j + k) == Shr(Shr(a, j), k)
  {
    if k > 0 {
      ShrAdd(a, j, k - 1);
    }
  }

  lemma ShrFour(a: nat)
    ensures Shr(a, 4) == a / 16
  {
    assert Shr(a, 1) == a / 2;
    assert Shr(a, 2) == a / 4;
    assert Shr(a, 3) == a / 8;
  }

  lemma ShrEight(a: nat)
    ensures Shr(a, 8) == a / 256
  {
    ShrAdd(a, 4, 4);
    ShrFour(a);
    ShrFour(a / 16);
    var q, r := a / 256, a % 256;
    assert a == 16 * (16 * q + r / 16) + r % 16;
    assert a / 16 == 16 * q + r / 16;
  }

  lemma ShrTwenty(a: nat)
    ensures Shr(a, 20) == a / 1048576
  {
    ShrAdd(a, 8, 8);
    ShrEight(a);
    ShrEight(a / 256);
    var q, r := a / 65536, a % 65536;
    assert a == 256 * (256 * q + r / 256) + r % 256;
    assert a / 256 == 256 * q + r / 256;
    ShrAdd(a, 16, 4);
    ShrFour(a / 65536);
    var q', r' := a / 1048576, a % 1048576;
    assert a == 65536 * (16 * q' + r' / 65536) + r' % 65536;
    assert a / 65536 == 16 * q' + r' / 65536;
  }

  lemma ShlEight(a: nat)
    ensures Shl(a, 8) == 256 * a
  {
    assert Shl(a, 1) == 2 * a;
    assert Shl(a, 2) == 4 * a;
    assert Shl(a, 3) == 8 * a;
    assert Shl(a, 4) == 16 * a;
    assert Shl(a, 5) == 32 * a;
    assert Shl(a, 6) == 64 * a;
    assert Shl(a, 7) == 128 * a;
  }

  /** `x & y`, bit by bit from the least significant end. */
  function BitAnd(x: nat, y: nat): nat
    decreases x
  {
    if x == 0 || y == 0 then 0
    else 2 * BitAnd(x / 2, y / 2) + (if x % 2 == 1 && y % 2 == 1 then 1 else 0)
  }

  /** `x | y`, bit by bit from the least significant end. */
  function BitOr(x: nat, y: nat): nat
    decreases x + y
  {
    if x == 0 then y
    else if y == 0 then x
    else 2 * BitOr(x / 2, y / 2) + (if x % 2 == 1 || y % 2 == 1 then 1 else 0)
  }

  /** An even mask reads the bits of `x` shifted right by one. */
  lemma AndEven(x: nat, c: nat)
    ensures BitAnd(x, 2 * c) == 2 * BitAnd(x / 2, c)
  {
    if x != 0 && c != 0 {
      assert (2 * c) / 2 == c && (2 * c) % 2 == 0;
      assert BitAnd(x, 2 * c) == 2 * BitAnd(x / 2, (2 * c) / 2);
    } else if x == 0 {
      assert x / 2 == 0;
    }
  }

  /** Or commutes with a common left shift by one. */
  lemma OrEven(x: nat, y: nat)
    ensures BitOr(2 * x, 2 * y) == 2 * BitOr(x, y)
  {
    if x != 0 && y != 0 {
      assert (2 * x) / 2 == x && (2 * x) % 2 == 0;
      assert (2 * y) / 2 == y && (2 * y) % 2 == 0;
      assert BitOr(2 * x, 2 * y) == 2 * BitOr((2 * x) / 2, (2 * y) / 2);
    }
  }

  /** An odd mask keeps the lowest bit and reads the rest shifted right by one. */
  lemma AndOdd(x: nat, c: nat)
    ensures BitAnd(x, 2 * c + 1) == 2 * BitAnd(x / 2, c) + x % 2
  {
    if x != 0 {
      assert (2 * c + 1) / 2 == c && (2 * c + 1) % 2 == 1;
      assert BitAnd(x, 2 * c + 1) == 2 * BitAnd(x / 2, (2 * c + 1) / 2) + (if x % 2 == 1 then 1 else 0);
    } else {
      assert x / 2 == 0 && x % 2 == 0;
    }
  }

  /** `x & 15` is the low nibble of `x`. */
  lemma {:induction false} AndLowNibble(x: nat)
    ensures BitAnd(x, 15) == x % 16
  {
    var x1, x2, x3, x4 := x / 2, x / 4, x / 8, x / 16;
    assert x1 / 2 == x2 && x2 / 2 == x3 && x3 / 2 == x4;
    AndOdd(x3, 0);
    AndOdd(x2, 1);
    AndOdd(x1, 3);
    AndOdd(x, 7);
    assert BitAnd(x4, 0) == 0;
    var b := 2 * (2 * (2 * (x3 % 2) + x2 % 2) + x1 % 2) + x % 2;
    assert BitAnd(x, 15) == b;
    assert x == 16 * x4 + b;
  }

  /** `x & 240` is the second nibble of `x`, left in place. */
  lemma {:induction false} AndHighNibble(x: nat)
    ensures BitAnd(x, 240) == 16 * ((x / 16) % 16)
  {
    AndEven(x, 120);
    AndEven(x / 2, 60);
    AndEven(x / 4, 30);
    AndEven(x / 8, 15);
    assert x / 2 / 2 == x / 4 && x / 4 / 2 == x / 8 && x / 8 / 2 == x / 16;
    AndLowNibble(x / 16);
  }

  /** Or-ing into an even number: the lowest bit comes from `y` alone. */
  lemma OrIntoEven(x: nat, y: nat)
    ensures BitOr(2 * x, y) == 2 * BitOr(x, y / 2) + y % 2
  {
    if x != 0 && y != 0 {
      assert (2 * x) / 2 == x && (2 * x) % 2 == 0;
      assert BitOr(2 * x, y) == 2 * BitOr((2 * x) / 2, y / 2) + (if y % 2 == 1 then 1 else 0);
    } else if x == 0 {
      assert BitOr(x, y / 2) == y / 2;
    } else {
      assert y / 2 == 0 && y % 2 == 0;
    }
  }

  /** Or-ing in a value narrower than four bits is adding it. */
  lemma {:induction false} OrLowNibble(x: nat, y: nat)
    requires y < 16
    ensures BitOr(16 * x, y) == 16 * x + y
  {
    var y1, y2, y3 := y / 2, y / 4, y / 8;
    assert y1 / 2 == y2 && y2 / 2 == y3 && y3 / 2 == 0;
    assert y == 2 * y1 + y % 2 && y1 == 2 * y2 + y1 % 2 && y2 == 2 * y3 + y2 % 2 && y3 < 2;
    OrIntoEven(8 * x, y);
    OrIntoEven(4 * x, y1);
    OrIntoEven(2 * x, y2);
    OrIntoEven(x, y3);
    assert 2 * (8 * x) == 16 * x && 2 * (4 * x) == 8 * x && 2 * (2 * x) == 4 * x;
    assert BitOr(x, 0) == x;
  }

  /** Or commutes with a common left shift by four. */
  lemma {:induction false} OrShiftNibble(x: nat, y: nat)
    ensures BitOr(16 * x, 16 * y) == 16 * BitOr(x, y)
  {
    OrEven(8 * x, 8 * y);
    OrEven(4 * x, 4 * y);
    OrEven(2 * x, 2 * y);
    OrEven(x, y);
  }

  // ------------------------------------------------------------- sequences of reals

  ghost predicate Sorted(s: seq<real>)
  {
    forall i, j :: 0 <= i < j < |s| ==> s[i] <= s[j]
  }

  function Insert(x: real, s: seq<real>): (r: seq<real>)
    requires Sorted(s)
    ensures |r| == |s| + 1
    ensures r[0] == x || (s != [] && r[0] == s[0])
    ensures Sorted(r)
    ensures multiset(r) == multiset(s) + multiset{x}
  {
    if s == [] || x <= s[0] then
      PrependSorted(x, s);
      [x] + s
    else
      var t := Insert(x, s[1..]);
      PrependSorted(s[0], t);
      assert s == [s[0]] + s[1..];
      [s[0]] + t
  }

  lemma PrependSorted(a: real, t: seq<real>)
    requires Sorted(t) && (t != [] ==> a <= t[0])
    ensures Sorted([a] + t)
  {
    var r := [a] + t;
    forall i, j | 0 <= i < j < |r| ensures r[i] <= r[j] {
      assert r[j] == t[j - 1];
      if i > 0 {
        assert r[i] == t[i - 1];
      }
    }
  }

  /** The values in ascending order, as numpy's percentile sees them. */
  function Sort(s: seq<real>): (r: seq<real>)
    ensures Sorted(r)
    ensures multiset(r) == multiset(s)
    ensures |r| == |s|
  {
    if s == [] then []
    else
      assert s == [s[0]] + s[1..];
      Insert(s[0], Sort(s[1..]))
  }

  /** Values already in ascending order sort to themselves. */
  lemma {:induction false} SortOfSorted(s: seq<real>)
    requires Sorted(s)
    ensures Sort(s) == s
  {
    if s != [] {
      var t := s[1..];
      assert Sorted(t);
      SortOfSorted(t);
      assert s == [s[0]] + t;
      if t != [] {
        assert s[0] <= t[0];
      }
    }
  }

  /** Python's `max(vals)`. */
  function Max(s: seq<real>): (m: real)
    requires |s| > 0
    ensures m in s
    ensures forall i :: 0 <= i < |s| ==> s[i] <= m
  {
    if |s| == 1 then s[0]
    else
      var m := Max(s[1..]);
      if s[0] >= m then s[0] else m
  }

  /** The maximum is the last value in ascending order. */
  lemma MaxIsLastSorted(s: seq<real>)
    requires |s| > 0
    ensures Sort(s)[|s| - 1] == Max(s)
  {
    var t := Sort(s);
    LastOfSortedPermutation(s, t);
  }

  lemma LastOfSortedPermutation(s: seq<real>, t: seq<real>)
    requires |s| > 0 && |t| == |s| && Sorted(t) && multiset(t) == multiset(s)
    ensures t[|t| - 1] == Max(s)
  {
    var last := t[|t| - 1];
    assert last in multiset(t);
    assert last in s;
    var m := Max(s);
    assert m in multiset(s);
    assert m in t;
    var j :| 0 <= j < |t| && t[j] == m;
    assert m <= last;
  }

  /** Linear interpolation in ascending values at a fractional rank: numpy's
      default ("linear") percentile rule. */
  function Interpolate(s: seq<real>, rank: real): (p: real)
    requires |s| > 0 && Sorted(s)
    requires 0.0 <= rank <= (|s| - 1) as real
    ensures s[0] <= p <= s[|s| - 1]
  {
    var lo := rank.Floor;
    var hi := if lo + 1 < |s| then lo + 1 else |s| - 1;
    var g := rank - lo as real;
    assert 0 <= lo <= hi < |s|;
    assert s[0] <= s[lo] <= s[hi] <= s[|s| - 1];
    InterpolationBetween(s[lo], s[hi], g);
    var p := s[lo] + g * (s[hi] - s[lo]);
    assert s[lo] <= p <= s[hi];
    p
  }

  lemma InterpolationBetween(a: real, b: real, g: real)
    requires a <= b && 0.0 <= g <= 1.0
    ensures a <= a + g * (b - a) <= b
  {
    assert g * (b - a) <= 1.0 * (b - a);
  }

  /** `np.percentile(vals, 99)`: the value at rank `0.99 * (n - 1)` of the
      ascending values, interpolated between its two neighbouring ranks. */
  function Percentile99(vals: seq<real>): (p: real)
    requires |vals| > 0
    ensures p <= Max(vals)
    ensures exists i :: 0 <= i < |vals| && vals[i] <= p
  {
    var s := Sort(vals);
    MaxIsLastSorted(vals);
    assert s[0] in multiset(vals);
    Interpolate(s, 0.99 * (|s| - 1) as real)
  }

  /** `np.round` of a float: the nearest integer, ties to the even one. */
  function RoundHalfEven(x: real): (n: int)
    ensures x - 0.5 <= n as real <= x + 0.5
    ensures (n as real == x - 0.5 || n as real == x + 0.5) ==> n % 2 == 0
  {
    var f := x.Floor;
    var d := x - f as real;
    if d < 0.5 then f
    else if d > 0.5 then f + 1
    else if f % 2 == 0 then f
    else f + 1
  }

  /** Rounding never leaves an integer interval that holds its argument. */
  lemma RoundWithin(x: real, lo: int, hi: int)
    requires lo as real <= x <= hi as real
    ensures lo <= RoundHalfEven(x) <= hi
  {
  }
}
