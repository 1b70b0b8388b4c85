/** Definitions shared by every component of the model. */
module Prelude {

  /** A value that may be missing: a nullable column, or Python's `None`. */
  datatype Option<+T> = None | Some(value: T)

  // Times count seconds, dates count days.
  const HOUR := 3600
  const DAY := 24 * HOUR

  ghost predicate Increasing(xs: seq<int>) {
    forall i, j | 0 <= i < j < |xs| :: xs[i] < xs[j]
  }

  ghost predicate Ascending(xs: seq<int>) {
    forall i, j | 0 <= i < j < |xs| :: xs[i] <= xs[j]
  }

  /** The characters for which Python's `str.isspace` holds. */
  predicate IsSpace(c: char) {
    var n := c as int;
    || 0x9 <= n <= 0xD || 0x1C <= n <= 0x20 || n == 0x85 || n == 0xA0 || n == 0x1680
    || 0x2000 <= n <= 0x200A || n == 0x2028 || n == 0x2029 || n == 0x202F || n == 0x205F || n == 0x3000
  }

  /** The sum of `f` over the integers of the closed interval `[lo, hi]`. */
  ghost function Sum(lo: int, hi: int, f: int -> real): real
    decreases hi - lo + 1
  {
    if hi < lo then 0.0 else Sum(lo, hi - 1, f) + f(hi)
  }

  lemma {:induction false} SumCongruence(lo: int, hi: int, f: int -> real, g: int -> real)
    requires forall d | lo <= d <= hi :: f(d) == g(d)
    ensures Sum(lo, hi, f) == Sum(lo, hi, g)
    decreases hi - lo + 1
  {
    if lo <= hi {
      SumCongruence(lo, hi - 1, f, g);
    }
  }

  lemma {:induction false} SumAdds(lo: int, hi: int, f: int -> real, g: int -> real, h: int -> real)
    requires forall d | lo <= d <= hi :: h(d) == f(d) + g(d)
    ensures Sum(lo, hi, h) == Sum(lo, hi, f) + Sum(lo, hi, g)
    decreases hi - lo + 1
  {
    if lo <= hi {
      SumAdds(lo, hi - 1, f, g, h);
    }
  }

  lemma {:induction false} SumSplits(lo: int, mid: int, hi: int, f: int -> real)
    requires lo - 1 <= mid <= hi
    ensures Sum(lo, hi, f) == Sum(lo, mid, f) + Sum(mid + 1, hi, f)
    decreases hi - mid
  {
    if mid < hi {
      SumSplits(lo, mid, hi - 1, f);
    }
  }

  lemma {:induction false} SumConstant(lo: int, hi: int, f: int -> real, c: real)
    requires lo <= hi + 1
    requires forall d | lo <= d <= hi :: f(d) == c
    ensures Sum(lo, hi, f) == (hi - lo + 1) as real * c
    decreases hi - lo + 1
  {
    if lo <= hi {
      SumConstant(lo, hi - 1, f, c);
      assert (hi - lo) as real * c + c == (hi - lo + 1) as real * c;
    }
  }
}
