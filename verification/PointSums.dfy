/** Sums over the instants of a half-open range; durations are counts of instants. */
module PointSums {

  ghost function PointSum(lo: int, hi: int, f: int -> int): int
    decreases hi - lo
  {
    if hi <= lo then 0 else PointSum(lo, hi - 1, f) + f(hi - 1)
  }

  lemma {:induction false} PointSumSplit(lo: int, mid: int, hi: int, f: int -> int)
    requires lo <= mid <= hi
    ensures PointSum(lo, hi, f) == PointSum(lo, mid, f) + PointSum(mid, hi, f)
    decreases hi - mid
  {
    if hi <= mid {
    } else {
      PointSumSplit(lo, mid, hi - 1, f);
    }
  }

  lemma {:induction false} PointSumEqual(lo: int, hi: int, f: int -> int, g: int -> int)
    requires forall x :: lo <= x < hi ==> f(x) == g(x)
    ensures PointSum(lo, hi, f) == PointSum(lo, hi, g)
    decreases hi - lo
  {
    if hi <= lo {
    } else {
      PointSumEqual(lo, hi - 1, f, g);
    }
  }

  lemma {:induction false} PointSumAtMost(lo: int, hi: int, f: int -> int, g: int -> int)
    requires forall x :: lo <= x < hi ==> f(x) <= g(x)
    ensures PointSum(lo, hi, f) <= PointSum(lo, hi, g)
    decreases hi - lo
  {
    if hi <= lo {
    } else {
      PointSumAtMost(lo, hi - 1, f, g);
    }
  }

  lemma {:induction false} PointSumAdd(lo: int, hi: int, f: int -> int, g: int -> int, h: int -> int)
    requires forall x :: lo <= x < hi ==> h(x) == f(x) + g(x)
    ensures PointSum(lo, hi, h) == PointSum(lo, hi, f) + PointSum(lo, hi, g)
    decreases hi - lo
  {
    if hi <= lo {
    } else {
      PointSumAdd(lo, hi - 1, f, g, h);
    }
  }

  lemma {:induction false} PointSumConstant(lo: int, hi: int, f: int -> int, c: int)
    requires lo <= hi && forall x :: lo <= x < hi ==> f(x) == c
    ensures PointSum(lo, hi, f) == (hi - lo) * c
    decreases hi - lo
  {
    if hi <= lo {
    } else {
      PointSumConstant(lo, hi - 1, f, c);
    }
  }

  lemma {:induction false} PointSumScale(lo: int, hi: int, f: int -> int, g: int -> int, c: int)
    requires forall x :: lo <= x < hi ==> g(x) == c * f(x)
    ensures PointSum(lo, hi, g) == c * PointSum(lo, hi, f)
    decreases hi - lo
  {
    if hi <= lo {
    } else {
      PointSumScale(lo, hi - 1, f, g, c);
    }
  }

  /** A function that vanishes outside `[a, b)` can be summed over that part alone. */
  lemma {:induction false} PointSumRestrict(lo: int, hi: int, a: int, b: int, f: int -> int, g: int -> int)
    requires forall x :: lo <= x < hi && a <= x < b ==> f(x) == g(x)
    requires forall x :: lo <= x < hi && !(a <= x < b) ==> f(x) == 0
    ensures PointSum(lo, hi, f) == PointSum(if lo < a then a else lo, if b < hi then b else hi, g)
  {
    var a', b' := if lo < a then a else lo, if b < hi then b else hi;
    if hi <= lo {
    } else if b' <= a' {
      PointSumConstant(lo, hi, f, 0);
    } else {
      PointSumSplit(lo, a', hi, f);
      PointSumSplit(a', b', hi, f);
      PointSumConstant(lo, a', f, 0);
      PointSumConstant(b', hi, f, 0);
      PointSumEqual(a', b', f, g);
    }
  }

  /** Every term is one and none is missing exactly when the sum is the length of the range. */
  lemma {:induction false} PointSumFull(lo: int, hi: int, f: int -> int)
    requires lo <= hi && forall x :: lo <= x < hi ==> 0 <= f(x) <= 1
    ensures 0 <= PointSum(lo, hi, f) <= hi - lo
    ensures PointSum(lo, hi, f) == hi - lo <==> forall x :: lo <= x < hi ==> f(x) == 1
    decreases hi - lo
  {
    if hi <= lo {
    } else {
      PointSumFull(lo, hi - 1, f);
    }
  }
}
