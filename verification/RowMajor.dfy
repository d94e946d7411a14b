/**
 Facts about rectangular data stored row by row in one flat buffer, shared by the
 clients that address such buffers as base[row * stride + column].
 */
module RowMajor {

  lemma MulMonotonic(w: nat, a: int, b: int)
    requires a <= b
    ensures a * w <= b * w
  {
    assert (b - a) * w >= 0;
    assert b * w == a * w + (b - a) * w;
  }

  lemma CellIndex(w: nat, h: nat, x: nat, y: nat)
    requires x < w && y < h
    ensures 0 <= y * w + x < w * h
    ensures (y * w + x) % w == x && (y * w + x) / w == y
  {
    var k := y * w + x;
    MulMonotonic(w, y + 1, h);
    assert (y + 1) * w == y * w + w && h * w == w * h;
    var q, r := k / w, k % w;
    assert k == q * w + r;
    if q < y {
      MulMonotonic(w, q + 1, y);
    } else if q > y {
      MulMonotonic(w, y + 1, q);
    }
  }

  /** Every index is the index of its own row and column. */
  lemma CellOf(w: nat, h: nat, k: nat)
    requires k < w * h
    ensures w > 0 && k % w < w && k / w < h && k == (k / w) * w + k % w
  {
    assert w != 0;
    if k / w >= h {
      MulMonotonic(w, h, k / w);
    }
  }

  lemma CellIff(w: nat, h: nat, x: nat, y: nat, k: nat)
    requires x < w && y < h && k < w * h
    ensures k == y * w + x <==> k % w == x && k / w == y
  {
    CellIndex(w, h, x, y);
    CellOf(w, h, k);
  }

  /** A loop in index order has turned g0 into target up to, not including, end. */
  ghost predicate Merged<T>(target: seq<T>, g0: seq<T>, g: seq<T>, end: int) {
    && |target| == |g0| == |g|
    && forall k | 0 <= k < |g| :: g[k] == if k < end then target[k] else g0[k]
  }

  /** Cells that the loop jumps over must be meant to stay as they are. */
  lemma MergeSkip<T>(target: seq<T>, g0: seq<T>, g: seq<T>, from: int, to: int)
    requires Merged(target, g0, g, from) && from <= to
    requires forall k | from <= k < to && 0 <= k < |g| :: target[k] == g0[k]
    ensures Merged(target, g0, g, to)
  {
  }

  /** The cells between column end of row y and column start of row y + 1. */
  lemma RowGap(w: nat, y: nat, start: nat, end: nat, k: nat)
    requires start <= end <= w && y * w + end <= k < (y + 1) * w + start
    ensures w > 0
    ensures (k / w == y && end <= k % w) || (k / w == y + 1 && k % w < start)
  {
    var r := k - y * w;
    assert (y + 1) * w == y * w + w;
    if r < w {
      CellIndex(w, y + 1, r, y);
    } else {
      CellIndex(w, y + 2, r - w, y + 1);
    }
  }
}
