/** Rows of equal width laid end to end in one flat array. */
module Flat {

  /** Index of the first cell of row r, as a sum; the product appears only where code multiplies. */
  ghost function Base(r: nat, width: nat): nat {
    if r == 0 then 0 else Base(r - 1, width) + width
  }

  lemma {:induction false} BaseIsProduct(r: nat, width: nat)
    ensures Base(r, width) == r * width
  {
    if r > 0 {
      BaseIsProduct(r - 1, width);
      assert (r - 1) * width + width == r * width;
    }
  }

  lemma {:induction false} BaseBound(r: nat, rows: nat, width: nat)
    requires r < rows
    ensures Base(r, width) + width <= Base(rows, width)
    decreases rows
  {
    if r < rows - 1 { BaseBound(r, rows - 1, width); }
  }

  ghost function Slice<T>(a: seq<T>, r: nat, rows: nat, width: nat): (s: seq<T>)
    requires r < rows && |a| == Base(rows, width)
    ensures |s| == width
    ensures Base(r, width) + width <= |a|
    ensures forall k :: 0 <= k < width ==> s[k] == a[Base(r, width) + k]
  {
    BaseBound(r, rows, width);
    a[Base(r, width)..Base(r, width) + width]
  }

  /** Changing cell k of row r changes that cell of that row and nothing else. */
  lemma SliceUpdate<T>(a: seq<T>, b: seq<T>, r: nat, rows: nat, width: nat, k: nat)
    requires r < rows && |a| == |b| == Base(rows, width) && k < width
    requires forall i :: 0 <= i < |a| && i != Base(r, width) + k ==> a[i] == b[i]
    ensures Slice(b, r, rows, width) == Slice(a, r, rows, width)[k := Slice(b, r, rows, width)[k]]
    ensures forall r' :: 0 <= r' < rows && r' != r ==> Slice(b, r', rows, width) == Slice(a, r', rows, width)
  {
    forall r' | 0 <= r' < rows && r' != r ensures Slice(b, r', rows, width) == Slice(a, r', rows, width) {
      if r' < r { BaseBound(r', r, width); } else { BaseBound(r, r', width); }
    }
  }

  /** Writing x into cell k of row r. */
  lemma SliceWrite<T>(a: seq<T>, r: nat, rows: nat, width: nat, k: nat, x: T)
    requires r < rows && |a| == Base(rows, width) && k < width
    ensures Base(r, width) + k < |a|
    ensures var b := a[Base(r, width) + k := x];
      && Slice(b, r, rows, width) == Slice(a, r, rows, width)[k := x]
      && forall r' :: 0 <= r' < rows && r' != r ==> Slice(b, r', rows, width) == Slice(a, r', rows, width)
  {
    BaseBound(r, rows, width);
    SliceUpdate(a, a[Base(r, width) + k := x], r, rows, width, k);
  }
}
