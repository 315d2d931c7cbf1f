/** Broadcast offsets of binary graph operators (dolphin_dgl/src/bcast.cc). Shapes are lists of
    sizes; axis 0 numbers the nodes or edges and does not take part. */
module Bcast {
  import opened Common

  // ------------------------------------------------- indices of an array stored row by row

  function Size(dims: seq<nat>): (n: nat) {
    if |dims| == 0 then 1 else dims[0] * Size(dims[1..])
  }

  ghost predicate Positive(dims: seq<nat>) {
    forall a :: 0 <= a < |dims| ==> 0 < dims[a]
  }

  ghost predicate Index(dims: seq<nat>, idx: seq<nat>) {
    |idx| == |dims| && forall a :: 0 <= a < |dims| ==> idx[a] < dims[a]
  }

  /** Where the element with this index is stored. */
  function RowMajor(dims: seq<nat>, idx: seq<nat>): (o: nat)
    requires |idx| == |dims|
  {
    if |dims| == 0 then 0 else idx[0] * Size(dims[1..]) + RowMajor(dims[1..], idx[1..])
  }

  /** The index of the element stored at `o`. */
  function Unflatten(dims: seq<nat>, o: nat): (idx: seq<nat>)
    requires Positive(dims)
    ensures |idx| == |dims|
  {
    if |dims| == 0 then []
    else
      SizePositive(dims[1..]);
      [o / Size(dims[1..])] + Unflatten(dims[1..], o % Size(dims[1..]))
  }

  lemma {:induction false} SizePositive(dims: seq<nat>)
    ensures Size(dims) > 0 <==> Positive(dims)
  {
    if |dims| > 0 {
      SizePositive(dims[1..]);
      Product(dims[0], Size(dims[1..]));
      assert Positive(dims) <==> dims[0] > 0 && Positive(dims[1..]) by {
        assert dims == [dims[0]] + dims[1..];
      }
    }
  }

  lemma Product(a: nat, b: nat)
    ensures a * b > 0 <==> a > 0 && b > 0
  {
  }

  lemma Below(i: nat, d: nat, k: nat, s: nat)
    requires i < d && k < s
    ensures i * s + k < d * s
  {
    assert (i + 1) * s <= d * s;
  }

  lemma {:induction false} RowMajorInBounds(dims: seq<nat>, idx: seq<nat>)
    requires Index(dims, idx)
    ensures RowMajor(dims, idx) < Size(dims)
  {
    if |dims| > 0 {
      RowMajorInBounds(dims[1..], idx[1..]);
      Below(idx[0], dims[0], RowMajor(dims[1..], idx[1..]), Size(dims[1..]));
    }
  }

  /** Places and indices correspond one to one. */
  lemma {:induction false} UnflattenInverts(dims: seq<nat>, idx: seq<nat>)
    requires Index(dims, idx)
    ensures Positive(dims) && Unflatten(dims, RowMajor(dims, idx)) == idx
  {
    if |dims| > 0 {
      UnflattenInverts(dims[1..], idx[1..]);
      assert dims == [dims[0]] + dims[1..];
      RowMajorInBounds(dims[1..], idx[1..]);
      Quotient(idx[0], RowMajor(dims[1..], idx[1..]), Size(dims[1..]));
    }
  }

  lemma {:induction false} RowMajorInverts(dims: seq<nat>, o: nat)
    requires Positive(dims) && o < Size(dims)
    ensures Index(dims, Unflatten(dims, o)) && RowMajor(dims, Unflatten(dims, o)) == o
  {
    if |dims| > 0 {
      var s := Size(dims[1..]);
      SizePositive(dims[1..]);
      RowMajorInverts(dims[1..], o % s);
      Below2(o, dims[0], s);
    }
  }

  lemma Below2(o: nat, d: nat, s: nat)
    requires 0 < s && o < d * s
    ensures o / s < d && o == (o / s) * s + o % s
  {
    Monotone(d, o / s, s);
  }

  // ----------------------------------------------------------------------- what broadcasting means

  function OutDims(l: seq<nat>, r: seq<nat>): (out: seq<nat>)
    requires |l| == |r|
  {
    seq(|l|, a requires 0 <= a < |l| => Max(l[a], r[a]))
  }

  /** On every axis the sizes agree or one of them is 1. */
  ghost predicate Compatible(l: seq<nat>, r: seq<nat>) {
    |l| == |r| && forall a :: 0 <= a < |l| ==> l[a] == r[a] || l[a] == 1 || r[a] == 1
  }

  /** The element of an operand that is repeated to the output index `idx`: index 0 on its axes of size 1. */
  function Repeated(dims: seq<nat>, idx: seq<nat>): (r: seq<nat>)
    requires |idx| == |dims|
  {
    seq(|dims|, a requires 0 <= a < |dims| => if dims[a] == 1 then 0 else idx[a])
  }

  /** What the code does on every axis: an index past the operand's size becomes 0. */
  function Clamp(dims: seq<nat>, idx: seq<nat>): (r: seq<nat>)
    requires |idx| == |dims|
    ensures |r| == |dims|
  {
    seq(|dims|, a requires 0 <= a < |dims| => if idx[a] < dims[a] then idx[a] else 0)
  }

  /** The operand offset for output position `o`. */
  function Offset(dims: seq<nat>, out: seq<nat>, o: nat): (p: nat)
    requires |dims| == |out| && Positive(out)
  {
    RowMajor(dims, Clamp(dims, Unflatten(out, o)))
  }

  /** For compatible shapes the offsets are those of the repeated elements, on both sides. */
  lemma OffsetIsRepeated(l: seq<nat>, r: seq<nat>, o: nat)
    requires Compatible(l, r) && Positive(l) && Positive(r) && o < Size(OutDims(l, r))
    ensures Positive(OutDims(l, r))
    ensures var idx := Unflatten(OutDims(l, r), o);
      && Index(OutDims(l, r), idx) && RowMajor(OutDims(l, r), idx) == o
      && Index(l, Repeated(l, idx)) && Offset(l, OutDims(l, r), o) == RowMajor(l, Repeated(l, idx))
      && Index(r, Repeated(r, idx)) && Offset(r, OutDims(l, r), o) == RowMajor(r, Repeated(r, idx))
  {
    RowMajorInverts(OutDims(l, r), o);
    var idx := Unflatten(OutDims(l, r), o);
    assert Clamp(l, idx) == Repeated(l, idx);
    assert Clamp(r, idx) == Repeated(r, idx);
  }

  /** Every offset is in bounds of its operand, compatible or not, exactly if the operand has no empty axis. */
  lemma OffsetInBounds(dims: seq<nat>, out: seq<nat>, o: nat)
    requires |dims| == |out| && Positive(out) && o < Size(out)
    ensures Offset(dims, out, o) < Size(dims) <==> Positive(dims)
  {
    SizePositive(dims);
    if Positive(dims) {
      RowMajorInBounds(dims, Clamp(dims, Unflatten(out, o)));
    }
  }

  /** Without broadcasting there is nothing to look up: every offset would be its own position. */
  lemma OffsetIdentity(dims: seq<nat>, o: nat)
    requires Positive(dims) && o < Size(dims)
    ensures OutDims(dims, dims) == dims && Offset(dims, dims, o) == o
  {
    RowMajorInverts(dims, o);
    assert Clamp(dims, Unflatten(dims, o)) == Unflatten(dims, o);
  }

  lemma {:induction false} SizePush(dims: seq<nat>, d: nat)
    ensures Size(dims + [d]) == Size(dims) * d
  {
    if |dims| > 0 {
      SizePush(dims[1..], d);
      assert (dims + [d])[1..] == dims[1..] + [d];
      Associate(dims[0], Size(dims[1..]), d);
    } else {
      assert dims + [d] == [d];
      assert [d][1..] == [];
    }
  }

  lemma Associate(a: nat, b: nat, c: nat)
    ensures a * (b * c) == (a * b) * c
  {
  }

  /** The dot product reads `reduce_size` elements per offset: the offset counts in units of them. */
  lemma {:induction false} DotUnits(dims: seq<nat>, d: nat, idx: seq<nat>, r: nat)
    requires |idx| == |dims|
    ensures RowMajor(dims + [d], idx + [r]) == RowMajor(dims, idx) * d + r
  {
    if |dims| > 0 {
      DotUnits(dims[1..], d, idx[1..], r);
      SizePush(dims[1..], d);
      assert (dims + [d])[1..] == dims[1..] + [d] && (idx + [r])[1..] == idx[1..] + [r];
      Associate(idx[0], Size(dims[1..]), d);
      Distribute(idx[0] * Size(dims[1..]), RowMajor(dims[1..], idx[1..]), d);
    } else {
      assert dims + [d] == [d] && idx + [r] == [r];
      assert [d][1..] == [] && [r][1..] == [];
    }
  }

  lemma Distribute(a: nat, b: nat, d: nat)
    ensures (a + b) * d == a * d + b * d
  {
  }

  // ----------------------------------------------------------------------------------- the code

  /** `UseBcast` */
  method UseBcast(op: string, lhs: seq<nat>, rhs: seq<nat>) returns (use: bool)
    requires |lhs| >= 1 && |rhs| >= 1
    ensures use <==> op != "copy_lhs" && op != "copy_rhs" && lhs[1..] != rhs[1..]
  {
    if op == "copy_lhs" || op == "copy_rhs" {
      return false;
    }
    if |lhs| != |rhs| {
      return true;
    }
    for i := 1 to |lhs|
      invariant lhs[1..i] == rhs[1..i]
    {
      if lhs[i] != rhs[i] {
        assert lhs[1..][i - 1] != rhs[1..][i - 1];
        return true;
      }
      assert lhs[1..i + 1] == lhs[1..i] + [lhs[i]] && rhs[1..i + 1] == rhs[1..i] + [rhs[i]];
    }
    assert lhs[1..|lhs|] == lhs[1..] && rhs[1..|rhs|] == rhs[1..];
    return false;
  }

  /** The product of the sizes from axis 1 on. */
  method Length(shape: seq<nat>) returns (len: nat)
    requires |shape| >= 1
    ensures len == Size(shape[1..])
  {
    len := 1;
    assert shape[1..1] == [];
    for i := 1 to |shape|
      invariant len == Size(shape[1..i])
    {
      SizePush(shape[1..i], shape[i]);
      assert shape[1..i + 1] == shape[1..i] + [shape[i]];
      len := len * shape[i];
    }
    assert shape[1..|shape|] == shape[1..];
  }

  /** The size on the axis `j` places before the last; a missing axis counts as one of size 1. */
  function Dim(shape: seq<nat>, j: nat): (d: nat) {
    if |shape| - 1 - j < 1 then 1 else shape[|shape| - 1 - j]
  }

  /** A shape without axis 0 and without its last `skip` axes, with missing axes added in front so that it
      has `n - skip` in all. */
  function Padded(shape: seq<nat>, n: nat, skip: nat): (dims: seq<nat>)
    requires skip <= n
    ensures |dims| == n - skip
  {
    seq(n - skip, a requires 0 <= a < n - skip => Dim(shape, n - 1 - a))
  }

  /** `off` lists the operand's offsets for the axes done so far. */
  ghost predicate Lists(off: seq<nat>, dims: seq<nat>, out: seq<nat>) {
    |dims| == |out| && Positive(out) && |off| == Size(out)
    && forall o :: 0 <= o < |off| ==> off[o] == Offset(dims, out, o)
  }

  lemma UnflattenPush(out: seq<nat>, m: nat, i: nat, k: nat)
    requires Positive(out) && i < m && k < Size(out)
    ensures Positive([m] + out) && Unflatten([m] + out, i * Size(out) + k) == [i] + Unflatten(out, k)
  {
    assert ([m] + out)[1..] == out;
    Quotient(i, k, Size(out));
  }

  lemma RowMajorPush(dims: seq<nat>, d: nat, c: nat, idx: seq<nat>)
    requires |idx| == |dims|
    ensures RowMajor([d] + dims, [c] + idx) == c * Size(dims) + RowMajor(dims, idx)
  {
    assert ([d] + dims)[1..] == dims && ([c] + idx)[1..] == idx;
  }

  lemma ClampPush(dims: seq<nat>, d: nat, i: nat, idx: seq<nat>)
    requires |idx| == |dims|
    ensures Clamp([d] + dims, [i] + idx) == [if i < d then i else 0] + Clamp(dims, idx)
  {
  }

  /** Position `i * outLen + k` has index `i` on the new axis in front and the index of `k` behind it. */
  lemma OffsetNext(dims: seq<nat>, out: seq<nat>, d: nat, m: nat, i: nat, k: nat)
    requires |dims| == |out| && Positive(out) && i < m && k < Size(out)
    ensures Positive([m] + out) && i * Size(out) + k < m * Size(out)
    ensures Offset([d] + dims, [m] + out, i * Size(out) + k)
      == Offset(dims, out, k) + (if i < d then i * Size(dims) else 0)
  {
    hide Size, RowMajor, Unflatten, Clamp, Positive;
    Below(i, m, k, Size(out));
    UnflattenPush(out, m, i, k);
    ClampPush(dims, d, i, Unflatten(out, k));
    RowMajorPush(dims, d, if i < d then i else 0, Clamp(dims, Unflatten(out, k)));
  }

  /** The first `n` positions of the output with the new axis are listed. */
  ghost predicate ListsTo(off: seq<nat>, dims: seq<nat>, out: seq<nat>, d: nat, m: nat, n: nat) {
    |dims| == |out| && Positive([m] + out) && |off| == n
    && forall o :: 0 <= o < n ==> off[o] == Offset([d] + dims, [m] + out, o)
  }

  lemma ListsStart(off: seq<nat>, dims: seq<nat>, out: seq<nat>, d: nat, m: nat)
    requires Lists(off, dims, out) && 0 < m
    ensures ListsTo(off, dims, out, d, m, Size(out))
  {
    assert forall a :: 0 <= a < |[m] + out| ==> 0 < ([m] + out)[a];
    forall o | 0 <= o < Size(out) ensures off[o] == Offset([d] + dims, [m] + out, o) {
      OffsetNext(dims, out, d, m, 0, o);
    }
  }

  lemma ListsPush(base: seq<nat>, off: seq<nat>, dims: seq<nat>, out: seq<nat>, d: nat, m: nat, i: nat, k: nat)
    requires 1 <= i < m && k < Size(out)
    requires ListsTo(off, dims, out, d, m, i * Size(out) + k)
    requires Lists(base, dims, out) && Size(out) <= |off| && off[..Size(out)] == base
    ensures k < |off|
    ensures ListsTo(off + [off[k] + (if i < d then i * Size(dims) else 0)], dims, out, d, m, i * Size(out) + k + 1)
  {
    hide Offset;
    OffsetNext(dims, out, d, m, i, k);
    Monotone(1, i, Size(out));
    assert off[k] == off[..Size(out)][k];
  }

  /** `int(i < d)` */
  function Bit(b: bool): nat {
    if b then 1 else 0
  }

  lemma BitProduct(i: nat, d: nat, stride: nat)
    ensures i * Bit(i < d) * stride == if i < d then i * stride else 0
  {
  }

  /** `off` lists the offsets as far as the loops go: up to the first axis, from the back, that is empty in the
      output. */
  ghost predicate Filled(off: seq<nat>, dims: seq<nat>, out: seq<nat>)
    requires |dims| == |out|
  {
    if |out| == 0 || Positive(out) then Lists(off, dims, out) else Filled(off, dims[1..], out[1..])
  }

  lemma FilledLive(off: seq<nat>, dims: seq<nat>, out: seq<nat>)
    requires |dims| == |out| && Positive(out)
    ensures Filled(off, dims, out) <==> Lists(off, dims, out)
  {
  }

  lemma FilledNext(off: seq<nat>, dims: seq<nat>, out: seq<nat>, d: nat, m: nat)
    requires |dims| == |out| && Filled(off, dims, out) && !(0 < m && Positive(out))
    ensures Filled(off, [d] + dims, [m] + out)
  {
    assert ([m] + out)[1..] == out && ([d] + dims)[1..] == dims;
    assert !Positive([m] + out) by {
      if m == 0 {
        assert ([m] + out)[0] == 0;
      } else {
        var a :| 0 <= a < |out| && out[a] == 0;
        assert ([m] + out)[a + 1] == 0;
      }
    }
  }

  lemma PositivePush(out: seq<nat>, m: nat)
    requires Positive(out) && 0 < m
    ensures Positive([m] + out)
  {
  }

  /** The list is as long as the output exactly if no axis of the output is empty. */
  lemma {:induction false} FilledLength(off: seq<nat>, dims: seq<nat>, out: seq<nat>)
    requires |dims| == |out| && Filled(off, dims, out)
    ensures |off| > 0 && (|off| == Size(out) <==> Positive(out))
  {
    SizePositive(out);
    if |out| > 0 && !Positive(out) {
      FilledLength(off, dims[1..], out[1..]);
    }
  }

  /** The two inner loops of `CalcBcastOff`: the offsets for one more axis in front. */
  method PushAxis(lo0: seq<nat>, ro0: seq<nat>, outLen: nat, strideL: nat, strideR: nat, dl: nat, dr: nat,
                  ghost l: seq<nat>, ghost r: seq<nat>, ghost out: seq<nat>) returns (lo: seq<nat>, ro: seq<nat>)
    requires |l| == |r| == |out| && Filled(lo0, l, out) && Filled(ro0, r, out)
    requires outLen == Size(out) && strideL == Size(l) && strideR == Size(r)
    ensures Filled(lo, [dl] + l, [Max(dl, dr)] + out) && Filled(ro, [dr] + r, [Max(dl, dr)] + out)
  {
    hide Offset, Lists, ListsTo, Size, Filled, Positive, Growing, Bit;
    lo, ro := lo0, ro0;
    ghost var m := Max(dl, dr);
    ghost var live := 0 < m && Positive(out);
    if live {
      FilledLive(lo, l, out);
      FilledLive(ro, r, out);
      ListsBase(lo, l, out);
      ListsBase(ro, r, out);
      GrowingStart(lo, l, out, dl, m);
      GrowingStart(ro, r, out, dr, m);
    } else {
      FilledNext(lo, l, out, dl, m);
      FilledNext(ro, r, out, dr, m);
      SizePositive(out);
    }
    var i := 1;
    while i < Max(dl, dr)
      invariant 1 <= i && (live ==> i <= m)
      invariant !live ==> lo == lo0 && ro == ro0
      invariant live ==> Growing(lo0, lo, l, out, dl, m, i * outLen) && Growing(ro0, ro, r, out, dr, m, i * outLen)
    {
      assert live ==>
        && Growing(lo0, lo, l, out, dl, m, i * outLen + 0)
        && Growing(ro0, ro, r, out, dr, m, i * outLen + 0);
      for k := 0 to outLen
        invariant !live ==> lo == lo0 && ro == ro0
        invariant live ==>
          && Growing(lo0, lo, l, out, dl, m, i * outLen + k)
          && Growing(ro0, ro, r, out, dr, m, i * outLen + k)
      {
        GrowingPush(lo0, lo, l, out, dl, m, i, k);
        GrowingPush(ro0, ro, r, out, dr, m, i, k);
        lo := lo + [lo[k] + i * Bit(i < dl) * strideL];
        ro := ro + [ro[k] + i * Bit(i < dr) * strideR];
      }
      assert (i + 1) * outLen == i * outLen + outLen;
      i := i + 1;
    }
    if live {
      PositivePush(out, m);
      GrowingEnd(lo0, lo, l, out, dl, m);
      GrowingEnd(ro0, ro, r, out, dr, m);
      FilledLive(lo, [dl] + l, [m] + out);
      FilledLive(ro, [dr] + r, [m] + out);
    }
  }

  /** The list holds its first `n` entries, the first of them as they were. */
  ghost predicate Growing(off0: seq<nat>, off: seq<nat>, dims: seq<nat>, out: seq<nat>, d: nat, m: nat, n: nat) {
    Lists(off0, dims, out) && off0 <= off && ListsTo(off, dims, out, d, m, n)
  }

  lemma GrowingStart(off: seq<nat>, dims: seq<nat>, out: seq<nat>, d: nat, m: nat)
    requires Lists(off, dims, out) && 0 < m
    ensures Growing(off, off, dims, out, d, m, Size(out))
  {
    hide Lists, ListsTo;
    ListsStart(off, dims, out, d, m);
  }

  lemma GrowingEnd(off0: seq<nat>, off: seq<nat>, dims: seq<nat>, out: seq<nat>, d: nat, m: nat)
    requires Growing(off0, off, dims, out, d, m, m * Size(out))
    ensures Lists(off, [d] + dims, [m] + out)
  {
    hide Lists, ListsTo;
    ListsEnd(off, dims, out, d, m);
  }

  lemma GrowingPush(off0: seq<nat>, off: seq<nat>, dims: seq<nat>, out: seq<nat>, d: nat, m: nat, i: nat, k: nat)
    requires Growing(off0, off, dims, out, d, m, i * Size(out) + k) && 1 <= i < m && k < Size(out)
    ensures k < |off|
    ensures Growing(off0, off + [off[k] + i * Bit(i < d) * Size(dims)], dims, out, d, m, i * Size(out) + k + 1)
  {
    hide Lists, ListsTo, Bit;
    ListsBase(off0, dims, out);
    ListsPush(off0, off, dims, out, d, m, i, k);
    BitProduct(i, d, Size(dims));
  }

  lemma ListsBase(off: seq<nat>, dims: seq<nat>, out: seq<nat>)
    requires Lists(off, dims, out)
    ensures |dims| == |out| && Positive(out) && |off| == Size(out) && off[..Size(out)] == off
  {
  }

  lemma ListsEnd(off: seq<nat>, dims: seq<nat>, out: seq<nat>, d: nat, m: nat)
    requires ListsTo(off, dims, out, d, m, m * Size(out))
    ensures Lists(off, [d] + dims, [m] + out)
  {
    assert ([m] + out)[1..] == out;
  }

  /** What `CalcBcastOff` returns. */
  datatype BcastOff = BcastOff(lhsOffset: seq<nat>, rhsOffset: seq<nat>, useBcast: bool, lhsLen: nat, rhsLen: nat,
                               outLen: nat, reduceSize: nat)

  /** A dot product leaves the last axis out. */
  lemma DotLength(lhs: seq<nat>)
    requires |lhs| >= 2
    ensures lhs[|lhs| - 1] > 0 ==> Size(lhs[1..]) / lhs[|lhs| - 1] == Size(lhs[1..|lhs| - 1])
  {
    var inner, last := lhs[1..|lhs| - 1], lhs[|lhs| - 1];
    SizePush(inner, last);
    assert lhs[1..] == inner + [last];
    if last > 0 {
      Quotient(Size(inner), 0, last);
    }
  }

  function Skip(op: string): (skip: nat) {
    if op == "dot" then 1 else 0
  }

  function Axes(lhs: seq<nat>, rhs: seq<nat>): (n: nat)
    requires |lhs| >= 1 && |rhs| >= 1
  {
    Max(|lhs|, |rhs|) - 1
  }

  /** The axes the loop goes over, of either operand: those of the longer shape, without axis 0 and for a dot product
      without the last one. */
  lemma OperandsPadded(op: string, lhs: seq<nat>, rhs: seq<nat>)
    requires |lhs| >= 2 && |rhs| >= 2
    ensures Padded(lhs, Axes(lhs, rhs), Skip(op))
      == seq(Max(|lhs|, |rhs|) - |lhs|, a => 1) + lhs[1..if op == "dot" then |lhs| - 1 else |lhs|]
    ensures Padded(rhs, Axes(lhs, rhs), Skip(op))
      == seq(Max(|lhs|, |rhs|) - |rhs|, a => 1) + rhs[1..if op == "dot" then |rhs| - 1 else |rhs|]
  {
    PaddedIs(lhs, Axes(lhs, rhs), Skip(op));
    PaddedIs(rhs, Axes(lhs, rhs), Skip(op));
  }

  lemma PaddedBack(shape: seq<nat>, n: nat, j: nat, skip: nat)
    requires skip <= j < n
    ensures Padded(shape, n, skip)[n - 1 - j] == Dim(shape, j)
    ensures Padded(shape, n, skip)[n - 1 - j..] == [Dim(shape, j)] + Padded(shape, n, skip)[n - j..]
  {
  }

  /** One turn of the loop over the axes puts one more axis in front. */
  lemma AxisStep(lhs: seq<nat>, rhs: seq<nat>, n: nat, j: nat, skip: nat)
    requires skip <= j < n
    ensures var l, r := Padded(lhs, n, skip), Padded(rhs, n, skip);
      var out := OutDims(l, r);
      && l[n - 1 - j..] == [Dim(lhs, j)] + l[n - j..] && r[n - 1 - j..] == [Dim(rhs, j)] + r[n - j..]
      && out[n - 1 - j..] == [Max(Dim(lhs, j), Dim(rhs, j))] + out[n - j..]
      && Size(l[n - 1 - j..]) == Size(l[n - j..]) * Dim(lhs, j)
      && Size(r[n - 1 - j..]) == Size(r[n - j..]) * Dim(rhs, j)
      && Size(out[n - 1 - j..]) == Size(out[n - j..]) * Max(Dim(lhs, j), Dim(rhs, j))
  {
    hide Padded, OutDims, Size;
    PaddedBack(lhs, n, j, skip);
    PaddedBack(rhs, n, j, skip);
    var l, r := Padded(lhs, n, skip), Padded(rhs, n, skip);
    var out := OutDims(l, r);
    OutBack(l, r, n - 1 - j);
    SizeFront(l[n - j..], Dim(lhs, j));
    SizeFront(r[n - j..], Dim(rhs, j));
    SizeFront(out[n - j..], Max(Dim(lhs, j), Dim(rhs, j)));
  }

  lemma OutBack(l: seq<nat>, r: seq<nat>, a: nat)
    requires |l| == |r| && a < |l|
    ensures |OutDims(l, r)| == |l| && OutDims(l, r)[a..] == [Max(l[a], r[a])] + OutDims(l, r)[a + 1..]
  {
  }

  lemma SizeFront(dims: seq<nat>, d: nat)
    ensures Size([d] + dims) == Size(dims) * d
  {
    assert ([d] + dims)[1..] == dims;
  }

  /** `CalcBcastOff` */
  method CalcBcastOff(op: string, lhs: seq<nat>, rhs: seq<nat>) returns (rst: BcastOff)
    requires |lhs| >= 2 && |rhs| >= 2
    requires op == "dot" && lhs[1..] == rhs[1..] ==> lhs[|lhs| - 1] > 0
    ensures rst.useBcast <==> op != "copy_lhs" && op != "copy_rhs" && lhs[1..] != rhs[1..]
    ensures rst.lhsLen == Size(lhs[1..]) && rst.rhsLen == Size(rhs[1..])
    ensures rst.reduceSize == if op == "dot" then lhs[|lhs| - 1] else 1
    ensures rst.useBcast ==>
      var l, r := Padded(lhs, Axes(lhs, rhs), Skip(op)), Padded(rhs, Axes(lhs, rhs), Skip(op));
      var out := OutDims(l, r);
      rst.outLen == Size(out) && Filled(rst.lhsOffset, l, out) && Filled(rst.rhsOffset, r, out)
    ensures !rst.useBcast ==> rst.lhsOffset == rst.rhsOffset == []
    ensures !rst.useBcast && op == "copy_rhs" ==> rst.outLen == Size(rhs[1..])
    ensures !rst.useBcast && op == "dot" ==> rst.outLen == Size(lhs[1..|lhs| - 1])
    ensures !rst.useBcast && op != "copy_rhs" && op != "dot" ==> rst.outLen == Size(lhs[1..])
  {
    hide Filled, Size;
    DotLength(lhs);
    var lhsLen := Length(lhs);
    var rhsLen := Length(rhs);
    var use := UseBcast(op, lhs, rhs);
    var reduceSize := 1;
    if use {
      var outLen, lo, ro := OverAxes(op, lhs, rhs);
      if op == "dot" { reduceSize := lhs[|lhs| - 1]; }
      rst := BcastOff(lo, ro, use, lhsLen, rhsLen, outLen, reduceSize);
    } else {
      var outLen := if op == "copy_rhs" then rhsLen else lhsLen;
      if op == "dot" {
        reduceSize := lhs[|lhs| - 1];
        outLen := outLen / reduceSize;
      }
      rst := BcastOff([], [], use, lhsLen, rhsLen, outLen, reduceSize);
    }
  }

  /** The loop over the axes, from the last to the first. */
  method OverAxes(op: string, lhs: seq<nat>, rhs: seq<nat>) returns (outLen: nat, lo: seq<nat>, ro: seq<nat>)
    requires |lhs| >= 2 && |rhs| >= 2
    ensures var l, r := Padded(lhs, Axes(lhs, rhs), Skip(op)), Padded(rhs, Axes(lhs, rhs), Skip(op));
      outLen == Size(OutDims(l, r)) && Filled(lo, l, OutDims(l, r)) && Filled(ro, r, OutDims(l, r))
  {
    hide Filled, Size, Padded, OutDims;
    var n := Max(|lhs|, |rhs|) - 1;
    var j := if op == "dot" then 1 else 0;
    ghost var l, r := Padded(lhs, n, j), Padded(rhs, n, j);
    ghost var out := OutDims(l, r);
    var strideL, strideR := 1, 1;
    outLen, lo, ro := 1, [0], [0];
    FilledStart(l, r);
    while j < n
      invariant Skip(op) <= j <= n
      invariant outLen == Size(out[n - j..]) && strideL == Size(l[n - j..]) && strideR == Size(r[n - j..])
      invariant Filled(lo, l[n - j..], out[n - j..]) && Filled(ro, r[n - j..], out[n - j..])
    {
      AxisStep(lhs, rhs, n, j, Skip(op));
      var dl := Dim(lhs, j);
      var dr := Dim(rhs, j);
      lo, ro := PushAxis(lo, ro, outLen, strideL, strideR, dl, dr, l[n - j..], r[n - j..], out[n - j..]);
      outLen := outLen * Max(dl, dr);
      strideL := strideL * dl;
      strideR := strideR * dr;
      j := j + 1;
    }
  }

  lemma FilledStart(l: seq<nat>, r: seq<nat>)
    requires |l| == |r|
    ensures var out := OutDims(l, r);
      && |out| == |l| && Size(l[|l|..]) == 1 && Size(r[|l|..]) == 1 && Size(out[|l|..]) == 1
      && Filled([0], l[|l|..], out[|l|..]) && Filled([0], r[|l|..], out[|l|..])
  {
    assert Unflatten([], 0) == [];
  }

  // ------------------------------------------------------------------------ what a caller may rely on

  lemma {:induction false} SizeOnes(n: nat, dims: seq<nat>)
    ensures Size(seq(n, a => 1) + dims) == Size(dims)
  {
    if n > 0 {
      SizeOnes(n - 1, dims);
      assert (seq(n, a => 1) + dims)[1..] == seq(n - 1, a => 1) + dims;
    } else {
      assert seq(n, a => 1) + dims == dims;
    }
  }

  /** The padded shape, axis by axis: sizes of 1 for the missing axes, and then those of the operand. */
  lemma PaddedIs(shape: seq<nat>, n: nat, skip: nat)
    requires 2 <= |shape| <= n + 1 && skip <= 1
    ensures skip <= n && Padded(shape, n, skip) == seq(n + 1 - |shape|, a => 1) + shape[1..|shape| - skip]
  {
    var whole := seq(n + 1 - |shape|, a => 1) + shape[1..|shape| - skip];
    forall a | 0 <= a < n - skip ensures Padded(shape, n, skip)[a] == whole[a] {
      PaddedBack(shape, n, n - 1 - a, skip);
    }
  }

  /** Missing axes change no size: with the axes left out at the back, the padded shape is as large as the
      operand. */
  lemma PaddedSize(shape: seq<nat>, n: nat, skip: nat)
    requires 2 <= |shape| <= n + 1 && skip <= 1
    ensures skip <= n && |Padded(shape, n, skip)| == n - skip
    ensures Size(shape[1..]) == Size(Padded(shape, n, skip)) * (if skip == 1 then shape[|shape| - 1] else 1)
  {
    var ones := seq(n + 1 - |shape|, a => 1);
    if skip == 0 {
      forall a | 0 <= a < n ensures Padded(shape, n, 0)[a] == (ones + shape[1..])[a] {
        PaddedBack(shape, n, n - 1 - a, 0);
        assert a < |ones| ==> ones[a] == 1;
        assert a >= |ones| ==> (ones + shape[1..])[a] == shape[1..][a - |ones|] == shape[|shape| - 1 - (n - 1 - a)];
      }
      assert Padded(shape, n, 0) == ones + shape[1..];
      SizeOnes(|ones|, shape[1..]);
    } else {
      forall a | 0 <= a < n - 1 ensures Padded(shape, n, 1)[a] == (ones + shape[1..|shape| - 1])[a] {
        PaddedBack(shape, n, n - 1 - a, 1);
        assert a < |ones| ==> ones[a] == 1;
        assert a >= |ones| ==>
          (ones + shape[1..|shape| - 1])[a] == shape[1..|shape| - 1][a - |ones|] == shape[|shape| - 1 - (n - 1 - a)];
      }
      assert Padded(shape, n, 1) == ones + shape[1..|shape| - 1];
      SizeOnes(|ones|, shape[1..|shape| - 1]);
      SizePush(shape[1..|shape| - 1], shape[|shape| - 1]);
      assert shape[1..] == shape[1..|shape| - 1] + [shape[|shape| - 1]];
    }
  }

  /** Both lists have an entry for every output position exactly if no axis of the output is empty. */
  lemma ListsComplete(lo: seq<nat>, ro: seq<nat>, l: seq<nat>, r: seq<nat>)
    requires |l| == |r| && Filled(lo, l, OutDims(l, r)) && Filled(ro, r, OutDims(l, r))
    ensures |lo| == Size(OutDims(l, r)) <==> Positive(OutDims(l, r))
    ensures |ro| == Size(OutDims(l, r)) <==> Positive(OutDims(l, r))
  {
    FilledLength(lo, l, OutDims(l, r));
    FilledLength(ro, r, OutDims(l, r));
  }

  /** For broadcast-compatible shapes without empty axes: one offset per output position on both sides, each
      that of the element which is repeated there, and in bounds. */
  lemma BroadcastOffsets(lo: seq<nat>, ro: seq<nat>, l: seq<nat>, r: seq<nat>, o: nat)
    requires Compatible(l, r) && Positive(l) && Positive(r) && o < Size(OutDims(l, r))
    requires Filled(lo, l, OutDims(l, r)) && Filled(ro, r, OutDims(l, r))
    ensures |lo| == |ro| == Size(OutDims(l, r)) && Positive(OutDims(l, r))
    ensures var idx := Unflatten(OutDims(l, r), o);
      && Index(OutDims(l, r), idx) && RowMajor(OutDims(l, r), idx) == o
      && lo[o] == RowMajor(l, Repeated(l, idx)) < Size(l) && ro[o] == RowMajor(r, Repeated(r, idx)) < Size(r)
    ensures forall a :: 0 <= a < |l| ==> OutDims(l, r)[a] == if l[a] == 1 then r[a] else l[a]
  {
    hide Size, RowMajor, Unflatten, Repeated, Index, Offset, Filled;
    OffsetIsRepeated(l, r, o);
    FilledLive(lo, l, OutDims(l, r));
    FilledLive(ro, r, OutDims(l, r));
    OffsetInBounds(l, OutDims(l, r), o);
    OffsetInBounds(r, OutDims(l, r), o);
  }

  /** An offset, with any element of its reduction, addresses the operand: the offset that the dot product
      takes from the list is in units of `reduce_size`. */
  lemma ElementInBounds(shape: seq<nat>, n: nat, skip: nat, idx: seq<nat>, k: nat)
    requires 2 <= |shape| <= n + 1 && skip <= 1 && skip <= n && Index(Padded(shape, n, skip), idx)
    requires k < if skip == 1 then shape[|shape| - 1] else 1
    ensures RowMajor(Padded(shape, n, skip), idx) * (if skip == 1 then shape[|shape| - 1] else 1) + k < Size(shape[1..])
  {
    PaddedSize(shape, n, skip);
    RowMajorInBounds(Padded(shape, n, skip), idx);
    var unit := if skip == 1 then shape[|shape| - 1] else 1;
    Below(RowMajor(Padded(shape, n, skip), idx), Size(Padded(shape, n, skip)), k, unit);
  }

  /** Where `use_bcast` is off, the lists would have been the identity, and the output is as long as the
      broadcast one would be. */
  lemma NoBroadcastAgrees(op: string, lhs: seq<nat>, rhs: seq<nat>, o: nat)
    requires |lhs| >= 2 && |rhs| >= 2 && lhs[1..] == rhs[1..] && Positive(lhs[1..])
    requires o < Size(Padded(lhs, Axes(lhs, rhs), Skip(op)))
    ensures var l, r := Padded(lhs, Axes(lhs, rhs), Skip(op)), Padded(rhs, Axes(lhs, rhs), Skip(op));
      && l == r && Positive(OutDims(l, r)) && Offset(l, OutDims(l, r), o) == o
    ensures var n := Size(Padded(lhs, Axes(lhs, rhs), Skip(op)));
      Size(lhs[1..]) == n * (if op == "dot" then lhs[|lhs| - 1] else 1)
  {
    var l, r := Padded(lhs, Axes(lhs, rhs), Skip(op)), Padded(rhs, Axes(lhs, rhs), Skip(op));
    assert |lhs[1..]| == |rhs[1..]|;
    forall a | 0 <= a < |l| ensures l[a] == r[a] > 0 {
      assert l[a] == Dim(lhs, |lhs| - 2 - a) == lhs[a + 1] == lhs[1..][a];
      assert r[a] == Dim(rhs, |lhs| - 2 - a) == rhs[a + 1] == rhs[1..][a];
    }
    OffsetIdentity(l, o);
    PaddedSize(lhs, Axes(lhs, rhs), Skip(op));
  }
}
