/** The tensor operations the rest of the model is written in: gathering by index, index
    assignment, masks, membership tests and sorting, on sequences. */
module Tensors {

  /** One feature or memory row. Nothing in the model looks inside it. */
  datatype Row = Row(values: seq<real>)

  ghost predicate InRange(idx: seq<nat>, n: nat) {
    forall k :: 0 <= k < |idx| ==> idx[k] < n
  }

  ghost predicate Distinct<T>(s: seq<T>) {
    forall i, j :: 0 <= i < j < |s| ==> s[i] != s[j]
  }

  ghost predicate StrictlySorted(s: seq<int>) {
    forall i, j :: 0 <= i < j < |s| ==> s[i] < s[j]
  }

  /** The two parts of a sequence of distinct values share none. */
  lemma SplitDistinct<T>(s: seq<T>, k: nat)
    requires Distinct(s) && k <= |s|
    ensures Distinct(s[..k]) && Distinct(s[k..])
    ensures forall x :: x in s <==> x in s[..k] || x in s[k..]
    ensures forall x :: x in s[..k] ==> x !in s[k..]
  {
    assert s == s[..k] + s[k..];
  }

  lemma JoinDistinct<T>(a: seq<T>, b: seq<T>)
    requires Distinct(a) && Distinct(b) && forall x :: x in a ==> x !in b
    ensures Distinct(a + b)
    ensures forall x :: x in a + b <==> x in a || x in b
  {
    forall i, j | 0 <= i < j < |a + b| ensures (a + b)[i] != (a + b)[j] {
      if i < |a| <= j {
        assert a[i] in a && b[j - |a|] in b;
      }
    }
  }

  /** `src[idx]` */
  function Gather<T>(src: seq<T>, idx: seq<nat>): (r: seq<T>)
    requires InRange(idx, |src|)
  {
    seq(|idx|, k requires 0 <= k < |idx| => src[idx[k]])
  }

  lemma GatherInRange(src: seq<nat>, idx: seq<nat>, n: nat)
    requires InRange(idx, |src|) && InRange(src, n)
    ensures InRange(Gather(src, idx), n)
  {
  }

  /** `dst[idx] = vals`, written in order: of two writes to one place the later one stays. */
  function Scatter<T>(dst: seq<T>, idx: seq<nat>, vals: seq<T>): (r: seq<T>)
    requires |idx| == |vals| && InRange(idx, |dst|)
    ensures |r| == |dst|
    ensures forall i :: 0 <= i < |dst| && i !in idx ==> r[i] == dst[i]
    ensures Distinct(idx) ==> forall k :: 0 <= k < |idx| ==> r[idx[k]] == vals[k]
  {
    if |idx| == 0 then dst
    else
      var n := |idx| - 1;
      var pre := Scatter(dst, idx[..n], vals[..n]);
      assert forall i :: 0 <= i < |dst| && i !in idx ==> i !in idx[..n];
      pre[idx[n] := vals[n]]
  }

  /** `dst[idx] = c` */
  function Fill<T>(dst: seq<T>, idx: seq<nat>, c: T): (r: seq<T>)
  {
    seq(|dst|, i requires 0 <= i < |dst| => if i in idx then c else dst[i])
  }

  /** `isin(a, b)` */
  function Isin(a: seq<nat>, b: seq<nat>): (mask: seq<bool>)
    ensures |mask| == |a|
  {
    seq(|a|, i requires 0 <= i < |a| => a[i] in b)
  }

  /** `~mask` */
  function Not(mask: seq<bool>): (r: seq<bool>)
    ensures |r| == |mask|
  {
    seq(|mask|, i requires 0 <= i < |mask| => !mask[i])
  }

  /** `bitwise_and(a, b)` */
  function And(a: seq<bool>, b: seq<bool>): (r: seq<bool>)
    requires |a| == |b|
  {
    seq(|a|, i requires 0 <= i < |a| => a[i] && b[i])
  }

  /** `nonzero(mask)`: the positions that are set, ascending. */
  function Nonzero(mask: seq<bool>): (idx: seq<nat>)
    ensures InRange(idx, |mask|) && StrictlySorted(idx) && |idx| <= |mask|
    ensures forall k :: 0 <= k < |idx| ==> mask[idx[k]]
    ensures forall i :: 0 <= i < |mask| && mask[i] ==> i in idx
  {
    if |mask| == 0 then []
    else
      var n := |mask| - 1;
      var pre := Nonzero(mask[..n]);
      assert forall i :: 0 <= i < n && mask[i] ==> mask[..n][i];
      assert forall k :: 0 <= k < |pre| ==> mask[..n][pre[k]];
      if mask[n] then pre + [n] else pre
  }

  /** `s[mask]` */
  function Select<T>(s: seq<T>, mask: seq<bool>): (r: seq<T>)
    requires |s| == |mask|
  {
    Gather(s, Nonzero(mask))
  }

  /** The lowest positions come first: the set positions below `m` are a prefix of all of them. */
  lemma NonzeroPush(mask: seq<bool>)
    requires |mask| > 0
    ensures var pre := Nonzero(mask[..|mask| - 1]);
      Nonzero(mask) == if mask[|mask| - 1] then pre + [|mask| - 1] else pre
    ensures StrictlySorted(Nonzero(mask[..|mask| - 1])) && InRange(Nonzero(mask[..|mask| - 1]), |mask| - 1)
  {
  }

  lemma {:induction false} NonzeroPrefix(mask: seq<bool>, m: nat)
    requires m <= |mask|
    ensures Nonzero(mask[..m]) <= Nonzero(mask)
  {
    if m == |mask| {
      assert mask[..m] == mask;
    } else {
      var n := |mask| - 1;
      assert mask[..n][..m] == mask[..m];
      NonzeroPrefix(mask[..n], m);
      var pre := Nonzero(mask[..n]);
      assert Nonzero(mask) == (if mask[n] then pre + [n] else pre);
    }
  }

  lemma SelectInRange(s: seq<nat>, mask: seq<bool>, n: nat)
    requires |s| == |mask| && InRange(s, n)
    ensures InRange(Select(s, mask), n)
  {
  }

  lemma SelectMembers(s: seq<nat>, mask: seq<bool>)
    requires |s| == |mask|
    ensures forall x :: x in Select(s, mask) <==> exists i :: 0 <= i < |s| && mask[i] && s[i] == x
  {
    var idx := Nonzero(mask);
    forall x | exists i :: 0 <= i < |s| && mask[i] && s[i] == x
      ensures x in Select(s, mask)
    {
      var i :| 0 <= i < |s| && mask[i] && s[i] == x;
      assert i in idx;
      var k :| 0 <= k < |idx| && idx[k] == i;
      assert Select(s, mask)[k] == x;
    }
    forall x | x in Select(s, mask)
      ensures exists i :: 0 <= i < |s| && mask[i] && s[i] == x
    {
      var k :| 0 <= k < |idx| && Select(s, mask)[k] == x;
      assert mask[idx[k]];
    }
  }

  /** Selecting by membership in a part of `s` gives that part. */
  lemma SelectIsin(s: seq<nat>, part: seq<nat>)
    requires StrictlySorted(s) && forall x :: x in part ==> x in s
    ensures Distinct(Select(s, Isin(s, part)))
    ensures forall x :: x in Select(s, Isin(s, part)) <==> x in part
  {
    var mask := Isin(s, part);
    SelectDistinct(s, mask);
    SelectMembers(s, mask);
    forall x | x in part ensures exists i :: 0 <= i < |s| && mask[i] && s[i] == x {
      assert x in s;
      var i :| 0 <= i < |s| && s[i] == x;
      assert mask[i];
    }
  }

  /** Two strictly sorted sequences with the same members are the same. */
  lemma {:induction false} SortedUnique(a: seq<int>, b: seq<int>)
    requires StrictlySorted(a) && StrictlySorted(b)
    requires forall x :: x in a <==> x in b
    ensures a == b
  {
    assert |a| > 0 ==> a[0] in a;
    assert |b| > 0 ==> b[0] in b;
    if |a| > 0 && |b| > 0 {
      assert a[|a| - 1] in a && a[|a| - 1] in b;
      assert b[|b| - 1] in b && b[|b| - 1] in a;
      var a', b' := a[..|a| - 1], b[..|b| - 1];
      assert forall x :: x in a <==> x in a' || x == a[|a| - 1];
      assert forall x :: x in b <==> x in b' || x == b[|b| - 1];
      SortedUnique(a', b');
    }
  }

  /** Selecting positions, and then among those by a mask of their own, is selecting by both. */
  lemma SelectTwice(m: seq<bool>, p: seq<bool>)
    requires |m| == |p|
    ensures Gather(Nonzero(m), Nonzero(Gather(p, Nonzero(m)))) == Nonzero(And(m, p))
  {
    var both := Gather(Nonzero(m), Nonzero(Gather(p, Nonzero(m))));
    forall x ensures x in both <==> x in Nonzero(And(m, p)) {
      if x in both { SelectedTwice(m, p, x); }
      if x in Nonzero(And(m, p)) {
        var l :| 0 <= l < |Nonzero(And(m, p))| && Nonzero(And(m, p))[l] == x;
        assert And(m, p)[x];
        BothSelected(m, p, x);
      }
    }
    SortedUnique(both, Nonzero(And(m, p)));
  }

  lemma SelectedTwice(m: seq<bool>, p: seq<bool>, x: nat)
    requires |m| == |p| && x in Gather(Nonzero(m), Nonzero(Gather(p, Nonzero(m))))
    ensures x in Nonzero(And(m, p))
  {
    var outer := Nonzero(m);
    var inner := Nonzero(Gather(p, outer));
    var k :| 0 <= k < |inner| && Gather(outer, inner)[k] == x;
    assert Gather(p, outer)[inner[k]];
    assert And(m, p)[x];
  }

  lemma BothSelected(m: seq<bool>, p: seq<bool>, x: nat)
    requires |m| == |p| && x < |m| && m[x] && p[x]
    ensures x in Gather(Nonzero(m), Nonzero(Gather(p, Nonzero(m))))
  {
    var outer := Nonzero(m);
    var inner := Nonzero(Gather(p, outer));
    var k :| 0 <= k < |outer| && outer[k] == x;
    assert Gather(p, outer)[k];
    GatherMember(outer, inner, k);
  }

  /** A selection from a sorted sequence is sorted. */
  lemma SelectSorted(s: seq<nat>, mask: seq<bool>)
    requires |s| == |mask| && StrictlySorted(s)
    ensures StrictlySorted(Select(s, mask))
  {
  }

  lemma SelectDistinct<T>(s: seq<T>, mask: seq<bool>)
    requires |s| == |mask| && Distinct(s)
    ensures Distinct(Select(s, mask))
  {
    var idx := Nonzero(mask);
    forall i, j | 0 <= i < j < |idx| ensures s[idx[i]] != s[idx[j]] {
      assert idx[i] < idx[j];
    }
  }

  /** The values stand in order when read through `idx`. */
  ghost predicate Orders(s: seq<int>, idx: seq<nat>)
    requires InRange(idx, |s|)
  {
    forall i, j :: 0 <= i < j < |idx| ==> s[idx[i]] <= s[idx[j]]
  }

  ghost predicate IsArgSort(s: seq<int>, idx: seq<nat>) {
    |idx| == |s| && InRange(idx, |s|) && Distinct(idx) && Orders(s, idx)
  }

  /** How many of the leading entries of `idx` point at values no greater than `x`. */
  function InsertionPoint(s: seq<int>, idx: seq<nat>, x: int): (p: nat)
    requires InRange(idx, |s|) && Orders(s, idx)
    ensures p <= |idx|
    ensures forall i :: 0 <= i < p ==> s[idx[i]] <= x
    ensures forall i :: p <= i < |idx| ==> x < s[idx[i]]
  {
    if |idx| == 0 then 0
    else if s[idx[|idx| - 1]] <= x then |idx|
    else InsertionPoint(s, idx[..|idx| - 1], x)
  }

  /** The index half of `torch.sort`: a permutation of the positions that sorts `s`. */
  function ArgSort(s: seq<int>): (idx: seq<nat>)
    ensures IsArgSort(s, idx)
  {
    if |s| == 0 then []
    else
      var n := |s| - 1;
      var pre := ArgSort(s[..n]);
      var p := InsertionPoint(s[..n], pre, s[n]);
      InsertKeepsArgSort(s, pre, p);
      pre[..p] + [n] + pre[p..]
  }

  lemma InsertKeepsArgSort(s: seq<int>, pre: seq<nat>, p: nat)
    requires |s| > 0 && IsArgSort(s[..|s| - 1], pre) && p <= |pre|
    requires forall i :: 0 <= i < p ==> s[..|s| - 1][pre[i]] <= s[|s| - 1]
    requires forall i :: p <= i < |pre| ==> s[|s| - 1] < s[..|s| - 1][pre[i]]
    ensures IsArgSort(s, pre[..p] + [|s| - 1] + pre[p..])
  {
    var n := |s| - 1;
    var idx := pre[..p] + [n] + pre[p..];
    assert forall k :: 0 <= k < p ==> idx[k] == pre[k];
    assert idx[p] == n;
    assert forall k :: p < k < |idx| ==> idx[k] == pre[k - 1];
    forall i, j | 0 <= i < j < |idx| ensures idx[i] != idx[j] && s[idx[i]] <= s[idx[j]] {
      if i != p && j != p {
        ArgSortPair(s, pre, if i < p then i else i - 1, if j < p then j else j - 1);
      }
    }
  }

  lemma ArgSortPair(s: seq<int>, pre: seq<nat>, i: nat, j: nat)
    requires |s| > 0 && IsArgSort(s[..|s| - 1], pre) && i < j < |pre|
    ensures pre[i] != pre[j] && s[pre[i]] <= s[pre[j]]
  {
    assert s[..|s| - 1][pre[i]] <= s[..|s| - 1][pre[j]];
  }

  /** Distinct positions, as many as there are: every position occurs. */
  lemma PermutationOnto(idx: seq<nat>, i: nat)
    requires InRange(idx, |idx|) && Distinct(idx) && i < |idx|
    ensures i in idx
  {
    SubsetFull(Members(idx), Below(|idx|));
    assert i in Below(|idx|);
  }

  /** The numbers below `n`. */
  function Below(n: nat): (r: set<nat>)
    ensures |r| == n
    ensures forall k: nat :: k in r <==> k < n
  {
    if n == 0 then {} else Below(n - 1) + {n - 1}
  }

  lemma {:induction false} SubsetCard<T>(a: set<T>, b: set<T>)
    requires a <= b
    ensures |a| <= |b|
  {
    if a != {} {
      var x :| x in a;
      SubsetCard(a - {x}, b - {x});
    }
  }

  /** An injective image is as large as the set it comes from. */
  lemma {:induction false} ImageCard(f: seq<nat>, held: set<nat>)
    requires forall v :: v in held ==> v < |f|
    requires forall v, w :: v in held && w in held && v != w ==> f[v] != f[w]
    ensures |set v | v in held :: f[v]| == |held|
  {
    var image := set v | v in held :: f[v];
    if held != {} {
      var x :| x in held;
      ImageCard(f, held - {x});
      var rest := set v | v in held - {x} :: f[v];
      assert image == rest + {f[x]};
      assert f[x] !in rest;
    }
  }

  lemma SubsetFull<T>(a: set<T>, b: set<T>)
    requires a <= b && |a| == |b|
    ensures a == b
  {
    if x :| x in b && x !in a {
      SubsetCard(a, b - {x});
    }
  }

  /** Sorting distinct values gives a strictly increasing sequence of the same members. */
  lemma SortedDistinct(s: seq<nat>)
    requires Distinct(s)
    ensures var r := Gather(s, ArgSort(s));
      StrictlySorted(r) && forall x :: x in r <==> x in s
  {
    var idx := ArgSort(s);
    var r := Gather(s, idx);
    forall i, j | 0 <= i < j < |r| ensures r[i] < r[j] {
      assert idx[i] != idx[j];
    }
    PermutedMembers(s, idx);
  }

  function Insert(s: seq<nat>, x: nat): (r: seq<nat>)
    requires StrictlySorted(s)
    ensures StrictlySorted(r)
    ensures forall y :: y in r <==> y in s || y == x
  {
    if |s| == 0 then [x]
    else
      var n := |s| - 1;
      if s[n] < x then s + [x]
      else if s[n] == x then s
      else
        var pre := Insert(s[..n], x);
        assert forall y :: y in s <==> y in s[..n] || y == s[n];
        assert pre[|pre| - 1] in pre;
        pre + [s[n]]
  }

  /** `torch.unique` */
  function Unique(s: seq<nat>): (r: seq<nat>)
    ensures StrictlySorted(r)
    ensures forall x :: x in r <==> x in s
  {
    if |s| == 0 then [] else Insert(Unique(s[..|s| - 1]), s[|s| - 1])
  }

  /** `a[isin(a, b, invert=True)]` */
  function Minus(a: seq<nat>, b: seq<nat>): (r: seq<nat>)
    requires StrictlySorted(a)
    ensures StrictlySorted(r)
    ensures forall x :: x in r <==> x in a && x !in b
  {
    SelectMembers(a, Not(Isin(a, b)));
    Select(a, Not(Isin(a, b)))
  }

  /** Where `x` stands in `s`, or -1: one entry of a `findSameIndex` table. */
  function IndexOf(s: seq<int>, x: int): (i: int)
    ensures -1 <= i < |s|
    ensures i == -1 <==> x !in s
    ensures i >= 0 ==> s[i] == x
  {
    if |s| == 0 then -1
    else if s[|s| - 1] == x then |s| - 1
    else IndexOf(s[..|s| - 1], x)
  }

  /** `s[i]` as Python reads it: a negative index counts from the end. */
  function PyAt<T>(s: seq<T>, i: int): (x: T)
    requires -|s| <= i < |s|
  {
    if i < 0 then s[|s| + i] else s[i]
  }

  /** `find_indices` (utils.py), also spelled out in `gen_expire`: sort the second array, find each value
      of the first in it, and map the place back. A value that is not there has table entry -1, and so
      takes the place of the largest entry. */
  function FindIndices(a: seq<int>, b: seq<int>): (r: seq<nat>)
    requires |a| > 0 ==> |b| > 0
    ensures |r| == |a| && InRange(r, |b|)
    ensures forall k :: 0 <= k < |a| ==> (b[r[k]] == a[k] <==> a[k] in b)
  {
    var order := ArgSort(b);
    var sorted := Gather(b, order);
    PermutedMembers(b, order);
    seq(|a|, k requires 0 <= k < |a| => PyAt(order, IndexOf(sorted, a[k])))
  }

  /** The last entry of a sorting order points at a largest value: that is where a missing value is sent. */
  lemma MissingIsLargest(a: seq<int>, b: seq<int>, k: nat, j: nat)
    requires |b| > 0 && k < |a| && a[k] !in b && j < |b|
    ensures b[j] <= b[FindIndices(a, b)[k]]
  {
    var order := ArgSort(b);
    PermutedMembers(b, order);
    PermutationOnto(order, j);
    var i :| 0 <= i < |order| && order[i] == j;
    assert a[k] !in Gather(b, order);
    assert FindIndices(a, b)[k] == order[|order| - 1];
  }

  /** What an index assignment with distinct places leaves at each place. */
  lemma ScatterAt<T>(dst: seq<T>, idx: seq<nat>, vals: seq<T>, i: nat)
    requires |idx| == |vals| && InRange(idx, |dst|) && Distinct(idx) && i < |dst|
    ensures Scatter(dst, idx, vals)[i] == if i in idx then vals[IndexOf(idx, i)] else dst[i]
  {
    if i in idx {
      assert idx[IndexOf(idx, i)] == i;
    }
  }

  /** Two index assignments one after the other are one assignment. */
  lemma {:induction false} ScatterConcat<T>(dst: seq<T>, a: seq<nat>, x: seq<T>, b: seq<nat>, y: seq<T>)
    requires |a| == |x| && |b| == |y| && InRange(a, |dst|) && InRange(b, |dst|)
    ensures Scatter(Scatter(dst, a, x), b, y) == Scatter(dst, a + b, x + y)
  {
    hide Distinct;
    if |b| == 0 {
      assert a + b == a && x + y == x;
    } else {
      var n := |b| - 1;
      ScatterConcat(dst, a, x, b[..n], y[..n]);
      assert (a + b)[..|a + b| - 1] == a + b[..n];
      assert (x + y)[..|x + y| - 1] == x + y[..n];
    }
  }

  /** The last write to a place is the one that stays. */
  lemma {:induction false} ScatterLast<T>(dst: seq<T>, idx: seq<nat>, vals: seq<T>, k: nat)
    requires |idx| == |vals| && InRange(idx, |dst|) && k < |idx|
    requires forall j :: k < j < |idx| ==> idx[j] != idx[k]
    ensures Scatter(dst, idx, vals)[idx[k]] == vals[k]
  {
    if k < |idx| - 1 {
      ScatterLast(dst, idx[..|idx| - 1], vals[..|idx| - 1], k);
    }
  }

  lemma GatherMember<T>(src: seq<T>, idx: seq<nat>, i: nat)
    requires InRange(idx, |src|) && i in idx
    ensures i < |src| && src[i] in Gather(src, idx)
  {
    var k :| 0 <= k < |idx| && idx[k] == i;
    assert Gather(src, idx)[k] == src[i];
  }

  lemma IndexOfUnique(s: seq<int>, x: int, k: nat)
    requires Distinct(s) && k < |s| && s[k] == x
    ensures IndexOf(s, x) == k
  {
  }

  /** The set of the members of a sequence; there are at most as many as places, and exactly as
      many when they are distinct. */
  function Members<T(!new)>(s: seq<T>): (r: set<T>)
    ensures forall x :: x in r <==> x in s
    ensures |r| <= |s|
    ensures Distinct(s) ==> |r| == |s|
  {
    if |s| == 0 then {}
    else
      var n := |s| - 1;
      assert forall x :: x in s <==> x in s[..n] || x == s[n];
      Members(s[..n]) + {s[n]}
  }

  /** Reordering by a permutation keeps the members, and keeps them distinct. */
  lemma PermutedMembers<T>(s: seq<T>, idx: seq<nat>)
    requires |idx| == |s| && InRange(idx, |s|) && Distinct(idx)
    ensures forall x :: x in Gather(s, idx) <==> x in s
    ensures Distinct(s) ==> Distinct(Gather(s, idx))
  {
    var r := Gather(s, idx);
    forall x | x in s ensures x in r {
      var i :| 0 <= i < |s| && s[i] == x;
      PermutationOnto(idx, i);
      var k :| 0 <= k < |idx| && idx[k] == i;
      assert r[k] == x;
    }
  }

  lemma ConcatAssociative<T>(a: seq<T>, b: seq<T>, c: seq<T>)
    ensures a + (b + c) == (a + b) + c
  {
  }

  /** `cumsum` */
  function CumSum(counts: seq<nat>): (r: seq<nat>)
    ensures |r| == |counts|
  {
    if |counts| == 0 then []
    else
      var pre := CumSum(counts[..|counts| - 1]);
      pre + [(if |pre| == 0 then 0 else pre[|pre| - 1]) + counts[|counts| - 1]]
  }

  /** `flat` and `ptr` stand for a list of lists: the lists one after the other, and where each starts. */
  ghost predicate CsrOf<T>(flat: seq<T>, ptr: seq<nat>, lists: seq<seq<T>>) {
    && flat == Concat(lists)
    && |ptr| == |lists| + 1
    && forall i :: 0 <= i <= |lists| ==> ptr[i] == |Concat(lists[..i])|
  }

  /** The slice between two neighbouring pointers is the list written there. */
  lemma CsrSlice<T>(flat: seq<T>, ptr: seq<nat>, lists: seq<seq<T>>, i: nat)
    requires CsrOf(flat, ptr, lists) && i < |lists|
    ensures ptr[i] <= ptr[i + 1] <= |flat| && flat[ptr[i]..ptr[i + 1]] == lists[i]
  {
    ConcatSlice(lists, i);
  }

  /** Appending a list, and its length to the counts, keeps the pointers of the counts right. */
  lemma CumSumCounts<T>(lists: seq<seq<T>>, counts: seq<nat>, l: seq<T>)
    requires CsrOf(Concat(lists), CumSum(counts), lists) && |counts| == |lists| + 1
    ensures CsrOf(Concat(lists + [l]), CumSum(counts + [|l|]), lists + [l])
    ensures Concat(lists + [l]) == Concat(lists) + l
  {
    var all := lists + [l];
    assert all[..|all| - 1] == lists;
    assert (counts + [|l|])[..|counts|] == counts;
    assert lists[..|lists|] == lists && all[..|all|] == all;
    forall i | 0 <= i <= |lists| ensures all[..i] == lists[..i] {
    }
  }

  /** `cat` of several lists */
  function Concat<T>(lists: seq<seq<T>>): (r: seq<T>)
  {
    if |lists| == 0 then [] else Concat(lists[..|lists| - 1]) + lists[|lists| - 1]
  }

  lemma ConcatEmpty<T>()
    ensures Concat<T>([]) == []
  {
  }

  lemma ConcatNext<T>(lists: seq<seq<T>>, i: nat)
    requires i < |lists|
    ensures Concat(lists[..i + 1]) == Concat(lists[..i]) + lists[i]
  {
    assert lists[..i + 1][..i] == lists[..i];
  }

  lemma {:induction false} ConcatFront<T>(l: seq<T>, lists: seq<seq<T>>)
    ensures Concat([l] + lists) == l + Concat(lists)
  {
    var all := [l] + lists;
    if |lists| == 0 {
      assert all[..0] == [];
    } else {
      assert all[..|all| - 1] == [l] + lists[..|lists| - 1];
      ConcatFront(l, lists[..|lists| - 1]);
    }
  }

  lemma {:induction false} ConcatPrefix<T>(lists: seq<seq<T>>, i: nat)
    requires i <= |lists|
    ensures Concat(lists[..i]) <= Concat(lists)
  {
    if i == |lists| {
      assert lists[..i] == lists;
    } else {
      var n := |lists| - 1;
      assert lists[..n][..i] == lists[..i];
      ConcatPrefix(lists[..n], i);
    }
  }

  /** The slice of a concatenation between two prefix lengths is the list written there: how a
      flat index array and its pointer array stand for a list of lists. */
  lemma ConcatSlice<T>(lists: seq<seq<T>>, i: nat)
    requires i < |lists|
    ensures |Concat(lists[..i])| <= |Concat(lists[..i + 1])| <= |Concat(lists)|
    ensures Concat(lists)[|Concat(lists[..i])|..|Concat(lists[..i + 1])|] == lists[i]
  {
    ConcatPrefix(lists, i + 1);
    assert lists[..i + 1][..i] == lists[..i];
  }

  /** `a[idx] = vals` in place */
  method IndexPut<T>(a: array<T>, idx: seq<nat>, vals: seq<T>)
    requires |idx| == |vals| && InRange(idx, a.Length)
    modifies a
    ensures a[..] == Scatter(old(a[..]), idx, vals)
  {
    for k := 0 to |idx|
      invariant a[..] == Scatter(old(a[..]), idx[..k], vals[..k])
    {
      assert idx[..k + 1][..k] == idx[..k] && vals[..k + 1][..k] == vals[..k];
      a[idx[k]] := vals[k];
    }
    assert idx[..|idx|] == idx && vals[..|idx|] == vals;
  }

  /** `a[idx] = c` in place */
  method IndexFill<T>(a: array<T>, idx: seq<nat>, c: T)
    requires InRange(idx, a.Length)
    modifies a
    ensures a[..] == Fill(old(a[..]), idx, c)
  {
    for k := 0 to |idx|
      invariant a[..] == Fill(old(a[..]), idx[..k], c)
    {
      assert idx[..k + 1] == idx[..k] + [idx[k]];
      a[idx[k]] := c;
    }
    assert idx[..|idx|] == idx;
  }
}
