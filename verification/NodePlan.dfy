/** The offline plan of the node-memory cache (preprocess/node_memory.py). Each block of training
    edges sends the memory of some nodes to the host. Between two blocks that send the same node,
    its row can wait in the cache. The planner lists these waits as intervals, picks them greedily
    under a budget, and writes down what each block puts into the cache, sends to disk and
    lets go. */
module NodePlan {
  import opened Common
  import opened Tensors

  /** Node `id` may wait in the cache from block `start` up to block `end`. */
  datatype Interval = Interval(start: nat, end: nat, id: nat)

  ghost predicate Blocks(blocks: seq<seq<nat>>, numData: nat) {
    forall i :: 0 <= i < |blocks| ==> StrictlySorted(blocks[i]) && InRange(blocks[i], numData)
  }

  // ---------------------------------------------------------------- the nodes each block sends

  /** The end points of the edges `[left, right)`, each once. */
  function RootNodes(src: seq<nat>, dst: seq<nat>, left: nat, right: nat): (r: seq<nat>)
    requires left <= right <= |src| == |dst|
    ensures StrictlySorted(r)
  {
    Unique(src[left..right] + dst[left..right])
  }

  /** Exactly the end points of the block's edges. */
  lemma RootMembers(src: seq<nat>, dst: seq<nat>, left: nat, right: nat, v: nat)
    requires left <= right <= |src| == |dst|
    ensures v in RootNodes(src, dst, left, right) <==> exists i :: left <= i < right && (src[i] == v || dst[i] == v)
  {
    hide Unique;
    var a, b := src[left..right], dst[left..right];
    forall i | left <= i < right ensures src[i] in a && dst[i] in b {
      assert a[i - left] == src[i] && b[i - left] == dst[i];
    }
    if v in a {
      var k :| 0 <= k < |a| && a[k] == v;
      assert src[left + k] == v;
    } else if v in b {
      var k :| 0 <= k < |b| && b[k] == v;
      assert dst[left + k] == v;
    }
  }

  ghost predicate AllSorted(blocks: seq<seq<nat>>) {
    forall i :: 0 <= i < |blocks| ==> StrictlySorted(blocks[i])
  }

  /** The root nodes of every block of `size` edges in `[left, end)`. */
  function RootBlocks(src: seq<nat>, dst: seq<nat>, size: nat, left: nat, end: nat): (r: seq<seq<nat>>)
    requires 0 < size && left <= end <= |src| == |dst|
    ensures AllSorted(r)
    ensures r == [] <==> left == end
    decreases end - left
  {
    if left == end then []
    else
      var right := Min(end, left + size);
      [RootNodes(src, dst, left, right)] + RootBlocks(src, dst, size, right, end)
  }

  /** What every block sends: the roots that the next block does not have; the last block sends
      all of its roots. */
  function SentBlocks(roots: seq<seq<nat>>): (r: seq<seq<nat>>)
    requires AllSorted(roots)
    ensures |r| == |roots| && AllSorted(r)
  {
    if |roots| == 0 then []
    else if |roots| == 1 then roots
    else
      assert AllSorted(roots[1..]);
      [Minus(roots[0], roots[1])] + SentBlocks(roots[1..])
  }

  lemma {:induction false} SentBlockMembers(roots: seq<seq<nat>>, i: nat)
    requires AllSorted(roots) && i < |roots|
    ensures forall v :: v in SentBlocks(roots)[i] <==>
      v in roots[i] && (i + 1 < |roots| ==> v !in roots[i + 1])
  {
    if i > 0 {
      SentBlockMembers(roots[1..], i - 1);
    }
  }

  ghost predicate AllInRange(blocks: seq<seq<nat>>, n: nat) {
    forall i :: 0 <= i < |blocks| ==> InRange(blocks[i], n)
  }

  lemma RootsInRange(src: seq<nat>, dst: seq<nat>, left: nat, right: nat, n: nat)
    requires left <= right <= |src| == |dst| && InRange(src, n) && InRange(dst, n)
    ensures InRange(RootNodes(src, dst, left, right), n)
  {
    var both := src[left..right] + dst[left..right];
    assert InRange(both, n);
    UniqueInRange(both, n);
  }

  lemma UniqueInRange(s: seq<nat>, n: nat)
    requires InRange(s, n)
    ensures InRange(Unique(s), n)
  {
    hide Unique;
    forall k | 0 <= k < |Unique(s)| ensures Unique(s)[k] < n {
      assert Unique(s)[k] in s;
    }
  }

  lemma {:induction false} RootBlocksInRange(src: seq<nat>, dst: seq<nat>, size: nat, left: nat, end: nat, n: nat)
    requires 0 < size && left <= end <= |src| == |dst| && InRange(src, n) && InRange(dst, n)
    ensures AllInRange(RootBlocks(src, dst, size, left, end), n)
    decreases end - left
  {
    if left < end {
      var right := Min(end, left + size);
      RootsInRange(src, dst, left, right, n);
      RootBlocksInRange(src, dst, size, right, end, n);
    }
  }

  lemma SentInRange(roots: seq<seq<nat>>, n: nat)
    requires AllSorted(roots) && AllInRange(roots, n)
    ensures Blocks(SentBlocks(roots), n)
  {
    var sent := SentBlocks(roots);
    forall i, k | 0 <= i < |sent| && 0 <= k < |sent[i]| ensures sent[i][k] < n {
      SentBlockMembers(roots, i);
      assert sent[i][k] in sent[i];
      assert sent[i][k] in roots[i];
    }
  }

  /** What remains to be written once the blocks before edge `left` have been read. */
  ghost function SentRest(src: seq<nat>, dst: seq<nat>, size: nat, end: nat, left: nat, pre: Option<seq<nat>>)
    : (r: seq<seq<nat>>)
    requires 0 < size && left <= end <= |src| == |dst|
    requires pre.Some? ==> StrictlySorted(pre.value)
  {
    var rest := RootBlocks(src, dst, size, left, end);
    if pre == None then SentBlocks(rest)
    else
      assert AllSorted([pre.value] + rest);
      SentBlocks([pre.value] + rest)
  }

  lemma SentEnds(src: seq<nat>, dst: seq<nat>, size: nat, end: nat, pre: Option<seq<nat>>)
    requires 0 < size && end <= |src| == |dst| && (pre.Some? ==> StrictlySorted(pre.value))
    ensures SentRest(src, dst, size, end, 0, None) == SentBlocks(RootBlocks(src, dst, size, 0, end))
    ensures SentRest(src, dst, size, end, end, pre) == if pre.None? then [] else [pre.value]
  {
    assert pre.Some? ==> [pre.value] + [] == [pre.value];
  }

  lemma SentStep(src: seq<nat>, dst: seq<nat>, size: nat, end: nat, left: nat, pre: Option<seq<nat>>)
    requires 0 < size && left < end <= |src| == |dst|
    requires pre.Some? ==> StrictlySorted(pre.value)
    ensures var right := Min(end, left + size);
      var cur := RootNodes(src, dst, left, right);
      SentRest(src, dst, size, end, left, pre)
      == (if pre == None then [] else [Minus(pre.value, cur)]) + SentRest(src, dst, size, end, right, Some(cur))
  {
    var right := Min(end, left + size);
    var cur := RootNodes(src, dst, left, right);
    var rest := RootBlocks(src, dst, size, right, end);
    if pre.Some? {
      var roots := [pre.value] + ([cur] + rest);
      assert roots[1..] == [cur] + rest;
    }
  }

  /** `gen_part`. With no training edge the original reads a variable it never set. */
  method GenPart(src: seq<nat>, dst: seq<nat>, size: nat, end: nat) returns (res: Option<seq<seq<nat>>>)
    requires 0 < size && end <= |src| == |dst|
    ensures res == if end == 0 then None else Some(SentBlocks(RootBlocks(src, dst, size, 0, end)))
  {
    hide RootBlocks, RootNodes, SentBlocks, SentRest, Minus, StrictlySorted;
    var out: seq<seq<nat>> := [];
    var left, right := 0, 0;
    var pre: Option<seq<nat>> := None;
    SentEnds(src, dst, size, end, pre);
    while true
      invariant left == right <= end
      invariant pre.Some? ==> StrictlySorted(pre.value)
      invariant pre == None <==> left == 0
      invariant pre == None ==> out == []
      invariant SentRest(src, dst, size, end, 0, None) == out + SentRest(src, dst, size, end, left, pre)
      decreases end - left
    {
      right := Min(end, right + size);
      if left >= right { break; }
      var cur := RootNodes(src, dst, left, right);
      SentStep(src, dst, size, end, left, pre);
      ghost var rest := SentRest(src, dst, size, end, right, Some(cur));
      if pre.Some? {
        var m := Minus(pre.value, cur);
        ConcatAssociative(out, [m], rest);
        out := out + [m];
      } else {
        ConcatAssociative(out, [], rest);
      }
      left := right;
      pre := Some(cur);
    }
    if pre.None? { return None; }
    SentEnds(src, dst, size, end, pre);
    return Some(out + [pre.value]);
  }

  // ------------------------------------------------------------------------------- the intervals

  /** Blocks `iv.start` and `iv.end` send the node and no block between them does. */
  ghost predicate Consecutive(blocks: seq<seq<nat>>, iv: Interval) {
    && iv.start < iv.end < |blocks|
    && iv.id in blocks[iv.start] && iv.id in blocks[iv.end]
    && forall k :: iv.start < k < iv.end ==> iv.id !in blocks[k]
  }

  ghost predicate LastUse(blocks: seq<seq<nat>>, i: nat, v: nat, k: nat)
    requires i <= |blocks|
  {
    k < i && v in blocks[k] && forall m :: k < m < i ==> v !in blocks[m]
  }

  /** The last use of a node before block `iv.end` starts the only interval that ends there. */
  lemma LastUseJoins(blocks: seq<seq<nat>>, iv: Interval)
    requires iv.end < |blocks| && LastUse(blocks, iv.end, iv.id, iv.start) && iv.id in blocks[iv.end]
    ensures Consecutive(blocks, iv)
    ensures forall x :: Consecutive(blocks, x) && x.end == iv.end && x.id == iv.id ==> x == iv
  {
  }

  /** The intervals that end before block `i`, and of those that end there, the intervals of `nodes`. */
  ghost predicate FoundUpTo(blocks: seq<seq<nat>>, ivs: seq<Interval>, i: nat, nodes: seq<nat>) {
    forall iv :: iv in ivs <==> Consecutive(blocks, iv) && (iv.end < i || (iv.end == i && iv.id in nodes))
  }

  lemma FoundFirst(blocks: seq<seq<nat>>)
    ensures FoundUpTo(blocks, [], 0, []) && Distinct<Interval>([])
  {
  }

  lemma FoundBlock(blocks: seq<seq<nat>>, ivs: seq<Interval>, i: nat)
    requires i < |blocks| && FoundUpTo(blocks, ivs, i, blocks[i])
    ensures FoundUpTo(blocks, ivs, i + 1, [])
  {
    assert forall iv :: Consecutive(blocks, iv) && iv.end == i ==> iv.id in blocks[i];
  }

  lemma FoundLast(blocks: seq<seq<nat>>, ivs: seq<Interval>)
    requires FoundUpTo(blocks, ivs, |blocks|, [])
    ensures forall iv :: iv in ivs <==> Consecutive(blocks, iv)
  {
  }

  lemma FoundOne(blocks: seq<seq<nat>>, ivs: seq<Interval>, i: nat, uni: seq<nat>, j: nat, iv: Interval)
    requires i < |blocks| && uni == blocks[i] && StrictlySorted(uni) && j < |uni|
    requires iv.end == i && iv.id == uni[j] && LastUse(blocks, i, uni[j], iv.start)
    requires FoundUpTo(blocks, ivs, i, uni[..j]) && Distinct(ivs)
    ensures FoundUpTo(blocks, ivs + [iv], i, uni[..j + 1]) && Distinct(ivs + [iv])
  {
    hide Consecutive, LastUse;
    LastUseJoins(blocks, iv);
    assert uni[..j + 1] == uni[..j] + [uni[j]];
  }

  lemma FoundNone(blocks: seq<seq<nat>>, ivs: seq<Interval>, i: nat, uni: seq<nat>, j: nat)
    requires i < |blocks| && j < |uni| && FoundUpTo(blocks, ivs, i, uni[..j])
    requires forall k :: 0 <= k < i ==> uni[j] !in blocks[k]
    ensures FoundUpTo(blocks, ivs, i, uni[..j + 1])
  {
    assert uni[..j + 1] == uni[..j] + [uni[j]];
    assert forall iv :: Consecutive(blocks, iv) && iv.end == i && iv.id == uni[j] ==> iv.start < i;
  }

  /** `gen_intervals`: one left-to-right pass finds every pair of consecutive sends. */
  method GenIntervals(blocks: seq<seq<nat>>, numData: nat) returns (ivs: seq<Interval>)
    requires Blocks(blocks, numData)
    ensures forall iv :: iv in ivs <==> Consecutive(blocks, iv)
    ensures Distinct(ivs)
  {
    hide Consecutive, Distinct, FoundUpTo;
    var lastFlag := new bool[numData](_ => false);
    var lastUsed := new nat[numData](_ => |blocks|);
    ivs := [];
    FoundFirst(blocks);
    for i := 0 to |blocks|
      invariant forall v :: 0 <= v < numData && lastFlag[v] ==> LastUse(blocks, i, v, lastUsed[v])
      invariant forall v :: 0 <= v < numData && !lastFlag[v] ==> forall k :: 0 <= k < i ==> v !in blocks[k]
      invariant FoundUpTo(blocks, ivs, i, []) && Distinct(ivs)
    {
      var uni := blocks[i];
      ghost var flags, used := lastFlag[..], lastUsed[..];
      assert uni[..0] == [];
      for j := 0 to |uni|
        invariant lastFlag[..] == flags && lastUsed[..] == used
        invariant FoundUpTo(blocks, ivs, i, uni[..j]) && Distinct(ivs)
      {
        assert lastFlag[uni[j]] == flags[uni[j]] && lastUsed[uni[j]] == used[uni[j]];
        if lastFlag[uni[j]] {
          var iv := Interval(lastUsed[uni[j]], i, uni[j]);
          FoundOne(blocks, ivs, i, uni, j, iv);
          ivs := ivs + [iv];
        } else {
          FoundNone(blocks, ivs, i, uni, j);
        }
      }
      assert uni[..|uni|] == uni;
      FoundBlock(blocks, ivs, i);
      for j := 0 to |uni|
        invariant forall v :: 0 <= v < numData && lastFlag[v] && v in uni[..j] ==> lastUsed[v] == i
        invariant forall v :: 0 <= v < numData && v in uni[..j] ==> lastFlag[v]
        invariant forall v :: 0 <= v < numData && lastFlag[v] && v !in uni[..j] ==> LastUse(blocks, i, v, lastUsed[v])
        invariant forall v :: 0 <= v < numData && !lastFlag[v] ==> forall k :: 0 <= k < i ==> v !in blocks[k]
      {
        assert uni[..j + 1] == uni[..j] + [uni[j]];
        lastUsed[uni[j]] := i;
        lastFlag[uni[j]] := true;
      }
    }
    FoundLast(blocks, ivs);
  }

  // ------------------------------------------------------------------------- the greedy selection

  /** How many of the intervals hold a cache slot while block `t` is the last one sent. */
  function Cover(ivs: seq<Interval>, t: int): (c: nat)
    ensures c <= |ivs|
  {
    if |ivs| == 0 then 0
    else Cover(ivs[..|ivs| - 1], t) + (if ivs[|ivs| - 1].start <= t < ivs[|ivs| - 1].end then 1 else 0)
  }

  /** Accepting one more interval covers its blocks once more. */
  lemma CoverAccept(ivs: seq<Interval>, sel: seq<nat>, i: nat, t: int)
    requires InRange(sel, |ivs|) && i < |ivs|
    ensures Cover(Gather(ivs, sel + [i]), t) ==
      Cover(Gather(ivs, sel), t) + (if ivs[i].start <= t < ivs[i].end then 1 else 0)
  {
    var g := Gather(ivs, sel + [i]);
    assert g[..|g| - 1] == Gather(ivs, sel);
  }

  /** The members of an ascending index list that are below `i`. */
  function Earlier(sel: seq<nat>, i: nat): (r: seq<nat>)
    ensures |r| <= |sel| && InRange(r, i)
  {
    if |sel| == 0 then []
    else if sel[|sel| - 1] < i then Earlier(sel[..|sel| - 1], i) + [sel[|sel| - 1]]
    else Earlier(sel[..|sel| - 1], i)
  }

  lemma {:induction false} EarlierAll(sel: seq<nat>, i: nat)
    requires InRange(sel, i)
    ensures Earlier(sel, i) == sel
  {
    if |sel| > 0 {
      EarlierAll(sel[..|sel| - 1], i);
    }
  }

  ghost predicate Room(chosen: seq<Interval>, iv: Interval, threshold: int) {
    forall t :: iv.start <= t < iv.end ==> Cover(chosen, t) < threshold
  }

  /** Interval `i` still fitted when its turn came. */
  ghost predicate Fitted(ivs: seq<Interval>, sel: seq<nat>, threshold: int, i: nat)
    requires i < |ivs|
  {
    Room(Gather(ivs, Earlier(sel, i)), ivs[i], threshold)
  }

  /** Of the first `m` intervals, `sel` lists exactly those that fitted when their turn came. */
  ghost predicate IsGreedy(ivs: seq<Interval>, sel: seq<nat>, threshold: int, m: nat)
    requires m <= |ivs|
  {
    && StrictlySorted(sel) && InRange(sel, m)
    && forall i :: 0 <= i < m ==> (i in sel <==> Fitted(ivs, sel, threshold, i))
  }

  lemma GreedyStep(ivs: seq<Interval>, sel: seq<nat>, threshold: int, m: nat, fits: bool)
    requires m < |ivs| && IsGreedy(ivs, sel, threshold, m)
    requires fits <==> Room(Gather(ivs, sel), ivs[m], threshold)
    ensures IsGreedy(ivs, if fits then sel + [m] else sel, threshold, m + 1)
  {
    hide Fitted, Room, Earlier;
    FittedNow(ivs, sel, threshold, m);
    if fits {
      assert StrictlySorted(sel + [m]) && InRange(sel + [m], m + 1);
      forall i: nat | i <= m ensures i in sel + [m] <==> Fitted(ivs, sel + [m], threshold, i) {
        FittedKept(ivs, sel, threshold, m, i);
        assert i in sel + [m] <==> i in sel || i == m;
      }
    }
  }

  lemma FittedNow(ivs: seq<Interval>, sel: seq<nat>, threshold: int, m: nat)
    requires m < |ivs| && InRange(sel, m)
    ensures InRange(sel, |ivs|) && (Fitted(ivs, sel, threshold, m) <==> Room(Gather(ivs, sel), ivs[m], threshold))
  {
    EarlierAll(sel, m);
  }

  /** Accepting interval `m` changes nothing for the intervals up to it. */
  lemma FittedKept(ivs: seq<Interval>, sel: seq<nat>, threshold: int, m: nat, i: nat)
    requires m < |ivs| && i <= m
    ensures Fitted(ivs, sel + [m], threshold, i) <==> Fitted(ivs, sel, threshold, i)
  {
    hide Room;
    assert (sel + [m])[..|sel|] == sel;
    assert Earlier(sel + [m], i) == Earlier(sel, i);
  }

  /** `flag = (budget[start_:end_] < 1).any()` */
  method AnySpent(budget: array<int>, iv: Interval) returns (flag: bool)
    requires iv.end <= budget.Length
    ensures flag <==> exists t :: iv.start <= t < iv.end && budget[t] < 1
  {
    flag := false;
    var t := iv.start;
    while t < iv.end
      invariant flag <==> exists u :: iv.start <= u < t && u < iv.end && budget[u] < 1
    {
      if budget[t] < 1 { flag := true; }
      t := t + 1;
    }
  }

  /** `budget[start_:end_] -= 1` */
  method Spend(budget: array<int>, iv: Interval)
    requires iv.start < iv.end <= budget.Length
    modifies budget
    ensures forall t :: 0 <= t < budget.Length ==>
      budget[t] == old(budget[t]) - (if iv.start <= t < iv.end then 1 else 0)
  {
    for t := iv.start to iv.end
      invariant forall u :: 0 <= u < budget.Length ==>
        budget[u] == old(budget[u]) - (if iv.start <= u < t then 1 else 0)
    {
      budget[t] := budget[t] - 1;
    }
  }

  /** `select_interval_ID`: the budget array pays for each accepted interval. */
  method SelectIntervalID(ivs: seq<Interval>, numBatch: nat, threshold: int) returns (sel: seq<nat>)
    requires 0 < numBatch
    requires forall iv :: iv in ivs ==> iv.start < iv.end < numBatch
    ensures IsGreedy(ivs, sel, threshold, |ivs|)
  {
    hide IsGreedy, Room, Left;
    sel := [];
    var budget := new int[numBatch - 1](_ => threshold);
    NothingSpent(ivs, threshold, budget[..]);
    for i := 0 to |ivs|
      invariant IsGreedy(ivs, sel, threshold, i) && InRange(sel, i)
      invariant budget.Length == numBatch - 1 && Left(ivs, sel, threshold, budget[..])
    {
      var iv := ivs[i];
      assert iv in ivs;
      var flag := AnySpent(budget, iv);
      RoomLeft(ivs, sel, threshold, budget[..], i);
      GreedyStep(ivs, sel, threshold, i, !flag);
      if !flag {
        ghost var before := budget[..];
        Spend(budget, iv);
        LeftAccept(ivs, sel, threshold, before, budget[..], i);
        sel := sel + [i];
      }
    }
  }

  /** The budget of every time is what the intervals accepted so far have left. */
  ghost predicate Left(ivs: seq<Interval>, sel: seq<nat>, threshold: int, budget: seq<int>) {
    InRange(sel, |ivs|) && forall t :: 0 <= t < |budget| ==> budget[t] == threshold - Cover(Gather(ivs, sel), t)
  }

  lemma NothingSpent(ivs: seq<Interval>, threshold: int, budget: seq<int>)
    requires forall t :: 0 <= t < |budget| ==> budget[t] == threshold
    ensures IsGreedy(ivs, [], threshold, 0) && Left(ivs, [], threshold, budget)
  {
  }

  lemma RoomLeft(ivs: seq<Interval>, sel: seq<nat>, threshold: int, budget: seq<int>, i: nat)
    requires i < |ivs| && ivs[i].end <= |budget| && Left(ivs, sel, threshold, budget)
    ensures Room(Gather(ivs, sel), ivs[i], threshold)
      <==> !exists t :: ivs[i].start <= t < ivs[i].end && budget[t] < 1
  {
    hide Cover, Gather;
  }

  lemma LeftAccept(ivs: seq<Interval>, sel: seq<nat>, threshold: int, before: seq<int>, budget: seq<int>, i: nat)
    requires i < |ivs| && Left(ivs, sel, threshold, before) && |budget| == |before|
    requires forall t :: 0 <= t < |budget| ==>
      budget[t] == before[t] - (if ivs[i].start <= t < ivs[i].end then 1 else 0)
    ensures Left(ivs, sel + [i], threshold, budget)
  {
    hide Cover, Gather;
    forall t | 0 <= t < |budget| ensures budget[t] == threshold - Cover(Gather(ivs, sel + [i]), t) {
      CoverAccept(ivs, sel, i, t);
    }
  }

  /** The selection is feasible: no block is covered more often than the threshold allows. */
  lemma {:induction false} GreedyFeasible(ivs: seq<Interval>, sel: seq<nat>, threshold: nat, t: nat, m: nat)
    requires IsGreedy(ivs, sel, threshold, |ivs|) && m <= |sel|
    ensures InRange(sel[..m], |ivs|)
    ensures Cover(Gather(ivs, sel[..m]), t) <= threshold
  {
    if m > 0 {
      GreedyFeasible(ivs, sel, threshold, t, m - 1);
      EarlierPrefix(sel, m - 1);
      assert sel[..m] == sel[..m - 1] + [sel[m - 1]];
      CoverAccept(ivs, sel[..m - 1], sel[m - 1], t);
      assert sel[m - 1] in sel;
    }
  }

  /** Of an ascending list, the members before the one at `m` are its first `m`. */
  lemma {:induction false} EarlierPrefix(sel: seq<nat>, m: nat)
    requires StrictlySorted(sel) && m < |sel|
    ensures Earlier(sel, sel[m]) == sel[..m]
  {
    var n := |sel| - 1;
    if m == n {
      EarlierAll(sel[..n], sel[n]);
    } else {
      EarlierPrefix(sel[..n], m);
      assert sel[..n][..m] == sel[..m];
    }
  }

  /** What the weight of an interval is: the inverse of its length. */
  function Weight(iv: Interval): (w: real)
    requires iv.start < iv.end
  {
    1.0 / (iv.end - iv.start) as real
  }

  ghost predicate ByWeight(ivs: seq<Interval>) {
    && (forall iv :: iv in ivs ==> iv.start < iv.end)
    && forall i, j :: 0 <= i < j < |ivs| ==> ivs[i].end - ivs[i].start <= ivs[j].end - ivs[j].start
  }

  /** The selection is maximal: a rejected interval holds a block that is saturated in the final
      selection, and already by accepted intervals each of which weighs at least as much. */
  lemma GreedyMaximal(ivs: seq<Interval>, sel: seq<nat>, threshold: nat, i: nat) returns (t: nat, via: seq<nat>)
    requires IsGreedy(ivs, sel, threshold, |ivs|) && ByWeight(ivs)
    requires i < |ivs| && i !in sel
    ensures ivs[i].start <= t < ivs[i].end
    ensures Cover(Gather(ivs, sel), t) == threshold
    ensures via <= sel && Cover(Gather(ivs, via), t) == threshold
    ensures forall k :: k in via ==> k < |ivs| && ivs[k] in ivs && ivs[i] in ivs && Weight(ivs[k]) >= Weight(ivs[i])
  {
    via := Earlier(sel, i);
    EarlierIsPrefix(sel, i);
    t :| ivs[i].start <= t < ivs[i].end && Cover(Gather(ivs, via), t) >= threshold;
    GreedyFeasible(ivs, sel, threshold, t, |via|);
    assert sel[..|via|] == via;
    GreedyFeasible(ivs, sel, threshold, t, |sel|);
    assert sel[..|sel|] == sel;
    CoverPrefix(Gather(ivs, sel), |via|, t);
    assert Gather(ivs, sel)[..|via|] == Gather(ivs, via);
    forall k | k in via
      ensures k < |ivs| && ivs[k] in ivs && ivs[i] in ivs && Weight(ivs[k]) >= Weight(ivs[i])
    {
      LighterIsLonger(ivs[k], ivs[i]);
    }
  }

  lemma LighterIsLonger(a: Interval, b: Interval)
    requires a.start < a.end && b.start < b.end && a.end - a.start <= b.end - b.start
    ensures Weight(a) >= Weight(b)
  {
    InverseAntitone((a.end - a.start) as real, (b.end - b.start) as real);
  }

  lemma InverseAntitone(x: real, y: real)
    requires 0.0 < x <= y
    ensures 1.0 / x >= 1.0 / y
  {
    var u, v := 1.0 / x, 1.0 / y;
    assert u * x == 1.0;
    assert v * y == 1.0;
  }

  lemma {:induction false} EarlierIsPrefix(sel: seq<nat>, i: nat)
    requires StrictlySorted(sel)
    ensures Earlier(sel, i) <= sel
  {
    if |sel| > 0 {
      if sel[|sel| - 1] < i {
        EarlierAll(sel, i);
      } else {
        EarlierIsPrefix(sel[..|sel| - 1], i);
      }
    }
  }

  lemma {:induction false} CoverPrefix(ivs: seq<Interval>, m: nat, t: int)
    requires m <= |ivs|
    ensures Cover(ivs[..m], t) <= Cover(ivs, t)
  {
    if m == |ivs| {
      assert ivs[..m] == ivs;
    } else {
      assert ivs[..|ivs| - 1][..m] == ivs[..m];
      CoverPrefix(ivs[..|ivs| - 1], m, t);
    }
  }

  // ------------------------------------------------------------------------------ the whole plan

  /** `transform_intervals`: heaviest first. The weight falls as the length grows, so the order is
      by length; what the original does with ties is not specified, and nothing here depends on it. */
  method TransformIntervals(ivs: seq<Interval>) returns (sorted: seq<Interval>)
    requires forall iv :: iv in ivs ==> iv.start < iv.end
    requires Distinct(ivs)
    ensures ByWeight(sorted) && Distinct(sorted)
    ensures forall iv :: iv in sorted <==> iv in ivs
  {
    var order := ArgSort(seq(|ivs|, i requires 0 <= i < |ivs| => ivs[i].end - ivs[i].start));
    sorted := Gather(ivs, order);
    PermutedMembers(ivs, order);
  }

  /** `sort_interval_by_time` */
  method SortByTime(ivs: seq<Interval>) returns (sorted: seq<Interval>)
    requires Distinct(ivs)
    ensures Distinct(sorted) && forall iv :: iv in sorted <==> iv in ivs
    ensures forall i, j :: 0 <= i < j < |sorted| ==> sorted[i].start <= sorted[j].start
    ensures forall t :: Cover(sorted, t) == Cover(ivs, t)
  {
    var order := ArgSort(seq(|ivs|, i requires 0 <= i < |ivs| => ivs[i].start));
    sorted := Gather(ivs, order);
    PermutedMembers(ivs, order);
    forall t ensures Cover(sorted, t) == Cover(ivs, t) {
      CoverSet(sorted, t);
      CoverSet(ivs, t);
      assert (set iv | iv in sorted && iv.start <= t < iv.end) == (set iv | iv in ivs && iv.start <= t < iv.end);
    }
  }

  lemma {:induction false} CoverSet(ivs: seq<Interval>, t: int)
    requires Distinct(ivs)
    ensures Cover(ivs, t) == |set iv | iv in ivs && iv.start <= t < iv.end|
  {
    if |ivs| > 0 {
      CoverSet(ivs[..|ivs| - 1], t);
      CoveringNext(ivs, t);
    }
  }

  lemma CoveringNext(ivs: seq<Interval>, t: int)
    requires Distinct(ivs) && |ivs| > 0
    ensures var n := |ivs| - 1;
      var p := set iv | iv in ivs[..n] && iv.start <= t < iv.end;
      && ivs[n] !in p
      && (set iv | iv in ivs && iv.start <= t < iv.end) == if ivs[n].start <= t < ivs[n].end then p + {ivs[n]} else p
  {
    var n := |ivs| - 1;
    assert ivs[n] !in ivs[..n];
    assert ivs == ivs[..n] + [ivs[n]];
  }

  /** `data_placement_single`. An empty selection falls through unfiltered. `sorted` and `sel` are the
      intervals by weight and the greedy choice among them. */
  method DataPlacement(blocks: seq<seq<nat>>, numData: nat, limit: int)
    returns (ivs: seq<Interval>, ghost sorted: seq<Interval>, ghost sel: seq<nat>)
    requires Blocks(blocks, numData) && 0 < |blocks|
    ensures ByWeight(sorted) && forall iv :: iv in sorted <==> Consecutive(blocks, iv)
    ensures IsGreedy(sorted, sel, limit, |sorted|)
    ensures Distinct(sorted) && Distinct(ivs) && forall iv :: iv in ivs ==> Consecutive(blocks, iv)
    ensures forall i, j :: 0 <= i < j < |ivs| ==> ivs[i].start <= ivs[j].start
    ensures 1 <= limit ==>
      (forall iv :: iv in ivs <==> iv in Gather(sorted, sel))
      && (forall t :: Cover(ivs, t) == Cover(Gather(sorted, sel), t))
      && forall t: nat :: Cover(ivs, t) <= limit
    ensures limit < 1 ==> forall iv :: Consecutive(blocks, iv) ==> iv in ivs
  {
    var all := GenIntervals(blocks, numData);
    var byWeight := TransformIntervals(all);
    sorted := byWeight;
    var selID := SelectIntervalID(byWeight, |blocks|, limit);
    sel := selID;
    var chosen := byWeight;
    if |selID| != 0 {
      chosen := Gather(byWeight, selID);
      GreedyLimit(byWeight, selID, limit);
    } else {
      NothingChosen(byWeight, limit);
    }
    ivs := chosen;
    if |chosen| != 0 {
      ivs := SortByTime(chosen);
    }
  }

  /** What the planner chooses, in terms of what the blocks send. The intervals are distinct pairs of consecutive
      sends, in order of their start. Without a budget they are all such pairs. With one they are what greedy
      selection takes of all such pairs, shortest first; every pair left out contains a time that is covered up
      to the limit. */
  ghost predicate Planned(blocks: seq<seq<nat>>, ivs: seq<Interval>, limit: int) {
    && Distinct(ivs) && (forall iv :: iv in ivs ==> Consecutive(blocks, iv))
    && (forall i, j :: 0 <= i < j < |ivs| ==> ivs[i].start <= ivs[j].start)
    && (limit < 1 ==> forall iv :: Consecutive(blocks, iv) ==> iv in ivs)
    && (1 <= limit ==> GreedyChoice(blocks, ivs, limit) && forall iv :: Consecutive(blocks, iv) && iv !in ivs ==>
      exists t :: iv.start <= t < iv.end && Cover(ivs, t) == limit)
  }

  ghost predicate GreedyChoice(blocks: seq<seq<nat>>, ivs: seq<Interval>, limit: int) {
    exists sorted: seq<Interval>, sel: seq<nat> :: ChosenFrom(blocks, ivs, limit, sorted, sel)
  }

  ghost predicate ChosenFrom(blocks: seq<seq<nat>>, ivs: seq<Interval>, limit: int, sorted: seq<Interval>,
                             sel: seq<nat>)
  {
    && ByWeight(sorted) && Distinct(sorted) && (forall iv :: iv in sorted <==> Consecutive(blocks, iv))
    && IsGreedy(sorted, sel, limit, |sorted|) && forall iv :: iv in ivs <==> iv in Gather(sorted, sel)
  }

  lemma NotChosen(blocks: seq<seq<nat>>, ivs: seq<Interval>, limit: int, sorted: seq<Interval>, sel: seq<nat>, i: nat)
    requires ChosenFrom(blocks, ivs, limit, sorted, sel) && i < |sorted| && sorted[i] !in ivs
    ensures i !in sel
  {
    if i in sel {
      GatherMember(sorted, sel, i);
    }
  }

  lemma ChoiceSaturates(blocks: seq<seq<nat>>, ivs: seq<Interval>, limit: int, sorted: seq<Interval>, sel: seq<nat>,
                        iv: Interval)
    requires 1 <= limit && ChosenFrom(blocks, ivs, limit, sorted, sel)
    requires forall t :: Cover(ivs, t) == Cover(Gather(sorted, sel), t)
    requires Consecutive(blocks, iv) && iv !in ivs
    ensures exists t :: iv.start <= t < iv.end && Cover(ivs, t) == limit
  {
    hide Consecutive, Cover, Distinct, Fitted;
    var i :| 0 <= i < |sorted| && sorted[i] == iv;
    NotChosen(blocks, ivs, limit, sorted, sel, i);
    var t, via := GreedyMaximal(sorted, sel, limit, i);
    assert Cover(ivs, t) == limit;
  }

  lemma PlacementIsPlanned(blocks: seq<seq<nat>>, ivs: seq<Interval>, limit: int, sorted: seq<Interval>, sel: seq<nat>)
    requires ByWeight(sorted) && Distinct(sorted) && forall iv :: iv in sorted <==> Consecutive(blocks, iv)
    requires IsGreedy(sorted, sel, limit, |sorted|)
    requires Distinct(ivs) && forall iv :: iv in ivs ==> Consecutive(blocks, iv)
    requires forall i, j :: 0 <= i < j < |ivs| ==> ivs[i].start <= ivs[j].start
    requires 1 <= limit ==>
      (forall iv :: iv in ivs <==> iv in Gather(sorted, sel))
      && forall t :: Cover(ivs, t) == Cover(Gather(sorted, sel), t)
    requires limit < 1 ==> forall iv :: Consecutive(blocks, iv) ==> iv in ivs
    ensures Planned(blocks, ivs, limit)
  {
    hide Consecutive, Cover, Distinct, IsGreedy, ByWeight, Gather;
    if 1 <= limit {
      assert ChosenFrom(blocks, ivs, limit, sorted, sel);
      forall iv | Consecutive(blocks, iv) && iv !in ivs
        ensures exists t :: iv.start <= t < iv.end && Cover(ivs, t) == limit
      {
        ChoiceSaturates(blocks, ivs, limit, sorted, sel, iv);
      }
    }
  }

  lemma GreedyLimit(ivs: seq<Interval>, sel: seq<nat>, limit: int)
    requires IsGreedy(ivs, sel, limit, |ivs|) && Distinct(ivs) && ByWeight(ivs) && |sel| > 0
    ensures 1 <= limit && Distinct(Gather(ivs, sel))
    ensures forall t: nat :: Cover(Gather(ivs, sel), t) <= limit
    ensures forall iv :: iv in Gather(ivs, sel) ==> iv in ivs
  {
    EarlierPrefix(sel, 0);
    assert sel[0] in sel && ivs[sel[0]] in ivs;
    assert Cover(Gather(ivs, Earlier(sel, sel[0])), ivs[sel[0]].start) < limit;
    forall t: nat ensures Cover(Gather(ivs, sel), t) <= limit {
      GreedyFeasible(ivs, sel, limit, t, |sel|);
      assert sel[..|sel|] == sel;
    }
  }

  /** The greedy choice is empty only when there was nothing to choose or no budget. */
  lemma NothingChosen(ivs: seq<Interval>, limit: int)
    requires IsGreedy(ivs, [], limit, |ivs|)
    ensures 1 <= limit ==> ivs == []
  {
    if ivs != [] {
      assert Fitted(ivs, [], limit, 0) ==> 0 in [];
      assert !Room([], ivs[0], limit);
    }
  }

  /** The finished plan stays within the limit for the cache exactly when the limit allows at least
      one slot or no node is ever sent twice: an empty selection is not filtered. */
  lemma LimitRespected(blocks: seq<seq<nat>>, ivs: seq<Interval>, limit: nat)
    requires forall iv :: iv in ivs ==> Consecutive(blocks, iv)
    requires 1 <= limit ==> forall t: nat :: Cover(ivs, t) <= limit
    requires limit < 1 ==> forall iv :: Consecutive(blocks, iv) ==> iv in ivs
    ensures (forall t: nat :: Cover(ivs, t) <= limit)
      <==> (1 <= limit || !exists iv :: Consecutive(blocks, iv))
  {
    if iv :| limit == 0 && Consecutive(blocks, iv) {
      var i :| 0 <= i < |ivs| && ivs[i] == iv;
      CoverMember(ivs, i, iv.start);
    }
    if limit == 0 && |ivs| > 0 {
      assert ivs[0] in ivs;
    }
  }

  lemma {:induction false} CoverMember(ivs: seq<Interval>, i: nat, t: int)
    requires i < |ivs| && ivs[i].start <= t < ivs[i].end
    ensures Cover(ivs, t) >= 1
  {
    if i < |ivs| - 1 {
      CoverMember(ivs[..|ivs| - 1], i, t);
    }
  }

  /** `gen_batch_plan_tensor`: the nodes in the cache after block `t`. */
  function BatchPlan(ivs: seq<Interval>, t: nat): (ids: seq<nat>)
    ensures |ids| == Cover(ivs, t)
    ensures forall v :: v in ids <==> exists iv :: iv in ivs && iv.id == v && iv.start <= t < iv.end
  {
    if |ivs| == 0 then []
    else
      var n := |ivs| - 1;
      var pre := BatchPlan(ivs[..n], t);
      assert forall iv :: iv in ivs <==> iv in ivs[..n] || iv == ivs[n];
      if ivs[n].start <= t < ivs[n].end then pre + [ivs[n].id] else pre
  }

  /** Two intervals of one node share at most an end with a start. */
  lemma NeverOverlap(blocks: seq<seq<nat>>, a: Interval, b: Interval)
    requires Consecutive(blocks, a) && Consecutive(blocks, b) && a.id == b.id && a != b
    ensures a.end <= b.start || b.end <= a.start
  {
  }

  /** So a plan never holds a node twice at a time. */
  lemma {:induction false} PlanDistinct(blocks: seq<seq<nat>>, ivs: seq<Interval>, t: nat)
    requires Distinct(ivs) && forall iv :: iv in ivs ==> Consecutive(blocks, iv)
    ensures Distinct(BatchPlan(ivs, t))
  {
    hide Consecutive, BatchPlan;
    PlanNext(ivs, t);
    if |ivs| > 0 {
      var n := |ivs| - 1;
      PlanDistinct(blocks, ivs[..n], t);
      if ivs[n].start <= t < ivs[n].end {
        if ivs[n].id in BatchPlan(ivs[..n], t) {
          var iv :| iv in ivs[..n] && iv.id == ivs[n].id && iv.start <= t < iv.end;
          NeverOverlap(blocks, iv, ivs[n]);
        }
        JoinDistinct(BatchPlan(ivs[..n], t), [ivs[n].id]);
      }
    }
  }

  lemma PlanNext(ivs: seq<Interval>, t: nat)
    ensures |ivs| == 0 ==> BatchPlan(ivs, t) == []
    ensures |ivs| > 0 ==>
      var n := |ivs| - 1;
      BatchPlan(ivs, t) == BatchPlan(ivs[..n], t) + if ivs[n].start <= t < ivs[n].end then [ivs[n].id] else []
  {
  }

  /** The slot count written for the online side: the largest number of nodes held at once. */
  method SimpleMaxNum(ivs: seq<Interval>, numBatch: nat) returns (maxNum: nat)
    ensures forall t :: 0 <= t < numBatch ==> Cover(ivs, t) <= maxNum
    ensures maxNum == 0 || exists t :: 0 <= t < numBatch && Cover(ivs, t) == maxNum
  {
    maxNum := 0;
    for i := 0 to numBatch
      invariant forall t :: 0 <= t < i ==> Cover(ivs, t) <= maxNum
      invariant maxNum == 0 || exists t :: 0 <= t < i && Cover(ivs, t) == maxNum
    {
      var num := |BatchPlan(ivs, i)|;
      assert Cover(ivs, i) == num;
      if num > maxNum { maxNum := num; }
    }
  }

  // ------------------------------------------------------------------- what the plan tells a block

  /** `IDs[start == i]` */
  function StartsAt(ivs: seq<Interval>, i: nat): (ids: seq<nat>)
    ensures forall v :: v in ids <==> exists iv :: iv in ivs && iv.id == v && iv.start == i
  {
    if |ivs| == 0 then []
    else
      var n := |ivs| - 1;
      assert forall iv :: iv in ivs <==> iv in ivs[..n] || iv == ivs[n];
      StartsAt(ivs[..n], i) + (if ivs[n].start == i then [ivs[n].id] else [])
  }

  /** `IDs[end == i]` */
  function EndsAt(ivs: seq<Interval>, i: nat): (ids: seq<nat>)
    ensures forall v :: v in ids <==> exists iv :: iv in ivs && iv.id == v && iv.end == i
  {
    if |ivs| == 0 then []
    else
      var n := |ivs| - 1;
      assert forall iv :: iv in ivs <==> iv in ivs[..n] || iv == ivs[n];
      EndsAt(ivs[..n], i) + (if ivs[n].end == i then [ivs[n].id] else [])
  }

  /** A block's lists name no node twice: no two intervals of one node start together or end together. */
  lemma {:induction false} StartsDistinct(blocks: seq<seq<nat>>, ivs: seq<Interval>, i: nat)
    requires Distinct(ivs) && forall iv :: iv in ivs ==> Consecutive(blocks, iv)
    ensures Distinct(StartsAt(ivs, i)) && Distinct(EndsAt(ivs, i))
  {
    hide Consecutive, StartsAt, EndsAt;
    ListsNext(ivs, i);
    if |ivs| > 0 {
      var n := |ivs| - 1;
      StartsDistinct(blocks, ivs[..n], i);
      forall iv | iv in ivs[..n] && iv.id == ivs[n].id ensures iv.start != ivs[n].start && iv.end != ivs[n].end {
        assert iv != ivs[n];
        NeverOverlap(blocks, iv, ivs[n]);
        Ascends(blocks, iv);
        Ascends(blocks, ivs[n]);
      }
      if ivs[n].start == i {
        JoinDistinct(StartsAt(ivs[..n], i), [ivs[n].id]);
      }
      if ivs[n].end == i {
        JoinDistinct(EndsAt(ivs[..n], i), [ivs[n].id]);
      }
    }
  }

  lemma Ascends(blocks: seq<seq<nat>>, iv: Interval)
    requires Consecutive(blocks, iv)
    ensures iv.start < iv.end
  {
  }

  lemma ListsNext(ivs: seq<Interval>, i: nat)
    ensures |ivs| == 0 ==> StartsAt(ivs, i) == [] && EndsAt(ivs, i) == []
    ensures |ivs| > 0 ==>
      var n := |ivs| - 1;
      && StartsAt(ivs, i) == StartsAt(ivs[..n], i) + (if ivs[n].start == i then [ivs[n].id] else [])
      && EndsAt(ivs, i) == EndsAt(ivs[..n], i) + (if ivs[n].end == i then [ivs[n].id] else [])
  {
  }

  /** Which rows sent by block `i` go into the cache. */
  function CacheRows(blocks: seq<seq<nat>>, ivs: seq<Interval>, i: nat): (rows: seq<nat>)
    requires i < |blocks|
  {
    Nonzero(Isin(blocks[i], StartsAt(ivs, i)))
  }

  /** Which rows sent by block `i` go to disk. */
  function FlushRows(blocks: seq<seq<nat>>, ivs: seq<Interval>, i: nat): (rows: seq<nat>)
    requires i < |blocks|
  {
    Nonzero(Not(Isin(blocks[i], StartsAt(ivs, i))))
  }

  /** Every row goes either into the cache or to disk, and into the cache exactly if an interval of its node starts
      here. */
  lemma RowsDivided(blocks: seq<seq<nat>>, ivs: seq<Interval>, i: nat, k: nat)
    requires i < |blocks|
    ensures k in CacheRows(blocks, ivs, i) <==>
      k < |blocks[i]| && exists iv :: iv in ivs && iv.id == blocks[i][k] && iv.start == i
    ensures k in FlushRows(blocks, ivs, i) <==> k < |blocks[i]| && k !in CacheRows(blocks, ivs, i)
    ensures StrictlySorted(CacheRows(blocks, ivs, i)) && StrictlySorted(FlushRows(blocks, ivs, i))
  {
    hide StartsAt;
    var mask := Isin(blocks[i], StartsAt(ivs, i));
    MarkedPlace(mask, k);
    MarkedPlace(Not(mask), k);
  }

  lemma MarkedPlace(mask: seq<bool>, k: nat)
    ensures k in Nonzero(mask) <==> k < |mask| && mask[k]
  {
    hide Nonzero;
  }

  /** The six files the plan is stored in. */
  datatype PlanFiles = PlanFiles(
    startCacheInd: seq<nat>, startCachePtr: seq<nat>,
    startFlushInd: seq<nat>, startFlushPtr: seq<nat>,
    endFlushIdx: seq<nat>, endFlushPtr: seq<nat>)

  /** The files hold, for every block, its rows for the cache, its rows for disk and its releases. */
  ghost predicate FilesOf(files: PlanFiles, blocks: seq<seq<nat>>, ivs: seq<Interval>) {
    && CsrOf(files.startCacheInd, files.startCachePtr, CacheLists(blocks, ivs, |blocks|))
    && CsrOf(files.startFlushInd, files.startFlushPtr, FlushLists(blocks, ivs, |blocks|))
    && CsrOf(files.endFlushIdx, files.endFlushPtr, EndLists(ivs, |blocks|))
  }

  ghost function CacheLists(blocks: seq<seq<nat>>, ivs: seq<Interval>, n: nat): (r: seq<seq<nat>>)
    requires n <= |blocks|
    ensures |r| == n && forall i :: 0 <= i < n ==> r[i] == CacheRows(blocks, ivs, i)
  {
    if n == 0 then [] else CacheLists(blocks, ivs, n - 1) + [CacheRows(blocks, ivs, n - 1)]
  }

  ghost function FlushLists(blocks: seq<seq<nat>>, ivs: seq<Interval>, n: nat): (r: seq<seq<nat>>)
    requires n <= |blocks|
    ensures |r| == n && forall i :: 0 <= i < n ==> r[i] == FlushRows(blocks, ivs, i)
  {
    if n == 0 then [] else FlushLists(blocks, ivs, n - 1) + [FlushRows(blocks, ivs, n - 1)]
  }

  ghost function EndLists(ivs: seq<Interval>, n: nat): (r: seq<seq<nat>>)
    ensures |r| == n && forall i :: 0 <= i < n ==> r[i] == EndsAt(ivs, i)
  {
    if n == 0 then [] else EndLists(ivs, n - 1) + [EndsAt(ivs, n - 1)]
  }

  /** `gen_simple`: flat lists with pointer arrays, summed up at the end. */
  method GenSimple(blocks: seq<seq<nat>>, ivs: seq<Interval>) returns (files: PlanFiles)
    ensures FilesOf(files, blocks, ivs)
  {
    var cacheInd: seq<nat>, flushInd: seq<nat>, endIdx: seq<nat> := [], [], [];
    var cacheNum: seq<nat>, flushNum: seq<nat>, endNum: seq<nat> := [0], [0], [0];
    for i := 0 to |blocks|
      invariant |cacheNum| == |flushNum| == |endNum| == i + 1
      invariant CsrOf(cacheInd, CumSum(cacheNum), CacheLists(blocks, ivs, i))
      invariant CsrOf(flushInd, CumSum(flushNum), FlushLists(blocks, ivs, i))
      invariant CsrOf(endIdx, CumSum(endNum), EndLists(ivs, i))
    {
      var mask := Isin(blocks[i], StartsAt(ivs, i));
      var cache, flush, ends := Nonzero(mask), Nonzero(Not(mask)), EndsAt(ivs, i);
      CumSumCounts(CacheLists(blocks, ivs, i), cacheNum, cache);
      CumSumCounts(FlushLists(blocks, ivs, i), flushNum, flush);
      CumSumCounts(EndLists(ivs, i), endNum, ends);
      cacheInd, flushInd, endIdx := cacheInd + cache, flushInd + flush, endIdx + ends;
      cacheNum, flushNum, endNum := cacheNum + [|cache|], flushNum + [|flush|], endNum + [|ends|];
    }
    files := PlanFiles(cacheInd, CumSum(cacheNum), flushInd, CumSum(flushNum), endIdx, CumSum(endNum));
  }
}
