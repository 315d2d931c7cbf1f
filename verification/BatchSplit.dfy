/** The adaptive batch splitter (eid_analyze/eid_analyze_parallel.py). Each large block of edges is cut
    into batches whose staleness, the number of repeated end points, reaches a threshold. */
module BatchSplit {
  import opened Common
  import opened Tensors

  const WINDOW: nat := 2000

  datatype Edges = Edges(src: seq<nat>, dst: seq<nat>)

  ghost predicate Known(d: Edges, eids: seq<nat>) {
    |d.src| == |d.dst| && InRange(eids, |d.src|)
  }

  // ------------------------------------------------------------------------------------ staleness

  /** The end points of the edges. */
  function Nodes(d: Edges, eids: seq<nat>): (nodes: set<nat>)
    requires Known(d, eids)
  {
    if |eids| == 0 then {}
    else Nodes(d, eids[..|eids| - 1]) + {d.src[eids[|eids| - 1]], d.dst[eids[|eids| - 1]]}
  }

  /** `calculate_staleness`: how often an end point of these edges repeats an earlier one. */
  function Staleness(d: Edges, eids: seq<nat>): (s: int)
    requires Known(d, eids)
  {
    2 * |eids| - |Nodes(d, eids)|
  }

  /** `calculate_delta` */
  function Delta(d: Edges, e: nat, nodes: set<nat>): (s: int)
    requires Known(d, [e]) && [e][0] == e
  {
    2 - ((if d.src[e] !in nodes then 1 else 0) + (if d.dst[e] !in nodes then 1 else 0))
  }

  /** An edge from a node not seen before to itself. */
  predicate NewLoop(d: Edges, e: nat, nodes: set<nat>)
    requires |d.src| == |d.dst| && e < |d.src|
  {
    d.src[e] == d.dst[e] && d.src[e] !in nodes
  }

  /** How many edges of the batch, from its `from`-th on, are new loops when their turn comes. */
  function NewLoops(d: Edges, from: nat, batch: seq<nat>): (n: nat)
    requires Known(d, batch)
  {
    if |batch| <= from then 0
    else
      var m := |batch| - 1;
      NewLoops(d, from, batch[..m]) + (if NewLoop(d, batch[m], Nodes(d, batch[..m])) then 1 else 0)
  }

  /** What `batch_staleness` holds for a batch whose first `from` edges were the initial window. */
  function Counted(d: Edges, from: nat, batch: seq<nat>): (s: int)
    requires Known(d, batch)
  {
    Staleness(d, batch) - NewLoops(d, from, batch)
  }

  lemma AddEdge(d: Edges, batch: seq<nat>, e: nat)
    requires Known(d, batch) && e < |d.src|
    ensures Known(d, batch + [e]) && Nodes(d, batch + [e]) == Nodes(d, batch) + {d.src[e], d.dst[e]}
  {
    assert (batch + [e])[..|batch|] == batch;
  }

  lemma Grow(nodes: set<nat>, a: nat, b: nat)
    ensures |nodes + {a, b}| == |nodes| + (if a !in nodes then 1 else 0) + (if b !in nodes && a != b then 1 else 0)
  {
    assert nodes + {a, b} == (nodes + {a}) + {b};
    assert a in nodes ==> nodes + {a} == nodes;
    assert b in nodes + {a} ==> (nodes + {a}) + {b} == nodes + {a};
  }

  /** The running count follows the true staleness, but for a new loop: the count gives it 0, although one of
      its two end points does repeat the other. */
  lemma CountStep(d: Edges, from: nat, batch: seq<nat>, e: nat)
    requires Known(d, batch) && e < |d.src| && from <= |batch|
    ensures Known(d, batch + [e])
    ensures Counted(d, from, batch + [e]) == Counted(d, from, batch) + Delta(d, e, Nodes(d, batch))
  {
    AddEdge(d, batch, e);
    Grow(Nodes(d, batch), d.src[e], d.dst[e]);
    assert (batch + [e])[..|batch|] == batch;
  }

  /** Without loops among the edges the count is the staleness. */
  lemma {:induction false} CountedExact(d: Edges, from: nat, batch: seq<nat>)
    requires Known(d, batch) && forall k :: from <= k < |batch| ==> d.src[batch[k]] != d.dst[batch[k]]
    ensures Counted(d, from, batch) == Staleness(d, batch)
  {
    if |batch| > from {
      CountedExact(d, from, batch[..|batch| - 1]);
    }
  }

  // ------------------------------------------------------------------------- the extension of a batch

  /** Where the scan over the remaining edges stands: which it has taken, and what it has counted. */
  datatype Scan = Scan(nodes: set<nat>, staleness: int, taken: seq<bool>)

  /** The scan of these edges: until the threshold is reached, those that bring in a node are taken. */
  function Extend(d: Edges, threshold: int, nodes: set<nat>, staleness: int, cur: seq<nat>): (s: Scan)
    requires Known(d, cur)
    ensures |s.taken| == |cur|
  {
    if |cur| == 0 then Scan(nodes, staleness, [])
    else
      var n := |cur| - 1;
      var s := Extend(d, threshold, nodes, staleness, cur[..n]);
      if s.staleness >= threshold || Delta(d, cur[n], s.nodes) == 2 then s.(taken := s.taken + [false])
      else Scan(s.nodes + {d.src[cur[n]], d.dst[cur[n]]}, s.staleness + Delta(d, cur[n], s.nodes), s.taken + [true])
  }

  lemma SelectPush<T>(s: seq<T>, mask: seq<bool>, x: T, b: bool)
    requires |s| == |mask|
    ensures Select(s + [x], mask + [b]) == Select(s, mask) + (if b then [x] else [])
  {
    assert (mask + [b])[..|mask|] == mask;
    var idx := Nonzero(mask);
    assert Nonzero(mask + [b]) == if b then idx + [|mask|] else idx;
  }

  /** What the scan counts is what the lengthened batch counts, and its nodes are the batch's. */
  lemma {:induction false} ExtendCounts(d: Edges, threshold: int, window: seq<nat>, cur: seq<nat>)
    requires Known(d, window) && Known(d, cur)
    ensures var s := Extend(d, threshold, Nodes(d, window), Staleness(d, window), cur);
      var batch := window + Select(cur, s.taken);
      && Known(d, batch) && s.nodes == Nodes(d, batch) && s.staleness == Counted(d, |window|, batch)
      && s.staleness <= Max(Staleness(d, window), threshold)
      && s.staleness >= Staleness(d, window)
  {
    hide NewLoops, Nodes, Counted, Staleness, Select, Extend, Delta;
    var s := Extend(d, threshold, Nodes(d, window), Staleness(d, window), cur);
    if |cur| == 0 {
      ExtendNone(d, threshold, window, cur);
    } else {
      var n := |cur| - 1;
      var p := Extend(d, threshold, Nodes(d, window), Staleness(d, window), cur[..n]);
      ExtendCounts(d, threshold, window, cur[..n]);
      ExtendStep(d, threshold, Nodes(d, window), Staleness(d, window), cur);
      assert cur == cur[..n] + [cur[n]];
      var batch := window + Select(cur[..n], p.taken);
      SelectPush(cur[..n], p.taken, cur[n], s.taken[n]);
      if s.taken[n] {
        AddEdge(d, batch, cur[n]);
        CountStep(d, |window|, batch, cur[n]);
        assert window + Select(cur, s.taken) == batch + [cur[n]];
      } else {
        assert window + Select(cur, s.taken) == batch;
      }
    }
  }

  lemma ExtendNone(d: Edges, threshold: int, window: seq<nat>, cur: seq<nat>)
    requires Known(d, window) && Known(d, cur) && |cur| == 0
    ensures var s := Extend(d, threshold, Nodes(d, window), Staleness(d, window), cur);
      && window + Select(cur, s.taken) == window && s.nodes == Nodes(d, window)
      && s.staleness == Staleness(d, window) == Counted(d, |window|, window)
  {
    assert forall m: seq<bool> :: |m| == 0 ==> Select(cur, m) == [];
  }

  lemma ExtendStep(d: Edges, threshold: int, nodes: set<nat>, staleness: int, cur: seq<nat>)
    requires Known(d, cur) && |cur| > 0
    ensures var n := |cur| - 1;
      var s, p := Extend(d, threshold, nodes, staleness, cur), Extend(d, threshold, nodes, staleness, cur[..n]);
      && s.taken == p.taken + [s.taken[n]] && Known(d, [cur[n]]) && 0 <= Delta(d, cur[n], p.nodes)
      && (s.taken[n] <==> p.staleness < threshold && Delta(d, cur[n], p.nodes) <= 1)
      && s.nodes == (if s.taken[n] then p.nodes + {d.src[cur[n]], d.dst[cur[n]]} else p.nodes)
      && s.staleness == p.staleness + (if s.taken[n] then Delta(d, cur[n], p.nodes) else 0)
  {
  }

  /** If the scan ends below the threshold, the edges it left bring in no node. */
  lemma {:induction false} ExtendLeaves(d: Edges, threshold: int, nodes: set<nat>, staleness: int, cur: seq<nat>,
                                        k: nat)
    requires Known(d, cur) && k < |cur|
    requires Extend(d, threshold, nodes, staleness, cur).staleness < threshold
    requires !Extend(d, threshold, nodes, staleness, cur).taken[k]
    ensures d.src[cur[k]] in Extend(d, threshold, nodes, staleness, cur).nodes
    ensures d.dst[cur[k]] in Extend(d, threshold, nodes, staleness, cur).nodes
  {
    if k < |cur| - 1 {
      ExtendLeaves(d, threshold, nodes, staleness, cur[..|cur| - 1], k);
    }
  }

  /** Edges that bring in no node count 2 each. */
  lemma {:induction false} PadCounts(d: Edges, from: nat, batch: seq<nat>, pad: seq<nat>)
    requires Known(d, batch) && Known(d, pad) && from <= |batch|
    requires forall k :: 0 <= k < |pad| ==> d.src[pad[k]] in Nodes(d, batch) && d.dst[pad[k]] in Nodes(d, batch)
    ensures Known(d, batch + pad) && Nodes(d, batch + pad) == Nodes(d, batch)
    ensures Counted(d, from, batch + pad) == Counted(d, from, batch) + 2 * |pad|
  {
    if |pad| == 0 {
      assert batch + pad == batch;
    } else {
      hide Counted, Nodes;
      var n := |pad| - 1;
      PadCounts(d, from, batch, pad[..n]);
      assert batch + pad == (batch + pad[..n]) + [pad[n]];
      CountStep(d, from, batch + pad[..n], pad[n]);
      AddEdge(d, batch + pad[..n], pad[n]);
    }
  }

  // ------------------------------------------------------------------------------- taking edges out

  /** `del s[i]` for every index of the list, from the last to the first. */
  function Removed<T>(s: seq<T>, idx: seq<nat>): (r: seq<T>)
    requires StrictlySorted(idx) && InRange(idx, |s|)
  {
    if |idx| == 0 then s
    else
      var k := idx[|idx| - 1];
      Removed(s[..k] + s[k + 1..], idx[..|idx| - 1])
  }

  lemma {:induction false} RemovedPush<T>(s: seq<T>, idx: seq<nat>, x: T)
    requires StrictlySorted(idx) && InRange(idx, |s|)
    ensures Removed(s + [x], idx) == Removed(s, idx) + [x]
  {
    if |idx| > 0 {
      var k := idx[|idx| - 1];
      assert (s + [x])[..k] + (s + [x])[k + 1..] == (s[..k] + s[k + 1..]) + [x];
      RemovedPush(s[..k] + s[k + 1..], idx[..|idx| - 1], x);
    }
  }

  /** Deleting the marked places leaves the unmarked ones. */
  lemma {:induction false} RemovedIsRest<T>(s: seq<T>, mask: seq<bool>)
    requires |s| == |mask|
    ensures Removed(s, Nonzero(mask)) == Select(s, Not(mask))
  {
    hide Select, Nonzero, Not, Removed;
    if |s| > 0 {
      var n := |s| - 1;
      RemovedIsRest(s[..n], mask[..n]);
      RestLast(s, mask);
      RemovedNext(s, mask);
    } else {
      RestNone(s, mask);
    }
  }

  lemma RestNone<T>(s: seq<T>, mask: seq<bool>)
    requires |s| == |mask| == 0
    ensures Removed(s, Nonzero(mask)) == [] && Select(s, mask) == [] && Select(s, Not(mask)) == []
  {
  }

  lemma SelectLast<T>(s: seq<T>, mask: seq<bool>)
    requires |s| == |mask| > 0
    ensures var n := |s| - 1;
      Select(s, mask) == Select(s[..n], mask[..n]) + (if mask[n] then [s[n]] else [])
  {
    hide Select;
    var n := |s| - 1;
    assert s == s[..n] + [s[n]] && mask == mask[..n] + [mask[n]];
    SelectPush(s[..n], mask[..n], s[n], mask[n]);
  }

  lemma RestLast<T>(s: seq<T>, mask: seq<bool>)
    requires |s| == |mask| > 0
    ensures var n := |s| - 1;
      Select(s, Not(mask)) == Select(s[..n], Not(mask[..n])) + (if mask[n] then [] else [s[n]])
  {
    hide Select, Not;
    NotPush(mask);
    SelectLast(s, Not(mask));
    assert Not(mask)[..|s| - 1] == Not(mask[..|s| - 1]);
  }

  lemma SplitLast<T>(s: seq<T>)
    requires |s| > 0
    ensures s == s[..|s| - 1] + [s[|s| - 1]]
  {
  }

  lemma RemovedNext<T>(s: seq<T>, mask: seq<bool>)
    requires |s| == |mask| > 0
    ensures var n := |s| - 1;
      Removed(s, Nonzero(mask)) == Removed(s[..n], Nonzero(mask[..n])) + (if mask[n] then [] else [s[n]])
  {
    hide Removed, Nonzero, StrictlySorted, InRange;
    var n := |s| - 1;
    SplitLast(s);
    NonzeroPush(mask);
    RemovedPushed(s[..n], s[n], s, Nonzero(mask[..n]), Nonzero(mask), mask[n]);
  }

  lemma RemovedPushed<T>(front: seq<T>, x: T, s: seq<T>, pre: seq<nat>, idx: seq<nat>, last: bool)
    requires s == front + [x] && StrictlySorted(pre) && InRange(pre, |front|)
    requires idx == if last then pre + [|front|] else pre
    ensures StrictlySorted(idx) && InRange(idx, |s|)
    ensures Removed(s, idx) == if last then Removed(front, pre) else Removed(front, pre) + [x]
  {
    hide Removed;
    if last {
      RemovedStep(front, x, s, idx, pre);
    } else {
      RemovedPush(front, pre, x);
    }
  }

  lemma NotPush(mask: seq<bool>)
    requires |mask| > 0
    ensures Not(mask) == Not(mask[..|mask| - 1]) + [!mask[|mask| - 1]]
    ensures |Not(mask)| == |mask| && |Not(mask[..|mask| - 1])| == |mask| - 1
  {
  }

  lemma RemovedStep<T>(front: seq<T>, x: T, s: seq<T>, idx: seq<nat>, pre: seq<nat>)
    requires s == front + [x] && StrictlySorted(pre) && InRange(pre, |front|) && idx == pre + [|front|]
    ensures StrictlySorted(idx) && InRange(idx, |s|) && Removed(s, idx) == Removed(front, pre)
  {
    var n := |front|;
    assert idx[..|idx| - 1] == pre && idx[|idx| - 1] == n;
    assert s[..n] + s[n + 1..] == front;
  }

  /** The marked and the unmarked are together all, each once. */
  lemma {:induction false} SelectParts<T>(s: seq<T>, mask: seq<bool>)
    requires |s| == |mask|
    ensures multiset(s) == multiset(Select(s, mask)) + multiset(Select(s, Not(mask)))
    ensures |s| == |Select(s, mask)| + |Select(s, Not(mask))|
  {
    hide Select, Nonzero, Not, Removed;
    if |s| > 0 {
      var n := |s| - 1;
      SelectParts(s[..n], mask[..n]);
      SelectLast(s, mask);
      RestLast(s, mask);
      SplitLast(s);
      PartsPush(s[..n], s[n], s, Select(s[..n], mask[..n]), Select(s, mask), Select(s[..n], Not(mask[..n])),
                Select(s, Not(mask)), mask[n]);
    } else {
      RestNone(s, mask);
    }
  }

  lemma PartsPush<T>(front: seq<T>, x: T, s: seq<T>, a: seq<T>, a': seq<T>, b: seq<T>, b': seq<T>, marked: bool)
    requires multiset(front) == multiset(a) + multiset(b) && |front| == |a| + |b| && s == front + [x]
    requires a' == a + (if marked then [x] else []) && b' == b + (if marked then [] else [x])
    ensures multiset(s) == multiset(a') + multiset(b') && |s| == |a'| + |b'|
  {
  }

  /** `while i > -1: del cur_eid[incre_eid_idx[i]]` */
  method Delete(cur0: seq<nat>, idx: seq<nat>) returns (cur: seq<nat>)
    requires StrictlySorted(idx) && InRange(idx, |cur0|)
    ensures cur == Removed(cur0, idx)
  {
    cur := cur0;
    var i := |idx| - 1;
    assert idx[..|idx|] == idx;
    while i > -1
      invariant -1 <= i < |idx| && InRange(idx[..i + 1], |cur|)
      invariant Removed(cur, idx[..i + 1]) == Removed(cur0, idx)
    {
      assert idx[..i + 1][..i] == idx[..i];
      cur := cur[..idx[i]] + cur[idx[i] + 1..];
      i := i - 1;
    }
  }

  // ---------------------------------------------------------------------------------- one batch

  /** How many of the `n` remaining edges the padding takes. */
  function Pad(staleness: int, threshold: int, n: nat): (k: nat)
    ensures k <= n
    ensures staleness + 2 * k >= threshold || k == n
    ensures staleness + 2 * k <= Max(staleness, threshold + 1)
    decreases n
  {
    if n == 0 || staleness >= threshold then 0 else 1 + Pad(staleness + 2, threshold, n - 1)
  }

  function Window(cur: seq<nat>): (w: nat)
    ensures w <= |cur| && w <= WINDOW
  {
    Min(WINDOW, |cur|)
  }

  /** The scan that extends the batch which starts these edges. */
  function ScanOf(d: Edges, threshold: int, cur: seq<nat>): (s: Scan)
    requires Known(d, cur)
    ensures |s.taken| == |cur| - Window(cur)
  {
    var w := Window(cur);
    Extend(d, threshold, Nodes(d, cur[..w]), Staleness(d, cur[..w]), cur[w..])
  }

  /** The next batch of these edges, and the edges that remain. */
  function Taken(d: Edges, threshold: int, cur: seq<nat>): (r: (seq<nat>, seq<nat>))
    requires Known(d, cur)
  {
    var w, s := Window(cur), ScanOf(d, threshold, cur);
    var left := Select(cur[w..], Not(s.taken));
    var k := Pad(s.staleness, threshold, |left|);
    (cur[..w] + Select(cur[w..], s.taken) + left[..k], left[k..])
  }

  /** Nothing is lost and nothing is taken twice. */
  lemma TakenParts(d: Edges, threshold: int, cur: seq<nat>)
    requires Known(d, cur)
    ensures var (batch, rest) := Taken(d, threshold, cur);
      && multiset(cur) == multiset(batch) + multiset(rest)
      && cur[..Window(cur)] <= batch && (|cur| > 0 ==> |rest| < |cur|)
      && Known(d, batch) && Known(d, rest)
  {
    hide Extend, Nodes, Staleness, Select, Not, Pad, ScanOf;
    var w, s := Window(cur), ScanOf(d, threshold, cur);
    SelectParts(cur[w..], s.taken);
    var ext, left := Select(cur[w..], s.taken), Select(cur[w..], Not(s.taken));
    FourParts(cur, w, ext, left, Pad(s.staleness, threshold, |left|));
    PartsKnown(d, cur, Taken(d, threshold, cur).0, Taken(d, threshold, cur).1);
  }

  /** The initial window is the first 2000 edges, or all if there are fewer. */
  lemma FirstWindow(d: Edges, threshold: int, cur: seq<nat>)
    requires Known(d, cur)
    ensures |cur| <= 2000 ==> Taken(d, threshold, cur) == (cur, [])
    ensures |cur| > 2000 ==> cur[..2000] <= Taken(d, threshold, cur).0
    ensures |cur| > 2000 && Staleness(d, cur[..2000]) >= threshold ==>
      Taken(d, threshold, cur) == (cur[..2000], cur[2000..])
  {
    hide Extend, Nodes, Staleness, Select, Not;
    var w, s := Window(cur), ScanOf(d, threshold, cur);
    var tail := cur[w..];
    if |cur| <= 2000 {
      assert tail == [] && cur[..w] == cur;
      RestNone(tail, s.taken);
      assert cur[..w] + [] + [] == cur;
    } else {
      assert cur[..w] <= cur[..w] + Select(tail, s.taken);
      if Staleness(d, cur[..w]) >= threshold {
        StopsAtOnce(d, threshold, Nodes(d, cur[..w]), Staleness(d, cur[..w]), tail);
        assert tail[..0] == [] && tail[0..] == tail && cur[..w] + [] + [] == cur[..w];
      }
    }
  }

  /** A scan that starts at the threshold takes nothing. */
  lemma {:induction false} StopsAtOnce(d: Edges, threshold: int, nodes: set<nat>, staleness: int, cur: seq<nat>)
    requires Known(d, cur) && staleness >= threshold
    ensures var s := Extend(d, threshold, nodes, staleness, cur);
      s.staleness == staleness && Select(cur, s.taken) == [] && Select(cur, Not(s.taken)) == cur
  {
    hide Select, Not;
    var s := Extend(d, threshold, nodes, staleness, cur);
    if |cur| > 0 {
      var n := |cur| - 1;
      StopsAtOnce(d, threshold, nodes, staleness, cur[..n]);
      SelectLast(cur, s.taken);
      RestLast(cur, s.taken);
      assert s.taken[..n] == Extend(d, threshold, nodes, staleness, cur[..n]).taken;
    } else {
      RestNone(cur, s.taken);
    }
  }

  lemma FourParts(cur: seq<nat>, w: nat, ext: seq<nat>, left: seq<nat>, k: nat)
    requires w <= |cur| && k <= |left| && (|cur| > 0 ==> w > 0)
    requires multiset(cur[w..]) == multiset(ext) + multiset(left) && |cur[w..]| == |ext| + |left|
    ensures multiset(cur) == multiset(cur[..w] + ext + left[..k]) + multiset(left[k..])
    ensures cur[..w] <= cur[..w] + ext + left[..k] && (|cur| > 0 ==> |left[k..]| < |cur|)
  {
    assert cur == cur[..w] + cur[w..] && left == left[..k] + left[k..];
  }

  lemma PartsKnown(d: Edges, cur: seq<nat>, batch: seq<nat>, rest: seq<nat>)
    requires Known(d, cur) && multiset(cur) == multiset(batch) + multiset(rest)
    ensures Known(d, batch) && Known(d, rest)
    ensures forall e :: e in batch || e in rest ==> e in cur
  {
    forall e | e in batch || e in rest ensures e in cur {
      assert e in multiset(batch) + multiset(rest);
    }
    forall k | 0 <= k < |batch| ensures batch[k] in cur {
      assert batch[k] in batch;
    }
    forall k | 0 <= k < |rest| ensures rest[k] in cur {
      assert rest[k] in rest;
    }
  }

  /** The edges that remain keep their order and come after the first of the batch. */
  lemma TakenSorted(d: Edges, threshold: int, cur: seq<nat>)
    requires Known(d, cur) && StrictlySorted(cur) && |cur| > 0
    ensures var (batch, rest) := Taken(d, threshold, cur);
      && |batch| > 0 && batch[0] == cur[0] && StrictlySorted(rest)
      && forall e :: e in rest ==> cur[0] < e
  {
    var w, s := Window(cur), ScanOf(d, threshold, cur);
    SelectSorted(cur[w..], Not(s.taken));
    SelectMembers(cur[w..], Not(s.taken));
    hide Extend, Nodes, Staleness, Select;
  }

  /** What the batch's staleness is: the count is the true staleness less the new loops; it reaches the
      threshold unless no edge remains; and it does not exceed the threshold by more than 1 unless its initial
      window already did. */
  lemma TakenStaleness(d: Edges, threshold: int, cur: seq<nat>)
    requires Known(d, cur)
    ensures Known(d, Taken(d, threshold, cur).0) && Known(d, cur[..Window(cur)])
    ensures var (batch, rest) := Taken(d, threshold, cur);
      && (Counted(d, Window(cur), batch) >= threshold || rest == [])
      && Staleness(d, cur[..Window(cur)]) <= Counted(d, Window(cur), batch)
      && Counted(d, Window(cur), batch) <= Max(Staleness(d, cur[..Window(cur)]), threshold + 1)
  {
    var w, s := Window(cur), ScanOf(d, threshold, cur);
    var tail := cur[w..];
    hide Counted, Select, Extend, Staleness, Nodes, Not;
    ExtendCounts(d, threshold, cur[..w], tail);
    var left := Select(tail, Not(s.taken));
    var k := Pad(s.staleness, threshold, |left|);
    var batch := cur[..w] + Select(tail, s.taken);
    if s.staleness < threshold {
      LeftBringNothing(d, threshold, cur);
      PadCounts(d, w, batch, left[..k]);
    } else {
      assert batch + left[..k] == batch;
    }
  }

  lemma LeftBringNothing(d: Edges, threshold: int, cur: seq<nat>)
    requires Known(d, cur) && ScanOf(d, threshold, cur).staleness < threshold
    ensures var s := ScanOf(d, threshold, cur);
      var left := Select(cur[Window(cur)..], Not(s.taken));
      Known(d, left) && forall k :: 0 <= k < |left| ==> d.src[left[k]] in s.nodes && d.dst[left[k]] in s.nodes
  {
    var w, s := Window(cur), ScanOf(d, threshold, cur);
    var tail := cur[w..];
    var left := Select(tail, Not(s.taken));
    forall k | 0 <= k < |left| ensures left[k] < |d.src| && d.src[left[k]] in s.nodes && d.dst[left[k]] in s.nodes {
      var i := Nonzero(Not(s.taken))[k];
      assert Not(s.taken)[i] && left[k] == tail[i];
      ExtendLeaves(d, threshold, Nodes(d, cur[..w]), Staleness(d, cur[..w]), tail, i);
    }
  }

  /** The nodes of the initial window. */
  method WindowNodes(d: Edges, eids: seq<nat>) returns (nodes: set<nat>)
    requires Known(d, eids)
    ensures nodes == Nodes(d, eids)
  {
    nodes := {};
    for i := 0 to |eids|
      invariant nodes == Nodes(d, eids[..i])
    {
      assert eids[..i + 1] == eids[..i] + [eids[i]];
      AddEdge(d, eids[..i], eids[i]);
      nodes := nodes + {d.src[eids[i]]};
      nodes := nodes + {d.dst[eids[i]]};
    }
    assert eids[..|eids|] == eids;
  }

  lemma {:induction false} ExtendStops(d: Edges, threshold: int, nodes: set<nat>, staleness: int, cur: seq<nat>, k: nat)
    requires Known(d, cur) && k <= |cur|
    requires k < |cur| ==> Extend(d, threshold, nodes, staleness, cur[..k]).staleness >= threshold
    ensures var s, p := Extend(d, threshold, nodes, staleness, cur), Extend(d, threshold, nodes, staleness, cur[..k]);
      && s.nodes == p.nodes && s.staleness == p.staleness
      && Select(cur, s.taken) == Select(cur[..k], p.taken) && Nonzero(s.taken) == Nonzero(p.taken)
  {
    if k < |cur| {
      var n := |cur| - 1;
      var p := Extend(d, threshold, nodes, staleness, cur[..n]);
      assert cur[..n][..k] == cur[..k];
      ExtendStops(d, threshold, nodes, staleness, cur[..n], k);
      StopPush(cur, p.taken);
    } else {
      assert cur[..k] == cur;
    }
  }

  lemma StopPush(cur: seq<nat>, taken: seq<bool>)
    requires |cur| == |taken| + 1
    ensures Select(cur, taken + [false]) == Select(cur[..|taken|], taken)
    ensures Nonzero(taken + [false]) == Nonzero(taken)
  {
    assert cur == cur[..|taken|] + [cur[|taken|]] && (taken + [false])[..|taken|] == taken;
    SelectPush(cur[..|taken|], taken, cur[|taken|], false);
  }

  /** The extension loop: the edges it takes, and their places. */
  method ScanRest(d: Edges, threshold: int, nodes0: set<nat>, staleness0: int, cur: seq<nat>)
    returns (staleness: int, increEid: seq<nat>, increEidIdx: seq<nat>)
    requires Known(d, cur)
    ensures var s := Extend(d, threshold, nodes0, staleness0, cur);
      staleness == s.staleness && increEid == Select(cur, s.taken) && increEidIdx == Nonzero(s.taken)
  {
    hide Extend, Select, Nonzero;
    ExtendEmpty(d, threshold, nodes0, staleness0, cur);
    var nodes, eidIdx := nodes0, 0;
    staleness, increEid, increEidIdx := staleness0, [], [];
    while eidIdx < |cur| && staleness < threshold
      invariant eidIdx <= |cur|
      invariant Scanned(d, threshold, nodes0, staleness0, cur[..eidIdx], nodes, staleness, increEid, increEidIdx)
    {
      var eid := cur[eidIdx];
      ScanStep(d, threshold, nodes0, staleness0, cur, eidIdx, nodes, staleness, increEid, increEidIdx);
      assert [eid][0] == eid;
      var delta := Delta(d, eid, nodes);
      if delta != 2 {
        nodes := nodes + {d.src[eid], d.dst[eid]};
        staleness := staleness + delta;
        increEid := increEid + [eid];
        increEidIdx := increEidIdx + [eidIdx];
      }
      eidIdx := eidIdx + 1;
    }
    ScanEnd(d, threshold, nodes0, staleness0, cur, eidIdx, nodes, staleness, increEid, increEidIdx);
  }

  /** The loop's variables stand where the scan of these edges ends. */
  ghost predicate Scanned(d: Edges, threshold: int, nodes0: set<nat>, staleness0: int, cur: seq<nat>,
                          nodes: set<nat>, staleness: int, increEid: seq<nat>, increEidIdx: seq<nat>)
    requires Known(d, cur)
  {
    var s := Extend(d, threshold, nodes0, staleness0, cur);
    && nodes == s.nodes && staleness == s.staleness
    && increEid == Select(cur, s.taken) && increEidIdx == Nonzero(s.taken)
  }

  lemma ExtendEmpty(d: Edges, threshold: int, nodes: set<nat>, staleness: int, cur: seq<nat>)
    requires Known(d, cur)
    ensures Known(d, cur[..0]) && Scanned(d, threshold, nodes, staleness, cur[..0], nodes, staleness, [], [])
  {
  }

  lemma ScanStep(d: Edges, threshold: int, nodes0: set<nat>, staleness0: int, cur: seq<nat>, k: nat,
                 nodes: set<nat>, staleness: int, increEid: seq<nat>, increEidIdx: seq<nat>)
    requires Known(d, cur) && k < |cur| && staleness < threshold
    requires Scanned(d, threshold, nodes0, staleness0, cur[..k], nodes, staleness, increEid, increEidIdx)
    ensures Known(d, [cur[k]]) && [cur[k]][0] == cur[k]
    ensures var delta := Delta(d, cur[k], nodes);
      if delta == 2
      then Scanned(d, threshold, nodes0, staleness0, cur[..k + 1], nodes, staleness, increEid, increEidIdx)
      else Scanned(d, threshold, nodes0, staleness0, cur[..k + 1], nodes + {d.src[cur[k]], d.dst[cur[k]]},
                   staleness + delta, increEid + [cur[k]], increEidIdx + [k])
  {
    hide Extend, Select, Nonzero, Delta;
    var s := Extend(d, threshold, nodes0, staleness0, cur[..k]);
    var s' := Extend(d, threshold, nodes0, staleness0, cur[..k + 1]);
    PrefixPush(cur, k);
    DeltaRange(d, cur[k], s.nodes);
    ExtendStep(d, threshold, nodes0, staleness0, cur[..k + 1]);
    TakenPush(cur[..k], s.taken, cur[k], s'.taken[k]);
  }

  lemma DeltaRange(d: Edges, e: nat, nodes: set<nat>)
    requires Known(d, [e]) && [e][0] == e
    ensures 0 <= Delta(d, e, nodes) <= 2
  {
  }

  lemma PrefixPush(cur: seq<nat>, k: nat)
    requires k < |cur|
    ensures cur[..k + 1] == cur[..k] + [cur[k]] && cur[..k + 1][..k] == cur[..k] && cur[..k + 1][k] == cur[k]
  {
  }

  lemma TakenPush(cur: seq<nat>, taken: seq<bool>, eid: nat, b: bool)
    requires |cur| == |taken|
    ensures Select(cur + [eid], taken + [b]) == Select(cur, taken) + (if b then [eid] else [])
    ensures Nonzero(taken + [b]) == Nonzero(taken) + (if b then [|taken|] else [])
  {
    hide Select, Nonzero;
    SelectPush(cur, taken, eid, b);
    NonzeroPush(taken + [b]);
    assert (taken + [b])[..|taken|] == taken;
  }

  lemma ScanEnd(d: Edges, threshold: int, nodes0: set<nat>, staleness0: int, cur: seq<nat>, k: nat,
                nodes: set<nat>, staleness: int, increEid: seq<nat>, increEidIdx: seq<nat>)
    requires Known(d, cur) && k <= |cur| && (k < |cur| ==> staleness >= threshold)
    requires Scanned(d, threshold, nodes0, staleness0, cur[..k], nodes, staleness, increEid, increEidIdx)
    ensures Scanned(d, threshold, nodes0, staleness0, cur, nodes, staleness, increEid, increEidIdx)
  {
    ExtendStops(d, threshold, nodes0, staleness0, cur, k);
  }

  /** The body of the outer loop of `adaptive_split_in_large_batch`: the next batch, taken out of the list. */
  method TakeBatch(d: Edges, threshold: int, cur0: seq<nat>) returns (batch: seq<nat>, cur: seq<nat>)
    requires Known(d, cur0)
    ensures (batch, cur) == Taken(d, threshold, cur0)
  {
    hide Extend, Select, Nonzero, Not, Nodes, Removed, Pad;
    var initialCount := Min(WINDOW, |cur0|);
    var initial := cur0[..initialCount];
    var nodes := WindowNodes(d, initial);
    cur := cur0[initialCount..];
    var staleness := 2 * initialCount - |nodes|;
    var increEid, increEidIdx;
    staleness, increEid, increEidIdx := ScanRest(d, threshold, nodes, staleness, cur);
    batch := initial + increEid;
    ghost var s := ScanOf(d, threshold, cur0);
    RemovedIsRest(cur, s.taken);
    cur := Delete(cur, increEidIdx);
    ghost var left, whole, start := cur, batch, staleness;
    PadStart(left, whole);
    var eidIdx := 0;
    while staleness < threshold && eidIdx < |cur|
      invariant eidIdx <= |cur| && batch == whole + left[..eidIdx] && staleness == start + 2 * eidIdx
      invariant Pad(start, threshold, |left|) == eidIdx + Pad(staleness, threshold, |left| - eidIdx)
    {
      PadStep(staleness, threshold, |left| - eidIdx);
      PadNext(whole, left, eidIdx);
      staleness := staleness + 2;
      batch := batch + [cur[eidIdx]];
      eidIdx := eidIdx + 1;
    }
    PadStep(staleness, threshold, |left| - eidIdx);
    cur := cur[eidIdx..];
  }

  lemma PadStep(staleness: int, threshold: int, n: nat)
    ensures Pad(staleness, threshold, n)
      == if n == 0 || staleness >= threshold then 0 else 1 + Pad(staleness + 2, threshold, n - 1)
  {
  }

  lemma PadStart(left: seq<nat>, whole: seq<nat>)
    ensures whole + left[..0] == whole
  {
  }

  lemma PadNext(whole: seq<nat>, left: seq<nat>, k: nat)
    requires k < |left|
    ensures whole + left[..k + 1] == whole + left[..k] + [left[k]]
  {
  }

  // ---------------------------------------------------------------------------------- all batches

  /** The batches of these edges. */
  function Split(d: Edges, threshold: int, cur: seq<nat>): (batches: seq<seq<nat>>)
    requires Known(d, cur)
    decreases |cur|
  {
    if |cur| == 0 then []
    else
      TakenParts(d, threshold, cur);
      [Taken(d, threshold, cur).0] + Split(d, threshold, Taken(d, threshold, cur).1)
  }

  /** `adaptive_split_in_large_batch`. With no edges its last line reads the last of no batches. */
  method AdaptiveSplit(d: Edges, threshold: int, eids: seq<nat>) returns (res: Result<seq<seq<nat>>>)
    requires Known(d, eids)
    ensures res == if |eids| == 0 then IndexError else Ok(Split(d, threshold, eids))
  {
    hide Taken, Split;
    var cur, eidResult := eids, [];
    while |cur| > 0
      invariant Known(d, cur) && (cur == eids || |eidResult| > 0)
      invariant eidResult == [] ==> cur == eids
      invariant Split(d, threshold, eids) == eidResult + Split(d, threshold, cur)
      invariant |eids| == 0 ==> eidResult == []
      decreases |cur|
    {
      SplitStep(d, threshold, cur);
      ConcatAssociative(eidResult, [Taken(d, threshold, cur).0], Split(d, threshold, Taken(d, threshold, cur).1));
      var batch;
      batch, cur := TakeBatch(d, threshold, cur);
      eidResult := eidResult + [batch];
    }
    SplitStep(d, threshold, cur);
    assert eidResult + [] == eidResult;
    if |eidResult| == 0 {
      return IndexError;
    }
    return Ok(eidResult);
  }

  lemma SplitStep(d: Edges, threshold: int, cur: seq<nat>)
    requires Known(d, cur)
    ensures |cur| == 0 ==> Split(d, threshold, cur) == []
    ensures |cur| > 0 ==>
      var (batch, rest) := Taken(d, threshold, cur);
      && |rest| < |cur| && Known(d, rest) && Known(d, batch) && |batch| > 0
      && Split(d, threshold, cur) == [batch] + Split(d, threshold, rest)
      && multiset(cur) == multiset(batch) + multiset(rest)
  {
    TakenParts(d, threshold, cur);
  }

  /** Up to 2000 edges are one batch. */
  lemma SmallSplit(d: Edges, threshold: int, cur: seq<nat>)
    requires Known(d, cur) && 0 < |cur| <= 2000
    ensures Split(d, threshold, cur) == [cur]
  {
    hide Taken, Split;
    FirstWindow(d, threshold, cur);
    SplitStep(d, threshold, cur);
    SplitStep(d, threshold, []);
  }

  /** The batches are none of them empty, and together they are the edges, each once. */
  lemma {:induction false} SplitPermutes(d: Edges, threshold: int, cur: seq<nat>)
    requires Known(d, cur)
    ensures multiset(Concat(Split(d, threshold, cur))) == multiset(cur)
    ensures forall k :: 0 <= k < |Split(d, threshold, cur)| ==> |Split(d, threshold, cur)[k]| > 0
    decreases |cur|
  {
    hide Taken, Split;
    SplitStep(d, threshold, cur);
    if |cur| > 0 {
      var (batch, rest) := Taken(d, threshold, cur);
      SplitPermutes(d, threshold, rest);
      ConcatFront(batch, Split(d, threshold, rest));
    }
  }

  /** The batch ends where it should, or is the last. */
  ghost predicate BatchOk(d: Edges, threshold: int, batch: seq<nat>, last: bool)
    requires Known(d, batch)
  {
    var w := Window(batch);
    && Known(d, batch[..w])
    && (Counted(d, w, batch) >= threshold || last)
    && Counted(d, w, batch) <= Max(Staleness(d, batch[..w]), threshold + 1)
  }

  /** Every batch: at the threshold unless it is the last one, and no more than 1 over unless its initial window
      was. True staleness and count differ by the new loops; so the lower bound holds for the true staleness in
      any case, the upper bound if no new loop was taken. */
  lemma {:induction false} SplitStaleness(d: Edges, threshold: int, cur: seq<nat>, k: nat)
    requires Known(d, cur) && k < |Split(d, threshold, cur)|
    ensures Known(d, Split(d, threshold, cur)[k])
    ensures BatchOk(d, threshold, Split(d, threshold, cur)[k], k == |Split(d, threshold, cur)| - 1)
    decreases |cur|
  {
    hide Taken, Split, BatchOk;
    SplitStep(d, threshold, cur);
    var (batch, rest) := Taken(d, threshold, cur);
    if k == 0 {
      FirstOk(d, threshold, cur);
      SplitStep(d, threshold, rest);
    } else {
      SplitStaleness(d, threshold, rest, k - 1);
    }
  }

  lemma FirstOk(d: Edges, threshold: int, cur: seq<nat>)
    requires Known(d, cur)
    ensures var (batch, rest) := Taken(d, threshold, cur);
      Known(d, batch) && BatchOk(d, threshold, batch, rest == [])
  {
    hide Taken, Counted, Staleness;
    TakenParts(d, threshold, cur);
    TakenStaleness(d, threshold, cur);
    var (batch, rest) := Taken(d, threshold, cur);
    WindowKept(cur, batch, rest);
  }

  lemma WindowKept(cur: seq<nat>, batch: seq<nat>, rest: seq<nat>)
    requires cur[..Window(cur)] <= batch && multiset(cur) == multiset(batch) + multiset(rest)
    ensures Window(batch) == Window(cur) && batch[..Window(batch)] == cur[..Window(cur)]
  {
    assert |multiset(cur)| == |cur| && |multiset(batch) + multiset(rest)| == |batch| + |rest|;
  }

  /** For edges without loops the bounds hold for the true staleness. */
  lemma BatchExact(d: Edges, threshold: int, batch: seq<nat>, last: bool)
    requires Known(d, batch) && BatchOk(d, threshold, batch, last)
    ensures Known(d, batch[..Window(batch)])
    ensures Staleness(d, batch) >= threshold || last
    ensures (forall e :: e in batch ==> d.src[e] != d.dst[e]) ==>
      Staleness(d, batch) <= Max(Staleness(d, batch[..Window(batch)]), threshold + 1)
  {
    if forall e :: e in batch ==> d.src[e] != d.dst[e] {
      CountedExact(d, Window(batch), batch);
    }
  }

  // ------------------------------------------------- where count and true staleness come apart

  /** The count of a batch is right exactly if no new loop was taken after the initial window. */
  lemma {:induction false} TakenLoops(d: Edges, from: nat, batch: seq<nat>)
    requires Known(d, batch)
    ensures Counted(d, from, batch) == Staleness(d, batch) <==>
      forall k :: from <= k < |batch| ==> !NewLoop(d, batch[k], Nodes(d, batch[..k]))
  {
    hide Nodes, NewLoop;
    if |batch| > from {
      var m := |batch| - 1;
      TakenLoops(d, from, batch[..m]);
      assert forall k :: from <= k < m ==> batch[..m][..k] == batch[..k];
    }
  }

  /** A window of edges that share no end point, and behind it `k` nodes, each with an edge to itself. */
  function LoopData(k: nat): (d: Edges)
  {
    Edges(seq(WINDOW + k, i => if i < WINDOW then 2 * i else WINDOW + i),
          seq(WINDOW + k, i => if i < WINDOW then 2 * i + 1 else WINDOW + i))
  }

  function Upto(n: nat): (eids: seq<nat>)
    ensures |eids| == n && InRange(eids, n) && StrictlySorted(eids)
    ensures forall i :: 0 <= i < n ==> eids[i] == i
  {
    seq(n, i requires 0 <= i < n => i)
  }

  lemma LoopEnds(k: nat, i: nat)
    requires i < WINDOW + k
    ensures var d := LoopData(k);
      && |d.src| == |d.dst| == WINDOW + k
      && d.src[i] == (if i < WINDOW then 2 * i else WINDOW + i)
      && d.dst[i] == (if i < WINDOW then 2 * i + 1 else WINDOW + i)
  {
  }

  lemma LoopKnown(k: nat, eids: seq<nat>)
    requires InRange(eids, WINDOW + k)
    ensures Known(LoopData(k), eids)
  {
  }

  lemma BelowNext(n: nat)
    ensures Below(n + 1) == Below(n) + {n}
  {
  }

  lemma UptoNext(n: nat)
    ensures Upto(n + 1) == Upto(n) + [n]
  {
  }

  lemma {:induction false} LoopNodes(k: nat, n: nat)
    requires n <= WINDOW + k
    ensures Known(LoopData(k), Upto(n))
    ensures Nodes(LoopData(k), Upto(n)) == Below(if n < WINDOW then 2 * n else WINDOW + n)
  {
    hide *;
    LoopKnown(k, Upto(n));
    if n > 0 {
      LoopNodes(k, n - 1);
      LoopStep(k, n - 1);
    } else {
      NoNodes(LoopData(k));
    }
  }

  lemma LoopStep(k: nat, m: nat)
    requires m < WINDOW + k
    requires Known(LoopData(k), Upto(m))
    requires Nodes(LoopData(k), Upto(m)) == Below(if m < WINDOW then 2 * m else WINDOW + m)
    ensures Known(LoopData(k), Upto(m + 1))
    ensures Nodes(LoopData(k), Upto(m + 1)) == Below(if m + 1 < WINDOW then 2 * (m + 1) else WINDOW + m + 1)
  {
    hide LoopData, Nodes, Below, StrictlySorted, Upto;
    LoopEnds(k, m);
    AddEdge(LoopData(k), Upto(m), m);
    UptoNext(m);
    if m < WINDOW {
      BelowNext(2 * m);
      BelowNext(2 * m + 1);
      TwoMore(Below(2 * m), 2 * m, 2 * m + 1);
    } else {
      BelowNext(WINDOW + m);
      TwoMore(Below(WINDOW + m), WINDOW + m, WINDOW + m);
    }
  }

  lemma TwoMore(nodes: set<nat>, a: nat, b: nat)
    ensures nodes + {a} + {b} == nodes + {a, b} && (a == b ==> nodes + {a, b} == nodes + {a})
  {
  }

  lemma NoNodes(d: Edges)
    requires |d.src| == |d.dst|
    ensures Nodes(d, Upto(0)) == Below(0)
  {
  }

  /** The `j` loops behind the window. */
  function LoopTail(j: nat): (tail: seq<nat>)
    ensures |tail| == j && InRange(tail, WINDOW + j)
    ensures forall i :: 0 <= i < j ==> tail[i] == WINDOW + i
  {
    seq(j, i requires 0 <= i < j => WINDOW + i)
  }

  function AllTrue(j: nat): (mask: seq<bool>)
    ensures |mask| == j && forall i :: 0 <= i < j ==> mask[i]
  {
    seq(j, i => true)
  }

  lemma {:induction false} LoopScan(k: nat, j: nat)
    requires j <= k
    ensures Known(LoopData(k), LoopTail(j))
    ensures Extend(LoopData(k), 1, Below(2 * WINDOW), 0, LoopTail(j)) == Scan(Below(2 * WINDOW + j), 0, AllTrue(j))
  {
    hide LoopData, Extend, Below;
    var d := LoopData(k);
    LoopKnown(k, LoopTail(j));
    if j > 0 {
      LoopScan(k, j - 1);
      LoopEnds(k, WINDOW + j - 1);
      assert LoopTail(j)[..j - 1] == LoopTail(j - 1);
      assert AllTrue(j) == AllTrue(j - 1) + [true];
      ExtendStep(d, 1, Below(2 * WINDOW), 0, LoopTail(j));
      BelowNext(2 * WINDOW + j - 1);
    } else {
      NoScan(d, LoopTail(0), AllTrue(0));
    }
  }

  lemma NoScan(d: Edges, tail: seq<nat>, mask: seq<bool>)
    requires Known(d, tail) && tail == [] && mask == []
    ensures Extend(d, 1, Below(2 * WINDOW), 0, tail) == Scan(Below(2 * WINDOW), 0, mask)
  {
  }

  /** The upper bound does fail with loops: the count of this batch stays 0 while its staleness is `k`, with a
      window of staleness 0 and threshold 1. */
  lemma LoopsUncounted(k: nat)
    ensures var d, eids := LoopData(k), Upto(WINDOW + k);
      && Known(d, eids) && Known(d, eids[..WINDOW]) && Window(eids) == WINDOW
      && Split(d, 1, eids) == [eids] && Staleness(d, eids[..WINDOW]) == 0
      && Counted(d, WINDOW, eids) == 0 && Staleness(d, eids) == k
  {
    hide LoopData, Extend, Nodes, NewLoops, Below, Select, Taken, Split, Known;
    var d, eids := LoopData(k), Upto(WINDOW + k);
    LoopKnown(k, eids);
    LoopNodes(k, WINDOW);
    LoopNodes(k, WINDOW + k);
    LoopScan(k, k);
    assert eids[..WINDOW] == Upto(WINDOW) && eids[WINDOW..] == LoopTail(k) && eids == Upto(WINDOW) + LoopTail(k);
    assert ScanOf(d, 1, eids) == Scan(Below(2 * WINDOW + k), 0, AllTrue(k));
    AllSelected(LoopTail(k), AllTrue(k));
    ExtendCounts(d, 1, Upto(WINDOW), LoopTail(k));
    OneBatch(d, eids);
  }

  lemma OneBatch(d: Edges, eids: seq<nat>)
    requires Known(d, eids) && |eids| > 0
    requires Select(eids[Window(eids)..], ScanOf(d, 1, eids).taken) == eids[Window(eids)..]
    requires Select(eids[Window(eids)..], Not(ScanOf(d, 1, eids).taken)) == []
    ensures Split(d, 1, eids) == [eids]
  {
    hide Select, ScanOf;
    var w, left := Window(eids), Select(eids[Window(eids)..], Not(ScanOf(d, 1, eids).taken));
    assert eids == eids[..w] + eids[w..];
    assert eids[..w] + eids[w..] + left[..0] == eids;
    assert Taken(d, 1, eids) == (eids, []);
    assert [eids] + [] == [eids];
  }

  lemma {:induction false} AllSelected(s: seq<nat>, mask: seq<bool>)
    requires |s| == |mask| && forall i :: 0 <= i < |mask| ==> mask[i]
    ensures Select(s, mask) == s && Select(s, Not(mask)) == []
  {
    hide Select, Not;
    if |s| > 0 {
      var n := |s| - 1;
      AllSelected(s[..n], mask[..n]);
      SelectLast(s, mask);
      RestLast(s, mask);
    } else {
      RestNone(s, mask);
    }
  }

  // ------------------------------------------------------------------------------- the large blocks

  /** The positions up to `end`, cut at the multiples of `size`. */
  function Ranges(pos: nat, end: nat, size: nat): (r: seq<(nat, nat)>)
    requires 0 < size
    decreases end - pos
  {
    if pos >= end then []
    else
      NextBoundary(pos, size);
      var next := Min((pos / size + 1) * size, end);
      [(pos, next)] + Ranges(next, end, size)
  }

  /** The ranges follow on each other from `pos` to `end`; each lies within one large block, and all but the last end
      where a block does. */
  lemma {:induction false} RangesCut(pos: nat, end: nat, size: nat, i: nat)
    requires 0 < size && i < |Ranges(pos, end, size)|
    ensures var r := Ranges(pos, end, size);
      && pos < end && r[0].0 == pos && r[|r| - 1].1 == end && r[i].0 < r[i].1 <= end
      && (r[i].1 - 1) / size == r[i].0 / size
      && (i + 1 < |r| ==> r[i + 1].0 == r[i].1 && r[i].1 % size == 0)
    decreases i + end - pos
  {
    RangeStep(pos, end, size);
    var next := Min((pos / size + 1) * size, end);
    NextBoundary(pos, size);
    SameBlock(pos, next, size);
    if next < end {
      RangesCut(next, end, size, if i > 0 then i - 1 else 0);
    }
  }

  lemma SameBlock(pos: nat, next: nat, size: nat)
    requires 0 < size && pos < next <= (pos / size + 1) * size
    ensures (next - 1) / size == pos / size
    ensures next == (pos / size + 1) * size ==> next % size == 0
  {
    var q := pos / size;
    assert (q + 1) * size == q * size + size;
    Quotient(q, next - 1 - q * size, size);
    Quotient(q + 1, 0, size);
  }

  lemma NextBoundary(pos: nat, size: nat)
    requires 0 < size
    ensures pos < (pos / size + 1) * size <= pos + size
  {
    assert (pos / size + 1) * size == (pos / size) * size + size;
  }

  lemma BoundaryOf(q: nat, size: nat)
    requires 0 < size
    ensures (q * size) / size == q && ((q * size) / size + 1) * size == q * size + size
  {
    Quotient(q, 0, size);
    assert (q + 1) * size == q * size + size;
  }

  /** The loop of `process_split`: one job per large block. */
  method SplitRanges(currentPos: nat, endPos: nat, size: nat) returns (r: seq<(nat, nat)>)
    requires 0 < size
    ensures r == Ranges(currentPos, endPos, size)
  {
    hide Ranges;
    r := [];
    var tempPos, first := currentPos, true;
    while tempPos < endPos
      invariant first ==> tempPos == currentPos
      invariant !first && tempPos < endPos ==> tempPos == (tempPos / size) * size
      invariant Ranges(currentPos, endPos, size) == r + Ranges(tempPos, endPos, size)
      decreases endPos - tempPos
    {
      var blockEnd;
      RangeStep(tempPos, endPos, size);
      if first {
        first := false;
        blockEnd := Min(Min((currentPos / size + 1) * size, tempPos + size), endPos);
      } else {
        blockEnd := Min(tempPos + size, endPos);
      }
      ConcatAssociative(r, [(tempPos, blockEnd)], Ranges(blockEnd, endPos, size));
      r := r + [(tempPos, blockEnd)];
      tempPos := blockEnd;
    }
    NoRanges(tempPos, endPos, size);
  }

  lemma NoRanges(pos: nat, end: nat, size: nat)
    requires 0 < size && pos >= end
    ensures Ranges(pos, end, size) == []
  {
  }

  lemma RangeStep(pos: nat, end: nat, size: nat)
    requires 0 < size && pos < end
    ensures var next := Min((pos / size + 1) * size, end);
      && pos < next && Ranges(pos, end, size) == [(pos, next)] + Ranges(next, end, size)
      && next == Min(Min((pos / size + 1) * size, pos + size), end)
      && (pos == (pos / size) * size ==> next == Min(pos + size, end))
      && (next < end ==> next == (next / size) * size)
  {
    NextBoundary(pos, size);
    BoundaryOf(pos / size + 1, size);
    BoundaryOf(pos / size, size);
  }

  /** From position 0 the ranges are the blocks: the `i`-th starts at `i * size`. */
  lemma {:induction false} RangesTile(q: nat, end: nat, size: nat, i: nat)
    requires 0 < size && i < |Ranges(q * size, end, size)|
    ensures Ranges(q * size, end, size)[i] == ((q + i) * size, Min((q + i) * size + size, end))
    ensures (q + i) * size < end
    ensures i + 1 == |Ranges(q * size, end, size)| ==> Ranges(q * size, end, size)[i].1 == end
    decreases i
  {
    BoundaryOf(q, size);
    if q * size < end {
      var next := Min(q * size + size, end);
      assert (q + 1) * size == q * size + size;
      if i > 0 {
        RangesTile(q + 1, end, size, i - 1);
        assert (q + 1) + (i - 1) == q + i;
      }
    }
  }

  // ------------------------------------------------------------------------------ the whole list

  ghost predicate InPlace(eid: seq<nat>, ranges: seq<(nat, nat)>) {
    forall i :: 0 <= i < |ranges| ==> ranges[i].0 < ranges[i].1 <= |eid|
  }

  lemma {:induction false} RangesInPlace(eid: seq<nat>, pos: nat, end: nat, size: nat)
    requires 0 < size && end <= |eid|
    ensures InPlace(eid, Ranges(pos, end, size))
    decreases end - pos
  {
    if pos < end {
      RangeStep(pos, end, size);
      RangesInPlace(eid, Min((pos / size + 1) * size, end), end, size);
    }
  }

  /** The batches of every range. */
  function PerRange(d: Edges, eid: seq<nat>, threshold: int, ranges: seq<(nat, nat)>): (r: seq<seq<seq<nat>>>)
    requires Known(d, eid) && InPlace(eid, ranges)
    ensures |r| == |ranges|
    ensures forall i :: 0 <= i < |r| ==>
      Known(d, eid[ranges[i].0..ranges[i].1]) && r[i] == Split(d, threshold, eid[ranges[i].0..ranges[i].1])
  {
    seq(|ranges|, i requires 0 <= i < |ranges| =>
      assert Known(d, eid[ranges[i].0..ranges[i].1]); Split(d, threshold, eid[ranges[i].0..ranges[i].1]))
  }

  /** `process_split`: a pool of workers splits the large blocks, and their batches are put one behind the
      other in block order. A pool of no workers is an error: there is no block, or only one processor. */
  method ProcessSplit(d: Edges, eid: seq<nat>, currentPos: nat, endPos: nat, size: nat, threshold: int, cpus: nat)
    returns (res: Result<seq<seq<nat>>>)
    requires Known(d, eid) && 0 < size && endPos <= |eid|
    ensures InPlace(eid, Ranges(currentPos, endPos, size))
    ensures res == if currentPos >= endPos || cpus <= 1 then ValueError
      else Ok(Concat(PerRange(d, eid, threshold, Ranges(currentPos, endPos, size))))
  {
    hide Split, Ranges, Concat;
    var args := SplitRanges(currentPos, endPos, size);
    RangesInPlace(eid, currentPos, endPos, size);
    SomeRange(currentPos, endPos, size);
    var numWorkers := Min(cpus - 1, |args|);
    if numWorkers <= 0 {
      return ValueError;
    }
    var batches := [];
    ghost var per := PerRange(d, eid, threshold, args);
    assert per[..0] == [];
    ConcatEmpty<seq<nat>>();
    for i := 0 to |args|
      invariant batches == Concat(per[..i])
    {
      var edges := eid[args[i].0..args[i].1];
      var result := AdaptiveSplit(d, threshold, edges);
      ConcatNext(per, i);
      batches := batches + result.value;
    }
    assert per[..|args|] == per;
    return Ok(batches);
  }

  lemma SomeRange(pos: nat, end: nat, size: nat)
    requires 0 < size
    ensures |Ranges(pos, end, size)| == 0 <==> pos >= end
  {
  }

  // ------------------------------------------------------------- what the order of batches drives

  /** The blocks that the batches switch to: a batch whose first edge stands at a multiple of the block size
      makes the trainer move on. */
  function Triggers(batches: seq<seq<nat>>, size: nat): (blocks: seq<nat>)
    requires 0 < size && forall k :: 0 <= k < |batches| ==> |batches[k]| > 0
  {
    if |batches| == 0 then []
    else
      var n := |batches| - 1;
      Triggers(batches[..n], size) + (if batches[n][0] % size == 0 then [batches[n][0] / size] else [])
  }

  /** These batches make up block `i`: its first edge leads the first of them, and no other is led by a
      block's first edge. */
  ghost predicate BlockBatches(batches: seq<seq<nat>>, size: nat, i: nat)
    requires 0 < size
  {
    && |batches| > 0 && |batches[0]| > 0 && batches[0][0] == i * size
    && (forall k :: 0 <= k < |batches| ==> |batches[k]| > 0)
    && (forall k :: 0 < k < |batches| ==> batches[k][0] % size != 0)
    && forall k, e :: 0 <= k < |batches| && e in batches[k] ==> e / size == i
  }

  /** Edge `e` lies in block `i`, and is led by the block's first edge only if it is that edge. */
  ghost predicate Within(e: nat, i: nat, size: nat)
    requires 0 < size
  {
    e / size == i && (e % size == 0 <==> e == i * size)
  }

  lemma InBlock(e: nat, i: nat, size: nat)
    requires 0 < size && i * size <= e < i * size + size
    ensures Within(e, i, size)
  {
    Quotient(i, e - i * size, size);
  }

  /** For ascending edges every batch holds edges of the list, and all but the first batch only later ones. */
  lemma {:induction false} SplitOrder(d: Edges, threshold: int, cur: seq<nat>)
    requires Known(d, cur) && StrictlySorted(cur) && |cur| > 0
    ensures var batches := Split(d, threshold, cur);
      && |batches| > 0 && |batches[0]| > 0 && batches[0][0] == cur[0]
      && (forall k :: 0 <= k < |batches| ==> |batches[k]| > 0)
      && (forall k, e :: 0 <= k < |batches| && e in batches[k] ==> e in cur)
      && forall k, e :: 0 < k < |batches| && e in batches[k] ==> cur[0] < e
    decreases |cur|
  {
    hide Taken, Split;
    SplitStep(d, threshold, cur);
    TakenSorted(d, threshold, cur);
    var (batch, rest) := Taken(d, threshold, cur);
    PartsKnown(d, cur, batch, rest);
    if |rest| > 0 {
      SplitOrder(d, threshold, rest);
    } else {
      SplitStep(d, threshold, rest);
    }
    OrderStep(cur, batch, rest, Split(d, threshold, rest));
  }

  lemma OrderStep(cur: seq<nat>, batch: seq<nat>, rest: seq<nat>, more: seq<seq<nat>>)
    requires |cur| > 0 && |batch| > 0 && forall k :: 0 <= k < |more| ==> |more[k]| > 0
    requires (forall e :: e in batch || e in rest ==> e in cur) && forall e :: e in rest ==> cur[0] < e
    requires forall k, e :: 0 <= k < |more| && e in more[k] ==> e in rest
    ensures forall k :: 0 <= k < |[batch] + more| ==> |([batch] + more)[k]| > 0
    ensures forall k, e :: 0 <= k < |[batch] + more| && e in ([batch] + more)[k] ==> e in cur
    ensures forall k, e :: 0 < k < |[batch] + more| && e in ([batch] + more)[k] ==> cur[0] < e
  {
    forall k, e | 0 <= k < |[batch] + more| && e in ([batch] + more)[k] ensures e in cur {
      if k > 0 {
        assert e in more[k - 1];
      }
    }
    forall k, e | 0 < k < |[batch] + more| && e in ([batch] + more)[k] ensures cur[0] < e {
      assert e in more[k - 1];
      assert e in rest;
    }
  }

  lemma BlockSplit(d: Edges, eid: seq<nat>, threshold: int, i: nat, lo: nat, hi: nat, size: nat)
    requires Known(d, eid) && 0 < size && lo == i * size && lo < hi <= lo + size && hi <= |eid|
    requires forall p :: 0 <= p < |eid| ==> eid[p] == p
    ensures Known(d, eid[lo..hi]) && BlockBatches(Split(d, threshold, eid[lo..hi]), size, i)
  {
    hide Split;
    var cur := eid[lo..hi];
    assert forall k :: 0 <= k < |cur| ==> cur[k] == lo + k;
    SplitOrder(d, threshold, cur);
    InBlockAll(cur, i, size);
    LedOnce(Split(d, threshold, cur), cur, i, size);
  }

  lemma LedOnce(batches: seq<seq<nat>>, cur: seq<nat>, i: nat, size: nat)
    requires 0 < size && |batches| > 0 && |cur| > 0 && cur[0] == i * size
    requires forall k :: 0 <= k < |batches| ==> |batches[k]| > 0
    requires batches[0][0] == cur[0]
    requires forall k, e :: 0 <= k < |batches| && e in batches[k] ==> e in cur
    requires forall k, e :: 0 < k < |batches| && e in batches[k] ==> cur[0] < e
    requires forall e :: e in cur ==> Within(e, i, size)
    ensures BlockBatches(batches, size, i)
  {
    forall k | 0 < k < |batches| ensures batches[k][0] % size != 0 {
      assert batches[k][0] in batches[k];
      assert Within(batches[k][0], i, size);
    }
    forall k, e | 0 <= k < |batches| && e in batches[k] ensures e / size == i {
      assert Within(e, i, size);
    }
  }

  lemma InBlockAll(cur: seq<nat>, i: nat, size: nat)
    requires 0 < size && forall e :: e in cur ==> i * size <= e < i * size + size
    ensures forall e :: e in cur ==> Within(e, i, size)
  {
    forall e | e in cur ensures Within(e, i, size) {
      InBlock(e, i, size);
    }
  }

  /** Every range from 0 on is split into the batches of its block. */
  lemma RangeBatches(d: Edges, eid: seq<nat>, threshold: int, end: nat, size: nat, i: nat)
    requires Known(d, eid) && 0 < size && end <= |eid| && forall p :: 0 <= p < |eid| ==> eid[p] == p
    requires InPlace(eid, Ranges(0, end, size)) && i < |Ranges(0, end, size)|
    ensures BlockBatches(PerRange(d, eid, threshold, Ranges(0, end, size))[i], size, i)
  {
    hide Ranges, Split, BlockBatches;
    assert 0 * size == 0;
    RangesTile(0, end, size, i);
    BlockSplit(d, eid, threshold, i, i * size, Min(i * size + size, end), size);
  }

  lemma {:induction false} TriggersInBlock(batches: seq<seq<nat>>, size: nat, i: nat, k: nat)
    requires 0 < size && BlockBatches(batches, size, i) && 1 <= k <= |batches|
    ensures Triggers(batches[..k], size) == [i]
  {
    var n := k - 1;
    assert batches[..k][..n] == batches[..n];
    BoundaryOf(i, size);
    InBlock(i * size, i, size);
    if k > 1 {
      TriggersInBlock(batches, size, i, n);
    } else {
      assert Triggers(batches[..0], size) == [];
    }
  }

  lemma {:induction false} TriggersConcat(a: seq<seq<nat>>, b: seq<seq<nat>>, size: nat)
    requires 0 < size && (forall k :: 0 <= k < |a| ==> |a[k]| > 0) && forall k :: 0 <= k < |b| ==> |b[k]| > 0
    ensures forall k :: 0 <= k < |a + b| ==> |(a + b)[k]| > 0
    ensures Triggers(a + b, size) == Triggers(a, size) + Triggers(b, size)
  {
    if |b| == 0 {
      assert a + b == a;
    } else {
      assert (a + b)[..|a + b| - 1] == a + b[..|b| - 1];
      TriggersConcat(a, b[..|b| - 1], size);
    }
  }

  ghost predicate AllBlocks(per: seq<seq<seq<nat>>>, size: nat)
    requires 0 < size
  {
    forall i :: 0 <= i < |per| ==> BlockBatches(per[i], size, i)
  }

  lemma WholeBlock(batches: seq<seq<nat>>, size: nat, i: nat)
    requires 0 < size && BlockBatches(batches, size, i)
    ensures (forall k :: 0 <= k < |batches| ==> |batches[k]| > 0) && Triggers(batches, size) == [i]
  {
    TriggersInBlock(batches, size, i, |batches|);
    assert batches[..|batches|] == batches;
  }

  lemma NoTriggers(size: nat)
    requires 0 < size
    ensures Triggers([], size) == []
  {
  }

  /** Over the whole list every block is switched to exactly once, in ascending order. */
  lemma {:induction false} TriggersAscend(per: seq<seq<seq<nat>>>, size: nat)
    requires 0 < size && AllBlocks(per, size)
    ensures forall k :: 0 <= k < |Concat(per)| ==> |Concat(per)[k]| > 0
    ensures Triggers(Concat(per), size) == Upto(|per|)
  {
    hide Triggers, BlockBatches;
    if |per| > 0 {
      var n := |per| - 1;
      TriggersAscend(per[..n], size);
      WholeBlock(per[n], size, n);
      TriggersConcat(Concat(per[..n]), per[n], size);
      UptoNext(n);
    } else {
      NoTriggers(size);
    }
  }

  /** The block counter is right for every batch: all its edges lie in the block switched to last, which is the
      number of switches so far less one. */
  lemma {:induction false} CounterFits(per: seq<seq<seq<nat>>>, size: nat, k: nat, e: nat)
    requires 0 < size && AllBlocks(per, size) && k < |Concat(per)| && e in Concat(per)[k]
    ensures forall j :: 0 <= j < |Concat(per)| ==> |Concat(per)[j]| > 0
    ensures Triggers(Concat(per)[..k + 1], size) == Upto(e / size + 1) && e / size < |per|
  {
    hide Triggers, BlockBatches;
    var n := |per| - 1;
    var front := Concat(per[..n]);
    TriggersAscend(per, size);
    if k < |front| {
      CounterFits(per[..n], size, k, e);
      assert Concat(per)[..k + 1] == front[..k + 1];
    } else {
      TriggersAscend(per[..n], size);
      var m := k - |front|;
      assert Concat(per)[..k + 1] == front + per[n][..m + 1];
      CounterInLast(front, per[n], size, n, m, e, Concat(per)[..k + 1]);
    }
  }

  lemma CounterInLast(front: seq<seq<nat>>, batches: seq<seq<nat>>, size: nat, n: nat, m: nat, e: nat,
                      all: seq<seq<nat>>)
    requires 0 < size && BlockBatches(batches, size, n) && m < |batches| && e in batches[m]
    requires (forall j :: 0 <= j < |front| ==> |front[j]| > 0) && Triggers(front, size) == Upto(n)
    requires all == front + batches[..m + 1]
    ensures (forall j :: 0 <= j < |all| ==> |all[j]| > 0) && Triggers(all, size) == Upto(n + 1) && e / size == n
  {
    hide Triggers, BlockBatches;
    BatchFacts(batches, size, n, m, e);
    TriggersInBlock(batches, size, n, m + 1);
    TriggersConcat(front, batches[..m + 1], size);
    UptoNext(n);
  }

  lemma BatchFacts(batches: seq<seq<nat>>, size: nat, n: nat, m: nat, e: nat)
    requires 0 < size && BlockBatches(batches, size, n) && m < |batches| && e in batches[m]
    ensures (forall k :: 0 <= k < |batches| ==> |batches[k]| > 0) && e / size == n
  {
  }

  /** The list that `process_split` makes from position 0. */
  function Batches(d: Edges, eid: seq<nat>, threshold: int, end: nat, size: nat): (batches: seq<seq<nat>>)
    requires Known(d, eid) && 0 < size && end <= |eid|
  {
    RangesInPlace(eid, 0, end, size);
    Concat(PerRange(d, eid, threshold, Ranges(0, end, size)))
  }

  /** The list switches through `blocks` blocks in order, and edge `e` of its batch `k` lies in the block that is
      current there. */
  ghost predicate Drives(batches: seq<seq<nat>>, size: nat, blocks: nat, k: nat, e: nat)
    requires 0 < size && k < |batches|
  {
    && (forall j :: 0 <= j < |batches| ==> |batches[j]| > 0)
    && Triggers(batches, size) == Upto(blocks) && Triggers(batches[..k + 1], size) == Upto(e / size + 1)
  }

  /** For edges numbered by their positions, that list switches through all large blocks in order, and each of
      its batches lies in the block that is current. */
  lemma SplitDrivesBlocks(d: Edges, eid: seq<nat>, threshold: int, end: nat, size: nat, k: nat, e: nat)
    requires Known(d, eid) && 0 < size && end <= |eid| && forall p :: 0 <= p < |eid| ==> eid[p] == p
    requires k < |Batches(d, eid, threshold, end, size)| && e in Batches(d, eid, threshold, end, size)[k]
    ensures Drives(Batches(d, eid, threshold, end, size), size, |Ranges(0, end, size)|, k, e)
  {
    RangesInPlace(eid, 0, end, size);
    AllRanges(d, eid, threshold, end, size);
    hide AllBlocks, Triggers, PerRange, Ranges, Concat;
    var per := PerRange(d, eid, threshold, Ranges(0, end, size));
    TriggersAscend(per, size);
    CounterFits(per, size, k, e);
  }

  lemma AllRanges(d: Edges, eid: seq<nat>, threshold: int, end: nat, size: nat)
    requires Known(d, eid) && 0 < size && end <= |eid| && forall p :: 0 <= p < |eid| ==> eid[p] == p
    requires InPlace(eid, Ranges(0, end, size))
    ensures AllBlocks(PerRange(d, eid, threshold, Ranges(0, end, size)), size)
  {
    hide Ranges, Split, BlockBatches;
    var per := PerRange(d, eid, threshold, Ranges(0, end, size));
    forall i | 0 <= i < |per| ensures BlockBatches(per[i], size, i) {
      RangeBatches(d, eid, threshold, end, size, i);
    }
  }

  lemma {:induction false} OwnerOf<T>(lists: seq<seq<T>>, k: nat) returns (i: nat, m: nat)
    requires k < |Concat(lists)|
    ensures i < |lists| && m < |lists[i]| && lists[i][m] == Concat(lists)[k]
  {
    var n := |lists| - 1;
    if k < |Concat(lists[..n])| {
      i, m := OwnerOf(lists[..n], k);
    } else {
      i, m := n, k - |Concat(lists[..n])|;
    }
  }

  /** Every batch holds edges before the end. */
  lemma BatchBeforeEnd(d: Edges, eid: seq<nat>, threshold: int, end: nat, size: nat, k: nat, e: nat)
    requires Known(d, eid) && 0 < size && end <= |eid| && forall p :: 0 <= p < |eid| ==> eid[p] == p
    requires k < |Batches(d, eid, threshold, end, size)| && e in Batches(d, eid, threshold, end, size)[k]
    ensures e < end
  {
    hide Ranges, Split, Concat, PerRange, InPlace;
    RangesInPlace(eid, 0, end, size);
    var ranges := Ranges(0, end, size);
    var i, m := OwnerOf(PerRange(d, eid, threshold, ranges), k);
    RangeEnds(eid, end, size, i);
    SplitWithin(d, eid, threshold, ranges[i].0, ranges[i].1, m, e);
  }

  lemma RangeEnds(eid: seq<nat>, end: nat, size: nat, i: nat)
    requires 0 < size && end <= |eid| && InPlace(eid, Ranges(0, end, size)) && i < |Ranges(0, end, size)|
    ensures Ranges(0, end, size)[i].0 < Ranges(0, end, size)[i].1 <= end
  {
    hide Ranges;
    assert 0 * size == 0;
    RangesTile(0, end, size, i);
  }

  lemma SplitWithin(d: Edges, eid: seq<nat>, threshold: int, lo: nat, hi: nat, m: nat, e: nat)
    requires Known(d, eid) && lo < hi <= |eid| && forall p :: 0 <= p < |eid| ==> eid[p] == p
    requires Known(d, eid[lo..hi]) && m < |Split(d, threshold, eid[lo..hi])| && e in Split(d, threshold, eid[lo..hi])[m]
    ensures e < hi
  {
    hide Split;
    var cur := eid[lo..hi];
    assert forall j :: 0 <= j < |cur| ==> cur[j] == lo + j;
    SplitOrder(d, threshold, cur);
    assert e in cur;
  }
}
