/** How stale the splitter's batches really are. Its running count gives an edge from a new node to itself 0,
    although that edge raises the staleness by 1. This module says, in terms of the edges that the splitter is
    given, what count and staleness of a batch are, when they agree, and when the bound on the count is a
    bound on the staleness. */
module BatchStaleness {
  import opened Common
  import opened Tensors
  import opened BatchSplit

  // ------------------------------------------------------------------------ the edges as they come

  /** How many end points of the edge at `p` are known when its turn comes, if all before it count. */
  function DeltaAt(d: Edges, eids: seq<nat>, p: nat): (s: int)
    requires Known(d, eids) && p < |eids|
  {
    assert [eids[p]][0] == eids[p];
    Delta(d, eids[p], Nodes(d, eids[..p]))
  }

  /** The edge at `p` leads from a new node to itself. */
  predicate LoopAt(d: Edges, eids: seq<nat>, p: nat)
    requires Known(d, eids) && p < |eids|
  {
    NewLoop(d, eids[p], Nodes(d, eids[..p]))
  }

  lemma LoopDelta(d: Edges, eids: seq<nat>, p: nat)
    requires Known(d, eids) && p < |eids|
    ensures 0 <= DeltaAt(d, eids, p) <= 2 && (LoopAt(d, eids, p) ==> DeltaAt(d, eids, p) == 0)
  {
    hide Nodes;
  }

  /** How many edges from the `from`-th on have `k` known end points. */
  function Repeats(d: Edges, from: nat, eids: seq<nat>, k: int): (n: nat)
    requires Known(d, eids)
  {
    if |eids| <= from then 0
    else
      var m := |eids| - 1;
      Repeats(d, from, eids[..m], k) + (if DeltaAt(d, eids, m) == k then 1 else 0)
  }

  /** Both numbers, one edge further. */
  lemma OneFurther(d: Edges, from: nat, eids: seq<nat>, p: nat, k: int)
    requires Known(d, eids) && from <= p < |eids|
    ensures Repeats(d, from, eids[..p + 1], k)
      == Repeats(d, from, eids[..p], k) + (if DeltaAt(d, eids, p) == k then 1 else 0)
    ensures NewLoops(d, from, eids[..p + 1])
      == NewLoops(d, from, eids[..p]) + (if LoopAt(d, eids, p) then 1 else 0)
  {
    hide Nodes, Delta, NewLoop;
    assert eids[..p + 1][..p] == eids[..p];
  }

  /** Both numbers only grow. */
  lemma {:induction false} OnlyGrow(d: Edges, from: nat, eids: seq<nat>, p: nat, q: nat, k: int)
    requires Known(d, eids) && from <= p <= q <= |eids|
    ensures Repeats(d, from, eids[..p], k) <= Repeats(d, from, eids[..q], k)
    ensures NewLoops(d, from, eids[..p]) <= NewLoops(d, from, eids[..q])
  {
    hide DeltaAt, LoopAt, NewLoops, Repeats;
    if p < q {
      OnlyGrow(d, from, eids, p, q - 1, k);
      OneFurther(d, from, eids, q - 1, k);
    }
  }

  /** An edge of this kind exists exactly if there is one to count. */
  lemma {:induction false} RepeatsSome(d: Edges, from: nat, eids: seq<nat>, k: int)
    requires Known(d, eids)
    ensures Repeats(d, from, eids, k) > 0 <==> exists p :: from <= p < |eids| && DeltaAt(d, eids, p) == k
  {
    hide Nodes, Delta;
    if |eids| > from {
      var m := |eids| - 1;
      RepeatsSome(d, from, eids[..m], k);
      forall p | from <= p < m ensures DeltaAt(d, eids[..m], p) == DeltaAt(d, eids, p) {
        assert eids[..m][..p] == eids[..p];
      }
    }
  }

  lemma CountIsStaleness(d: Edges, from: nat, batch: seq<nat>)
    requires Known(d, batch)
    ensures Counted(d, from, batch) == Staleness(d, batch) <==> NewLoops(d, from, batch) == 0
  {
    hide Staleness, NewLoops;
  }

  lemma NewLoopsSome(d: Edges, from: nat, eids: seq<nat>)
    requires Known(d, eids)
    ensures NewLoops(d, from, eids) > 0 <==> exists p :: from <= p < |eids| && LoopAt(d, eids, p)
  {
    hide Nodes, NewLoop, Counted, Staleness, NewLoops;
    CountIsStaleness(d, from, eids);
    TakenLoops(d, from, eids);
    assert forall p :: 0 <= p < |eids| ==> LoopAt(d, eids, p) == NewLoop(d, eids[p], Nodes(d, eids[..p]));
  }

  // ------------------------------------------------------------------------------ what the scan does

  /** The edges that the scan passes over bring in no node. So while it goes on, its nodes are those of all edges so
      far, it has counted the edges with one known end point, taken all new loops, and left the edges with
      two. */
  lemma {:induction false} ScanThrough(d: Edges, threshold: int, window: seq<nat>, cur: seq<nat>)
    requires Known(d, window) && Known(d, cur) && Known(d, window + cur)
    requires Staleness(d, window) + Repeats(d, |window|, window + cur, 1) < threshold
    ensures var s := Extend(d, threshold, Nodes(d, window), Staleness(d, window), cur);
      Through(d, window, cur, s)
    decreases |cur|
  {
    hide Extend, Through, Repeats, DeltaAt, LoopAt, NewLoops, Nodes, Staleness, Select, Not;
    var nodes, start := Nodes(d, window), Staleness(d, window);
    if |cur| == 0 {
      ThroughNone(d, threshold, window, cur);
    } else {
      var n := |cur| - 1;
      var p := Extend(d, threshold, nodes, start, cur[..n]);
      AllButLast(d, window, cur);
      ScanThrough(d, threshold, window, cur[..n]);
      ThroughCount(d, window, cur[..n], p);
      ExtendStep(d, threshold, nodes, start, cur);
      ThroughStep(d, threshold, window, cur, p, Extend(d, threshold, nodes, start, cur));
    }
  }

  ghost predicate Through(d: Edges, window: seq<nat>, cur: seq<nat>, s: Scan)
    requires Known(d, window) && |s.taken| == |cur|
  {
    var all, batch, from := window + cur, window + Select(cur, s.taken), |window|;
    && Known(d, all) && Known(d, batch) && s.nodes == Nodes(d, all) == Nodes(d, batch)
    && s.staleness == Staleness(d, window) + Repeats(d, from, all, 1)
    && NewLoops(d, from, batch) == NewLoops(d, from, all)
    && |Select(cur, Not(s.taken))| == Repeats(d, from, all, 2)
  }

  lemma ThroughCount(d: Edges, window: seq<nat>, cur: seq<nat>, s: Scan)
    requires Known(d, window) && |s.taken| == |cur| && Through(d, window, cur, s)
    ensures Known(d, window + cur)
    ensures s.staleness == Staleness(d, window) + Repeats(d, |window|, window + cur, 1)
  {
    hide Nodes, Staleness, NewLoops, Repeats, Select, Not;
  }

  lemma ThroughNone(d: Edges, threshold: int, window: seq<nat>, cur: seq<nat>)
    requires Known(d, window) && Known(d, cur) && |cur| == 0
    ensures Through(d, window, cur, Extend(d, threshold, Nodes(d, window), Staleness(d, window), cur))
  {
    hide Nodes, Staleness, NewLoops, Select, Not;
    var s := Extend(d, threshold, Nodes(d, window), Staleness(d, window), cur);
    ExtendNone(d, threshold, window, cur);
    assert window + cur == window;
    NothingSelected(cur, Not(s.taken));
  }

  lemma NothingSelected(s: seq<nat>, mask: seq<bool>)
    requires |s| == |mask| == 0
    ensures Select(s, mask) == []
  {
  }

  /** The edges up to the last one, and the last one. */
  lemma AllButLast(d: Edges, window: seq<nat>, cur: seq<nat>)
    requires Known(d, window) && Known(d, cur) && |cur| > 0
    ensures var all, n := window + cur, |cur| - 1;
      && Known(d, all) && Known(d, window + cur[..n]) && all[..|window| + n] == window + cur[..n]
      && all == (window + cur[..n]) + [cur[n]] && all[|window| + n] == cur[n] && all[..|all|] == all
      && forall k :: Repeats(d, |window|, window + cur[..n], k) <= Repeats(d, |window|, all, k)
  {
    var all, n := window + cur, |cur| - 1;
    assert all[..|window| + n] == window + cur[..n] && all[..|all|] == all;
    hide Repeats, DeltaAt, LoopAt, NewLoops;
    forall k: int ensures Repeats(d, |window|, window + cur[..n], k) <= Repeats(d, |window|, all, k) {
      OnlyGrow(d, |window|, all, |window| + n, |all|, k);
    }
  }

  lemma ThroughStep(d: Edges, threshold: int, window: seq<nat>, cur: seq<nat>, p: Scan, s: Scan)
    requires Known(d, window) && Known(d, cur) && |cur| > 0 && |p.taken| == |cur| - 1 && |s.taken| == |cur|
    requires Through(d, window, cur[..|cur| - 1], p) && p.staleness < threshold
    requires Known(d, [cur[|cur| - 1]]) && [cur[|cur| - 1]][0] == cur[|cur| - 1]
    requires var n := |cur| - 1;
      var delta := Delta(d, cur[n], p.nodes);
      && s.taken == p.taken + [s.taken[n]] && (s.taken[n] <==> p.staleness < threshold && delta <= 1)
      && s.nodes == (if s.taken[n] then p.nodes + {d.src[cur[n]], d.dst[cur[n]]} else p.nodes)
      && s.staleness == p.staleness + (if s.taken[n] then delta else 0)
    ensures Through(d, window, cur, s)
  {
    hide Repeats, Nodes, Staleness, Select, Not, NewLoops;
    var n, from := |cur| - 1, |window|;
    var all, batch := window + cur, window + Select(cur[..n], p.taken);
    AllButLast(d, window, cur);
    OneFurther(d, from, all, from + n, 1);
    OneFurther(d, from, all, from + n, 2);
    AddEdge(d, window + cur[..n], cur[n]);
    ThroughSelect(cur, p.taken, s.taken);
    if s.taken[n] {
      assert window + Select(cur, s.taken) == batch + [cur[n]];
      AddEdge(d, batch, cur[n]);
      LoopsPush(d, from, batch, cur[n]);
    } else {
      assert window + Select(cur, s.taken) == batch;
      KnownEnds(p.nodes, d.src[cur[n]], d.dst[cur[n]]);
    }
  }

  lemma ThroughSelect(cur: seq<nat>, front: seq<bool>, taken: seq<bool>)
    requires |cur| == |taken| == |front| + 1 && taken == front + [taken[|cur| - 1]]
    ensures var n := |cur| - 1;
      && Select(cur, taken) == Select(cur[..n], front) + (if taken[n] then [cur[n]] else [])
      && Select(cur, Not(taken)) == Select(cur[..n], Not(front)) + (if taken[n] then [] else [cur[n]])
  {
    hide Select, Not;
    assert taken[..|cur| - 1] == front;
    SelectLast(cur, taken);
    RestLast(cur, taken);
  }

  lemma LoopsPush(d: Edges, from: nat, batch: seq<nat>, e: nat)
    requires Known(d, batch) && e < |d.src| && from <= |batch|
    ensures Known(d, batch + [e])
    ensures NewLoops(d, from, batch + [e])
      == NewLoops(d, from, batch) + (if NewLoop(d, e, Nodes(d, batch)) then 1 else 0)
  {
    hide Nodes, NewLoop;
    assert (batch + [e])[..|batch|] == batch;
  }

  lemma KnownEnds(nodes: set<nat>, a: nat, b: nat)
    ensures a in nodes && b in nodes ==> nodes + {a, b} == nodes
  {
  }

  /** Where the scan stops: at an edge with one known end point, the one that makes the count reach the threshold. */
  ghost predicate StopsAt(d: Edges, from: nat, eids: seq<nat>, n: int, p: nat)
    requires Known(d, eids)
  {
    from <= p < |eids| && DeltaAt(d, eids, p) == 1 && Repeats(d, from, eids[..p], 1) == n - 1
  }

  lemma {:induction false} ScanStops(d: Edges, threshold: int, window: seq<nat>, cur: seq<nat>) returns (p: nat)
    requires Known(d, window) && Known(d, cur) && Known(d, window + cur)
    requires var start := Staleness(d, window);
      start < threshold <= start + Repeats(d, |window|, window + cur, 1)
    ensures StopsAt(d, |window|, window + cur, threshold - Staleness(d, window), p)
    ensures var s := Extend(d, threshold, Nodes(d, window), Staleness(d, window), cur);
      var batch := window + Select(cur, s.taken);
      && Known(d, batch) && s.staleness == threshold
      && NewLoops(d, |window|, batch) == NewLoops(d, |window|, (window + cur)[..p])
    decreases |cur|
  {
    hide Extend, Through, Repeats, DeltaAt, LoopAt, NewLoops, Nodes, Staleness, Select, Not;
    var nodes, start, from, all := Nodes(d, window), Staleness(d, window), |window|, window + cur;
    NoneYet(d, window);
    assert cur == [] ==> all == window;
    assert |cur| > 0;
    var n := |cur| - 1;
    var q, s := Extend(d, threshold, nodes, start, cur[..n]), Extend(d, threshold, nodes, start, cur);
    AllButLast(d, window, cur);
    ExtendStep(d, threshold, nodes, start, cur);
    ThroughSelect(cur, q.taken, s.taken);
    if threshold <= start + Repeats(d, from, window + cur[..n], 1) {
      p := ScanStops(d, threshold, window, cur[..n]);
      StopsEarlier(d, from, all, from + n, threshold - start, p);
      assert !s.taken[n];
      assert window + Select(cur, s.taken) == window + Select(cur[..n], q.taken);
    } else {
      ScanThrough(d, threshold, window, cur[..n]);
      ThroughCount(d, window, cur[..n], q);
      p := from + n;
      StopsNow(d, threshold, window, cur, q, s);
    }
  }

  lemma NoneYet(d: Edges, window: seq<nat>)
    requires Known(d, window)
    ensures forall k :: Repeats(d, |window|, window, k) == 0
    ensures NewLoops(d, |window|, window) == 0
  {
  }

  lemma StopsEarlier(d: Edges, from: nat, eids: seq<nat>, m: nat, n: int, p: nat)
    requires Known(d, eids) && m <= |eids| && Known(d, eids[..m]) && StopsAt(d, from, eids[..m], n, p)
    ensures StopsAt(d, from, eids, n, p) && eids[..m][..p] == eids[..p]
  {
    hide Repeats;
    assert eids[..m][..p] == eids[..p];
  }

  lemma StopsNow(d: Edges, threshold: int, window: seq<nat>, cur: seq<nat>, q: Scan, s: Scan)
    requires Known(d, window) && Known(d, cur) && |cur| > 0 && Known(d, window + cur)
    requires |q.taken| == |cur| - 1 && |s.taken| == |cur|
    requires Through(d, window, cur[..|cur| - 1], q) && q.staleness < threshold
    requires threshold <= Staleness(d, window) + Repeats(d, |window|, window + cur, 1)
    requires Known(d, [cur[|cur| - 1]]) && [cur[|cur| - 1]][0] == cur[|cur| - 1]
    requires var n := |cur| - 1;
      var delta := Delta(d, cur[n], q.nodes);
      && Select(cur, s.taken) == Select(cur[..n], q.taken) + (if s.taken[n] then [cur[n]] else [])
      && (s.taken[n] <==> q.staleness < threshold && delta <= 1)
      && s.staleness == q.staleness + (if s.taken[n] then delta else 0)
    ensures var p, batch := |window| + |cur| - 1, window + Select(cur, s.taken);
      && StopsAt(d, |window|, window + cur, threshold - Staleness(d, window), p)
      && Known(d, batch) && s.staleness == threshold
      && NewLoops(d, |window|, batch) == NewLoops(d, |window|, (window + cur)[..p])
  {
    hide Repeats, Nodes, Staleness, Select, Not, NewLoops;
    var n, from := |cur| - 1, |window|;
    var all, batch := window + cur, window + Select(cur[..n], q.taken);
    AllButLast(d, window, cur);
    OneFurther(d, from, all, from + n, 1);
    assert DeltaAt(d, all, from + n) == Delta(d, cur[n], q.nodes) == 1;
    assert window + Select(cur, s.taken) == batch + [cur[n]];
    LoopsPush(d, from, batch, cur[n]);
    LoopDelta(d, all, from + n);
  }

  // ----------------------------------------------------------------------------- what a batch counts

  /** The staleness of the initial window. */
  function Start(d: Edges, cur: seq<nat>): (s: int)
    requires Known(d, cur)
  {
    Staleness(d, cur[..Window(cur)])
  }

  /** What the scan has counted before position `p`, if it gets there. */
  function CountBefore(d: Edges, cur: seq<nat>, p: nat): (s: int)
    requires Known(d, cur) && p <= |cur|
  {
    Start(d, cur) + Repeats(d, Window(cur), cur[..p], 1)
  }

  /** What an unstopped scan has counted in the end. */
  function EndCount(d: Edges, cur: seq<nat>): (s: int)
    requires Known(d, cur)
  {
    Start(d, cur) + Repeats(d, Window(cur), cur, 1)
  }

  /** The next batch, and what it leaves. */
  function Batch(d: Edges, threshold: int, cur: seq<nat>): (batch: seq<nat>)
    requires Known(d, cur)
    ensures Known(d, batch)
  {
    TakenParts(d, threshold, cur);
    Taken(d, threshold, cur).0
  }

  function Rest(d: Edges, threshold: int, cur: seq<nat>): (rest: seq<nat>)
    requires Known(d, cur)
    ensures Known(d, rest)
  {
    TakenParts(d, threshold, cur);
    Taken(d, threshold, cur).1
  }

  /** The batch is the window if that reaches the threshold. */
  lemma WindowEnough(d: Edges, threshold: int, cur: seq<nat>)
    requires Known(d, cur) && threshold <= Start(d, cur)
    ensures Batch(d, threshold, cur) == cur[..Window(cur)]
  {
    hide Extend, Nodes, Staleness, Select, Not;
    var w := Window(cur);
    var tail, s := cur[w..], ScanOf(d, threshold, cur);
    assert tail[..0] == [];
    NoExtension(d, threshold, Nodes(d, cur[..w]), Staleness(d, cur[..w]));
    ExtendStops(d, threshold, Nodes(d, cur[..w]), Staleness(d, cur[..w]), tail, 0);
    NothingSelected(tail[..0], Extend(d, threshold, Nodes(d, cur[..w]), Staleness(d, cur[..w]), tail[..0]).taken);
    var left := Select(tail, Not(s.taken));
    assert cur[..w] + [] + left[..0] == cur[..w];
  }

  lemma NoExtension(d: Edges, threshold: int, nodes: set<nat>, staleness: int)
    requires |d.src| == |d.dst|
    ensures Extend(d, threshold, nodes, staleness, []) == Scan(nodes, staleness, [])
  {
  }

  /** Padding adds no new loop. */
  lemma Padded(d: Edges, from: nat, batch: seq<nat>, pad: seq<nat>)
    requires Known(d, batch) && Known(d, pad) && from <= |batch|
    requires forall k :: 0 <= k < |pad| ==> d.src[pad[k]] in Nodes(d, batch) && d.dst[pad[k]] in Nodes(d, batch)
    ensures Known(d, batch + pad) && NewLoops(d, from, batch + pad) == NewLoops(d, from, batch)
    ensures Counted(d, from, batch + pad) == Counted(d, from, batch) + 2 * |pad|
  {
    PadCounts(d, from, batch, pad);
    hide Nodes, NewLoops;
  }

  /** If the scan stops, the batch counts the threshold, and its new loops are those before the stop. */
  lemma BatchStops(d: Edges, threshold: int, cur: seq<nat>) returns (p: nat)
    requires Known(d, cur) && Start(d, cur) < threshold <= EndCount(d, cur)
    ensures StopsAt(d, Window(cur), cur, threshold - Start(d, cur), p)
    ensures Counted(d, Window(cur), Batch(d, threshold, cur)) == threshold
    ensures NewLoops(d, Window(cur), Batch(d, threshold, cur)) == NewLoops(d, Window(cur), cur[..p])
  {
    hide Extend, Repeats, DeltaAt, NewLoops, Nodes, Staleness, Select, Not, Counted;
    var w := Window(cur);
    var tail, s := cur[w..], ScanOf(d, threshold, cur);
    assert cur == cur[..w] + tail;
    p := ScanStops(d, threshold, cur[..w], tail);
    ExtendCounts(d, threshold, cur[..w], tail);
    var left := Select(tail, Not(s.taken));
    assert cur[..w] + Select(tail, s.taken) + left[..0] == cur[..w] + Select(tail, s.taken);
  }

  /** If it does not, all new loops are in the batch, and edges with two known end points are padded. */
  lemma BatchThrough(d: Edges, threshold: int, cur: seq<nat>)
    requires Known(d, cur) && EndCount(d, cur) < threshold
    ensures Counted(d, Window(cur), Batch(d, threshold, cur))
      == EndCount(d, cur) + 2 * Pad(EndCount(d, cur), threshold, Repeats(d, Window(cur), cur, 2))
    ensures NewLoops(d, Window(cur), Batch(d, threshold, cur)) == NewLoops(d, Window(cur), cur)
  {
    hide Extend, Repeats, DeltaAt, NewLoops, Nodes, Staleness, Select, Not, Counted, Pad;
    var w := Window(cur);
    var tail, s := cur[w..], ScanOf(d, threshold, cur);
    assert cur == cur[..w] + tail;
    ScanThrough(d, threshold, cur[..w], tail);
    ExtendCounts(d, threshold, cur[..w], tail);
    LeftBringNothing(d, threshold, cur);
    var left := Select(tail, Not(s.taken));
    Padded(d, w, cur[..w] + Select(tail, s.taken), left[..Pad(s.staleness, threshold, |left|)]);
  }

  // ----------------------------------------------------------------------- which edges a batch takes

  /** The scan takes an edge exactly if the count is below the threshold where it stands and it brings in a node. */
  lemma {:induction false} ScanTakes(d: Edges, threshold: int, window: seq<nat>, cur: seq<nat>, i: nat)
    requires Known(d, window) && Known(d, cur) && i < |cur|
    ensures Known(d, window + cur)
    ensures Extend(d, threshold, Nodes(d, window), Staleness(d, window), cur).taken[i] <==>
      && Staleness(d, window) + Repeats(d, |window|, (window + cur)[..|window| + i], 1) < threshold
      && DeltaAt(d, window + cur, |window| + i) <= 1
    decreases |cur|
  {
    hide Extend, Through, Repeats, DeltaAt, LoopAt, NewLoops, Nodes, Staleness, Select, Not;
    var n, all := |cur| - 1, window + cur;
    AllButLast(d, window, cur);
    var p := Extend(d, threshold, Nodes(d, window), Staleness(d, window), cur[..n]);
    ExtendStep(d, threshold, Nodes(d, window), Staleness(d, window), cur);
    if i < n {
      ScanTakes(d, threshold, window, cur[..n], i);
      EarlierDelta(d, window + cur[..n], all, |window| + i);
    } else {
      LastTaken(d, threshold, window, cur, p);
    }
  }

  lemma EarlierDelta(d: Edges, front: seq<nat>, all: seq<nat>, p: nat)
    requires Known(d, all) && Known(d, front) && front <= all && p < |front|
    ensures DeltaAt(d, front, p) == DeltaAt(d, all, p) && front[..p] == all[..p]
  {
    hide Nodes;
    assert front[..p] == all[..p] && front[p] == all[p];
  }

  lemma LastTaken(d: Edges, threshold: int, window: seq<nat>, cur: seq<nat>, p: Scan)
    requires Known(d, window) && Known(d, cur) && |cur| > 0 && Known(d, window + cur)
    requires p == Extend(d, threshold, Nodes(d, window), Staleness(d, window), cur[..|cur| - 1])
    requires Known(d, [cur[|cur| - 1]]) && [cur[|cur| - 1]][0] == cur[|cur| - 1]
    ensures p.staleness < threshold && Delta(d, cur[|cur| - 1], p.nodes) <= 1 <==>
      && Staleness(d, window) + Repeats(d, |window|, (window + cur)[..|window| + |cur| - 1], 1) < threshold
      && DeltaAt(d, window + cur, |window| + |cur| - 1) <= 1
  {
    hide Extend, Repeats, Nodes, Staleness, Select, Not, NewLoops;
    var n := |cur| - 1;
    AllButLast(d, window, cur);
    NoneYet(d, window);
    if Staleness(d, window) + Repeats(d, |window|, window + cur[..n], 1) < threshold {
      ScanThrough(d, threshold, window, cur[..n]);
      ThroughCount(d, window, cur[..n], p);
    } else if Staleness(d, window) < threshold {
      var q := ScanStops(d, threshold, window, cur[..n]);
    } else {
      StopsAtOnce(d, threshold, Nodes(d, window), Staleness(d, window), cur[..n]);
    }
  }

  /** The next batch by positions: the window, the edges that the scan takes, and the first of the others as padding,
      each in the order of the list; and what remains. */
  ghost predicate TakenAt(d: Edges, threshold: int, cur: seq<nat>, ext: seq<nat>, pad: seq<nat>, rest: seq<nat>)
    requires Known(d, cur)
  {
    var w := Window(cur);
    && StrictlySorted(ext) && InRange(ext, |cur|) && StrictlySorted(pad + rest) && InRange(pad + rest, |cur|)
    && InRange(pad, |cur|) && InRange(rest, |cur|)
    && Batch(d, threshold, cur) == cur[..w] + Gather(cur, ext) + Gather(cur, pad)
    && Rest(d, threshold, cur) == Gather(cur, rest)
    && (forall p: nat :: p in ext <==> w <= p < |cur| && CountBefore(d, cur, p) < threshold && DeltaAt(d, cur, p) <= 1)
    && (forall p: nat :: p in pad + rest <==> w <= p < |cur| && p !in ext)
  }

  lemma TakenPlaces(d: Edges, threshold: int, cur: seq<nat>) returns (ext: seq<nat>, pad: seq<nat>, rest: seq<nat>)
    requires Known(d, cur)
    ensures TakenAt(d, threshold, cur, ext, pad, rest)
  {
    hide Extend, Repeats, DeltaAt, Nodes, Staleness, Nonzero, CountBefore, ScanOf, Batch, Rest, Behind, StrictlySorted;
    var w, s := Window(cur), ScanOf(d, threshold, cur);
    var taken, left := Nonzero(s.taken), Nonzero(Not(s.taken));
    var k := Pad(s.staleness, threshold, |left|);
    ext, pad, rest := Behind(w, taken), Behind(w, left[..k]), Behind(w, left[k..]);
    BehindJoin(w, left, k);
    GatherBehind(cur, w, taken);
    GatherBehind(cur, w, left);
    GatherBehind(cur, w, left[..k]);
    GatherBehind(cur, w, left[k..]);
    BatchParts(d, threshold, cur);
    GatherParts(cur[w..], left, k);
    TakenWhere(d, threshold, cur);
    BehindMembers(w, s.taken);
    BehindMembers(w, Not(s.taken));
  }

  lemma BatchParts(d: Edges, threshold: int, cur: seq<nat>)
    requires Known(d, cur)
    ensures var w, s := Window(cur), ScanOf(d, threshold, cur);
      var left := Gather(cur[w..], Nonzero(Not(s.taken)));
      var k := Pad(s.staleness, threshold, |left|);
      && Batch(d, threshold, cur) == cur[..w] + Gather(cur[w..], Nonzero(s.taken)) + left[..k]
      && Rest(d, threshold, cur) == left[k..]
  {
    hide ScanOf, Pad, Nonzero;
  }

  lemma TakenWhere(d: Edges, threshold: int, cur: seq<nat>)
    requires Known(d, cur)
    ensures var w, s := Window(cur), ScanOf(d, threshold, cur);
      forall p: nat :: w <= p < |cur| ==>
        (s.taken[p - w] <==> CountBefore(d, cur, p) < threshold && DeltaAt(d, cur, p) <= 1)
  {
    hide Extend, Repeats, DeltaAt, Nodes, Staleness;
    var w := Window(cur);
    assert cur == cur[..w] + cur[w..];
    forall p: nat | w <= p < |cur|
      ensures ScanOf(d, threshold, cur).taken[p - w]
        <==> CountBefore(d, cur, p) < threshold && DeltaAt(d, cur, p) <= 1
    {
      ScanTakes(d, threshold, cur[..w], cur[w..], p - w);
    }
  }

  lemma BehindJoin(w: nat, left: seq<nat>, k: nat)
    requires k <= |left|
    ensures Behind(w, left[..k]) + Behind(w, left[k..]) == Behind(w, left)
  {
    assert left == left[..k] + left[k..];
  }

  /** The same places, counted from the start of the list. */
  function Behind(w: nat, idx: seq<nat>): (r: seq<nat>)
  {
    seq(|idx|, k requires 0 <= k < |idx| => w + idx[k])
  }

  lemma GatherBehind(cur: seq<nat>, w: nat, idx: seq<nat>)
    requires w <= |cur| && InRange(idx, |cur| - w)
    ensures InRange(Behind(w, idx), |cur|) && Gather(cur, Behind(w, idx)) == Gather(cur[w..], idx)
    ensures StrictlySorted(idx) ==> StrictlySorted(Behind(w, idx))
  {
  }

  lemma GatherParts(s: seq<nat>, idx: seq<nat>, k: nat)
    requires InRange(idx, |s|) && k <= |idx|
    ensures InRange(idx[..k], |s|) && InRange(idx[k..], |s|)
    ensures Gather(s, idx)[..k] == Gather(s, idx[..k]) && Gather(s, idx)[k..] == Gather(s, idx[k..])
  {
  }

  lemma BehindMembers(w: nat, mask: seq<bool>)
    ensures forall p: nat :: p in Behind(w, Nonzero(mask)) <==> w <= p < w + |mask| && mask[p - w]
  {
    hide Nonzero;
    var idx := Nonzero(mask);
    forall p: nat | w <= p < w + |mask| && mask[p - w] ensures p in Behind(w, idx) {
      var k :| 0 <= k < |idx| && idx[k] == p - w;
      assert Behind(w, idx)[k] == p;
    }
  }

  // -------------------------------------------------------------------------- when the count is right

  /** A new loop stands behind the window at a place that the scan reaches. */
  ghost predicate Miscounts(d: Edges, threshold: int, cur: seq<nat>)
    requires Known(d, cur)
  {
    exists p :: Window(cur) <= p < |cur| && LoopAt(d, cur, p) && CountBefore(d, cur, p) < threshold
  }

  /** For every list of edges and every threshold: what the splitter counts for its next batch is the batch's staleness
      if and only if no new loop stands behind the window where the count is still below the threshold. */
  lemma CountedIff(d: Edges, threshold: int, cur: seq<nat>)
    requires Known(d, cur)
    ensures Counted(d, Window(cur), Batch(d, threshold, cur)) == Staleness(d, Batch(d, threshold, cur))
      <==> !Miscounts(d, threshold, cur)
  {
    hide Repeats, DeltaAt, LoopAt, NewLoops, Counted, Staleness, Batch;
    var w, batch := Window(cur), Batch(d, threshold, cur);
    CountIsStaleness(d, w, batch);
    if threshold <= Start(d, cur) {
      WindowEnough(d, threshold, cur);
      NoneYet(d, cur[..w]);
    } else if threshold <= EndCount(d, cur) {
      var p := BatchStops(d, threshold, cur);
      LoopsBefore(d, cur, p);
      forall q: nat | w <= q < |cur| && LoopAt(d, cur, q) ensures q < p <==> CountBefore(d, cur, q) < threshold {
        LoopDelta(d, cur, q);
        BeforeStop(d, w, cur, threshold - Start(d, cur), p, q);
      }
    } else {
      BatchThrough(d, threshold, cur);
      NewLoopsSome(d, w, cur);
      forall q: nat | w <= q < |cur| ensures CountBefore(d, cur, q) < threshold {
        CountGrows(d, cur, q);
      }
    }
  }

  lemma CountGrows(d: Edges, cur: seq<nat>, q: nat)
    requires Known(d, cur) && Window(cur) <= q <= |cur|
    ensures CountBefore(d, cur, q) <= EndCount(d, cur)
  {
    hide Repeats, Staleness;
    OnlyGrow(d, Window(cur), cur, q, |cur|, 1);
    assert cur[..|cur|] == cur;
  }

  lemma LoopsBefore(d: Edges, cur: seq<nat>, p: nat)
    requires Known(d, cur) && p <= |cur|
    ensures NewLoops(d, Window(cur), cur[..p]) > 0 <==> exists q :: Window(cur) <= q < p && LoopAt(d, cur, q)
  {
    hide NewLoops, NewLoop, Nodes;
    NewLoopsSome(d, Window(cur), cur[..p]);
    forall q: nat | q < p ensures LoopAt(d, cur[..p], q) == LoopAt(d, cur, q) {
      assert cur[..p][..q] == cur[..q];
    }
  }

  /** Before the stop the count is below the threshold, and from the stop on it is not. */
  lemma BeforeStop(d: Edges, from: nat, eids: seq<nat>, n: int, p: nat, q: nat)
    requires Known(d, eids) && StopsAt(d, from, eids, n, p) && from <= q < |eids| && DeltaAt(d, eids, q) != 1
    ensures q < p <==> Repeats(d, from, eids[..q], 1) < n
  {
    hide Repeats, DeltaAt, LoopAt, NewLoops;
    if q < p {
      OnlyGrow(d, from, eids, q, p, 1);
    } else {
      OneFurther(d, from, eids, p, 1);
      OnlyGrow(d, from, eids, p + 1, q, 1);
    }
  }

  /** With every threshold the count is right if and only if no new loop stands behind the window at all. */
  lemma CountedAlways(d: Edges, cur: seq<nat>)
    requires Known(d, cur)
    ensures (forall threshold: int ::
        Counted(d, Window(cur), Batch(d, threshold, cur)) == Staleness(d, Batch(d, threshold, cur)))
      <==> forall p :: Window(cur) <= p < |cur| ==> !LoopAt(d, cur, p)
  {
    hide LoopAt, Counted, Staleness, Batch, EndCount, CountBefore;
    forall threshold: int
      ensures Counted(d, Window(cur), Batch(d, threshold, cur)) == Staleness(d, Batch(d, threshold, cur))
        <==> !Miscounts(d, threshold, cur)
    {
      CountedIff(d, threshold, cur);
    }
    var threshold := EndCount(d, cur) + 1;
    forall p: nat | Window(cur) <= p < |cur| ensures CountBefore(d, cur, p) < threshold {
      CountGrows(d, cur, p);
      EndIs(d, cur);
    }
    if p: nat :| Window(cur) <= p < |cur| && LoopAt(d, cur, p) {
      assert Miscounts(d, threshold, cur);
    }
  }

  lemma EndIs(d: Edges, cur: seq<nat>)
    requires Known(d, cur)
    ensures EndCount(d, cur) == Start(d, cur) + Repeats(d, Window(cur), cur, 1)
  {
  }

  // -------------------------------------------------------------------- when the bound holds all the same

  /** What the staleness of the batch is meant to stay within. */
  function Limit(d: Edges, threshold: int, cur: seq<nat>): (s: int)
    requires Known(d, cur)
  {
    Max(Start(d, cur), threshold + 1)
  }

  /** The scan stops behind two new loops; or it does not stop, and padding leaves no room for the new loops. */
  ghost predicate Exceeds(d: Edges, threshold: int, cur: seq<nat>)
    requires Known(d, cur)
  {
    var w, end := Window(cur), EndCount(d, cur);
    || (exists p: nat :: StopsAt(d, w, cur, threshold - Start(d, cur), p) && NewLoops(d, w, cur[..p]) >= 2)
    || (end < threshold
        && end + 2 * Pad(end, threshold, Repeats(d, w, cur, 2)) + NewLoops(d, w, cur) > threshold + 1)
  }

  /** For every list of edges and every threshold: the next batch keeps the bound if and only if it is not so. */
  lemma BoundIff(d: Edges, threshold: int, cur: seq<nat>)
    requires Known(d, cur)
    ensures Staleness(d, Batch(d, threshold, cur)) <= Limit(d, threshold, cur) <==> !Exceeds(d, threshold, cur)
  {
    hide Repeats, DeltaAt, LoopAt, NewLoops, Staleness, Batch, Pad, StopsAt;
    var w, n := Window(cur), threshold - Start(d, cur);
    EndIs(d, cur);
    if n <= 0 {
      WindowEnough(d, threshold, cur);
    } else if threshold <= EndCount(d, cur) {
      var p := BatchStops(d, threshold, cur);
      forall q: nat | StopsAt(d, w, cur, n, q) ensures q == p {
        OneStop(d, w, cur, n, p, q);
      }
    } else {
      BatchThrough(d, threshold, cur);
    }
    forall q: nat | StopsAt(d, w, cur, n, q) ensures 0 < n <= EndCount(d, cur) - Start(d, cur) {
      StopInside(d, cur, n, q);
    }
  }

  lemma OneStop(d: Edges, from: nat, eids: seq<nat>, n: int, p: nat, q: nat)
    requires Known(d, eids) && StopsAt(d, from, eids, n, p) && StopsAt(d, from, eids, n, q)
    ensures p == q
  {
    hide Repeats, DeltaAt, NewLoops;
    OneFurther(d, from, eids, p, 1);
    OneFurther(d, from, eids, q, 1);
    if p < q {
      OnlyGrow(d, from, eids, p + 1, q, 1);
    } else if q < p {
      OnlyGrow(d, from, eids, q + 1, p, 1);
    }
  }

  lemma StopInside(d: Edges, cur: seq<nat>, n: int, p: nat)
    requires Known(d, cur) && StopsAt(d, Window(cur), cur, n, p)
    ensures 0 < n <= EndCount(d, cur) - Start(d, cur)
  {
    hide Repeats, DeltaAt, NewLoops, Staleness;
    OneFurther(d, Window(cur), cur, p, 1);
    OnlyGrow(d, Window(cur), cur, p + 1, |cur|, 1);
    assert cur[..|cur|] == cur;
  }

  /** Some threshold makes the splitter exceed the bound: three new loops behind the window; or two before an edge
      with one known end point; or one, and somewhere an edge with two. */
  ghost predicate Bad(d: Edges, cur: seq<nat>)
    requires Known(d, cur)
  {
    var w := Window(cur);
    || NewLoops(d, w, cur) >= 3
    || (exists p :: w <= p < |cur| && NewLoops(d, w, cur[..p]) >= 2 && DeltaAt(d, cur, p) == 1)
    || (NewLoops(d, w, cur) >= 1 && exists p :: w <= p < |cur| && DeltaAt(d, cur, p) == 2)
  }

  /** With every threshold the bound holds if and only if the edges are not such. */
  lemma BoundAlways(d: Edges, cur: seq<nat>)
    requires Known(d, cur)
    ensures (forall threshold: int :: Staleness(d, Batch(d, threshold, cur)) <= Limit(d, threshold, cur))
      <==> !Bad(d, cur)
  {
    hide Staleness, Batch, Limit, Exceeds, Bad;
    forall threshold: int
      ensures Staleness(d, Batch(d, threshold, cur)) <= Limit(d, threshold, cur) <==> !Exceeds(d, threshold, cur)
      ensures Exceeds(d, threshold, cur) ==> Bad(d, cur)
    {
      BoundIff(d, threshold, cur);
      if Exceeds(d, threshold, cur) {
        ExceedsBad(d, threshold, cur);
      }
    }
    if Bad(d, cur) {
      var threshold := BadExceeds(d, cur);
      assert Exceeds(d, threshold, cur);
    }
  }

  lemma ExceedsBad(d: Edges, threshold: int, cur: seq<nat>)
    requires Known(d, cur) && Exceeds(d, threshold, cur)
    ensures Bad(d, cur)
  {
    hide Repeats, DeltaAt, NewLoops, EndCount, Pad;
    RepeatsSome(d, Window(cur), cur, 2);
  }

  lemma BadExceeds(d: Edges, cur: seq<nat>) returns (threshold: int)
    requires Known(d, cur) && Bad(d, cur)
    ensures Exceeds(d, threshold, cur)
  {
    hide Repeats, DeltaAt, NewLoops, EndCount, Staleness;
    var w, end := Window(cur), EndCount(d, cur);
    RepeatsSome(d, w, cur, 2);
    if p: nat :| w <= p < |cur| && NewLoops(d, w, cur[..p]) >= 2 && DeltaAt(d, cur, p) == 1 {
      threshold := Start(d, cur) + Repeats(d, w, cur[..p], 1) + 1;
      assert StopsAt(d, w, cur, threshold - Start(d, cur), p);
    } else {
      threshold := end + 1;
      PadOne(end, Repeats(d, w, cur, 2));
    }
  }

  lemma PadOne(staleness: int, n: nat)
    ensures Pad(staleness, staleness + 1, n) == if n > 0 then 1 else 0
  {
    assert n > 0 ==> Pad(staleness + 2, staleness + 1, n - 1) == 0;
  }

  // ------------------------------------------------------------------------------ all batches of a list

  /** The edges that remain when `k` batches have been taken. */
  function Remaining(d: Edges, threshold: int, cur: seq<nat>, k: nat): (rest: seq<nat>)
    requires Known(d, cur)
    ensures Known(d, rest)
    decreases k
  {
    if k == 0 then cur
    else Remaining(d, threshold, Rest(d, threshold, cur), k - 1)
  }

  lemma {:induction false} BatchOf(d: Edges, threshold: int, cur: seq<nat>, k: nat)
    requires Known(d, cur) && k < |Split(d, threshold, cur)|
    ensures Split(d, threshold, cur)[k] == Batch(d, threshold, Remaining(d, threshold, cur, k))
    decreases k
  {
    hide Taken, Split;
    SplitStep(d, threshold, cur);
    if k > 0 {
      BatchOf(d, threshold, Taken(d, threshold, cur).1, k - 1);
    }
  }

  /** Both conditions hold for every batch of a split, in terms of the edges that remain when its turn comes. */
  lemma SplitExact(d: Edges, threshold: int, cur: seq<nat>, k: nat)
    requires Known(d, cur) && k < |Split(d, threshold, cur)|
    ensures Known(d, Split(d, threshold, cur)[k])
    ensures var batch, rest := Split(d, threshold, cur)[k], Remaining(d, threshold, cur, k);
      && (Counted(d, Window(rest), batch) == Staleness(d, batch) <==> !Miscounts(d, threshold, rest))
      && (Staleness(d, batch) <= Limit(d, threshold, rest) <==> !Exceeds(d, threshold, rest))
  {
    hide Counted, Staleness, Limit, Miscounts, Exceeds, Batch, Split, Remaining;
    BatchOf(d, threshold, cur, k);
    CountedIff(d, threshold, Remaining(d, threshold, cur, k));
    BoundIff(d, threshold, Remaining(d, threshold, cur, k));
  }
}
