/** The parallel temporal neighbour sampler (sampler/sampler_core.cpp) with one history and no time
    window. Times are integers, compared strictly. */
module Sampler {
  import opened Common
  import opened Tensors

  /** The temporal graph by rows: the entries of node `n` are those from `indptr[n]` to `indptr[n + 1]`. */
  datatype Graph = Graph(indptr: seq<nat>, indices: seq<nat>, eid: seq<nat>, ts: seq<int>)

  ghost predicate IsNode(g: Graph, n: nat) {
    n < |g.indptr| - 1
  }

  /** The row of a node lies inside the entry arrays and is sorted by time. */
  ghost predicate RowOk(g: Graph, n: nat)
    requires IsNode(g, n)
  {
    && g.indptr[n] <= g.indptr[n + 1] <= |g.ts|
    && forall i, j :: g.indptr[n] <= i < j < g.indptr[n + 1] ==> g.ts[i] <= g.ts[j]
  }

  ghost predicate GoodGraph(g: Graph) {
    && |g.indptr| > 0 && |g.indices| == |g.eid| == |g.ts|
    && (forall n: nat :: IsNode(g, n) ==> RowOk(g, n))
    && forall k :: 0 <= k < |g.indices| ==> IsNode(g, g.indices[k])
  }

  /** The first entry from `j` on, before `hi`, that is not before time `t`. */
  function FirstNotBefore(ts: seq<int>, j: nat, hi: nat, t: int): (k: nat)
    requires j <= hi <= |ts|
    ensures j <= k <= hi
    ensures forall i :: j <= i < k ==> ts[i] < t
    ensures k < hi ==> t <= ts[k]
    decreases hi - j
  {
    if j == hi || t <= ts[j] then j else FirstNotBefore(ts, j + 1, hi, t)
  }

  /** Where the entries of node `n` stop being before time `t`. */
  function Cut(g: Graph, n: nat, t: int): (k: nat)
    requires GoodGraph(g) && IsNode(g, n)
    ensures g.indptr[n] <= k <= g.indptr[n + 1]
  {
    FirstNotBefore(g.ts, g.indptr[n], g.indptr[n + 1], t)
  }

  lemma CutSplits(g: Graph, n: nat, t: int, i: nat)
    requires GoodGraph(g) && IsNode(g, n) && g.indptr[n] <= i < g.indptr[n + 1]
    ensures g.ts[i] < t <==> i < Cut(g, n, t)
  {
  }

  // ------------------------------------------------------------------------- the pointers into rows

  /** A pointer of node `n` stays inside the row; an empty row has it at the row's start. */
  ghost predicate PtrOk(g: Graph, n: nat, p: nat)
    requires GoodGraph(g) && IsNode(g, n)
  {
    g.indptr[n] <= p && (g.indptr[n] < g.indptr[n + 1] ==> p < g.indptr[n + 1])
    && (g.indptr[n] == g.indptr[n + 1] ==> p == g.indptr[n])
  }

  ghost predicate TableOk(g: Graph, table: seq<nat>)
    requires GoodGraph(g)
  {
    |table| == |g.indptr| - 1 && forall n :: 0 <= n < |table| ==> PtrOk(g, n, table[n])
  }

  /** What the locked step for one root does to its node's pointer. */
  function Advanced(g: Graph, n: nat, p: nat, t: int): (q: nat)
    requires GoodGraph(g) && IsNode(g, n)
  {
    Max(p, Cut(g, n, t) - 1)
  }

  /** The critical section of `update_ts_ptr`: scan on from the pointer, and stop before the first entry that
      is not before `t`, or at the end of the row. */
  method AdvancePtr(g: Graph, n: nat, p: nat, t: int) returns (q: nat)
    requires GoodGraph(g) && IsNode(g, n) && PtrOk(g, n, p)
    ensures q == Advanced(g, n, p, t) && PtrOk(g, n, q)
  {
    q := p;
    var j := p;
    var hi := g.indptr[n + 1];
    while j < hi
      invariant p <= j && (j <= hi || j == p)
      invariant forall i :: p <= i < j ==> g.ts[i] < t
      invariant q == if p < j == hi then hi - 1 else p
      decreases hi - j
    {
      if g.ts[j] >= t {
        if j != q {
          q := j - 1;
        }
        CutIs(g, n, p, t, j);
        return;
      }
      if j == hi - 1 {
        q := j;
      }
      j := j + 1;
    }
    if p < hi {
      CutIs(g, n, p, t, hi);
    }
  }

  lemma CutIs(g: Graph, n: nat, p: nat, t: int, j: nat)
    requires GoodGraph(g) && IsNode(g, n) && PtrOk(g, n, p) && p <= j <= g.indptr[n + 1]
    requires forall i :: p <= i < j ==> g.ts[i] < t
    requires j < g.indptr[n + 1] ==> t <= g.ts[j]
    ensures Cut(g, n, t) <= j && (p < j ==> Cut(g, n, t) == j)
  {
    if j < g.indptr[n + 1] {
      CutSplits(g, n, t, j);
    }
    if p < j {
      CutSplits(g, n, t, j - 1);
    }
  }

  ghost predicate Roots(g: Graph, roots: seq<nat>, rts: seq<int>) {
    |roots| == |rts| && forall i :: 0 <= i < |roots| ==> IsNode(g, roots[i])
  }

  /** The table after the locked steps of the roots in `order`, one after the other. */
  function RunSteps(g: Graph, table: seq<nat>, roots: seq<nat>, rts: seq<int>, order: seq<nat>): (table': seq<nat>)
    requires GoodGraph(g) && Roots(g, roots, rts) && InRange(order, |roots|) && |table| == |g.indptr| - 1
    ensures |table'| == |table|
  {
    if |order| == 0 then table
    else
      var pre := RunSteps(g, table, roots, rts, order[..|order| - 1]);
      var i := order[|order| - 1];
      pre[roots[i] := Advanced(g, roots[i], pre[roots[i]], rts[i])]
  }

  /** The pointer of a node ends at the largest of where it was and where its own roots send it. */
  lemma {:induction false} RunStepsIsMax(g: Graph, table: seq<nat>, roots: seq<nat>, rts: seq<int>, order: seq<nat>,
      n: nat)
    requires GoodGraph(g) && Roots(g, roots, rts) && InRange(order, |roots|) && |table| == |g.indptr| - 1
    requires IsNode(g, n)
    ensures var q := RunSteps(g, table, roots, rts, order)[n];
      && table[n] <= q
      && (forall i :: i in order && roots[i] == n ==> Cut(g, n, rts[i]) - 1 <= q)
      && (q == table[n] || exists i :: i in order && roots[i] == n && q == Cut(g, n, rts[i]) - 1)
  {
    if |order| > 0 {
      var m := |order| - 1;
      RunStepsIsMax(g, table, roots, rts, order[..m], n);
      assert forall i :: i in order <==> i in order[..m] || i == order[m];
      hide GoodGraph, Cut;
    }
  }

  /** Locked pointer updates are confluent: whichever order the threads get through their locks in, the table
      comes out the same. */
  lemma Confluent(g: Graph, table: seq<nat>, roots: seq<nat>, rts: seq<int>, order1: seq<nat>, order2: seq<nat>)
    requires GoodGraph(g) && Roots(g, roots, rts) && |table| == |g.indptr| - 1
    requires InRange(order1, |roots|) && InRange(order2, |roots|) && forall i :: i in order1 <==> i in order2
    ensures RunSteps(g, table, roots, rts, order1) == RunSteps(g, table, roots, rts, order2)
  {
    forall n: nat | n < |table|
      ensures RunSteps(g, table, roots, rts, order1)[n] == RunSteps(g, table, roots, rts, order2)[n]
    {
      RunStepsIsMax(g, table, roots, rts, order1, n);
      RunStepsIsMax(g, table, roots, rts, order2, n);
    }
  }

  /** After all roots have been through, every root's pointer is at or past the last entry before its time. */
  lemma PtrReaches(g: Graph, table: seq<nat>, roots: seq<nat>, rts: seq<int>, order: seq<nat>, j: nat)
    requires GoodGraph(g) && Roots(g, roots, rts) && |table| == |g.indptr| - 1
    requires InRange(order, |roots|) && j < |roots| && j in order
    ensures Cut(g, roots[j], rts[j]) - 1 <= RunSteps(g, table, roots, rts, order)[roots[j]]
  {
    RunStepsIsMax(g, table, roots, rts, order, roots[j]);
  }

  // -------------------------------------------------------------------------- the neighbours of a root

  /** The `neighs` latest entries of node `n` strictly before time `t`, latest first. */
  function Latest(g: Graph, n: nat, t: int, neighs: nat): (picks: seq<nat>)
    requires GoodGraph(g) && IsNode(g, n)
    ensures InRange(picks, |g.ts|)
    ensures |picks| == Min(neighs, Cut(g, n, t) - g.indptr[n])
  {
    seq(Min(neighs, Cut(g, n, t) - g.indptr[n]), i => Cut(g, n, t) - 1 - i)
  }

  /** Entries of the row of `n`, all before `t`. */
  ghost predicate Past(g: Graph, n: nat, t: int, picks: seq<nat>)
    requires GoodGraph(g) && IsNode(g, n)
  {
    forall i :: 0 <= i < |picks| ==> g.indptr[n] <= picks[i] < g.indptr[n + 1] && g.ts[picks[i]] < t
  }

  /** `Latest` says what it should: past entries of the node in descending order, `neighs` of them if there
      are so many, and every past entry it leaves out is earlier in the row than all it has. */
  lemma LatestMeaning(g: Graph, n: nat, t: int, neighs: nat)
    requires GoodGraph(g) && IsNode(g, n)
    ensures Past(g, n, t, Latest(g, n, t, neighs))
    ensures forall i, j :: 0 <= i < j < |Latest(g, n, t, neighs)| ==>
      Latest(g, n, t, neighs)[i] > Latest(g, n, t, neighs)[j]
    ensures forall k :: g.indptr[n] <= k < g.indptr[n + 1] && g.ts[k] < t && k !in Latest(g, n, t, neighs) ==>
      |Latest(g, n, t, neighs)| == neighs && forall i :: 0 <= i < neighs ==> k < Latest(g, n, t, neighs)[i]
  {
    var picks, cut := Latest(g, n, t, neighs), Cut(g, n, t);
    assert RowOk(g, n);
    forall m | cut - |picks| <= m < cut ensures m in picks {
      assert picks[cut - 1 - m] == m;
    }
    forall k | g.indptr[n] <= k < g.indptr[n + 1] && g.ts[k] < t && k !in picks
      ensures |picks| == neighs && forall i :: 0 <= i < neighs ==> k < picks[i]
    {
      CutSplits(g, n, t, k);
    }
  }

  /** The same with the entries behind `eSearch` left out. */
  function LatestUpTo(g: Graph, n: nat, t: int, neighs: nat, eSearch: nat): (picks: seq<nat>)
    requires GoodGraph(g) && IsNode(g, n) && PtrOk(g, n, eSearch)
    ensures InRange(picks, |g.ts|) && Past(g, n, t, picks)
  {
    assert RowOk(g, n);
    var top := Min(Cut(g, n, t), eSearch + 1);
    seq(Min(neighs, top - g.indptr[n]), i => top - 1 - i)
  }

  /** Past entries of the node up to `eSearch` in descending order, `neighs` of them if there are so many, and every
      such entry that is left out is earlier in the row than all that are taken. */
  lemma UpToMeaning(g: Graph, n: nat, t: int, neighs: nat, eSearch: nat)
    requires GoodGraph(g) && IsNode(g, n) && PtrOk(g, n, eSearch)
    ensures var picks := LatestUpTo(g, n, t, neighs, eSearch);
      && |picks| <= neighs && Past(g, n, t, picks) && (forall i :: 0 <= i < |picks| ==> picks[i] <= eSearch)
      && (forall i, j :: 0 <= i < j < |picks| ==> picks[i] > picks[j])
      && forall k :: g.indptr[n] <= k < g.indptr[n + 1] && k <= eSearch && g.ts[k] < t && k !in picks ==>
        |picks| == neighs && forall i :: 0 <= i < neighs ==> k < picks[i]
  {
    assert RowOk(g, n);
    var picks, top := LatestUpTo(g, n, t, neighs, eSearch), Min(Cut(g, n, t), eSearch + 1);
    forall m | top - |picks| <= m < top ensures m in picks {
      assert picks[top - 1 - m] == m;
    }
    forall k | g.indptr[n] <= k < g.indptr[n + 1] && k <= eSearch && g.ts[k] < t && k !in picks
      ensures |picks| == neighs && forall i :: 0 <= i < neighs ==> k < picks[i]
    {
      CutSplits(g, n, t, k);
    }
  }

  /** A search that starts late enough leaves nothing out. */
  lemma UpToIsLatest(g: Graph, n: nat, t: int, neighs: nat, eSearch: nat)
    requires GoodGraph(g) && IsNode(g, n) && PtrOk(g, n, eSearch) && Cut(g, n, t) - 1 <= eSearch
    ensures LatestUpTo(g, n, t, neighs, eSearch) == Latest(g, n, t, neighs)
  {
  }

  /** The recent branch: from the end pointer backwards, skipping entries that are not past. */
  method PickRecent(g: Graph, n: nat, t: int, neighs: nat, eSearch: nat) returns (picks: seq<nat>)
    requires GoodGraph(g) && IsNode(g, n) && PtrOk(g, n, eSearch)
    ensures picks == LatestUpTo(g, n, t, neighs, eSearch)
  {
    var sSearch := g.indptr[n];
    ghost var top := Min(Cut(g, n, t), eSearch + 1);
    picks := [];
    if !(eSearch == sSearch && g.indptr[n + 1] == eSearch) {
      var curNei := neighs;
      var k: int := eSearch;
      while k >= sSearch && curNei > 0
        invariant sSearch - 1 <= k <= eSearch
        invariant 0 <= curNei == neighs - |picks|
        invariant |picks| == (if k < top then top - 1 - k else 0)
        invariant forall i :: 0 <= i < |picks| ==> picks[i] == top - 1 - i
        decreases k
      {
        CutSplits(g, n, t, k);
        if g.ts[k] < t {
          curNei := curNei - 1;
          picks := picks + [k];
        }
        k := k - 1;
      }
    }
  }

  /** Where draw `i` for root `j` of layer `l` points, between the start of the row and the end pointer. */
  function Draw(g: Graph, n: nat, eSearch: nat, rand: (nat, nat, nat) -> nat, l: nat, j: nat, i: nat): (k: nat)
    requires IsNode(g, n) && g.indptr[n] <= eSearch
    ensures g.indptr[n] <= k <= eSearch
  {
    g.indptr[n] + rand(l, j, i) % (eSearch - g.indptr[n] + 1)
  }

  /** Every entry between the two can be drawn, and the draw goes round. */
  lemma DrawReaches(g: Graph, n: nat, eSearch: nat, rand: (nat, nat, nat) -> nat, l: nat, j: nat, i: nat, k: nat,
                    turns: nat)
    requires IsNode(g, n) && g.indptr[n] <= k <= eSearch
    requires rand(l, j, i) == turns * (eSearch - g.indptr[n] + 1) + (k - g.indptr[n])
    ensures Draw(g, n, eSearch, rand, l, j, i) == k
  {
    Quotient(turns, k - g.indptr[n], eSearch - g.indptr[n] + 1);
  }

  /** What the first `m` draws take: those that are past, in the order they are drawn. */
  function RandomPicks(g: Graph, n: nat, t: int, m: nat, eSearch: nat, rand: (nat, nat, nat) -> nat, l: nat, j: nat)
    : (picks: seq<nat>)
    requires GoodGraph(g) && IsNode(g, n) && PtrOk(g, n, eSearch) && m <= eSearch - g.indptr[n]
    ensures InRange(picks, |g.ts|) && Past(g, n, t, picks) && |picks| <= m
  {
    if m == 0 then []
    else
      assert RowOk(g, n);
      var k := Draw(g, n, eSearch, rand, l, j, m - 1);
      RandomPicks(g, n, t, m - 1, eSearch, rand, l, j) + (if g.ts[k] < t then [k] else [])
  }

  /** Every draw that is past is taken, and nothing else. */
  lemma {:induction false} RandomMeaning(g: Graph, n: nat, t: int, m: nat, eSearch: nat, rand: (nat, nat, nat) -> nat,
                                         l: nat, j: nat, k: nat)
    requires GoodGraph(g) && IsNode(g, n) && PtrOk(g, n, eSearch) && m <= eSearch - g.indptr[n]
    ensures k in RandomPicks(g, n, t, m, eSearch, rand, l, j)
      <==> k < |g.ts| && g.ts[k] < t && exists i :: 0 <= i < m && Draw(g, n, eSearch, rand, l, j, i) == k
  {
    hide GoodGraph, Draw, Past;
    if m > 0 {
      RandomMeaning(g, n, t, m - 1, eSearch, rand, l, j, k);
      EndInside(g, n, eSearch);
      var pre := RandomPicks(g, n, t, m - 1, eSearch, rand, l, j);
      assert k in pre + [Draw(g, n, eSearch, rand, l, j, m - 1)]
        <==> k in pre || k == Draw(g, n, eSearch, rand, l, j, m - 1);
      assert pre + [] == pre;
    }
  }

  /** The draws that are past are taken in the order they are drawn, as often as they are drawn. */
  lemma {:induction false} RandomOrder(g: Graph, n: nat, t: int, m: nat, eSearch: nat, rand: (nat, nat, nat) -> nat,
                                       l: nat, j: nat, i: nat)
    requires GoodGraph(g) && IsNode(g, n) && PtrOk(g, n, eSearch) && i < m <= eSearch - g.indptr[n]
    ensures var before := RandomPicks(g, n, t, i, eSearch, rand, l, j);
      var all := RandomPicks(g, n, t, m, eSearch, rand, l, j);
      && Draw(g, n, eSearch, rand, l, j, i) < |g.ts| && before <= all
      && (g.ts[Draw(g, n, eSearch, rand, l, j, i)] < t ==>
        |before| < |all| && all[|before|] == Draw(g, n, eSearch, rand, l, j, i))
  {
    hide GoodGraph, Draw, Past;
    EndInside(g, n, eSearch);
    if i < m - 1 {
      RandomOrder(g, n, t, m - 1, eSearch, rand, l, j, i);
    }
  }

  lemma EndInside(g: Graph, n: nat, eSearch: nat)
    requires GoodGraph(g) && IsNode(g, n) && PtrOk(g, n, eSearch) && g.indptr[n] < eSearch
    ensures eSearch < |g.ts|
  {
    assert RowOk(g, n);
  }

  /** The random branch, with the values that `rand_r` returns. */
  method PickRandom(g: Graph, n: nat, t: int, neighs: nat, eSearch: nat, rand: (nat, nat, nat) -> nat, l: nat, j: nat)
    returns (picks: seq<nat>)
    requires GoodGraph(g) && IsNode(g, n) && PtrOk(g, n, eSearch)
    requires neighs <= eSearch - g.indptr[n]
    ensures picks == RandomPicks(g, n, t, neighs, eSearch, rand, l, j)
  {
    var sSearch := g.indptr[n];
    picks := [];
    for i := 0 to neighs
      invariant picks == RandomPicks(g, n, t, i, eSearch, rand, l, j)
    {
      var picked := sSearch + rand(l, j, i) % (eSearch - sSearch + 1);
      if g.ts[picked] < t {
        picks := picks + [picked];
      }
    }
  }

  /** What is taken for one root: the latest past entries up to the end pointer, or in random mode, if there are
      candidates enough, the past ones among `neighs` draws. */
  function Picked(g: Graph, recent: bool, n: nat, t: int, neighs: nat, eSearch: nat, rand: (nat, nat, nat) -> nat,
                  l: nat, j: nat): (picks: seq<nat>)
    requires GoodGraph(g) && IsNode(g, n) && PtrOk(g, n, eSearch)
    ensures InRange(picks, |g.ts|) && Past(g, n, t, picks)
  {
    if recent || eSearch - g.indptr[n] < neighs then LatestUpTo(g, n, t, neighs, eSearch)
    else RandomPicks(g, n, t, neighs, eSearch, rand, l, j)
  }

  /** Where the search from the end may start: at or past the last past entry; and by binary search, at the last entry
      that is not after `t`, or at the start of the row. */
  ghost predicate EndOk(g: Graph, n: nat, t: int, usePtr: bool, eSearch: nat)
    requires GoodGraph(g) && IsNode(g, n)
  {
    && PtrOk(g, n, eSearch) && Cut(g, n, t) - 1 <= eSearch
    && (!usePtr ==>
      && (forall k :: g.indptr[n] <= k < g.indptr[n + 1] && k > eSearch ==> t < g.ts[k])
      && (eSearch > g.indptr[n] ==> eSearch < |g.ts| && g.ts[eSearch] <= t))
  }

  /** In recent mode, and wherever there are fewer candidates than wanted, that is all latest past entries. */
  lemma PickedLatest(g: Graph, recent: bool, n: nat, t: int, neighs: nat, usePtr: bool, eSearch: nat,
                     rand: (nat, nat, nat) -> nat, l: nat, j: nat)
    requires GoodGraph(g) && IsNode(g, n) && EndOk(g, n, t, usePtr, eSearch)
    requires recent || eSearch - g.indptr[n] < neighs
    ensures Picked(g, recent, n, t, neighs, eSearch, rand, l, j) == Latest(g, n, t, neighs)
  {
    UpToIsLatest(g, n, t, neighs, eSearch);
  }

  /** With candidates enough, random mode takes the past ones among exactly `neighs` draws. */
  lemma PickedDrawn(g: Graph, n: nat, t: int, neighs: nat, eSearch: nat, rand: (nat, nat, nat) -> nat, l: nat, j: nat,
                    k: nat)
    requires GoodGraph(g) && IsNode(g, n) && PtrOk(g, n, eSearch) && neighs <= eSearch - g.indptr[n]
    ensures Picked(g, false, n, t, neighs, eSearch, rand, l, j) == RandomPicks(g, n, t, neighs, eSearch, rand, l, j)
    ensures k in Picked(g, false, n, t, neighs, eSearch, rand, l, j)
      <==> k < |g.ts| && g.ts[k] < t && exists i :: 0 <= i < neighs && Draw(g, n, eSearch, rand, l, j, i) == k
  {
    RandomMeaning(g, n, t, neighs, eSearch, rand, l, j, k);
  }

  // ----------------------------------------------------------------------- edge lists in coordinates

  /** The six vectors of one thread, and how many roots it has been through. */
  datatype Coo = Coo(row: seq<int>, col: seq<int>, eid: seq<nat>, ts: seq<int>, dts: seq<int>, nodes: seq<nat>,
                     out: nat)

  const EMPTY: Coo := Coo([], [], [], [], [], [], 0)

  ghost predicate Even(c: Coo) {
    |c.row| == |c.col| == |c.eid| == |c.ts| == |c.dts| == |c.nodes|
  }

  /** `add_neighbor`: one more edge, to entry `k`, for a root of time `t`. */
  function AddNeighbor(g: Graph, propTime: bool, c: Coo, k: nat, t: int): (c': Coo)
    requires k < |g.ts| == |g.eid| == |g.indices|
  {
    Coo(c.row + [c.out], c.col + [|c.nodes|], c.eid + [g.eid[k]], c.ts + [if propTime then t else g.ts[k]],
        c.dts + [t - g.ts[k]], c.nodes + [g.indices[k]], c.out)
  }

  function AddAll(g: Graph, propTime: bool, c: Coo, picks: seq<nat>, t: int): (c': Coo)
    requires |g.ts| == |g.eid| == |g.indices| && InRange(picks, |g.ts|)
  {
    if |picks| == 0 then c
    else AddNeighbor(g, propTime, AddAll(g, propTime, c, picks[..|picks| - 1], t), picks[|picks| - 1], t)
  }

  /** One list of entries for every root. */
  ghost predicate PicksOk(g: Graph, rts: seq<int>, picks: seq<seq<nat>>) {
    && |g.ts| == |g.eid| == |g.indices| && |rts| == |picks|
    && forall j :: 0 <= j < |picks| ==> InRange(picks[j], |g.ts|)
  }

  /** One sequential pass over the roots with these picks. */
  function Pass(g: Graph, propTime: bool, rts: seq<int>, picks: seq<seq<nat>>): (c: Coo)
    requires PicksOk(g, rts, picks)
  {
    if |picks| == 0 then EMPTY
    else
      var n := |picks| - 1;
      var c := AddAll(g, propTime, Pass(g, propTime, rts[..n], picks[..n]), picks[n], rts[n]);
      c.(out := c.out + 1)
  }

  function Shift(s: seq<int>, by_: int): (r: seq<int>) {
    seq(|s|, i requires 0 <= i < |s| => s[i] + by_)
  }

  /** The vectors of one thread put behind those of the threads before it. */
  function Join(a: Coo, b: Coo): (c: Coo) {
    Coo(a.row + Shift(b.row, a.out), a.col + Shift(b.col, |a.col|), a.eid + b.eid, a.ts + b.ts, a.dts + b.dts,
        a.nodes + b.nodes, a.out + b.out)
  }

  function JoinAll(parts: seq<Coo>): (c: Coo) {
    if |parts| == 0 then EMPTY else Join(JoinAll(parts[..|parts| - 1]), parts[|parts| - 1])
  }

  lemma {:induction false} AddAllSize(g: Graph, propTime: bool, c: Coo, picks: seq<nat>, t: int)
    requires |g.ts| == |g.eid| == |g.indices| && InRange(picks, |g.ts|) && Even(c)
    ensures Even(AddAll(g, propTime, c, picks, t)) && AddAll(g, propTime, c, picks, t).out == c.out
    ensures |AddAll(g, propTime, c, picks, t).row| == |c.row| + |picks|
  {
    if |picks| > 0 {
      AddAllSize(g, propTime, c, picks[..|picks| - 1], t);
    }
  }

  lemma {:induction false} PassSize(g: Graph, propTime: bool, rts: seq<int>, picks: seq<seq<nat>>)
    requires PicksOk(g, rts, picks)
    ensures Even(Pass(g, propTime, rts, picks)) && Pass(g, propTime, rts, picks).out == |picks|
    ensures |Pass(g, propTime, rts, picks).row| == |Concat(picks)|
  {
    if |picks| > 0 {
      var n := |picks| - 1;
      PassSize(g, propTime, rts[..n], picks[..n]);
      AddAllSize(g, propTime, Pass(g, propTime, rts[..n], picks[..n]), picks[n], rts[n]);
    }
  }

  lemma {:induction false} JoinAddAll(g: Graph, propTime: bool, a: Coo, b: Coo, picks: seq<nat>, t: int)
    requires |g.ts| == |g.eid| == |g.indices| && InRange(picks, |g.ts|) && Even(a) && Even(b)
    ensures Join(a, AddAll(g, propTime, b, picks, t)) == AddAll(g, propTime, Join(a, b), picks, t)
  {
    if |picks| > 0 {
      var pre := AddAll(g, propTime, b, picks[..|picks| - 1], t);
      JoinAddAll(g, propTime, a, b, picks[..|picks| - 1], t);
      AddAllSize(g, propTime, b, picks[..|picks| - 1], t);
      JoinAddNeighbor(g, propTime, a, pre, picks[|picks| - 1], t);
    }
  }

  lemma JoinAddNeighbor(g: Graph, propTime: bool, a: Coo, b: Coo, k: nat, t: int)
    requires |g.ts| == |g.eid| == |g.indices| && k < |g.ts| && Even(a) && Even(b)
    ensures Join(a, AddNeighbor(g, propTime, b, k, t)) == AddNeighbor(g, propTime, Join(a, b), k, t)
  {
    var c := AddNeighbor(g, propTime, b, k, t);
    assert Shift(c.row, a.out) == Shift(b.row, a.out) + [a.out + b.out];
    assert Shift(c.col, |a.col|) == Shift(b.col, |a.col|) + [|a.nodes + b.nodes|];
  }

  /** Two passes over neighbouring stretches of roots, joined, are one pass over both. */
  lemma {:induction false} PassJoin(
    g: Graph, propTime: bool, rtsA: seq<int>, picksA: seq<seq<nat>>, rtsB: seq<int>, picksB: seq<seq<nat>>)
    requires PicksOk(g, rtsA, picksA) && PicksOk(g, rtsB, picksB)
    ensures PicksOk(g, rtsA + rtsB, picksA + picksB)
    ensures Join(Pass(g, propTime, rtsA, picksA), Pass(g, propTime, rtsB, picksB))
      == Pass(g, propTime, rtsA + rtsB, picksA + picksB)
  {
    hide Pass, PicksOk, AddAll, Join;
    PicksJoin(g, rtsA, picksA, rtsB, picksB);
    var picks, rts := picksA + picksB, rtsA + rtsB;
    if |picksB| == 0 {
      assert picks == picksA && rts == rtsA;
      PassNone(g, propTime, rtsB, picksB);
      JoinEmpty(Pass(g, propTime, rtsA, picksA));
    } else {
      var n, m := |picksB| - 1, |picks| - 1;
      assert picks[..m] == picksA + picksB[..n] && rts[..m] == rtsA + rtsB[..n];
      assert picks[m] == picksB[n] && rts[m] == rtsB[n];
      PassLast(g, propTime, rtsB, picksB);
      PassLast(g, propTime, rts, picks);
      PassJoin(g, propTime, rtsA, picksA, rtsB[..n], picksB[..n]);
      PassSize(g, propTime, rtsA, picksA);
      PassSize(g, propTime, rtsB[..n], picksB[..n]);
      JoinStep(g, propTime, Pass(g, propTime, rtsA, picksA), Pass(g, propTime, rtsB[..n], picksB[..n]), picksB[n],
               rtsB[n]);
    }
  }

  lemma PicksJoin(g: Graph, rtsA: seq<int>, picksA: seq<seq<nat>>, rtsB: seq<int>, picksB: seq<seq<nat>>)
    requires PicksOk(g, rtsA, picksA) && PicksOk(g, rtsB, picksB)
    ensures PicksOk(g, rtsA + rtsB, picksA + picksB)
    ensures |g.ts| == |g.eid| == |g.indices| && |rtsA| == |picksA| && |rtsB| == |picksB|
  {
  }

  lemma PassNone(g: Graph, propTime: bool, rts: seq<int>, picks: seq<seq<nat>>)
    requires PicksOk(g, rts, picks) && |picks| == 0
    ensures Pass(g, propTime, rts, picks) == EMPTY
  {
  }

  lemma PassLast(g: Graph, propTime: bool, rts: seq<int>, picks: seq<seq<nat>>)
    requires PicksOk(g, rts, picks) && |picks| > 0
    ensures |g.ts| == |g.eid| == |g.indices| && |rts| == |picks|
    ensures var n := |picks| - 1;
      && PicksOk(g, rts[..n], picks[..n]) && InRange(picks[n], |g.ts|)
      && var c := AddAll(g, propTime, Pass(g, propTime, rts[..n], picks[..n]), picks[n], rts[n]);
         Pass(g, propTime, rts, picks) == c.(out := c.out + 1)
  {
  }

  /** Joining and passing over one more root can be done in either order. */
  lemma JoinStep(g: Graph, propTime: bool, a: Coo, b: Coo, picks: seq<nat>, t: int)
    requires |g.ts| == |g.eid| == |g.indices| && InRange(picks, |g.ts|) && Even(a) && Even(b)
    ensures var c, d := AddAll(g, propTime, b, picks, t), AddAll(g, propTime, Join(a, b), picks, t);
      Join(a, c.(out := c.out + 1)) == d.(out := d.out + 1)
  {
    JoinAddAll(g, propTime, a, b, picks, t);
    AddAllSize(g, propTime, b, picks, t);
    AddAllSize(g, propTime, Join(a, b), picks, t);
  }

  lemma JoinEmpty(a: Coo)
    ensures Join(a, EMPTY) == a
  {
  }

  /** The block returned for a layer: the roots, and behind them the sampled neighbours. */
  datatype Block = Block(
    row: seq<int>, col: seq<int>, eid: seq<nat>, ts: seq<int>, dts: seq<int>, nodes: seq<nat>, dimIn: nat, dimOut: nat)

  /** The block for these roots and this edge list. */
  function Assemble(roots: seq<nat>, rts: seq<int>, c: Coo): (b: Block)
    requires |roots| == |rts|
  {
    Block(c.row, Shift(c.col, |roots|), c.eid, rts + c.ts, seq(|roots|, i => 0) + c.dts, roots + c.nodes,
          |roots| + |c.nodes|, c.out)
  }

  /** Copying a vector into place, behind what is there. */
  method CopyAt<T>(a: array<T>, at: nat, vals: seq<T>)
    requires at + |vals| <= a.Length
    modifies a
    ensures a[..at + |vals|] == old(a[..at]) + vals
  {
    ghost var pre := a[..at];
    for i := 0 to |vals|
      invariant a[..at + i] == pre + vals[..i]
    {
      a[at + i] := vals[i];
      assert a[..at + i + 1] == a[..at + i] + [vals[i]];
      ConcatAssociative(pre, vals[..i], [vals[i]]);
      assert vals[..i + 1] == vals[..i] + [vals[i]];
    }
    assert vals[..|vals|] == vals;
  }

  lemma JoinAllPrefix(parts: seq<Coo>, tid: nat)
    requires tid < |parts|
    ensures JoinAll(parts[..tid + 1]) == Join(JoinAll(parts[..tid]), parts[tid])
  {
    assert parts[..tid + 1][..tid] == parts[..tid];
  }

  lemma {:induction false} JoinAllEven(parts: seq<Coo>)
    requires forall i :: 0 <= i < |parts| ==> Even(parts[i])
    ensures Even(JoinAll(parts))
  {
    if |parts| > 0 {
      JoinAllEven(parts[..|parts| - 1]);
    }
  }

  /** The first loop of `combine_coo`: where the roots and the edges of every thread start. */
  method Offsets(parts: seq<Coo>) returns (cumRow: seq<nat>, cumCol: seq<nat>)
    ensures |cumRow| == |cumCol| == |parts| + 1
    ensures forall i :: 0 <= i <= |parts| ==>
      cumRow[i] == JoinAll(parts[..i]).out && cumCol[i] == |JoinAll(parts[..i]).col|
  {
    cumRow, cumCol := [0], [0];
    for tid := 0 to |parts|
      invariant |cumRow| == |cumCol| == tid + 1
      invariant forall i :: 0 <= i <= tid ==>
        cumRow[i] == JoinAll(parts[..i]).out && cumCol[i] == |JoinAll(parts[..i]).col|
    {
      JoinAllPrefix(parts, tid);
      cumRow := cumRow + [cumRow[tid] + parts[tid].out];
      cumCol := cumCol + [cumCol[tid] + |parts[tid].col|];
    }
  }

  /** `cum[i]` is where piece `i` starts. */
  ghost predicate CumFits<T>(pieces: seq<seq<T>>, cum: seq<nat>) {
    |cum| == |pieces| + 1 && forall i :: 0 <= i <= |pieces| ==> cum[i] == |Concat(pieces[..i])|
  }

  /** The second loop of `combine_coo`, for one of its vectors: every thread's piece is copied to where the
      threads before it end, behind `lead`. */
  method Stitch<T>(lead: seq<T>, pieces: seq<seq<T>>, cum: seq<nat>, filler: T) returns (r: seq<T>)
    requires CumFits(pieces, cum)
    ensures r == lead + Concat(pieces)
  {
    assert pieces[..|pieces|] == pieces;
    forall i | 0 <= i <= |pieces| ensures cum[i] <= cum[|pieces|] {
      ConcatPrefix(pieces, i);
    }
    var a := new T[|lead| + cum[|pieces|]](_ => filler);
    CopyAt(a, 0, lead);
    assert a[..0] == [] && pieces[..0] == [];
    for tid := 0 to |pieces|
      invariant a[..|lead| + cum[tid]] == lead + Concat(pieces[..tid])
    {
      ConcatNext(pieces, tid);
      CopyAt(a, |lead| + cum[tid], pieces[tid]);
      ConcatAssociative(lead, Concat(pieces[..tid]), pieces[tid]);
    }
    r := a[..];
  }

  function RowPieces(parts: seq<Coo>): (r: seq<seq<int>>)
    ensures |r| == |parts|
  {
    seq(|parts|, i requires 0 <= i < |parts| => Shift(parts[i].row, JoinAll(parts[..i]).out))
  }

  function ColPieces(parts: seq<Coo>, base: int): (r: seq<seq<int>>)
    ensures |r| == |parts|
  {
    seq(|parts|, i requires 0 <= i < |parts| => Shift(parts[i].col, |JoinAll(parts[..i]).col| + base))
  }

  function EidPieces(parts: seq<Coo>): (r: seq<seq<nat>>)
    ensures |r| == |parts|
  {
    seq(|parts|, i requires 0 <= i < |parts| => parts[i].eid)
  }

  function TsPieces(parts: seq<Coo>): (r: seq<seq<int>>)
    ensures |r| == |parts|
  {
    seq(|parts|, i requires 0 <= i < |parts| => parts[i].ts)
  }

  function DtsPieces(parts: seq<Coo>): (r: seq<seq<int>>)
    ensures |r| == |parts|
  {
    seq(|parts|, i requires 0 <= i < |parts| => parts[i].dts)
  }

  function NodesPieces(parts: seq<Coo>): (r: seq<seq<nat>>)
    ensures |r| == |parts|
  {
    seq(|parts|, i requires 0 <= i < |parts| => parts[i].nodes)
  }

  /** The stitched vectors are those of the joined edge list. */
  lemma {:induction false} PiecesJoined(parts: seq<Coo>, base: int)
    ensures var c := JoinAll(parts);
      && Concat(RowPieces(parts)) == c.row && Concat(ColPieces(parts, base)) == Shift(c.col, base)
      && Concat(EidPieces(parts)) == c.eid
      && Concat(TsPieces(parts)) == c.ts && Concat(DtsPieces(parts)) == c.dts && Concat(NodesPieces(parts)) == c.nodes
  {
    hide JoinAll, RowPieces, ColPieces, Concat;
    if |parts| > 0 {
      var n := |parts| - 1;
      PiecesJoined(parts[..n], base);
      PiecesPrefix(parts, base, n);
      JoinAllLast(parts, base);
      ConcatLast(RowPieces(parts));
      ConcatLast(ColPieces(parts, base));
      ConcatLast(EidPieces(parts));
      ConcatLast(TsPieces(parts));
      ConcatLast(DtsPieces(parts));
      ConcatLast(NodesPieces(parts));
    } else {
      NoPieces(parts, base);
    }
  }

  lemma NoPieces(parts: seq<Coo>, base: int)
    requires parts == []
    ensures JoinAll(parts) == EMPTY
    ensures Concat(RowPieces(parts)) == [] && Concat(ColPieces(parts, base)) == [] && Concat(EidPieces(parts)) == []
    ensures Concat(TsPieces(parts)) == [] && Concat(DtsPieces(parts)) == [] && Concat(NodesPieces(parts)) == []
  {
  }

  lemma ConcatLast<T>(pieces: seq<seq<T>>)
    requires |pieces| > 0
    ensures Concat(pieces) == Concat(pieces[..|pieces| - 1]) + pieces[|pieces| - 1]
  {
  }

  lemma JoinAllLast(parts: seq<Coo>, base: int)
    requires |parts| > 0
    ensures JoinAll(parts) == Join(JoinAll(parts[..|parts| - 1]), parts[|parts| - 1])
    ensures RowPieces(parts)[|parts| - 1] == Shift(parts[|parts| - 1].row, JoinAll(parts[..|parts| - 1]).out)
    ensures ColPieces(parts, base)[|parts| - 1]
      == Shift(parts[|parts| - 1].col, |JoinAll(parts[..|parts| - 1]).col| + base)
  {
  }

  lemma PiecesPrefix(parts: seq<Coo>, base: int, n: nat)
    requires n <= |parts|
    ensures RowPieces(parts)[..n] == RowPieces(parts[..n]) && ColPieces(parts, base)[..n] == ColPieces(parts[..n], base)
    ensures EidPieces(parts)[..n] == EidPieces(parts[..n]) && TsPieces(parts)[..n] == TsPieces(parts[..n])
    ensures DtsPieces(parts)[..n] == DtsPieces(parts[..n]) && NodesPieces(parts)[..n] == NodesPieces(parts[..n])
  {
    ShiftedPrefix(parts, base, n);
    hide RowPieces, ColPieces, JoinAll;
  }

  lemma ShiftedPrefix(parts: seq<Coo>, base: int, n: nat)
    requires n <= |parts|
    ensures RowPieces(parts)[..n] == RowPieces(parts[..n]) && ColPieces(parts, base)[..n] == ColPieces(parts[..n], base)
  {
    hide JoinAll;
    forall i | 0 <= i < n ensures parts[..n][..i] == parts[..i] {
    }
  }

  /** The offsets fit every one of the six vectors. */
  lemma OffsetsFit(parts: seq<Coo>, base: int, i: nat)
    requires i <= |parts| && forall j :: 0 <= j < |parts| ==> Even(parts[j])
    ensures var k := |JoinAll(parts[..i]).col|;
      && |Concat(RowPieces(parts)[..i])| == k && |Concat(ColPieces(parts, base)[..i])| == k
      && |Concat(EidPieces(parts)[..i])| == k && |Concat(TsPieces(parts)[..i])| == k
      && |Concat(DtsPieces(parts)[..i])| == k && |Concat(NodesPieces(parts)[..i])| == k
  {
    PiecesPrefix(parts, base, i);
    PiecesJoined(parts[..i], base);
    JoinAllEven(parts[..i]);
  }

  /** `std::transform` on the row ids, or on the column ids, of every thread. */
  function Shifted(parts: seq<Coo>, cum: seq<nat>, rows: bool, base: int): (r: seq<seq<int>>)
    requires |cum| == |parts| + 1
    ensures |r| == |parts|
  {
    seq(|parts|, tid requires 0 <= tid < |parts| =>
      Shift(if rows then parts[tid].row else parts[tid].col, cum[tid] + base))
  }

  lemma ShiftedPieces(parts: seq<Coo>, cumRow: seq<nat>, cumCol: seq<nat>, base: int)
    requires |cumRow| == |cumCol| == |parts| + 1
    requires forall i :: 0 <= i <= |parts| ==>
      cumRow[i] == JoinAll(parts[..i]).out && cumCol[i] == |JoinAll(parts[..i]).col|
    ensures Shifted(parts, cumRow, true, 0) == RowPieces(parts)
    ensures Shifted(parts, cumCol, false, base) == ColPieces(parts, base)
  {
    hide JoinAll;
  }

  lemma AllFit(parts: seq<Coo>, cum: seq<nat>, base: int)
    requires forall j :: 0 <= j < |parts| ==> Even(parts[j])
    requires |cum| == |parts| + 1 && forall i :: 0 <= i <= |parts| ==> cum[i] == |JoinAll(parts[..i]).col|
    ensures CumFits(RowPieces(parts), cum) && CumFits(ColPieces(parts, base), cum) && CumFits(EidPieces(parts), cum)
    ensures CumFits(TsPieces(parts), cum) && CumFits(DtsPieces(parts), cum) && CumFits(NodesPieces(parts), cum)
  {
    forall i | 0 <= i <= |parts| {
      OffsetsFit(parts, base, i);
    }
    hide JoinAll, Concat;
  }

  /** The vectors of `combine_coo` that hold one entry per edge. */
  method StitchEdges(parts: seq<Coo>, cumRow: seq<nat>, cumCol: seq<nat>, base: nat)
    returns (row: seq<int>, col: seq<int>, eid: seq<nat>)
    requires |cumRow| == |cumCol| == |parts| + 1
    requires CumFits(RowPieces(parts), cumCol) && CumFits(ColPieces(parts, base), cumCol)
    requires CumFits(EidPieces(parts), cumCol)
    requires Shifted(parts, cumRow, true, 0) == RowPieces(parts)
    requires Shifted(parts, cumCol, false, base) == ColPieces(parts, base)
    ensures row == JoinAll(parts).row && col == Shift(JoinAll(parts).col, base) && eid == JoinAll(parts).eid
  {
    PiecesJoined(parts, base);
    hide CumFits, Shifted, RowPieces, ColPieces, EidPieces, JoinAll, Concat, Shift;
    row := Stitch([], Shifted(parts, cumRow, true, 0), cumCol, 0);
    col := Stitch([], Shifted(parts, cumCol, false, base), cumCol, 0);
    eid := Stitch([], EidPieces(parts), cumCol, 0);
  }

  /** `combine_coo`: stitched by prefix sums, the threads' vectors make the block of the joined edge list. */
  method CombineCoo(roots: seq<nat>, rts: seq<int>, parts: seq<Coo>) returns (b: Block)
    requires |roots| == |rts| && forall i :: 0 <= i < |parts| ==> Even(parts[i])
    ensures b == Assemble(roots, rts, JoinAll(parts))
  {
    var cumRow, cumCol := Offsets(parts);
    ShiftedPieces(parts, cumRow, cumCol, |roots|);
    AllFit(parts, cumCol, |roots|);
    assert cumRow[|parts|] == JoinAll(parts).out by { assert parts[..|parts|] == parts; }
    hide Even, CumFits, Shifted, RowPieces, ColPieces, EidPieces, TsPieces, DtsPieces, NodesPieces, JoinAll, Concat;
    var row, col, eid := StitchEdges(parts, cumRow, cumCol, |roots|);
    PiecesJoined(parts, |roots|);
    var ts := Stitch(rts, TsPieces(parts), cumCol, 0);
    var dts := Stitch(seq(|roots|, i => 0), DtsPieces(parts), cumCol, 0);
    var nodes := Stitch(roots, NodesPieces(parts), cumCol, 0);
    b := Block(row, col, eid, ts, dts, nodes, |nodes|, cumRow[|parts|]);
  }

  // -------------------------------------------------------------------------- what a block says

  /** Edge `e` of the list leads from root `j` of time `t` to entry `k`. */
  ghost predicate Says(g: Graph, propTime: bool, c: Coo, e: nat, j: nat, t: int, k: nat) {
    && Even(c) && |g.ts| == |g.eid| == |g.indices| && e < |c.row| && k < |g.ts|
    && c.row[e] == j && c.col[e] == e && c.eid[e] == g.eid[k] && c.nodes[e] == g.indices[k]
    && c.ts[e] == (if propTime then t else g.ts[k]) && c.dts[e] == t - g.ts[k]
  }

  lemma {:induction false} AddAllSays(g: Graph, propTime: bool, c: Coo, picks: seq<nat>, t: int, i: nat)
    requires |g.ts| == |g.eid| == |g.indices| && InRange(picks, |g.ts|) && Even(c) && i < |picks|
    ensures Says(g, propTime, AddAll(g, propTime, c, picks, t), |c.row| + i, c.out, t, picks[i])
  {
    var n := |picks| - 1;
    AddAllSize(g, propTime, c, picks[..n], t);
    if i < n {
      AddAllSays(g, propTime, c, picks[..n], t, i);
    }
  }

  lemma {:induction false} AddAllKeeps(g: Graph, propTime: bool, c: Coo, picks: seq<nat>, t: int, e: nat, j: nat,
                                       u: int, k: nat)
    requires |g.ts| == |g.eid| == |g.indices| && InRange(picks, |g.ts|) && Says(g, propTime, c, e, j, u, k)
    ensures Says(g, propTime, AddAll(g, propTime, c, picks, t), e, j, u, k)
  {
    if |picks| > 0 {
      AddAllKeeps(g, propTime, c, picks[..|picks| - 1], t, e, j, u, k);
      AddAllSize(g, propTime, c, picks[..|picks| - 1], t);
    }
  }

  /** The edges of root `j` stand behind those of the roots before it, in the order they were picked. */
  lemma {:induction false} PassSays(g: Graph, propTime: bool, rts: seq<int>, picks: seq<seq<nat>>, j: nat, i: nat)
    requires PicksOk(g, rts, picks) && j < |picks| && i < |picks[j]|
    ensures Says(g, propTime, Pass(g, propTime, rts, picks), |Concat(picks[..j])| + i, j, rts[j], picks[j][i])
  {
    hide Pass, Says, PicksOk, AddAll, Concat;
    PassLast(g, propTime, rts, picks);
    var n := |picks| - 1;
    var pre := Pass(g, propTime, rts[..n], picks[..n]);
    var e, c := |Concat(picks[..j])| + i, AddAll(g, propTime, pre, picks[n], rts[n]);
    PassSize(g, propTime, rts[..n], picks[..n]);
    if j == n {
      AddAllSays(g, propTime, pre, picks[n], rts[n], i);
    } else {
      assert picks[..n][..j] == picks[..j];
      PassSays(g, propTime, rts[..n], picks[..n], j, i);
      AddAllKeeps(g, propTime, pre, picks[n], rts[n], e, j, rts[j], picks[j][i]);
    }
    SaysOut(g, propTime, c, e, j, rts[j], picks[j][i]);
  }

  lemma SaysOut(g: Graph, propTime: bool, c: Coo, e: nat, j: nat, t: int, k: nat)
    requires Says(g, propTime, c, e, j, t, k)
    ensures Says(g, propTime, c.(out := c.out + 1), e, j, t, k)
  {
  }

  /** Which root an edge belongs to, and the how-manieth of its edges it is. */
  lemma {:induction false} EdgeOwner(picks: seq<seq<nat>>, e: nat) returns (j: nat, i: nat)
    requires e < |Concat(picks)|
    ensures j < |picks| && i < |picks[j]| && e == |Concat(picks[..j])| + i && Concat(picks)[e] == picks[j][i]
  {
    var n := |picks| - 1;
    if e < |Concat(picks[..n])| {
      j, i := EdgeOwner(picks[..n], e);
      assert picks[..n][..j] == picks[..j];
    } else {
      j, i := n, e - |Concat(picks[..n])|;
    }
  }

  /** What a layer's block says: the roots come first, with their times; every sampled edge has its root's
      index as row, its own node's place as column, and there the neighbour, its edge id and its times; and
      the two lengths count roots and edges. */
  lemma BlockMeaning(g: Graph, propTime: bool, roots: seq<nat>, rts: seq<int>, picks: seq<seq<nat>>,
                     e: nat) returns (j: nat, i: nat)
    requires PicksOk(g, rts, picks) && |roots| == |rts| && e < |Concat(picks)|
    ensures j < |picks| && i < |picks[j]| && e == |Concat(picks[..j])| + i
    ensures var b, k, n := LayerBlock(g, propTime, roots, rts, picks), picks[j][i], |roots|;
      && Concat(picks)[e] == k && k < |g.ts| == |g.eid| == |g.indices|
      && |b.row| == |b.col| == |b.eid| == |Concat(picks)| && |b.ts| == |b.dts| == |b.nodes| == b.dimIn
      && b.dimIn == n + |Concat(picks)| && b.dimOut == n
      && b.nodes[..n] == roots && b.ts[..n] == rts && (forall r :: 0 <= r < n ==> b.dts[r] == 0)
      && b.row[e] == j && b.col[e] == n + e && b.nodes[n + e] == g.indices[k] && b.eid[e] == g.eid[k]
      && b.ts[n + e] == (if propTime then rts[j] else g.ts[k]) && b.dts[n + e] == rts[j] - g.ts[k]
  {
    hide Pass, Concat, PicksOk;
    j, i := EdgeOwner(picks, e);
    PassSays(g, propTime, rts, picks, j, i);
    PassSize(g, propTime, rts, picks);
    PicksSize(g, rts, picks);
  }

  lemma PicksSize(g: Graph, rts: seq<int>, picks: seq<seq<nat>>)
    requires PicksOk(g, rts, picks)
    ensures |g.ts| == |g.eid| == |g.indices| && |rts| == |picks|
  {
  }

  lemma BlockSizes(g: Graph, propTime: bool, roots: seq<nat>, rts: seq<int>, picks: seq<seq<nat>>)
    requires PicksOk(g, rts, picks) && |roots| == |rts|
    ensures var b, n := LayerBlock(g, propTime, roots, rts, picks), |roots|;
      && |b.row| == |b.col| == |b.eid| == |Concat(picks)| && |b.ts| == |b.dts| == |b.nodes| == b.dimIn
      && b.dimIn == n + |Concat(picks)| && b.dimOut == n && b.nodes[..n] == roots && b.ts[..n] == rts
      && forall r :: 0 <= r < n ==> b.dts[r] == 0
  {
    hide Pass, Concat;
    PassSize(g, propTime, rts, picks);
  }

  // ---------------------------------------------------------------------------------- one layer

  /** `picks[j]` are the entries sampled for root `j`: entries of its row, all before its time. */
  ghost predicate PastPicks(g: Graph, roots: seq<nat>, rts: seq<int>, picks: seq<seq<nat>>)
    requires GoodGraph(g) && Roots(g, roots, rts)
  {
    && |picks| == |roots|
    && forall j :: 0 <= j < |picks| ==> InRange(picks[j], |g.ts|) && Past(g, roots[j], rts[j], picks[j])
  }

  /** `c` is the edge list of one pass over the roots, with past entries. */
  ghost predicate Passed(g: Graph, propTime: bool, roots: seq<nat>, rts: seq<int>, picks: seq<seq<nat>>, c: Coo)
    requires GoodGraph(g) && Roots(g, roots, rts)
  {
    PastPicks(g, roots, rts, picks) && PicksOk(g, rts, picks) && c == Pass(g, propTime, rts, picks)
  }

  lemma PassedStart(g: Graph, propTime: bool, roots: seq<nat>, rts: seq<int>)
    requires GoodGraph(g) && |roots| == |rts|
    ensures Roots(g, roots[..0], rts[..0]) && Passed(g, propTime, roots[..0], rts[..0], [], EMPTY)
  {
  }

  lemma PassedStep(g: Graph, propTime: bool, roots: seq<nat>, rts: seq<int>, j: nat, picks: seq<seq<nat>>, c: Coo,
                   ks: seq<nat>)
    requires GoodGraph(g) && Roots(g, roots, rts) && j < |roots|
    requires Roots(g, roots[..j], rts[..j]) && Passed(g, propTime, roots[..j], rts[..j], picks, c)
    requires InRange(ks, |g.ts|) && Past(g, roots[j], rts[j], ks)
    ensures |picks| == j && Roots(g, roots[..j + 1], rts[..j + 1])
    ensures var c' := AddAll(g, propTime, c, ks, rts[j]);
      Passed(g, propTime, roots[..j + 1], rts[..j + 1], picks + [ks], c'.(out := c'.out + 1))
  {
    hide Past, GoodGraph, AddAll;
    PastPush(g, roots, rts, j, picks, ks);
    PassPush(g, propTime, rts[..j], rts[j], picks, ks);
    assert rts[..j + 1] == rts[..j] + [rts[j]];
  }

  lemma PastPush(g: Graph, roots: seq<nat>, rts: seq<int>, j: nat, picks: seq<seq<nat>>, ks: seq<nat>)
    requires GoodGraph(g) && Roots(g, roots, rts) && j < |roots|
    requires Roots(g, roots[..j], rts[..j]) && PastPicks(g, roots[..j], rts[..j], picks)
    requires InRange(ks, |g.ts|) && Past(g, roots[j], rts[j], ks)
    ensures |picks| == j && Roots(g, roots[..j + 1], rts[..j + 1])
    ensures PastPicks(g, roots[..j + 1], rts[..j + 1], picks + [ks])
  {
    hide Past, GoodGraph, InRange;
  }

  lemma PassPush(g: Graph, propTime: bool, rts: seq<int>, t: int, picks: seq<seq<nat>>, ks: seq<nat>)
    requires PicksOk(g, rts, picks) && InRange(ks, |g.ts|)
    ensures PicksOk(g, rts + [t], picks + [ks])
    ensures var c := AddAll(g, propTime, Pass(g, propTime, rts, picks), ks, t);
      Pass(g, propTime, rts + [t], picks + [ks]) == c.(out := c.out + 1)
  {
    hide AddAll, InRange;
    assert (rts + [t])[..|picks|] == rts && (picks + [ks])[..|picks|] == picks;
  }

  lemma JoinAllPush(parts: seq<Coo>, part: Coo)
    ensures JoinAll(parts + [part]) == Join(JoinAll(parts), part)
  {
    assert (parts + [part])[..|parts|] == parts;
  }

  lemma TableSize(g: Graph, table: seq<nat>)
    requires GoodGraph(g) && TableOk(g, table)
    ensures |table| == |g.indptr| - 1
  {
  }

  lemma PassedMeans(g: Graph, propTime: bool, roots: seq<nat>, rts: seq<int>, picks: seq<seq<nat>>, c: Coo)
    requires GoodGraph(g) && Roots(g, roots, rts) && Passed(g, propTime, roots, rts, picks, c)
    ensures PastPicks(g, roots, rts, picks) && PicksOk(g, rts, picks) && c == Pass(g, propTime, rts, picks) && Even(c)
  {
    PassSize(g, propTime, rts, picks);
  }

  lemma PassedJoin(g: Graph, propTime: bool, roots: seq<nat>, rts: seq<int>, lo: nat, hi: nat,
                   picksA: seq<seq<nat>>, a: Coo, picksB: seq<seq<nat>>, b: Coo)
    requires GoodGraph(g) && Roots(g, roots, rts) && lo <= hi <= |roots|
    requires Roots(g, roots[..lo], rts[..lo]) && Passed(g, propTime, roots[..lo], rts[..lo], picksA, a)
    requires Roots(g, roots[lo..hi], rts[lo..hi]) && Passed(g, propTime, roots[lo..hi], rts[lo..hi], picksB, b)
    ensures Roots(g, roots[..hi], rts[..hi])
    ensures Passed(g, propTime, roots[..hi], rts[..hi], picksA + picksB, Join(a, b))
    ensures Even(b) && |picksA| == lo && |picksB| == hi - lo
  {
    PassedMeans(g, propTime, roots[lo..hi], rts[lo..hi], picksB, b);
    PassJoin(g, propTime, rts[..lo], picksA, rts[lo..hi], picksB);
    assert rts[..hi] == rts[..lo] + rts[lo..hi];
    PastPicksJoin(g, roots, rts, lo, hi, picksA, picksB);
  }

  lemma PastPicksJoin(g: Graph, roots: seq<nat>, rts: seq<int>, lo: nat, hi: nat, picksA: seq<seq<nat>>,
                      picksB: seq<seq<nat>>)
    requires GoodGraph(g) && Roots(g, roots, rts) && lo <= hi <= |roots|
    requires Roots(g, roots[..lo], rts[..lo]) && PastPicks(g, roots[..lo], rts[..lo], picksA)
    requires Roots(g, roots[lo..hi], rts[lo..hi]) && PastPicks(g, roots[lo..hi], rts[lo..hi], picksB)
    ensures Roots(g, roots[..hi], rts[..hi]) && PastPicks(g, roots[..hi], rts[..hi], picksA + picksB)
  {
    hide Past, GoodGraph;
  }

  /** The sequential sampler: the latest past entries of every root in turn. */
  function RecentPicks(g: Graph, roots: seq<nat>, rts: seq<int>, neighs: nat): (picks: seq<seq<nat>>)
    requires GoodGraph(g) && Roots(g, roots, rts)
    ensures |picks| == |roots|
    ensures forall j :: 0 <= j < |picks| ==> picks[j] == Latest(g, roots[j], rts[j], neighs)
  {
    seq(|roots|, j requires 0 <= j < |roots| => Latest(g, roots[j], rts[j], neighs))
  }

  /** The block that the sequential sampler returns for these picks. */
  function LayerBlock(g: Graph, propTime: bool, roots: seq<nat>, rts: seq<int>, picks: seq<seq<nat>>): (b: Block)
    requires PicksOk(g, rts, picks) && |roots| == |rts|
  {
    Assemble(roots, rts, Pass(g, propTime, rts, picks))
  }

  /** How many roots the static schedule gives each thread at most: enough for all. */
  function ChunkSize(n: nat, threads: nat): (c: nat)
    requires threads > 0
    ensures c * threads >= n && (n > 0 ==> (c - 1) * threads < n)
  {
    assert (n + threads - 1) / threads * threads == n + threads - 1 - (n + threads - 1) % threads;
    (n + threads - 1) / threads
  }

  function ChunkStart(n: nat, c: nat, tid: nat): (j: nat)
    ensures j <= n
  {
    Min(tid * c, n)
  }

  lemma ChunkBounds(n: nat, c: nat, tid: nat, threads: nat)
    requires c * threads >= n && tid < threads
    ensures ChunkStart(n, c, 0) == 0 && ChunkStart(n, c, threads) == n
    ensures ChunkStart(n, c, tid) <= ChunkStart(n, c, tid + 1)
  {
    assert (tid + 1) * c == tid * c + c;
  }

  /** `ParallelSampler` with `num_history` 1 and no window. */
  class ParallelSampler {
    const g: Graph
    const propTime: bool
    const recent: bool
    const threads: nat
    const tsPtr: array<nat>

    ghost predicate Valid()
      reads tsPtr
    {
      GoodGraph(g) && 0 < threads && TableOk(g, tsPtr[..])
    }

    constructor (graph: Graph, prop: bool, rec: bool, num: nat)
      requires GoodGraph(graph) && 0 < num
      ensures Valid() && g == graph && propTime == prop && recent == rec && threads == num && fresh(tsPtr)
      ensures forall n :: 0 <= n < tsPtr.Length ==> tsPtr[n] == g.indptr[n]
    {
      g, propTime, recent, threads := graph, prop, rec, num;
      tsPtr := new nat[|graph.indptr| - 1](n requires 0 <= n < |graph.indptr| - 1 => graph.indptr[n]);
      new;
      forall n: nat | n < tsPtr.Length ensures PtrOk(g, n, tsPtr[n]) {
        assert RowOk(g, n);
      }
    }

    method Reset()
      requires Valid()
      modifies tsPtr
      ensures Valid() && forall n :: 0 <= n < tsPtr.Length ==> tsPtr[n] == g.indptr[n]
    {
      forall n | 0 <= n < tsPtr.Length { tsPtr[n] := g.indptr[n]; }
      forall n: nat | n < tsPtr.Length ensures PtrOk(g, n, tsPtr[n]) {
        assert RowOk(g, n);
      }
    }

    /** `update_ts_ptr`: the threads take the roots in some order `order`. */
    method UpdateTsPtr(roots: seq<nat>, rts: seq<int>, order: seq<nat>)
      requires Valid() && Roots(g, roots, rts) && InRange(order, |roots|)
      modifies tsPtr
      ensures Valid() && tsPtr[..] == RunSteps(g, old(tsPtr[..]), roots, rts, order)
    {
      for k := 0 to |order|
        invariant Valid() && tsPtr[..] == RunSteps(g, old(tsPtr[..]), roots, rts, order[..k])
      {
        assert order[..k + 1][..k] == order[..k];
        var n := roots[order[k]];
        var q := AdvancePtr(g, n, tsPtr[n], rts[order[k]]);
        tsPtr[n] := q;
      }
      assert order[..|order|] == order;
    }

    /** Where the search from the end starts: the node's pointer, or a binary search in the row. */
    function EndSearch(n: nat, t: int, usePtr: bool): (eSearch: nat)
      requires Valid() && IsNode(g, n)
      reads tsPtr
      ensures PtrOk(g, n, eSearch) && (!usePtr ==> EndOk(g, n, t, usePtr, eSearch))
    {
      assert RowOk(g, n);
      if usePtr then tsPtr[n]
      else Max(FirstNotBefore(g.ts, g.indptr[n], g.indptr[n + 1], t + 1) - 1, g.indptr[n])
    }

    /** The body of the sampling loop for one root: root `j` of layer `l`. */
    method PickNeighbors(n: nat, t: int, neighs: nat, usePtr: bool, rand: (nat, nat, nat) -> nat, l: nat, j: nat)
      returns (picks: seq<nat>)
      requires Valid() && IsNode(g, n)
      ensures picks == Picked(g, recent, n, t, neighs, EndSearch(n, t, usePtr), rand, l, j)
    {
      var eSearch := EndSearch(n, t, usePtr);
      if recent || eSearch - g.indptr[n] < neighs {
        picks := PickRecent(g, n, t, neighs, eSearch);
      } else {
        picks := PickRandom(g, n, t, neighs, eSearch, rand, l, j);
      }
    }

    /** What was taken for these roots, the first of which is root `first` of layer `l`. */
    ghost predicate AllPicked(roots: seq<nat>, rts: seq<int>, neighs: nat, usePtr: bool, rand: (nat, nat, nat) -> nat,
                              l: nat, first: nat, picks: seq<seq<nat>>)
      requires Valid() && Roots(g, roots, rts)
      reads tsPtr
    {
      && |picks| == |roots|
      && forall j :: 0 <= j < |roots| ==>
        picks[j] == Picked(g, recent, roots[j], rts[j], neighs, EndSearch(roots[j], rts[j], usePtr), rand, l, first + j)
    }

    /** One iteration of the sampling loop. */
    method SampleRoot(roots: seq<nat>, rts: seq<int>, j: nat, neighs: nat, usePtr: bool, rand: (nat, nat, nat) -> nat,
                      l: nat, first: nat, c: Coo, ghost picks: seq<seq<nat>>)
      returns (c': Coo, ghost ks: seq<nat>)
      requires Valid() && Roots(g, roots, rts) && j < |roots|
      requires Roots(g, roots[..j], rts[..j]) && Passed(g, propTime, roots[..j], rts[..j], picks, c)
      ensures Roots(g, roots[..j + 1], rts[..j + 1])
      ensures |picks| == j && Passed(g, propTime, roots[..j + 1], rts[..j + 1], picks + [ks], c')
      ensures ks == Picked(g, recent, roots[j], rts[j], neighs, EndSearch(roots[j], rts[j], usePtr), rand, l, first + j)
    {
      hide Passed, Past, Cut, AddAll, Picked, GoodGraph, TableOk, EndSearch;
      var found := PickNeighbors(roots[j], rts[j], neighs, usePtr, rand, l, first + j);
      PassedStep(g, propTime, roots, rts, j, picks, c, found);
      c' := AddList(c, found, rts[j]);
      c' := c'.(out := c'.out + 1);
      ks := found;
    }

    /** What one thread does with its stretch of the roots. */
    method SampleChunk(roots: seq<nat>, rts: seq<int>, neighs: nat, usePtr: bool, rand: (nat, nat, nat) -> nat, l: nat,
                       first: nat)
      returns (c: Coo, ghost picks: seq<seq<nat>>)
      requires Valid() && Roots(g, roots, rts)
      ensures Passed(g, propTime, roots, rts, picks, c) && AllPicked(roots, rts, neighs, usePtr, rand, l, first, picks)
    {
      hide Passed, GoodGraph, TableOk, Picked, EndSearch;
      c, picks := EMPTY, [];
      PassedStart(g, propTime, roots, rts);
      for j := 0 to |roots|
        invariant Roots(g, roots[..j], rts[..j]) && Passed(g, propTime, roots[..j], rts[..j], picks, c)
        invariant |picks| == j
        invariant forall i :: 0 <= i < j ==>
          picks[i]
          == Picked(g, recent, roots[i], rts[i], neighs, EndSearch(roots[i], rts[i], usePtr), rand, l, first + i)
      {
        ghost var ks;
        c, ks := SampleRoot(roots, rts, j, neighs, usePtr, rand, l, first, c, picks);
        picks := picks + [ks];
      }
      assert roots[..|roots|] == roots && rts[..|roots|] == rts;
    }

    /** The edges of one root, pushed one by one. */
    method AddList(c0: Coo, ks: seq<nat>, t: int) returns (c: Coo)
      requires Valid() && InRange(ks, |g.ts|)
      ensures c == AddAll(g, propTime, c0, ks, t)
    {
      c := c0;
      for i := 0 to |ks|
        invariant c == AddAll(g, propTime, c0, ks[..i], t)
      {
        assert ks[..i + 1][..i] == ks[..i];
        c := AddNeighbor(g, propTime, c, ks[i], t);
      }
      assert ks[..|ks|] == ks;
    }

    /** The parallel region of `sample_layer`: the threads' edge lists, in thread order. */
    method RunThreads(roots: seq<nat>, rts: seq<int>, neighs: nat, usePtr: bool, rand: (nat, nat, nat) -> nat, l: nat)
      returns (parts: seq<Coo>, ghost picks: seq<seq<nat>>)
      requires Valid() && Roots(g, roots, rts)
      ensures (forall i :: 0 <= i < |parts| ==> Even(parts[i]))
      ensures Passed(g, propTime, roots, rts, picks, JoinAll(parts))
      ensures AllPicked(roots, rts, neighs, usePtr, rand, l, 0, picks)
    {
      hide GoodGraph, TableOk, Passed, AllPicked, ChunkStart, ChunkSize, Done, Even, JoinAll;
      var c := ChunkSize(|roots|, threads);
      parts, picks := [], [];
      DoneStart(roots, rts, neighs, usePtr, rand, l);
      ChunkBounds(|roots|, c, 0, threads);
      for tid := 0 to threads
        invariant forall i :: 0 <= i < |parts| ==> Even(parts[i])
        invariant Done(roots, rts, neighs, usePtr, rand, l, ChunkStart(|roots|, c, tid), parts, picks)
      {
        ChunkBounds(|roots|, c, tid, threads);
        var part;
        ghost var more;
        part, more := RunThread(roots, rts, neighs, usePtr, rand, l,
          ChunkStart(|roots|, c, tid), ChunkStart(|roots|, c, tid + 1), parts, picks);
        parts, picks := parts + [part], picks + more;
      }
      DoneEnd(roots, rts, neighs, usePtr, rand, l, parts, picks);
    }

    /** The roots before `lo` have been sampled, into `parts`. */
    ghost predicate Done(roots: seq<nat>, rts: seq<int>, neighs: nat, usePtr: bool, rand: (nat, nat, nat) -> nat,
                         l: nat, lo: nat, parts: seq<Coo>, picks: seq<seq<nat>>)
      requires Valid() && Roots(g, roots, rts) && lo <= |roots|
      reads tsPtr
    {
      && Roots(g, roots[..lo], rts[..lo]) && Passed(g, propTime, roots[..lo], rts[..lo], picks, JoinAll(parts))
      && AllPicked(roots[..lo], rts[..lo], neighs, usePtr, rand, l, 0, picks)
    }

    lemma DoneStart(roots: seq<nat>, rts: seq<int>, neighs: nat, usePtr: bool, rand: (nat, nat, nat) -> nat, l: nat)
      requires Valid() && Roots(g, roots, rts)
      ensures Done(roots, rts, neighs, usePtr, rand, l, 0, [], [])
    {
      hide Picked;
      PassedStart(g, propTime, roots, rts);
    }

    lemma DoneEnd(roots: seq<nat>, rts: seq<int>, neighs: nat, usePtr: bool, rand: (nat, nat, nat) -> nat, l: nat,
                  parts: seq<Coo>, picks: seq<seq<nat>>)
      requires Valid() && Roots(g, roots, rts)
      requires Done(roots, rts, neighs, usePtr, rand, l, |roots|, parts, picks)
      ensures Passed(g, propTime, roots, rts, picks, JoinAll(parts))
      ensures AllPicked(roots, rts, neighs, usePtr, rand, l, 0, picks)
    {
      hide AllPicked, Passed, GoodGraph, TableOk;
      assert roots[..|roots|] == roots && rts[..|roots|] == rts;
    }

    lemma DoneStep(roots: seq<nat>, rts: seq<int>, neighs: nat, usePtr: bool, rand: (nat, nat, nat) -> nat, l: nat,
                   lo: nat, hi: nat, parts: seq<Coo>, picks: seq<seq<nat>>, part: Coo, more: seq<seq<nat>>)
      requires Valid() && Roots(g, roots, rts) && lo <= hi <= |roots|
      requires Done(roots, rts, neighs, usePtr, rand, l, lo, parts, picks)
      requires Roots(g, roots[lo..hi], rts[lo..hi]) && Passed(g, propTime, roots[lo..hi], rts[lo..hi], more, part)
      requires AllPicked(roots[lo..hi], rts[lo..hi], neighs, usePtr, rand, l, lo, more)
      ensures Even(part) && Done(roots, rts, neighs, usePtr, rand, l, hi, parts + [part], picks + more)
    {
      hide AllPicked, Passed, GoodGraph, TableOk, Even, Join, JoinAll;
      PassedJoin(g, propTime, roots, rts, lo, hi, picks, JoinAll(parts), more, part);
      PickedJoin(roots, rts, neighs, usePtr, rand, l, lo, hi, picks, more);
      JoinAllPush(parts, part);
    }

    lemma PickedJoin(roots: seq<nat>, rts: seq<int>, neighs: nat, usePtr: bool, rand: (nat, nat, nat) -> nat, l: nat,
                     lo: nat, hi: nat, picks: seq<seq<nat>>, more: seq<seq<nat>>)
      requires Valid() && Roots(g, roots, rts) && lo <= hi <= |roots|
      requires Roots(g, roots[..lo], rts[..lo]) && AllPicked(roots[..lo], rts[..lo], neighs, usePtr, rand, l, 0, picks)
      requires Roots(g, roots[lo..hi], rts[lo..hi])
      requires AllPicked(roots[lo..hi], rts[lo..hi], neighs, usePtr, rand, l, lo, more)
      ensures Roots(g, roots[..hi], rts[..hi])
      ensures AllPicked(roots[..hi], rts[..hi], neighs, usePtr, rand, l, 0, picks + more)
    {
      hide GoodGraph, TableOk, Picked, EndSearch;
      forall j | 0 <= j < hi
        ensures (picks + more)[j]
          == Picked(g, recent, roots[j], rts[j], neighs, EndSearch(roots[j], rts[j], usePtr), rand, l, j)
      {
        if j >= lo {
          assert roots[lo..hi][j - lo] == roots[j] && rts[lo..hi][j - lo] == rts[j];
        }
      }
    }

    /** One thread's stretch of the roots, behind the threads before it. */
    method RunThread(roots: seq<nat>, rts: seq<int>, neighs: nat, usePtr: bool, rand: (nat, nat, nat) -> nat, l: nat,
                     lo: nat, hi: nat, ghost parts: seq<Coo>, ghost picks: seq<seq<nat>>)
      returns (part: Coo, ghost more: seq<seq<nat>>)
      requires Valid() && Roots(g, roots, rts) && lo <= hi <= |roots|
      requires Done(roots, rts, neighs, usePtr, rand, l, lo, parts, picks)
      ensures Even(part) && Done(roots, rts, neighs, usePtr, rand, l, hi, parts + [part], picks + more)
    {
      hide AllPicked, Passed, GoodGraph, TableOk, Even, Done, EndSearch;
      part, more := SampleChunk(roots[lo..hi], rts[lo..hi], neighs, usePtr, rand, l, lo);
      DoneStep(roots, rts, neighs, usePtr, rand, l, lo, hi, parts, picks, part, more);
    }

    /** `sample_layer`: any number of threads, any order through the locks. The block is that of one sequential pass
        over what is taken for each root, with end pointers at or past its last past entry; in recent mode that
        is the latest past entries of every root, whatever the pointers were before. */
    method SampleLayer(roots: seq<nat>, rts: seq<int>, neighs: nat, usePtr: bool, order: seq<nat>,
                       rand: (nat, nat, nat) -> nat, l: nat)
      returns (b: Block, ghost picks: seq<seq<nat>>, ghost ends: seq<nat>)
      requires Valid() && Roots(g, roots, rts)
      requires IsOrder(order, |roots|)
      modifies tsPtr
      ensures Valid() && PastPicks(g, roots, rts, picks) && PicksOk(g, rts, picks)
      ensures b == LayerBlock(g, propTime, roots, rts, picks)
      ensures PickedWith(g, recent, usePtr, roots, rts, neighs, rand, l, ends, picks)
      ensures recent ==> picks == RecentPicks(g, roots, rts, neighs)
      ensures |old(tsPtr[..])| == |g.indptr| - 1
      ensures Moved(g, usePtr, roots, rts, order, old(tsPtr[..]), tsPtr[..], ends)
    {
      hide GoodGraph, TableOk, PastPicks, PicksOk, Passed, AllPicked, Latest, RecentPicks, Pass, Even, JoinAll,
           RunSteps, PickedWith, EndSearch, Moved;
      ghost var before := tsPtr[..];
      TableSize(g, before);
      if usePtr {
        UpdateTsPtr(roots, rts, order);
        AllReached(roots, rts, order, before);
      } else {
        AllFound(roots, rts);
      }
      var parts;
      parts, picks := RunThreads(roots, rts, neighs, usePtr, rand, l);
      b := CombineCoo(roots, rts, parts);
      PassedMeans(g, propTime, roots, rts, picks, JoinAll(parts));
      ends := Ends(roots, rts, usePtr);
      HasMoved(roots, rts, usePtr, order, before);
      PickedEnds(roots, rts, neighs, usePtr, rand, l, picks);
      if recent {
        PickedRecent(g, usePtr, roots, rts, neighs, rand, l, ends, picks);
      }
    }

    /** Every root's search starts where it may. */
    ghost predicate Reached(roots: seq<nat>, rts: seq<int>, usePtr: bool)
      requires Valid() && Roots(g, roots, rts)
      reads tsPtr
    {
      forall j :: 0 <= j < |roots| ==> EndOk(g, roots[j], rts[j], usePtr, EndSearch(roots[j], rts[j], usePtr))
    }

    lemma HasMoved(roots: seq<nat>, rts: seq<int>, usePtr: bool, order: seq<nat>, before: seq<nat>)
      requires Valid() && Roots(g, roots, rts) && |before| == |g.indptr| - 1 && InRange(order, |roots|)
      requires tsPtr[..] == if usePtr then RunSteps(g, before, roots, rts, order) else before
      ensures Moved(g, usePtr, roots, rts, order, before, tsPtr[..], Ends(roots, rts, usePtr))
    {
      hide GoodGraph, TableOk, RunSteps;
    }

    ghost function Ends(roots: seq<nat>, rts: seq<int>, usePtr: bool): (ends: seq<nat>)
      requires Valid() && Roots(g, roots, rts)
      reads tsPtr
      ensures |ends| == |roots|
      ensures forall j :: 0 <= j < |roots| ==> ends[j] == EndSearch(roots[j], rts[j], usePtr)
    {
      seq(|roots|, j requires Valid() && 0 <= j < |roots| reads tsPtr => EndSearch(roots[j], rts[j], usePtr))
    }

    lemma PickedEnds(roots: seq<nat>, rts: seq<int>, neighs: nat, usePtr: bool, rand: (nat, nat, nat) -> nat, l: nat,
                     picks: seq<seq<nat>>)
      requires Valid() && Roots(g, roots, rts) && Reached(roots, rts, usePtr)
      requires AllPicked(roots, rts, neighs, usePtr, rand, l, 0, picks)
      ensures PickedWith(g, recent, usePtr, roots, rts, neighs, rand, l, Ends(roots, rts, usePtr), picks)
    {
      hide GoodGraph, TableOk, Picked, EndSearch, EndOk;
    }

    lemma AllFound(roots: seq<nat>, rts: seq<int>)
      requires Valid() && Roots(g, roots, rts)
      ensures Reached(roots, rts, false)
    {
      hide GoodGraph, TableOk, EndSearch, EndOk;
    }

    lemma AllReached(roots: seq<nat>, rts: seq<int>, order: seq<nat>, before: seq<nat>)
      requires Valid() && Roots(g, roots, rts) && |before| == |g.indptr| - 1
      requires IsOrder(order, |roots|)
      requires tsPtr[..] == RunSteps(g, before, roots, rts, order)
      ensures Reached(roots, rts, true)
    {
      forall j | 0 <= j < |roots| ensures EndOk(g, roots[j], rts[j], true, EndSearch(roots[j], rts[j], true)) {
        PermutationOnto(order, j);
        PtrReaches(g, before, roots, rts, order, j);
      }
    }

    /** One turn of the loop in `sample`. */
    method SampleNext(roots: seq<nat>, rts: seq<int>, ret: seq<Block>, ghost picks: seq<seq<seq<nat>>>, neighs: nat,
                      usePtr: bool, order: seq<nat>, rand: (nat, nat, nat) -> nat)
      returns (b: Block, ghost more: seq<seq<nat>>, ghost ends: seq<nat>)
      requires Valid() && Chain(g, propTime, roots, rts, ret, picks)
      requires IsOrder(order, |LayerRoots(roots, ret, |ret|)|)
      modifies tsPtr
      ensures Valid() && Chain(g, propTime, roots, rts, ret + [b], picks + [more])
      ensures LayerPicked(g, recent, usePtr, roots, rts, ret + [b], picks + [more], neighs, rand, ends, |ret|)
      ensures LayerMoved(g, usePtr, roots, rts, ret + [b], order, old(tsPtr[..]), tsPtr[..], ends, |ret|)
      ensures recent ==> LayerRecent(g, roots, rts, ret + [b], picks + [more], neighs, |ret|)
    {
      hide GoodGraph, TableOk, PastPicks, PicksOk, RecentPicks, LayerBlock, Chain, PickedWith, Moved;
      ghost var before := tsPtr[..];
      NextRoots(g, propTime, roots, rts, ret, picks);
      b, more, ends := SampleLayer(LayerRoots(roots, ret, |ret|), LayerTs(rts, ret, |ret|), neighs, usePtr, order, rand,
                                   |ret|);
      ChainNext(g, propTime, roots, rts, ret, picks, b, more);
      LayerPickedNew(g, recent, usePtr, roots, rts, ret, picks, b, more, neighs, rand, ends);
      LayerMovedNew(g, usePtr, roots, rts, ret, b, order, before, tsPtr[..], ends);
      if recent {
        LayerRecentNew(g, roots, rts, ret, picks, b, more, neighs);
      }
    }

    /** `sample`: the layers one after the other, each rooted at the nodes of the one before. Each holds what is taken
        for its roots, with end pointers at or past their last past entries. In recent mode that is the latest
        past entries, so the blocks depend neither on the number of threads, nor on the order they take the
        locks in, nor on any earlier call. */
    method Sample(roots: seq<nat>, rts: seq<int>, neighs: seq<nat>, schedule: (nat, nat) -> seq<nat>,
                  rand: (nat, nat, nat) -> nat)
      returns (ret: seq<Block>, ghost picks: seq<seq<seq<nat>>>, ghost ends: seq<seq<nat>>,
               ghost tables: seq<seq<nat>>)
      requires Valid() && Roots(g, roots, rts)
      requires forall l: nat, n: nat :: IsOrder(schedule(l, n), n)
      modifies tsPtr
      ensures Valid() && |ret| == |neighs| == |ends| && Chain(g, propTime, roots, rts, ret, picks)
      ensures forall l :: 0 <= l < |ret| ==>
        LayerPicked(g, recent, l == 0 || propTime || recent, roots, rts, ret, picks, neighs[l], rand, ends[l], l)
      ensures |tables| == |ret| + 1 && tables[0] == old(tsPtr[..]) && tables[|ret|] == tsPtr[..]
      ensures forall l :: 0 <= l < |ret| ==>
        LayerMoved(g, l == 0 || propTime || recent, roots, rts, ret, schedule(l, |LayerRoots(roots, ret, l)|),
                   tables[l], tables[l + 1], ends[l], l)
      ensures recent ==> forall l :: 0 <= l < |ret| ==> LayerRecent(g, roots, rts, ret, picks, neighs[l], l)
    {
      hide GoodGraph, TableOk, IsOrder, LayerRecent, LayerOk, LayerPicked, LayerMoved;
      ret, picks, ends, tables := [], [], [], [tsPtr[..]];
      var firstLayer, usePtr := true, false;
      for i := 0 to |neighs|
        invariant Valid() && |ret| == |ends| == i && Chain(g, propTime, roots, rts, ret, picks)
        invariant firstLayer <==> i == 0
        invariant forall l :: 0 <= l < i ==>
          LayerPicked(g, recent, l == 0 || propTime || recent, roots, rts, ret, picks, neighs[l], rand, ends[l], l)
        invariant |tables| == i + 1 && tables[0] == old(tsPtr[..]) && tables[i] == tsPtr[..]
        invariant forall l :: 0 <= l < i ==>
          LayerMoved(g, l == 0 || propTime || recent, roots, rts, ret, schedule(l, |LayerRoots(roots, ret, l)|),
                     tables[l], tables[l + 1], ends[l], l)
        invariant recent ==> forall l :: 0 <= l < i ==> LayerRecent(g, roots, rts, ret, picks, neighs[l], l)
      {
        if firstLayer || propTime || recent {
          firstLayer := false;
          usePtr := true;
        } else {
          usePtr := false;
        }
        var b;
        ghost var more, end;
        ghost var ret0, picks0 := ret, picks;
        var order := schedule(i, |LayerRoots(roots, ret, i)|);
        b, more, end := SampleNext(roots, rts, ret, picks, neighs[i], usePtr, order, rand);
        ret, picks, ends, tables := ret + [b], picks + [more], ends + [end], tables + [tsPtr[..]];
        forall l | 0 <= l < i
          ensures LayerPicked(g, recent, l == 0 || propTime || recent, roots, rts, ret, picks, neighs[l], rand, ends[l],
                              l)
        {
          LayerPickedKept(g, recent, l == 0 || propTime || recent, roots, rts, ret0, picks0, b, more, neighs[l], rand,
                          ends[l], l);
        }
        forall l | 0 <= l < i
          ensures LayerMoved(g, l == 0 || propTime || recent, roots, rts, ret,
                             schedule(l, |LayerRoots(roots, ret, l)|), tables[l], tables[l + 1], ends[l], l)
        {
          LayerMovedKept(g, l == 0 || propTime || recent, roots, rts, ret0, b,
                         schedule(l, |LayerRoots(roots, ret0, l)|), tables[l], tables[l + 1], ends[l], l);
        }
        assert LayerRoots(roots, ret, i) == LayerRoots(roots, ret0, i);
        if recent {
          forall l | 0 <= l < i ensures LayerRecent(g, roots, rts, ret, picks, neighs[l], l) {
            LayerRecentKept(g, roots, rts, ret0, picks0, b, more, neighs[l], l);
          }
        }
      }
    }
  }

  /** These picks are what is taken for the roots, with these end pointers. */
  ghost predicate PickedWith(g: Graph, recent: bool, usePtr: bool, roots: seq<nat>, rts: seq<int>, neighs: nat,
                             rand: (nat, nat, nat) -> nat, l: nat, ends: seq<nat>, picks: seq<seq<nat>>)
    requires GoodGraph(g) && Roots(g, roots, rts)
  {
    && |ends| == |picks| == |roots|
    && forall j :: 0 <= j < |roots| ==>
      && EndOk(g, roots[j], rts[j], usePtr, ends[j])
      && picks[j] == Picked(g, recent, roots[j], rts[j], neighs, ends[j], rand, l, j)
  }

  lemma PickedRecent(g: Graph, usePtr: bool, roots: seq<nat>, rts: seq<int>, neighs: nat,
                     rand: (nat, nat, nat) -> nat, l: nat, ends: seq<nat>, picks: seq<seq<nat>>)
    requires GoodGraph(g) && Roots(g, roots, rts)
    requires PickedWith(g, true, usePtr, roots, rts, neighs, rand, l, ends, picks)
    ensures picks == RecentPicks(g, roots, rts, neighs)
  {
    hide GoodGraph, Picked, EndOk, RecentPicks, Latest;
    forall j | 0 <= j < |roots| ensures picks[j] == Latest(g, roots[j], rts[j], neighs) {
      PickedLatest(g, true, roots[j], rts[j], neighs, usePtr, ends[j], rand, l, j);
    }
  }

  /** The pointers have moved for these roots, if pointers are used, and the searches started from them. */
  ghost predicate Moved(g: Graph, usePtr: bool, roots: seq<nat>, rts: seq<int>, order: seq<nat>, before: seq<nat>,
                        after: seq<nat>, ends: seq<nat>)
    requires GoodGraph(g) && Roots(g, roots, rts) && |before| == |g.indptr| - 1
  {
    && InRange(order, |roots|) && |ends| == |roots| && |after| == |before|
    && after == (if usePtr then RunSteps(g, before, roots, rts, order) else before)
    && (usePtr ==> forall j :: 0 <= j < |roots| ==> ends[j] == after[roots[j]])
  }

  ghost predicate LayerMoved(g: Graph, usePtr: bool, roots: seq<nat>, rts: seq<int>, ret: seq<Block>, order: seq<nat>,
                             before: seq<nat>, after: seq<nat>, ends: seq<nat>, l: nat)
    requires GoodGraph(g) && l < |ret|
  {
    var lr, lt := LayerRoots(roots, ret, l), LayerTs(rts, ret, l);
    Roots(g, lr, lt) && |before| == |g.indptr| - 1 && Moved(g, usePtr, lr, lt, order, before, after, ends)
  }

  lemma LayerMovedNew(g: Graph, usePtr: bool, roots: seq<nat>, rts: seq<int>, ret: seq<Block>, b: Block,
                      order: seq<nat>, before: seq<nat>, after: seq<nat>, ends: seq<nat>)
    requires GoodGraph(g) && Roots(g, LayerRoots(roots, ret, |ret|), LayerTs(rts, ret, |ret|))
    requires |before| == |g.indptr| - 1
    requires Moved(g, usePtr, LayerRoots(roots, ret, |ret|), LayerTs(rts, ret, |ret|), order, before, after, ends)
    ensures LayerMoved(g, usePtr, roots, rts, ret + [b], order, before, after, ends, |ret|)
  {
    hide GoodGraph, Moved, Roots;
    assert |ret| > 0 ==> (ret + [b])[|ret| - 1] == ret[|ret| - 1];
  }

  lemma LayerMovedKept(g: Graph, usePtr: bool, roots: seq<nat>, rts: seq<int>, ret: seq<Block>, b: Block,
                       order: seq<nat>, before: seq<nat>, after: seq<nat>, ends: seq<nat>, l: nat)
    requires GoodGraph(g) && l < |ret| && LayerMoved(g, usePtr, roots, rts, ret, order, before, after, ends, l)
    ensures LayerMoved(g, usePtr, roots, rts, ret + [b], order, before, after, ends, l)
    ensures LayerRoots(roots, ret + [b], l) == LayerRoots(roots, ret, l)
  {
    hide GoodGraph, Moved, Roots;
    assert l > 0 ==> (ret + [b])[l - 1] == ret[l - 1];
  }

  /** The roots of the next layer: those of this one, and behind them the sampled neighbours, each with its time. */
  lemma NextLayer(g: Graph, propTime: bool, roots: seq<nat>, rts: seq<int>, ret: seq<Block>,
                  picks: seq<seq<seq<nat>>>, l: nat, e: nat) returns (j: nat)
    requires GoodGraph(g) && Chain(g, propTime, roots, rts, ret, picks) && l < |ret| && e < |Concat(picks[l])|
    ensures var lr, lt, k := LayerRoots(roots, ret, l), LayerTs(rts, ret, l), Concat(picks[l])[e];
      var nr, nt := LayerRoots(roots, ret, l + 1), LayerTs(rts, ret, l + 1);
      && |nr| == |nt| == |lr| + |Concat(picks[l])| && nr[..|lr|] == lr && nt[..|lr|] == lt
      && k < |g.ts| == |g.indices| && j < |lt|
      && nr[|lr| + e] == g.indices[k] && nt[|lr| + e] == if propTime then lt[j] else g.ts[k]
  {
    hide GoodGraph, PicksOk, PastPicks, LayerBlock, Concat;
    assert LayerOk(g, propTime, roots, rts, ret, picks, l);
    PicksSize(g, LayerTs(rts, ret, l), picks[l]);
    var i;
    j, i := BlockMeaning(g, propTime, LayerRoots(roots, ret, l), LayerTs(rts, ret, l), picks[l], e);
  }

  /** Layer `l` holds what is taken for its roots. */
  ghost predicate LayerPicked(g: Graph, recent: bool, usePtr: bool, roots: seq<nat>, rts: seq<int>, ret: seq<Block>,
                              picks: seq<seq<seq<nat>>>, neighs: nat, rand: (nat, nat, nat) -> nat, ends: seq<nat>,
                              l: nat)
    requires GoodGraph(g) && l < |ret| == |picks|
  {
    var lr, lt := LayerRoots(roots, ret, l), LayerTs(rts, ret, l);
    Roots(g, lr, lt) && PickedWith(g, recent, usePtr, lr, lt, neighs, rand, l, ends, picks[l])
  }

  lemma LayerPickedNew(g: Graph, recent: bool, usePtr: bool, roots: seq<nat>, rts: seq<int>, ret: seq<Block>,
                       picks: seq<seq<seq<nat>>>, b: Block, more: seq<seq<nat>>, neighs: nat,
                       rand: (nat, nat, nat) -> nat, ends: seq<nat>)
    requires GoodGraph(g) && |ret| == |picks| && Roots(g, LayerRoots(roots, ret, |ret|), LayerTs(rts, ret, |ret|))
    requires PickedWith(g, recent, usePtr, LayerRoots(roots, ret, |ret|), LayerTs(rts, ret, |ret|), neighs, rand, |ret|,
                        ends, more)
    ensures LayerPicked(g, recent, usePtr, roots, rts, ret + [b], picks + [more], neighs, rand, ends, |ret|)
  {
    hide GoodGraph, PickedWith, Roots;
    assert |ret| > 0 ==> (ret + [b])[|ret| - 1] == ret[|ret| - 1];
  }

  lemma LayerPickedKept(g: Graph, recent: bool, usePtr: bool, roots: seq<nat>, rts: seq<int>, ret: seq<Block>,
                        picks: seq<seq<seq<nat>>>, b: Block, more: seq<seq<nat>>, neighs: nat,
                        rand: (nat, nat, nat) -> nat, ends: seq<nat>, l: nat)
    requires GoodGraph(g) && l < |ret| == |picks|
    requires LayerPicked(g, recent, usePtr, roots, rts, ret, picks, neighs, rand, ends, l)
    ensures LayerPicked(g, recent, usePtr, roots, rts, ret + [b], picks + [more], neighs, rand, ends, l)
  {
    hide GoodGraph, PickedWith, Roots;
    assert l > 0 ==> (ret + [b])[l - 1] == ret[l - 1];
  }

  /** The order in which the threads take `n` roots through the locks: every root once. */
  ghost predicate IsOrder(order: seq<nat>, n: nat) {
    |order| == n && InRange(order, n) && Distinct(order)
  }

  /** Layer `l` holds the latest past entries of its roots. */
  ghost predicate LayerRecent(g: Graph, roots: seq<nat>, rts: seq<int>, ret: seq<Block>, picks: seq<seq<seq<nat>>>,
                              neighs: nat, l: nat)
    requires GoodGraph(g) && l < |ret| == |picks|
  {
    var lr, lt := LayerRoots(roots, ret, l), LayerTs(rts, ret, l);
    Roots(g, lr, lt) && picks[l] == RecentPicks(g, lr, lt, neighs)
  }

  lemma LayerRecentNew(g: Graph, roots: seq<nat>, rts: seq<int>, ret: seq<Block>, picks: seq<seq<seq<nat>>>,
                       b: Block, more: seq<seq<nat>>, neighs: nat)
    requires GoodGraph(g) && |ret| == |picks| && Roots(g, LayerRoots(roots, ret, |ret|), LayerTs(rts, ret, |ret|))
    requires more == RecentPicks(g, LayerRoots(roots, ret, |ret|), LayerTs(rts, ret, |ret|), neighs)
    ensures LayerRecent(g, roots, rts, ret + [b], picks + [more], neighs, |ret|)
  {
    hide GoodGraph, RecentPicks, Roots;
    assert |ret| > 0 ==> (ret + [b])[|ret| - 1] == ret[|ret| - 1];
  }

  /** In recent mode the blocks are determined by the roots alone: two runs, on samplers with any numbers of
      threads, any lock orders and any histories, return the same. */
  lemma {:induction false} RecentDetermined(
    g: Graph, propTime: bool, roots: seq<nat>, rts: seq<int>, neighs: seq<nat>, l: nat,
    ret1: seq<Block>, picks1: seq<seq<seq<nat>>>, ret2: seq<Block>, picks2: seq<seq<seq<nat>>>)
    requires GoodGraph(g)
    requires Chain(g, propTime, roots, rts, ret1, picks1) && Chain(g, propTime, roots, rts, ret2, picks2)
    requires l <= |neighs| == |ret1| == |ret2| == |picks1| == |picks2|
    requires forall k :: 0 <= k < |ret1| ==> LayerRecent(g, roots, rts, ret1, picks1, neighs[k], k)
    requires forall k :: 0 <= k < |ret2| ==> LayerRecent(g, roots, rts, ret2, picks2, neighs[k], k)
    ensures ret1[..l] == ret2[..l]
  {
    hide *;
    if l > 0 {
      RecentDetermined(g, propTime, roots, rts, neighs, l - 1, ret1, picks1, ret2, picks2);
      LayerIs(g, propTime, roots, rts, ret1, picks1, neighs[l - 1], l - 1);
      LayerIs(g, propTime, roots, rts, ret2, picks2, neighs[l - 1], l - 1);
      SameRoots(roots, rts, ret1, ret2, l - 1);
      assert ret1[..l] == ret1[..l - 1] + [ret1[l - 1]] && ret2[..l] == ret2[..l - 1] + [ret2[l - 1]];
    }
  }

  lemma SameRoots(roots: seq<nat>, rts: seq<int>, ret1: seq<Block>, ret2: seq<Block>, l: nat)
    requires l <= |ret1| && l <= |ret2| && ret1[..l] == ret2[..l]
    ensures LayerRoots(roots, ret1, l) == LayerRoots(roots, ret2, l) && LayerTs(rts, ret1, l) == LayerTs(rts, ret2, l)
  {
    assert l > 0 ==> ret1[l - 1] == ret1[..l][l - 1] && ret2[l - 1] == ret2[..l][l - 1];
  }

  lemma LayerIs(g: Graph, propTime: bool, roots: seq<nat>, rts: seq<int>, ret: seq<Block>, picks: seq<seq<seq<nat>>>,
                neighs: nat, l: nat)
    requires GoodGraph(g) && Chain(g, propTime, roots, rts, ret, picks) && l < |ret| == |picks|
    requires LayerRecent(g, roots, rts, ret, picks, neighs, l)
    ensures var lr, lt := LayerRoots(roots, ret, l), LayerTs(rts, ret, l);
      && Roots(g, lr, lt) && PicksOk(g, lt, RecentPicks(g, lr, lt, neighs))
      && ret[l] == LayerBlock(g, propTime, lr, lt, RecentPicks(g, lr, lt, neighs))
  {
    hide GoodGraph, PastPicks, PicksOk, RecentPicks, Roots, LayerBlock;
    assert LayerOk(g, propTime, roots, rts, ret, picks, l);
  }

  lemma LayerRecentKept(g: Graph, roots: seq<nat>, rts: seq<int>, ret: seq<Block>, picks: seq<seq<seq<nat>>>,
                        b: Block, more: seq<seq<nat>>, neighs: nat, l: nat)
    requires GoodGraph(g) && l < |ret| == |picks| && LayerRecent(g, roots, rts, ret, picks, neighs, l)
    ensures LayerRecent(g, roots, rts, ret + [b], picks + [more], neighs, l)
  {
    hide GoodGraph, RecentPicks, Roots;
    assert l > 0 ==> (ret + [b])[l - 1] == ret[l - 1];
  }

  /** The nodes of the last block are roots for the next layer. */
  lemma NextRoots(g: Graph, propTime: bool, roots: seq<nat>, rts: seq<int>, ret: seq<Block>, picks: seq<seq<seq<nat>>>)
    requires GoodGraph(g) && Chain(g, propTime, roots, rts, ret, picks)
    ensures |ret| == |picks| && Roots(g, LayerRoots(roots, ret, |ret|), LayerTs(rts, ret, |ret|))
  {
    if |ret| > 0 {
      var l := |ret| - 1;
      assert LayerOk(g, propTime, roots, rts, ret, picks, l);
      BlockRoots(g, propTime, LayerRoots(roots, ret, l), LayerTs(rts, ret, l), picks[l]);
    }
  }

  lemma BlockRoots(g: Graph, propTime: bool, roots: seq<nat>, rts: seq<int>, picks: seq<seq<nat>>)
    requires GoodGraph(g) && Roots(g, roots, rts) && PicksOk(g, rts, picks)
    ensures var b := LayerBlock(g, propTime, roots, rts, picks); Roots(g, b.nodes, b.ts)
  {
    var b := LayerBlock(g, propTime, roots, rts, picks);
    BlockSizes(g, propTime, roots, rts, picks);
    forall i | 0 <= i < |b.nodes| ensures IsNode(g, b.nodes[i]) {
      if i < |roots| {
        assert b.nodes[i] == b.nodes[..|roots|][i];
      } else {
        var j, k := BlockMeaning(g, propTime, roots, rts, picks, i - |roots|);
      }
    }
  }

  lemma ChainNext(g: Graph, propTime: bool, roots: seq<nat>, rts: seq<int>, ret: seq<Block>, picks: seq<seq<seq<nat>>>,
                  b: Block, more: seq<seq<nat>>)
    requires GoodGraph(g) && Chain(g, propTime, roots, rts, ret, picks)
    requires Roots(g, LayerRoots(roots, ret, |ret|), LayerTs(rts, ret, |ret|))
    requires PastPicks(g, LayerRoots(roots, ret, |ret|), LayerTs(rts, ret, |ret|), more)
    requires PicksOk(g, LayerTs(rts, ret, |ret|), more)
    requires b == LayerBlock(g, propTime, LayerRoots(roots, ret, |ret|), LayerTs(rts, ret, |ret|), more)
    ensures Chain(g, propTime, roots, rts, ret + [b], picks + [more])
  {
    hide GoodGraph, PastPicks, PicksOk, LayerBlock;
    forall l | 0 <= l <= |ret| ensures LayerOk(g, propTime, roots, rts, ret + [b], picks + [more], l) {
      assert l > 0 ==> (ret + [b])[l - 1] == ret[l - 1];
      if l < |ret| {
        assert LayerOk(g, propTime, roots, rts, ret, picks, l);
      }
    }
  }

  // ----------------------------------------------------------------------------------- all layers

  /** The roots of layer `l` are the nodes of the block before it. */
  function LayerRoots(roots: seq<nat>, ret: seq<Block>, l: nat): (r: seq<nat>)
    requires l <= |ret|
  {
    if l == 0 then roots else ret[l - 1].nodes
  }

  function LayerTs(rts: seq<int>, ret: seq<Block>, l: nat): (r: seq<int>)
    requires l <= |ret|
  {
    if l == 0 then rts else ret[l - 1].ts
  }

  /** Layer `l` was sampled from past entries only, whichever way they were picked. */
  ghost predicate LayerOk(g: Graph, propTime: bool, roots: seq<nat>, rts: seq<int>, ret: seq<Block>,
                          picks: seq<seq<seq<nat>>>, l: nat)
    requires GoodGraph(g) && l < |ret| == |picks|
  {
    var lr, lt := LayerRoots(roots, ret, l), LayerTs(rts, ret, l);
    && Roots(g, lr, lt) && PicksOk(g, lt, picks[l]) && PastPicks(g, lr, lt, picks[l])
    && ret[l] == LayerBlock(g, propTime, lr, lt, picks[l])
  }

  ghost predicate Chain(g: Graph, propTime: bool, roots: seq<nat>, rts: seq<int>, ret: seq<Block>,
                        picks: seq<seq<seq<nat>>>)
    requires GoodGraph(g)
  {
    && |ret| == |picks| && Roots(g, roots, rts)
    && forall l :: 0 <= l < |ret| ==> LayerOk(g, propTime, roots, rts, ret, picks, l)
  }

  /** The time of sampled edge `e` of layer `l`. */
  ghost function EdgeTime(g: Graph, picks: seq<seq<seq<nat>>>, l: nat, e: nat): (t: int)
    requires l < |picks| && e < |Concat(picks[l])| && 0 <= Concat(picks[l])[e] < |g.ts|
  {
    g.ts[Concat(picks[l])[e]]
  }

  /** Sampled edge `e` of layer `l`, as `BlockMeaning` reads it. */
  lemma ChainEdge(g: Graph, propTime: bool, roots: seq<nat>, rts: seq<int>, ret: seq<Block>,
                  picks: seq<seq<seq<nat>>>, l: nat, e: nat)
    requires GoodGraph(g) && Chain(g, propTime, roots, rts, ret, picks) && l < |ret| && e < |Concat(picks[l])|
    ensures |ret| == |picks| && |LayerRoots(roots, ret, l)| == |LayerTs(rts, ret, l)| == ret[l].dimOut
    ensures |ret[l].row| == |Concat(picks[l])| && 0 <= ret[l].row[e] < ret[l].dimOut
    ensures |ret[l].nodes| == |ret[l].ts| == ret[l].dimOut + |ret[l].row|
    ensures 0 <= Concat(picks[l])[e] < |g.ts| && EdgeTime(g, picks, l, e) < LayerTs(rts, ret, l)[ret[l].row[e]]
    ensures ret[l].ts[ret[l].dimOut + e]
      == if propTime then LayerTs(rts, ret, l)[ret[l].row[e]] else EdgeTime(g, picks, l, e)
  {
    hide GoodGraph, LayerBlock, PicksOk;
    assert LayerOk(g, propTime, roots, rts, ret, picks, l);
    var j, i := BlockMeaning(g, propTime, LayerRoots(roots, ret, l), LayerTs(rts, ret, l), picks[l], e);
  }

  lemma ChainSizes(g: Graph, propTime: bool, roots: seq<nat>, rts: seq<int>, ret: seq<Block>,
                   picks: seq<seq<seq<nat>>>, l: nat)
    requires GoodGraph(g) && Chain(g, propTime, roots, rts, ret, picks) && l < |ret|
    ensures |ret| == |picks| && |LayerRoots(roots, ret, l)| == |LayerTs(rts, ret, l)| == ret[l].dimOut
    ensures |ret[l].row| == |Concat(picks[l])| && |ret[l].nodes| == |ret[l].ts| == ret[l].dimOut + |ret[l].row|
    ensures ret[l].ts[..ret[l].dimOut] == LayerTs(rts, ret, l)
  {
    hide GoodGraph, LayerBlock, PicksOk, PastPicks;
    assert LayerOk(g, propTime, roots, rts, ret, picks, l);
    BlockSizes(g, propTime, LayerRoots(roots, ret, l), LayerTs(rts, ret, l), picks[l]);
  }

  /** The sampled edge, as layer and number, through which root `r` of layer `l` was reached; none for a seed. */
  ghost function ReachedBy(ret: seq<Block>, l: nat, r: int): (edge: (int, int))
    requires l <= |ret|
  {
    if l == 0 then (-1, r)
    else if r < ret[l - 1].dimOut then ReachedBy(ret, l - 1, r)
    else (l - 1, r - ret[l - 1].dimOut)
  }

  /** The seed that root `r` of layer `l` was reached from. */
  ghost function SeedOf(ret: seq<Block>, l: nat, r: int): (seed: int)
    requires l <= |ret|
  {
    if l == 0 then r
    else
      var b := ret[l - 1];
      if r < b.dimOut then SeedOf(ret, l - 1, r)
      else if r - b.dimOut < |b.row| then SeedOf(ret, l - 1, b.row[r - b.dimOut])
      else -1
  }

  /** What the two say: root `r` of a layer is one of the seeds, at its own place, or the neighbour that the edge
      leads to, and then it has the seed of that edge's root. */
  lemma {:induction false} ReachedMeaning(g: Graph, propTime: bool, roots: seq<nat>, rts: seq<int>, ret: seq<Block>,
                                          picks: seq<seq<seq<nat>>>, l: nat, r: nat)
    requires GoodGraph(g) && Chain(g, propTime, roots, rts, ret, picks) && |roots| == |rts|
    requires l <= |ret| && r < |LayerTs(rts, ret, l)|
    ensures |LayerRoots(roots, ret, l)| == |LayerTs(rts, ret, l)| >= |roots|
    ensures r < |roots| ==>
      ReachedBy(ret, l, r) == (-1, r) && SeedOf(ret, l, r) == r && LayerRoots(roots, ret, l)[r] == roots[r]
    ensures r >= |roots| ==> Reached(g, roots, ret, picks, l, r)
  {
    hide GoodGraph, Chain, Concat;
    if l > 0 {
      var b := ret[l - 1];
      ChainSizes(g, propTime, roots, rts, ret, picks, l - 1);
      SeedsStay(g, propTime, roots, rts, ret, picks, l);
      SeedsStay(g, propTime, roots, rts, ret, picks, l - 1);
      if r < b.dimOut {
        ReachedMeaning(g, propTime, roots, rts, ret, picks, l - 1, r);
        SameRoot(g, propTime, roots, rts, ret, picks, l - 1, r);
      } else {
        var j := NextLayer(g, propTime, roots, rts, ret, picks, l - 1, r - b.dimOut);
      }
    }
  }

  lemma {:induction false} SeedsStay(g: Graph, propTime: bool, roots: seq<nat>, rts: seq<int>, ret: seq<Block>,
                                     picks: seq<seq<seq<nat>>>, l: nat)
    requires GoodGraph(g) && Chain(g, propTime, roots, rts, ret, picks) && |roots| == |rts| && l <= |ret|
    ensures |LayerRoots(roots, ret, l)| == |LayerTs(rts, ret, l)| >= |roots|
  {
    hide GoodGraph, Chain, Concat;
    if l > 0 {
      SeedsStay(g, propTime, roots, rts, ret, picks, l - 1);
      ChainSizes(g, propTime, roots, rts, ret, picks, l - 1);
    }
  }

  ghost predicate Reached(g: Graph, roots: seq<nat>, ret: seq<Block>, picks: seq<seq<seq<nat>>>, l: nat, r: nat)
    requires l <= |ret|
  {
    var (m, f) := ReachedBy(ret, l, r);
    && 0 <= m < l && m < |picks| && 0 <= f < |Concat(picks[m])| && f < |ret[m].row| && r == ret[m].dimOut + f
    && 0 <= Concat(picks[m])[f] < |g.indices| && r < |LayerRoots(roots, ret, l)|
    && LayerRoots(roots, ret, l)[r] == g.indices[Concat(picks[m])[f]]
    && SeedOf(ret, l, r) == SeedOf(ret, m, ret[m].row[f])
  }

  /** The roots of a layer stand in front in the next one. */
  lemma SameRoot(g: Graph, propTime: bool, roots: seq<nat>, rts: seq<int>, ret: seq<Block>,
                 picks: seq<seq<seq<nat>>>, l: nat, r: nat)
    requires GoodGraph(g) && Chain(g, propTime, roots, rts, ret, picks) && l < |ret| && r < ret[l].dimOut
    ensures |LayerRoots(roots, ret, l)| == ret[l].dimOut <= |ret[l].nodes|
    ensures LayerRoots(roots, ret, l + 1)[r] == LayerRoots(roots, ret, l)[r]
  {
    hide GoodGraph, LayerBlock, PicksOk, PastPicks;
    assert LayerOk(g, propTime, roots, rts, ret, picks, l);
    ChainSizes(g, propTime, roots, rts, ret, picks, l);
    BlockSizes(g, propTime, LayerRoots(roots, ret, l), LayerTs(rts, ret, l), picks[l]);
    assert ret[l].nodes[..ret[l].dimOut][r] == ret[l].nodes[r];
  }

  /** A root's time is at most its seed's, and the seed's own when times are propagated. */
  lemma {:induction false} RootTime(g: Graph, propTime: bool, roots: seq<nat>, rts: seq<int>, ret: seq<Block>,
                                    picks: seq<seq<seq<nat>>>, l: nat, r: nat)
    requires GoodGraph(g) && Chain(g, propTime, roots, rts, ret, picks) && l <= |ret| && r < |LayerTs(rts, ret, l)|
    ensures 0 <= SeedOf(ret, l, r) < |rts|
    ensures LayerTs(rts, ret, l)[r] <= rts[SeedOf(ret, l, r)]
    ensures propTime ==> LayerTs(rts, ret, l)[r] == rts[SeedOf(ret, l, r)]
  {
    hide GoodGraph, Chain, EdgeTime;
    if l > 0 {
      var b := ret[l - 1];
      ChainSizes(g, propTime, roots, rts, ret, picks, l - 1);
      if r < b.dimOut {
        RootTime(g, propTime, roots, rts, ret, picks, l - 1, r);
        assert b.ts[r] == b.ts[..b.dimOut][r];
      } else {
        ChainEdge(g, propTime, roots, rts, ret, picks, l - 1, r - b.dimOut);
        RootTime(g, propTime, roots, rts, ret, picks, l - 1, b.row[r - b.dimOut]);
      }
    }
  }

  /** No future leakage, over any number of layers and in both modes: every sampled edge is earlier than the
      seed it is reached from. */
  lemma NoFutureLeak(g: Graph, propTime: bool, roots: seq<nat>, rts: seq<int>, ret: seq<Block>,
                     picks: seq<seq<seq<nat>>>, l: nat, e: nat)
    requires GoodGraph(g) && Chain(g, propTime, roots, rts, ret, picks) && l < |ret| && e < |Concat(picks[l])|
    ensures e < |ret[l].row| && 0 <= SeedOf(ret, l, ret[l].row[e]) < |rts| && 0 <= Concat(picks[l])[e] < |g.ts|
    ensures EdgeTime(g, picks, l, e) < rts[SeedOf(ret, l, ret[l].row[e])]
  {
    hide GoodGraph, Chain, EdgeTime, SeedOf;
    ChainEdge(g, propTime, roots, rts, ret, picks, l, e);
    RootTime(g, propTime, roots, rts, ret, picks, l, ret[l].row[e]);
  }

  /** Without propagated times, a root that was reached through an edge has that edge's time. */
  lemma {:induction false} ReachedTime(g: Graph, roots: seq<nat>, rts: seq<int>, ret: seq<Block>,
                                       picks: seq<seq<seq<nat>>>, l: nat, r: nat)
    requires GoodGraph(g) && Chain(g, false, roots, rts, ret, picks) && l <= |ret| && r < |LayerTs(rts, ret, l)|
    ensures var (m, f) := ReachedBy(ret, l, r);
      m >= 0 ==>
        && m < l && m < |picks| && 0 <= f < |Concat(picks[m])| && 0 <= Concat(picks[m])[f] < |g.ts|
        && LayerTs(rts, ret, l)[r] == EdgeTime(g, picks, m, f)
  {
    hide GoodGraph, Chain, EdgeTime;
    if l > 0 {
      var b := ret[l - 1];
      ChainSizes(g, false, roots, rts, ret, picks, l - 1);
      if r < b.dimOut {
        ReachedTime(g, roots, rts, ret, picks, l - 1, r);
        assert b.ts[r] == b.ts[..b.dimOut][r];
      } else {
        ChainEdge(g, false, roots, rts, ret, picks, l - 1, r - b.dimOut);
      }
    }
  }

  /** A path of sampled edges: each starts at the node the edge before it led to. */
  ghost predicate Path(ret: seq<Block>, picks: seq<seq<seq<nat>>>, path: seq<(int, int)>) {
    && |ret| == |picks|
    && (forall i :: 0 <= i < |path| ==> 0 <= path[i].0 < |ret| && 0 <= path[i].1 < |Concat(picks[path[i].0])|)
    && (forall i :: 0 <= i < |path| ==> path[i].1 < |ret[path[i].0].row|)
    && forall i :: 0 < i < |path| ==> path[i - 1] == ReachedBy(ret, path[i].0, ret[path[i].0].row[path[i].1])
  }

  /** Without propagated times, edge times strictly decrease along every sampled path. */
  lemma PathDecreases(g: Graph, roots: seq<nat>, rts: seq<int>, ret: seq<Block>, picks: seq<seq<seq<nat>>>,
                      path: seq<(int, int)>, i: nat)
    requires GoodGraph(g) && Chain(g, false, roots, rts, ret, picks) && Path(ret, picks, path) && 0 < i < |path|
    ensures 0 <= Concat(picks[path[i].0])[path[i].1] < |g.ts|
    ensures 0 <= Concat(picks[path[i - 1].0])[path[i - 1].1] < |g.ts|
    ensures EdgeTime(g, picks, path[i].0, path[i].1) < EdgeTime(g, picks, path[i - 1].0, path[i - 1].1)
  {
    hide GoodGraph, Chain, EdgeTime, ReachedBy;
    var (l, e) := path[i];
    ChainEdge(g, false, roots, rts, ret, picks, l, e);
    ReachedTime(g, roots, rts, ret, picks, l, ret[l].row[e]);
  }
}
