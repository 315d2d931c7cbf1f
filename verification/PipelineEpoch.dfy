/** The store after an epoch of the splitter's batches: it follows from the epoch alone, and which nodes can lose
    their last row. */
module PipelineEpoch {
  import opened Common
  import opened Tensors
  import opened BlockPipeline
  import opened PipelineRuns
  import opened PipelineRefresh
  import opened PipelineDrive
  import NodePlan
  import BatchSplit

  /** The batches of each block follow from what the trainer does. */
  lemma {:induction false} TrainedByTrainer(acts: seq<Action>)
    ensures Trained(TrainerPart(acts)) == Trained(acts)
  {
    if |acts| > 0 {
      var pre, a := acts[..|acts| - 1], acts[|acts| - 1];
      TrainedByTrainer(pre);
      assert acts == pre + [a];
      TrainerPartNext(pre, a);
      assert (TrainerPart(pre) + [a])[..|TrainerPart(pre)|] == TrainerPart(pre);
    }
  }

  /** The refreshed store after an epoch follows from the epoch alone: a node has what the batches wrote to it last,
      or if it is dropped, what those before its last stretch of blocks wrote. */
  lemma EpochRefreshed(e: Env, store: seq<Row>, p: Epoch, acts: seq<Action>, v: nat)
    requires Runs(e, p) && |store| == |e.nodes.feats| && v < |store|
    requires Run(e, store, acts).Reached? && TrainerPart(acts) == EpochScript(e, p)
    ensures |Trained(EpochScript(e, p))| == |e.roots|
    ensures LeftBy(e, Run(e, store, acts).s, store, Lasting(e, v, Trained(EpochScript(e, p))), v)
  {
    hide GoodEnv, Run, Inv, Trained, TrainerPart, EpochScript, BatchesOf, LeftBy, Lasting, Runs;
    RunsGood(e, p);
    EpochEnds(e, store, p, acts);
    TrainedByTrainer(acts);
    RowLeftByBatches(e, store, acts, v);
  }

  // ------------------------------------------------------------------------ an epoch that loses a row

  /** `v` is an end point of some edge of its block, and the edge is in some batch. */
  lemma BatchWith(p: Epoch, c: nat, v: nat) returns (k: nat, edge: nat)
    requires Numbered(p) && c < |NodePlan.RootBlocks(p.d.src, p.d.dst, p.size, 0, p.end)|
    requires v in NodePlan.RootBlocks(p.d.src, p.d.dst, p.size, 0, p.end)[c]
    ensures k < |BatchesOf(p)| && edge in BatchesOf(p)[k] && edge / p.size == c
    ensures EndPoint(p.d, BatchesOf(p)[k], v)
  {
    hide NodePlan.RootBlocks, NodePlan.RootNodes, BatchSplit.Batches, BatchSplit.Ranges, EndPoint;
    SameCount(p.d.src, p.d.dst, p.size, 0, p.end);
    assert 0 == 0 / p.size * p.size;
    BatchSplit.RangesTile(0, p.end, p.size, c);
    RootBlockAt(p.d.src, p.d.dst, p.size, 0, p.end, c, c * p.size);
    edge := EdgeOf(p.d.src, p.d.dst, c * p.size, Min(p.end, c * p.size + p.size), v);
    Quotient(c, edge - c * p.size, p.size);
    k := InSomeBatch(p, c, edge);
    HasEndPoint(p.d, BatchesOf(p)[k], edge, v);
  }

  lemma HasEndPoint(d: BatchSplit.Edges, batch: seq<nat>, edge: nat, v: nat)
    requires edge in batch && edge < |d.src| == |d.dst| && (d.src[edge] == v || d.dst[edge] == v)
    ensures EndPoint(d, batch, v)
  {
  }

  lemma EdgeOf(src: seq<nat>, dst: seq<nat>, left: nat, right: nat, v: nat) returns (edge: nat)
    requires left <= right <= |src| == |dst| && v in NodePlan.RootNodes(src, dst, left, right)
    ensures left <= edge < right && (src[edge] == v || dst[edge] == v)
  {
    var both := src[left..right] + dst[left..right];
    var i: nat :| i < |both| && both[i] == v;
    edge := left + if i < right - left then i else i - (right - left);
  }

  lemma InSomeBatch(p: Epoch, c: nat, edge: nat) returns (k: nat)
    requires Numbered(p) && c * p.size <= edge < c * p.size + p.size && edge < p.end
    requires c < |BatchSplit.Ranges(0, p.end, p.size)|
    ensures k < |BatchesOf(p)| && edge in BatchesOf(p)[k]
  {
    hide BatchSplit.Ranges, BatchSplit.Split, Concat;
    BatchSplit.RangesInPlace(p.eid, 0, p.end, p.size);
    assert 0 * p.size == 0;
    BatchSplit.RangesTile(0, p.end, p.size, c);
    var ranges := BatchSplit.Ranges(0, p.end, p.size);
    var per := BatchSplit.PerRange(p.d, p.eid, p.threshold, ranges);
    var m := InSplit(p.d, p.eid, p.threshold, ranges[c].0, ranges[c].1, edge);
    ConcatSlice(per, c);
    k := |Concat(per[..c])| + m;
    assert Concat(per)[|Concat(per[..c])|..|Concat(per[..c + 1])|][m] == per[c][m];
  }

  lemma InSplit(d: BatchSplit.Edges, eid: seq<nat>, threshold: int, lo: nat, hi: nat, edge: nat) returns (m: nat)
    requires BatchSplit.Known(d, eid) && lo <= edge < hi <= |eid| && eid[edge] == edge
    requires BatchSplit.Known(d, eid[lo..hi])
    ensures m < |BatchSplit.Split(d, threshold, eid[lo..hi])|
    ensures edge in BatchSplit.Split(d, threshold, eid[lo..hi])[m]
  {
    hide BatchSplit.Split, Concat;
    var cur := eid[lo..hi];
    var batches := BatchSplit.Split(d, threshold, cur);
    BatchSplit.SplitPermutes(d, threshold, cur);
    assert cur[edge - lo] == edge;
    assert edge in multiset(cur);
    assert edge in multiset(Concat(batches));
    var i: nat :| i < |Concat(batches)| && Concat(batches)[i] == edge;
    var j;
    m, j := BatchSplit.OwnerOf(batches, i);
  }

  const IDLE: Action := Train([], [])

  /** Only batch `k` writes anything. */
  function OnlyOne(n: nat, k: nat, a: Action): (trains: seq<Action>)
    ensures |trains| == n && forall i :: 0 <= i < n ==> trains[i] == if i == k then a else IDLE
  {
    seq(n, i => if i == k then a else IDLE)
  }

  lemma {:induction false} TrainedMembers(acts: seq<Action>)
    ensures forall a :: a in Concat(Trained(acts)) <==> a in acts && a.Train?
  {
    if |acts| == 0 {
      var none: seq<seq<Action>> := [[]];
      assert none[..0] == [] && Concat(none) == [];
    } else {
      hide Concat;
      var pre, last := acts[..|acts| - 1], acts[|acts| - 1];
      TrainedMembers(pre);
      assert acts == pre + [last];
      TrainedNext(pre, last);
    }
  }

  lemma TrainedNext(acts: seq<Action>, a: Action)
    ensures Concat(Trained(acts + [a])) == Concat(Trained(acts)) + if a.Train? then [a] else []
    ensures |Trained(acts + [a])| == |Trained(acts)| + if a.Switch? then 1 else 0
    ensures Trained(acts + [a])[..|Trained(acts)| - 1] == Trained(acts)[..|Trained(acts)| - 1]
  {
    assert (acts + [a])[..|acts|] == acts;
    var blocks, longer := Trained(acts), Trained(acts + [a]);
    if a.Train? {
      LongerBlock(blocks, a);
    } else if a.Switch? {
      assert longer[..|blocks|] == blocks;
    }
  }

  /** Later actions leave the blocks before the current one alone. */
  lemma {:induction false} TrainedPrefix(acts: seq<Action>, more: seq<Action>)
    ensures |Trained(acts)| <= |Trained(acts + more)|
    ensures Trained(acts + more)[..|Trained(acts)| - 1] == Trained(acts)[..|Trained(acts)| - 1]
  {
    hide Trained;
    if |more| == 0 {
      assert acts + more == acts;
    } else {
      var n := |more| - 1;
      TrainedPrefix(acts, more[..n]);
      assert acts + more == (acts + more[..n]) + [more[n]];
      TrainedNext(acts + more[..n], more[n]);
      var before := Trained(acts + more[..n]);
      ShorterPrefix(Trained(acts + more), before, |before| - 1, |Trained(acts)| - 1);
    }
  }

  lemma ShorterPrefix(a: seq<seq<Action>>, b: seq<seq<Action>>, m: nat, n: nat)
    requires n <= m <= |a| && m <= |b| && a[..m] == b[..m]
    ensures a[..n] == b[..n]
  {
    assert a[..n] == a[..m][..n] && b[..n] == b[..m][..n];
  }

  /** What such batches write. */
  lemma {:induction false} WrittenOnce(store: seq<Row>, acts: seq<Action>, v: nat, row: Row)
    requires v < |store| && forall k :: 0 <= k < |acts| ==> acts[k] == Train([v], [row]) || acts[k] == IDLE
    ensures forall k :: 0 <= k < |acts| ==> Writes(acts[k], |store|)
    ensures Written(store, acts) == if Train([v], [row]) in acts then store[v := row] else store
  {
    if |acts| > 0 {
      var pre, last := acts[..|acts| - 1], acts[|acts| - 1];
      WrittenOnce(store, pre, v, row);
      assert acts == pre + [last];
      ScatterOne(store, v, row);
      ScatterOne(store[v := row], v, row);
      assert Train([v], [row]) != IDLE;
    }
  }

  /** The block that batch `k` belongs to begins before it in the script. */
  lemma BlockBegins(e: Env, batches: seq<seq<nat>>, size: nat, trains: seq<Action>, k: nat)
    requires BatchesFit(e, batches, size, trains) && k < |batches|
    ensures var pre := Script(e, batches, size, trains, k);
      var script := Script(e, batches, size, trains, |batches|);
      var c := |BatchSplit.Triggers(batches[..k + 1], size)| - 1;
      && 0 <= c <= |Trained(script)|
      && forall a :: a in Concat(Trained(script)[..c]) ==> a in pre
  {
    hide BatchSplit.Triggers, Script, FitsAt, Trained, Concat, Item, Switches;
    var pre, script := Script(e, batches, size, trains, k), Script(e, batches, size, trains, |batches|);
    TrainBatch(e, batches, size, trains, k);
    var into := Item(e, batches, size, trains, k)[..|Item(e, batches, size, trains, k)| - 1];
    ItemParts(e, batches, size, trains, k, into);
    var more := ScriptFrom(e, batches, size, trains, k + 1, |batches|);
    ScriptNext(e, batches, size, trains, k);
    assert script == (pre + into) + ([trains[k]] + more);
    TrainedPrefix(pre + into, [trains[k]] + more);
    ScriptSwitches(e, batches, size, trains, k + 1);
    SwitchesNext(pre + into, trains[k]);
    assert Script(e, batches, size, trains, k + 1) == (pre + into) + [trains[k]];
    TrainedCount(pre + into);
    TrainedMembers(pre + into);
    var blocks := Trained(pre + into);
    ConcatPrefix(blocks, |blocks| - 1);
    assert Trained(script)[..|blocks| - 1] == blocks[..|blocks| - 1];
    forall a | a in Concat(Trained(script)[..|blocks| - 1]) ensures a in pre {
      assert a in Concat(blocks);
    }
  }

  lemma TrainBatch(e: Env, batches: seq<seq<nat>>, size: nat, trains: seq<Action>, k: nat)
    requires BatchesFit(e, batches, size, trains) && k < |batches|
    ensures trains[k].Train?
  {
    assert FitsAt(e, batches, size, trains, k);
  }

  lemma ItemParts(e: Env, batches: seq<seq<nat>>, size: nat, trains: seq<Action>, k: nat, into: seq<Action>)
    requires 0 < size && k < |batches| == |trains| && |batches[k]| > 0
    requires into == Item(e, batches, size, trains, k)[..|Item(e, batches, size, trains, k)| - 1]
    ensures Item(e, batches, size, trains, k) == into + [trains[k]]
    ensures forall a :: a in into ==> !a.Train?
  {
  }

  lemma ScriptNext(e: Env, batches: seq<seq<nat>>, size: nat, trains: seq<Action>, k: nat)
    requires 0 < size && k < |batches| == |trains| && forall j :: 0 <= j < |batches| ==> |batches[j]| > 0
    ensures Script(e, batches, size, trains, k + 1)
      == Script(e, batches, size, trains, k) + Item(e, batches, size, trains, k)
  {
    hide Item;
  }

  lemma {:induction false} ScriptFrom(e: Env, batches: seq<seq<nat>>, size: nat, trains: seq<Action>, k: nat, n: nat)
    returns (more: seq<Action>)
    requires 0 < size && k <= n <= |batches| == |trains| && forall j :: 0 <= j < |batches| ==> |batches[j]| > 0
    ensures Script(e, batches, size, trains, n) == Script(e, batches, size, trains, k) + more
  {
    hide Item, Script;
    if k == n {
      more := [];
    } else {
      var front := ScriptFrom(e, batches, size, trains, k, n - 1);
      ScriptNext(e, batches, size, trains, n - 1);
      more := front + Item(e, batches, size, trains, n - 1);
    }
  }

  lemma {:induction false} TrainedCount(acts: seq<Action>)
    ensures |Trained(acts)| == 1 + Switches(acts)
  {
    if |acts| > 0 {
      TrainedCount(acts[..|acts| - 1]);
    }
  }

  lemma {:induction false} ScriptTrains(e: Env, batches: seq<seq<nat>>, size: nat, trains: seq<Action>, n: nat)
    requires 0 < size && n <= |batches| == |trains| && forall j :: 0 <= j < |batches| ==> |batches[j]| > 0
    ensures forall a :: a in Script(e, batches, size, trains, n) && a.Train? ==> a in trains[..n]
    ensures forall i :: 0 <= i < n ==> trains[i] in Script(e, batches, size, trains, n)
  {
    if n > 0 {
      ScriptTrains(e, batches, size, trains, n - 1);
      assert trains[..n] == trains[..n - 1] + [trains[n - 1]];
      hide Script;
      ScriptNext(e, batches, size, trains, n - 1);
      ItemEnds(e, batches, size, trains, n - 1);
    }
  }

  /** This run does all of the epoch. */
  ghost predicate Follows(e: Env, store: seq<Row>, p: Epoch, acts: seq<Action>) {
    && Runs(e, p) && |store| == |e.nodes.feats| && Run(e, store, acts).Reached?
    && TrainerPart(acts) == EpochScript(e, p)
  }

  ghost predicate EndsWith(e: Env, s: State, v: nat, left: Row, last: Row) {
    Inv(e, s) && v < |s.ref| && Refreshed(e, s)[v] == left && s.ref[v] == last
  }

  /** The epoch's edges and batches, with one batch that writes. */
  lemma OneWriter(e: Env, p: Epoch, v: nat, row: Row) returns (q: Epoch, k: nat)
    requires GoodEnv(e) && Numbered(p) && e.roots == NodePlan.RootBlocks(p.d.src, p.d.dst, p.size, 0, p.end)
    requires Dropped(e, v)
    ensures Runs(e, q) && q == p.(trains := q.trains) && k < |q.trains| == |BatchesOf(q)|
    ensures q.trains == OnlyOne(|q.trains|, k, Train([v], [row]))
    ensures forall j :: 0 <= j < |BatchesOf(q)| ==> |BatchesOf(q)[j]| > 0
    ensures |BatchSplit.Triggers(BatchesOf(q)[..k + 1], q.size)| == |e.roots| - 1
  {
    hide GoodEnv, NodePlan.RootBlocks, BatchSplit.Batches, BatchSplit.Triggers, EndPoint;
    var edge;
    k, edge := BatchWith(p, |e.roots| - 2, v);
    q := p.(trains := OnlyOne(|BatchesOf(p)|, k, Train([v], [row])));
    BatchSplit.SplitDrivesBlocks(p.d, p.eid, p.threshold, p.end, p.size, k, edge);
  }

  /** Such an epoch loses the row, however trainer and worker interleave. */
  lemma EpochLoses(e: Env, store: seq<Row>, p: Epoch, k: nat, v: nat, row: Row, acts: seq<Action>)
    requires Follows(e, store, p, acts) && v < |store| && Dropped(e, v) && k < |p.trains|
    requires p.trains == OnlyOne(|p.trains|, k, Train([v], [row]))
    requires forall j :: 0 <= j < |BatchesOf(p)| ==> |BatchesOf(p)[j]| > 0
    requires |BatchSplit.Triggers(BatchesOf(p)[..k + 1], p.size)| == |e.roots| - 1
    ensures EndsWith(e, Run(e, store, acts).s, v, store[v], row)
  {
    hide GoodEnv, Run, Inv, Trained, TrainerPart, Refreshed, Concat, LogOk, BatchesOf, Script, Stretch, BatchesFit,
         BatchSplit.Triggers, Written, Writes;
    var script := EpochScript(e, p);
    EpochRefreshed(e, store, p, acts, v);
    RunLog(e, store, acts);
    TrainedByTrainer(acts);
    var f := Stretch(e, v, |e.roots| - 2);
    EpochFits(e, p);
    NothingEarlier(e, store, p, k, v, row, f);
    AllTrains(e, p, k, v, row);
    WrittenOnce(store, Concat(Trained(script)), v, row);
  }

  lemma {:induction false} IdleWrites(store: seq<Row>, acts: seq<Action>)
    requires forall k :: 0 <= k < |acts| ==> acts[k] == IDLE
    ensures forall k :: 0 <= k < |acts| ==> Writes(acts[k], |store|)
    ensures Written(store, acts) == store
  {
    if |acts| > 0 {
      IdleWrites(store, acts[..|acts| - 1]);
    }
  }

  lemma AllTrains(e: Env, p: Epoch, k: nat, v: nat, row: Row)
    requires Runs(e, p) && k < |p.trains| && p.trains == OnlyOne(|p.trains|, k, Train([v], [row]))
    ensures var done := Concat(Trained(EpochScript(e, p)));
      && Train([v], [row]) in done
      && forall i :: 0 <= i < |done| ==> done[i] == Train([v], [row]) || done[i] == IDLE
  {
    hide GoodEnv, Trained, Concat, Script, BatchesOf, FitsAt;
    var script := EpochScript(e, p);
    EpochFits(e, p);
    ScriptTrains(e, BatchesOf(p), p.size, p.trains, |p.trains|);
    assert p.trains[..|p.trains|] == p.trains;
    TrainedMembers(script);
    assert p.trains[k] in script;
    forall i | 0 <= i < |Concat(Trained(script))|
      ensures Concat(Trained(script))[i] == Train([v], [row]) || Concat(Trained(script))[i] == IDLE
    {
      assert Concat(Trained(script))[i] in Concat(Trained(script));
    }
  }

  /** The batches of the blocks before write nothing. */
  lemma NothingEarlier(e: Env, store: seq<Row>, p: Epoch, k: nat, v: nat, row: Row, f: nat)
    requires Runs(e, p) && k < |p.trains| && p.trains == OnlyOne(|p.trains|, k, Train([v], [row]))
    requires BatchesFit(e, BatchesOf(p), p.size, p.trains) && f + 2 <= |e.roots|
    requires |BatchSplit.Triggers(BatchesOf(p)[..k + 1], p.size)| == |e.roots| - 1
    requires |Trained(EpochScript(e, p))| == |e.roots|
    ensures var early := Concat(Trained(EpochScript(e, p))[..f]);
      && (forall i :: 0 <= i < |early| ==> Writes(early[i], |store|))
      && Written(store, early) == store
  {
    hide GoodEnv, Trained, Concat, Script, BatchesOf, FitsAt, BatchSplit.Triggers, Written, Writes;
    var blocks := Trained(EpochScript(e, p));
    BlockBegins(e, BatchesOf(p), p.size, p.trains, k);
    ScriptTrains(e, BatchesOf(p), p.size, p.trains, k);
    TrainedMembers(EpochScript(e, p));
    EarlyMembers(blocks, |e.roots| - 2, f);
    var early := Concat(blocks[..f]);
    forall i | 0 <= i < |early| ensures early[i] == IDLE {
      assert early[i] in early;
      assert early[i] in Script(e, BatchesOf(p), p.size, p.trains, k) && early[i].Train?;
      IdleBefore(p.trains, k, Train([v], [row]), early[i]);
    }
    IdleWrites(store, early);
  }

  lemma EarlyMembers(blocks: seq<seq<Action>>, c: nat, f: nat)
    requires f <= c <= |blocks|
    ensures forall a :: a in Concat(blocks[..f]) ==> a in Concat(blocks[..c]) && a in Concat(blocks)
  {
    hide Concat;
    ConcatPrefix(blocks, c);
    assert blocks[..c][..f] == blocks[..f];
    ConcatPrefix(blocks[..c], f);
  }

  lemma IdleBefore(trains: seq<Action>, k: nat, one: Action, a: Action)
    requires k <= |trains| && trains == OnlyOne(|trains|, k, one) && a in trains[..k]
    ensures a == IDLE
  {
  }

  ghost predicate KeepsRow(e: Env, s: State, v: nat) {
    Inv(e, s) && v < |s.ref| && Refreshed(e, s)[v] == s.ref[v]
  }

  /** For any edges, any threshold and both modes: whatever the batches write and however trainer and worker interleave,
      the refreshed store has the row last written to `v` after the epoch, if and only if `v` is not dropped. */
  lemma EpochKeepsIff(e: Env, store: seq<Row>, p: Epoch, v: nat)
    requires GoodEnv(e) && Numbered(p) && e.roots == NodePlan.RootBlocks(p.d.src, p.d.dst, p.size, 0, p.end)
    requires |store| == |e.nodes.feats| && v < |store|
    ensures (forall trains, acts :: Follows(e, store, p.(trains := trains), acts) ==>
        KeepsRow(e, Run(e, store, acts).s, v))
      <==> !Dropped(e, v)
  {
    hide GoodEnv, Numbered, Runs, Run, Inv, EpochScript, Refreshed, Dropped, BatchesOf, TrainerPart,
         BatchSplit.Triggers;
    if Dropped(e, v) {
      var row := Row(store[v].values + [0.0]);
      assert row != store[v];
      var q, k := OneWriter(e, p, v, row);
      var acts := EpochRuns(e, store, q, |EpochScript(e, q)|);
      assert EpochScript(e, q)[..|EpochScript(e, q)|] == EpochScript(e, q);
      assert Follows(e, store, p.(trains := q.trains), acts);
      EpochLoses(e, store, q, k, v, row, acts);
    } else {
      forall trains, acts | Follows(e, store, p.(trains := trains), acts)
        ensures KeepsRow(e, Run(e, store, acts).s, v)
      {
        EpochEnds(e, store, p.(trains := trains), acts);
        EndBounds(e, store, acts);
        RefreshMemory(e, Run(e, store, acts).s, v);
      }
    }
  }
}
