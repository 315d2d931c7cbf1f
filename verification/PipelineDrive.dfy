/** What drives the pipeline: the list of batches that the splitter makes. Each batch calls `run_batch` with its
    first edge, which enters the next block if that edge leads one, and then writes to end points of its edges. */
module PipelineDrive {
  import opened Common
  import opened Tensors
  import opened BlockPipeline
  import opened PipelineRuns
  import NodePlan
  import BatchSplit

  // ------------------------------------------------------------------- batches, blocks and roots

  /** The `c`-th list of roots belongs to the `c`-th block of edges. */
  lemma {:induction false} RootBlockAt(src: seq<nat>, dst: seq<nat>, size: nat, left: nat, end: nat, c: nat, at: nat)
    requires 0 < size && left <= end <= |src| == |dst| && at == left + c * size && at < end
    ensures c < |NodePlan.RootBlocks(src, dst, size, left, end)|
    ensures at <= Min(end, at + size)
    ensures NodePlan.RootBlocks(src, dst, size, left, end)[c]
      == NodePlan.RootNodes(src, dst, at, Min(end, at + size))
    decreases c
  {
    hide NodePlan.RootNodes, NodePlan.RootBlocks;
    Next(c, size);
    FirstBlock(src, dst, size, left, end);
    if c > 0 {
      RootBlockAt(src, dst, size, left + size, end, c - 1, at);
    }
  }

  lemma FirstBlock(src: seq<nat>, dst: seq<nat>, size: nat, left: nat, end: nat)
    requires 0 < size && left < end <= |src| == |dst|
    ensures var right := Min(end, left + size);
      NodePlan.RootBlocks(src, dst, size, left, end)
      == [NodePlan.RootNodes(src, dst, left, right)] + NodePlan.RootBlocks(src, dst, size, right, end)
  {
    hide NodePlan.RootNodes;
  }

  lemma Next(c: nat, size: nat)
    ensures c > 0 ==> c * size == (c - 1) * size + size && (c - 1) * size >= 0
    ensures c == 0 ==> c * size == 0
  {
  }

  lemma BlockOf(edge: nat, size: nat)
    requires 0 < size
    ensures (edge / size) * size <= edge < (edge / size) * size + size
  {
  }

  /** The end points of an edge are roots of its block. */
  lemma EndPointsAreRoots(src: seq<nat>, dst: seq<nat>, size: nat, end: nat, edge: nat)
    requires 0 < size && edge < end <= |src| == |dst|
    ensures edge / size < |NodePlan.RootBlocks(src, dst, size, 0, end)|
    ensures src[edge] in NodePlan.RootBlocks(src, dst, size, 0, end)[edge / size]
    ensures dst[edge] in NodePlan.RootBlocks(src, dst, size, 0, end)[edge / size]
  {
    hide NodePlan.RootBlocks, NodePlan.RootNodes;
    BlockOf(edge, size);
    var at := (edge / size) * size;
    RootBlockAt(src, dst, size, 0, end, edge / size, at);
    InRoots(src, dst, at, Min(end, at + size), edge);
  }

  lemma InRoots(src: seq<nat>, dst: seq<nat>, left: nat, right: nat, edge: nat)
    requires left <= edge < right <= |src| == |dst|
    ensures src[edge] in NodePlan.RootNodes(src, dst, left, right)
    ensures dst[edge] in NodePlan.RootNodes(src, dst, left, right)
  {
    var both := src[left..right] + dst[left..right];
    assert both[edge - left] == src[edge] && both[(right - left) + (edge - left)] == dst[edge];
  }

  /** When batch `k` runs, as many blocks have been entered as the batches up to it switch to, and the end points of
      `edge` are roots of the last of them. */
  ghost predicate Expected(batches: seq<seq<nat>>, size: nat, k: nat, d: BatchSplit.Edges, edge: nat,
                           roots: seq<seq<nat>>)
    requires 0 < size && k < |batches|
  {
    && edge < |d.src| == |d.dst| && (forall j :: 0 <= j < |batches| ==> |batches[j]| > 0)
    && var entered := |BatchSplit.Triggers(batches[..k + 1], size)|;
      0 < entered <= |roots| && d.src[edge] in roots[entered - 1] && d.dst[edge] in roots[entered - 1]
  }

  /** The splitter drives the pipeline: while batch `k` of its list runs, the block that the trainer has entered last
      is the one whose roots the end points of the batch's edges are. So no batch ever writes to a node that the
      pipeline does not expect. */
  lemma BatchFitsBlock(d: BatchSplit.Edges, eid: seq<nat>, threshold: int, end: nat, size: nat, k: nat, edge: nat)
    requires BatchSplit.Known(d, eid) && 0 < size && end <= |eid| == |d.src|
    requires forall p :: 0 <= p < |eid| ==> eid[p] == p
    requires k < |BatchSplit.Batches(d, eid, threshold, end, size)|
    requires edge in BatchSplit.Batches(d, eid, threshold, end, size)[k]
    ensures Expected(BatchSplit.Batches(d, eid, threshold, end, size), size, k, d, edge,
                     NodePlan.RootBlocks(d.src, d.dst, size, 0, end))
  {
    hide BatchSplit.Batches, BatchSplit.Triggers, NodePlan.RootBlocks;
    BatchSplit.SplitDrivesBlocks(d, eid, threshold, end, size, k, edge);
    BatchSplit.BatchBeforeEnd(d, eid, threshold, end, size, k, edge);
    EndPointsAreRoots(d.src, d.dst, size, end, edge);
  }

  /** There are as many lists of roots as ranges that the splitter cuts. */
  lemma {:induction false} SameCount(src: seq<nat>, dst: seq<nat>, size: nat, left: nat, end: nat)
    requires 0 < size && left <= end <= |src| == |dst| && (left == end || left == (left / size) * size)
    ensures |NodePlan.RootBlocks(src, dst, size, left, end)| == |BatchSplit.Ranges(left, end, size)|
    decreases end - left
  {
    hide NodePlan.RootNodes;
    if left < end {
      BatchSplit.RangeStep(left, end, size);
      SameCount(src, dst, size, Min(end, left + size), end);
    }
  }

  // --------------------------------------------------------------------------------- the script

  /** What the trainer does to enter the next block. */
  function Into(e: Env): (acts: seq<Action>)
  {
    if e.useAsync then [Switch] else [Call, Switch]
  }

  /** `run_batch` with the first edge of batch `k`, and the batch itself. The first batch of all finds its block
      loaded. */
  function Item(e: Env, batches: seq<seq<nat>>, size: nat, trains: seq<Action>, k: nat): (acts: seq<Action>)
    requires 0 < size && k < |batches| == |trains| && |batches[k]| > 0
    ensures |acts| > 0
  {
    (if k > 0 && batches[k][0] % size == 0 then Into(e) else []) + [trains[k]]
  }

  /** All that the trainer does in the first `n` batches. */
  function Script(e: Env, batches: seq<seq<nat>>, size: nat, trains: seq<Action>, n: nat): (acts: seq<Action>)
    requires 0 < size && n <= |batches| == |trains| && forall k :: 0 <= k < |batches| ==> |batches[k]| > 0
  {
    if n == 0 then []
    else Script(e, batches, size, trains, n - 1) + Item(e, batches, size, trains, n - 1)
  }

  /** What the trainer does in a run: all but the worker's steps. */
  function TrainerPart(acts: seq<Action>): (part: seq<Action>)
  {
    if |acts| == 0 then []
    else
      var n := |acts| - 1;
      TrainerPart(acts[..n]) + (if acts[n].Work? then [] else [acts[n]])
  }

  lemma TrainerPartNext(acts: seq<Action>, a: Action)
    ensures TrainerPart(acts + [a]) == if a.Work? then TrainerPart(acts) else TrainerPart(acts) + [a]
  {
    assert (acts + [a])[..|acts|] == acts;
  }

  function Switches(acts: seq<Action>): (n: nat)
  {
    if |acts| == 0 then 0 else Switches(acts[..|acts| - 1]) + (if acts[|acts| - 1].Switch? then 1 else 0)
  }

  lemma {:induction false} SwitchesConcat(a: seq<Action>, b: seq<Action>)
    ensures Switches(a + b) == Switches(a) + Switches(b)
  {
    if |b| == 0 {
      assert a + b == a;
    } else {
      assert (a + b)[..|a + b| - 1] == a + b[..|b| - 1];
      SwitchesConcat(a, b[..|b| - 1]);
    }
  }

  lemma NoSwitches()
    ensures Switches([]) == 0 && TrainerPart([]) == []
  {
  }

  lemma SwitchesNext(acts: seq<Action>, a: Action)
    ensures Switches(acts + [a]) == Switches(acts) + if a.Switch? then 1 else 0
  {
    assert (acts + [a])[..|acts|] == acts;
  }

  /** The trainer's counters follow from its own actions. */
  lemma {:induction false} Counters(e: Env, store: seq<Row>, acts: seq<Action>)
    requires GoodEnv(e) && |store| == |e.nodes.feats| && Run(e, store, acts).Reached?
    ensures var s, part := Run(e, store, acts).s, TrainerPart(acts);
      && s.t.cur == 1 + Switches(part) && (s.t.asked <==> |part| > 0 && part[|part| - 1].Call?)
  {
    hide GoodEnv, Inv, Run, Enabled, After, Start, Switches, TrainerPart;
    RunStep(e, store, acts);
    if |acts| == 0 {
      NoSwitches();
      StartFacts(e, store);
    } else {
      var pre, a := acts[..|acts| - 1], acts[|acts| - 1];
      Counters(e, store, pre);
      assert acts == pre + [a];
      TrainerPartNext(pre, a);
      SwitchesNext(TrainerPart(pre), a);
      StepCounters(e, Run(e, store, pre).s, a);
    }
  }

  lemma StepCounters(e: Env, s: State, a: Action)
    requires Inv(e, s) && Enabled(e, s, a)
    ensures var r := After(e, s, a);
      && r.t.cur == (if a.Switch? then s.t.cur + 1 else s.t.cur)
      && r.t.asked == (if a.Call? then true else if a.Switch? then false else s.t.asked)
      && (a.Train? ==> !s.t.asked)
  {
    hide GoodEnv, Inv, After, Due, DueFlush;
    match a
    case Train(ids, rows) => TrainMoves(e, s, ids, rows);
    case Call => CallMoves(e, s);
    case Work(junk) => WorkMoves(e, s, junk);
    case Switch => SwitchMoves(e, s);
  }

  // ------------------------------------------------------------------------- what fits the pipeline

  /** When batch `k` is trained, as many blocks have been entered as the batches up to it switch to, and it writes to
      roots of the last of them. */
  ghost predicate FitsAt(e: Env, batches: seq<seq<nat>>, size: nat, trains: seq<Action>, k: nat)
    requires 0 < size && k < |batches| == |trains| && forall j :: 0 <= j < |batches| ==> |batches[j]| > 0
  {
    var entered := |BatchSplit.Triggers(batches[..k + 1], size)|;
    && 0 < entered <= |e.roots| && trains[k].Train? && |trains[k].ids| == |trains[k].rows|
    && forall i :: 0 <= i < |trains[k].ids| ==> trains[k].ids[i] in e.roots[entered - 1]
  }

  ghost predicate BatchesFit(e: Env, batches: seq<seq<nat>>, size: nat, trains: seq<Action>) {
    && 0 < size && 0 < |batches| == |trains| && (forall j :: 0 <= j < |batches| ==> |batches[j]| > 0)
    && (forall k :: 0 <= k < |batches| ==> FitsAt(e, batches, size, trains, k))
    && |BatchSplit.Triggers(batches, size)| == |e.roots|
  }

  /** After the script of `k` batches, as many blocks have been entered as these switch to; before the first batch,
      one. */
  lemma {:induction false} ScriptSwitches(e: Env, batches: seq<seq<nat>>, size: nat, trains: seq<Action>, k: nat)
    requires BatchesFit(e, batches, size, trains) && k <= |batches|
    ensures 1 + Switches(Script(e, batches, size, trains, k))
      == if k == 0 then 1 else |BatchSplit.Triggers(batches[..k], size)|
    ensures var script := Script(e, batches, size, trains, k); |script| > 0 ==> script[|script| - 1].Train?
  {
    hide BatchSplit.Triggers, Switches, Item;
    NoSwitches();
    if k > 0 {
      var item := Item(e, batches, size, trains, k - 1);
      ScriptSwitches(e, batches, size, trains, k - 1);
      SwitchesConcat(Script(e, batches, size, trains, k - 1), item);
      assert FitsAt(e, batches, size, trains, k - 1);
      ItemSwitches(e, batches, size, trains, k - 1);
      TriggersNext(batches, size, k - 1);
      ItemEnds(e, batches, size, trains, k - 1);
    }
  }

  lemma ItemEnds(e: Env, batches: seq<seq<nat>>, size: nat, trains: seq<Action>, k: nat)
    requires 0 < size && k < |batches| == |trains| && |batches[k]| > 0
    ensures var item := Item(e, batches, size, trains, k); item[|item| - 1] == trains[k]
  {
  }

  lemma ItemSwitches(e: Env, batches: seq<seq<nat>>, size: nat, trains: seq<Action>, k: nat)
    requires 0 < size && k < |batches| == |trains| && |batches[k]| > 0 && trains[k].Train?
    ensures Switches(Item(e, batches, size, trains, k)) == if k > 0 && batches[k][0] % size == 0 then 1 else 0
  {
    var t := [trains[k]];
    SwitchesConcat(if k > 0 && batches[k][0] % size == 0 then Into(e) else [], t);
    assert Switches(t) == 0;
    assert [Call, Switch][..1] == [Call] && [Switch][..0] == [] && [Call][..0] == [];
    assert Switches([Switch]) == 1 && Switches([Call, Switch]) == 1;
  }

  lemma TriggersNext(batches: seq<seq<nat>>, size: nat, k: nat)
    requires 0 < size && k < |batches| && forall j :: 0 <= j < |batches| ==> |batches[j]| > 0
    ensures |BatchSplit.Triggers(batches[..k + 1], size)|
      == |BatchSplit.Triggers(batches[..k], size)| + (if batches[k][0] % size == 0 then 1 else 0)
    ensures |BatchSplit.Triggers(batches[..0], size)| == 0
  {
    assert batches[..k + 1][..k] == batches[..k];
  }

  /** Where in the script the trainer is. */
  lemma {:induction false} Locate(e: Env, batches: seq<seq<nat>>, size: nat, trains: seq<Action>, n: nat, i: nat)
    returns (k: nat, j: nat)
    requires BatchesFit(e, batches, size, trains) && n <= |batches| && i < |Script(e, batches, size, trains, n)|
    ensures k < n && j < |Item(e, batches, size, trains, k)|
    ensures var script := Script(e, batches, size, trains, n);
      && script[..i] == Script(e, batches, size, trains, k) + Item(e, batches, size, trains, k)[..j]
      && script[i] == Item(e, batches, size, trains, k)[j]
  {
    hide FitsAt, Item, BatchSplit.Triggers;
    var before := Script(e, batches, size, trains, n - 1);
    if i < |before| {
      k, j := Locate(e, batches, size, trains, n - 1, i);
    } else {
      k, j := n - 1, i - |before|;
    }
  }

  // ------------------------------------------------------------------------------------- the drive

  /** The trainer's next action can happen at once, or once the worker has answered. */
  ghost predicate GoesOn(e: Env, store: seq<Row>, acts: seq<Action>, a: Action, junk: seq<Row>)
    requires GoodEnv(e) && |store| == |e.nodes.feats|
  {
    Run(e, store, acts + [a]).Reached? || Run(e, store, acts + [Work(junk)] + [a]).Reached?
  }

  lemma SwitchGoesOn(e: Env, store: seq<Row>, acts: seq<Action>, junk: seq<Row>)
    requires GoodEnv(e) && |store| == |e.nodes.feats| && Run(e, store, acts).Reached?
    requires var s := Run(e, store, acts).s; s.t.cur < |e.roots| && (e.useAsync || s.t.asked)
    ensures GoesOn(e, store, acts, Switch, junk)
  {
    hide GoodEnv, Inv, Run, After;
    var s := Run(e, store, acts).s;
    OneOutstanding(e, s);
    if |s.outbox| == 1 {
      RunExtend(e, store, acts, Switch);
    } else {
      WorkMoves(e, s, junk);
      RunExtend(e, store, acts, Work(junk));
      RunExtend(e, store, acts + [Work(junk)], Switch);
    }
  }

  lemma OneOutstanding(e: Env, s: State)
    requires Inv(e, s) && s.t.cur < |e.roots| && (e.useAsync || s.t.asked)
    ensures |s.inbox| + |s.outbox| == 1
  {
  }

  lemma EnabledGoesOn(e: Env, store: seq<Row>, acts: seq<Action>, a: Action, junk: seq<Row>)
    requires GoodEnv(e) && |store| == |e.nodes.feats| && Run(e, store, acts).Reached?
    requires Enabled(e, Run(e, store, acts).s, a)
    ensures GoesOn(e, store, acts, a, junk)
  {
    hide GoodEnv, Inv, Run, After, Enabled;
    RunExtend(e, store, acts, a);
  }

  /** A trainer that has done a part of the script can do the next of it. */
  lemma ScriptGoesOn(e: Env, store: seq<Row>, batches: seq<seq<nat>>, size: nat, trains: seq<Action>, acts: seq<Action>,
                     junk: seq<Row>)
    requires GoodEnv(e) && |store| == |e.nodes.feats| && Run(e, store, acts).Reached?
    requires BatchesFit(e, batches, size, trains)
    requires TrainerPart(acts) < Script(e, batches, size, trains, |batches|)
    ensures var script := Script(e, batches, size, trains, |batches|);
      GoesOn(e, store, acts, script[|TrainerPart(acts)|], junk)
  {
    hide GoodEnv, Inv, Run, BatchesFit, Script, GoesOn, Enabled;
    var part := TrainerPart(acts);
    var k, j := Locate(e, batches, size, trains, |batches|, |part|);
    ItemGoesOn(e, store, batches, size, trains, acts, junk, k, j);
  }

  lemma ItemGoesOn(e: Env, store: seq<Row>, batches: seq<seq<nat>>, size: nat, trains: seq<Action>, acts: seq<Action>,
                   junk: seq<Row>, k: nat, j: nat)
    requires GoodEnv(e) && |store| == |e.nodes.feats| && Run(e, store, acts).Reached?
    requires BatchesFit(e, batches, size, trains) && k < |batches| && j < |Item(e, batches, size, trains, k)|
    requires TrainerPart(acts) == Script(e, batches, size, trains, k) + Item(e, batches, size, trains, k)[..j]
    ensures GoesOn(e, store, acts, Item(e, batches, size, trains, k)[j], junk)
  {
    hide GoodEnv, Inv, Run, Script, GoesOn, Item, Switches, BatchSplit.Triggers;
    var before, item := Script(e, batches, size, trains, k), Item(e, batches, size, trains, k);
    Counters(e, store, acts);
    ScriptSwitches(e, batches, size, trains, k);
    SwitchesConcat(before, item[..j]);
    TriggersNext(batches, size, k);
    assert FitsAt(e, batches, size, trains, k);
    SwitchesUpTo(e, batches, size, trains, k, j);
    if item[j].Switch? {
      SwitchGoesOn(e, store, acts, junk);
    } else {
      EnabledGoesOn(e, store, acts, item[j], junk);
    }
  }

  lemma SwitchesUpTo(e: Env, batches: seq<seq<nat>>, size: nat, trains: seq<Action>, k: nat, j: nat)
    requires 0 < size && k < |batches| == |trains| && |batches[k]| > 0 && trains[k].Train?
    requires j < |Item(e, batches, size, trains, k)|
    ensures var item, enters := Item(e, batches, size, trains, k), k > 0 && batches[k][0] % size == 0;
      && Switches(item[..j]) == (if enters && item[j].Train? then 1 else 0)
      && (item[j].Train? ==> j == |item| - 1 && item[j] == trains[k])
      && (item[j].Train? || j == 0 <==> !(j > 0 && item[j - 1].Call?))
      && (!item[j].Train? ==> enters)
      && (item[j].Switch? && !e.useAsync ==> j > 0 && item[j - 1].Call?)
      && (item[j].Call? ==> !e.useAsync && j == 0) && !item[j].Work?
  {
    var item := Item(e, batches, size, trains, k);
    assert Switches([]) == 0;
    assert [Call, Switch][..1] == [Call] && [Switch][..0] == [] && [Call][..0] == [];
    assert Switches([Switch]) == 1 && Switches([Call, Switch]) == 1 && Switches([Call]) == 0;
    assert j == 0 ==> item[..j] == [];
    assert j == 1 ==> item[..j] == [item[0]];
    assert j == 2 ==> item[..j] == [Call, Switch];
  }

  /** An epoch as the splitter and the training loop see it: the edges, what the splitter is given, and what each
      batch writes. */
  datatype Epoch = Epoch(d: BatchSplit.Edges, eid: seq<nat>, threshold: int, end: nat, size: nat,
                         trains: seq<Action>)

  /** Edges are numbered by their positions. */
  ghost predicate Numbered(p: Epoch) {
    && BatchSplit.Known(p.d, p.eid) && 0 < p.size && p.end <= |p.eid| == |p.d.src|
    && forall i :: 0 <= i < |p.eid| ==> p.eid[i] == i
  }

  function BatchesOf(p: Epoch): (batches: seq<seq<nat>>)
    requires Numbered(p)
  {
    BatchSplit.Batches(p.d, p.eid, p.threshold, p.end, p.size)
  }

  /** The batch updates end points of its own edges. */
  ghost predicate WritesEndPoints(d: BatchSplit.Edges, batch: seq<nat>, a: Action) {
    && a.Train? && |a.ids| == |a.rows|
    && forall i :: 0 <= i < |a.ids| ==> EndPoint(d, batch, a.ids[i])
  }

  ghost predicate EndPoint(d: BatchSplit.Edges, batch: seq<nat>, v: nat) {
    exists edge :: edge in batch && edge < |d.src| == |d.dst| && (d.src[edge] == v || d.dst[edge] == v)
  }

  /** The pipeline's blocks are cut from the same edges, and there is something to train. */
  ghost predicate Runs(e: Env, p: Epoch) {
    && GoodEnv(e) && Numbered(p) && e.roots == NodePlan.RootBlocks(p.d.src, p.d.dst, p.size, 0, p.end)
    && |p.trains| == |BatchesOf(p)|
    && forall k :: 0 <= k < |p.trains| ==> WritesEndPoints(p.d, BatchesOf(p)[k], p.trains[k])
  }

  /** The list enters every block once. */
  lemma AllEntered(p: Epoch)
    requires Numbered(p)
    ensures forall k :: 0 <= k < |BatchesOf(p)| ==> |BatchesOf(p)[k]| > 0
    ensures |BatchSplit.Triggers(BatchesOf(p), p.size)|
      == |NodePlan.RootBlocks(p.d.src, p.d.dst, p.size, 0, p.end)|
  {
    hide BatchSplit.AllBlocks, BatchSplit.Triggers, BatchSplit.PerRange, BatchSplit.Ranges, NodePlan.RootBlocks,
         BatchSplit.InPlace, Concat;
    BatchSplit.RangesInPlace(p.eid, 0, p.end, p.size);
    BatchSplit.AllRanges(p.d, p.eid, p.threshold, p.end, p.size);
    var ranges := BatchSplit.Ranges(0, p.end, p.size);
    BatchSplit.TriggersAscend(BatchSplit.PerRange(p.d, p.eid, p.threshold, ranges), p.size);
    assert 0 == (0 / p.size) * p.size;
    SameCount(p.d.src, p.d.dst, p.size, 0, p.end);
  }

  lemma BatchFits(e: Env, p: Epoch, k: nat)
    requires Runs(e, p) && k < |p.trains| && forall j :: 0 <= j < |BatchesOf(p)| ==> |BatchesOf(p)[j]| > 0
    ensures FitsAt(e, BatchesOf(p), p.size, p.trains, k)
  {
    hide GoodEnv, BatchSplit.Triggers, BatchSplit.Batches, NodePlan.RootBlocks;
    var batch, train := BatchesOf(p)[k], p.trains[k];
    BatchFitsBlock(p.d, p.eid, p.threshold, p.end, p.size, k, batch[0]);
    assert WritesEndPoints(p.d, batch, train);
    var entered := |BatchSplit.Triggers(BatchesOf(p)[..k + 1], p.size)|;
    forall i | 0 <= i < |train.ids| ensures train.ids[i] in e.roots[entered - 1] {
      assert EndPoint(p.d, batch, train.ids[i]);
      var edge :| edge in batch && edge < |p.d.src| && (p.d.src[edge] == train.ids[i] || p.d.dst[edge] == train.ids[i]);
      BatchFitsBlock(p.d, p.eid, p.threshold, p.end, p.size, k, edge);
    }
  }

  lemma EpochFits(e: Env, p: Epoch)
    requires Runs(e, p)
    ensures BatchesFit(e, BatchesOf(p), p.size, p.trains)
  {
    BothGood(e);
    AllEntered(p);
    NoBatches(p);
    hide GoodEnv, BatchSplit.Triggers, FitsAt, BatchesOf, NodePlan.RootBlocks;
    forall k | 0 <= k < |p.trains| ensures FitsAt(e, BatchesOf(p), p.size, p.trains, k) {
      BatchFits(e, p, k);
    }
  }

  lemma NoBatches(p: Epoch)
    requires Numbered(p) && forall k :: 0 <= k < |BatchesOf(p)| ==> |BatchesOf(p)[k]| > 0
    ensures |BatchesOf(p)| == 0 ==> |BatchSplit.Triggers(BatchesOf(p), p.size)| == 0
  {
    hide BatchesOf;
  }

  /** The trainer's actions of the whole epoch. */
  function EpochScript(e: Env, p: Epoch): (acts: seq<Action>)
    requires Runs(e, p)
  {
    EpochFits(e, p);
    Script(e, BatchesOf(p), p.size, p.trains, |p.trains|)
  }

  /** The splitter's batches drive the pipeline, whatever the worker does when: wherever the trainer is in the epoch, it
      can do its next action, at once or after the worker's answer; every batch writes to the block that the
      trainer is in. */
  lemma EpochGoesOn(e: Env, store: seq<Row>, p: Epoch, acts: seq<Action>, junk: seq<Row>)
    requires Runs(e, p) && |store| == |e.nodes.feats| && Run(e, store, acts).Reached?
    requires TrainerPart(acts) < EpochScript(e, p)
    ensures GoesOn(e, store, acts, EpochScript(e, p)[|TrainerPart(acts)|], junk)
  {
    hide GoodEnv, Run, GoesOn, Script, BatchesFit, BatchesOf;
    EpochFits(e, p);
    ScriptGoesOn(e, store, BatchesOf(p), p.size, p.trains, acts, junk);
  }

  /** At the end of the epoch every block has been entered, and nothing is under way. */
  lemma EpochEnds(e: Env, store: seq<Row>, p: Epoch, acts: seq<Action>)
    requires Runs(e, p) && |store| == |e.nodes.feats| && Run(e, store, acts).Reached?
    requires TrainerPart(acts) == EpochScript(e, p)
    ensures var s := Run(e, store, acts).s;
      s.t.cur == |e.roots| && s.inbox == [] && s.outbox == [] && !s.t.asked
  {
    hide GoodEnv, Run, Inv, Script, FitsAt, BatchesOf, BatchSplit.Triggers, Enabled;
    EpochFits(e, p);
    Counters(e, store, acts);
    ScriptSwitches(e, BatchesOf(p), p.size, p.trains, |p.trains|);
    assert BatchesOf(p)[..|p.trains|] == BatchesOf(p);
    NeverStuck(e, Run(e, store, acts).s);
  }

  /** So every epoch has a run that does all of it. */
  lemma {:induction false} EpochRuns(e: Env, store: seq<Row>, p: Epoch, i: nat) returns (acts: seq<Action>)
    requires Runs(e, p) && |store| == |e.nodes.feats| && i <= |EpochScript(e, p)|
    ensures Run(e, store, acts).Reached? && TrainerPart(acts) == EpochScript(e, p)[..i]
  {
    hide GoodEnv, EpochScript, Runs, Run, TrainerPart, GoesOn;
    RunsGood(e, p);
    if i == 0 {
      acts := [];
      EmptyRun(e, store);
    } else {
      var pre := EpochRuns(e, store, p, i - 1);
      PrefixNext(EpochScript(e, p), i - 1);
      EpochGoesOn(e, store, p, pre, []);
      ScriptNoWork(e, p, i - 1);
      acts := OneMore(e, store, pre, EpochScript(e, p)[i - 1]);
    }
  }

  lemma PrefixNext(s: seq<Action>, i: nat)
    requires i < |s|
    ensures |s[..i]| == i && s[..i] < s && s[..i + 1] == s[..i] + [s[i]]
  {
  }

  lemma RunsGood(e: Env, p: Epoch)
    requires Runs(e, p)
    ensures GoodEnv(e)
  {
  }

  lemma EmptyRun(e: Env, store: seq<Row>)
    requires GoodEnv(e) && |store| == |e.nodes.feats|
    ensures Run(e, store, []).Reached? && TrainerPart([]) == []
  {
    hide GoodEnv, Inv, Start;
    NoSwitches();
  }

  lemma OneMore(e: Env, store: seq<Row>, pre: seq<Action>, a: Action) returns (acts: seq<Action>)
    requires GoodEnv(e) && |store| == |e.nodes.feats| && GoesOn(e, store, pre, a, []) && !a.Work?
    ensures Run(e, store, acts).Reached? && TrainerPart(acts) == TrainerPart(pre) + [a]
  {
    hide GoodEnv, Run, TrainerPart;
    TrainerPartNext(pre, a);
    TrainerPartNext(pre, Work([]));
    TrainerPartNext(pre + [Work([])], a);
    acts := if Run(e, store, pre + [a]).Reached? then pre + [a] else pre + [Work([])] + [a];
  }

  lemma ScriptNoWork(e: Env, p: Epoch, i: nat)
    requires Runs(e, p) && i < |EpochScript(e, p)|
    ensures !EpochScript(e, p)[i].Work?
  {
    hide GoodEnv, BatchesOf, Script;
    EpochFits(e, p);
    var k, j := Locate(e, BatchesOf(p), p.size, p.trains, |p.trains|, i);
    assert FitsAt(e, BatchesOf(p), p.size, p.trains, k);
  }
}
