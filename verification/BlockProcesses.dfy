/** The two processes of the pipeline as objects: the worker (pre_fetch.py) and the trainer (feat_buffer.py) with
    their fields and the tensors they share. Their methods do in place what the steps of the state machine
    in BlockPipeline say. */
module BlockProcesses {
  import opened Tensors
  import opened BucketCache
  import opened BlockFeatures
  import opened BlockPipeline

  /** The tensors through which memory rows are handed over, with the masks of the nodes that both blocks have. */
  class SharedMemory {
    const rows: array<Row>
    const preSame: array<bool>
    const curSame: array<bool>
    var preLen: nat
    var curLen: nat

    constructor (capacity: nat, zero: Row)
      ensures Shaped() && rows.Length == capacity && fresh(rows) && fresh(preSame) && fresh(curSame)
    {
      rows := new Row[capacity](_ => zero);
      preSame := new bool[capacity](_ => false);
      curSame := new bool[capacity](_ => false);
      preLen, curLen := 0, 0;
    }

    ghost predicate Shaped()
    {
      preSame != curSame && rows.Length == preSame.Length == curSame.Length
    }

    /** The rows for `ids` are here, and the masks are those against the nodes `held` of the block before. */
    ghost predicate Holds(mem: seq<Row>, ids: seq<nat>, held: seq<nat>)
      reads this, rows, preSame, curSame
    {
      && curLen <= rows.Length && curLen <= curSame.Length && preLen <= preSame.Length
      && rows[..curLen] == mem && curSame[..curLen] == Isin(ids, held) && preSame[..preLen] == Isin(held, ids)
    }

    /** `prefetch_after` of the worker */
    method Publish(mem: seq<Row>, ids: seq<nat>, held: seq<nat>)
      requires Shaped() && |mem| == |ids| <= rows.Length && |held| <= rows.Length
      modifies this`preLen, this`curLen, rows, preSame, curSame
      ensures Holds(mem, ids, held)
    {
      var pre, cur := Isin(held, ids), Isin(ids, held);
      preLen, curLen := |held|, |ids|;
      forall i | 0 <= i < |mem| { rows[i] := mem[i]; }
      forall i | 0 <= i < |pre| { preSame[i] := pre[i]; }
      forall i | 0 <= i < |cur| { curSame[i] := cur[i]; }
    }

    /** `prefetch_after` of the trainer */
    method Collect(heldMem: seq<Row>, ghost mem: seq<Row>, ghost ids: seq<nat>, ghost held: seq<nat>)
      returns (r: seq<Row>)
      requires Shaped() && Holds(mem, ids, held)
      requires StrictlySorted(ids) && StrictlySorted(held) && |mem| == |ids| && |heldMem| == |held|
      ensures r == Carry(mem, ids, held, heldMem)
    {
      SameNodes(ids, held);
      var partMemory, pre, cur := rows[..curLen], preSame[..preLen], curSame[..curLen];
      r := Scatter(partMemory, Nonzero(cur), Gather(heldMem, Nonzero(pre)));
    }
  }

  /** All tensors that the two processes share. */
  class Shared {
    const nodes: SharedTable
    const edges: SharedTable
    const mem: SharedMemory

    constructor (n: SharedTable, e: SharedTable, m: SharedMemory)
      ensures nodes == n && edges == e && mem == m
    {
      nodes, edges, mem := n, e, m;
    }

    ghost predicate Apart()
    {
      && nodes.Shaped() && edges.Shaped() && mem.Shaped() && nodes != edges
      && nodes.ids != edges.ids && nodes.ids != edges.dInd && nodes.dInd != edges.ids && nodes.dInd != edges.dInd
      && nodes.rows != edges.rows && nodes.rows != mem.rows && edges.rows != mem.rows
    }

    function Arrays(): (r: set<object>)
    {
      {nodes.ids, nodes.rows, nodes.dInd, edges.ids, edges.rows, edges.dInd,
       mem.rows, mem.preSame, mem.curSame, nodes, edges, mem}
    }

    /** This answer, for a request with these tables, lies in the tensors. */
    ghost predicate Holds(r: Reply, heldIds: seq<nat>)
      reads Arrays()
    {
      nodes.Holds(r.nodes) && edges.Holds(r.edges) && mem.Holds(r.mem, r.nodes.ids, heldIds)
    }

    /** The tensors are long enough for it. */
    ghost predicate Fit(r: Reply, heldIds: seq<nat>)
    {
      && |r.nodes.ids| == |r.nodes.rows| <= nodes.ids.Length && |r.nodes.dInd| <= |r.nodes.ids|
      && |r.edges.ids| == |r.edges.rows| <= edges.ids.Length && |r.edges.dInd| <= |r.edges.ids|
      && |r.mem| == |r.nodes.ids| <= mem.rows.Length && |heldIds| <= mem.rows.Length
    }

    method Publish(r: Reply, heldIds: seq<nat>)
      requires Apart() && Fit(r, heldIds)
      modifies Arrays()
      ensures Holds(r, heldIds)
    {
      nodes.Publish(r.nodes);
      edges.Publish(r.edges);
      mem.Publish(r.mem, r.nodes.ids, heldIds);
    }
  }

  /** `Pre_fetch`, with node memory in a plain table. */
  class PreFetcher {
    const env: Env
    const memory: array<Row>
    const nodeCache: array<Row>
    const edgeCache: array<Row>
    const shared: Shared

    constructor (e: Env, store: array<Row>, nodeRows: array<Row>, edgeRows: array<Row>, s: Shared)
      ensures env == e && memory == store && nodeCache == nodeRows && edgeCache == edgeRows && shared == s
    {
      env, memory, nodeCache, edgeCache, shared := e, store, nodeRows, edgeRows, s;
    }

    ghost function View(): (w: Worker)
      reads memory, nodeCache, edgeCache
    {
      Worker(memory[..], nodeCache[..], edgeCache[..])
    }

    ghost predicate Apart()
    {
      && shared.Apart() && memory != nodeCache && memory != edgeCache && nodeCache != edgeCache
      && memory !in shared.Arrays() && nodeCache !in shared.Arrays() && edgeCache !in shared.Arrays()
    }

    /** The refresh of one bucket cache, if block `b` has one. */
    static method Refresh(e: Env, s: Side, b: nat, feat: array<Row>)
      requires GoodSide(s, e.starts) && 0 < b < |e.starts| && feat.Length == |s.idx[b - 1]|
      modifies feat
      ensures feat[..] == RefreshFeat(e, s, b, old(feat[..]))
    {
      RefreshFits(e, s, b);
      if Refreshes(e.starts[b], e.hasEdgeFeats) {
        var p := PlanRefresh(s.idx[b - 1], s.chosen[b]);
        IndexPut(feat, Nonzero(p.mask), Gather(s.feats, p.ids));
      }
    }

    /** `mem_update` */
    method Update(f: Flush)
      requires f.Flush? ==> |f.ids| == |f.rows| && InRange(f.ids, memory.Length)
      modifies memory
      ensures memory[..] == MemUpdate(old(memory[..]), f)
    {
      if f.Flush? {
        IndexPut(memory, f.ids, f.rows);
      }
    }

    /** What is made of one side, with the cache refreshed already. */
    static method Assemble(e: Env, s: Side, b: nat, feat: seq<Row>, neg: seq<nat>, heldIds: seq<nat>,
                           ghost before: seq<Row>)
      returns (h: Handed)
      requires SideReady(e, s, b, before, neg) && feat == RefreshFeat(e, s, b, before)
      ensures h == Prepare(e, s, b, before, neg, heldIds).1
    {
      PrepareFits(e, s, b, feat, neg, heldIds);
      var file := PlanBlock(s.feats, BlockAt(s, b));
      h := BlockFeatures.PreFetch(file, feat, neg, heldIds, e.dataIncre, s.source, e.zero);
    }

    /** `pre_fetch` */
    method PreFetch(r: Request, junk: seq<Row>)
      requires Apart() && CanWork(env, View(), r)
      requires shared.Fit(PreFetchBlock(env, View(), r, junk).1, r.nodeIds)
      modifies memory, nodeCache, edgeCache, shared.Arrays()
      ensures View() == PreFetchBlock(env, old(View()), r, junk).0
      ensures shared.Holds(PreFetchBlock(env, old(View()), r, junk).1, r.nodeIds)
    {
      ghost var was := View();
      Refresh(env, env.nodes, r.block, nodeCache);
      Refresh(env, env.edges, r.block, edgeCache);
      Update(r.flush);
      var nodes := Assemble(env, env.nodes, r.block, nodeCache[..], r.negNodes, r.nodeIds, was.nodeFeat);
      var edges := Assemble(env, env.edges, r.block, edgeCache[..], r.negEdges, r.edgeIds, was.edgeFeat);
      var base := Padded(junk, |nodes.ids|, env.zero);
      var mem := MemRows(memory[..], nodes.ids, r.nodeIds, env.dataIncre, base);
      var reply := Reply(r.block, nodes, edges, mem);
      assert reply == PreFetchBlock(env, was, r, junk).1;
      shared.Publish(reply, r.nodeIds);
    }
  }

  /** `Feat_buffer` */
  class FeatBuffer {
    const env: Env
    var curBlock: nat
    var nodes: Table
    var edges: Table
    var partMemory: seq<Row>
    var memoryInfo: Flush

    ghost function View(): (t: Trainer)
      reads this
    {
      Trainer(curBlock, nodes, edges, partMemory, memoryInfo, false)
    }

    /** The first block: load and `analyze`. */
    constructor (e: Env, store: seq<Row>)
      requires GoodEnv(e) && |store| == |e.nodes.feats|
      ensures env == e && View() == Start(e, store).t
    {
      hide GoodEnv, GoodSide, FirstOf, TableAt, CacheRows, Start;
      BothGood(e);
      FirstOk(e, e.nodes);
      FirstOk(e, e.edges);
      StartTrainer(e, store);
      env, curBlock := e, 1;
      nodes, edges := FirstOf(e.nodes), FirstOf(e.edges);
      partMemory := Gather(store, FirstOf(e.nodes).ids);
      memoryInfo := NoFlush;
    }

    /** `update_memory` */
    method UpdateMemory(ids: seq<nat>, rows: seq<Row>, ghost s: State)
      requires Inv(env, s) && s.t == View() && Enabled(env, s, Train(ids, rows))
      modifies this`partMemory
      ensures View() == AfterTrain(env, s, ids, rows).t
    {
      hide GoodEnv, TrainerOk, WorkerOk, Channels;
      TrainInTable(env, s, ids, rows);
      partMemory := Scatter(partMemory, Places(nodes.ids, ids), rows);
    }

    /** `prefetch_after` */
    method PrefetchAfter(shared: Shared, ghost r: Reply)
      requires CanSwitch(env, View(), r) && shared.Apart() && shared.Holds(r, nodes.ids)
      modifies this
      ensures View() == Entered(env, old(View()), r, old(memoryInfo))
    {
      hide StrictlySorted, Overlay, Carry;
      var held := nodes.ids;
      edges := shared.edges.Collect(edges, r.edges);
      nodes := shared.nodes.Collect(nodes, r.nodes);
      partMemory := shared.mem.Collect(partMemory, r.mem, r.nodes.ids, held);
      curBlock := curBlock + 1;
    }

    /** `run_batch` at a block switch: the memory to be sent is picked, the answer is taken over, and the request for
        the block after is sent, or its memory kept for later. */
    method RunBatch(shared: Shared, ghost s: State) returns (sent: seq<Request>)
      requires Inv(env, s) && s.t.(asked := false) == View() && Enabled(env, s, Switch)
      requires shared.Apart() && shared.Holds(s.outbox[0], nodes.ids)
      modifies this
      ensures View() == AfterSwitch(env, s).t && sent == AfterSwitch(env, s).inbox
      ensures s.sent + sent == AfterSwitch(env, s).sent
    {
      hide GoodEnv, TrainerOk, Channels, WorkerOk, CanSwitch, Entered, InfoAt;
      Bounds(env, s);
      ReplyCanSwitch(env, s);
      InfoIs(env, s.t, s.ref);
      var info := MemoryInfo(env, curBlock, nodes.ids, partMemory);
      EnteredFacts(env, s.t, s.outbox[0], memoryInfo);
      PrefetchAfter(shared, s.outbox[0]);
      sent := [];
      if curBlock < |env.roots| {
        if env.useAsync {
          sent := [Ask(env, curBlock, info, nodes.ids, edges.ids)];
        } else {
          memoryInfo := info;
        }
      }
    }
  }

  lemma StartTrainer(e: Env, store: seq<Row>)
    requires GoodEnv(e) && |store| == |e.nodes.feats|
    requires |e.nodes.pos| == |e.nodes.neg| > 0 && |e.edges.pos| == |e.edges.neg| > 0
    requires InRange(e.nodes.pos[0], |e.nodes.feats|) && InRange(e.nodes.neg[0], |e.nodes.feats|)
    requires InRange(e.edges.pos[0], |e.edges.feats|) && InRange(e.edges.neg[0], |e.edges.feats|)
    requires InRange(FirstOf(e.nodes).ids, |store|)
    ensures Start(e, store).t
      == Trainer(1, FirstOf(e.nodes), FirstOf(e.edges), Gather(store, FirstOf(e.nodes).ids), NoFlush, false)
  {
    hide GoodEnv, FirstOf;
  }

  lemma InfoIs(e: Env, t: Trainer, ref: seq<Row>)
    requires GoodEnv(e) && TrainerOk(e, t, ref) && t.cur < |e.roots|
    ensures |t.nodes.ids| == |t.mem| && (|FlushIds(e, t.cur)| > 0 ==> |t.mem| > 0)
    ensures InfoAt(e, t, ref) == MemoryInfo(e, t.cur, t.nodes.ids, t.mem)
  {
    hide GoodEnv, FlushIds, TableAt;
    FlushInTable(e, t, ref);
  }

  lemma EnteredFacts(e: Env, t: Trainer, r: Reply, saved: Flush)
    requires CanSwitch(e, t, r)
    ensures var t' := Entered(e, t, r, saved); t'.cur == t.cur + 1 && t'.saved == saved && !t'.asked
    ensures CanSwitch(e, t.(asked := false), r) && Entered(e, t.(asked := false), r, saved) == Entered(e, t, r, saved)
    ensures forall info :: Entered(e, t, r, saved).(saved := info) == Entered(e, t, r, info)
  {
    hide Overlay, Carry;
  }
}
