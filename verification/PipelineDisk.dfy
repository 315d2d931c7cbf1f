/** The pipeline with node memory on disk: the worker keeps the planned cache of NodeCache instead of a plain
    table. It sees the same requests, and hands over the same rows. */
module PipelineDisk {
  import opened Common
  import opened Tensors
  import opened BlockPipeline
  import opened PipelineRuns
  import NodePlan
  import NodeCache

  /** The nodes sent when block `c + 1` is entered are those that the offline plan of the memory cache has as sent
      by block `c`; the worker writes them while it prepares block `c + 2`. */
  lemma FlushIsPlanned(e: Env, c: nat)
    requires GoodEnv(e) && c + 1 < |e.roots|
    ensures NodePlan.AllSorted(e.roots) && FlushIds(e, c + 1) == NodePlan.SentBlocks(e.roots)[c]
  {
    RootsSorted(e);
    FlushInRange(e, c + 1);
    NodePlan.SentBlockMembers(e.roots, c);
    assert NodePlan.AllSorted(NodePlan.SentBlocks(e.roots));
    hide GoodEnv;
    SortedUnique(FlushIds(e, c + 1), NodePlan.SentBlocks(e.roots)[c]);
  }

  lemma RootsSorted(e: Env)
    requires GoodEnv(e)
    ensures NodePlan.AllSorted(e.roots)
  {
    forall i: nat | i < |e.roots| ensures StrictlySorted(e.roots[i]) {
      RootsAt(e, i);
    }
  }

  /** A memory plan made for this epoch, with its files. */
  ghost predicate PlannedFor(e: Env, m: NodeCache.Setup) {
    && GoodEnv(e) && NodePlan.AllSorted(e.roots) && m.blocks == NodePlan.SentBlocks(e.roots)
    && m.nodeNum == |e.nodes.feats|
    && NodeCache.GoodSetup(m) && NodePlan.FilesOf(m.files, m.blocks, m.ivs)
  }

  /** The update that comes with a request for block `b` uses the plan of block `b - 2`. None of its indices is out
      of range. */
  ghost predicate DiskReady(m: NodeCache.Setup, d: NodeCache.Store, r: Request) {
    r.flush.Flush? ==>
      && 2 <= r.block && NodeCache.HasPlan(m.files, r.block - 2) && |r.flush.rows| == |r.flush.ids|
      && NodeCache.Ready(m, d, NodeCache.PlanSlice(m.files, r.block - 2), r.flush.ids)
  }

  /** `mem_update` on disk, with what the request brings. */
  function DiskUpdate(m: NodeCache.Setup, d: NodeCache.Store, r: Request): (d': NodeCache.Store)
    requires DiskReady(m, d, r)
  {
    match r.flush
    case NoFlush => d
    case Flush(ids, rows) => NodeCache.AfterMemUpdate(m, d, NodeCache.PlanSlice(m.files, r.block - 2), ids, rows)
  }

  /** What `mem_select` reads for the next block, from slots and from disk: all rows, or with incremental data those
      of the nodes that the trainer does not have, written over `base`. */
  function DiskMem(m: NodeCache.Setup, d: NodeCache.Store, ids: seq<nat>, held: seq<nat>, dataIncre: bool,
                   base: seq<Row>): (rows: seq<Row>)
    requires NodeCache.Readable(m, d, ids) && |base| == |ids|
    ensures |rows| == |ids|
  {
    if !dataIncre then NodeCache.SelectedRows(m, d, ids)
    else
      var mask := Not(Isin(ids, held));
      SelectInRange(ids, mask, m.nodeNum);
      Scatter(base, Nonzero(mask), NodeCache.SelectedRows(m, d, Select(ids, mask)))
  }

  /** The worker's memory on disk after a run, each request handled in turn. */
  ghost function DiskAfter(e: Env, store: seq<Row>, acts: seq<Action>, m: NodeCache.Setup, d0: NodeCache.Store)
    : (d: NodeCache.Store)
    requires GoodEnv(e) && |store| == |e.nodes.feats|
  {
    if |acts| == 0 then d0
    else
      var pre := acts[..|acts| - 1];
      var d := DiskAfter(e, store, pre, m, d0);
      match Run(e, store, pre)
      case Stuck => d
      case Reached(s) =>
        if acts[|acts| - 1].Work? && |s.inbox| == 1 && DiskReady(m, d, s.inbox[0])
        then DiskUpdate(m, d, s.inbox[0]) else d
  }

  /** How many updates the worker has made: none with the request for block 1, and one with each later one. */
  function Updates(s: State): (n: nat)
  {
    if s.t.cur + |s.outbox| < 2 then 0 else s.t.cur + |s.outbox| - 2
  }

  /** The plain table of the pipeline is what the memory on disk stands for. */
  ghost predicate Stands(m: NodeCache.Setup, d: NodeCache.Store, s: State) {
    NodeCache.Kept(m, d, s.w.store, Updates(s))
  }

  /** One request: the update does not fail, and both worlds stay together. */
  lemma WorkStands(e: Env, s: State, junk: seq<Row>, m: NodeCache.Setup, d: NodeCache.Store)
    requires PlannedFor(e, m) && Inv(e, s) && Enabled(e, s, Work(junk)) && Stands(m, d, s) && |s.inbox| == 1
    ensures DiskReady(m, d, s.inbox[0]) && Stands(m, DiskUpdate(m, d, s.inbox[0]), After(e, s, Work(junk)))
  {
    hide GoodEnv, Inv, After, MemUpdate, Due, DueFlush, DiskReady, DiskUpdate, PlannedFor, NodeCache.Kept;
    InboxDue(e, s);
    WorkMoves(e, s, junk);
    FirstDue(e, s.t.cur, s.ref, s.w.store);
    if s.t.cur >= 2 {
      FlushStands(e, m, d, s.w.store, s.ref, s.t.cur);
    } else {
      NoUpdate(m, d, s.inbox[0]);
    }
  }

  lemma FirstDue(e: Env, c: nat, ref: seq<Row>, store: seq<Row>)
    requires GoodEnv(e) && 0 < c < |e.roots| && |ref| == |e.nodes.feats| == |store|
    ensures Due(e, c, ref).block == c && Due(e, c, ref).flush == DueFlush(e, c - 1, ref)
    ensures c == 1 ==> DueFlush(e, 0, ref) == NoFlush && MemUpdate(store, NoFlush) == store
  {
  }

  lemma NoUpdate(m: NodeCache.Setup, d: NodeCache.Store, r: Request)
    requires r.flush == NoFlush
    ensures DiskReady(m, d, r) && DiskUpdate(m, d, r) == d
  {
  }

  lemma FlushStands(e: Env, m: NodeCache.Setup, d: NodeCache.Store, store: seq<Row>, ref: seq<Row>, b: nat)
    requires PlannedFor(e, m) && 2 <= b < |e.roots| && |ref| == |e.nodes.feats| == |store|
    requires NodeCache.Kept(m, d, store, b - 2)
    ensures var r := Due(e, b, ref);
      DiskReady(m, d, r) && NodeCache.Kept(m, DiskUpdate(m, d, r), MemUpdate(store, r.flush), b - 1)
  {
    hide GoodEnv, PlannedFor, NodeCache.Kept, NodeCache.AfterMemUpdate, NodeCache.Ready, NodeCache.HasPlan, FlushIds,
         Scatter, NodeCache.PlanSlice;
    PlannedGood(e, m);
    PlannedAt(e, m, b - 2);
    FlushInRange(e, b - 1);
    var ids := FlushIds(e, b - 1);
    NodeCache.UpdateKept(m, d, store, b - 2, Gather(ref, ids));
    assert Due(e, b, ref).flush == Flush(ids, Gather(ref, ids)) && Due(e, b, ref).block == b;
  }

  lemma PlannedAt(e: Env, m: NodeCache.Setup, c: nat)
    requires PlannedFor(e, m) && c + 1 < |e.roots|
    ensures c < |m.blocks| && m.blocks[c] == FlushIds(e, c + 1)
  {
    FlushIsPlanned(e, c);
    hide GoodEnv, FlushIds;
  }

  /** In every run, the plain table of the pipeline is what the memory on disk stands for, and no update fails. */
  lemma {:induction false} DiskRun(e: Env, store: seq<Row>, acts: seq<Action>, m: NodeCache.Setup, d0: NodeCache.Store)
    requires PlannedFor(e, m) && NodeCache.Fresh(m, d0) && store == seq(m.nodeNum, v => m.zero)
    requires Run(e, store, acts).Reached?
    ensures Stands(m, DiskAfter(e, store, acts, m, d0), Run(e, store, acts).s)
  {
    hide GoodEnv, Inv, Run, After, Enabled, Start, NodeCache.Kept, DiskUpdate, DiskReady, NodePlan.FilesOf,
         NodeCache.GoodSetup, NodePlan.AllSorted, NodeCache.Fresh;
    RunStep(e, store, acts);
    if |acts| == 0 {
      StartFacts(e, store);
      NodeCache.FreshKept(m, d0);
    } else {
      var pre := acts[..|acts| - 1];
      DiskRun(e, store, pre, m, d0);
      StandsStep(e, Run(e, store, pre).s, acts[|acts| - 1], m, DiskAfter(e, store, pre, m, d0));
    }
  }

  lemma StandsStep(e: Env, s: State, a: Action, m: NodeCache.Setup, d: NodeCache.Store)
    requires PlannedFor(e, m) && Inv(e, s) && Enabled(e, s, a) && Stands(m, d, s)
    ensures a.Work? ==> |s.inbox| == 1 && DiskReady(m, d, s.inbox[0])
    ensures Stands(m, if a.Work? then DiskUpdate(m, d, s.inbox[0]) else d, After(e, s, a))
  {
    hide GoodEnv, Inv, After, NodeCache.Kept, DiskUpdate, DiskReady, Due, PlannedFor;
    match a
    case Train(ids, rows) => TrainMoves(e, s, ids, rows);
    case Call =>
      CallMoves(e, s);
    case Work(junk) =>
      assert |s.inbox| == 1;
      WorkStands(e, s, junk, m, d);
    case Switch => SwitchMoves(e, s);
  }

  /** The memory rows of the answer `r` to `q` are those that `mem_select` reads from slots and disk. */
  ghost predicate HandsSame(e: Env, m: NodeCache.Setup, d: NodeCache.Store, q: Request, r: Reply, junk: seq<Row>) {
    && NodeCache.Readable(m, d, r.nodes.ids)
    && r.mem == DiskMem(m, d, r.nodes.ids, q.nodeIds, e.dataIncre, Padded(junk, |r.nodes.ids|, e.zero))
  }

  /** And the worker hands over the same memory: what it reads from slots and disk after its update is what the
      pipeline's answer has. */
  lemma DiskHandsOver(e: Env, store: seq<Row>, acts: seq<Action>, m: NodeCache.Setup, d0: NodeCache.Store,
                      junk: seq<Row>)
    requires PlannedFor(e, m) && NodeCache.Fresh(m, d0) && store == seq(m.nodeNum, v => m.zero)
    requires Run(e, store, acts).Reached? && |Run(e, store, acts).s.inbox| == 1
    ensures var s, d := Run(e, store, acts).s, DiskAfter(e, store, acts, m, d0);
      && CanWork(e, s.w, s.inbox[0]) && DiskReady(m, d, s.inbox[0])
      && HandsSame(e, m, DiskUpdate(m, d, s.inbox[0]), s.inbox[0], PreFetchBlock(e, s.w, s.inbox[0], junk).1, junk)
  {
    hide GoodEnv, Run, DiskAfter, NodeCache.Kept, DiskUpdate, DiskReady, Due, NodeCache.Readable, Inv;
    DiskRun(e, store, acts, m, d0);
    var s, d := Run(e, store, acts).s, DiskAfter(e, store, acts, m, d0);
    DueCanWork(e, s);
    WorkStands(e, s, junk, m, d);
    PlannedGood(e, m);
    AfterWorkStore(e, s, junk);
    HandsOver(e, s.w, s.inbox[0], m, DiskUpdate(m, d, s.inbox[0]), Updates(After(e, s, Work(junk))), junk);
  }

  lemma HandsOver(e: Env, w: Worker, q: Request, m: NodeCache.Setup, d: NodeCache.Store, b: nat, junk: seq<Row>)
    requires CanWork(e, w, q) && m.nodeNum == |e.nodes.feats|
    requires NodeCache.Kept(m, d, PreFetchBlock(e, w, q, junk).0.store, b)
    ensures HandsSame(e, m, d, q, PreFetchBlock(e, w, q, junk).1, junk)
  {
    hide NodeCache.Kept, NodeCache.Readable, Prepare, MemRows, DiskMem, MemUpdate, CanWork, SideReady;
    var (w', r) := PreFetchBlock(e, w, q, junk);
    SameMem(m, d, w'.store, b, r.nodes.ids, q.nodeIds, e.dataIncre, Padded(junk, |r.nodes.ids|, e.zero));
  }

  lemma PlannedGood(e: Env, m: NodeCache.Setup)
    requires PlannedFor(e, m)
    ensures GoodEnv(e) && m.nodeNum == |e.nodes.feats|
  {
  }

  lemma AfterWorkStore(e: Env, s: State, junk: seq<Row>)
    requires Inv(e, s) && |s.inbox| == 1
    ensures CanWork(e, s.w, s.inbox[0])
    ensures After(e, s, Work(junk)).w == PreFetchBlock(e, s.w, s.inbox[0], junk).0
  {
    hide Inv, PreFetchBlock, CanWork;
    DueCanWork(e, s);
  }

  lemma SameMem(m: NodeCache.Setup, d: NodeCache.Store, store: seq<Row>, b: nat, ids: seq<nat>, held: seq<nat>,
                dataIncre: bool, base: seq<Row>)
    requires NodeCache.Kept(m, d, store, b) && InRange(ids, m.nodeNum) && |base| == |ids|
    ensures |store| == m.nodeNum && NodeCache.Readable(m, d, ids)
    ensures MemRows(store, ids, held, dataIncre, base) == DiskMem(m, d, ids, held, dataIncre, base)
  {
    hide NodeCache.Kept, NodeCache.Readable, NodeCache.SelectedRows, Scatter, Nonzero, Select;
    NodeCache.KeptReads(m, d, store, b, ids);
    if dataIncre {
      var mask := Not(Isin(ids, held));
      SelectInRange(ids, mask, m.nodeNum);
      NodeCache.KeptReads(m, d, store, b, Select(ids, mask));
    }
  }
}
