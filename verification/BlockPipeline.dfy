/** The block pipeline: while the trainer (feat_buffer.py, `run_batch`) runs the batches of one block, a worker
    process (pre_fetch.py, `pre_fetch`, `run`) prepares the next. The trainer holds features and memory of the
    nodes that the current block needs. Node memory that the next block does not need is sent to the
    worker's store, one block late; the rest is carried over on the device. */
module BlockPipeline {
  import opened Tensors
  import opened BucketCache
  import opened BlockFeatures

  // ------------------------------------------------------------------------- memory between blocks

  /** The rows that the worker reads from its store for the next block: all of them, or with incremental data
      those of the nodes that the trainer does not have, written over whatever `torch.empty` holds. */
  function MemRows(store: seq<Row>, ids: seq<nat>, held: seq<nat>, dataIncre: bool, junk: seq<Row>): (rows: seq<Row>)
    requires InRange(ids, |store|) && |junk| == |ids|
    ensures |rows| == |ids|
  {
    if !dataIncre then Gather(store, ids)
    else
      var mask := Not(Isin(ids, held));
      SelectInRange(ids, mask, |store|);
      Scatter(junk, Nonzero(mask), Gather(store, Select(ids, mask)))
  }

  lemma MemRowsRight(store: seq<Row>, ids: seq<nat>, held: seq<nat>, dataIncre: bool, junk: seq<Row>, i: nat)
    requires InRange(ids, |store|) && |junk| == |ids| && i < |ids| && ids[i] !in held
    ensures MemRows(store, ids, held, dataIncre, junk)[i] == store[ids[i]]
  {
    ScatterSelect(store, junk, ids, Not(Isin(ids, held)), i);
  }

  /** With incremental data the rows of nodes that the trainer has are not read. */
  lemma MemRowsLeft(store: seq<Row>, ids: seq<nat>, held: seq<nat>, junk: seq<Row>, i: nat)
    requires InRange(ids, |store|) && |junk| == |ids| && i < |ids| && ids[i] in held
    ensures MemRows(store, ids, held, true, junk)[i] == junk[i]
  {
    ScatterSelect(store, junk, ids, Not(Isin(ids, held)), i);
  }

  /** The nodes that both blocks have stand in the same order in both. */
  lemma SameNodes(ids: seq<nat>, held: seq<nat>)
    requires StrictlySorted(ids) && StrictlySorted(held)
    ensures Select(ids, Isin(ids, held)) == Select(held, Isin(held, ids))
    ensures |Nonzero(Isin(ids, held))| == |Nonzero(Isin(held, ids))|
  {
    var a, b := Select(ids, Isin(ids, held)), Select(held, Isin(held, ids));
    SelectSorted(ids, Isin(ids, held));
    SelectSorted(held, Isin(held, ids));
    BothMembers(ids, held);
    BothMembers(held, ids);
    SortedUnique(a, b);
  }

  lemma BothMembers(ids: seq<nat>, held: seq<nat>)
    ensures forall x :: x in Select(ids, Isin(ids, held)) <==> x in ids && x in held
  {
    SelectMembers(ids, Isin(ids, held));
    forall x | x in ids && x in held ensures x in Select(ids, Isin(ids, held)) {
      var i :| 0 <= i < |ids| && ids[i] == x;
      assert Isin(ids, held)[i];
    }
  }

  /** `part_memory[cur_same_node] = self.part_memory[pre_same_nodes]` */
  function Carry(mem: seq<Row>, ids: seq<nat>, held: seq<nat>, heldMem: seq<Row>): (r: seq<Row>)
    requires StrictlySorted(ids) && StrictlySorted(held) && |mem| == |ids| && |heldMem| == |held|
    ensures |r| == |ids|
  {
    SameNodes(ids, held);
    Scatter(mem, Nonzero(Isin(ids, held)), Gather(heldMem, Nonzero(Isin(held, ids))))
  }

  /** Rows of nodes that the trainer had come from the trainer, the others are as they were. */
  lemma CarryRight(ref: seq<Row>, mem: seq<Row>, ids: seq<nat>, held: seq<nat>, heldMem: seq<Row>)
    requires StrictlySorted(ids) && StrictlySorted(held) && |mem| == |ids|
    requires InRange(ids, |ref|) && InRange(held, |ref|)
    requires heldMem == Gather(ref, held)
    requires forall i :: 0 <= i < |ids| && ids[i] !in held ==> mem[i] == ref[ids[i]]
    ensures Carry(mem, ids, held, heldMem) == Gather(ref, ids)
  {
    SameNodes(ids, held);
    CarriedRows(ref, ids, held);
    hide Scatter, Nonzero, Select, StrictlySorted;
    forall i | 0 <= i < |ids| ensures Carry(mem, ids, held, heldMem)[i] == ref[ids[i]] {
      ScatterSelect(ref, mem, ids, Isin(ids, held), i);
    }
  }

  lemma CarriedRows(ref: seq<Row>, ids: seq<nat>, held: seq<nat>)
    requires InRange(ids, |ref|) && InRange(held, |ref|)
    requires Select(ids, Isin(ids, held)) == Select(held, Isin(held, ids))
    ensures InRange(Select(ids, Isin(ids, held)), |ref|)
    ensures Gather(Gather(ref, held), Nonzero(Isin(held, ids))) == Gather(ref, Select(ids, Isin(ids, held)))
  {
    SelectInRange(ids, Isin(ids, held), |ref|);
  }

  /** Where these nodes stand in the trainer's table. */
  function Places(table: seq<nat>, ids: seq<nat>): (places: seq<nat>)
    requires forall k :: 0 <= k < |ids| ==> ids[k] in table
    ensures |places| == |ids| && InRange(places, |table|)
    ensures forall k :: 0 <= k < |ids| ==> table[places[k]] == ids[k]
  {
    seq(|ids|, k requires 0 <= k < |ids| => IndexOf(table, ids[k]))
  }

  /** `update_memory`: writing through the table is writing to the nodes. */
  lemma {:induction false} UpdateRight(ref: seq<Row>, table: seq<nat>, ids: seq<nat>, rows: seq<Row>)
    requires StrictlySorted(table) && InRange(table, |ref|) && |rows| == |ids|
    requires forall k :: 0 <= k < |ids| ==> ids[k] in table
    ensures InRange(ids, |ref|)
    ensures Scatter(Gather(ref, table), Places(table, ids), rows) == Gather(Scatter(ref, ids, rows), table)
  {
    hide Distinct, StrictlySorted, Gather;
    if |ids| > 0 {
      var n := |ids| - 1;
      UpdateRight(ref, table, ids[..n], rows[..n]);
      assert Places(table, ids)[..n] == Places(table, ids[..n]);
      UpdateOne(Scatter(ref, ids[..n], rows[..n]), table, ids[n], rows[n], Places(table, ids)[n]);
    }
  }

  lemma UpdateOne(ref: seq<Row>, table: seq<nat>, x: nat, row: Row, p: nat)
    requires StrictlySorted(table) && InRange(table, |ref|) && p < |table| && table[p] == x
    ensures Gather(ref, table)[p := row] == Gather(ref[x := row], table)
  {
    assert forall i :: 0 <= i < |table| && i != p ==> table[i] != x;
  }

  /** `get_mails`: the rows of nodes that the table has. */
  function GetMails(table: seq<nat>, mem: seq<Row>, ids: seq<nat>): (rows: seq<Row>)
    requires |table| == |mem| && (|ids| > 0 ==> |mem| > 0)
    ensures |rows| == |ids|
  {
    seq(|ids|, k requires 0 <= k < |ids| => PyAt(mem, IndexOf(table, ids[k])))
  }

  /** A node that the table does not have gets the last row. */
  lemma MissingMail(table: seq<nat>, mem: seq<Row>, ids: seq<nat>, k: nat)
    requires |table| == |mem| > 0 && k < |ids| && ids[k] !in table
    ensures GetMails(table, mem, ids)[k] == mem[|mem| - 1]
  {
  }

  lemma MailsRight(ref: seq<Row>, table: seq<nat>, ids: seq<nat>)
    requires InRange(table, |ref|) && forall x :: x in ids ==> x in table
    ensures InRange(ids, |ref|) && (|ids| > 0 ==> |table| > 0)
    ensures GetMails(table, Gather(ref, table), ids) == Gather(ref, ids)
  {
    assert |ids| > 0 ==> ids[0] in ids;
    forall k | 0 <= k < |ids| ensures ids[k] in table && ids[k] < |ref| {
      assert ids[k] in ids;
    }
  }

  // --------------------------------------------------------------------------------- what is fixed

  /** One kind of features, for nodes or for edges: the ids that each block needs, those of its negative
      samples, the cache index that its file was made for, and the ids chosen where a segment starts. */
  datatype Side = Side(feats: seq<Row>, pos: seq<seq<nat>>, neg: seq<seq<nat>>, idx: seq<seq<nat>>,
                       chosen: seq<seq<nat>>, source: Source)

  ghost predicate SortedIn(ids: seq<nat>, n: nat) {
    StrictlySorted(ids) && InRange(ids, n)
  }

  /** The index of block `b` is planned anew where a segment starts, and else that of the block before. */
  ghost predicate IndexStep(s: Side, starts: seq<bool>, b: nat)
    requires 0 < b < |s.idx| && |s.idx| == |s.chosen| == |starts|
  {
    if starts[b] then
      && Distinct(s.idx[b - 1]) && Distinct(s.chosen[b]) && |s.chosen[b]| == |s.idx[b - 1]|
      && InRange(s.chosen[b], |s.feats|) && s.idx[b] == PlanRefresh(s.idx[b - 1], s.chosen[b]).idx
    else s.idx[b] == s.idx[b - 1]
  }

  ghost predicate GoodSide(s: Side, starts: seq<bool>) {
    && |s.pos| == |s.neg| == |s.idx| == |s.chosen| == |starts| > 0
    && (forall b :: 0 <= b < |starts| ==> SortedIn(s.pos[b], |s.feats|) && SortedIn(s.neg[b], |s.feats|))
    && (forall b :: 0 < b < |starts| ==> IndexStep(s, starts, b))
    && Distinct(s.idx[0]) && InRange(s.idx[0], |s.feats|)
    && Serves(s.source, s.feats)
  }

  /** An epoch: its blocks' roots, the end points of their edges, both kinds of features, and which blocks start a
      segment of the plan. */
  datatype Env = Env(roots: seq<seq<nat>>, nodes: Side, edges: Side, starts: seq<bool>, hasEdgeFeats: bool,
                     zero: Row, dataIncre: bool, useAsync: bool)

  /** The roots of a block are among the nodes that it needs. */
  ghost predicate GoodEnv(e: Env) {
    && |e.roots| == |e.starts| && GoodSide(e.nodes, e.starts) && GoodSide(e.edges, e.starts)
    && (!e.hasEdgeFeats ==> e.edges.feats == [])
    && (forall b :: 0 <= b < |e.roots| ==> StrictlySorted(e.roots[b]))
    && forall b, v :: 0 <= b < |e.roots| && v in e.roots[b] ==> v in e.nodes.pos[b]
  }

  lemma BothGood(e: Env)
    requires GoodEnv(e)
    ensures |e.roots| == |e.starts| > 0 && GoodSide(e.nodes, e.starts) && GoodSide(e.edges, e.starts)
    ensures |e.nodes.pos| == |e.nodes.neg| == |e.nodes.idx| == |e.roots|
    ensures |e.edges.pos| == |e.edges.neg| == |e.edges.idx| == |e.roots|
    ensures !e.hasEdgeFeats ==> e.edges.feats == []
  {
  }

  lemma SideAt(s: Side, starts: seq<bool>, b: nat)
    requires GoodSide(s, starts) && b < |starts|
    ensures |s.pos| == |s.neg| == |s.idx| == |s.chosen| == |starts|
    ensures SortedIn(s.pos[b], |s.feats|) && SortedIn(s.neg[b], |s.feats|) && Serves(s.source, s.feats)
    ensures b > 0 ==> IndexStep(s, starts, b)
  {
  }

  lemma RootsAt(e: Env, b: nat)
    requires GoodEnv(e) && b < |e.roots|
    ensures StrictlySorted(e.roots[b]) && InRange(e.roots[b], |e.nodes.feats|)
    ensures |e.nodes.pos| == |e.roots| && forall v :: v in e.roots[b] ==> v in e.nodes.pos[b]
  {
    forall k | 0 <= k < |e.roots[b]| ensures e.roots[b][k] < |e.nodes.feats| {
      assert e.roots[b][k] in e.nodes.pos[b];
    }
  }

  /** Every index names as many ids as the first, each once. */
  lemma {:induction false} IndexGood(s: Side, starts: seq<bool>, b: nat)
    requires GoodSide(s, starts) && b < |starts|
    ensures |s.idx| == |starts| && Distinct(s.idx[b]) && InRange(s.idx[b], |s.feats|) && |s.idx[b]| == |s.idx[0]|
  {
    SideAt(s, starts, b);
    if b > 0 {
      IndexGood(s, starts, b - 1);
      hide GoodSide;
      if starts[b] {
        RefreshedIndex(s.idx[b - 1], s.chosen[b], |s.feats|);
      }
    }
  }

  lemma RefreshedIndex(pre: seq<nat>, cur: seq<nat>, n: nat)
    requires Distinct(pre) && Distinct(cur) && |pre| == |cur| && InRange(cur, n)
    ensures var idx := PlanRefresh(pre, cur).idx; Distinct(idx) && InRange(idx, n) && |idx| == |pre|
  {
    RefreshIsNew(pre, cur);
    BucketCache.IdsInRange(PlanRefresh(pre, cur).idx, cur, n);
  }

  // --------------------------------------------------------------------- what each block shows

  /** The rows in the cache while block `b` is prepared: those of its index, or, without edge features, those of
      the first index still. */
  function CacheRows(e: Env, s: Side, b: nat): (rows: seq<Row>)
    requires GoodSide(s, e.starts) && b < |e.starts|
    ensures |s.idx| == |e.starts| && |rows| == |s.idx[b]|
  {
    IndexGood(s, e.starts, b);
    Gather(s.feats, if e.hasEdgeFeats then s.idx[b] else s.idx[0])
  }

  /** The ids that block `b` needs. */
  function Needed(s: Side, b: nat): (ids: seq<nat>)
    requires b < |s.pos| == |s.neg|
    ensures StrictlySorted(ids) && forall x :: x in ids <==> x in s.pos[b] || x in s.neg[b]
  {
    Unique(s.pos[b] + s.neg[b])
  }

  function BlockAt(s: Side, b: nat): (r: Block)
    requires 0 < b < |s.pos| && |s.pos| == |s.neg| == |s.idx|
  {
    Block(s.pos[b], s.pos[b - 1], s.idx[b], s.neg[b])
  }

  /** The rows that the device shows in block `b`. */
  function Seen(e: Env, s: Side, b: nat): (rows: seq<Row>)
    requires GoodSide(s, e.starts) && b < |e.starts|
    ensures |rows| == |s.feats|
  {
    if b == 0 then s.feats
    else Shown(s.feats, Seen(e, s, b - 1), CacheRows(e, s, b), BlockAt(s, b), Needed(s, b - 1), e.dataIncre)
  }

  /** The table of block `b`: exactly the ids that it needs, with the rows that are shown. */
  function TableAt(e: Env, s: Side, b: nat): (t: Table)
    requires GoodSide(s, e.starts) && b < |e.starts|
    ensures Right(Seen(e, s, b), t) && t.ids == Needed(s, b) && |t.rows| == |t.ids| && InRange(t.ids, |s.feats|)
  {
    NeededInRange(s, e.starts, b);
    Table(Needed(s, b), Gather(Seen(e, s, b), Needed(s, b)))
  }

  lemma NeededInRange(s: Side, starts: seq<bool>, b: nat)
    requires GoodSide(s, starts) && b < |starts|
    ensures InRange(Needed(s, b), |s.feats|)
  {
    SideAt(s, starts, b);
    hide GoodSide, Needed;
    forall k | 0 <= k < |Needed(s, b)| ensures Needed(s, b)[k] < |s.feats| {
      MemberInRange(s.pos[b], s.neg[b], Needed(s, b)[k], |s.feats|);
    }
  }

  lemma MemberInRange(a: seq<nat>, b: seq<nat>, x: nat, n: nat)
    requires InRange(a, n) && InRange(b, n) && (x in a || x in b)
    ensures x < n
  {
  }

  lemma TableIs(e: Env, s: Side, b: nat, t: Table)
    requires GoodSide(s, e.starts) && b < |e.starts| && Right(Seen(e, s, b), t)
    requires forall x :: x in t.ids <==> x in s.pos[b] || x in s.neg[b]
    ensures t == TableAt(e, s, b)
  {
    SideAt(s, e.starts, b);
    hide Seen, GoodSide, Needed;
    SortedUnique(t.ids, Needed(s, b));
  }

  // ------------------------------------------------------------------------------------- the state

  /** What comes with a request about memory: nothing, or rows for the worker's store. */
  datatype Flush = NoFlush | Flush(ids: seq<nat>, rows: seq<Row>)

  /** The arguments of `pre_fetch`. */
  datatype Request = Request(block: nat, flush: Flush, negNodes: seq<nat>, negEdges: seq<nat>,
                             nodeIds: seq<nat>, edgeIds: seq<nat>)

  /** What the worker leaves in the shared tensors; the answer itself is empty. */
  datatype Reply = Reply(block: nat, nodes: Handed, edges: Handed, mem: seq<Row>)

  /** The trainer: `cur` blocks have been entered. With synchronous prefetching, `saved` waits for the next
      block switch, and `asked` says that the trainer is blocked in one. */
  datatype Trainer = Trainer(cur: nat, nodes: Table, edges: Table, mem: seq<Row>, saved: Flush, asked: bool)

  datatype Worker = Worker(store: seq<Row>, nodeFeat: seq<Row>, edgeFeat: seq<Row>)

  /** Both processes, the two channels between them, and the table of the rows that were last written. `sent` logs
      all requests, and `refs` what that table was when each block was entered. */
  datatype State = State(t: Trainer, w: Worker, inbox: seq<Request>, outbox: seq<Reply>, ref: seq<Row>,
                         sent: seq<Request>, refs: seq<seq<Row>>)

  /** The nodes whose memory is sent when block `c` is entered: roots of the block before that are not roots of
      this one. */
  function FlushIds(e: Env, c: nat): (ids: seq<nat>)
    requires GoodEnv(e) && c < |e.roots|
  {
    if c == 0 then [] else Minus(e.roots[c - 1], e.roots[c])
  }

  lemma FlushInRange(e: Env, c: nat)
    requires GoodEnv(e) && c < |e.roots|
    ensures InRange(FlushIds(e, c), |e.nodes.feats|)
    ensures forall v :: v in FlushIds(e, c) <==> 0 < c && v in e.roots[c - 1] && v !in e.roots[c]
  {
    if c > 0 {
      RootsAt(e, c - 1);
      RootsAt(e, c);
      hide GoodEnv;
      BucketCache.IdsInRange(FlushIds(e, c), e.roots[c - 1], |e.nodes.feats|);
    }
  }

  /** `memory_info` at the switch to block `c`. */
  function MemoryInfo(e: Env, c: nat, table: seq<nat>, mem: seq<Row>): (f: Flush)
    requires GoodEnv(e) && c < |e.roots| && |table| == |mem| && (|FlushIds(e, c)| > 0 ==> |mem| > 0)
  {
    if c == 0 then NoFlush else Flush(FlushIds(e, c), GetMails(table, mem, FlushIds(e, c)))
  }

  /** The request for block `b`, with these tables on the device. */
  function Ask(e: Env, b: nat, flush: Flush, nodeIds: seq<nat>, edgeIds: seq<nat>): (r: Request)
    requires GoodEnv(e) && b < |e.roots|
  {
    Request(b, flush, e.nodes.neg[b], e.edges.neg[b], nodeIds, edgeIds)
  }

  /** What has to be sent when block `c` is entered, in terms of the reference table. */
  function DueFlush(e: Env, c: nat, ref: seq<Row>): (f: Flush)
    requires GoodEnv(e) && c < |e.roots| && |ref| == |e.nodes.feats|
    ensures f.Flush? ==> |f.ids| == |f.rows| && InRange(f.ids, |ref|)
  {
    FlushInRange(e, c);
    if c == 0 then NoFlush else Flush(FlushIds(e, c), Gather(ref, FlushIds(e, c)))
  }

  /** What the request for block `b` has to be: the same whether prefetching is asynchronous or not. */
  function Due(e: Env, b: nat, ref: seq<Row>): (r: Request)
    requires GoodEnv(e) && 0 < b < |e.roots| && |ref| == |e.nodes.feats|
  {
    Ask(e, b, DueFlush(e, b - 1, ref), Needed(e.nodes, b - 1), Needed(e.edges, b - 1))
  }

  // --------------------------------------------------------------------------------- the invariant

  /** What was handed over makes the table of block `b`, on top of the one that the trainer has. */
  ghost predicate HandedOk(e: Env, s: Side, b: nat, held: Table, h: Handed)
    requires GoodSide(s, e.starts) && b < |e.starts|
  {
    && |held.ids| == |held.rows| && Fits(held, h) && Overlay(held, h) == TableAt(e, s, b)
  }

  ghost predicate Fits(held: Table, h: Handed)
    requires |held.ids| == |held.rows|
  {
    |h.ids| == |h.rows| && InRange(h.dInd, |h.ids|) && (|h.dInd| > 0 ==> |held.rows| > 0)
  }

  /** The trainer in block `c`: both tables and the memory are those of the block. */
  ghost predicate TrainerOk(e: Env, t: Trainer, ref: seq<Row>)
    requires GoodEnv(e)
  {
    && 0 < t.cur <= |e.roots| && |ref| == |e.nodes.feats|
    && t.nodes == TableAt(e, e.nodes, t.cur - 1) && t.edges == TableAt(e, e.edges, t.cur - 1)
    && t.mem == Gather(ref, t.nodes.ids)
  }

  /** The store is up to date but for the roots of the current block, and until the worker has answered, those of
      the block before. */
  ghost predicate StoreOk(e: Env, c: nat, answered: bool, store: seq<Row>, ref: seq<Row>)
    requires GoodEnv(e) && c < |e.roots|
  {
    && |store| == |ref|
    && forall v: nat :: v < |ref| && v !in e.roots[c] && (answered || c == 0 || v !in e.roots[c - 1]) ==>
      store[v] == ref[v]
  }

  ghost predicate WorkerOk(e: Env, c: nat, answered: bool, w: Worker, ref: seq<Row>)
    requires GoodEnv(e) && c < |e.roots| && (answered ==> c + 1 < |e.roots|)
  {
    && StoreOk(e, c, answered, w.store, ref)
    && w.nodeFeat == CacheRows(e, e.nodes, if answered then c + 1 else c)
    && w.edgeFeat == CacheRows(e, e.edges, if answered then c + 1 else c)
  }

  /** The answer is for the block to be entered next; its memory rows are right where they will be used. */
  ghost predicate ReplyOk(e: Env, t: Trainer, ref: seq<Row>, r: Reply)
    requires GoodEnv(e) && 0 < t.cur < |e.roots|
  {
    && r.block == t.cur
    && HandedOk(e, e.nodes, t.cur, t.nodes, r.nodes) && HandedOk(e, e.edges, t.cur, t.edges, r.edges)
    && |r.mem| == |r.nodes.ids| && InRange(r.nodes.ids, |ref|)
    && forall i :: 0 <= i < |r.mem| && r.nodes.ids[i] !in t.nodes.ids ==> r.mem[i] == ref[r.nodes.ids[i]]
  }

  /** At most one request is outstanding, for the block to be entered next; after the last block, none. */
  ghost predicate Channels(e: Env, s: State)
    requires GoodEnv(e) && 0 < s.t.cur <= |e.roots| && |s.ref| == |e.nodes.feats|
  {
    && |s.inbox| + |s.outbox| == (if s.t.cur < |e.roots| && (e.useAsync || s.t.asked) then 1 else 0)
    && (s.t.asked ==> !e.useAsync && s.t.cur < |e.roots|)
    && (|s.inbox| == 1 ==> s.inbox[0] == Due(e, s.t.cur, s.ref))
    && (|s.outbox| == 1 ==> ReplyOk(e, s.t, s.ref, s.outbox[0]))
    && (!e.useAsync && !s.t.asked && s.t.cur < |e.roots| ==> s.t.saved == DueFlush(e, s.t.cur - 1, s.ref))
  }

  ghost predicate Inv(e: Env, s: State) {
    && GoodEnv(e) && TrainerOk(e, s.t, s.ref)
    && Channels(e, s) && WorkerOk(e, s.t.cur - 1, |s.outbox| == 1, s.w, s.ref)
  }

  lemma Bounds(e: Env, s: State)
    requires Inv(e, s)
    ensures GoodEnv(e) && TrainerOk(e, s.t, s.ref)
    ensures 0 < s.t.cur <= |e.roots| && |s.ref| == |e.nodes.feats| == |s.w.store|
    ensures |e.nodes.pos| == |e.nodes.neg| == |e.edges.pos| == |e.edges.neg| == |e.roots| == |e.starts|
  {
  }

  /** What the trainer has in any state. */
  lemma TrainerFacts(e: Env, t: Trainer, ref: seq<Row>)
    requires GoodEnv(e) && TrainerOk(e, t, ref)
    ensures 0 < t.cur <= |e.roots| == |e.nodes.pos| == |e.nodes.neg| && |e.edges.pos| == |e.edges.neg| == |e.roots|
    ensures t.nodes.ids == Needed(e.nodes, t.cur - 1) && t.edges.ids == Needed(e.edges, t.cur - 1)
    ensures |t.nodes.rows| == |t.nodes.ids| == |t.mem| && |t.edges.rows| == |t.edges.ids|
    ensures InRange(t.nodes.ids, |ref|) && t.mem == Gather(ref, t.nodes.ids)
  {
    BothGood(e);
    hide GoodEnv, GoodSide, Right, Needed, Seen;
  }

  lemma RootsInTable(e: Env, t: Trainer, ref: seq<Row>, v: nat)
    requires GoodEnv(e) && TrainerOk(e, t, ref) && v in e.roots[t.cur - 1]
    ensures v in t.nodes.ids && v < |ref|
  {
    TrainerFacts(e, t, ref);
    RootsAt(e, t.cur - 1);
    hide GoodEnv, TrainerOk, Needed;
  }

  // ------------------------------------------------------------------------------ the worker's step

  /** All that the worker needs to prepare one side of block `b`. */
  ghost predicate SideReady(e: Env, s: Side, b: nat, feat: seq<Row>, neg: seq<nat>) {
    && GoodSide(s, e.starts) && 0 < b < |e.starts| && |feat| == |s.idx[b - 1]| && InRange(neg, |s.feats|)
  }

  /** The cache rows after the refresh, if block `b` has one. */
  function RefreshFeat(e: Env, s: Side, b: nat, feat: seq<Row>): (r: seq<Row>)
    requires GoodSide(s, e.starts) && 0 < b < |e.starts| && |feat| == |s.idx[b - 1]|
    ensures |r| == |s.idx[b]|
  {
    RefreshFits(e, s, b);
    if Refreshes(e.starts[b], e.hasEdgeFeats) then
      var p := PlanRefresh(s.idx[b - 1], s.chosen[b]);
      Scatter(feat, Nonzero(p.mask), Gather(s.feats, p.ids))
    else feat
  }

  lemma RefreshFits(e: Env, s: Side, b: nat)
    requires GoodSide(s, e.starts) && 0 < b < |e.starts|
    ensures |s.idx| == |e.starts| == |s.chosen| && |s.idx[b]| == |s.idx[b - 1]|
    ensures e.starts[b] ==>
      && Distinct(s.idx[b - 1]) && Distinct(s.chosen[b]) && |s.chosen[b]| == |s.idx[b - 1]|
      && s.idx[b] == PlanRefresh(s.idx[b - 1], s.chosen[b]).idx && InRange(s.chosen[b], |s.feats|)
      && var p := PlanRefresh(s.idx[b - 1], s.chosen[b]);
        |p.mask| == |s.idx[b - 1]| && |Nonzero(p.mask)| == |p.ids| && InRange(p.ids, |s.feats|)
  {
    IndexGood(s, e.starts, b);
    IndexGood(s, e.starts, b - 1);
    SideAt(s, e.starts, b);
    hide GoodSide;
    if e.starts[b] {
      RefreshCoherent(s.feats, Gather(s.feats, s.idx[b - 1]), s.idx[b - 1], s.chosen[b]);
    }
  }

  /** The cache rows stay those that the block is said to find. */
  lemma RefreshRight(e: Env, s: Side, b: nat)
    requires GoodSide(s, e.starts) && 0 < b < |e.starts|
    ensures RefreshFeat(e, s, b, CacheRows(e, s, b - 1)) == CacheRows(e, s, b)
  {
    hide GoodSide, PlanRefresh, Distinct, Scatter, Nonzero, IndexStep;
    RefreshFits(e, s, b);
    IndexGood(s, e.starts, b - 1);
    IndexGood(s, e.starts, b);
    if e.starts[b] {
      RefreshCoherent(s.feats, Gather(s.feats, s.idx[b - 1]), s.idx[b - 1], s.chosen[b]);
    } else {
      SameIndex(s, e.starts, b);
    }
  }

  lemma SameIndex(s: Side, starts: seq<bool>, b: nat)
    requires GoodSide(s, starts) && 0 < b < |starts| && !starts[b]
    ensures |s.idx| == |starts| && s.idx[b] == s.idx[b - 1]
  {
    SideAt(s, starts, b);
  }

  /** What the worker makes of one side for block `b`: the refreshed cache, and the table to hand over. */
  function Prepare(e: Env, s: Side, b: nat, feat: seq<Row>, neg: seq<nat>, heldIds: seq<nat>): (r: (seq<Row>, Handed))
    requires SideReady(e, s, b, feat, neg)
    ensures InRange(r.1.ids, |s.feats|)
  {
    var refreshed := RefreshFeat(e, s, b, feat);
    PrepareFits(e, s, b, refreshed, neg, heldIds);
    (refreshed, PreFetch(PlanBlock(s.feats, BlockAt(s, b)), refreshed, neg, heldIds, e.dataIncre, s.source, e.zero))
  }

  lemma PrepareFits(e: Env, s: Side, b: nat, feat: seq<Row>, neg: seq<nat>, heldIds: seq<nat>)
    requires GoodSide(s, e.starts) && 0 < b < |e.starts| && |feat| == |s.idx[b]| && InRange(neg, |s.feats|)
    ensures |s.pos| == |s.neg| == |s.idx| == |e.starts| && InRange(s.pos[b], |s.feats|)
    ensures FileOk(PlanBlock(s.feats, BlockAt(s, b)), feat) && Loadable(s.source, neg)
    ensures InRange(PreFetch(PlanBlock(s.feats, BlockAt(s, b)), feat, neg, heldIds, e.dataIncre, s.source, e.zero).ids,
                    |s.feats|)
  {
    SideAt(s, e.starts, b);
    PlanFileOk(s.feats, BlockAt(s, b), feat);
    AllLoadable(s.source, s.feats, neg);
    hide PlanBlock, FileOk, PosRows, LoadTo, DdInd, Select, Loadable, GoodSide;
    DisInRange(neg, s.pos[b], |s.feats|);
    GatherInRange(s.pos[b] + DisNeg(neg, s.pos[b]), ArgSort(s.pos[b] + DisNeg(neg, s.pos[b])), |s.feats|);
  }

  /** From the cache that the block finds and the table of the block before, the worker makes the table that the
      block shows. */
  lemma PrepareOk(e: Env, s: Side, b: nat)
    requires GoodSide(s, e.starts) && 0 < b < |e.starts|
    ensures |s.neg| == |e.starts| && SideReady(e, s, b, CacheRows(e, s, b - 1), s.neg[b])
    ensures var held := TableAt(e, s, b - 1);
      var (refreshed, h) := Prepare(e, s, b, CacheRows(e, s, b - 1), s.neg[b], held.ids);
      refreshed == CacheRows(e, s, b) && HandedOk(e, s, b, held, h) && StrictlySorted(h.ids)
  {
    SideAt(s, e.starts, b);
    IndexGood(s, e.starts, b);
    RefreshRight(e, s, b);
    hide GoodSide, PreFetch, PlanBlock, FileOk, Overlay, RefreshFeat, CacheRows, TableAt, Distinct, Needed, Shown,
         Right;
    var held := TableAt(e, s, b - 1);
    BlockShows(s.feats, Seen(e, s, b - 1), BlockAt(s, b), CacheRows(e, s, b), held, s.source, e.dataIncre, e.zero);
    var h := Prepare(e, s, b, CacheRows(e, s, b - 1), s.neg[b], held.ids).1;
    TableIs(e, s, b, Overlay(held, h));
    OverlayIds(held, h);
  }

  /** `mem_update` */
  function MemUpdate(store: seq<Row>, f: Flush): (r: seq<Row>)
    requires f.Flush? ==> |f.ids| == |f.rows| && InRange(f.ids, |store|)
    ensures |r| == |store|
  {
    match f
    case NoFlush => store
    case Flush(ids, rows) => Scatter(store, ids, rows)
  }

  ghost predicate CanWork(e: Env, w: Worker, r: Request) {
    && SideReady(e, e.nodes, r.block, w.nodeFeat, r.negNodes) && SideReady(e, e.edges, r.block, w.edgeFeat, r.negEdges)
    && |w.store| == |e.nodes.feats|
    && (r.flush.Flush? ==> |r.flush.ids| == |r.flush.rows| && InRange(r.flush.ids, |w.store|))
  }

  /** `pre_fetch`: the caches are refreshed, the store takes the rows sent, and tables and memory for the block
      are handed over. `junk` is what `torch.empty` holds. */
  function PreFetchBlock(e: Env, w: Worker, r: Request, junk: seq<Row>): (res: (Worker, Reply))
    requires CanWork(e, w, r)
  {
    var store := MemUpdate(w.store, r.flush);
    var (nodeFeat, nodes) := Prepare(e, e.nodes, r.block, w.nodeFeat, r.negNodes, r.nodeIds);
    var (edgeFeat, edges) := Prepare(e, e.edges, r.block, w.edgeFeat, r.negEdges, r.edgeIds);
    (Worker(store, nodeFeat, edgeFeat),
     Reply(r.block, nodes, edges, MemRows(store, nodes.ids, r.nodeIds, e.dataIncre, Padded(junk, |nodes.ids|, e.zero))))
  }

  /** Any `n` rows, as a list that may be too short or too long says. */
  function Padded(rows: seq<Row>, n: nat, zero: Row): (r: seq<Row>)
    ensures |r| == n
  {
    seq(n, i requires 0 <= i < n => if i < |rows| then rows[i] else zero)
  }

  // ------------------------------------------------------------------------------------- the steps

  datatype Action =
    | Train(ids: seq<nat>, rows: seq<Row>)
    | Call
    | Work(junk: seq<Row>)
    | Switch

  /** What can happen next: a batch of the current block updates end points of its edges; a synchronous trainer calls
      the worker; the worker takes a request; the trainer goes on to the next block when the answer is there. */
  ghost predicate Enabled(e: Env, s: State, a: Action)
    requires Inv(e, s)
  {
    match a
    case Train(ids, rows) =>
      !s.t.asked && |ids| == |rows| && forall k :: 0 <= k < |ids| ==> ids[k] in e.roots[s.t.cur - 1]
    case Call => !e.useAsync && !s.t.asked && s.t.cur < |e.roots|
    case Work(_) => |s.inbox| == 1
    case Switch => |s.outbox| == 1
  }

  lemma TrainInTable(e: Env, s: State, ids: seq<nat>, rows: seq<Row>)
    requires Inv(e, s) && Enabled(e, s, Train(ids, rows))
    ensures |ids| == |rows| && InRange(ids, |s.ref|) && |s.ref| == |e.nodes.feats|
    ensures forall k :: 0 <= k < |ids| ==> ids[k] in s.t.nodes.ids && ids[k] in e.roots[s.t.cur - 1]
    ensures |s.t.mem| == |s.t.nodes.ids|
  {
    hide GoodEnv, TrainerOk, Channels, WorkerOk;
    forall k | 0 <= k < |ids| ensures ids[k] in s.t.nodes.ids && ids[k] < |s.ref| {
      RootsInTable(e, s.t, s.ref, ids[k]);
    }
    Bounds(e, s);
    TrainerFacts(e, s.t, s.ref);
  }

  /** `update_memory` in the current block. */
  function AfterTrain(e: Env, s: State, ids: seq<nat>, rows: seq<Row>): (r: State)
    requires Inv(e, s) && Enabled(e, s, Train(ids, rows))
  {
    TrainInTable(e, s, ids, rows);
    s.(t := s.t.(mem := Scatter(s.t.mem, Places(s.t.nodes.ids, ids), rows)), ref := Scatter(s.ref, ids, rows))
  }

  /** A batch keeps everything: what is on its way to or from the worker does not touch the roots of the
      current block. */
  lemma TrainKeeps(e: Env, s: State, ids: seq<nat>, rows: seq<Row>)
    requires Inv(e, s) && Enabled(e, s, Train(ids, rows))
    ensures Inv(e, AfterTrain(e, s, ids, rows))
  {
    hide GoodEnv, TrainerOk, Channels, StoreOk, CacheRows, Scatter;
    TrainTrainer(e, s, ids, rows);
    TrainStore(e, s, ids, rows);
    TrainChannels(e, s, ids, rows);
  }

  lemma TrainTrainer(e: Env, s: State, ids: seq<nat>, rows: seq<Row>)
    requires Inv(e, s) && Enabled(e, s, Train(ids, rows))
    ensures TrainerOk(e, AfterTrain(e, s, ids, rows).t, AfterTrain(e, s, ids, rows).ref)
  {
    hide GoodEnv, Channels, WorkerOk, TableAt, Scatter, Places, Needed, Distinct;
    BothGood(e);
    TrainInTable(e, s, ids, rows);
    TrainerFacts(e, s.t, s.ref);
    UpdateRight(s.ref, s.t.nodes.ids, ids, rows);
  }

  lemma TrainStore(e: Env, s: State, ids: seq<nat>, rows: seq<Row>)
    requires Inv(e, s) && Enabled(e, s, Train(ids, rows))
    ensures StoreOk(e, s.t.cur - 1, |s.outbox| == 1, s.w.store, AfterTrain(e, s, ids, rows).ref)
  {
    hide GoodEnv, CacheRows, TrainerOk, Channels;
    Bounds(e, s);
    TrainInTable(e, s, ids, rows);
    var r := AfterTrain(e, s, ids, rows);
    forall v: nat | v < |s.ref| && v !in e.roots[s.t.cur - 1] ensures r.ref[v] == s.ref[v] {
      assert v !in ids;
    }
  }

  lemma TrainChannels(e: Env, s: State, ids: seq<nat>, rows: seq<Row>)
    requires Inv(e, s) && Enabled(e, s, Train(ids, rows))
    ensures Channels(e, AfterTrain(e, s, ids, rows))
  {
    hide GoodEnv, TrainerOk, WorkerOk, DueFlush, Scatter, ReplyOk;
    Bounds(e, s);
    TrainInTable(e, s, ids, rows);
    if s.t.cur < |e.roots| {
      FlushUntouched(e, s.t.cur - 1, s.ref, ids, rows);
    }
    if |s.outbox| == 1 {
      ReplyUntouched(e, s.t, s.ref, s.outbox[0], ids, rows, AfterTrain(e, s, ids, rows).t);
    }
  }

  lemma ReplyUntouched(e: Env, t: Trainer, ref: seq<Row>, r: Reply, ids: seq<nat>, rows: seq<Row>, t': Trainer)
    requires GoodEnv(e) && 0 < t.cur < |e.roots| && ReplyOk(e, t, ref, r) && |ids| == |rows| && InRange(ids, |ref|)
    requires forall k :: 0 <= k < |ids| ==> ids[k] in t.nodes.ids
    requires t'.cur == t.cur && t'.nodes == t.nodes && t'.edges == t.edges
    ensures ReplyOk(e, t', Scatter(ref, ids, rows), r)
  {
    hide GoodEnv, HandedOk;
  }

  /** The rows to be sent do not depend on what the current block writes to its roots. */
  lemma FlushUntouched(e: Env, c: nat, ref: seq<Row>, ids: seq<nat>, rows: seq<Row>)
    requires GoodEnv(e) && c < |e.roots| && |ids| == |rows| && InRange(ids, |ref|) && |ref| == |e.nodes.feats|
    requires forall k :: 0 <= k < |ids| ==> ids[k] in e.roots[c]
    ensures DueFlush(e, c, Scatter(ref, ids, rows)) == DueFlush(e, c, ref)
  {
    FlushInRange(e, c);
    hide GoodEnv, FlushIds;
    forall k | 0 <= k < |FlushIds(e, c)| ensures Scatter(ref, ids, rows)[FlushIds(e, c)[k]] == ref[FlushIds(e, c)[k]] {
      assert FlushIds(e, c)[k] in FlushIds(e, c);
      assert FlushIds(e, c)[k] !in ids;
    }
    assert Gather(Scatter(ref, ids, rows), FlushIds(e, c)) == Gather(ref, FlushIds(e, c));
  }

  /** A synchronous trainer sends the request when it wants the block. */
  function AfterCall(e: Env, s: State): (r: State)
    requires Inv(e, s) && Enabled(e, s, Call)
  {
    var request := Ask(e, s.t.cur, s.t.saved, s.t.nodes.ids, s.t.edges.ids);
    s.(inbox := s.inbox + [request], t := s.t.(asked := true), sent := s.sent + [request])
  }

  lemma CallKeeps(e: Env, s: State)
    requires Inv(e, s) && Enabled(e, s, Call)
    ensures Inv(e, AfterCall(e, s))
  {
    hide GoodEnv, WorkerOk, TrainerOk, DueFlush, ReplyOk, FlushIds;
    Bounds(e, s);
    TrainerFacts(e, s.t, s.ref);
    AskedTrainer(e, s.t, s.ref);
  }

  lemma AskedTrainer(e: Env, t: Trainer, ref: seq<Row>)
    requires GoodEnv(e) && TrainerOk(e, t, ref)
    ensures TrainerOk(e, t.(asked := true), ref)
  {
  }

  lemma InboxDue(e: Env, s: State)
    requires Inv(e, s) && |s.inbox| == 1
    ensures GoodEnv(e) && s.outbox == [] && 0 < s.t.cur < |e.roots| && |s.ref| == |e.nodes.feats|
    ensures s.inbox[0] == Due(e, s.t.cur, s.ref)
    ensures s.w.nodeFeat == CacheRows(e, e.nodes, s.t.cur - 1) && s.w.edgeFeat == CacheRows(e, e.edges, s.t.cur - 1)
    ensures StoreOk(e, s.t.cur - 1, false, s.w.store, s.ref)
  {
    hide GoodEnv, TrainerOk, StoreOk, CacheRows, Due, ReplyOk;
    Bounds(e, s);
  }

  /** A due request is one that the worker can serve. */
  lemma DueCanWork(e: Env, s: State)
    requires Inv(e, s) && |s.inbox| == 1
    ensures CanWork(e, s.w, s.inbox[0])
  {
    hide Inv, GoodEnv, GoodSide, CacheRows, StoreOk, SideReady, DueFlush, Prepare, HandedOk, TableAt;
    Bounds(e, s);
    InboxDue(e, s);
    BothGood(e);
    PrepareOk(e, e.nodes, s.t.cur);
    PrepareOk(e, e.edges, s.t.cur);
  }

  /** The worker takes a request out of its channel, and answers it. */
  function AfterWork(e: Env, s: State, junk: seq<Row>): (r: State)
    requires Inv(e, s) && Enabled(e, s, Work(junk))
  {
    DueCanWork(e, s);
    var (w, reply) := PreFetchBlock(e, s.w, s.inbox[0], junk);
    s.(w := w, inbox := s.inbox[1..], outbox := s.outbox + [reply])
  }

  lemma WorkKeeps(e: Env, s: State, junk: seq<Row>)
    requires Inv(e, s) && Enabled(e, s, Work(junk))
    ensures Inv(e, AfterWork(e, s, junk))
  {
    hide Inv, GoodEnv, StoreOk, CacheRows, CanWork, PreFetchBlock, ReplyOk, Due;
    DueCanWork(e, s);
    Bounds(e, s);
    InboxDue(e, s);
    WorkCaches(e, s, junk);
    WorkStore(e, s, junk);
    WorkReply(e, s, junk);
    var (w, reply) := PreFetchBlock(e, s.w, s.inbox[0], junk);
    assert s.inbox[1..] == [] && s.outbox + [reply] == [reply];
    Answered(e, s, w, reply);
  }

  lemma Answered(e: Env, s: State, w: Worker, reply: Reply)
    requires Inv(e, s) && |s.inbox| == 1 && 0 < s.t.cur < |e.roots| && ReplyOk(e, s.t, s.ref, reply)
    requires WorkerOk(e, s.t.cur - 1, true, w, s.ref)
    ensures Inv(e, s.(w := w, inbox := [], outbox := [reply]))
  {
    hide GoodEnv, WorkerOk, TrainerOk, ReplyOk, Due, DueFlush;
    Bounds(e, s);
  }

  lemma WorkCaches(e: Env, s: State, junk: seq<Row>)
    requires Inv(e, s) && |s.inbox| == 1 && CanWork(e, s.w, s.inbox[0]) && 0 < s.t.cur < |e.roots|
    ensures var (w, reply) := PreFetchBlock(e, s.w, s.inbox[0], junk);
      && w.nodeFeat == CacheRows(e, e.nodes, s.t.cur) && w.edgeFeat == CacheRows(e, e.edges, s.t.cur)
      && reply.block == s.t.cur && StrictlySorted(reply.nodes.ids) && InRange(reply.nodes.ids, |s.ref|)
      && |reply.mem| == |reply.nodes.ids|
      && HandedOk(e, e.nodes, s.t.cur, s.t.nodes, reply.nodes) && HandedOk(e, e.edges, s.t.cur, s.t.edges, reply.edges)
  {
    hide GoodEnv, GoodSide, CacheRows, StoreOk, WorkerOk, Channels, Prepare, MemRows, MemUpdate, DueFlush, HandedOk,
         CanWork, SideReady;
    Bounds(e, s);
    BothGood(e);
    InboxDue(e, s);
    TrainerFacts(e, s.t, s.ref);
    PrepareOk(e, e.nodes, s.t.cur);
    PrepareOk(e, e.edges, s.t.cur);
  }

  /** With the rows that were sent the store is up to date but for the roots of the current block. */
  lemma WorkStore(e: Env, s: State, junk: seq<Row>)
    requires Inv(e, s) && |s.inbox| == 1 && CanWork(e, s.w, s.inbox[0]) && 0 < s.t.cur <= |e.roots|
    ensures StoreOk(e, s.t.cur - 1, true, PreFetchBlock(e, s.w, s.inbox[0], junk).0.store, s.ref)
  {
    hide Inv, GoodEnv, CanWork, Prepare, MemRows, StoreOk, DueFlush, MemUpdate;
    InboxDue(e, s);
    FlushedStore(e, s.t.cur - 1, s.w.store, s.ref);
  }

  lemma FlushedStore(e: Env, c: nat, store: seq<Row>, ref: seq<Row>)
    requires GoodEnv(e) && c < |e.roots| && |ref| == |e.nodes.feats| && StoreOk(e, c, false, store, ref)
    ensures StoreOk(e, c, true, MemUpdate(store, DueFlush(e, c, ref)), ref)
  {
    FlushInRange(e, c);
    hide GoodEnv, FlushIds;
    forall v: nat | v < |ref| && v !in e.roots[c] ensures MemUpdate(store, DueFlush(e, c, ref))[v] == ref[v] {
      FlushedAt(e, c, store, ref, v);
    }
  }

  /** A store after `mem_update`: the rows sent, and else what it was. */
  lemma FlushedAt(e: Env, c: nat, store: seq<Row>, ref: seq<Row>, v: nat)
    requires GoodEnv(e) && c < |e.roots| && |store| == |ref| == |e.nodes.feats| && v < |ref|
    ensures MemUpdate(store, DueFlush(e, c, ref))[v]
      == if c > 0 && v in e.roots[c - 1] && v !in e.roots[c] then ref[v] else store[v]
  {
    FlushInRange(e, c);
    hide GoodEnv, FlushIds, Distinct;
    if c > 0 {
      ScatterOwn(store, ref, FlushIds(e, c), v);
    }
  }

  lemma {:induction false} ScatterOwn(dst: seq<Row>, ref: seq<Row>, ids: seq<nat>, v: nat)
    requires |dst| == |ref| && InRange(ids, |ref|) && v < |ref|
    ensures Scatter(dst, ids, Gather(ref, ids))[v] == if v in ids then ref[v] else dst[v]
  {
    hide Distinct;
    if |ids| > 0 {
      var n := |ids| - 1;
      ScatterOwn(dst, ref, ids[..n], v);
      assert Gather(ref, ids)[..n] == Gather(ref, ids[..n]);
    }
  }

  /** The memory handed over is right where it will be used: nodes that the trainer does not have are no roots of
      the current block, so the store has their rows. */
  lemma WorkReply(e: Env, s: State, junk: seq<Row>)
    requires Inv(e, s) && |s.inbox| == 1 && CanWork(e, s.w, s.inbox[0]) && 0 < s.t.cur < |e.roots|
    ensures ReplyOk(e, s.t, s.ref, PreFetchBlock(e, s.w, s.inbox[0], junk).1)
  {
    hide GoodEnv, CacheRows, Prepare, MemRows, CanWork, HandedOk, MemUpdate, DueFlush, TrainerOk, Channels, WorkerOk;
    WorkCaches(e, s, junk);
    WorkStore(e, s, junk);
    InboxDue(e, s);
    TrainerFacts(e, s.t, s.ref);
    var (w, reply) := PreFetchBlock(e, s.w, s.inbox[0], junk);
    forall i | 0 <= i < |reply.mem| && reply.nodes.ids[i] !in s.t.nodes.ids
      ensures reply.mem[i] == s.ref[reply.nodes.ids[i]]
    {
      NotRoot(e, s.t, s.ref, reply.nodes.ids[i]);
      MemRowsRight(w.store, reply.nodes.ids, s.t.nodes.ids, e.dataIncre, Padded(junk, |reply.nodes.ids|, e.zero), i);
    }
  }

  lemma NotRoot(e: Env, t: Trainer, ref: seq<Row>, v: nat)
    requires GoodEnv(e) && TrainerOk(e, t, ref) && v !in t.nodes.ids
    ensures v !in e.roots[t.cur - 1]
  {
    if v in e.roots[t.cur - 1] {
      RootsInTable(e, t, ref, v);
    }
  }

  // -------------------------------------------------------------------------------- the block switch

  /** `memory_info` at the switch to the next block. */
  function InfoAt(e: Env, t: Trainer, ref: seq<Row>): (f: Flush)
    requires GoodEnv(e) && TrainerOk(e, t, ref) && t.cur < |e.roots|
    ensures f == DueFlush(e, t.cur, ref)
  {
    FlushInTable(e, t, ref);
    MemoryInfo(e, t.cur, t.nodes.ids, t.mem)
  }

  lemma FlushInTable(e: Env, t: Trainer, ref: seq<Row>)
    requires GoodEnv(e) && TrainerOk(e, t, ref) && t.cur < |e.roots|
    ensures InRange(FlushIds(e, t.cur), |ref|) && |t.nodes.ids| == |t.mem|
    ensures |FlushIds(e, t.cur)| > 0 ==> |t.mem| > 0
    ensures GetMails(t.nodes.ids, t.mem, FlushIds(e, t.cur)) == Gather(ref, FlushIds(e, t.cur))
  {
    FlushInRange(e, t.cur);
    TrainerFacts(e, t, ref);
    forall v | v in FlushIds(e, t.cur) ensures v in t.nodes.ids {
      RootsInTable(e, t, ref, v);
    }
    hide GoodEnv, FlushIds, TrainerOk;
    MailsRight(ref, t.nodes.ids, FlushIds(e, t.cur));
  }

  ghost predicate CanSwitch(e: Env, t: Trainer, r: Reply) {
    && |t.nodes.ids| == |t.nodes.rows| == |t.mem| && |t.edges.ids| == |t.edges.rows|
    && StrictlySorted(t.nodes.ids) && StrictlySorted(r.nodes.ids) && |r.mem| == |r.nodes.ids|
    && Fits(t.nodes, r.nodes) && Fits(t.edges, r.edges)
  }

  /** `prefetch_after`: the trainer with the next block's tables and memory. */
  function Entered(e: Env, t: Trainer, r: Reply, saved: Flush): (t': Trainer)
    requires CanSwitch(e, t, r)
  {
    Trainer(t.cur + 1, Overlay(t.nodes, r.nodes), Overlay(t.edges, r.edges),
            Carry(r.mem, r.nodes.ids, t.nodes.ids, t.mem), saved, false)
  }

  /** The rest of `run_batch`: the memory to be sent is picked before the switch; the request for the block after
      the next goes out at once, or is kept for later. */
  function AfterSwitch(e: Env, s: State): (r: State)
    requires Inv(e, s) && Enabled(e, s, Switch)
  {
    ReplyCanSwitch(e, s);
    var info := InfoAt(e, s.t, s.ref);
    var t := Entered(e, s.t, s.outbox[0], s.t.saved);
    var entered := s.(t := t, outbox := s.outbox[1..], refs := s.refs + [s.ref]);
    if t.cur >= |e.roots| then entered
    else if e.useAsync then
      var request := Ask(e, t.cur, info, t.nodes.ids, t.edges.ids);
      entered.(inbox := s.inbox + [request], sent := s.sent + [request])
    else entered.(t := t.(saved := info))
  }

  lemma OutboxReply(e: Env, s: State)
    requires Inv(e, s) && |s.outbox| == 1
    ensures GoodEnv(e) && TrainerOk(e, s.t, s.ref)
    ensures s.inbox == [] && 0 < s.t.cur < |e.roots| && ReplyOk(e, s.t, s.ref, s.outbox[0])
    ensures s.w.nodeFeat == CacheRows(e, e.nodes, s.t.cur) && s.w.edgeFeat == CacheRows(e, e.edges, s.t.cur)
    ensures StoreOk(e, s.t.cur - 1, true, s.w.store, s.ref)
  {
    hide GoodEnv, TrainerOk, StoreOk, CacheRows, Due, ReplyOk;
    Bounds(e, s);
  }

  lemma ReplyCanSwitch(e: Env, s: State)
    requires Inv(e, s) && |s.outbox| == 1
    ensures s.t.cur < |e.roots| && s.inbox == [] && CanSwitch(e, s.t, s.outbox[0])
  {
    hide Inv, GoodEnv, StoreOk, CacheRows, Overlay, TrainerOk, TableAt;
    OutboxReply(e, s);
    TrainerFacts(e, s.t, s.ref);
    BothGood(e);
    HandedSorted(e, e.nodes, s.t.cur, s.t.nodes, s.outbox[0].nodes);
    HandedSorted(e, e.edges, s.t.cur, s.t.edges, s.outbox[0].edges);
  }

  lemma HandedSorted(e: Env, s: Side, b: nat, held: Table, h: Handed)
    requires GoodSide(s, e.starts) && b < |e.starts| && HandedOk(e, s, b, held, h)
    ensures |held.ids| == |held.rows| && Fits(held, h)
    ensures StrictlySorted(h.ids) && InRange(h.ids, |s.feats|) && Overlay(held, h).ids == h.ids
  {
    OverlayIds(held, h);
    hide GoodSide, Overlay, Seen;
  }

  /** After the switch the trainer has exactly what the new block needs, all of it right. */
  lemma EnteredOk(e: Env, s: State, saved: Flush)
    requires Inv(e, s) && |s.outbox| == 1 && CanSwitch(e, s.t, s.outbox[0]) && s.t.cur < |e.roots|
    ensures TrainerOk(e, Entered(e, s.t, s.outbox[0], saved), s.ref)
  {
    hide GoodEnv, Channels, WorkerOk, StoreOk, CacheRows, Overlay, Carry, TableAt;
    OutboxReply(e, s);
    TrainerFacts(e, s.t, s.ref);
    BothGood(e);
    HandedSorted(e, e.nodes, s.t.cur, s.t.nodes, s.outbox[0].nodes);
    var r := s.outbox[0];
    CarryRight(s.ref, r.mem, r.nodes.ids, s.t.nodes.ids, s.t.mem);
  }

  lemma SwitchKeeps(e: Env, s: State)
    requires Inv(e, s) && Enabled(e, s, Switch)
    ensures Inv(e, AfterSwitch(e, s))
  {
    hide GoodEnv, CacheRows, StoreOk, TrainerOk, DueFlush, CanSwitch, ReplyOk, Entered, InfoAt;
    Bounds(e, s);
    ReplyCanSwitch(e, s);
    OutboxReply(e, s);
    var info := InfoAt(e, s.t, s.ref);
    EnteredOk(e, s, s.t.saved);
    EnteredOk(e, s, info);
    EnteredCur(e, s.t, s.outbox[0], s.t.saved, info);
    TrainerFacts(e, Entered(e, s.t, s.outbox[0], info), s.ref);
    StoreNext(e, s.t.cur, s.w.store, s.ref);
  }

  lemma EnteredCur(e: Env, t: Trainer, r: Reply, saved: Flush, info: Flush)
    requires CanSwitch(e, t, r)
    ensures var t1 := Entered(e, t, r, saved);
      t1.(saved := info) == Entered(e, t, r, info) && t1.cur == t.cur + 1 && !t1.asked && t1.saved == saved
  {
    hide Overlay, Carry;
  }

  lemma StoreNext(e: Env, c: nat, store: seq<Row>, ref: seq<Row>)
    requires GoodEnv(e) && 0 < c < |e.roots| && StoreOk(e, c - 1, true, store, ref)
    ensures StoreOk(e, c, false, store, ref)
  {
  }

  // ------------------------------------------------------------------------------------- the start

  /** The table of the first block. */
  function FirstOf(s: Side): (t: Table)
    requires |s.pos| == |s.neg| > 0 && InRange(s.pos[0], |s.feats|) && InRange(s.neg[0], |s.feats|)
  {
    FirstTable(s.feats, FirstFile(s.feats, s.pos[0]), s.neg[0])
  }

  lemma FirstOk(e: Env, s: Side)
    requires GoodSide(s, e.starts)
    ensures |e.starts| > 0 && |s.pos| == |s.neg| == |s.idx| == |e.starts|
    ensures InRange(s.pos[0], |s.feats|) && InRange(s.neg[0], |s.feats|) && InRange(s.idx[0], |s.feats|)
    ensures FirstOf(s) == TableAt(e, s, 0) && Gather(s.feats, s.idx[0]) == CacheRows(e, s, 0)
  {
    SideAt(s, e.starts, 0);
    hide FirstTable, FirstFile, Needed, TableAt;
    FirstTableRight(s.feats, s.pos[0], s.neg[0]);
    TableIs(e, s, 0, FirstOf(s));
  }

  /** After the first block's load and analysis; the store is what `reset_memory` left. */
  function Start(e: Env, store: seq<Row>): (s: State)
    requires GoodEnv(e) && |store| == |e.nodes.feats|
  {
    FirstOk(e, e.nodes);
    FirstOk(e, e.edges);
    var nodes, edges := FirstOf(e.nodes), FirstOf(e.edges);
    var t := Trainer(1, nodes, edges, Gather(store, nodes.ids), NoFlush, false);
    var w := Worker(store, Gather(e.nodes.feats, e.nodes.idx[0]), Gather(e.edges.feats, e.edges.idx[0]));
    var requests := if e.useAsync && 1 < |e.roots| then [Ask(e, 1, NoFlush, nodes.ids, edges.ids)] else [];
    State(t, w, requests, [], store, requests, [store])
  }

  lemma StartOk(e: Env, store: seq<Row>)
    requires GoodEnv(e) && |store| == |e.nodes.feats|
    ensures Inv(e, Start(e, store))
  {
    hide GoodEnv, GoodSide, FirstOf, TableAt, CacheRows, Needed, Distinct;
    BothGood(e);
    FirstOk(e, e.nodes);
    FirstOk(e, e.edges);
    var s := Start(e, store);
    assert TrainerOk(e, s.t, s.ref);
    assert WorkerOk(e, 0, false, s.w, s.ref);
    assert Channels(e, s);
  }

  function After(e: Env, s: State, a: Action): (r: State)
    requires Inv(e, s) && Enabled(e, s, a)
  {
    match a
    case Train(ids, rows) => AfterTrain(e, s, ids, rows)
    case Call => AfterCall(e, s)
    case Work(junk) => AfterWork(e, s, junk)
    case Switch => AfterSwitch(e, s)
  }

  lemma StepKeeps(e: Env, s: State, a: Action)
    requires Inv(e, s) && Enabled(e, s, a)
    ensures Inv(e, After(e, s, a))
  {
    hide Inv;
    match a
    case Train(ids, rows) => TrainKeeps(e, s, ids, rows);
    case Call => CallKeeps(e, s);
    case Work(junk) => WorkKeeps(e, s, junk);
    case Switch => SwitchKeeps(e, s);
  }
}
