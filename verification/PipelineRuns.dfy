/** Whole runs of the block pipeline: what holds in every state that trainer and worker can reach, in any
    interleaving, in both prefetch modes, with edge features or without. */
module PipelineRuns {
  import opened Common
  import opened Tensors
  import opened BucketCache
  import opened BlockFeatures
  import opened BlockPipeline

  // -------------------------------------------------------------------------------------- whole runs

  datatype Outcome = Stuck | Reached(s: State)

  /** The state after these actions in this order, if each could happen when its turn came. */
  ghost function Run(e: Env, store: seq<Row>, acts: seq<Action>): (r: Outcome)
    requires GoodEnv(e) && |store| == |e.nodes.feats|
    ensures r.Reached? ==> Inv(e, r.s)
  {
    if |acts| == 0 then
      StartOk(e, store);
      Reached(Start(e, store))
    else
      match Run(e, store, acts[..|acts| - 1])
      case Stuck => Stuck
      case Reached(s) => RunOne(e, s, acts[|acts| - 1])
  }

  ghost function RunOne(e: Env, s: State, a: Action): (r: Outcome)
    requires Inv(e, s)
    ensures r.Reached? ==> Inv(e, r.s)
  {
    if Enabled(e, s, a) then
      StepKeeps(e, s, a);
      Reached(After(e, s, a))
    else Stuck
  }

  /** A run is a shorter run and one more step. */
  lemma RunStep(e: Env, store: seq<Row>, acts: seq<Action>)
    requires GoodEnv(e) && |store| == |e.nodes.feats| && Run(e, store, acts).Reached?
    ensures |acts| == 0 ==> Run(e, store, acts).s == Start(e, store)
    ensures |acts| > 0 ==>
      var pre, last := Run(e, store, acts[..|acts| - 1]), acts[|acts| - 1];
      pre.Reached? && Enabled(e, pre.s, last) && Run(e, store, acts).s == After(e, pre.s, last)
  {
    hide GoodEnv, Inv, Enabled, After, Start;
  }

  /** And one more enabled step makes a longer run. */
  lemma RunExtend(e: Env, store: seq<Row>, acts: seq<Action>, a: Action)
    requires GoodEnv(e) && |store| == |e.nodes.feats| && Run(e, store, acts).Reached?
    requires Enabled(e, Run(e, store, acts).s, a)
    ensures Run(e, store, acts + [a]) == Reached(After(e, Run(e, store, acts).s, a))
  {
    hide GoodEnv, Inv, Enabled, After, Start;
    assert (acts + [a])[..|acts + [a]| - 1] == acts;
  }

  lemma StartFacts(e: Env, store: seq<Row>)
    requires GoodEnv(e) && |store| == |e.nodes.feats|
    ensures var s := Start(e, store);
      && s.t.cur == 1 && !s.t.asked && s.ref == store && s.w.store == store && s.outbox == []
      && s.sent == s.inbox && s.refs == [store]
  {
    hide GoodEnv, FirstOf;
  }

  // ------------------------------------------------------------------------- what a step changes

  /** The reference: what was written to each node last, in the order of the batches. */
  function Written(ref: seq<Row>, acts: seq<Action>): (r: seq<Row>)
    requires forall k :: 0 <= k < |acts| ==> Writes(acts[k], |ref|)
    ensures |r| == |ref|
  {
    if |acts| == 0 then ref
    else
      var pre := Written(ref, acts[..|acts| - 1]);
      assert Writes(acts[|acts| - 1], |ref|);
      match acts[|acts| - 1]
      case Train(ids, rows) => Scatter(pre, ids, rows)
      case _ => pre
  }

  ghost predicate Writes(a: Action, n: nat) {
    a.Train? ==> |a.ids| == |a.rows| && InRange(a.ids, n)
  }

  lemma TrainMoves(e: Env, s: State, ids: seq<nat>, rows: seq<Row>)
    requires Inv(e, s) && Enabled(e, s, Train(ids, rows))
    ensures |ids| == |rows| && InRange(ids, |s.ref|)
    ensures var r := After(e, s, Train(ids, rows));
      && r == s.(t := s.t.(mem := r.t.mem), ref := Scatter(s.ref, ids, rows))
  {
    hide GoodEnv, TrainerOk, WorkerOk, Channels, Inv, Scatter;
    TrainInTable(e, s, ids, rows);
  }

  lemma CallMoves(e: Env, s: State)
    requires Inv(e, s) && Enabled(e, s, Call)
    ensures GoodEnv(e) && 0 < s.t.cur < |e.roots| && |s.ref| == |e.nodes.feats|
    ensures var r := After(e, s, Call);
      r == s.(inbox := [Due(e, s.t.cur, s.ref)], t := s.t.(asked := true), sent := s.sent + [Due(e, s.t.cur, s.ref)])
  {
    CallKeeps(e, s);
    Bounds(e, s);
    hide GoodEnv, TrainerOk, WorkerOk, ReplyOk, Due;
    assert s.inbox == [];
  }

  lemma WorkMoves(e: Env, s: State, junk: seq<Row>)
    requires Inv(e, s) && Enabled(e, s, Work(junk))
    ensures GoodEnv(e) && 0 < s.t.cur < |e.roots| && |s.ref| == |e.nodes.feats| == |s.w.store|
    ensures var r := After(e, s, Work(junk));
      && r == s.(w := r.w, inbox := [], outbox := r.outbox) && |r.outbox| == 1
      && r.w.store == MemUpdate(s.w.store, DueFlush(e, s.t.cur - 1, s.ref))
  {
    hide Inv, GoodEnv, TrainerOk, Prepare, MemRows, CanWork, DueFlush, MemUpdate, CacheRows, StoreOk;
    InboxDue(e, s);
    DueCanWork(e, s);
    Bounds(e, s);
    assert s.inbox[1..] == [];
  }

  lemma SwitchMoves(e: Env, s: State)
    requires Inv(e, s) && Enabled(e, s, Switch)
    ensures GoodEnv(e) && 0 < s.t.cur < |e.roots| && |s.ref| == |e.nodes.feats|
    ensures var r, c := After(e, s, Switch), s.t.cur + 1;
      && r.t.cur == c && !r.t.asked && r.w == s.w && r.ref == s.ref && r.outbox == [] && r.refs == s.refs + [s.ref]
      && r.inbox == (if e.useAsync && c < |e.roots| then [Due(e, c, s.ref)] else [])
      && r.sent == s.sent + r.inbox
  {
    hide Inv, Due, After, Enabled, GoodEnv, TrainerOk, ReplyOk, StoreOk, CacheRows;
    SwitchCounts(e, s);
    Bounds(e, s);
    StepKeeps(e, s, Switch);
    OutboxReply(e, s);
    var r := After(e, s, Switch);
    if |r.inbox| == 1 {
      InboxDue(e, r);
      assert r.inbox == [r.inbox[0]];
    }
  }

  lemma SwitchCounts(e: Env, s: State)
    requires Inv(e, s) && Enabled(e, s, Switch)
    ensures |s.outbox| == 1
    ensures var r, c := After(e, s, Switch), s.t.cur + 1;
      && r.t.cur == c && !r.t.asked && r.w == s.w && r.ref == s.ref && r.outbox == [] && r.refs == s.refs + [s.ref]
      && |r.inbox| == (if e.useAsync && c < |e.roots| then 1 else 0) && r.sent == s.sent + r.inbox
  {
    hide Inv, GoodEnv, TrainerOk, InfoAt, CanSwitch, Entered, ReplyOk, StoreOk, CacheRows, Due;
    OutboxReply(e, s);
    ReplyCanSwitch(e, s);
    EnteredCur(e, s.t, s.outbox[0], s.t.saved, InfoAt(e, s.t, s.ref));
  }

  // ------------------------------------------------------------------------------ what is shown

  /** The block that fetched the row which block `c` shows for `x`; the blocks since have carried it over. */
  function Fetched(e: Env, s: Side, c: nat, x: nat): (b: nat)
    requires c < |s.pos| == |s.neg|
    ensures b <= c
  {
    if c == 0 then 0
    else if (if x in s.pos[c] then x in s.pos[c - 1] else e.dataIncre && x in Needed(s, c - 1))
    then Fetched(e, s, c - 1, x)
    else c
  }

  /** The row that block `c` shows for `x` was fetched from a cache slot that the index in force gives to `x`, while
      the slot still has the row of another id: without edge features no slot is ever written again. */
  ghost predicate Stale(e: Env, s: Side, c: nat, x: nat)
    requires |s.pos| == |s.neg| == |s.idx| && c < |s.pos|
    requires forall b :: 0 <= b < |s.idx| ==> |s.idx[b]| == |s.idx[0]|
  {
    var b := Fetched(e, s, c, x);
    !e.hasEdgeFeats && b > 0 && x in s.pos[b] && x in s.idx[b] && s.idx[0][IndexOf(s.idx[b], x)] != x
  }

  lemma IndexLengths(s: Side, starts: seq<bool>)
    requires GoodSide(s, starts)
    ensures |s.pos| == |s.neg| == |s.idx| == |starts|
    ensures forall b :: 0 <= b < |s.idx| ==> |s.idx[b]| == |s.idx[0]|
  {
    SideAt(s, starts, 0);
    forall b: nat | b < |s.idx| ensures |s.idx[b]| == |s.idx[0]| {
      IndexGood(s, starts, b);
    }
  }

  /** A row is shown right unless it is stale, and a stale one is wrong if rows tell their ids apart. */
  lemma {:induction false} SeenIff(e: Env, s: Side, c: nat, x: nat)
    requires GoodSide(s, e.starts) && c < |e.starts| && x < |s.feats|
    requires |s.pos| == |s.neg| == |s.idx| == |e.starts|
    requires forall b :: 0 <= b < |s.idx| ==> |s.idx[b]| == |s.idx[0]|
    ensures !Stale(e, s, c, x) ==> Seen(e, s, c)[x] == s.feats[x]
    ensures Stale(e, s, c, x) && Distinct(s.feats) ==> Seen(e, s, c)[x] != s.feats[x]
  {
    hide GoodSide, CacheRows, Needed, Shown;
    if c > 0 {
      SeenIff(e, s, c - 1, x);
      CacheAt(e, s, c, x);
    }
  }

  /** The cache row of an id that the index names. */
  lemma CacheAt(e: Env, s: Side, c: nat, x: nat)
    requires GoodSide(s, e.starts) && c < |e.starts| && x < |s.feats|
    ensures |s.idx| == |e.starts| && |s.idx[0]| == |s.idx[c]|
    ensures x in s.idx[c] ==>
      var j := IndexOf(s.idx[c], x);
      && s.idx[0][j] < |s.feats| && CacheRows(e, s, c)[j] == s.feats[if e.hasEdgeFeats then x else s.idx[0][j]]
  {
    IndexGood(s, e.starts, c);
    IndexGood(s, e.starts, 0);
    hide GoodSide;
  }

  /** Every row of every table that shows the features. */
  lemma SeenRight(e: Env, s: Side, c: nat)
    requires GoodSide(s, e.starts) && c < |e.starts|
    requires |s.pos| == |s.neg| == |s.idx| == |e.starts|
    requires forall b :: 0 <= b < |s.idx| ==> |s.idx[b]| == |s.idx[0]|
    requires forall x: nat :: x < |s.feats| ==> !Stale(e, s, c, x)
    ensures Seen(e, s, c) == s.feats
  {
    hide GoodSide, Seen, Stale;
    forall x: nat | x < |s.feats| ensures Seen(e, s, c)[x] == s.feats[x] {
      SeenIff(e, s, c, x);
    }
  }

  /** No id leaves the cache where a segment starts. */
  ghost predicate CacheUnchanged(s: Side, starts: seq<bool>) {
    && |s.idx| == |s.chosen| == |starts|
    && forall b, x :: 0 < b < |starts| && starts[b] && x in s.idx[b - 1] ==> x in s.chosen[b]
  }

  lemma {:induction false} UnchangedIndex(s: Side, starts: seq<bool>, b: nat)
    requires GoodSide(s, starts) && CacheUnchanged(s, starts) && b < |starts|
    ensures s.idx[b] == s.idx[0]
  {
    if b > 0 {
      UnchangedIndex(s, starts, b - 1);
      SideAt(s, starts, b);
      hide GoodSide;
      if starts[b] {
        RefreshIsNew(s.idx[b - 1], s.chosen[b]);
        SameSlots(s.idx[b - 1], s.chosen[b], s.idx[b]);
      }
    }
  }

  /** With edge features, or with a cache that never changes, nothing is stale. */
  lemma NoneStale(e: Env, s: Side, c: nat, x: nat)
    requires GoodSide(s, e.starts) && c < |e.starts|
    requires |s.pos| == |s.neg| == |s.idx| == |e.starts|
    requires forall b :: 0 <= b < |s.idx| ==> |s.idx[b]| == |s.idx[0]|
    requires e.hasEdgeFeats || s.feats == [] || CacheUnchanged(s, e.starts)
    ensures !Stale(e, s, c, x)
  {
    if !e.hasEdgeFeats {
      var b := Fetched(e, s, c, x);
      if s.feats == [] {
        IndexGood(s, e.starts, b);
      } else {
        UnchangedIndex(s, e.starts, b);
      }
      hide GoodSide;
    }
  }

  // --------------------------------------------------------------------------- in every run

  /** The table on the device has exactly the ids that the block needs, in order, each once. */
  ghost predicate ExactIds(s: Side, c: nat, t: Table) {
    && |t.rows| == |t.ids| && StrictlySorted(t.ids) && InRange(t.ids, |s.feats|)
    && c < |s.pos| == |s.neg| && forall x :: x in t.ids <==> x in s.pos[c] || x in s.neg[c]
  }

  /** In every state of every run, whichever way the two processes interleave, for all data and all plans: the device
      holds exactly the ids that the current block needs; their memory is what was written last; edges have
      their own features; and so have the nodes whose rows are not stale. */
  lemma {:induction false} RunRight(e: Env, store: seq<Row>, acts: seq<Action>)
    requires GoodEnv(e) && |store| == |e.nodes.feats| && Run(e, store, acts).Reached?
    ensures var s := Run(e, store, acts).s;
      && (forall k :: 0 <= k < |acts| ==> Writes(acts[k], |store|)) && s.ref == Written(store, acts)
      && 0 < s.t.cur <= |e.roots|
      && ExactIds(e.nodes, s.t.cur - 1, s.t.nodes) && ExactIds(e.edges, s.t.cur - 1, s.t.edges)
      && s.t.mem == Gather(Written(store, acts), s.t.nodes.ids)
      && s.t.edges.rows == Gather(e.edges.feats, s.t.edges.ids)
      && s.t.nodes.rows == Gather(Seen(e, e.nodes, s.t.cur - 1), s.t.nodes.ids)
  {
    hide GoodEnv, GoodSide, ExactIds, Inv, After, Run, Enabled, Seen, Start, Writes, Scatter;
    RunStep(e, store, acts);
    StateRight(e, Run(e, store, acts).s);
    StartFacts(e, store);
    if |acts| > 0 {
      var pre := acts[..|acts| - 1];
      RunRight(e, store, pre);
      StepWrites(e, Run(e, store, pre).s, acts[|acts| - 1]);
    }
  }

  lemma StepWrites(e: Env, s: State, a: Action)
    requires Inv(e, s) && Enabled(e, s, a)
    ensures Writes(a, |s.ref|)
    ensures After(e, s, a).ref == if a.Train? then Scatter(s.ref, a.ids, a.rows) else s.ref
  {
    hide GoodEnv, Inv, Scatter, Enabled;
    match a
    case Train(ids, rows) => TrainMoves(e, s, ids, rows);
    case Call => CallMoves(e, s);
    case Work(junk) => WorkMoves(e, s, junk);
    case Switch => SwitchMoves(e, s);
  }

  lemma StateRight(e: Env, s: State)
    requires Inv(e, s)
    ensures GoodEnv(e) && 0 < s.t.cur <= |e.roots| && |s.ref| == |e.nodes.feats|
    ensures ExactIds(e.nodes, s.t.cur - 1, s.t.nodes) && ExactIds(e.edges, s.t.cur - 1, s.t.edges)
    ensures InRange(s.t.nodes.ids, |s.ref|) && InRange(s.t.edges.ids, |e.edges.feats|)
    ensures s.t.mem == Gather(s.ref, s.t.nodes.ids)
    ensures GoodSide(e.nodes, e.starts) && |e.roots| == |e.starts|
    ensures s.t.nodes.rows == Gather(Seen(e, e.nodes, s.t.cur - 1), s.t.nodes.ids)
    ensures s.t.edges.rows == Gather(e.edges.feats, s.t.edges.ids)
  {
    hide Inv, GoodEnv, GoodSide, Seen, TableAt, ExactIds;
    Bounds(e, s);
    BothGood(e);
    TrainerFacts(e, s.t, s.ref);
    EdgesSeen(e, s.t.cur - 1);
    TableShows(e, e.nodes, s.t.cur - 1);
    TableShows(e, e.edges, s.t.cur - 1);
  }

  lemma TableShows(e: Env, s: Side, c: nat)
    requires GoodSide(s, e.starts) && c < |e.starts|
    ensures ExactIds(s, c, TableAt(e, s, c))
    ensures InRange(TableAt(e, s, c).ids, |s.feats|)
    ensures TableAt(e, s, c).rows == Gather(Seen(e, s, c), TableAt(e, s, c).ids)
  {
    SideAt(s, e.starts, c);
    hide GoodSide, Seen, Needed;
  }

  lemma EdgesSeen(e: Env, c: nat)
    requires GoodEnv(e) && c < |e.roots|
    ensures GoodSide(e.edges, e.starts) && |e.roots| == |e.starts| && Seen(e, e.edges, c) == e.edges.feats
  {
    BothGood(e);
    IndexLengths(e.edges, e.starts);
    hide GoodEnv, GoodSide, Seen, Stale;
    forall x: nat | x < |e.edges.feats| ensures !Stale(e, e.edges, c, x) {
      NoneStale(e, e.edges, c, x);
    }
    SeenRight(e, e.edges, c);
  }

  /** A node's row on the device is right unless it is stale; with rows that tell nodes apart, exactly then. */
  lemma RowRightIff(e: Env, store: seq<Row>, acts: seq<Action>, i: nat)
    requires GoodEnv(e) && |store| == |e.nodes.feats| && Run(e, store, acts).Reached?
    requires i < |Run(e, store, acts).s.t.nodes.ids|
    ensures |e.nodes.pos| == |e.nodes.neg| == |e.nodes.idx| == |e.roots|
    ensures forall b :: 0 <= b < |e.nodes.idx| ==> |e.nodes.idx[b]| == |e.nodes.idx[0]|
    ensures var s := Run(e, store, acts).s;
      var x := s.t.nodes.ids[i];
      && 0 < s.t.cur <= |e.roots| && |s.t.nodes.rows| == |s.t.nodes.ids| && x < |store|
      && (!Stale(e, e.nodes, s.t.cur - 1, x) ==> s.t.nodes.rows[i] == e.nodes.feats[x])
      && (Stale(e, e.nodes, s.t.cur - 1, x) && Distinct(e.nodes.feats) ==> s.t.nodes.rows[i] != e.nodes.feats[x])
  {
    hide GoodEnv, GoodSide, Run, Stale, Seen, Distinct;
    var s := Run(e, store, acts).s;
    StateRight(e, s);
    IndexLengths(e.nodes, e.starts);
    SeenIff(e, e.nodes, s.t.cur - 1, s.t.nodes.ids[i]);
  }

  /** With edge features, or with a cache that never changes, the device's rows are the features in every run. */
  lemma NodesRight(e: Env, store: seq<Row>, acts: seq<Action>)
    requires GoodEnv(e) && |store| == |e.nodes.feats| && Run(e, store, acts).Reached?
    requires e.hasEdgeFeats || CacheUnchanged(e.nodes, e.starts)
    ensures Right(e.nodes.feats, Run(e, store, acts).s.t.nodes)
  {
    hide GoodEnv, GoodSide, Run, Seen, Inv, CacheUnchanged;
    StateRight(e, Run(e, store, acts).s);
    NodesSeen(e, Run(e, store, acts).s.t.cur - 1);
  }

  lemma NodesSeen(e: Env, c: nat)
    requires GoodEnv(e) && c < |e.roots| && (e.hasEdgeFeats || CacheUnchanged(e.nodes, e.starts))
    ensures GoodSide(e.nodes, e.starts) && |e.roots| == |e.starts| && Seen(e, e.nodes, c) == e.nodes.feats
  {
    BothGood(e);
    IndexLengths(e.nodes, e.starts);
    hide GoodEnv, GoodSide, Seen, Stale, CacheUnchanged;
    forall x: nat | x < |e.nodes.feats| ensures !Stale(e, e.nodes, c, x) {
      NoneStale(e, e.nodes, c, x);
    }
    SeenRight(e, e.nodes, c);
  }

  /** The first time that a block needs a node which the cache index names: without edge features, the device gets
      its own row exactly if the first index names it for that slot. */
  lemma CachedNodeRight(e: Env, store: seq<Row>, acts: seq<Action>, i: nat)
    requires GoodEnv(e) && |store| == |e.nodes.feats| && Run(e, store, acts).Reached?
    requires Distinct(e.nodes.feats) && !e.hasEdgeFeats && i < |Run(e, store, acts).s.t.nodes.ids|
    requires |e.nodes.pos| == |e.nodes.idx| == |e.roots|
    requires var s := Run(e, store, acts).s;
      var c, x := s.t.cur - 1, s.t.nodes.ids[i];
      0 < c < |e.roots| && x in e.nodes.pos[c] && x !in e.nodes.pos[c - 1] && x in e.nodes.idx[c]
    ensures var s := Run(e, store, acts).s;
      var x := s.t.nodes.ids[i];
      var slot := IndexOf(e.nodes.idx[s.t.cur - 1], x);
      && slot < |e.nodes.idx[0]| && |s.t.nodes.rows| == |s.t.nodes.ids| && x < |store|
      && (s.t.nodes.rows[i] == e.nodes.feats[x] <==> e.nodes.idx[0][slot] == x)
  {
    RowRightIff(e, store, acts, i);
    hide GoodEnv, Run, Distinct;
  }

  /** What a batch reads, for any nodes and edges of the current block: the features that are shown, which for edges
      are their own, and the memory that was written last. */
  lemma BatchReads(e: Env, s: State, nodes: seq<nat>, edges: seq<nat>)
    requires Inv(e, s) && 0 < s.t.cur <= |e.nodes.pos|
    requires |e.nodes.pos| == |e.nodes.neg| == |e.edges.pos| == |e.edges.neg|
    requires forall v :: v in nodes ==> v in e.nodes.pos[s.t.cur - 1] || v in e.nodes.neg[s.t.cur - 1]
    requires forall v :: v in edges ==> v in e.edges.pos[s.t.cur - 1] || v in e.edges.neg[s.t.cur - 1]
    ensures |s.t.nodes.ids| == |s.t.nodes.rows| == |s.t.mem| && (|nodes| > 0 ==> |s.t.mem| > 0)
    ensures |s.t.edges.ids| == |s.t.edges.rows| && (|edges| > 0 ==> |s.t.edges.rows| > 0)
    ensures InRange(nodes, |s.ref|) && GetMails(s.t.nodes.ids, s.t.mem, nodes) == Gather(s.ref, nodes)
    ensures InRange(edges, |e.edges.feats|) && GetFeat(s.t.edges, edges) == Gather(e.edges.feats, edges)
    ensures InRange(nodes, |e.nodes.feats|) && (e.hasEdgeFeats || CacheUnchanged(e.nodes, e.starts) ==>
      GetFeat(s.t.nodes, nodes) == Gather(e.nodes.feats, nodes))
  {
    hide Inv, GoodEnv, GoodSide, ExactIds, Seen, GetFeat, GetMails, CacheUnchanged;
    var c := s.t.cur - 1;
    StateRight(e, s);
    TableReads(e.nodes, c, s.t.nodes, Seen(e, e.nodes, c), nodes);
    TableReads(e.edges, c, s.t.edges, e.edges.feats, edges);
    TableMails(e.nodes, c, s.t.nodes, s.ref, nodes);
    if e.hasEdgeFeats || CacheUnchanged(e.nodes, e.starts) {
      NodesSeen(e, c);
    }
  }

  lemma TableReads(s: Side, c: nat, t: Table, shown: seq<Row>, ids: seq<nat>)
    requires ExactIds(s, c, t) && |shown| == |s.feats| && InRange(t.ids, |shown|) && t.rows == Gather(shown, t.ids)
    requires forall v :: v in ids ==> v in s.pos[c] || v in s.neg[c]
    ensures |t.ids| == |t.rows| && (|ids| > 0 ==> |t.rows| > 0) && InRange(ids, |s.feats|)
    ensures GetFeat(t, ids) == Gather(shown, ids)
  {
    BatchIds(s, c, t, ids);
    hide ExactIds, StrictlySorted, GetFeat;
    FeatRight(shown, t, ids);
  }

  lemma TableMails(s: Side, c: nat, t: Table, ref: seq<Row>, ids: seq<nat>)
    requires ExactIds(s, c, t) && |ref| == |s.feats| && InRange(t.ids, |ref|)
    requires forall v :: v in ids ==> v in s.pos[c] || v in s.neg[c]
    ensures (|ids| > 0 ==> |t.ids| > 0) && InRange(ids, |ref|)
    ensures GetMails(t.ids, Gather(ref, t.ids), ids) == Gather(ref, ids)
  {
    BatchIds(s, c, t, ids);
    hide ExactIds, StrictlySorted, GetMails;
    MailsRight(ref, t.ids, ids);
  }

  lemma BatchIds(s: Side, c: nat, t: Table, ids: seq<nat>)
    requires ExactIds(s, c, t) && forall v :: v in ids ==> v in s.pos[c] || v in s.neg[c]
    ensures StrictlySorted(t.ids) && InRange(t.ids, |s.feats|) && |t.rows| == |t.ids|
    ensures forall k :: 0 <= k < |ids| ==> ids[k] in t.ids
    ensures forall x :: x in ids ==> x in t.ids
  {
    forall k | 0 <= k < |ids| ensures ids[k] in t.ids {
      assert ids[k] in ids;
    }
  }

  /** Neither process ever waits for the other in vain: before the last block, the trainer can call, or the worker
      can work, or the trainer can switch; and after it nothing is outstanding. */
  lemma NeverStuck(e: Env, s: State)
    requires Inv(e, s)
    ensures |s.inbox| + |s.outbox| <= 1
    ensures s.t.cur < |e.roots| ==> Enabled(e, s, Call) || Enabled(e, s, Switch) || |s.inbox| == 1
    ensures s.t.cur == |e.roots| ==> s.inbox == [] && s.outbox == [] && !s.t.asked
    ensures |s.outbox| == 1 ==> s.outbox[0].block == s.t.cur
    ensures |s.inbox| == 1 ==> s.inbox[0].block == s.t.cur
  {
    hide GoodEnv, TrainerOk, WorkerOk, DueFlush, HandedOk, Needed;
    Bounds(e, s);
  }

  // ------------------------------------------------------------------------------ the log of requests

  /** The batches of each block that has been entered. */
  function Trained(acts: seq<Action>): (blocks: seq<seq<Action>>)
    ensures |blocks| > 0
  {
    if |acts| == 0 then [[]]
    else
      var pre, last := Trained(acts[..|acts| - 1]), acts[|acts| - 1];
      if last.Train? then pre[..|pre| - 1] + [pre[|pre| - 1] + [last]]
      else if last.Switch? then pre + [[]]
      else pre
  }

  /** All requests so far: one for each block that was entered or is wanted, and each as it is due with what had been
      written when the block before was entered. */
  ghost predicate LogOk(e: Env, s: State)
    requires GoodEnv(e) && 0 < s.t.cur <= |e.roots| && |s.ref| == |e.nodes.feats|
  {
    && |s.refs| == s.t.cur && (forall c :: 0 <= c < |s.refs| ==> |s.refs[c]| == |e.nodes.feats|)
    && |s.sent| == (if e.useAsync then Min(s.t.cur, |e.roots| - 1) else if s.t.asked then s.t.cur else s.t.cur - 1)
    && (s.t.asked ==> s.t.cur < |e.roots|)
    && (forall k :: 0 <= k < |s.sent| ==> s.sent[k] == Due(e, k + 1, s.refs[k]))
    && (s.t.cur < |e.roots| ==> DueFlush(e, s.t.cur - 1, s.ref) == DueFlush(e, s.t.cur - 1, s.refs[s.t.cur - 1]))
  }

  lemma StartLog(e: Env, store: seq<Row>)
    requires GoodEnv(e) && |store| == |e.nodes.feats|
    ensures GoodEnv(e) && Start(e, store).t.cur == 1 <= |e.roots| && |Start(e, store).ref| == |e.nodes.feats|
    ensures LogOk(e, Start(e, store))
  {
    hide GoodEnv, Inv, Start, Due, DueFlush;
    BothGood(e);
    StartFacts(e, store);
    StartOk(e, store);
    var s := Start(e, store);
    NeverStuck(e, s);
    StartInbox(e, store);
  }

  lemma StartInbox(e: Env, store: seq<Row>)
    requires GoodEnv(e) && |store| == |e.nodes.feats|
    ensures var s := Start(e, store);
      if e.useAsync && 1 < |e.roots| then s.inbox == [Due(e, 1, store)] else s.inbox == []
  {
    hide GoodEnv, GoodSide, FirstOf, Needed;
    BothGood(e);
    FirstOk(e, e.nodes);
    FirstOk(e, e.edges);
  }

  lemma LogKeeps(e: Env, s: State, a: Action)
    requires Inv(e, s) && Enabled(e, s, a)
    requires GoodEnv(e) && 0 < s.t.cur <= |e.roots| && |s.ref| == |e.nodes.feats| && LogOk(e, s)
    ensures 0 < After(e, s, a).t.cur <= |e.roots| && |After(e, s, a).ref| == |e.nodes.feats|
    ensures LogOk(e, After(e, s, a))
  {
    hide GoodEnv, Inv, After, Due, DueFlush, Scatter;
    match a
    case Train(ids, rows) => LogTrain(e, s, ids, rows);
    case Call =>
      CallMoves(e, s);
      SameDue(e, s.t.cur, s.ref, s.refs[s.t.cur - 1]);
    case Work(junk) => WorkMoves(e, s, junk);
    case Switch =>
      SwitchMoves(e, s);
      SwitchAsked(e, s);
  }

  lemma SwitchAsked(e: Env, s: State)
    requires Inv(e, s) && |s.outbox| == 1
    ensures e.useAsync || s.t.asked
  {
  }

  lemma SameDue(e: Env, b: nat, ref1: seq<Row>, ref2: seq<Row>)
    requires GoodEnv(e) && 0 < b < |e.roots| && |ref1| == |ref2| == |e.nodes.feats|
    requires DueFlush(e, b - 1, ref1) == DueFlush(e, b - 1, ref2)
    ensures Due(e, b, ref1) == Due(e, b, ref2)
  {
  }

  lemma LogTrain(e: Env, s: State, ids: seq<nat>, rows: seq<Row>)
    requires Inv(e, s) && Enabled(e, s, Train(ids, rows))
    requires GoodEnv(e) && 0 < s.t.cur <= |e.roots| && |s.ref| == |e.nodes.feats| && LogOk(e, s)
    ensures var r := After(e, s, Train(ids, rows));
      0 < r.t.cur <= |e.roots| && |r.ref| == |e.nodes.feats| && LogOk(e, r)
  {
    hide GoodEnv, Inv, After, Due, DueFlush, Scatter;
    TrainMoves(e, s, ids, rows);
    TrainInTable(e, s, ids, rows);
    if s.t.cur < |e.roots| {
      FlushUntouched(e, s.t.cur - 1, s.ref, ids, rows);
    }
  }

  ghost predicate WrittenBy(store: seq<Row>, acts: seq<Action>, ref: seq<Row>) {
    (forall k :: 0 <= k < |acts| ==> Writes(acts[k], |store|)) && ref == Written(store, acts)
  }

  /** The reference table, now and at the entry of each block, is what the batches before have written. */
  ghost predicate RefsOk(store: seq<Row>, blocks: seq<seq<Action>>, ref: seq<Row>, refs: seq<seq<Row>>) {
    && |refs| == |blocks| && WrittenBy(store, Concat(blocks), ref)
    && forall c :: 0 <= c < |refs| ==> WrittenBy(store, Concat(blocks[..c]), refs[c])
  }

  lemma RefsTrain(store: seq<Row>, blocks: seq<seq<Action>>, ref: seq<Row>, refs: seq<seq<Row>>, a: Action)
    requires RefsOk(store, blocks, ref, refs) && |blocks| > 0 && a.Train? && Writes(a, |store|)
    ensures |ref| == |store|
    ensures RefsOk(store, blocks[..|blocks| - 1] + [blocks[|blocks| - 1] + [a]], Scatter(ref, a.ids, a.rows), refs)
  {
    hide WrittenBy, Writes, Scatter, Concat;
    var m := |blocks| - 1;
    var longer := blocks[..m] + [blocks[m] + [a]];
    LongerBlock(blocks, a);
    WrittenSize(store, Concat(blocks), ref);
    WrittenNext(store, Concat(blocks), ref, a);
    forall c | 0 <= c < |refs| ensures WrittenBy(store, Concat(longer[..c]), refs[c]) {
      assert longer[..c] == blocks[..c];
    }
  }

  lemma LongerBlock(blocks: seq<seq<Action>>, a: Action)
    requires |blocks| > 0
    ensures Concat(blocks[..|blocks| - 1] + [blocks[|blocks| - 1] + [a]]) == Concat(blocks) + [a]
  {
    var m := |blocks| - 1;
    var longer := blocks[..m] + [blocks[m] + [a]];
    assert longer[..m] == blocks[..m];
  }

  lemma WrittenSize(store: seq<Row>, acts: seq<Action>, ref: seq<Row>)
    requires WrittenBy(store, acts, ref)
    ensures |ref| == |store|
  {
  }

  lemma WrittenNext(store: seq<Row>, acts: seq<Action>, ref: seq<Row>, a: Action)
    requires WrittenBy(store, acts, ref) && a.Train? && Writes(a, |store|)
    ensures |ref| == |store| && WrittenBy(store, acts + [a], Scatter(ref, a.ids, a.rows))
  {
    hide Writes, Scatter;
    var longer := acts + [a];
    assert longer[..|longer| - 1] == acts;
  }

  lemma RefsSwitch(store: seq<Row>, blocks: seq<seq<Action>>, ref: seq<Row>, refs: seq<seq<Row>>)
    requires RefsOk(store, blocks, ref, refs)
    ensures RefsOk(store, blocks + [[]], ref, refs + [ref])
  {
    hide WrittenBy;
    var more := blocks + [[]];
    assert more[..|blocks|] == blocks;
    assert Concat(more) == Concat(blocks);
    forall c | 0 <= c < |more| ensures WrittenBy(store, Concat(more[..c]), (refs + [ref])[c]) {
      assert c < |blocks| ==> more[..c] == blocks[..c];
    }
  }

  /** The log of a run, and what it has to do with the batches. */
  lemma {:induction false} RunLog(e: Env, store: seq<Row>, acts: seq<Action>)
    requires GoodEnv(e) && |store| == |e.nodes.feats| && Run(e, store, acts).Reached?
    ensures var s := Run(e, store, acts).s;
      && 0 < s.t.cur <= |e.roots| && |s.ref| == |e.nodes.feats| && LogOk(e, s)
      && |Trained(acts)| == s.t.cur && RefsOk(store, Trained(acts), s.ref, s.refs)
  {
    hide GoodEnv, Inv, After, Run, Enabled, Start, LogOk, Scatter, Writes, RefsOk;
    RunStep(e, store, acts);
    if |acts| == 0 {
      StartLog(e, store);
      StartFacts(e, store);
      StartRefs(store);
    } else {
      var pre, last := acts[..|acts| - 1], acts[|acts| - 1];
      RunLog(e, store, pre);
      LogKeeps(e, Run(e, store, pre).s, last);
      RefsStep(e, store, Run(e, store, pre).s, Trained(pre), last);
    }
  }

  lemma StartRefs(store: seq<Row>)
    ensures RefsOk(store, [[]], store, [store])
  {
    ConcatEmpty<Action>();
    var blocks: seq<seq<Action>> := [[]];
    assert blocks[..0] == [] && Concat(blocks) == [];
  }

  lemma RefsStep(e: Env, store: seq<Row>, s: State, blocks: seq<seq<Action>>, a: Action)
    requires Inv(e, s) && Enabled(e, s, a) && |s.ref| == |store|
    requires |blocks| == s.t.cur && 0 < s.t.cur && RefsOk(store, blocks, s.ref, s.refs)
    ensures var longer := if a.Train? then blocks[..|blocks| - 1] + [blocks[|blocks| - 1] + [a]]
        else if a.Switch? then blocks + [[]] else blocks;
      var r := After(e, s, a);
      |longer| == r.t.cur && RefsOk(store, longer, r.ref, r.refs)
  {
    hide GoodEnv, Inv, After, Scatter, Writes, RefsOk, Enabled, Due;
    match a
    case Train(ids, rows) =>
      TrainMoves(e, s, ids, rows);
      StepWrites(e, s, a);
      RefsTrain(store, blocks, s.ref, s.refs, a);
    case Call => CallMoves(e, s);
    case Work(junk) => WorkMoves(e, s, junk);
    case Switch =>
      SwitchMoves(e, s);
      RefsSwitch(store, blocks, s.ref, s.refs);
  }

  /** Both runs have entered the first `k` blocks and the one after, with the same batches in those. */
  ghost predicate SameBatches(acts1: seq<Action>, acts2: seq<Action>, k: nat) {
    k <= |Trained(acts1)| && k <= |Trained(acts2)| && Trained(acts1)[..k] == Trained(acts2)[..k]
  }

  /** The worker gets the same arguments whether prefetching is asynchronous or not, and however the processes
      interleave: the requests number `k` of any two runs agree if the runs have the same batches in the first
      `k` blocks. */
  lemma ModesAgree(e1: Env, e2: Env, store: seq<Row>, acts1: seq<Action>, acts2: seq<Action>, k: nat)
    requires GoodEnv(e1) && GoodEnv(e2) && e1.(useAsync := e2.useAsync) == e2 && |store| == |e1.nodes.feats|
    requires Run(e1, store, acts1).Reached? && Run(e2, store, acts2).Reached?
    requires k < |Run(e1, store, acts1).s.sent| && k < |Run(e2, store, acts2).s.sent| && SameBatches(acts1, acts2, k)
    ensures Run(e1, store, acts1).s.sent[k] == Run(e2, store, acts2).s.sent[k]
  {
    hide GoodEnv, Run, Due;
    RunLog(e1, store, acts1);
    RunLog(e2, store, acts2);
    var s1, s2 := Run(e1, store, acts1).s, Run(e2, store, acts2).s;
    assert s1.refs[k] == s2.refs[k] by {
      SameRefs(store, Trained(acts1), Trained(acts2), s1.ref, s2.ref, s1.refs, s2.refs, k);
    }
    DueAgrees(e1, e2, k + 1, s1.refs[k]);
  }

  lemma SameRefs(store: seq<Row>, blocks1: seq<seq<Action>>, blocks2: seq<seq<Action>>, ref1: seq<Row>, ref2: seq<Row>,
                 refs1: seq<seq<Row>>, refs2: seq<seq<Row>>, k: nat)
    requires RefsOk(store, blocks1, ref1, refs1) && RefsOk(store, blocks2, ref2, refs2)
    requires k < |blocks1| && k < |blocks2| && blocks1[..k] == blocks2[..k]
    ensures |refs1| == |blocks1| && |refs2| == |blocks2| && refs1[k] == refs2[k]
  {
  }

  lemma DueAgrees(e1: Env, e2: Env, b: nat, ref: seq<Row>)
    requires GoodEnv(e1) && GoodEnv(e2) && e1.(useAsync := e2.useAsync) == e2
    requires 0 < b < |e1.roots| && |ref| == |e1.nodes.feats|
    ensures Due(e1, b, ref) == Due(e2, b, ref)
  {
    BothGood(e1);
    hide GoodEnv, Needed;
  }

  /** How many requests there are: each block but the first is asked for once. */
  lemma RequestCount(e: Env, store: seq<Row>, acts: seq<Action>)
    requires GoodEnv(e) && |store| == |e.nodes.feats| && Run(e, store, acts).Reached?
    ensures var s := Run(e, store, acts).s;
      && |s.sent| == (if e.useAsync then Min(s.t.cur, |e.roots| - 1) else if s.t.asked then s.t.cur else s.t.cur - 1)
      && forall k :: 0 <= k < |s.sent| ==> s.sent[k].block == k + 1
  {
    RunLog(e, store, acts);
    hide GoodEnv, Run;
  }
}
