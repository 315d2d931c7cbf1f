/** What is in the worker's store after an epoch, and which rows the device can show at all: both by runs that
    train nothing until the block in question. */
module PipelineRefresh {
  import opened Tensors
  import opened BucketCache
  import opened BlockFeatures
  import opened BlockPipeline
  import opened PipelineRuns

  // ---------------------------------------------------------------------------------- quiet runs

  /** From one block to the next without a batch. */
  function Round(e: Env): (acts: seq<Action>)
  {
    if e.useAsync then [Work([]), Switch] else [Call, Work([]), Switch]
  }

  /** The trainer is in block `c - 1` and not on its way to the next. */
  ghost predicate Settled(e: Env, store: seq<Row>, acts: seq<Action>, c: nat)
    requires GoodEnv(e) && |store| == |e.nodes.feats|
  {
    var r := Run(e, store, acts);
    r.Reached? && r.s.t.cur == c && 0 < c <= |e.roots| && !r.s.t.asked && r.s.outbox == []
  }

  lemma SettledAsks(e: Env, s: State)
    requires Inv(e, s) && !s.t.asked && s.outbox == [] && s.t.cur < |e.roots|
    ensures if e.useAsync then |s.inbox| == 1 else Enabled(e, s, Call)
  {
    hide GoodEnv, TrainerOk, WorkerOk, Due, DueFlush, ReplyOk;
    Bounds(e, s);
  }

  /** One block further, with the reference table as before, and with the rows that were due in the store. */
  ghost predicate OneOn(e: Env, s: State, r: State)
    requires GoodEnv(e)
  {
    && 0 < s.t.cur < |e.roots| && |s.ref| == |s.w.store| == |e.nodes.feats|
    && r.t.cur == s.t.cur + 1 && !r.t.asked && r.outbox == []
    && r.ref == s.ref && r.w.store == MemUpdate(s.w.store, DueFlush(e, s.t.cur - 1, s.ref))
  }

  lemma RoundRuns(e: Env, store: seq<Row>, acts: seq<Action>, c: nat)
    requires GoodEnv(e) && |store| == |e.nodes.feats| && c < |e.roots| && Settled(e, store, acts, c)
    ensures Settled(e, store, acts + Round(e), c + 1)
    ensures OneOn(e, Run(e, store, acts).s, Run(e, store, acts + Round(e)).s)
  {
    hide GoodEnv, Inv, Run, After, Enabled, DueFlush, Due, MemUpdate;
    var s := Run(e, store, acts).s;
    SettledAsks(e, s);
    var asking := if e.useAsync then acts else acts + [Call];
    if !e.useAsync {
      CallMoves(e, s);
      RunExtend(e, store, acts, Call);
    }
    WorkAndSwitch(e, store, asking);
    assert asking + [Work([])] + [Switch] == acts + Round(e);
  }

  lemma WorkAndSwitch(e: Env, store: seq<Row>, acts: seq<Action>)
    requires GoodEnv(e) && |store| == |e.nodes.feats|
    requires Run(e, store, acts).Reached? && |Run(e, store, acts).s.inbox| == 1
    ensures var r := Run(e, store, acts + [Work([])] + [Switch]);
      r.Reached? && OneOn(e, Run(e, store, acts).s, r.s)
  {
    hide GoodEnv, Inv, Run, After, DueFlush, Due, MemUpdate;
    var s := Run(e, store, acts).s;
    WorkMoves(e, s, []);
    RunExtend(e, store, acts, Work([]));
    var s1 := Run(e, store, acts + [Work([])]).s;
    SwitchMoves(e, s1);
    RunExtend(e, store, acts + [Work([])], Switch);
  }

  /** Into block `c - 1` without a batch. */
  function Quiet(e: Env, c: nat): (acts: seq<Action>)
  {
    if c <= 1 then [] else Quiet(e, c - 1) + Round(e)
  }

  /** Every block can be reached so, and nothing is written. */
  lemma {:induction false} QuietRuns(e: Env, store: seq<Row>, c: nat)
    requires GoodEnv(e) && |store| == |e.nodes.feats| && 0 < c <= |e.roots|
    ensures Settled(e, store, Quiet(e, c), c)
    ensures Run(e, store, Quiet(e, c)).s.ref == store && Run(e, store, Quiet(e, c)).s.w.store == store
  {
    hide GoodEnv, Inv, After, Start, DueFlush, Due, MemUpdate;
    if c == 1 {
      StartFacts(e, store);
    } else {
      hide Run;
      QuietRuns(e, store, c - 1);
      RoundRuns(e, store, Quiet(e, c - 1), c - 1);
      FlushNothing(e, c - 2, store);
    }
  }

  lemma FlushNothing(e: Env, c: nat, store: seq<Row>)
    requires GoodEnv(e) && c < |e.roots| && |store| == |e.nodes.feats|
    ensures MemUpdate(store, DueFlush(e, c, store)) == store
  {
    hide GoodEnv, DueFlush, MemUpdate;
    forall v: nat | v < |store| ensures MemUpdate(store, DueFlush(e, c, store))[v] == store[v] {
      FlushedAt(e, c, store, store, v);
    }
  }

  // -------------------------------------------------------------------------- the store afterwards

  lemma EndFits(e: Env, s: State)
    requires Inv(e, s)
    ensures |s.t.mem| == |s.t.nodes.ids| && InRange(s.t.nodes.ids, |s.w.store|) && |s.ref| == |s.w.store|
  {
    hide GoodEnv, Channels, WorkerOk, TrainerOk;
    Bounds(e, s);
    TrainerFacts(e, s.t, s.ref);
  }

  /** `refresh_memory`: the memory on the device goes into the store. */
  function Refreshed(e: Env, s: State): (store: seq<Row>)
    requires Inv(e, s)
    ensures |store| == |s.ref|
  {
    EndFits(e, s);
    Scatter(s.w.store, s.t.nodes.ids, s.t.mem)
  }

  /** The epoch is over. */
  ghost predicate Ends(e: Env, store: seq<Row>, acts: seq<Action>)
    requires GoodEnv(e) && |store| == |e.nodes.feats|
  {
    Run(e, store, acts).Reached? && Run(e, store, acts).s.t.cur == |e.roots|
  }

  /** `v` is a root of the last block but one, and the last block does not need it. */
  predicate Dropped(e: Env, v: nat) {
    var n := |e.roots|;
    n >= 2 && |e.nodes.pos| == |e.nodes.neg| == n
    && v in e.roots[n - 2] && v !in e.nodes.pos[n - 1] && v !in e.nodes.neg[n - 1]
  }

  /** The rows due with the request for a block that does not exist are not sent. All others are in the store after
      the refresh. */
  lemma RefreshMemory(e: Env, s: State, v: nat)
    requires Inv(e, s) && s.t.cur == |e.roots| && v < |s.ref| && !Dropped(e, v)
    ensures Refreshed(e, s)[v] == s.ref[v]
  {
    hide GoodEnv, Channels, Needed;
    NeverStuck(e, s);
    Bounds(e, s);
    BothGood(e);
    TrainerFacts(e, s.t, s.ref);
    if v in e.roots[|e.roots| - 1] {
      RootsInTable(e, s.t, s.ref, v);
    }
    EndFits(e, s);
    ScatterOwn(s.w.store, s.ref, s.t.nodes.ids, v);
  }

  /** A run that loses the row of `v`: it writes it in the last block but one. */
  lemma LosingRun(e: Env, store: seq<Row>, v: nat, row: Row)
    requires GoodEnv(e) && |store| == |e.nodes.feats| && v < |store| && Dropped(e, v)
    ensures var acts := Quiet(e, |e.roots| - 1) + [Train([v], [row])] + Round(e);
      && Ends(e, store, acts) && |Run(e, store, acts).s.ref| == |store| && Run(e, store, acts).s.ref[v] == row
      && Refreshed(e, Run(e, store, acts).s)[v] == store[v]
  {
    hide GoodEnv, Inv, After, Run, Enabled, Due, DueFlush, MemUpdate;
    var n := |e.roots|;
    var quiet := Quiet(e, n - 1);
    QuietRuns(e, store, n - 1);
    var s := Run(e, store, quiet).s;
    TrainOne(e, s, v, row);
    RunExtend(e, store, quiet, Train([v], [row]));
    var trained := quiet + [Train([v], [row])];
    var s1 := Run(e, store, trained).s;
    RoundRuns(e, store, trained, n - 1);
    FlushedAt(e, n - 2, s1.w.store, s1.ref, v);
    NotOnDevice(e, Run(e, store, trained + Round(e)).s, v);
  }

  lemma TrainOne(e: Env, s: State, v: nat, row: Row)
    requires Inv(e, s) && 0 < s.t.cur <= |e.roots| && !s.t.asked && v in e.roots[s.t.cur - 1]
    ensures Enabled(e, s, Train([v], [row])) && v < |s.ref|
    ensures var r := After(e, s, Train([v], [row]));
      && r == s.(t := s.t.(mem := r.t.mem), ref := r.ref) && r.ref == s.ref[v := row]
  {
    hide GoodEnv, TrainerOk, Channels, WorkerOk, Scatter;
    Bounds(e, s);
    RootsInTable(e, s.t, s.ref, v);
    TrainMoves(e, s, [v], [row]);
    ScatterOne(s.ref, v, row);
  }

  lemma ScatterOne(ref: seq<Row>, v: nat, row: Row)
    requires v < |ref|
    ensures Scatter(ref, [v], [row]) == ref[v := row]
  {
    assert [v][..0] == [] && [row][..0] == [];
  }

  lemma NotOnDevice(e: Env, s: State, v: nat)
    requires Inv(e, s) && s.t.cur == |e.roots| && v < |s.ref| && Dropped(e, v)
    ensures |s.ref| == |s.w.store| && Refreshed(e, s)[v] == s.w.store[v]
  {
    hide GoodEnv, Channels, WorkerOk, TrainerOk, Needed;
    Bounds(e, s);
    TrainerFacts(e, s.t, s.ref);
    EndFits(e, s);
    NeededMembers(e.nodes, |e.roots| - 1, v);
  }

  lemma NeededMembers(s: Side, b: nat, x: nat)
    requires b < |s.pos| == |s.neg|
    ensures x in Needed(s, b) <==> x in s.pos[b] || x in s.neg[b]
  {
  }

  lemma EndBounds(e: Env, store: seq<Row>, acts: seq<Action>)
    requires GoodEnv(e) && |store| == |e.nodes.feats| && Run(e, store, acts).Reached?
    ensures |Run(e, store, acts).s.ref| == |store|
  {
    Bounds(e, Run(e, store, acts).s);
    hide GoodEnv, Run, Inv;
  }

  /** After `refresh_memory` the store has what was last written to `v`, in every run that ends, if and only if `v` is
      not such a node. */
  lemma RefreshedIff(e: Env, store: seq<Row>, v: nat)
    requires GoodEnv(e) && |store| == |e.nodes.feats| && v < |store|
    ensures forall acts :: Ends(e, store, acts) ==> |Run(e, store, acts).s.ref| == |store|
    ensures (forall acts :: Ends(e, store, acts) ==>
        Refreshed(e, Run(e, store, acts).s)[v] == Run(e, store, acts).s.ref[v])
      <==> !Dropped(e, v)
  {
    hide GoodEnv, Run, Inv, Refreshed, Quiet, Round, Dropped;
    forall acts | Ends(e, store, acts) ensures |Run(e, store, acts).s.ref| == |store| {
      EndBounds(e, store, acts);
    }
    if Dropped(e, v) {
      var row := Row(store[v].values + [0.0]);
      LosingRun(e, store, v, row);
      assert row != store[v];
    } else {
      forall acts | Ends(e, store, acts)
        ensures Refreshed(e, Run(e, store, acts).s)[v] == Run(e, store, acts).s.ref[v]
      {
        RefreshMemory(e, Run(e, store, acts).s, v);
      }
    }
  }

  // ---------------------------------------------------------------------------- the row that is left

  /** The first of the blocks in a row, up to `c`, that have `v` as a root. */
  function Stretch(e: Env, v: nat, c: nat): (f: nat)
    requires c < |e.roots|
    ensures f <= c
  {
    if c > 0 && v in e.roots[c - 1] then Stretch(e, v, c - 1) else c
  }

  /** While rows of `v` wait to be sent, the store has what `v` had when that stretch of blocks began. */
  ghost predicate Waits(e: Env, s: State, v: nat) {
    var c := s.t.cur - 1;
    && 0 < s.t.cur <= |e.roots| && |s.refs| == s.t.cur && v < |s.w.store|
    && (forall b :: 0 <= b < |s.refs| ==> v < |s.refs[b]|)
    && (v in e.roots[c] ==> s.w.store[v] == s.refs[Stretch(e, v, c)][v])
    && (c > 0 && s.outbox == [] && v in e.roots[c - 1] && v !in e.roots[c] ==>
      s.w.store[v] == s.refs[Stretch(e, v, c - 1)][v])
  }

  lemma {:induction false} RunWaits(e: Env, store: seq<Row>, acts: seq<Action>, v: nat)
    requires GoodEnv(e) && |store| == |e.nodes.feats| && Run(e, store, acts).Reached? && v < |store|
    ensures Waits(e, Run(e, store, acts).s, v)
  {
    hide GoodEnv, Inv, Run, After, Enabled, Start, Waits;
    RunStep(e, store, acts);
    if |acts| == 0 {
      StartWaits(e, store, v);
    } else {
      var pre := acts[..|acts| - 1];
      RunWaits(e, store, pre, v);
      WaitsStep(e, Run(e, store, pre).s, acts[|acts| - 1], v);
    }
  }

  lemma StartWaits(e: Env, store: seq<Row>, v: nat)
    requires GoodEnv(e) && |store| == |e.nodes.feats| && v < |store|
    ensures Waits(e, Start(e, store), v)
  {
    hide GoodEnv, Start;
    StartFacts(e, store);
    BothGood(e);
  }

  lemma WaitsStep(e: Env, s: State, a: Action, v: nat)
    requires Inv(e, s) && Enabled(e, s, a) && Waits(e, s, v)
    ensures Waits(e, After(e, s, a), v)
  {
    hide GoodEnv, Inv, After, Due, DueFlush, MemUpdate, Scatter, StoreOk;
    match a
    case Train(ids, rows) => TrainMoves(e, s, ids, rows);
    case Call => CallMoves(e, s);
    case Work(junk) =>
      WorkMoves(e, s, junk);
      FlushedAt(e, s.t.cur - 1, s.w.store, s.ref, v);
    case Switch =>
      SwitchMoves(e, s);
      SentAlready(e, s, v);
  }

  lemma SentAlready(e: Env, s: State, v: nat)
    requires Inv(e, s) && |s.outbox| == 1 && v < |s.w.store|
    ensures |s.ref| == |s.w.store| && 0 < s.t.cur <= |e.roots|
    ensures v !in e.roots[s.t.cur - 1] ==> s.w.store[v] == s.ref[v]
  {
    hide Inv, GoodEnv, TrainerOk, ReplyOk, CacheRows;
    OutboxReply(e, s);
    Bounds(e, s);
  }

  /** The refreshed store after any run that ends. A dropped node is left with what it had when the last stretch of
      blocks began that have it as a root; every other node has what was written last. */
  lemma RowLeft(e: Env, store: seq<Row>, acts: seq<Action>, v: nat)
    requires GoodEnv(e) && |store| == |e.nodes.feats| && Ends(e, store, acts) && v < |store|
    ensures var s := Run(e, store, acts).s;
      && |s.refs| == |e.roots| && |s.ref| == |store|
      && if Dropped(e, v) then
          var f := Stretch(e, v, |e.roots| - 2);
          |s.refs[f]| == |store| && Refreshed(e, s)[v] == s.refs[f][v]
        else Refreshed(e, s)[v] == s.ref[v]
  {
    hide GoodEnv, Run, Inv, Refreshed, RefsOk, Due, DueFlush, Enabled;
    var s, n := Run(e, store, acts).s, |e.roots|;
    RunLog(e, store, acts);
    RunWaits(e, store, acts, v);
    EndBounds(e, store, acts);
    if Dropped(e, v) {
      NeverStuck(e, s);
      NotOnDevice(e, s, v);
      RootsAt(e, n - 1);
    } else {
      RefreshMemory(e, s, v);
    }
  }

  /** The blocks whose batches the store will know of, as far as `v` goes. */
  function Lasting(e: Env, v: nat, blocks: seq<seq<Action>>): (lasting: seq<seq<Action>>)
    requires |blocks| == |e.roots|
  {
    if Dropped(e, v) then blocks[..Stretch(e, v, |e.roots| - 2)] else blocks
  }

  /** After the refresh, the row of `v` is the one that these batches wrote last. */
  ghost predicate LeftBy(e: Env, s: State, store: seq<Row>, blocks: seq<seq<Action>>, v: nat)
    requires Inv(e, s)
  {
    && v < |store| == |s.ref| && (forall k :: 0 <= k < |Concat(blocks)| ==> Writes(Concat(blocks)[k], |store|))
    && Refreshed(e, s)[v] == Written(store, Concat(blocks))[v]
  }

  /** The same in terms of the batches: a dropped node is left with what the batches of the blocks before that stretch
      have written. */
  lemma RowLeftByBatches(e: Env, store: seq<Row>, acts: seq<Action>, v: nat)
    requires GoodEnv(e) && |store| == |e.nodes.feats| && Ends(e, store, acts) && v < |store|
    ensures |Trained(acts)| == |e.roots|
    ensures LeftBy(e, Run(e, store, acts).s, store, Lasting(e, v, Trained(acts)), v)
  {
    hide GoodEnv, Run, Inv, Refreshed, LogOk, Writes, Concat, Trained, Stretch, Dropped;
    RunLog(e, store, acts);
    RowLeft(e, store, acts, v);
    DroppedRoots(e, v);
  }

  lemma DroppedRoots(e: Env, v: nat)
    ensures Dropped(e, v) ==> |e.roots| >= 2
  {
  }

  // ---------------------------------------------------------------------------- features in all runs

  /** Some block needs a node whose row is stale by then. */
  ghost predicate SomeStale(e: Env)
    requires GoodEnv(e) && |e.nodes.pos| == |e.nodes.neg| == |e.nodes.idx| == |e.roots|
    requires forall b :: 0 <= b < |e.nodes.idx| ==> |e.nodes.idx[b]| == |e.nodes.idx[0]|
  {
    exists c: nat, x: nat :: c < |e.roots| && (x in e.nodes.pos[c] || x in e.nodes.neg[c]) && Stale(e, e.nodes, c, x)
  }

  ghost predicate ShowsFeatures(e: Env, store: seq<Row>, acts: seq<Action>)
    requires GoodEnv(e) && |store| == |e.nodes.feats|
  {
    Run(e, store, acts).Reached? ==> Right(e.nodes.feats, Run(e, store, acts).s.t.nodes)
  }

  /** The device's node rows are the features in every state of every run if and only if no block needs a stale
      row. */
  lemma AllRunsRight(e: Env, store: seq<Row>)
    requires GoodEnv(e) && |store| == |e.nodes.feats| && Distinct(e.nodes.feats)
    ensures |e.nodes.pos| == |e.nodes.neg| == |e.nodes.idx| == |e.roots|
    ensures forall b :: 0 <= b < |e.nodes.idx| ==> |e.nodes.idx[b]| == |e.nodes.idx[0]|
    ensures (forall acts :: ShowsFeatures(e, store, acts)) <==> !SomeStale(e)
  {
    BothGood(e);
    IndexLengths(e.nodes, e.starts);
    hide GoodEnv, GoodSide, Run, Inv, Stale, Distinct, ShowsFeatures, Quiet;
    if SomeStale(e) {
      var c: nat, x: nat :| c < |e.roots| && (x in e.nodes.pos[c] || x in e.nodes.neg[c]) && Stale(e, e.nodes, c, x);
      StaleShown(e, store, c, x);
    } else {
      forall acts ensures ShowsFeatures(e, store, acts) {
        ShowsNoneStale(e, store, acts);
      }
    }
  }

  lemma StaleShown(e: Env, store: seq<Row>, c: nat, x: nat)
    requires GoodEnv(e) && |store| == |e.nodes.feats| && Distinct(e.nodes.feats)
    requires |e.nodes.pos| == |e.nodes.neg| == |e.nodes.idx| == |e.roots| && c < |e.roots|
    requires forall b :: 0 <= b < |e.nodes.idx| ==> |e.nodes.idx[b]| == |e.nodes.idx[0]|
    requires (x in e.nodes.pos[c] || x in e.nodes.neg[c]) && Stale(e, e.nodes, c, x)
    ensures !ShowsFeatures(e, store, Quiet(e, c + 1))
  {
    hide GoodEnv, GoodSide, Run, Inv, Stale, Distinct, Quiet, ShowsFeatures;
    QuietRuns(e, store, c + 1);
    ShowsStale(e, store, Quiet(e, c + 1), x);
  }

  lemma ShowsStale(e: Env, store: seq<Row>, acts: seq<Action>, x: nat)
    requires GoodEnv(e) && |store| == |e.nodes.feats| && Distinct(e.nodes.feats)
    requires |e.nodes.pos| == |e.nodes.neg| == |e.nodes.idx| == |e.roots|
    requires forall b :: 0 <= b < |e.nodes.idx| ==> |e.nodes.idx[b]| == |e.nodes.idx[0]|
    requires Run(e, store, acts).Reached? && 0 < Run(e, store, acts).s.t.cur <= |e.roots|
    requires var c := Run(e, store, acts).s.t.cur - 1;
      (x in e.nodes.pos[c] || x in e.nodes.neg[c]) && Stale(e, e.nodes, c, x)
    ensures !ShowsFeatures(e, store, acts)
  {
    hide GoodEnv, GoodSide, Run, Inv, Stale, Distinct, StrictlySorted;
    StateRight(e, Run(e, store, acts).s);
    var t := Run(e, store, acts).s.t.nodes;
    var i: nat :| i < |t.ids| && t.ids[i] == x;
    RowRightIff(e, store, acts, i);
  }

  lemma ShowsNoneStale(e: Env, store: seq<Row>, acts: seq<Action>)
    requires GoodEnv(e) && |store| == |e.nodes.feats|
    requires |e.nodes.pos| == |e.nodes.neg| == |e.nodes.idx| == |e.roots|
    requires forall b :: 0 <= b < |e.nodes.idx| ==> |e.nodes.idx[b]| == |e.nodes.idx[0]|
    requires !SomeStale(e)
    ensures ShowsFeatures(e, store, acts)
  {
    if Run(e, store, acts).Reached? {
      RowsRight(e, store, acts);
    }
  }

  lemma RowsRight(e: Env, store: seq<Row>, acts: seq<Action>)
    requires GoodEnv(e) && |store| == |e.nodes.feats|
    requires |e.nodes.pos| == |e.nodes.neg| == |e.nodes.idx| == |e.roots|
    requires forall b :: 0 <= b < |e.nodes.idx| ==> |e.nodes.idx[b]| == |e.nodes.idx[0]|
    requires !SomeStale(e) && Run(e, store, acts).Reached?
    ensures Right(e.nodes.feats, Run(e, store, acts).s.t.nodes)
  {
    hide GoodEnv, GoodSide, Run, Inv, Stale, StrictlySorted;
    StateRight(e, Run(e, store, acts).s);
    var t := Run(e, store, acts).s.t.nodes;
    forall i: nat | i < |t.ids| ensures t.rows[i] == e.nodes.feats[t.ids[i]] {
      RowRightIff(e, store, acts, i);
      assert t.ids[i] in t.ids;
    }
  }
}
