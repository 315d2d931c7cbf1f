/** The pipeline with edge features in shared slots: for every block that it prepares, the worker replays the
    block's slots (pre_fetch.py, `update_valid_edge`) and reads the features of negative edges through them
    (`get_ef_valid`). */
module PipelineEdges {
  import opened Tensors
  import opened BlockFeatures
  import opened BlockPipeline
  import opened PipelineRuns
  import EdgeSlots
  import ValidEdges

  /** What the offline pass leaves: its run, its files, and the number of slots. */
  datatype SlotPlan = SlotPlan(run: EdgeSlots.Run, bounds: seq<EdgeSlots.Bounds>, picks: seq<seq<nat>>, maxNum: nat)

  /** `valid_map` and `valid_ef` */
  datatype Slots = Slots(slotOf: seq<nat>, rows: seq<Row>)

  ghost predicate InUse(r: EdgeSlots.Run, b: nat, x: nat) {
    b < |r.masks| && |EdgeSlots.Before(r, b)| == |r.totaleid| && EdgeSlots.Alive(r, b, x)
  }

  /** The plan is for these edges and blocks, and what a block samples is in use in that block. */
  ghost predicate SlotsFor(e: Env, v: SlotPlan) {
    && GoodEnv(e) && v.run.edgeNum == |e.edges.feats| && |v.run.masks| == |e.roots|
    && ValidEdges.Planned(v.run, v.bounds, v.picks, v.maxNum)
    && |e.edges.neg| == |e.roots|
    && forall b, x :: 0 <= b < |e.roots| && x in e.edges.neg[b] ==> InUse(v.run, b, x)
  }

  // ------------------------------------------------------------------------------------ the replay

  ghost predicate CanReplay(e: Env, v: SlotPlan, s: Slots, b: nat) {
    && b < |v.bounds| == |v.picks| && v.bounds[b].start <= v.bounds[b].end
    && |v.picks[b]| == v.bounds[b].end - v.bounds[b].start
    && InRange(ValidEdges.EdgeRange(v.bounds[b].start, v.bounds[b].end), |s.slotOf|)
    && |s.slotOf| == |e.edges.feats| && InRange(v.picks[b], |s.rows|)
  }

  /** `update_valid_edge` */
  function Replay(e: Env, v: SlotPlan, s: Slots, b: nat): (s': Slots)
    requires CanReplay(e, v, s, b)
  {
    var arrived := ValidEdges.EdgeRange(v.bounds[b].start, v.bounds[b].end);
    Slots(Scatter(s.slotOf, arrived, v.picks[b]), Scatter(s.rows, v.picks[b], Gather(e.edges.feats, arrived)))
  }

  /** `init_valid_edge` and `reset_valid_edge`, before the first block is replayed. */
  function Blank(e: Env, v: SlotPlan): (s: Slots)
  {
    Slots(seq(|e.edges.feats|, x => 0), seq(v.maxNum, i => e.zero))
  }

  /** The slots when `m` blocks have been replayed. */
  ghost predicate Replayed(e: Env, v: SlotPlan, s: Slots, m: nat) {
    var slots, end := Concat(v.picks), EdgeSlots.Bound(v.run, m);
    && |slots| == |e.edges.feats| == v.run.edgeNum && InRange(slots, v.maxNum)
    && s.slotOf == ValidEdges.MapAt(slots, end)
    && s.rows == ValidEdges.FeatsAt(slots, e.edges.feats, v.maxNum, e.zero, end)
  }

  lemma BlankReplayed(e: Env, v: SlotPlan)
    requires SlotsFor(e, v)
    ensures Replayed(e, v, Blank(e, v), 0)
  {
    hide GoodEnv, Scatter, Concat;
    ValidEdges.PlannedParts(v.run, v.bounds, v.picks, v.maxNum);
    ValidEdges.StartBound(v.run);
    ValidEdges.NothingReplayed(Concat(v.picks), e.edges.feats, v.maxNum, e.zero);
  }

  /** One more block. */
  lemma ReplayNext(e: Env, v: SlotPlan, s: Slots, b: nat)
    requires SlotsFor(e, v) && Replayed(e, v, s, b) && b < |e.roots|
    ensures CanReplay(e, v, s, b) && Replayed(e, v, Replay(e, v, s, b), b + 1)
  {
    hide GoodEnv, Scatter, Concat, EdgeSlots.Bound, ValidEdges.Planned, ValidEdges.MapAt, ValidEdges.FeatsAt, InUse;
    ValidEdges.ReplayStep(v.run, v.bounds, v.picks, v.maxNum, b);
    var bound := v.bounds[b];
    ValidEdges.MapStep(Concat(v.picks), bound.start, bound.end);
    ValidEdges.FeatsStep(Concat(v.picks), e.edges.feats, v.maxNum, e.zero, bound.start, bound.end);
  }

  // -------------------------------------------------------------------------------------- whole runs

  /** The slots after a run: the first block is replayed at the start, and each block that is asked for in turn. */
  ghost function SlotsAfter(e: Env, store: seq<Row>, acts: seq<Action>, v: SlotPlan): (s: Slots)
    requires GoodEnv(e) && |store| == |e.nodes.feats|
  {
    if |acts| == 0 then
      if CanReplay(e, v, Blank(e, v), 0) then Replay(e, v, Blank(e, v), 0) else Blank(e, v)
    else
      var pre := acts[..|acts| - 1];
      var s := SlotsAfter(e, store, pre, v);
      match Run(e, store, pre)
      case Stuck => s
      case Reached(t) =>
        if acts[|acts| - 1].Work? && |t.inbox| == 1 && CanReplay(e, v, s, t.inbox[0].block)
        then Replay(e, v, s, t.inbox[0].block) else s
  }

  /** In every run exactly the blocks that have been prepared have been replayed, in order, and no replay fails. */
  lemma {:induction false} RunReplays(e: Env, store: seq<Row>, acts: seq<Action>, v: SlotPlan)
    requires SlotsFor(e, v) && |store| == |e.nodes.feats| && Run(e, store, acts).Reached?
    ensures var s := Run(e, store, acts).s;
      Replayed(e, v, SlotsAfter(e, store, acts, v), s.t.cur + |s.outbox|)
  {
    hide GoodEnv, Inv, Run, After, Enabled, Start, Replayed, Replay, CanReplay, SlotsFor, SlotsAfter;
    PlanGood(e, v);
    RunStep(e, store, acts);
    SlotsStep(e, store, acts, v);
    if |acts| == 0 {
      StartFacts(e, store);
      BlankReplayed(e, v);
      ReplayNext(e, v, Blank(e, v), 0);
    } else {
      var pre := acts[..|acts| - 1];
      RunReplays(e, store, pre, v);
      ReplayStep(e, Run(e, store, pre).s, acts[|acts| - 1], v, SlotsAfter(e, store, pre, v));
    }
  }

  lemma SlotsStep(e: Env, store: seq<Row>, acts: seq<Action>, v: SlotPlan)
    requires GoodEnv(e) && |store| == |e.nodes.feats|
    ensures |acts| == 0 && CanReplay(e, v, Blank(e, v), 0) ==>
      SlotsAfter(e, store, acts, v) == Replay(e, v, Blank(e, v), 0)
    ensures |acts| > 0 && Run(e, store, acts[..|acts| - 1]).Reached? ==>
      var s, t := SlotsAfter(e, store, acts[..|acts| - 1], v), Run(e, store, acts[..|acts| - 1]).s;
      SlotsAfter(e, store, acts, v)
      == if acts[|acts| - 1].Work? && |t.inbox| == 1 && CanReplay(e, v, s, t.inbox[0].block)
        then Replay(e, v, s, t.inbox[0].block) else s
  {
    hide GoodEnv, Inv, Run, Replay, CanReplay, Blank;
  }

  lemma PlanGood(e: Env, v: SlotPlan)
    requires SlotsFor(e, v)
    ensures GoodEnv(e) && |e.roots| > 0 && v.run.edgeNum == |e.edges.feats| && |v.run.masks| == |e.roots|
    ensures ValidEdges.Planned(v.run, v.bounds, v.picks, v.maxNum)
  {
    BothGood(e);
  }

  lemma ReplayStep(e: Env, t: State, a: Action, v: SlotPlan, s: Slots)
    requires SlotsFor(e, v) && Inv(e, t) && Enabled(e, t, a) && Replayed(e, v, s, t.t.cur + |t.outbox|)
    ensures a.Work? ==> |t.inbox| == 1 && CanReplay(e, v, s, t.inbox[0].block)
    ensures var r := After(e, t, a);
      Replayed(e, v, if a.Work? then Replay(e, v, s, t.inbox[0].block) else s, r.t.cur + |r.outbox|)
  {
    hide GoodEnv, Inv, After, Replayed, Replay, CanReplay, Due, SlotsFor;
    match a
    case Train(ids, rows) => TrainMoves(e, t, ids, rows);
    case Call => CallMoves(e, t);
    case Work(junk) =>
      assert |t.inbox| == 1;
      InboxDue(e, t);
      WorkMoves(e, t, junk);
      DueBlock(e, t.t.cur, t.ref);
      ReplayNext(e, v, s, t.t.cur);
    case Switch =>
      assert |t.outbox| == 1;
      SwitchMoves(e, t);
  }

  lemma DueBlock(e: Env, b: nat, ref: seq<Row>)
    requires GoodEnv(e) && 0 < b < |e.roots| && |ref| == |e.nodes.feats|
    ensures Due(e, b, ref).block == b && Due(e, b, ref).negEdges == e.edges.neg[b]
  {
  }

  /** Edges in use in the block that was prepared last read their own features through their slots. */
  lemma InUseReads(e: Env, v: SlotPlan, s: Slots, b: nat, x: nat)
    requires SlotsFor(e, v) && Replayed(e, v, s, b + 1) && InUse(v.run, b, x)
    ensures x < |e.edges.feats| == |s.slotOf| && s.slotOf[x] < |s.rows| && s.rows[s.slotOf[x]] == e.edges.feats[x]
  {
    PlanGood(e, v);
    hide GoodEnv, Concat, EdgeSlots.Bound, ValidEdges.Planned, ValidEdges.MapAt, ValidEdges.FeatsAt, EdgeSlots.Alive,
         SlotsFor;
    ValidEdges.ReplayFaithful(v.run, v.bounds, v.picks, v.maxNum, e.edges.feats, e.zero, b, x);
  }

  // ------------------------------------------------------------------------- what is read through slots

  ghost predicate Reads(s: Slots, ids: seq<nat>) {
    InRange(ids, |s.slotOf|) && InRange(s.slotOf, |s.rows|)
  }

  /** `get_ef_valid` */
  function GetValid(s: Slots, ids: seq<nat>): (rows: seq<Row>)
    requires Reads(s, ids)
    ensures |rows| == |ids| && forall i :: 0 <= i < |ids| ==> rows[i] == s.rows[s.slotOf[ids[i]]]
  {
    GatherInRange(s.slotOf, ids, |s.rows|);
    Gather(s.rows, Gather(s.slotOf, ids))
  }

  /** Edges in use in a block read their own features once the block is replayed. */
  lemma ValidRight(e: Env, v: SlotPlan, s: Slots, b: nat, ids: seq<nat>)
    requires SlotsFor(e, v) && Replayed(e, v, s, b + 1) && forall x :: x in ids ==> InUse(v.run, b, x)
    ensures InRange(ids, |e.edges.feats|) && Reads(s, ids) && GetValid(s, ids) == Gather(e.edges.feats, ids)
  {
    hide SlotsFor, InUse, Replayed;
    forall i | 0 <= i < |ids|
      ensures ids[i] < |e.edges.feats| == |s.slotOf| && s.slotOf[ids[i]] < |s.rows|
      ensures s.rows[s.slotOf[ids[i]]] == e.edges.feats[ids[i]]
    {
      assert ids[i] in ids;
      InUseReads(e, v, s, b, ids[i]);
    }
    SlotsInRange(e, v, s, b + 1);
  }

  lemma SlotsInRange(e: Env, v: SlotPlan, s: Slots, m: nat)
    requires SlotsFor(e, v) && Replayed(e, v, s, m)
    ensures |s.slotOf| == |e.edges.feats| && InRange(s.slotOf, |s.rows|)
  {
    hide GoodEnv, EdgeSlots.Bound, ValidEdges.Planned, SlotsFor, ValidEdges.FeatsAt, ValidEdges.MapAt;
    PlanGood(e, v);
    ValidEdges.PlannedParts(v.run, v.bounds, v.picks, v.maxNum);
    if |e.edges.feats| > 0 {
      var slots := Concat(v.picks);
      assert |slots| == v.run.edgeNum > 0;
      assert slots[0] < v.maxNum;
      ValidEdges.SlotsInRange(v.run, v.bounds, v.picks, v.maxNum, m);
    }
  }

  /** `pre_fetch` for edges with slots: the rows of all negative edges that the block does not have anyway are read
      through the slots, also those that the trainer will take from its own table. */
  function FetchValid(f: BlockFile, cacheFeat: seq<Row>, neg: seq<nat>, partMap: seq<nat>, dataIncre: bool, s: Slots,
                      zero: Row)
    : (h: Handed)
    requires FileOk(f, cacheFeat) && Reads(s, neg)
  {
    var dis := DisNeg(neg, f.pos);
    var dd := DdInd(dis, partMap, dataIncre);
    DisInRange(neg, f.pos, |s.slotOf|);
    var all := f.pos + dis;
    var order := ArgSort(all);
    var d := Not(f.inPre) + dd;
    Handed(Gather(all, order), Gather(PosRows(f, cacheFeat, zero) + GetValid(s, dis), order),
           Nonzero(Not(Gather(d, order))))
  }

  /** It differs from the fetch without slots at most in rows that the trainer replaces. */
  lemma SameFetch(f: BlockFile, cacheFeat: seq<Row>, neg: seq<nat>, partMap: seq<nat>, dataIncre: bool, s: Slots,
                  zero: Row, src: Source, feats: seq<Row>)
    requires FileOk(f, cacheFeat) && Reads(s, neg) && Loadable(src, neg) && Serves(src, feats) && InRange(neg, |feats|)
    requires GetValid(s, neg) == Gather(feats, neg)
    ensures var h := PreFetch(f, cacheFeat, neg, partMap, dataIncre, src, zero);
      var h' := FetchValid(f, cacheFeat, neg, partMap, dataIncre, s, zero);
      && h'.ids == h.ids && h'.dInd == h.dInd && |h'.rows| == |h.rows|
      && forall k :: 0 <= k < |h.rows| && k !in h.dInd ==> h'.rows[k] == h.rows[k]
  {
    hide PosRows, LoadTo, Select, DisNeg, GetValid, Nonzero, Serves, Loadable, DdInd;
    var dis := DisNeg(neg, f.pos);
    var dd := DdInd(dis, partMap, dataIncre);
    DisInRange(neg, f.pos, |s.slotOf|);
    DisInRange(neg, f.pos, |feats|);
    AllLoadable(src, feats, dis);
    LoadableParts(src, dis, dd);
    forall i: nat | i < |dis| && dd[i]
      ensures LoadTo(src, Zeros(|dis|, zero), Nonzero(dd), Select(dis, dd))[i] == GetValid(s, dis)[i]
    {
      LoadedAt(feats, dis, dd, src, zero, i);
      SameRow(neg, f.pos, s, feats, i);
    }
    SameWhereMarked(PosRows(f, cacheFeat, zero), Not(f.inPre),
                    LoadTo(src, Zeros(|dis|, zero), Nonzero(dd), Select(dis, dd)), GetValid(s, dis), dd,
                    ArgSort(f.pos + dis));
  }

  /** Rows that agree where they are marked agree in any order but at the places that are not marked. */
  lemma SameWhereMarked(a: seq<Row>, dA: seq<bool>, b: seq<Row>, b': seq<Row>, dB: seq<bool>, order: seq<nat>)
    requires |a| == |dA| && |b| == |b'| == |dB| && InRange(order, |a| + |b|)
    requires forall i: nat :: i < |dB| && dB[i] ==> b[i] == b'[i]
    ensures var rest := Nonzero(Not(Gather(dA + dB, order)));
      forall k :: 0 <= k < |order| && k !in rest ==> Gather(a + b, order)[k] == Gather(a + b', order)[k]
  {
    hide Nonzero;
    var d := Gather(dA + dB, order);
    forall k | 0 <= k < |order| && k !in Nonzero(Not(d)) ensures (a + b)[order[k]] == (a + b')[order[k]] {
      assert !Not(d)[k];
    }
  }

  lemma SameRow(neg: seq<nat>, pos: seq<nat>, s: Slots, feats: seq<Row>, i: nat)
    requires Reads(s, neg) && InRange(neg, |feats|) && GetValid(s, neg) == Gather(feats, neg)
    requires i < |DisNeg(neg, pos)| && Reads(s, DisNeg(neg, pos)) && InRange(DisNeg(neg, pos), |feats|)
    ensures GetValid(s, DisNeg(neg, pos))[i] == feats[DisNeg(neg, pos)[i]]
  {
    DisMembers(neg, pos);
    hide DisNeg;
    var x := DisNeg(neg, pos)[i];
    assert x in DisNeg(neg, pos);
    var j :| 0 <= j < |neg| && neg[j] == x;
    assert GetValid(s, neg)[j] == feats[neg[j]];
  }

  /** So the trainer makes the same table of it. */
  lemma SameOverlay(held: Table, h: Handed, h': Handed)
    requires |held.ids| == |held.rows| && Fits(held, h) && Distinct(h.dInd)
    requires h'.ids == h.ids && h'.dInd == h.dInd && |h'.rows| == |h.rows|
    requires forall k :: 0 <= k < |h.rows| && k !in h.dInd ==> h'.rows[k] == h.rows[k]
    ensures Fits(held, h') && Overlay(held, h') == Overlay(held, h)
  {
    hide Scatter, GetFeat;
    var vals := GetFeat(held, Gather(h.ids, h.dInd));
    forall k | 0 <= k < |h.rows| ensures Scatter(h'.rows, h.dInd, vals)[k] == Scatter(h.rows, h.dInd, vals)[k] {
      ScatterAt(h.rows, h.dInd, vals, k);
      ScatterAt(h'.rows, h.dInd, vals, k);
    }
  }

  // ----------------------------------------------------------------------------------- the composition

  /** What the worker hands over for edges, with its slots. */
  ghost predicate HandsEdges(e: Env, s: Slots, w: Worker, q: Request, held: Table) {
    && SideReady(e, e.edges, q.block, w.edgeFeat, q.negEdges) && Reads(s, q.negEdges)
    && FileOk(PlanBlock(e.edges.feats, BlockAt(e.edges, q.block)), RefreshFeat(e, e.edges, q.block, w.edgeFeat))
    && HandedOk(e, e.edges, q.block, held,
                FetchValid(PlanBlock(e.edges.feats, BlockAt(e.edges, q.block)),
                           RefreshFeat(e, e.edges, q.block, w.edgeFeat), q.negEdges, q.edgeIds, e.dataIncre, s, e.zero))
  }

  /** In every run, whenever the worker has a request: with the block's slots replayed, what it hands over for edges
      makes the trainer's next table, whose rows are the edges' own features. */
  lemma EdgesHandedOver(e: Env, store: seq<Row>, acts: seq<Action>, v: SlotPlan)
    requires SlotsFor(e, v) && |store| == |e.nodes.feats|
    requires Run(e, store, acts).Reached? && |Run(e, store, acts).s.inbox| == 1
    ensures var s, slots := Run(e, store, acts).s, SlotsAfter(e, store, acts, v);
      && CanReplay(e, v, slots, s.inbox[0].block)
      && HandsEdges(e, Replay(e, v, slots, s.inbox[0].block), s.w, s.inbox[0], s.t.edges)
  {
    hide GoodEnv, Run, SlotsAfter, Replay, CanReplay, Replayed, SlotsFor, HandsEdges, Inv, Due;
    PlanGood(e, v);
    RunReplays(e, store, acts, v);
    var s, slots := Run(e, store, acts).s, SlotsAfter(e, store, acts, v);
    InboxDue(e, s);
    DueBlock(e, s.t.cur, s.ref);
    ReplayNext(e, v, slots, s.t.cur);
    SampledInUse(e, v, s.t.cur);
    ValidRight(e, v, Replay(e, v, slots, s.t.cur), s.t.cur, e.edges.neg[s.t.cur]);
    StateHands(e, s, Replay(e, v, slots, s.t.cur));
  }

  lemma SampledInUse(e: Env, v: SlotPlan, b: nat)
    requires SlotsFor(e, v) && b < |e.roots|
    ensures |e.edges.neg| == |e.roots| && forall x :: x in e.edges.neg[b] ==> InUse(v.run, b, x)
  {
    hide GoodEnv, InUse, ValidEdges.Planned;
  }

  lemma StateHands(e: Env, s: State, slots: Slots)
    requires Inv(e, s) && |s.inbox| == 1 && GoodEnv(e) && s.t.cur < |e.roots| == |e.edges.neg|
    requires var neg := e.edges.neg[s.t.cur];
      Reads(slots, neg) && InRange(neg, |e.edges.feats|) && GetValid(slots, neg) == Gather(e.edges.feats, neg)
    ensures HandsEdges(e, slots, s.w, s.inbox[0], s.t.edges)
  {
    hide Inv, GoodSide, CacheRows, RefreshFeat, PlanBlock, FileOk, PreFetch, FetchValid, GetValid, Overlay, TableAt,
         Serves, Loadable, Distinct;
    var b := s.t.cur;
    InboxDue(e, s);
    Bounds(e, s);
    BothGood(e);
    TrainerFacts(e, s.t, s.ref);
    DueEdges(e, b, s.ref);
    hide GoodEnv, Due;
    PrepareOk(e, e.edges, b);
    var feat, neg := RefreshFeat(e, e.edges, b, s.w.edgeFeat), e.edges.neg[b];
    PrepareFits(e, e.edges, b, feat, neg, s.t.edges.ids);
    var f := PlanBlock(e.edges.feats, BlockAt(e.edges, b));
    var h := PreFetch(f, feat, neg, s.t.edges.ids, e.dataIncre, e.edges.source, e.zero);
    SideAt(e.edges, e.starts, b);
    SameFetch(f, feat, neg, s.t.edges.ids, e.dataIncre, slots, e.zero, e.edges.source, e.edges.feats);
    MarkedOnce(f, feat, neg, s.t.edges.ids, e.dataIncre, e.edges.source, e.zero);
    SameOverlay(s.t.edges, h, FetchValid(f, feat, neg, s.t.edges.ids, e.dataIncre, slots, e.zero));
  }

  lemma DueEdges(e: Env, b: nat, ref: seq<Row>)
    requires GoodEnv(e) && 0 < b < |e.roots| && |ref| == |e.nodes.feats|
    ensures |e.edges.neg| == |e.edges.pos| == |e.roots|
    ensures var q := Due(e, b, ref);
      q.block == b && q.negEdges == e.edges.neg[b] && q.edgeIds == Needed(e.edges, b - 1)
  {
    BothGood(e);
  }

  lemma MarkedOnce(f: BlockFile, cacheFeat: seq<Row>, neg: seq<nat>, partMap: seq<nat>, dataIncre: bool, src: Source,
                   zero: Row)
    requires FileOk(f, cacheFeat) && Loadable(src, neg)
    ensures Distinct(PreFetch(f, cacheFeat, neg, partMap, dataIncre, src, zero).dInd)
  {
    hide LoadTo, PosRows, DisNeg, FileOk, Loadable, Select;
  }

  /** The first block's table is right with slots too: its negative edges are read through the slots of that block. */
  lemma FirstEdgesRight(e: Env, v: SlotPlan, s: Slots)
    requires SlotsFor(e, v) && Replayed(e, v, s, 1) && GoodSide(e.edges, e.starts)
    ensures |e.starts| > 0 && |e.edges.neg| == |e.starts| && Reads(s, DisNeg(e.edges.neg[0], e.edges.pos[0]))
    ensures InRange(DisNeg(e.edges.neg[0], e.edges.pos[0]), |e.edges.feats|)
    ensures GetValid(s, DisNeg(e.edges.neg[0], e.edges.pos[0]))
      == Gather(e.edges.feats, DisNeg(e.edges.neg[0], e.edges.pos[0]))
  {
    PlanGood(e, v);
    SampledInUse(e, v, 0);
    DisMembers(e.edges.neg[0], e.edges.pos[0]);
    hide SlotsFor, GoodEnv, GoodSide, Replayed, InUse, DisNeg, GetValid;
    ValidRight(e, v, s, 0, DisNeg(e.edges.neg[0], e.edges.pos[0]));
  }
}
