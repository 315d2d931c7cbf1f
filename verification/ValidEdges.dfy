/** Online replay of the edge slots (pre_fetch.py, `update_valid_edge` and `get_ef_valid`): every block
    writes the features of its edges into the slots the offline pass chose, over whatever was there. */
module ValidEdges {
  import opened Tensors
  import opened EdgeSlots

  /** The files of the offline pass, and the slot count it reported. */
  ghost predicate Planned(r: Run, bounds: seq<Bounds>, picks: seq<seq<nat>>, maxNum: nat) {
    && GoodRun(r) && Listed(r, |r.masks|, bounds, picks)
    && |Concat(picks)| == r.edgeNum && InRange(Concat(picks), maxNum)
    && SafeUpTo(r, |r.masks|, Concat(picks))
  }

  /** The slots of all edges that have arrived when `b` blocks have been replayed. */
  lemma {:induction false} ArrivedSlots(r: Run, bounds: seq<Bounds>, picks: seq<seq<nat>>, b: nat)
    requires 0 < r.size && Listed(r, |r.masks|, bounds, picks) && b <= |picks|
    ensures |Concat(picks[..b])| == Bound(r, b)
    ensures Concat(picks[..b]) <= Concat(picks)
  {
    if b > 0 {
      ArrivedSlots(r, bounds, picks, b - 1);
      assert picks[..b][..b - 1] == picks[..b - 1];
    }
    ConcatPrefix(picks, b);
  }

  // ---------------------------------------------------------------------------- who is in use when

  /** The block an edge arrives in. */
  lemma {:induction false} ArrivalBlock(r: Run, e: nat, b: nat) returns (c: nat)
    requires 0 < r.size && e < Bound(r, b)
    ensures c < b && Bound(r, c) <= e < Bound(r, c + 1)
  {
    if e < Bound(r, b - 1) {
      c := ArrivalBlock(r, e, b - 1);
    } else {
      c := b - 1;
    }
  }

  lemma {:induction false} ExpiredStays(r: Run, c: nat, b: nat, i: nat)
    requires GoodRun(r) && c <= b <= |r.masks| && i < |r.totaleid|
    ensures |Before(r, c)| == |Before(r, b)| == |r.totaleid|
    ensures Before(r, c)[i] ==> Before(r, b)[i]
  {
    BeforeFits(r, c);
    BeforeFits(r, b);
    if c < b {
      ExpiredStays(r, c, b - 1, i);
      assert GoodMask(r, b - 1);
    }
  }

  /** An edge in use has been in use in every block since it arrived. */
  lemma AliveBefore(r: Run, e: nat, c: nat, b: nat)
    requires GoodRun(r) && c <= b < |r.masks| && e < Bound(r, c + 1)
    requires |Before(r, c)| == |Before(r, b)| == |r.totaleid|
    requires Alive(r, b, e)
    ensures Alive(r, c, e)
  {
    CountSome(r.totaleid, Not(Before(r, b)), e);
    CountSome(r.totaleid, Not(Before(r, c)), e);
    var i :| 0 <= i < |r.totaleid| && Not(Before(r, b))[i] && r.totaleid[i] == e;
    ExpiredStays(r, c, b, i);
    assert Not(Before(r, c))[i];
  }

  /** Every edge is in use in the block it arrives in. */
  lemma AliveOnArrival(r: Run, e: nat, c: nat)
    requires GoodRun(r) && c < |r.masks| && Bound(r, c) <= e < Bound(r, c + 1)
    ensures |Before(r, c)| == |r.totaleid| && Alive(r, c, e)
  {
    BeforeFits(r, c);
    assert e in r.totaleid;
    var i :| 0 <= i < |r.totaleid| && r.totaleid[i] == e;
    assert Not(Before(r, c))[i];
    CountSome(r.totaleid, Not(Before(r, c)), e);
  }

  /** No later edge has taken the slot of an edge in use. */
  lemma SlotNotTaken(r: Run, slots: seq<nat>, b: nat, e: nat, f: nat)
    requires GoodRun(r) && b < |r.masks| && SafeUpTo(r, |r.masks|, slots) && |slots| == r.edgeNum
    requires |Before(r, b)| == |r.totaleid| && Alive(r, b, e) && e < f < Bound(r, b + 1)
    ensures slots[e] != slots[f]
  {
    var c := ArrivalBlock(r, f, b + 1);
    AliveOnArrival(r, f, c);
    AliveBefore(r, e, c, b);
    assert SafeAt(r, slots, c);
  }

  // -------------------------------------------------------------------------------------- the replay

  /** `valid_map` and `valid_ef` when the edges below `end` have been replayed. */
  ghost function MapAt(slots: seq<nat>, end: nat): (m: seq<nat>)
    requires end <= |slots|
    ensures |m| == |slots|
  {
    seq(|slots|, e requires 0 <= e < |slots| => if e < end then slots[e] else 0)
  }

  ghost function FeatsAt(slots: seq<nat>, feats: seq<Row>, maxNum: nat, zero: Row, end: nat): (ef: seq<Row>)
    requires end <= |slots| == |feats| && InRange(slots, maxNum)
    ensures |ef| == maxNum
  {
    Scatter(seq(maxNum, i => zero), slots[..end], feats[..end])
  }

  /** Replaying is faithful: when the blocks up to `b` have been replayed, every edge in use in block `b`
      reads its own feature. */
  lemma ReplayFaithful(r: Run, bounds: seq<Bounds>, picks: seq<seq<nat>>, maxNum: nat, feats: seq<Row>, zero: Row,
                       b: nat, e: nat)
    requires Planned(r, bounds, picks, maxNum) && |feats| == r.edgeNum && b < |r.masks|
    requires |Before(r, b)| == |r.totaleid| && Alive(r, b, e)
    ensures e < r.edgeNum && MapAt(Concat(picks), Bound(r, b + 1))[e] < maxNum
    ensures FeatsAt(Concat(picks), feats, maxNum, zero, Bound(r, b + 1))[MapAt(Concat(picks), Bound(r, b + 1))[e]]
      == feats[e]
  {
    var slots, end := Concat(picks), Bound(r, b + 1);
    forall f | e < f < end ensures slots[f] != slots[e] {
      SlotNotTaken(r, slots, b, e, f);
    }
    hide Planned, GoodRun, SafeUpTo, Alive, Bound;
    ScatterLast(seq(maxNum, i => zero), slots[..end], feats[..end], e);
  }

  /** The part of `Pre_fetch` that holds the features of edges in use. */
  class ValidStore {
    const run: Run
    const bounds: seq<Bounds>
    const picks: seq<seq<nat>>
    const maxNum: nat
    const feats: seq<Row>
    const zero: Row
    const validMap: array<nat>
    const validEf: array<Row>
    ghost var done: nat

    /** `done` blocks have been replayed. */
    ghost predicate Valid()
      reads this, validMap, validEf
    {
      && Planned(run, bounds, picks, maxNum) && |feats| == run.edgeNum && done <= |run.masks|
      && validMap[..] == MapAt(Concat(picks), Bound(run, done))
      && validEf[..] == FeatsAt(Concat(picks), feats, maxNum, zero, Bound(run, done))
    }

    /** `init_valid_edge`: the first block is replayed at once. */
    constructor (r: Run, bs: seq<Bounds>, ps: seq<seq<nat>>, m: nat, fs: seq<Row>, z: Row)
      requires Planned(r, bs, ps, m) && |fs| == r.edgeNum && 0 < |r.masks|
      ensures Valid() && done == 1
      ensures run == r && bounds == bs && picks == ps && maxNum == m && feats == fs && zero == z
    {
      run, bounds, picks, maxNum, feats, zero := r, bs, ps, m, fs, z;
      validMap := new nat[r.edgeNum](_ => 0);
      validEf := new Row[m](_ => z);
      done := 0;
      new;
      assert Bound(r, 0) == 0;
      assert validMap[..] == MapAt(Concat(ps), 0);
      assert validEf[..] == FeatsAt(Concat(ps), fs, m, z, 0);
      UpdateValidEdge(0);
    }

    /** `reset_valid_edge` */
    method ResetValidEdge()
      requires Valid() && 0 < |run.masks|
      modifies this`done, validMap, validEf
      ensures Valid() && done == 1
    {
      hide Planned, Bound, Scatter;
      StartBound(run);
      PlannedParts(run, bounds, picks, maxNum);
      forall i | 0 <= i < validEf.Length { validEf[i] := zero; }
      forall i | 0 <= i < validMap.Length { validMap[i] := 0; }
      done := 0;
      assert validMap[..] == MapAt(Concat(picks), 0);
      assert validEf[..] == FeatsAt(Concat(picks), feats, maxNum, zero, 0) by {
        NothingReplayed(Concat(picks), feats, maxNum, zero);
      }
      UpdateValidEdge(0);
    }

    /** `update_valid_edge` */
    method UpdateValidEdge(blockNum: nat)
      requires Valid() && blockNum == done < |run.masks|
      modifies this`done, validMap, validEf
      ensures Valid() && done == old(done) + 1
    {
      hide Planned, FeatsAt, MapAt, Bound, Scatter, Concat;
      ReplayStep(run, bounds, picks, maxNum, blockNum);
      var bound := bounds[blockNum];
      MapStep(Concat(picks), bound.start, bound.end);
      FeatsStep(Concat(picks), feats, maxNum, zero, bound.start, bound.end);
      var validInd := EdgeRange(bound.start, bound.end);
      var curEf := Gather(feats, validInd);
      var replaceIdx := picks[blockNum];
      IndexPut(validMap, validInd, replaceIdx);
      IndexPut(validEf, replaceIdx, curEf);
      done := done + 1;
    }

    /** `get_ef_valid`. Edges in use in the block replayed last read their own features. */
    method GetEfValid(eids: seq<nat>) returns (rows: seq<Row>)
      requires Valid() && InRange(eids, run.edgeNum)
      requires 0 < maxNum
      ensures |rows| == |eids|
      ensures forall k | 0 <= k < |eids| ::
        eids[k] < validMap.Length && validMap[eids[k]] < validEf.Length && rows[k] == validEf[validMap[eids[k]]]
      ensures forall k | 0 <= k < |eids| && 0 < done && |Before(run, done - 1)| == |run.totaleid|
        && Alive(run, done - 1, eids[k]) :: rows[k] == feats[eids[k]]
    {
      SlotsInRange(run, bounds, picks, maxNum, done);
      GatherInRange(validMap[..], eids, maxNum);
      rows := Gather(validEf[..], Gather(validMap[..], eids));
      forall k | 0 <= k < |eids| && 0 < done && |Before(run, done - 1)| == |run.totaleid|
        && Alive(run, done - 1, eids[k]) ensures rows[k] == feats[eids[k]]
      {
        ReplayFaithful(run, bounds, picks, maxNum, feats, zero, done - 1, eids[k]);
      }
    }
  }

  lemma PlannedParts(r: Run, bounds: seq<Bounds>, picks: seq<seq<nat>>, maxNum: nat)
    requires Planned(r, bounds, picks, maxNum)
    ensures |Concat(picks)| == r.edgeNum && InRange(Concat(picks), maxNum)
  {
  }

  lemma StartBound(r: Run)
    ensures Bound(r, 0) == 0
  {
  }

  lemma NothingReplayed(slots: seq<nat>, feats: seq<Row>, maxNum: nat, zero: Row)
    requires |slots| == |feats| && InRange(slots, maxNum)
    ensures FeatsAt(slots, feats, maxNum, zero, 0) == seq(maxNum, i => zero)
  {
  }

  lemma SlotsInRange(r: Run, bounds: seq<Bounds>, picks: seq<seq<nat>>, maxNum: nat, b: nat)
    requires Planned(r, bounds, picks, maxNum) && 0 < maxNum
    ensures InRange(MapAt(Concat(picks), Bound(r, b)), maxNum)
  {
  }

  /** The places of the edges `start..end`. */
  function EdgeRange(start: nat, end: nat): (ind: seq<nat>)
    requires start <= end
    ensures |ind| == end - start && forall i :: 0 <= i < |ind| ==> ind[i] == start + i
  {
    seq(end - start, i => start + i)
  }

  lemma MapStep(slots: seq<nat>, start: nat, end: nat)
    requires start <= end <= |slots|
    ensures InRange(EdgeRange(start, end), |slots|)
    ensures Scatter(MapAt(slots, start), EdgeRange(start, end), slots[start..end]) == MapAt(slots, end)
  {
    var ind := EdgeRange(start, end);
    assert Distinct(ind);
    forall e: nat | e < |slots|
      ensures Scatter(MapAt(slots, start), ind, slots[start..end])[e] == MapAt(slots, end)[e]
    {
      if start <= e < end {
        assert ind[e - start] == e;
      }
    }
  }

  lemma FeatsStep(slots: seq<nat>, feats: seq<Row>, maxNum: nat, zero: Row, start: nat, end: nat)
    requires start <= end <= |slots| == |feats| && InRange(slots, maxNum)
    ensures InRange(slots[start..end], maxNum) && InRange(EdgeRange(start, end), |feats|)
    ensures Scatter(FeatsAt(slots, feats, maxNum, zero, start), slots[start..end], Gather(feats, EdgeRange(start, end)))
      == FeatsAt(slots, feats, maxNum, zero, end)
  {
    assert Gather(feats, EdgeRange(start, end)) == feats[start..end];
    assert slots[..start] + slots[start..end] == slots[..end];
    assert feats[..start] + feats[start..end] == feats[..end];
    hide Scatter;
    ScatterConcat(seq(maxNum, i => zero), slots[..start], feats[..start], slots[start..end], feats[start..end]);
  }

  /** One replayed block: the next edges get their slots and their features. */
  lemma ReplayStep(r: Run, bounds: seq<Bounds>, picks: seq<seq<nat>>, maxNum: nat, b: nat)
    requires Planned(r, bounds, picks, maxNum) && b < |r.masks|
    ensures |bounds| == |picks| == |r.masks| && |Concat(picks)| == r.edgeNum && InRange(Concat(picks), maxNum)
    ensures bounds[b] == Bounds(Bound(r, b), Bound(r, b + 1)) && Bound(r, b) <= Bound(r, b + 1)
    ensures picks[b] == Concat(picks)[Bound(r, b)..Bound(r, b + 1)]
  {
    ArrivedSlots(r, bounds, picks, b);
    ArrivedSlots(r, bounds, picks, b + 1);
    ConcatSlice(picks, b);
  }
}
