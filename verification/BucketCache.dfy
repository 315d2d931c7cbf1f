/** The bucket cache: feature rows of often needed ids, planned offline per segment of blocks
    (feat_buffer.py, `gen_part_stream`) and refreshed online at the first block of a segment
    (pre_fetch.py, `pre_fetch`). Only the rows whose id changes are written. */
module BucketCache {
  import opened Tensors

  // ---------------------------------------------------------------------------------- the plan

  /** What the plan stores for one refresh: which slots change, the ids they get, and the new index. */
  datatype Refresh = Refresh(mask: seq<bool>, ids: seq<nat>, idx: seq<nat>)

  /** `pre_notin_cur` */
  function Changed(pre: seq<nat>, cur: seq<nat>): (mask: seq<bool>)
    ensures |mask| == |pre|
    ensures forall i :: 0 <= i < |pre| ==> (mask[i] <==> pre[i] !in cur)
  {
    Not(Isin(pre, cur))
  }

  /** `cache_nid[cur_notin_pre]` */
  function Incoming(pre: seq<nat>, cur: seq<nat>): (ids: seq<nat>)
  {
    Select(cur, Changed(cur, pre))
  }

  lemma IncomingMembers(pre: seq<nat>, cur: seq<nat>)
    requires Distinct(cur)
    ensures Distinct(Incoming(pre, cur)) && forall x :: x in Incoming(pre, cur) <==> x in cur && x !in pre
  {
    SelectDistinct(cur, Changed(cur, pre));
    SelectMembers(cur, Changed(cur, pre));
    forall x | x in cur && x !in pre ensures x in Incoming(pre, cur) {
      var i :| 0 <= i < |cur| && cur[i] == x;
      assert Changed(cur, pre)[i];
    }
  }

  /** Old and new cache have equally many ids; then the two masks select equally many. */
  lemma EquallyMany(pre: seq<nat>, cur: seq<nat>)
    requires Distinct(pre) && Distinct(cur) && |pre| == |cur|
    ensures |Nonzero(Changed(pre, cur))| == |Incoming(pre, cur)|
  {
    IncomingMembers(pre, cur);
    IncomingMembers(cur, pre);
    hide Incoming, Distinct, Changed, Nonzero;
    LeavingCount(pre, cur);
    CountDifference(pre, cur, Incoming(pre, cur), Incoming(cur, pre));
  }

  lemma LeavingCount(pre: seq<nat>, cur: seq<nat>)
    ensures |Nonzero(Changed(pre, cur))| == |Incoming(cur, pre)|
  {
  }

  lemma CountDifference(pre: seq<nat>, cur: seq<nat>, come: seq<nat>, leave: seq<nat>)
    requires Distinct(pre) && Distinct(cur) && |pre| == |cur| && Distinct(come) && Distinct(leave)
    requires forall x :: x in come <==> x in cur && x !in pre
    requires forall x :: x in leave <==> x in pre && x !in cur
    ensures |come| == |leave|
  {
    JoinDistinct(pre, come);
    JoinDistinct(cur, leave);
    assert Members(pre + come) == Members(cur + leave);
  }

  /** The refresh from index `pre` to the newly chosen ids `cur`. */
  function PlanRefresh(pre: seq<nat>, cur: seq<nat>): (r: Refresh)
    requires Distinct(pre) && Distinct(cur) && |pre| == |cur|
  {
    EquallyMany(pre, cur);
    var mask := Changed(pre, cur);
    Refresh(mask, Incoming(pre, cur), Scatter(pre, Nonzero(mask), Incoming(pre, cur)))
  }

  /** The new index holds exactly the newly chosen ids, once each, and survivors keep their slots. */
  lemma RefreshIsNew(pre: seq<nat>, cur: seq<nat>)
    requires Distinct(pre) && Distinct(cur) && |pre| == |cur|
    ensures var idx := PlanRefresh(pre, cur).idx;
      && |idx| == |pre| && Distinct(idx) && (forall x :: x in idx <==> x in cur)
      && forall j :: 0 <= j < |pre| && pre[j] in cur ==> idx[j] == pre[j]
  {
    var r := PlanRefresh(pre, cur);
    EquallyMany(pre, cur);
    IncomingMembers(pre, cur);
    var places := Nonzero(r.mask);
    hide Incoming, Nonzero, Changed;
    forall j: nat | j < |pre| ensures SlotAfter(pre, cur, r, places, j) {
      SlotIs(pre, cur, r, places, j);
    }
    hide Scatter, PlanRefresh;
    NewIndexDistinct(pre, cur, r, places);
    NewIndexMembers(pre, cur, r, places);
  }

  /** The incoming ids are taken in the order in which they were chosen, and fill the changed slots from the front. */
  lemma RefreshOrder(pre: seq<nat>, cur: seq<nat>, i: nat, j: nat)
    requires Distinct(pre) && Distinct(cur) && |pre| == |cur|
    requires i < j < |PlanRefresh(pre, cur).ids|
    ensures var r := PlanRefresh(pre, cur);
      && |Nonzero(r.mask)| == |r.ids| && |r.mask| == |r.idx| && r.idx[Nonzero(r.mask)[i]] == r.ids[i]
      && Nonzero(r.mask)[i] < Nonzero(r.mask)[j] && 0 <= IndexOf(cur, r.ids[i]) < IndexOf(cur, r.ids[j])
  {
    var places := Nonzero(Changed(cur, pre));
    EquallyMany(pre, cur);
    IndexOfUnique(cur, cur[places[i]], places[i]);
    IndexOfUnique(cur, cur[places[j]], places[j]);
  }

  /** Slot `j` after the refresh: as before if its id stays, or else the incoming id written there. */
  ghost predicate SlotAfter(pre: seq<nat>, cur: seq<nat>, r: Refresh, places: seq<nat>, j: nat)
    requires j < |pre|
  {
    && |r.idx| == |pre| && |places| == |r.ids|
    && (pre[j] in cur ==> j !in places && r.idx[j] == pre[j])
    && (pre[j] !in cur ==> j in places && exists k :: 0 <= k < |places| && places[k] == j && r.idx[j] == r.ids[k])
  }

  lemma SlotIs(pre: seq<nat>, cur: seq<nat>, r: Refresh, places: seq<nat>, j: nat)
    requires Distinct(pre) && Distinct(cur) && |pre| == |cur| && j < |pre|
    requires r == PlanRefresh(pre, cur) && places == Nonzero(r.mask)
    ensures SlotAfter(pre, cur, r, places, j)
  {
    EquallyMany(pre, cur);
    if pre[j] !in cur {
      assert r.mask[j];
      var k :| 0 <= k < |places| && places[k] == j;
      assert r.idx[places[k]] == r.ids[k];
    } else {
      assert !r.mask[j];
    }
  }

  lemma NewIndexDistinct(pre: seq<nat>, cur: seq<nat>, r: Refresh, places: seq<nat>)
    requires Distinct(pre) && Distinct(r.ids) && |r.idx| == |pre| && |places| == |r.ids|
    requires forall x :: x in r.ids ==> x in cur && x !in pre
    requires forall j: nat :: j < |pre| ==> SlotAfter(pre, cur, r, places, j)
    ensures Distinct(r.idx)
  {
    forall i, j | 0 <= i < j < |r.idx| ensures r.idx[i] != r.idx[j] {
      assert SlotAfter(pre, cur, r, places, i) && SlotAfter(pre, cur, r, places, j);
      assert pre[i] in pre && pre[j] in pre;
    }
  }

  lemma NewIndexMembers(pre: seq<nat>, cur: seq<nat>, r: Refresh, places: seq<nat>)
    requires |r.idx| == |pre| && |places| == |r.ids| && InRange(places, |pre|)
    requires forall k :: 0 <= k < |places| ==> r.idx[places[k]] == r.ids[k]
    requires forall x :: x in r.ids <==> x in cur && x !in pre
    requires forall j: nat :: j < |pre| ==> SlotAfter(pre, cur, r, places, j)
    ensures forall x :: x in r.idx <==> x in cur
  {
    forall x | x in cur ensures x in r.idx {
      if x in pre {
        var j :| 0 <= j < |pre| && pre[j] == x;
        assert SlotAfter(pre, cur, r, places, j);
      } else {
        var k :| 0 <= k < |r.ids| && r.ids[k] == x;
        assert r.idx[places[k]] == x;
      }
    }
    forall x | x in r.idx ensures x in cur {
      var j :| 0 <= j < |r.idx| && r.idx[j] == x;
      assert SlotAfter(pre, cur, r, places, j);
    }
  }

  // ------------------------------------------------------------------------------- the refresh

  /** Every slot of the cache holds the row of the id that the index names for it. */
  ghost predicate Coherent(feats: seq<Row>, feat: seq<Row>, idx: seq<nat>) {
    InRange(idx, |feats|) && feat == Gather(feats, idx)
  }

  /** Writing the rows of the incoming ids into the changed slots makes the cache hold the new index. */
  lemma RefreshCoherent(feats: seq<Row>, feat: seq<Row>, pre: seq<nat>, cur: seq<nat>)
    requires Distinct(pre) && Distinct(cur) && |pre| == |cur|
    requires Coherent(feats, feat, pre) && InRange(cur, |feats|)
    ensures var r := PlanRefresh(pre, cur);
      && |r.mask| == |feat| && |Nonzero(r.mask)| == |r.ids| && InRange(r.ids, |feats|)
      && Coherent(feats, Scatter(feat, Nonzero(r.mask), Gather(feats, r.ids)), r.idx)
  {
    var r := PlanRefresh(pre, cur);
    EquallyMany(pre, cur);
    IncomingMembers(pre, cur);
    hide Incoming, Changed;
    IdsInRange(r.ids, cur, |feats|);
    ScatterGather(feats, feat, pre, Nonzero(r.mask), r.ids);
  }

  lemma IdsInRange(ids: seq<nat>, cur: seq<nat>, n: nat)
    requires InRange(cur, n) && forall x :: x in ids ==> x in cur
    ensures InRange(ids, n)
  {
    forall k | 0 <= k < |ids| ensures ids[k] < n {
      assert ids[k] in ids;
    }
  }

  /** Looking rows up and assigning by place can be done in either order. */
  lemma {:induction false} ScatterGather(feats: seq<Row>, feat: seq<Row>, idx: seq<nat>, places: seq<nat>,
      ids: seq<nat>)
    requires Coherent(feats, feat, idx) && InRange(places, |idx|) && InRange(ids, |feats|) && |places| == |ids|
    ensures Coherent(feats, Scatter(feat, places, Gather(feats, ids)), Scatter(idx, places, ids))
  {
    if |places| > 0 {
      var n := |places| - 1;
      ScatterGather(feats, feat, idx, places[..n], ids[..n]);
      assert Gather(feats, ids)[..n] == Gather(feats, ids[..n]);
    }
  }

  /** The cache fields of the worker, for nodes or for edges. */
  class Cache {
    var idxMap: seq<nat>
    const feat: array<Row>
    ghost const feats: seq<Row>

    ghost predicate Valid()
      reads this, feat
    {
      Distinct(idxMap) && Coherent(feats, feat[..], idxMap)
    }

    /** `init_bucket_cache`: the rows of the first segment. */
    constructor (idx: seq<nat>, rows: array<Row>, ghost all: seq<Row>)
      requires Distinct(idx) && Coherent(all, rows[..], idx)
      ensures Valid() && idxMap == idx && feat == rows && feats == all
    {
      idxMap, feat, feats := idx, rows, all;
    }

    /** The refresh in `pre_fetch`, with what the plan's files hold for this block. */
    method Switch(mask: seq<bool>, incre: seq<Row>, idx: seq<nat>, ghost cur: seq<nat>)
      requires Valid() && Distinct(cur) && |cur| == |idxMap| && InRange(cur, |feats|)
      requires idx == PlanRefresh(idxMap, cur).idx && mask == PlanRefresh(idxMap, cur).mask
      requires InRange(PlanRefresh(idxMap, cur).ids, |feats|) && incre == Gather(feats, PlanRefresh(idxMap, cur).ids)
      modifies this`idxMap, feat
      ensures Valid() && idxMap == idx && forall x :: x in idxMap <==> x in cur
    {
      RefreshCoherent(feats, feat[..], idxMap, cur);
      RefreshIsNew(idxMap, cur);
      hide PlanRefresh, Scatter, Nonzero;
      idxMap := idx;
      IndexPut(feat, Nonzero(mask), incre);
    }
  }

  // ----------------------------------------------------------------------------- what is looked up

  /** What `gen_part_stream` stores for a block: which of its ids are cached, which the block before had, and
      the slots of the cached ones. */
  function InCache(ids: seq<nat>, idx: seq<nat>): (mask: seq<bool>)
    ensures |mask| == |ids|
    ensures forall i :: 0 <= i < |ids| ==> (mask[i] <==> ids[i] in idx)
  {
    Isin(ids, idx)
  }

  /** `find_indices(ids[pos_in_cache], idx)` */
  function CacheIndices(ids: seq<nat>, idx: seq<nat>): (slots: seq<nat>)
    ensures |slots| == |Nonzero(InCache(ids, idx))| && InRange(slots, |idx|)
    ensures forall k :: 0 <= k < |slots| ==> idx[slots[k]] == ids[Nonzero(InCache(ids, idx))[k]]
  {
    var cached := Select(ids, InCache(ids, idx));
    assert forall k :: 0 <= k < |cached| ==> InCache(ids, idx)[Nonzero(InCache(ids, idx))[k]];
    assert |cached| > 0 ==> cached[0] in idx;
    FindIndices(cached, idx)
  }

  /** Through the planned slots a coherent cache gives the rows of the cached ids. */
  lemma CachedRowsRight(feats: seq<Row>, feat: seq<Row>, ids: seq<nat>, idx: seq<nat>)
    requires Coherent(feats, feat, idx) && InRange(ids, |feats|)
    ensures InRange(CacheIndices(ids, idx), |feat|)
    ensures Gather(feat, CacheIndices(ids, idx)) == Gather(feats, Select(ids, InCache(ids, idx)))
  {
  }

  // ------------------------------------------------------------------------------- the missing half

  /** Whether the refresh of this block takes place: the node half stands behind a test for the file of the edge
      half, which is written only for data with edge features. */
  predicate Refreshes(segmentStart: bool, hasEdgeFeats: bool) {
    segmentStart && hasEdgeFeats
  }

  /** The node cache at the first block of a segment. */
  function AfterSegmentStart(feats: seq<Row>, feat: seq<Row>, pre: seq<nat>, cur: seq<nat>,
                             hasEdgeFeats: bool): (r: seq<Row>)
    requires Distinct(pre) && Distinct(cur) && |pre| == |cur|
    requires Coherent(feats, feat, pre) && InRange(cur, |feats|)
  {
    RefreshCoherent(feats, feat, pre, cur);
    var r := PlanRefresh(pre, cur);
    if Refreshes(true, hasEdgeFeats) then Scatter(feat, Nonzero(r.mask), Gather(feats, r.ids)) else feat
  }

  /** The blocks of the new segment are planned for the new index. Where rows tell their nodes apart, the node
      cache serves them right exactly if there are edge features or no cached id changes. */
  lemma NodeCacheSwitches(feats: seq<Row>, feat: seq<Row>, pre: seq<nat>, cur: seq<nat>, hasEdgeFeats: bool)
    requires Distinct(pre) && Distinct(cur) && |pre| == |cur| && Distinct(feats)
    requires Coherent(feats, feat, pre) && InRange(cur, |feats|)
    ensures Coherent(feats, AfterSegmentStart(feats, feat, pre, cur, hasEdgeFeats), PlanRefresh(pre, cur).idx) <==>
      hasEdgeFeats || forall x :: x in pre ==> x in cur
  {
    hide PlanRefresh, Scatter, Nonzero, Coherent, Distinct;
    RefreshCoherent(feats, feat, pre, cur);
    RefreshIsNew(pre, cur);
    var idx := PlanRefresh(pre, cur).idx;
    if !hasEdgeFeats {
      if x :| x in pre && x !in cur {
        OldRow(feats, feat, pre, idx, IndexOf(pre, x));
      } else {
        SameSlots(pre, cur, idx);
      }
    }
  }

  /** A cache that holds the old index does not hold one with another id in some slot. */
  lemma OldRow(feats: seq<Row>, feat: seq<Row>, pre: seq<nat>, idx: seq<nat>, j: nat)
    requires Coherent(feats, feat, pre) && Distinct(feats) && |idx| == |pre| && j < |pre| && idx[j] != pre[j]
    ensures !Coherent(feats, feat, idx)
  {
    assert feat[j] == feats[pre[j]];
    assert InRange(idx, |feats|) ==> Gather(feats, idx)[j] != feat[j];
  }

  lemma SameSlots(pre: seq<nat>, cur: seq<nat>, idx: seq<nat>)
    requires |idx| == |pre| && forall x :: x in pre ==> x in cur
    requires forall j :: 0 <= j < |pre| && pre[j] in cur ==> idx[j] == pre[j]
    ensures idx == pre
  {
    assert forall j :: 0 <= j < |pre| ==> pre[j] in pre;
  }

  /** Two nodes, one slot: without edge features the second segment reads node 1 and gets the row of node 0. */
  lemma StaleNodeCache()
    ensures var feats := [Row([0.0]), Row([1.0])];
      && Coherent(feats, [feats[0]], [0])
      && !Coherent(feats, AfterSegmentStart(feats, [feats[0]], [0], [1], false), PlanRefresh([0], [1]).idx)
  {
    var feats := [Row([0.0]), Row([1.0])];
    assert feats[0].values[0] != feats[1].values[0];
    assert Gather(feats, [0]) == [feats[0]];
    assert 0 in [0];
    NodeCacheSwitches(feats, [feats[0]], [0], [1], false);
  }
}
