/** Offline slot assignment for edge features (preprocess/memory_preprocess.py, `gen_expire`) and its
    online replay (pre_fetch.py, `update_valid_edge` and `get_ef_valid`). Every block brings new edges.
    An edge may leave once the last of its entries in the temporal graph has expired; its slot is then
    free for a later edge. */
module EdgeSlots {
  import opened Common
  import opened Tensors

  /** The value of a map entry that holds no edge: the largest 32-bit integer. */
  const INF: int := 0x7FFF_FFFF

  /** How often edge `e` occurs among the marked entries. */
  function Count(totaleid: seq<nat>, mask: seq<bool>, e: nat): (c: nat)
    requires |totaleid| == |mask|
  {
    if |totaleid| == 0 then 0
    else
      var n := |totaleid| - 1;
      Count(totaleid[..n], mask[..n], e) + (if mask[n] && totaleid[n] == e then 1 else 0)
  }

  /** `expired ^ expired_clone` */
  function Xor(a: seq<bool>, b: seq<bool>): (r: seq<bool>)
    requires |a| == |b|
  {
    seq(|a|, i requires 0 <= i < |a| => a[i] != b[i])
  }

  ghost predicate Subset(a: seq<bool>, b: seq<bool>) {
    |a| == |b| && forall i :: 0 <= i < |a| && a[i] ==> b[i]
  }

  /** The entries not expired before are those not expired now and those that expired in between. */
  lemma {:induction false} CountSplit(totaleid: seq<nat>, before: seq<bool>, now: seq<bool>, e: nat)
    requires |totaleid| == |before| && Subset(before, now)
    ensures Count(totaleid, Not(before), e) == Count(totaleid, Not(now), e) + Count(totaleid, Xor(before, now), e)
  {
    if |totaleid| > 0 {
      var n := |totaleid| - 1;
      CountSplit(totaleid[..n], before[..n], now[..n], e);
      assert Not(before)[..n] == Not(before[..n]);
      assert Not(now)[..n] == Not(now[..n]);
      assert Xor(before, now)[..n] == Xor(before[..n], now[..n]);
    }
  }

  lemma {:induction false} CountSome(totaleid: seq<nat>, mask: seq<bool>, e: nat)
    requires |totaleid| == |mask|
    ensures Count(totaleid, mask, e) > 0 <==> exists i :: 0 <= i < |mask| && mask[i] && totaleid[i] == e
  {
    if |totaleid| > 0 {
      CountSome(totaleid[..|totaleid| - 1], mask[..|totaleid| - 1], e);
    }
  }

  // --------------------------------------------------------------------------------- what is given

  /** The edges `0..edgeNum` come in blocks of `size`. `totaleid` names the edge of every entry of the
      temporal graph; `masks[b]` marks the entries that have expired once block `b` has been sampled. */
  datatype Run = Run(edgeNum: nat, size: nat, totaleid: seq<nat>, masks: seq<seq<bool>>)

  function Bound(r: Run, b: nat): (end: nat)
    ensures end <= r.edgeNum
  {
    Min(b * r.size, r.edgeNum)
  }

  /** Which entries have expired when block `b` arrives. */
  function Before(r: Run, b: nat): (mask: seq<bool>)
    requires b <= |r.masks|
  {
    if b == 0 then seq(|r.totaleid|, i => false) else r.masks[b - 1]
  }

  /** What is assumed of the sampling kernel and its input: an entry that has expired stays so, only
      entries of edges that have arrived expire, and every edge has an entry. */
  ghost predicate GoodRun(r: Run) {
    && 0 < r.size && r.edgeNum < 0x7FFF_FFFF && GoodEntries(r)
    && (forall b :: 0 <= b < |r.masks| ==> Bound(r, b) < r.edgeNum)
    && Bound(r, |r.masks|) == r.edgeNum
    && forall b :: 0 <= b < |r.masks| ==> GoodMask(r, b)
  }

  ghost predicate GoodEntries(r: Run) {
    && (forall i :: 0 <= i < |r.totaleid| ==> r.totaleid[i] < r.edgeNum)
    && (forall e :: 0 <= e < r.edgeNum ==> e in r.totaleid)
  }

  ghost predicate GoodMask(r: Run, b: nat)
    requires b < |r.masks|
  {
    && |r.masks[b]| == |r.totaleid| && Subset(Before(r, b), r.masks[b])
    && forall i :: 0 <= i < |r.masks[b]| && r.masks[b][i] ==> r.totaleid[i] < Bound(r, b + 1)
  }

  /** Edge `e` is in use while block `b` runs: it has arrived, and before the block some entry of it has
      not expired. */
  ghost predicate Alive(r: Run, b: nat, e: nat)
    requires b < |r.masks| && |Before(r, b)| == |r.totaleid|
  {
    e < Bound(r, b + 1) && Count(r.totaleid, Not(Before(r, b)), e) > 0
  }

  ghost function AliveSet(r: Run, b: nat): (s: set<nat>)
    requires b < |r.masks| && |Before(r, b)| == |r.totaleid|
  {
    set e | e in Below(r.edgeNum) && Alive(r, b, e)
  }

  /** The largest number of edges in use at once during the first `b` blocks. */
  ghost function Peak(r: Run, b: nat): (p: nat)
    requires GoodRun(r) && b <= |r.masks|
  {
    if b == 0 then 0
    else
      BeforeFits(r, b - 1);
      var n := |AliveSet(r, b - 1)|;
      if n > Peak(r, b - 1) then n else Peak(r, b - 1)
  }

  // ------------------------------------------------------------------------------- one allocation

  /** What an allocation of `k` slots does to the free slots and the high-water mark. */
  ghost predicate Allocated(free: seq<nat>, endPtr: nat, k: nat, replace: seq<nat>, free': seq<nat>, endPtr': nat) {
    && |replace| == k && Distinct(replace) && Distinct(free') && endPtr <= endPtr'
    && (forall s :: s in replace ==> s in free || endPtr <= s < endPtr')
    && (forall s :: s in free' <==> s in free && s !in replace)
    && (forall s :: endPtr <= s < endPtr' ==> s in replace)
    && |free'| + k == |free| + (endPtr' - endPtr)
    && (endPtr < endPtr' ==> free' == [])
  }

  /** In which order slots are taken: free slots from the front of the list, and then new ones past the end. */
  ghost predicate InOrder(free: seq<nat>, endPtr: nat, k: nat, replace: seq<nat>, endPtr': nat) {
    if k <= |free| then replace == free[..k] && endPtr' == endPtr
    else
      && |replace| == k && replace[..|free|] == free && endPtr' == endPtr + (k - |free|)
      && forall i :: |free| <= i < k ==> replace[i] == endPtr + (i - |free|)
  }

  /** The slots for `k` new edges: the slots that have just become free, then older free ones, then new
      ones past the end. Just-freed slots that are left over join the free list. */
  method PickSlots(table: seq<nat>, unexpire: seq<nat>, endPtr: nat, k: nat)
    returns (replace: seq<nat>, unexpire': seq<nat>, endPtr': nat)
    requires Distinct(table + unexpire) && InRange(table + unexpire, endPtr)
    ensures Allocated(table + unexpire, endPtr, k, replace, unexpire', endPtr')
    ensures InOrder(table + unexpire, endPtr, k, replace, endPtr')
    ensures unexpire' == if k <= |table| then unexpire + table[k..] else if k <= |table| + |unexpire| then
      unexpire[k - |table|..] else []
  {
    ghost var free := table + unexpire;
    SplitDistinct(free, |table|);
    assert free[..|table|] == table && free[|table|..] == unexpire;
    if |table| >= k {
      replace, unexpire', endPtr' := table[..k], unexpire + table[k..], endPtr;
      SplitDistinct(table, k);
      JoinDistinct(unexpire, table[k..]);
    } else if |table| + |unexpire| >= k {
      var use := k - |table|;
      replace, unexpire', endPtr' := table + unexpire[..use], unexpire[use..], endPtr;
      SplitDistinct(unexpire, use);
      JoinDistinct(table, unexpire[..use]);
    } else {
      var unalloc := |table| + |unexpire|;
      var more := seq(k - unalloc, i requires 0 <= i < k - unalloc => endPtr + i);
      replace := table + unexpire + more;
      unexpire', endPtr' := [], endPtr + (k - unalloc);
      JoinDistinct(free, more);
      forall s | endPtr <= s < endPtr' ensures s in replace {
        assert more[s - endPtr] == s;
        assert replace[unalloc + (s - endPtr)] == s;
      }
    }
  }

  // ---------------------------------------------------------------------------- what the loop keeps

  /** The variables of `gen_expire` before a block: the slot map, the free list, the high-water mark, the
      reference counts, the edges that have just left, and the two counters. `slots[e]` is the slot that
      edge `e` was given. */
  datatype State = State(
    map_: seq<int>, unexpire: seq<nat>, endPtr: nat, exp: seq<nat>, eidFlag: seq<int>,
    endEid: nat, num: int, maxNum: int, slots: seq<nat>)

  /** Every slot below the mark holds the edge that was last put there; the rest of the map is unused. */
  ghost predicate MapInv(s: State) {
    && s.endPtr <= |s.map_| && |s.slots| == s.endEid
    && (forall p :: s.endPtr <= p < |s.map_| ==> s.map_[p] == INF)
    && (forall p :: 0 <= p < s.endPtr ==> 0 <= s.map_[p] < s.endEid && s.slots[s.map_[p]] == p)
    && (forall e :: 0 <= e < s.endEid ==> s.slots[e] < s.endPtr)
  }

  /** Edges in use, and those that have just left, still own their slot. */
  ghost predicate OwnInv(s: State)
    requires MapInv(s)
  {
    && s.endEid <= |s.eidFlag|
    && StrictlySorted(s.exp)
    && (forall e :: e in s.exp ==> e < s.endEid && s.eidFlag[e] == 0)
    && (forall e :: 0 <= e < s.endEid && (s.eidFlag[e] > 0 || e in s.exp) ==> s.map_[s.slots[e]] == e)
  }

  /** The free list is exactly the slots of edges that left earlier. */
  ghost predicate FreeInv(s: State)
    requires MapInv(s) && s.endEid <= |s.eidFlag|
  {
    && Distinct(s.unexpire)
    && forall p: nat :: p in s.unexpire <==> p < s.endPtr && s.eidFlag[s.map_[p]] == 0 && s.map_[p] !in s.exp
  }

  ghost predicate CountInv(s: State) {
    && s.endPtr == s.num + |s.exp| + |s.unexpire| && s.endPtr == s.maxNum
  }

  ghost predicate Inv(s: State) {
    MapInv(s) && OwnInv(s) && FreeInv(s) && CountInv(s)
  }

  /** The slots that have just become free, in the order of their edges. */
  ghost function Table(s: State): (table: seq<nat>)
    requires MapInv(s) && OwnInv(s)
  {
    assert forall i :: 0 <= i < |s.exp| ==> s.exp[i] in s.exp;
    Gather(s.slots, s.exp)
  }

  /** Slots in use, slots just freed and slots on the free list together are all slots below the mark,
      and no slot is in two of the three. */
  lemma SlotPartition(s: State, p: nat)
    requires Inv(s) && p < s.endPtr && (forall e :: 0 <= e < s.endEid ==> s.eidFlag[e] >= 0)
    ensures s.map_[p] >= 0 && s.map_[p] < |s.eidFlag|
    ensures var inUse, justFreed, free := s.eidFlag[s.map_[p]] > 0, p in Table(s), p in s.unexpire;
      (inUse || justFreed || free) && !(inUse && justFreed) && !(inUse && free) && !(justFreed && free)
  {
    assert p in Table(s) <==> s.map_[p] in s.exp by {
      TableMembers(s, p);
    }
  }

  lemma TableMembers(s: State, p: nat)
    requires MapInv(s) && OwnInv(s)
    ensures p in Table(s) <==> p < s.endPtr && s.map_[p] in s.exp
    ensures Distinct(Table(s)) && InRange(Table(s), s.endPtr)
  {
    var table := Table(s);
    forall i | 0 <= i < |table| ensures table[i] < s.endPtr && s.map_[table[i]] == s.exp[i] {
      assert s.exp[i] in s.exp;
    }
    if p in table {
      var i :| 0 <= i < |table| && table[i] == p;
      assert s.exp[i] in s.exp;
    }
    if p < s.endPtr && s.map_[p] in s.exp {
      var i :| 0 <= i < |s.exp| && s.exp[i] == s.map_[p];
      assert table[i] == p;
    }
  }

  lemma FreeSlots(s: State)
    requires Inv(s)
    ensures Distinct(Table(s) + s.unexpire) && InRange(Table(s) + s.unexpire, s.endPtr)
    ensures forall p: nat :: p in Table(s) + s.unexpire <==>
      p < s.endPtr && (s.eidFlag[s.map_[p]] == 0)
  {
    forall p: nat ensures p in Table(s) <==> p < s.endPtr && s.map_[p] in s.exp {
      TableMembers(s, p);
    }
    TableMembers(s, 0);
    assert forall p: nat :: p in s.unexpire ==> p < s.endPtr;
    JoinDistinct(Table(s), s.unexpire);
    forall i | 0 <= i < |Table(s) + s.unexpire| ensures (Table(s) + s.unexpire)[i] < s.endPtr {
      assert (Table(s) + s.unexpire)[i] in Table(s) + s.unexpire;
    }
  }

  /** Looking the just-expired edges up in the map finds their slots: the code does it by sorting both
      and searching. */
  lemma TableIsFound(s: State)
    requires MapInv(s) && OwnInv(s) && s.endEid <= INF
    ensures |s.exp| > 0 ==> |s.map_| > 0
    ensures FindIndices(s.exp, s.map_) == Table(s)
  {
    if |s.exp| > 0 {
      assert s.exp[0] in s.exp;
    }
    var found := FindIndices(s.exp, s.map_);
    forall i | 0 <= i < |s.exp| ensures found[i] == Table(s)[i] {
      var e := s.exp[i];
      assert e in s.exp;
      assert s.map_[s.slots[e]] == e;
      assert e in s.map_;
      assert s.map_[found[i]] == e;
    }
  }

  // ------------------------------------------------------------------------------- the two steps

  /** The map, grown if the largest new slot is past its end. */
  ghost function Grown(s: State, endPtr': nat): (m: seq<int>)
    ensures |m| >= endPtr' && |m| >= |s.map_|
    ensures forall p :: 0 <= p < |m| ==> m[p] == if p < |s.map_| then s.map_[p] else INF
  {
    if endPtr' > |s.map_| then s.map_ + seq(endPtr' - |s.map_|, i => INF) else s.map_
  }

  /** `k` new edges have been put into their slots. */
  ghost function AfterAllocate(s: State, replace: seq<nat>, free': seq<nat>, endPtr': nat): (s': State)
    requires InRange(replace, endPtr')
  {
    var k := |replace|;
    s.(map_ := Scatter(Grown(s, endPtr'), replace, seq(k, i => s.endEid + i)), unexpire := free', endPtr := endPtr',
       exp := [], endEid := s.endEid + k, num := s.num + k,
       maxNum := if s.num + k > s.maxNum then s.num + k else s.maxNum,
       slots := s.slots + replace)
  }

  lemma AllocatedBelow(free: seq<nat>, endPtr: nat, k: nat, replace: seq<nat>, free': seq<nat>, endPtr': nat)
    requires Allocated(free, endPtr, k, replace, free', endPtr') && InRange(free, endPtr)
    ensures InRange(replace, endPtr')
  {
    forall i | 0 <= i < |replace| ensures replace[i] < endPtr' {
      assert replace[i] in replace;
    }
  }

  /** What the map says after the new edges are in: each at its slot, the others where they were. */
  lemma MapAfter(s: State, replace: seq<nat>, free': seq<nat>, endPtr': nat, p: nat)
    requires Inv(s) && Allocated(Table(s) + s.unexpire, s.endPtr, |replace|, replace, free', endPtr')
    requires InRange(replace, endPtr')
    ensures var s' := AfterAllocate(s, replace, free', endPtr');
      && |s'.map_| >= endPtr'
      && (p < |s'.map_| && p in replace ==> s'.map_[p] == s.endEid + IndexOf(replace, p))
      && (p < s.endPtr && p !in replace ==> s'.map_[p] == s.map_[p])
      && (s.endPtr <= p < |s'.map_| && p !in replace ==> s'.map_[p] == INF)
      && (p in replace ==> s'.slots[s.endEid + IndexOf(replace, p)] == p)
  {
    var m := Grown(s, endPtr');
    if p < |m| {
      ScatterAt(m, replace, seq(|replace|, i => s.endEid + i), p);
    }
  }

  lemma AllocateMapAt(s: State, replace: seq<nat>, free': seq<nat>, endPtr': nat, p: nat)
    requires Inv(s) && Allocated(Table(s) + s.unexpire, s.endPtr, |replace|, replace, free', endPtr')
    requires InRange(replace, endPtr') && p < |AfterAllocate(s, replace, free', endPtr').map_|
    ensures var s' := AfterAllocate(s, replace, free', endPtr');
      && (endPtr' <= p ==> s'.map_[p] == INF)
      && (p < endPtr' ==> 0 <= s'.map_[p] < s'.endEid && s'.slots[s'.map_[p]] == p)
  {
    MapAfter(s, replace, free', endPtr', p);
    assert p in replace ==> p < endPtr' by {
      if p in replace {
        var i :| 0 <= i < |replace| && replace[i] == p;
      }
    }
  }

  lemma AllocateMap(s: State, replace: seq<nat>, free': seq<nat>, endPtr': nat)
    requires Inv(s) && Allocated(Table(s) + s.unexpire, s.endPtr, |replace|, replace, free', endPtr')
    requires InRange(replace, endPtr')
    ensures MapInv(AfterAllocate(s, replace, free', endPtr'))
  {
    hide Inv, Allocated, Scatter, MapInv;
    var s' := AfterAllocate(s, replace, free', endPtr');
    forall p: nat | p < |s'.map_| {
      AllocateMapAt(s, replace, free', endPtr', p);
    }
    SlotsBelow(s, replace, free', endPtr');
    MapFrom(s', endPtr');
  }

  lemma SlotsBelow(s: State, replace: seq<nat>, free': seq<nat>, endPtr': nat)
    requires Inv(s) && Allocated(Table(s) + s.unexpire, s.endPtr, |replace|, replace, free', endPtr')
    requires InRange(replace, endPtr')
    ensures |s.slots + replace| == s.endEid + |replace| && InRange(s.slots + replace, endPtr')
    ensures endPtr' <= |AfterAllocate(s, replace, free', endPtr').map_|
  {
    hide OwnInv, FreeInv, CountInv;
  }

  lemma MapFrom(s: State, endPtr: nat)
    requires s.endPtr == endPtr <= |s.map_| && |s.slots| == s.endEid && InRange(s.slots, endPtr)
    requires forall p :: 0 <= p < |s.map_| ==>
      && (endPtr <= p ==> s.map_[p] == INF)
      && (p < endPtr ==> 0 <= s.map_[p] < s.endEid && s.slots[s.map_[p]] == p)
    ensures MapInv(s)
  {
  }

  lemma AllocateOwnAt(s: State, replace: seq<nat>, free': seq<nat>, endPtr': nat, e: nat)
    requires Inv(s) && Allocated(Table(s) + s.unexpire, s.endPtr, |replace|, replace, free', endPtr')
    requires InRange(replace, endPtr') && e < s.endEid + |replace| <= |s.eidFlag| && s.eidFlag[e] > 0
    ensures var s' := AfterAllocate(s, replace, free', endPtr');
      |s'.slots| == s.endEid + |replace| && s'.slots[e] < |s'.map_| && s'.map_[s'.slots[e]] == e
  {
    FreeSlots(s);
    if e < s.endEid {
      assert s.map_[s.slots[e]] == e && s.slots[e] !in Table(s) + s.unexpire;
      assert s.slots[e] !in replace;
      MapAfter(s, replace, free', endPtr', s.slots[e]);
    } else {
      IndexOfUnique(replace, replace[e - s.endEid], e - s.endEid);
      MapAfter(s, replace, free', endPtr', replace[e - s.endEid]);
    }
  }

  lemma AllocateOwn(s: State, replace: seq<nat>, free': seq<nat>, endPtr': nat)
    requires Inv(s) && Allocated(Table(s) + s.unexpire, s.endPtr, |replace|, replace, free', endPtr')
    requires InRange(replace, endPtr') && s.endEid + |replace| <= |s.eidFlag|
    requires MapInv(AfterAllocate(s, replace, free', endPtr'))
    ensures OwnInv(AfterAllocate(s, replace, free', endPtr'))
  {
    hide Allocated, Scatter, Grown, FreeInv;
    var s' := AfterAllocate(s, replace, free', endPtr');
    forall e: nat | e < s'.endEid && s'.eidFlag[e] > 0
      ensures s'.slots[e] < |s'.map_| && s'.map_[s'.slots[e]] == e
    {
      AllocateOwnAt(s, replace, free', endPtr', e);
    }
  }

  lemma AllocateFree(s: State, replace: seq<nat>, free': seq<nat>, endPtr': nat)
    requires Inv(s) && Allocated(Table(s) + s.unexpire, s.endPtr, |replace|, replace, free', endPtr')
    requires InRange(replace, endPtr') && s.endEid + |replace| <= |s.eidFlag|
    requires forall e :: s.endEid <= e < |s.eidFlag| ==> s.eidFlag[e] > 0
    requires MapInv(AfterAllocate(s, replace, free', endPtr'))
    ensures FreeInv(AfterAllocate(s, replace, free', endPtr'))
  {
    var s' := AfterAllocate(s, replace, free', endPtr');
    FreeSlots(s);
    forall p: nat ensures p in free' <==> p < endPtr' && s'.eidFlag[s'.map_[p]] == 0 {
      MapAfter(s, replace, free', endPtr', p);
      assert p in free' <==> p in Table(s) + s.unexpire && p !in replace;
    }
  }

  /** Putting a block's edges into their slots keeps the invariant; the mark moves only when all freed
      slots are used up, and then exactly to the number of edges in use. */
  lemma AllocateKeeps(s: State, replace: seq<nat>, free': seq<nat>, endPtr': nat)
    requires Inv(s) && Allocated(Table(s) + s.unexpire, s.endPtr, |replace|, replace, free', endPtr')
    requires s.endEid + |replace| <= |s.eidFlag|
    requires forall e :: s.endEid <= e < |s.eidFlag| ==> s.eidFlag[e] > 0
    ensures InRange(replace, endPtr')
    ensures Inv(AfterAllocate(s, replace, free', endPtr'))
  {
    FreeSlots(s);
    AllocatedBelow(Table(s) + s.unexpire, s.endPtr, |replace|, replace, free', endPtr');
    AllocateMap(s, replace, free', endPtr');
    AllocateOwn(s, replace, free', endPtr');
    AllocateFree(s, replace, free', endPtr');
  }

  /** The reference counts have been lowered to `flags`, and `exp` are the edges whose count reached zero. */
  ghost function AfterExpire(s: State, flags: seq<int>, exp: seq<nat>): (s': State) {
    s.(eidFlag := flags, exp := exp, num := s.num - |exp|)
  }

  ghost predicate Lowered(s: State, flags: seq<int>, exp: seq<nat>) {
    && |flags| == |s.eidFlag| && StrictlySorted(exp)
    && (forall e :: 0 <= e < |flags| ==> 0 <= flags[e] <= s.eidFlag[e])
    && (forall e :: s.endEid <= e < |flags| ==> flags[e] == s.eidFlag[e])
    && forall e: nat :: e in exp <==> e < |flags| && flags[e] != s.eidFlag[e] && flags[e] == 0
  }

  /** Letting edges go keeps the invariant: their slots wait for the next block. */
  lemma ExpireKeeps(s: State, flags: seq<int>, exp: seq<nat>)
    requires Inv(s) && s.exp == [] && Lowered(s, flags, exp)
    ensures Inv(AfterExpire(s, flags, exp))
  {
    var s' := AfterExpire(s, flags, exp);
    forall p: nat ensures p in s.unexpire <==> p < s'.endPtr && flags[s.map_[p]] == 0 && s.map_[p] !in exp {
    }
  }

  // ------------------------------------------------------------------------------------ the counts

  /** The reference count of every edge is the number of its entries that have not expired. */
  ghost predicate Counted(r: Run, expired: seq<bool>, flags: seq<int>)
    requires |expired| == |r.totaleid|
  {
    |flags| == r.edgeNum && forall e :: 0 <= e < |flags| ==> flags[e] == Count(r.totaleid, Not(expired), e)
  }

  lemma BeforeFits(r: Run, b: nat)
    requires GoodRun(r) && b <= |r.masks|
    ensures |Before(r, b)| == |r.totaleid|
    ensures forall i :: 0 <= i < |r.totaleid| && Before(r, b)[i] ==> r.totaleid[i] < Bound(r, b)
    ensures forall i :: 0 <= i < |r.totaleid| ==> r.totaleid[i] < r.edgeNum
    ensures b < |r.masks| ==> |r.masks[b]| == |r.totaleid|
  {
    assert b > 0 ==> GoodMask(r, b - 1);
    assert b < |r.masks| ==> GoodMask(r, b);
  }

  /** `torch.unique(totaleid, return_counts=True)`: as every edge has an entry, place `e` counts edge `e`. */
  method InitialCounts(r: Run) returns (eidFlag: seq<int>)
    requires GoodRun(r)
    ensures Counted(r, Before(r, 0), eidFlag)
  {
    var uni := Unique(r.totaleid);
    var range := seq(r.edgeNum, i => i);
    assert forall e :: 0 <= e < r.edgeNum ==> range[e] == e;
    forall x ensures x in uni <==> x in range {
      if x in r.totaleid {
        var i :| 0 <= i < |r.totaleid| && r.totaleid[i] == x;
      }
      assert 0 <= x < r.edgeNum ==> range[x] == x;
    }
    SortedUnique(uni, range);
    var all := seq(|r.totaleid|, i => true);
    assert Not(Before(r, 0)) == all;
    eidFlag := seq(|uni|, i requires 0 <= i < |uni| => Count(r.totaleid, all, uni[i]));
  }

  lemma ExpiredIds(totaleid: seq<nat>, newly: seq<bool>, num: nat, ids: seq<nat>)
    requires |newly| == |totaleid| && (forall i :: 0 <= i < |totaleid| ==> totaleid[i] < num)
    requires ids == Unique(Select(totaleid, newly))
    ensures InRange(ids, num)
    ensures forall e: nat :: e !in ids ==> Count(totaleid, newly, e) == 0
  {
    SelectMembers(totaleid, newly);
    forall k | 0 <= k < |ids| ensures ids[k] < num {
      assert ids[k] in ids;
    }
    forall e: nat | e !in ids ensures Count(totaleid, newly, e) == 0 {
      CountSome(totaleid, newly, e);
    }
  }

  /** `eid_flag[exp_eids] -= counts` over the edges of the entries that have just expired. */
  method LowerCounts(flags: seq<int>, totaleid: seq<nat>, newly: seq<bool>) returns (eidFlag: seq<int>)
    requires |newly| == |totaleid| && forall i :: 0 <= i < |totaleid| ==> totaleid[i] < |flags|
    ensures |eidFlag| == |flags|
    ensures forall e :: 0 <= e < |flags| ==> eidFlag[e] == flags[e] - Count(totaleid, newly, e)
  {
    hide Unique, Select, Count;
    var expEids := Unique(Select(totaleid, newly));
    ExpiredIds(totaleid, newly, |flags|, expEids);
    eidFlag := flags;
    for j := 0 to |expEids|
      invariant |eidFlag| == |flags|
      invariant forall e :: 0 <= e < |flags| ==>
        eidFlag[e] == flags[e] - (if e in expEids[..j] then Count(totaleid, newly, e) else 0)
    {
      assert expEids[..j + 1] == expEids[..j] + [expEids[j]];
      var e := expEids[j];
      assert e !in expEids[..j];
      eidFlag := eidFlag[e := eidFlag[e] - Count(totaleid, newly, e)];
    }
    assert expEids[..|expEids|] == expEids;
  }

  lemma CountsLowered(r: Run, b: nat, flags: seq<int>, flags': seq<int>)
    requires GoodRun(r) && b < |r.masks|
    requires |Before(r, b)| == |r.totaleid| == |r.masks[b]| && Counted(r, Before(r, b), flags)
    requires |flags'| == |flags|
    requires forall e :: 0 <= e < |flags| ==>
      flags'[e] == flags[e] - Count(r.totaleid, Xor(Before(r, b), r.masks[b]), e)
    ensures Counted(r, Before(r, b + 1), flags')
    ensures forall e :: 0 <= e < |flags| ==> 0 <= flags'[e] <= flags[e]
    ensures forall e :: Bound(r, b + 1) <= e < |flags| ==> flags'[e] == flags[e]
  {
    assert GoodMask(r, b);
    hide GoodRun, GoodMask;
    forall e | 0 <= e < |flags| ensures flags'[e] == Count(r.totaleid, Not(r.masks[b]), e) {
      CountSplit(r.totaleid, Before(r, b), r.masks[b], e);
    }
    forall e | Bound(r, b + 1) <= e < |flags| ensures flags'[e] == flags[e] {
      CountSome(r.totaleid, Xor(Before(r, b), r.masks[b]), e);
    }
  }

  /** Edges that have not arrived yet have all their entries. */
  lemma UnarrivedCounted(r: Run, b: nat, flags: seq<int>)
    requires GoodRun(r) && b <= |r.masks| && |Before(r, b)| == |r.totaleid| && Counted(r, Before(r, b), flags)
    ensures forall e :: Bound(r, b) <= e < |flags| ==> flags[e] > 0
  {
    BeforeFits(r, b);
    forall e: nat | Bound(r, b) <= e < |flags| ensures flags[e] > 0 {
      assert e in r.totaleid;
      var i :| 0 <= i < |r.totaleid| && r.totaleid[i] == e;
      assert Not(Before(r, b))[i];
      CountSome(r.totaleid, Not(Before(r, b)), e);
    }
  }

  // --------------------------------------------------------------------------------- the whole run

  /** While block `c` runs, no two edges in use share a slot. */
  ghost predicate SafeAt(r: Run, slots: seq<nat>, c: nat)
    requires GoodRun(r) && c < |r.masks|
  {
    BeforeFits(r, c);
    && |slots| >= Bound(r, c + 1)
    && forall e, f :: 0 <= e < f < Bound(r, c + 1) && Alive(r, c, e) && Alive(r, c, f) ==> slots[e] != slots[f]
  }

  ghost predicate SafeUpTo(r: Run, n: nat, slots: seq<nat>)
    requires GoodRun(r) && n <= |r.masks|
  {
    forall c :: 0 <= c < n ==> SafeAt(r, slots, c)
  }

  /** `live` counts the edges below `end` with entries left. */
  ghost function LiveBelow(flags: seq<int>, end: nat): (s: set<nat>)
    requires end <= |flags|
  {
    set e | e in Below(end) && flags[e] > 0
  }

  lemma ArriveCount(flags: seq<int>, end: nat, end': nat)
    requires end <= end' <= |flags| && forall e :: end <= e < end' ==> flags[e] > 0
    ensures |LiveBelow(flags, end')| == |LiveBelow(flags, end)| + (end' - end)
  {
    var new_ := Below(end') - Below(end);
    assert LiveBelow(flags, end') == LiveBelow(flags, end) + new_;
    assert Below(end') == Below(end) + new_;
    assert |Below(end')| == |Below(end)| + |new_|;
  }

  lemma LeaveCount(s: State, flags: seq<int>, exp: seq<nat>)
    requires Lowered(s, flags, exp) && s.endEid <= |flags|
    ensures |LiveBelow(flags, s.endEid)| == |LiveBelow(s.eidFlag, s.endEid)| - |exp|
  {
    assert Members(exp) <= LiveBelow(s.eidFlag, s.endEid);
    assert LiveBelow(flags, s.endEid) == LiveBelow(s.eidFlag, s.endEid) - Members(exp);
    hide Lowered;
    assert LiveBelow(s.eidFlag, s.endEid) == LiveBelow(flags, s.endEid) + Members(exp);
  }

  lemma AliveIsLive(r: Run, b: nat, flags: seq<int>)
    requires GoodRun(r) && b < |r.masks| && |Before(r, b)| == |r.totaleid| && Counted(r, Before(r, b), flags)
    ensures AliveSet(r, b) == LiveBelow(flags, Bound(r, b + 1))
    ensures forall e :: 0 <= e < |flags| ==> (Alive(r, b, e) <==> e < Bound(r, b + 1) && flags[e] > 0)
  {
  }

  lemma OwnersSafe(r: Run, b: nat, s: State)
    requires GoodRun(r) && b < |r.masks| && |Before(r, b)| == |r.totaleid| && Counted(r, Before(r, b), s.eidFlag)
    requires s.endEid == Bound(r, b + 1) && MapInv(s) && OwnInv(s)
    ensures SafeAt(r, s.slots, b)
  {
    AliveIsLive(r, b, s.eidFlag);
    forall e, f | 0 <= e < f < Bound(r, b + 1) && Alive(r, b, e) && Alive(r, b, f)
      ensures s.slots[e] != s.slots[f]
    {
      assert s.map_[s.slots[e]] == e && s.map_[s.slots[f]] == f;
    }
  }

  /** Every slot assignment that keeps edges in use apart needs as many slots as edges are ever in use at
      once. */
  lemma {:induction false} PeakIsNeeded(r: Run, slots: seq<nat>, b: nat, m: nat)
    requires GoodRun(r) && b <= |r.masks| && |slots| >= r.edgeNum
    requires SafeUpTo(r, b, slots)
    requires forall e :: 0 <= e < r.edgeNum ==> slots[e] < m
    ensures Peak(r, b) <= m
  {
    if b > 0 {
      PeakIsNeeded(r, slots, b - 1, m);
      BeforeFits(r, b - 1);
      var alive := AliveSet(r, b - 1);
      hide GoodRun;
      forall e, f | e in alive && f in alive && e != f ensures slots[e] != slots[f] {
        assert SafeAt(r, slots, b - 1);
      }
      InjectiveFits(slots, alive, m);
    }
  }

  lemma InjectiveFits(slots: seq<nat>, edges: set<nat>, m: nat)
    requires forall e :: e in edges ==> e < |slots| && slots[e] < m
    requires forall e, f :: e in edges && f in edges && e != f ==> slots[e] != slots[f]
    ensures |edges| <= m
  {
    ImageCard(slots, edges);
    SubsetCard(set e | e in edges :: slots[e], Below(m));
  }

  // ------------------------------------------------------------------------------- gen_expire itself

  /** The invariant of the main loop. */
  ghost predicate LoopInv(r: Run, b: nat, s: State, picks: seq<seq<nat>>)
    requires GoodRun(r) && b <= |r.masks|
  {
    BeforeFits(r, b);
    && Inv(s) && s.endEid == Bound(r, b) && Counted(r, Before(r, b), s.eidFlag)
    && s.num == |LiveBelow(s.eidFlag, s.endEid)| && s.maxNum == Peak(r, b)
    && s.slots == Concat(picks)
    && SafeUpTo(r, b, s.slots)
  }

  /** The state in the middle of block `b`, with its edges in their slots. */
  ghost predicate MidInv(r: Run, b: nat, s: State, picks: seq<seq<nat>>)
    requires GoodRun(r) && b < |r.masks|
  {
    BeforeFits(r, b);
    && Inv(s) && s.exp == [] && s.endEid == Bound(r, b + 1) && Counted(r, Before(r, b), s.eidFlag)
    && s.num == |LiveBelow(s.eidFlag, s.endEid)| && s.maxNum == Peak(r, b + 1)
    && s.slots == Concat(picks)
    && SafeUpTo(r, b + 1, s.slots)
  }

  lemma BoundMonotone(r: Run, b: nat, c: nat)
    requires 0 < r.size && b <= c
    ensures Bound(r, b) <= Bound(r, c)
  {
    assert b * r.size <= c * r.size;
  }

  lemma BoundStep(r: Run, b: nat)
    requires 0 < r.size
    ensures Bound(r, b + 1) == Min(r.edgeNum, Bound(r, b) + r.size)
  {
    assert (b + 1) * r.size == b * r.size + r.size;
  }

  /** Which edges arrive with block `b`. */
  lemma ArrivesIn(r: Run, b: nat, e: nat)
    requires 0 < r.size
    ensures Bound(r, b) <= e < Bound(r, b + 1) <==> e < r.edgeNum && e / r.size == b
  {
    BoundStep(r, b);
    var q := e / r.size;
    assert e == q * r.size + e % r.size;
    Monotone(b, q, r.size);
    Monotone(q + 1, b, r.size);
    Monotone(b + 1, q, r.size);
    Monotone(q, b, r.size);
    assert (b + 1) * r.size == b * r.size + r.size && (q + 1) * r.size == q * r.size + r.size;
  }

  lemma SafeAtKept(r: Run, c: nat, slots: seq<nat>, more: seq<nat>)
    requires GoodRun(r) && c < |r.masks| && SafeAt(r, slots, c)
    ensures SafeAt(r, slots + more, c)
  {
    BeforeFits(r, c);
    hide GoodRun, Alive, Bound;
  }

  /** Later blocks do not change the slots of edges that have arrived. */
  lemma SafeKept(r: Run, b: nat, slots: seq<nat>, more: seq<nat>)
    requires GoodRun(r) && b < |r.masks| && SafeUpTo(r, b, slots) && SafeAt(r, slots + more, b)
    ensures SafeUpTo(r, b + 1, slots + more)
  {
    hide GoodRun, SafeAt;
    forall c | 0 <= c < b ensures SafeAt(r, slots + more, c) {
      SafeAtKept(r, c, slots, more);
    }
  }

  lemma PeakStep(r: Run, b: nat)
    requires GoodRun(r) && b < |r.masks|
    ensures |Before(r, b)| == |r.totaleid|
    ensures Peak(r, b + 1) == if |AliveSet(r, b)| > Peak(r, b) then |AliveSet(r, b)| else Peak(r, b)
  {
    BeforeFits(r, b);
  }

  /** The counters of the loop count the edges in use and their peak. */
  lemma AllocateCounts(r: Run, b: nat, s: State, end': nat)
    requires GoodRun(r) && b < |r.masks| && |Before(r, b)| == |r.totaleid| && Counted(r, Before(r, b), s.eidFlag)
    requires s.endEid == Bound(r, b) <= end' == Bound(r, b + 1)
    requires end' <= |s.eidFlag| && s.num == |LiveBelow(s.eidFlag, s.endEid)| && s.maxNum == Peak(r, b)
    ensures var num := s.num + (end' - s.endEid);
      num == |LiveBelow(s.eidFlag, end')| && Peak(r, b + 1) == if num > s.maxNum then num else s.maxNum
  {
    UnarrivedCounted(r, b, s.eidFlag);
    ArriveCount(s.eidFlag, s.endEid, end');
    AliveIsLive(r, b, s.eidFlag);
    PeakStep(r, b);
    hide GoodRun, Peak, LiveBelow, AliveSet, Counted;
  }

  lemma AllocateSafe(r: Run, b: nat, s: State, slots: seq<nat>, replace: seq<nat>)
    requires GoodRun(r) && b < |r.masks| && |Before(r, b)| == |r.totaleid| && Counted(r, Before(r, b), s.eidFlag)
    requires Inv(s) && s.endEid == Bound(r, b + 1) && s.slots == slots + replace && SafeUpTo(r, b, slots)
    ensures SafeUpTo(r, b + 1, s.slots)
  {
    InvParts(s);
    hide GoodRun, Counted, Inv, SafeUpTo;
    OwnersSafe(r, b, s);
    SafeKept(r, b, slots, replace);
  }

  lemma AllocateLoop(r: Run, b: nat, s: State, picks: seq<seq<nat>>, replace: seq<nat>, free': seq<nat>, endPtr': nat)
    requires GoodRun(r) && b < |r.masks| && LoopInv(r, b, s, picks)
    requires |replace| == Bound(r, b + 1) - Bound(r, b)
    requires Inv(s) && Allocated(Table(s) + s.unexpire, s.endPtr, |replace|, replace, free', endPtr')
    ensures InRange(replace, endPtr')
    ensures MidInv(r, b, AfterAllocate(s, replace, free', endPtr'), picks + [replace])
  {
    hide Inv, Counted, LiveBelow, SafeUpTo, GoodRun, Allocated, InRange, Peak, MapInv, OwnInv, Grown, Scatter, Before,
         Bound;
    BeforeFits(r, b);
    CountedLength(r, Before(r, b), s.eidFlag);
    UnarrivedCounted(r, b, s.eidFlag);
    AllocateKeeps(s, replace, free', endPtr');
    AllocateCounts(r, b, s, Bound(r, b + 1));
    AllocateSafe(r, b, AfterAllocate(s, replace, free', endPtr'), s.slots, replace);
    assert (picks + [replace])[..|picks|] == picks;
  }

  lemma CountedLength(r: Run, expired: seq<bool>, flags: seq<int>)
    requires |expired| == |r.totaleid| && Counted(r, expired, flags)
    ensures |flags| == r.edgeNum
  {
  }

  lemma InvParts(s: State)
    requires Inv(s)
    ensures MapInv(s) && OwnInv(s) && |s.slots| == s.endEid <= |s.eidFlag| && s.endPtr == s.maxNum
    ensures forall e :: 0 <= e < s.endEid ==> s.slots[e] < s.endPtr
  {
  }

  lemma ExpireLoop(r: Run, b: nat, s: State, picks: seq<seq<nat>>, flags: seq<int>, exp: seq<nat>)
    requires GoodRun(r) && b < |r.masks| && MidInv(r, b, s, picks)
    requires Lowered(s, flags, exp) && |Before(r, b + 1)| == |r.totaleid| && Counted(r, Before(r, b + 1), flags)
    ensures LoopInv(r, b + 1, AfterExpire(s, flags, exp), picks)
  {
    BeforeFits(r, b);
    hide Inv, Counted, LiveBelow, SafeUpTo, GoodRun, Lowered;
    InvParts(s);
    assert |s.eidFlag| == |flags| by {
      CountedLength(r, Before(r, b), s.eidFlag);
      CountedLength(r, Before(r, b + 1), flags);
    }
    ExpireKeeps(s, flags, exp);
    LeaveCount(s, flags, exp);
  }

  /** `(eid_flag ^ eid_flag_clone) & (eid_flag == 0)` */
  function LeftNow(before: seq<int>, now: seq<int>): (mask: seq<bool>)
    requires |before| == |now|
  {
    seq(|now|, e requires 0 <= e < |now| => before[e] != now[e] && now[e] == 0)
  }

  lemma LeftNowLowered(s: State, flags: seq<int>, exp: seq<nat>)
    requires |flags| == |s.eidFlag| && exp == Nonzero(LeftNow(s.eidFlag, flags))
    requires forall e :: 0 <= e < |flags| ==> 0 <= flags[e] <= s.eidFlag[e]
    requires forall e :: s.endEid <= e < |flags| ==> flags[e] == s.eidFlag[e]
    ensures Lowered(s, flags, exp)
  {
    forall e: nat ensures e in exp <==> e < |flags| && flags[e] != s.eidFlag[e] && flags[e] == 0 {
      if e in exp {
        var k :| 0 <= k < |exp| && exp[k] == e;
        assert LeftNow(s.eidFlag, flags)[exp[k]];
      }
      assert e < |flags| && LeftNow(s.eidFlag, flags)[e] ==> e in exp;
    }
  }

  /** `torch.max` */
  method MaxOf(a: seq<nat>) returns (m: nat)
    requires |a| > 0
    ensures m in a && forall x :: x in a ==> x <= m
  {
    m := a[0];
    for i := 0 to |a|
      invariant m in a && forall x :: x in a[..i] ==> x <= m
    {
      assert a[..i + 1] == a[..i] + [a[i]];
      if a[i] > m { m := a[i]; }
    }
    assert a[..|a|] == a;
  }

  /** The edges of a block: those from `start` up to but not including `end`. */
  datatype Bounds = Bounds(start: nat, end: nat)

  /** Writing to the places `0..k` in order replaces the prefix. */
  lemma {:induction false} WritePrefix(m: seq<int>, cur: seq<int>)
    requires |cur| <= |m|
    ensures InRange(seq(|cur|, i => i), |m|) && Scatter(m, seq(|cur|, i => i), cur) == cur + m[|cur|..]
  {
    if |cur| > 0 {
      var n := |cur| - 1;
      WritePrefix(m, cur[..n]);
      assert seq(|cur|, i => i)[..n] == seq(n, i => i);
      WriteNext(m, cur, n);
    }
  }

  lemma WriteNext(m: seq<int>, cur: seq<int>, n: nat)
    requires |cur| == n + 1 <= |m|
    ensures (cur[..n] + m[n..])[n := cur[n]] == cur + m[|cur|..]
  {
  }

  lemma FirstPick(s: State, k: nat)
    requires MapInv(s) && OwnInv(s) && s.exp == [] && s.unexpire == [] && s.endPtr == 0 && k <= |s.map_|
    ensures Allocated(Table(s) + s.unexpire, 0, k, seq(k, i => i), [], k)
    ensures InRange(seq(k, i => i), k)
  {
    var replace := seq(k, i => i);
    assert forall i :: 0 <= i < k ==> replace[i] == i;
    assert Table(s) + s.unexpire == [];
    forall p | 0 <= p < k ensures p in replace {
      assert replace[p] == p;
    }
  }

  /** What giving the edges `cur` their slots does. */
  ghost predicate Placed(s: State, cur: seq<int>, s': State, replace: seq<nat>)
    requires Inv(s)
  {
    && |replace| == |cur| && InRange(replace, s'.endPtr)
    && Allocated(Table(s) + s.unexpire, s.endPtr, |replace|, replace, s'.unexpire, s'.endPtr)
    && s' == AfterAllocate(s, replace, s'.unexpire, s'.endPtr)
  }

  function WithCounts(s: State, map_: seq<int>, unexpire: seq<nat>, endPtr: nat, replace: seq<nat>): (s': State) {
    var calEdgeNum := s.num + |replace|;
    var calMaxEdgeNum := if calEdgeNum > s.maxNum then calEdgeNum else s.maxNum;
    State(map_, unexpire, endPtr, [], s.eidFlag, s.endEid + |replace|, calEdgeNum, calMaxEdgeNum, s.slots + replace)
  }

  /** The first block finds no list of expired edges; its edges fill the map from the start. */
  method PlaceFirst(s: State, cur: seq<int>) returns (s': State, replace: seq<nat>)
    requires Inv(s) && cur == seq(|cur|, i => s.endEid + i)
    requires s.exp == [] && s.unexpire == [] && s.endPtr == 0 && |cur| <= |s.map_|
    ensures Placed(s, cur, s', replace)
  {
    var k := |cur|;
    replace := seq(k, i => i);
    FirstPick(s, k);
    WritePrefix(Grown(s, k), cur);
    s' := WithCounts(s, cur + s.map_[k..], s.unexpire, s.endPtr + k, replace);
  }

  /** Later blocks look up the slots of the edges that have just left, and pick from those and the free
      list. */
  method PlaceLater(s: State, cur: seq<int>) returns (s': State, replace: seq<nat>)
    requires Inv(s) && cur == seq(|cur|, i => s.endEid + i)
    requires s.endEid + |cur| <= INF && |cur| > 0
    ensures Placed(s, cur, s', replace)
    ensures InOrder(Table(s) + s.unexpire, s.endPtr, |cur|, replace, s'.endPtr)
  {
    FreeSlots(s);
    TableIsFound(s);
    var table := FindIndices(s.exp, s.map_);
    hide FreeInv, CountInv, FindIndices, Table;
    var unexpire, endPtr;
    replace, unexpire, endPtr := PickSlots(table, s.unexpire, s.endPtr, |cur|);
    AllocatedBelow(Table(s) + s.unexpire, s.endPtr, |cur|, replace, unexpire, endPtr);
    hide Allocated;
    var map_ := GrowMap(s, replace, unexpire, endPtr);
    s' := WithCounts(s, Scatter(map_, replace, cur), unexpire, endPtr, replace);
  }

  /** The map grows when the largest new slot is past its end. */
  method GrowMap(s: State, replace: seq<nat>, free': seq<nat>, endPtr': nat) returns (map_: seq<int>)
    requires |replace| > 0 && MapInv(s) && OwnInv(s) && InRange(replace, endPtr')
    requires Allocated(Table(s) + s.unexpire, s.endPtr, |replace|, replace, free', endPtr')
    ensures map_ == Grown(s, endPtr')
  {
    var top := MaxOf(replace);
    assert endPtr' > s.endPtr ==> endPtr' - 1 in replace;
    map_ := s.map_;
    if top >= |map_| {
      map_ := map_ + seq(top - |map_| + 1, i => INF);
    }
  }

  /** The bounds and slots written for the first `n` blocks have the right shape. */
  ghost predicate Listed(r: Run, n: nat, bounds: seq<Bounds>, picks: seq<seq<nat>>) {
    && |bounds| == |picks| == n
    && forall b :: 0 <= b < n ==>
      Bound(r, b) <= Bound(r, b + 1) && bounds[b] == Bounds(Bound(r, b), Bound(r, b + 1))
      && |picks[b]| == Bound(r, b + 1) - Bound(r, b)
  }

  lemma ListedStep(r: Run, n: nat, bounds: seq<Bounds>, picks: seq<seq<nat>>, replace: seq<nat>)
    requires 0 < r.size && Listed(r, n, bounds, picks) && |replace| == Bound(r, n + 1) - Bound(r, n)
    ensures Listed(r, n + 1, bounds + [Bounds(Bound(r, n), Bound(r, n + 1))], picks + [replace])
  {
    BoundMonotone(r, n, n + 1);
    hide Bound;
  }

  lemma LastBlock(r: Run, n: nat)
    requires GoodRun(r) && n <= |r.masks| && Bound(r, n) == r.edgeNum
    ensures n == |r.masks|
  {
  }

  lemma RunParts(r: Run, b: nat)
    requires GoodRun(r) && b <= |r.masks|
    ensures 0 < r.size && r.edgeNum < INF && Bound(r, 0) == 0 && Bound(r, |r.masks|) == r.edgeNum
    ensures |Before(r, b)| == |r.totaleid| && (b < |r.masks| ==> Before(r, b + 1) == r.masks[b])
    ensures Bound(r, b) < r.edgeNum ==> b < |r.masks|
  {
    BeforeFits(r, b);
  }

  lemma LoopStart(r: Run, flags: seq<int>, size0: nat)
    requires GoodRun(r) && |Before(r, 0)| == |r.totaleid| && Counted(r, Before(r, 0), flags)
    ensures LoopInv(r, 0, State(seq(size0, i => INF), [], 0, [], flags, 0, 0, 0, []), [])
  {
    assert LiveBelow(flags, 0) == {};
  }

  lemma LoopParts(r: Run, b: nat, s: State, picks: seq<seq<nat>>)
    requires GoodRun(r) && b <= |r.masks| && LoopInv(r, b, s, picks)
    ensures Inv(s) && s.endEid == Bound(r, b) && |s.eidFlag| == r.edgeNum < INF
    ensures |s.slots| == s.endEid && s.slots == Concat(picks) && InRange(s.slots, s.endPtr)
    ensures s.endPtr == Peak(r, b) && SafeUpTo(r, b, s.slots)
  {
    BeforeFits(r, b);
    InvParts(s);
  }

  lemma MidParts(r: Run, b: nat, s: State, picks: seq<seq<nat>>)
    requires GoodRun(r) && b < |r.masks| && MidInv(r, b, s, picks)
    ensures |Before(r, b)| == |r.totaleid| == |r.masks[b]| && Counted(r, Before(r, b), s.eidFlag)
    ensures |s.eidFlag| == r.edgeNum && s.endEid == Bound(r, b + 1)
    ensures forall i :: 0 <= i < |r.totaleid| ==> r.totaleid[i] < r.edgeNum
  {
    BeforeFits(r, b);
  }

  /** The part of the loop body that lowers the reference counts and finds the edges that leave. */
  method ExpireBlock(r: Run, b: nat, expired: seq<bool>, s: State, ghost picks: seq<seq<nat>>) returns (s': State)
    requires GoodRun(r) && b < |r.masks| && expired == Before(r, b) && MidInv(r, b, s, picks)
    ensures LoopInv(r, b + 1, s', picks) && s'.endEid == s.endEid
  {
    MidParts(r, b, s, picks);
    RunParts(r, b);
    hide GoodRun, GoodMask, MidInv, LoopInv, Counted, Lowered;
    var eidFlag := LowerCounts(s.eidFlag, r.totaleid, Xor(expired, r.masks[b]));
    CountsLowered(r, b, s.eidFlag, eidFlag);
    var gone := Nonzero(LeftNow(s.eidFlag, eidFlag));
    LeftNowLowered(s, eidFlag, gone);
    ExpireLoop(r, b, s, picks, eidFlag, gone);
    s' := s.(eidFlag := eidFlag, exp := gone, num := s.num - |gone|);
  }

  /** The loop body: the edges of block `b` get their slots, and then some edges leave. */
  method BlockStep(r: Run, b: nat, expired: seq<bool>, s: State, ghost picks: seq<seq<nat>>, ghost size0: nat)
    returns (s': State, replace: seq<nat>)
    requires GoodRun(r) && b < |r.masks| && expired == Before(r, b) && LoopInv(r, b, s, picks)
    requires r.size <= size0
    requires b == 0 ==> s.exp == [] && s.unexpire == [] && s.endPtr == 0 && |s.map_| == size0
    ensures |replace| == Bound(r, b + 1) - Bound(r, b) && s'.endEid == Bound(r, b + 1)
    ensures LoopInv(r, b + 1, s', picks + [replace])
  {
    LoopParts(r, b, s, picks);
    BoundStep(r, b);
    hide Inv, LoopInv, MidInv, Allocated, Before, AfterAllocate, Table;
    var cur := seq(Bound(r, b + 1) - Bound(r, b), i => Bound(r, b) + i);
    var mid;
    if b == 0 {
      mid, replace := PlaceFirst(s, cur);
    } else {
      mid, replace := PlaceLater(s, cur);
    }
    AllocateLoop(r, b, s, picks, replace, mid.unexpire, mid.endPtr);
    s' := ExpireBlock(r, b, expired, mid, picks + [replace]);
  }

  /** `gen_expire`. `size0` is the length the slot map starts with. The result lists, for every block, the
      bounds of its edges and the slots they get. The slots keep edges apart that are in use together, and
      their number is the peak number of such edges: no assignment could do with fewer. */
  method GenExpire(r: Run, size0: nat) returns (endPtr: nat, bounds: seq<Bounds>, picks: seq<seq<nat>>)
    requires GoodRun(r) && r.size <= size0
    ensures Listed(r, |r.masks|, bounds, picks)
    ensures |Concat(picks)| == r.edgeNum && InRange(Concat(picks), endPtr)
    ensures SafeUpTo(r, |r.masks|, Concat(picks))
    ensures endPtr == Peak(r, |r.masks|)
  {
    assert Listed(r, 0, [], []);
    hide GoodRun, Inv, LoopInv, Listed, Bound, MidInv, Allocated, SafeUpTo, Peak, Before, AfterAllocate, Table;
    RunParts(r, 0);
    var eidFlag := InitialCounts(r);
    var expired := Before(r, 0);
    var s := State(seq(size0, i => INF), [], 0, [], eidFlag, 0, 0, 0, []);
    LoopStart(r, eidFlag, size0);
    bounds, picks := [], [];
    var left, right, batchNum := 0, 0, 0;
    while true
      invariant batchNum <= |r.masks| && left == right == s.endEid == Bound(r, batchNum)
      invariant Listed(r, batchNum, bounds, picks)
      invariant expired == Before(r, batchNum)
      invariant batchNum == 0 ==> s.exp == [] && s.unexpire == [] && s.endPtr == 0 && |s.map_| == size0
      invariant LoopInv(r, batchNum, s, picks)
      decreases r.edgeNum - left
    {
      right := Min(r.edgeNum, right + r.size);
      if left >= right { break; }
      BoundStep(r, batchNum);
      RunParts(r, batchNum);
      LoopParts(r, batchNum, s, picks);
      var replace;
      s, replace := BlockStep(r, batchNum, expired, s, picks, size0);
      ListedStep(r, batchNum, bounds, picks, replace);
      bounds, picks := bounds + [Bounds(left, right)], picks + [replace];
      expired := r.masks[batchNum];
      left := right;
      batchNum := batchNum + 1;
      LoopParts(r, batchNum, s, picks);
    }
    LastBlock(r, batchNum);
    LoopParts(r, batchNum, s, picks);
    endPtr := s.endPtr;
  }
}
