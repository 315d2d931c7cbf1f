/** The planned cache of node memory on the host (pre_fetch.py, `mem_update` and `mem_select` with
    the memory on disk and the simple cache on). A row that some block sends is kept either in a
    cache slot or on disk. Slots are handed out lowest first and taken back without writing their
    row anywhere: that is safe only because of how the plan was made. */
module NodeCache {
  import opened Common
  import opened Tensors
  import opened NodePlan

  // ------------------------------------------------------------------------------- the slots alone

  ghost predicate Owned(flags: seq<nat>, s: nat) {
    exists v :: 0 <= v < |flags| && flags[v] == s
  }

  /** Exactly the nodes of `held` have a slot, each its own, in `1..maxNum`. Slot 0 stands for "not
      cached". */
  ghost predicate FlagInv(flags: seq<nat>, maxNum: nat, held: set<nat>) {
    && (forall v :: v in held ==> v < |flags|)
    && (forall v :: 0 <= v < |flags| ==> flags[v] <= maxNum && (flags[v] != 0 <==> v in held))
    && (forall v, w :: 0 <= v < w < |flags| && flags[v] != 0 ==> flags[v] != flags[w])
  }

  /** The used flags say which slots are taken. Slot 0 counts as taken; the flag array has one spare
      place at `maxNum + 1`, which has no row behind it. */
  ghost predicate UsedInv(flags: seq<nat>, used: seq<bool>, maxNum: nat) {
    && |used| == maxNum + 2 && used[0]
    && (forall s :: 1 <= s < |used| ==> (used[s] <==> Owned(flags, s)))
  }

  ghost predicate SlotInv(flags: seq<nat>, used: seq<bool>, maxNum: nat, held: set<nat>) {
    FlagInv(flags, maxNum, held) && UsedInv(flags, used, maxNum)
  }

  /** `node_cache_used[node_cache_flag[ends]] = False` */
  function ReleaseUsed(flags: seq<nat>, used: seq<bool>, ends: seq<nat>): (r: seq<bool>)
    requires InRange(ends, |flags|)
  {
    Fill(used, Gather(flags, ends), false)
  }

  lemma ReleaseSlot(flags: seq<nat>, used: seq<bool>, maxNum: nat, held: set<nat>, ends: seq<nat>, s: nat)
    requires SlotInv(flags, used, maxNum, held) && InRange(ends, |flags|)
    requires 1 <= s < |used|
    ensures ReleaseUsed(flags, used, ends)[s] <==> Owned(Fill(flags, ends, 0), s)
  {
    var flags', freed := Fill(flags, ends, 0), Gather(flags, ends);
    if s in freed {
      var k :| 0 <= k < |ends| && freed[k] == s;
      assert flags[ends[k]] == s && ends[k] in ends;
      assert !Owned(flags', s);
    } else {
      forall v | 0 <= v < |flags| && flags[v] == s ensures flags'[v] == s {
        if v in ends { GatherMember(flags, ends, v); }
      }
      assert forall v :: 0 <= v < |flags'| && flags'[v] == s ==> flags[v] == s;
    }
  }

  lemma ReleaseFlags(flags: seq<nat>, maxNum: nat, held: set<nat>, ends: seq<nat>)
    requires FlagInv(flags, maxNum, held)
    ensures FlagInv(Fill(flags, ends, 0), maxNum, held - Members(ends))
  {
  }

  /** Letting nodes go that hold a slot frees their slots, and never slot 0. */
  lemma ReleaseKeeps(flags: seq<nat>, used: seq<bool>, maxNum: nat, held: set<nat>, ends: seq<nat>)
    requires SlotInv(flags, used, maxNum, held)
    requires forall v :: v in ends ==> v in held
    ensures InRange(ends, |flags|)
    ensures SlotInv(Fill(flags, ends, 0), ReleaseUsed(flags, used, ends), maxNum, held - Members(ends))
  {
    assert forall k :: 0 <= k < |ends| ==> ends[k] in ends;
    assert 0 !in Gather(flags, ends);
    ReleaseFlags(flags, maxNum, held, ends);
    hide FlagInv;
    forall s | 1 <= s < |used| {
      ReleaseSlot(flags, used, maxNum, held, ends, s);
    }
  }

  /** `nonzero(~node_cache_used)[:k]`: the lowest free slots. */
  function LowestFree(used: seq<bool>, k: nat): (slots: seq<nat>)
    ensures |slots| <= k && StrictlySorted(slots) && InRange(slots, |used|)
    ensures forall j :: 0 <= j < |slots| ==> !used[slots[j]]
  {
    var free := Nonzero(Not(used));
    if |free| <= k then free else free[..k]
  }

  /** A free slot that is left over stands behind all that are taken, and is left only if there are enough. */
  lemma LeftOverIsHigher(used: seq<bool>, k: nat, s: nat)
    requires s < |used| && !used[s] && s !in LowestFree(used, k)
    ensures |LowestFree(used, k)| == k && forall j :: 0 <= j < k ==> LowestFree(used, k)[j] < s
  {
    var free := Nonzero(Not(used));
    assert Not(used)[s];
    var m :| 0 <= m < |free| && free[m] == s;
    assert forall j :: 0 <= j < |LowestFree(used, k)| ==> LowestFree(used, k)[j] == free[j];
  }

  /** Of the slots up to `maxNum`, all but the held ones and slot 0 are free. */
  lemma FreeBelow(flags: seq<nat>, used: seq<bool>, maxNum: nat, held: set<nat>)
    requires SlotInv(flags, used, maxNum, held)
    ensures |Nonzero(Not(used)[..maxNum + 1])| >= maxNum - |held|
  {
    var low := Nonzero(Not(used)[..maxNum + 1]);
    var image := set v | v in held :: flags[v];
    var lowSet := Members(low);
    forall s: nat | s < maxNum + 1 ensures s in lowSet + image + {0} {
      assert Not(used)[..maxNum + 1][s] == !used[s];
      if s != 0 && used[s] {
        assert Owned(flags, s);
      }
    }
    ImageCard(flags, held);
    hide SlotInv, Not, Nonzero;
    SubsetCard(Below(maxNum + 1), lowSet + image + {0});
    UnionCard(lowSet, image);
    UnionCard(lowSet + image, {0});
  }

  /** The allocator does not run short while the held nodes and the new ones fit into `maxNum`: it
      finds a slot for each, and none of them is the spare one. */
  lemma EnoughFree(flags: seq<nat>, used: seq<bool>, maxNum: nat, held: set<nat>, k: nat)
    requires SlotInv(flags, used, maxNum, held) && |held| + k <= maxNum
    ensures |LowestFree(used, k)| == k
    ensures forall j :: 0 <= j < k ==> 1 <= LowestFree(used, k)[j] <= maxNum
  {
    hide FlagInv, Owned, LowestFree, Nonzero, Not;
    FreeBelow(flags, used, maxNum, held);
    LowestFromPrefix(used, maxNum + 1, k);
  }

  lemma LowestFromPrefix(used: seq<bool>, n: nat, k: nat)
    requires n <= |used| && k <= |Nonzero(Not(used)[..n])|
    ensures |LowestFree(used, k)| == k && forall j :: 0 <= j < k ==> LowestFree(used, k)[j] < n
  {
    hide Nonzero, Not;
    NonzeroPrefix(Not(used), n);
    assert LowestFree(used, k) == Nonzero(Not(used)[..n])[..k];
  }

  lemma UnionCard<T>(a: set<T>, b: set<T>)
    ensures |a + b| <= |a| + |b|
  {
    assert a + b == a + (b - a);
    SubsetCard(b - a, b);
  }

  /** The slots chosen for the nodes in `nodes` are free ones of the proper range, each used once. */
  ghost predicate Admissible(flags: seq<nat>, used: seq<bool>, maxNum: nat, held: set<nat>, nodes: seq<nat>,
                             slots: seq<nat>) {
    && SlotInv(flags, used, maxNum, held)
    && InRange(nodes, |flags|) && Distinct(nodes) && (forall v :: v in nodes ==> v !in held)
    && |slots| == |nodes| && StrictlySorted(slots)
    && forall j :: 0 <= j < |slots| ==> 1 <= slots[j] <= maxNum && !used[slots[j]]
  }

  lemma NewSlotUnowned(flags: seq<nat>, used: seq<bool>, maxNum: nat, held: set<nat>, nodes: seq<nat>,
                       slots: seq<nat>, j: nat, v: nat)
    requires Admissible(flags, used, maxNum, held, nodes, slots)
    requires j < |slots| && v < |flags|
    ensures flags[v] != slots[j]
  {
    if flags[v] == slots[j] {
      assert Owned(flags, slots[j]);
    }
  }

  lemma AdmitFlag(flags: seq<nat>, used: seq<bool>, maxNum: nat, held: set<nat>, nodes: seq<nat>, slots: seq<nat>,
                  v: nat, w: nat)
    requires Admissible(flags, used, maxNum, held, nodes, slots) && v < |flags| && w < |flags|
    ensures var flags' := Scatter(flags, nodes, slots);
      && flags'[v] <= maxNum && (flags'[v] != 0 <==> v in held || v in nodes)
      && (v != w && flags'[v] != 0 ==> flags'[v] != flags'[w])
  {
    ScatterAt(flags, nodes, slots, v);
    ScatterAt(flags, nodes, slots, w);
    if v in nodes {
      NewSlotUnowned(flags, used, maxNum, held, nodes, slots, IndexOf(nodes, v), w);
    }
    if w in nodes {
      NewSlotUnowned(flags, used, maxNum, held, nodes, slots, IndexOf(nodes, w), v);
    }
  }

  lemma AdmitUsed(flags: seq<nat>, used: seq<bool>, maxNum: nat, held: set<nat>, nodes: seq<nat>, slots: seq<nat>,
                  s: nat)
    requires Admissible(flags, used, maxNum, held, nodes, slots) && 1 <= s < |used|
    ensures Fill(used, slots, true)[s] <==> Owned(Scatter(flags, nodes, slots), s)
  {
    var flags' := Scatter(flags, nodes, slots);
    if s in slots {
      var k :| 0 <= k < |slots| && slots[k] == s;
      assert flags'[nodes[k]] == s;
    } else {
      forall v | 0 <= v < |flags| ensures flags'[v] == s <==> flags[v] == s {
        ScatterAt(flags, nodes, slots, v);
        assert v in nodes ==> v !in held && slots[IndexOf(nodes, v)] in slots;
      }
    }
  }

  lemma LowestFreeAdmissible(flags: seq<nat>, used: seq<bool>, maxNum: nat, held: set<nat>, nodes: seq<nat>)
    requires SlotInv(flags, used, maxNum, held) && |held| + |nodes| <= maxNum
    requires InRange(nodes, |flags|) && Distinct(nodes) && held !! Members(nodes)
    ensures Admissible(flags, used, maxNum, held, nodes, LowestFree(used, |nodes|))
  {
    hide SlotInv, LowestFree, Distinct, StrictlySorted, Members;
    EnoughFree(flags, used, maxNum, held, |nodes|);
    assert forall v :: v in nodes ==> v in Members(nodes);
  }

  /** Handing free slots to nodes that hold none keeps the slots in order. */
  lemma AdmitKeeps(flags: seq<nat>, used: seq<bool>, maxNum: nat, held: set<nat>, nodes: seq<nat>, slots: seq<nat>)
    requires Admissible(flags, used, maxNum, held, nodes, slots)
    ensures SlotInv(Scatter(flags, nodes, slots), Fill(used, slots, true), maxNum, held + Members(nodes))
  {
    hide FlagInv, UsedInv, Admissible;
    AdmissibleParts(flags, used, maxNum, held, nodes, slots);
    AdmitFlags(flags, used, maxNum, held, nodes, slots);
    AdmitUsedFlags(flags, used, maxNum, held, nodes, slots);
  }

  lemma AdmitUsedFlags(flags: seq<nat>, used: seq<bool>, maxNum: nat, held: set<nat>, nodes: seq<nat>,
                       slots: seq<nat>)
    requires Admissible(flags, used, maxNum, held, nodes, slots)
    ensures UsedInv(Scatter(flags, nodes, slots), Fill(used, slots, true), maxNum)
  {
    hide FlagInv, Owned, Distinct, StrictlySorted, Scatter;
    forall s | 1 <= s < |used| ensures Fill(used, slots, true)[s] <==> Owned(Scatter(flags, nodes, slots), s) {
      AdmitUsed(flags, used, maxNum, held, nodes, slots, s);
    }
  }

  lemma AdmitFlags(flags: seq<nat>, used: seq<bool>, maxNum: nat, held: set<nat>, nodes: seq<nat>, slots: seq<nat>)
    requires Admissible(flags, used, maxNum, held, nodes, slots)
    ensures FlagInv(Scatter(flags, nodes, slots), maxNum, held + Members(nodes))
  {
    hide Admissible, Scatter;
    AdmissibleParts(flags, used, maxNum, held, nodes, slots);
    var flags' := Scatter(flags, nodes, slots);
    forall v: nat | v < |flags'| ensures flags'[v] <= maxNum && (flags'[v] != 0 <==> v in held + Members(nodes)) {
      AdmitFlag(flags, used, maxNum, held, nodes, slots, v, v);
    }
    forall v, w | 0 <= v < w < |flags'| && flags'[v] != 0 ensures flags'[v] != flags'[w] {
      AdmitFlag(flags, used, maxNum, held, nodes, slots, v, w);
    }
  }

  lemma AdmissibleParts(flags: seq<nat>, used: seq<bool>, maxNum: nat, held: set<nat>, nodes: seq<nat>, slots: seq<nat>)
    requires Admissible(flags, used, maxNum, held, nodes, slots)
    ensures |nodes| == |slots| && InRange(nodes, |flags|)
    ensures forall v :: v in held + Members(nodes) ==> v < |flags|
  {
    assert forall v :: v in nodes ==> v < |flags|;
  }

  /** An admitted node points at its slot, and its slot holds its row. */
  lemma AdmittedRow(flags: seq<nat>, used: seq<bool>, maxNum: nat, held: set<nat>, nodes: seq<nat>, slots: seq<nat>,
                    cache: seq<Row>, vals: seq<Row>, k: nat)
    requires Admissible(flags, used, maxNum, held, nodes, slots) && k < |nodes|
    requires |cache| == maxNum + 1 && |vals| == |slots|
    ensures InRange(slots, |cache|)
    ensures Scatter(flags, nodes, slots)[nodes[k]] == slots[k] && 1 <= slots[k] <= maxNum
    ensures Scatter(cache, slots, vals)[slots[k]] == vals[k]
  {
  }

  // ------------------------------------------------------------------------- what the plan promises

  /** The nodes that hold a slot when block `b` is about to be written. */
  function HeldSet(ivs: seq<Interval>, b: nat): (held: set<nat>)
  {
    if b == 0 then {} else Members(BatchPlan(ivs, b - 1))
  }

  lemma HeldSetMembers(ivs: seq<Interval>, b: nat, v: nat)
    ensures v in HeldSet(ivs, b) <==> exists iv :: iv in ivs && iv.id == v && iv.start < b <= iv.end
  {
    if b > 0 {
      assert v in HeldSet(ivs, b) <==> v in BatchPlan(ivs, b - 1);
      assert forall iv: Interval :: iv.start < b <= iv.end <==> iv.start <= b - 1 < iv.end;
    }
  }

  /** The plan for these blocks: its intervals, each there once, join consecutive sends of a node. */
  ghost predicate PlanFor(blocks: seq<seq<nat>>, nodeNum: nat, ivs: seq<Interval>, maxNum: nat) {
    && Blocks(blocks, nodeNum) && Distinct(ivs)
    && (forall iv :: iv in ivs ==> Consecutive(blocks, iv))
    && forall t :: 0 <= t < |blocks| ==> Cover(ivs, t) <= maxNum
  }

  /** A release is always of a node that holds a slot and is sent again by that same block; a node
      that is sent while it holds a slot is always released. */
  lemma ReleasesAreResent(blocks: seq<seq<nat>>, nodeNum: nat, ivs: seq<Interval>, maxNum: nat, b: nat, v: nat)
    requires PlanFor(blocks, nodeNum, ivs, maxNum) && b < |blocks|
    ensures v in EndsAt(ivs, b) <==> v in HeldSet(ivs, b) && v in blocks[b]
  {
    HeldSetMembers(ivs, b, v);
    if v in EndsAt(ivs, b) {
      var iv :| iv in ivs && iv.id == v && iv.end == b;
      assert Consecutive(blocks, iv);
    }
    if v in HeldSet(ivs, b) && v in blocks[b] {
      var iv :| iv in ivs && iv.id == v && iv.start < b <= iv.end;
      assert Consecutive(blocks, iv);
      assert iv.end == b;
    }
  }

  lemma HeldStepAt(blocks: seq<seq<nat>>, nodeNum: nat, ivs: seq<Interval>, maxNum: nat, b: nat, v: nat)
    requires PlanFor(blocks, nodeNum, ivs, maxNum) && b < |blocks|
    ensures v in HeldSet(ivs, b + 1) <==> (v in HeldSet(ivs, b) && v !in EndsAt(ivs, b)) || v in StartsAt(ivs, b)
  {
    HeldSetMembers(ivs, b, v);
    HeldSetMembers(ivs, b + 1, v);
    ReleasesAreResent(blocks, nodeNum, ivs, maxNum, b, v);
    assert forall iv :: iv in ivs ==> Consecutive(blocks, iv);
    hide PlanFor, HeldSet;
    if v in HeldSet(ivs, b + 1) && v !in StartsAt(ivs, b) {
      var iv :| iv in ivs && iv.id == v && iv.start < b + 1 <= iv.end;
      assert Consecutive(blocks, iv) && iv.start < b;
    }
    if v in StartsAt(ivs, b) {
      var iv :| iv in ivs && iv.id == v && iv.start == b;
      assert Consecutive(blocks, iv);
    }
    if v in HeldSet(ivs, b) && v !in EndsAt(ivs, b) {
      var iv :| iv in ivs && iv.id == v && iv.start < b <= iv.end;
      assert iv.end != b;
    }
  }

  /** The slots move on from block to block by the releases and the admissions. */
  lemma HeldSetStep(blocks: seq<seq<nat>>, nodeNum: nat, ivs: seq<Interval>, maxNum: nat, b: nat)
    requires PlanFor(blocks, nodeNum, ivs, maxNum) && b < |blocks|
    ensures HeldSet(ivs, b + 1) == (HeldSet(ivs, b) - Members(EndsAt(ivs, b))) + Members(StartsAt(ivs, b))
  {
    hide PlanFor, HeldSet;
    forall v: nat
      ensures v in HeldSet(ivs, b + 1) <==> (v in HeldSet(ivs, b) && v !in EndsAt(ivs, b)) || v in StartsAt(ivs, b)
    {
      HeldStepAt(blocks, nodeNum, ivs, maxNum, b, v);
    }
  }

  lemma StartsAreSent(blocks: seq<seq<nat>>, nodeNum: nat, ivs: seq<Interval>, maxNum: nat, b: nat, v: nat)
    requires PlanFor(blocks, nodeNum, ivs, maxNum) && b < |blocks| && v in StartsAt(ivs, b)
    ensures v in blocks[b] && (v in HeldSet(ivs, b) ==> v in EndsAt(ivs, b))
  {
    var iv :| iv in ivs && iv.id == v && iv.start == b;
    assert Consecutive(blocks, iv);
    ReleasesAreResent(blocks, nodeNum, ivs, maxNum, b, v);
  }

  // ------------------------------------------------------------------------------ rows and the disk

  /** The fields of `Pre_fetch` that hold node memory. `disk` is the memory file. */
  datatype Store = Store(
    flags: seq<nat>, used: seq<bool>, cache: seq<Row>, memFlag: seq<bool>, disk: seq<Row>)

  /** What the run was set up with. `place` says which row of the memory file a node has. */
  datatype Setup = Setup(
    blocks: seq<seq<nat>>, ivs: seq<Interval>, files: PlanFiles,
    nodeNum: nat, maxNum: nat, place: seq<nat>, diskRows: nat, zero: Row)

  ghost predicate GoodSetup(e: Setup) {
    && PlanFor(e.blocks, e.nodeNum, e.ivs, e.maxNum)
    && |e.place| == e.nodeNum && Distinct(e.place) && InRange(e.place, e.diskRows)
  }

  ghost predicate Shaped(e: Setup, s: Store) {
    && |s.flags| == e.nodeNum + 1 && |s.used| == e.maxNum + 2 && |s.cache| == e.maxNum + 1
    && |s.memFlag| == e.nodeNum && |s.disk| == e.diskRows
  }

  /** Where the row of node `v` is read from. */
  function Lookup(e: Setup, s: Store, v: nat): (row: Row)
    requires |e.place| == e.nodeNum && InRange(e.place, e.diskRows) && v < e.nodeNum
    requires Shaped(e, s) && s.flags[v] <= e.maxNum
  {
    if !s.memFlag[v] then e.zero
    else if s.flags[v] != 0 then s.cache[s.flags[v]]
    else s.disk[e.place[v]]
  }

  ghost predicate SentBefore(blocks: seq<seq<nat>>, b: nat, v: nat)
    requires b <= |blocks|
  {
    exists k :: 0 <= k < b && v in blocks[k]
  }

  /** After the first `b` blocks: the slots are in order, only nodes that were sent have a row, and
      every node reads as the reference table says. */
  ghost predicate Coherent(e: Setup, s: Store, ref: seq<Row>, b: nat)
    requires GoodSetup(e) && b <= |e.blocks|
  {
    && Shaped(e, s) && |ref| == e.nodeNum
    && SlotInv(s.flags, s.used, e.maxNum, HeldSet(e.ivs, b))
    && (forall v :: 0 <= v < e.nodeNum ==> (s.memFlag[v] <==> SentBefore(e.blocks, b, v)))
    && forall v :: 0 <= v < e.nodeNum ==> Lookup(e, s, v) == ref[v]
  }

  /** The state after `init_memory` or `reset_memory`; the memory file keeps what it had. */
  ghost predicate Fresh(e: Setup, s: Store)
  {
    && Shaped(e, s)
    && (forall v :: 0 <= v < |s.flags| ==> s.flags[v] == 0)
    && (forall i :: 0 <= i < |s.used| ==> (s.used[i] <==> i == 0))
    && (forall v :: 0 <= v < |s.memFlag| ==> !s.memFlag[v])
  }

  lemma FreshCoherent(e: Setup, s: Store)
    requires GoodSetup(e) && Fresh(e, s)
    ensures Coherent(e, s, seq(e.nodeNum, v => e.zero), 0)
  {
  }

  // ------------------------------------------------------------------------- one call of mem_update

  /** What the plan files say about one block. */
  datatype BlockPlan = BlockPlan(ends: seq<nat>, cacheRows: seq<nat>, flushRows: seq<nat>)

  ghost predicate HasSlice(flat: seq<nat>, ptr: seq<nat>, b: nat) {
    b + 1 < |ptr| && ptr[b] <= ptr[b + 1] <= |flat|
  }

  ghost predicate HasPlan(files: PlanFiles, b: nat) {
    && HasSlice(files.endFlushIdx, files.endFlushPtr, b)
    && HasSlice(files.startCacheInd, files.startCachePtr, b)
    && HasSlice(files.startFlushInd, files.startFlushPtr, b)
  }

  function PlanSlice(files: PlanFiles, b: nat): (p: BlockPlan)
    requires HasPlan(files, b)
  {
    BlockPlan(
      files.endFlushIdx[files.endFlushPtr[b]..files.endFlushPtr[b + 1]],
      files.startCacheInd[files.startCachePtr[b]..files.startCachePtr[b + 1]],
      files.startFlushInd[files.startFlushPtr[b]..files.startFlushPtr[b + 1]])
  }

  /** The part of the plan that block `b` reads, as the planner meant it. */
  function PlanOf(e: Setup, b: nat): (p: BlockPlan)
    requires b < |e.blocks|
  {
    BlockPlan(EndsAt(e.ivs, b), CacheRows(e.blocks, e.ivs, b), FlushRows(e.blocks, e.ivs, b))
  }

  lemma PlanSliceIsPlan(e: Setup, b: nat)
    requires FilesOf(e.files, e.blocks, e.ivs) && b < |e.blocks|
    ensures HasPlan(e.files, b)
    ensures PlanSlice(e.files, b) == PlanOf(e, b)
  {
    CsrSlice(e.files.endFlushIdx, e.files.endFlushPtr, EndLists(e.ivs, |e.blocks|), b);
    CsrSlice(e.files.startCacheInd, e.files.startCachePtr, CacheLists(e.blocks, e.ivs, |e.blocks|), b);
    CsrSlice(e.files.startFlushInd, e.files.startFlushPtr, FlushLists(e.blocks, e.ivs, |e.blocks|), b);
  }

  /** Every index the update uses is in range, and there is a slot for every row to be cached. */
  ghost predicate Ready(e: Setup, s: Store, p: BlockPlan, indices: seq<nat>) {
    && Shaped(e, s) && |e.place| == e.nodeNum && InRange(e.place, e.diskRows)
    && InRange(indices, e.nodeNum)
    && (forall v :: 0 <= v < |s.flags| ==> s.flags[v] <= e.maxNum)
    && InRange(p.ends, |s.flags|) && InRange(p.cacheRows, |indices|) && InRange(p.flushRows, |indices|)
    && var slots := LowestFree(ReleaseUsed(s.flags, s.used, p.ends), |p.cacheRows|);
       |slots| == |p.cacheRows| && InRange(slots, e.maxNum + 1)
  }

  function SlotsFor(s: Store, p: BlockPlan): (slots: seq<nat>)
    requires InRange(p.ends, |s.flags|)
  {
    LowestFree(ReleaseUsed(s.flags, s.used, p.ends), |p.cacheRows|)
  }

  function FlagsAfter(s: Store, p: BlockPlan, indices: seq<nat>): (flags: seq<nat>)
    requires InRange(p.ends, |s.flags|) && InRange(p.cacheRows, |indices|) && InRange(indices, |s.flags|)
    requires |SlotsFor(s, p)| == |p.cacheRows|
  {
    Scatter(Fill(s.flags, p.ends, 0), Gather(indices, p.cacheRows), SlotsFor(s, p))
  }

  /** `mem_update` on a non-empty list of nodes. */
  function Updated(e: Setup, s: Store, p: BlockPlan, indices: seq<nat>, mems: seq<Row>): (s': Store)
    requires Ready(e, s, p, indices) && |mems| == |indices|
  {
    var slots := SlotsFor(s, p);
    Store(
      FlagsAfter(s, p, indices),
      Fill(ReleaseUsed(s.flags, s.used, p.ends), slots, true),
      Scatter(s.cache, slots, Gather(mems, p.cacheRows)),
      Fill(s.memFlag, indices, true),
      Scatter(s.disk, Gather(e.place, Gather(indices, p.flushRows)), Gather(mems, p.flushRows)))
  }

  /** `mem_update`: an empty list of nodes leaves everything alone, releases included. */
  function AfterMemUpdate(e: Setup, s: Store, p: BlockPlan, indices: seq<nat>, mems: seq<Row>): (s': Store)
    requires Ready(e, s, p, indices) && |mems| == |indices|
  {
    if |indices| == 0 then s else Updated(e, s, p, indices, mems)
  }

  /** The nodes that enter the cache: exactly those with an interval that starts here. */
  lemma CachedNodes(e: Setup, b: nat)
    requires GoodSetup(e) && b < |e.blocks|
    ensures InRange(CacheRows(e.blocks, e.ivs, b), |e.blocks[b]|)
    ensures Distinct(Gather(e.blocks[b], CacheRows(e.blocks, e.ivs, b)))
    ensures Members(Gather(e.blocks[b], CacheRows(e.blocks, e.ivs, b))) == Members(StartsAt(e.ivs, b))
  {
    forall v | v in StartsAt(e.ivs, b) ensures v in e.blocks[b] {
      StartsAreSent(e.blocks, e.nodeNum, e.ivs, e.maxNum, b, v);
    }
    SelectIsin(e.blocks[b], StartsAt(e.ivs, b));
  }

  /** The nodes still holding a slot once block `b` has made its releases. */
  ghost function StillHeld(e: Setup, b: nat): (held: set<nat>) {
    HeldSet(e.ivs, b) - Members(EndsAt(e.ivs, b))
  }

  /** As many nodes hold a slot after block `b` as intervals cover it. */
  lemma HeldCount(e: Setup, b: nat)
    requires GoodSetup(e) && b < |e.blocks|
    ensures |HeldSet(e.ivs, b + 1)| == Cover(e.ivs, b) <= e.maxNum
  {
    PlanDistinct(e.blocks, e.ivs, b);
    hide BatchPlan, Consecutive;
  }

  /** After the releases, held nodes and new ones together are those that the plan counted for this block, so that
      used plus new slots are the plan's coverage. */
  lemma CoverageBound(e: Setup, b: nat)
    requires GoodSetup(e) && b < |e.blocks|
    ensures InRange(CacheRows(e.blocks, e.ivs, b), |e.blocks[b]|)
    ensures var nodes := Gather(e.blocks[b], CacheRows(e.blocks, e.ivs, b));
      && Distinct(nodes) && InRange(nodes, e.nodeNum)
      && StillHeld(e, b) !! Members(nodes)
      && StillHeld(e, b) + Members(nodes) == HeldSet(e.ivs, b + 1)
      && |StillHeld(e, b)| + |nodes| == Cover(e.ivs, b) <= e.maxNum
  {
    forall v | v in StartsAt(e.ivs, b) ensures v !in StillHeld(e, b) {
      StartsAreSent(e.blocks, e.nodeNum, e.ivs, e.maxNum, b, v);
    }
    HeldSetStep(e.blocks, e.nodeNum, e.ivs, e.maxNum, b);
    CachedNodes(e, b);
    HeldCount(e, b);
    assert InRange(e.blocks[b], e.nodeNum);
    GatherInRange(e.blocks[b], CacheRows(e.blocks, e.ivs, b), e.nodeNum);
    hide GoodSetup, CacheRows, InRange, HeldSet, Cover;
    var nodes := Gather(e.blocks[b], CacheRows(e.blocks, e.ivs, b));
    assert |StillHeld(e, b) + Members(nodes)| == |StillHeld(e, b)| + |nodes|;
  }

  lemma AfterReleases(e: Setup, s: Store, ref: seq<Row>, b: nat)
    requires GoodSetup(e) && b < |e.blocks| && Coherent(e, s, ref, b)
    ensures InRange(EndsAt(e.ivs, b), |s.flags|)
    ensures SlotInv(Fill(s.flags, EndsAt(e.ivs, b), 0), ReleaseUsed(s.flags, s.used, EndsAt(e.ivs, b)), e.maxNum,
      StillHeld(e, b))
  {
    forall v | v in EndsAt(e.ivs, b) ensures v in HeldSet(e.ivs, b) {
      ReleasesAreResent(e.blocks, e.nodeNum, e.ivs, e.maxNum, b, v);
    }
    ReleaseKeeps(s.flags, s.used, e.maxNum, HeldSet(e.ivs, b), EndsAt(e.ivs, b));
  }

  /** The allocator never runs short and never hands out the spare slot. */
  lemma SlotsAdmissible(e: Setup, s: Store, ref: seq<Row>, b: nat)
    requires GoodSetup(e) && b < |e.blocks| && Coherent(e, s, ref, b)
    ensures InRange(EndsAt(e.ivs, b), |s.flags|) && InRange(CacheRows(e.blocks, e.ivs, b), |e.blocks[b]|)
    ensures Admissible(Fill(s.flags, EndsAt(e.ivs, b), 0), ReleaseUsed(s.flags, s.used, EndsAt(e.ivs, b)), e.maxNum,
      StillHeld(e, b), Gather(e.blocks[b], CacheRows(e.blocks, e.ivs, b)), SlotsFor(s, PlanOf(e, b)))
  {
    AfterReleases(e, s, ref, b);
    CoverageBound(e, b);
    hide SlotInv, Admissible, GoodSetup, StillHeld, HeldSet;
    LowestFreeAdmissible(Fill(s.flags, EndsAt(e.ivs, b), 0), ReleaseUsed(s.flags, s.used, EndsAt(e.ivs, b)), e.maxNum,
      StillHeld(e, b), Gather(e.blocks[b], CacheRows(e.blocks, e.ivs, b)));
  }

  lemma UpdateReady(e: Setup, s: Store, ref: seq<Row>, b: nat)
    requires GoodSetup(e) && b < |e.blocks| && Coherent(e, s, ref, b)
    ensures Ready(e, s, PlanOf(e, b), e.blocks[b])
  {
    SlotsAdmissible(e, s, ref, b);
  }

  lemma UpdateSlots(e: Setup, s: Store, ref: seq<Row>, b: nat)
    requires GoodSetup(e) && b < |e.blocks| && Coherent(e, s, ref, b)
    requires Ready(e, s, PlanOf(e, b), e.blocks[b])
    ensures SlotInv(FlagsAfter(s, PlanOf(e, b), e.blocks[b]),
      Fill(ReleaseUsed(s.flags, s.used, EndsAt(e.ivs, b)), SlotsFor(s, PlanOf(e, b)), true),
      e.maxNum, HeldSet(e.ivs, b + 1))
  {
    SlotsAdmissible(e, s, ref, b);
    CoverageBound(e, b);
    hide *;
    AdmitKeeps(Fill(s.flags, EndsAt(e.ivs, b), 0), ReleaseUsed(s.flags, s.used, EndsAt(e.ivs, b)), e.maxNum,
      StillHeld(e, b), Gather(e.blocks[b], CacheRows(e.blocks, e.ivs, b)), SlotsFor(s, PlanOf(e, b)));
  }

  /** The row of a node of block `b` that enters the cache goes into its new slot. */
  lemma CachedRow(e: Setup, s: Store, ref: seq<Row>, b: nat, mems: seq<Row>, i: nat)
    requires GoodSetup(e) && b < |e.blocks| && Coherent(e, s, ref, b) && i < |e.blocks[b]|
    requires Ready(e, s, PlanOf(e, b), e.blocks[b]) && |mems| == |e.blocks[b]|
    requires e.blocks[b][i] in StartsAt(e.ivs, b)
    ensures var s' := Updated(e, s, PlanOf(e, b), e.blocks[b], mems);
      var v := e.blocks[b][i];
      v < e.nodeNum && 1 <= s'.flags[v] <= e.maxNum && s'.cache[s'.flags[v]] == mems[i]
  {
    SlotsAdmissible(e, s, ref, b);
    var block, rows := e.blocks[b], CacheRows(e.blocks, e.ivs, b);
    var k := IndexOf(rows, i);
    assert k >= 0 by {
      assert Isin(block, StartsAt(e.ivs, b))[i];
    }
    hide SlotInv, Coherent, GoodSetup, CacheRows, Admissible;
    AdmittedRow(Fill(s.flags, EndsAt(e.ivs, b), 0), ReleaseUsed(s.flags, s.used, EndsAt(e.ivs, b)), e.maxNum,
      StillHeld(e, b), Gather(block, rows), SlotsFor(s, PlanOf(e, b)), s.cache, Gather(mems, rows), k);
  }

  /** A node of block `b` that does not enter the cache holds no slot afterwards. */
  lemma NotCached(e: Setup, s: Store, ref: seq<Row>, b: nat, v: nat)
    requires GoodSetup(e) && b < |e.blocks| && Coherent(e, s, ref, b)
    requires Ready(e, s, PlanOf(e, b), e.blocks[b])
    requires v in e.blocks[b] && v < e.nodeNum && v !in StartsAt(e.ivs, b)
    ensures FlagsAfter(s, PlanOf(e, b), e.blocks[b])[v] == 0
  {
    UpdateSlots(e, s, ref, b);
    HeldSetStep(e.blocks, e.nodeNum, e.ivs, e.maxNum, b);
    ReleasesAreResent(e.blocks, e.nodeNum, e.ivs, e.maxNum, b, v);
  }

  /** Its row goes to its place in the memory file. */
  lemma FlushedRow(e: Setup, s: Store, b: nat, mems: seq<Row>, i: nat)
    requires GoodSetup(e) && b < |e.blocks| && i < |e.blocks[b]|
    requires Ready(e, s, PlanOf(e, b), e.blocks[b]) && |mems| == |e.blocks[b]|
    requires e.blocks[b][i] !in StartsAt(e.ivs, b)
    ensures e.blocks[b][i] < e.nodeNum
    ensures Updated(e, s, PlanOf(e, b), e.blocks[b], mems).disk[e.place[e.blocks[b][i]]] == mems[i]
  {
    var block, rows := e.blocks[b], FlushRows(e.blocks, e.ivs, b);
    assert Not(Isin(block, StartsAt(e.ivs, b)))[i];
    var k :| 0 <= k < |rows| && rows[k] == i;
    var places := Gather(e.place, Gather(block, rows));
    assert Distinct(places) by {
      forall j, l | 0 <= j < l < |places| ensures places[j] != places[l] {
        assert rows[j] < rows[l] && block[rows[j]] < block[rows[l]];
      }
    }
    assert places[k] == e.place[block[i]];
    assert Gather(mems, rows)[k] == mems[i];
  }

  /** A node that block `b` does not send keeps its slot or its place on disk, and the row there. */
  lemma UnsentFlag(e: Setup, s: Store, ref: seq<Row>, b: nat, v: nat)
    requires GoodSetup(e) && b < |e.blocks| && Coherent(e, s, ref, b)
    requires Ready(e, s, PlanOf(e, b), e.blocks[b])
    requires v < e.nodeNum && v !in e.blocks[b]
    ensures FlagsAfter(s, PlanOf(e, b), e.blocks[b])[v] == s.flags[v]
    ensures s.flags[v] !in SlotsFor(s, PlanOf(e, b))
  {
    var ends, nodes := EndsAt(e.ivs, b), Gather(e.blocks[b], CacheRows(e.blocks, e.ivs, b));
    ReleasesAreResent(e.blocks, e.nodeNum, e.ivs, e.maxNum, b, v);
    SlotsAdmissible(e, s, ref, b);
    assert v !in nodes;
    hide SlotInv, GoodSetup;
    var flags := Fill(s.flags, ends, 0);
    ScatterAt(flags, nodes, SlotsFor(s, PlanOf(e, b)), v);
    forall j | 0 <= j < |nodes| ensures SlotsFor(s, PlanOf(e, b))[j] != flags[v] {
      NewSlotUnowned(flags, ReleaseUsed(s.flags, s.used, ends), e.maxNum, StillHeld(e, b), nodes,
        SlotsFor(s, PlanOf(e, b)), j, v);
    }
  }

  lemma UnsentPlace(e: Setup, b: nat, v: nat)
    requires GoodSetup(e) && b < |e.blocks| && v < e.nodeNum && v !in e.blocks[b]
    ensures InRange(FlushRows(e.blocks, e.ivs, b), |e.blocks[b]|)
    ensures InRange(Gather(e.blocks[b], FlushRows(e.blocks, e.ivs, b)), e.nodeNum)
    ensures e.place[v] !in Gather(e.place, Gather(e.blocks[b], FlushRows(e.blocks, e.ivs, b)))
  {
  }

  lemma LookupAfter(e: Setup, s: Store, ref: seq<Row>, b: nat, mems: seq<Row>, v: nat)
    requires GoodSetup(e) && b < |e.blocks| && Coherent(e, s, ref, b) && |mems| == |e.blocks[b]|
    requires Ready(e, s, PlanOf(e, b), e.blocks[b]) && v < e.nodeNum
    ensures var s' := Updated(e, s, PlanOf(e, b), e.blocks[b], mems);
      s'.flags[v] <= e.maxNum && Lookup(e, s', v) == Scatter(ref, e.blocks[b], mems)[v]
  {
    var block := e.blocks[b];
    assert StrictlySorted(block) && InRange(block, e.nodeNum);
    if v !in block {
      UnsentFlag(e, s, ref, b, v);
      UnsentPlace(e, b, v);
      hide SlotInv, GoodSetup;
      assert Lookup(e, s, v) == ref[v];
    } else {
      var i := IndexOf(block, v);
      ScatterAt(ref, block, mems, v);
      if v in StartsAt(e.ivs, b) {
        CachedRow(e, s, ref, b, mems, i);
      } else {
        NotCached(e, s, ref, b, v);
        FlushedRow(e, s, b, mems, i);
      }
      hide SlotInv, GoodSetup, Coherent;
      assert Updated(e, s, PlanOf(e, b), block, mems).memFlag[v];
    }
  }

  /** Cache plus disk refine a plain table: one call of `mem_update` with the nodes of block `b` writes
      each of them and nothing else, as reads will see it. */
  lemma UpdateCoherent(e: Setup, s: Store, ref: seq<Row>, b: nat, mems: seq<Row>)
    requires GoodSetup(e) && b < |e.blocks| && Coherent(e, s, ref, b) && |mems| == |e.blocks[b]|
    ensures Ready(e, s, PlanOf(e, b), e.blocks[b])
    ensures InRange(e.blocks[b], e.nodeNum)
    ensures Coherent(e, AfterMemUpdate(e, s, PlanOf(e, b), e.blocks[b], mems), Scatter(ref, e.blocks[b], mems), b + 1)
  {
    hide Coherent, GoodSetup, Ready, Updated, InRange, Scatter;
    UpdateReady(e, s, ref, b);
    BlockInRange(e, b);
    if |e.blocks[b]| == 0 {
      EmptyCoherent(e, s, ref, b, mems);
    } else {
      NonemptyCoherent(e, s, ref, b, mems);
    }
  }

  lemma BlockInRange(e: Setup, b: nat)
    requires GoodSetup(e) && b < |e.blocks|
    ensures InRange(e.blocks[b], e.nodeNum)
  {
  }

  lemma EmptyCoherent(e: Setup, s: Store, ref: seq<Row>, b: nat, mems: seq<Row>)
    requires GoodSetup(e) && b < |e.blocks| && Coherent(e, s, ref, b) && e.blocks[b] == [] && mems == []
    ensures Scatter(ref, [], []) == ref && Coherent(e, s, ref, b + 1)
  {
    hide SlotInv, Lookup, PlanFor, HeldSet, SentBefore;
    NothingSent(e, s, ref, b);
    forall v | 0 <= v < e.nodeNum ensures s.memFlag[v] <==> SentBefore(e.blocks, b + 1, v) {
      SentBeforeStep(e.blocks, b, v);
    }
  }

  lemma SentBeforeStep(blocks: seq<seq<nat>>, b: nat, v: nat)
    requires b < |blocks|
    ensures SentBefore(blocks, b + 1, v) <==> SentBefore(blocks, b, v) || v in blocks[b]
  {
  }

  lemma MemFlagsAfter(e: Setup, s: Store, ref: seq<Row>, b: nat)
    requires GoodSetup(e) && b < |e.blocks| && Coherent(e, s, ref, b)
    ensures forall v :: 0 <= v < e.nodeNum ==>
      (Fill(s.memFlag, e.blocks[b], true)[v] <==> SentBefore(e.blocks, b + 1, v))
  {
    hide SlotInv, GoodSetup, Lookup;
    forall v | 0 <= v < e.nodeNum
      ensures Fill(s.memFlag, e.blocks[b], true)[v] <==> SentBefore(e.blocks, b + 1, v)
    {
      SentBeforeStep(e.blocks, b, v);
    }
  }

  lemma UpdatedParts(e: Setup, s: Store, p: BlockPlan, indices: seq<nat>, mems: seq<Row>)
    requires Ready(e, s, p, indices) && |mems| == |indices|
    ensures Shaped(e, Updated(e, s, p, indices, mems))
    ensures Updated(e, s, p, indices, mems).flags == FlagsAfter(s, p, indices)
    ensures Updated(e, s, p, indices, mems).used
      == Fill(ReleaseUsed(s.flags, s.used, p.ends), SlotsFor(s, p), true)
    ensures Updated(e, s, p, indices, mems).memFlag == Fill(s.memFlag, indices, true)
  {
  }

  /** What an update does not touch: the disk rows of all but the nodes that go to disk, and the slots of all but the
      nodes that get one. */
  lemma UpdateTouches(e: Setup, s: Store, b: nat, mems: seq<Row>, v: nat, slot: nat)
    requires GoodSetup(e) && b < |e.blocks| && Ready(e, s, PlanOf(e, b), e.blocks[b]) && |mems| == |e.blocks[b]|
    requires v < e.nodeNum && slot <= e.maxNum
    ensures var s' := AfterMemUpdate(e, s, PlanOf(e, b), e.blocks[b], mems);
      && |s'.disk| == |s.disk| == e.diskRows && |s'.cache| == |s.cache| == e.maxNum + 1 && e.place[v] < e.diskRows
      && (v !in e.blocks[b] || v in StartsAt(e.ivs, b) ==> s'.disk[e.place[v]] == s.disk[e.place[v]])
      && (slot !in SlotsFor(s, PlanOf(e, b)) ==> s'.cache[slot] == s.cache[slot])
  {
    if |e.blocks[b]| > 0 {
      hide Coherent, PlanFor, StartsAt, EndsAt, LowestFree, Fill, FlushRows, CacheRows, ReleaseUsed, FlagsAfter;
      if v !in e.blocks[b] || v in StartsAt(e.ivs, b) {
        NotFlushed(e, b, v);
      }
    }
  }

  lemma NotFlushed(e: Setup, b: nat, v: nat)
    requires GoodSetup(e) && b < |e.blocks| && v < e.nodeNum && (v !in e.blocks[b] || v in StartsAt(e.ivs, b))
    ensures InRange(FlushRows(e.blocks, e.ivs, b), |e.blocks[b]|)
    ensures InRange(Gather(e.blocks[b], FlushRows(e.blocks, e.ivs, b)), e.nodeNum)
    ensures e.place[v] !in Gather(e.place, Gather(e.blocks[b], FlushRows(e.blocks, e.ivs, b)))
  {
    var block, rows := e.blocks[b], FlushRows(e.blocks, e.ivs, b);
    assert InRange(block, e.nodeNum);
    hide StartsAt, PlanFor;
    forall k | 0 <= k < |rows| ensures block[rows[k]] != v {
      assert Not(Isin(block, StartsAt(e.ivs, b)))[rows[k]];
    }
  }

  lemma NonemptyCoherent(e: Setup, s: Store, ref: seq<Row>, b: nat, mems: seq<Row>)
    requires GoodSetup(e) && b < |e.blocks| && Coherent(e, s, ref, b) && |mems| == |e.blocks[b]|
    requires Ready(e, s, PlanOf(e, b), e.blocks[b])
    ensures Coherent(e, Updated(e, s, PlanOf(e, b), e.blocks[b], mems), Scatter(ref, e.blocks[b], mems), b + 1)
  {
    hide SlotInv, SentBefore, Lookup, Updated, Ready, PlanFor, HeldSet, FlagsAfter, SlotsFor, Scatter, Fill;
    UpdateSlots(e, s, ref, b);
    MemFlagsAfter(e, s, ref, b);
    UpdatedParts(e, s, PlanOf(e, b), e.blocks[b], mems);
    forall v | 0 <= v < e.nodeNum {
      LookupAfter(e, s, ref, b, mems, v);
    }
  }

  /** A block that sends nothing releases and admits nothing. */
  lemma NothingSent(e: Setup, s: Store, ref: seq<Row>, b: nat)
    requires GoodSetup(e) && b < |e.blocks| && Coherent(e, s, ref, b) && e.blocks[b] == []
    ensures HeldSet(e.ivs, b + 1) == HeldSet(e.ivs, b)
  {
    hide Coherent, PlanFor, HeldSet, EndsAt, StartsAt;
    HeldSetStep(e.blocks, e.nodeNum, e.ivs, e.maxNum, b);
    forall v: nat ensures v !in EndsAt(e.ivs, b) && v !in StartsAt(e.ivs, b) {
      ReleasesAreResent(e.blocks, e.nodeNum, e.ivs, e.maxNum, b, v);
      if v in StartsAt(e.ivs, b) {
        StartsAreSent(e.blocks, e.nodeNum, e.ivs, e.maxNum, b, v);
      }
    }
    assert forall v: nat :: v in HeldSet(e.ivs, b + 1) <==> v in HeldSet(e.ivs, b);
  }

  // -------------------------------------------------------------------------------------- whole runs

  /** One list of rows for every block, as the blocks send them. */
  ghost predicate RowsFor(e: Setup, mems: seq<seq<Row>>) {
    |mems| == |e.blocks| && forall b :: 0 <= b < |mems| ==> |mems[b]| == |e.blocks[b]|
  }

  /** The reference: one plain table, zero at first, into which every block writes its rows. */
  ghost function RefAfter(e: Setup, mems: seq<seq<Row>>, b: nat): (ref: seq<Row>)
    requires GoodSetup(e) && RowsFor(e, mems) && b <= |e.blocks|
    ensures |ref| == e.nodeNum
  {
    if b == 0 then seq(e.nodeNum, v => e.zero)
    else
      assert InRange(e.blocks[b - 1], e.nodeNum);
      Scatter(RefAfter(e, mems, b - 1), e.blocks[b - 1], mems[b - 1])
  }

  /** The store after the first `b` blocks. An update that is not ready is one the original would
      fail in. */
  ghost function StoreAfter(e: Setup, s0: Store, mems: seq<seq<Row>>, b: nat): (s: Store)
    requires RowsFor(e, mems) && b <= |e.blocks|
  {
    if b == 0 then s0
    else
      var s := StoreAfter(e, s0, mems, b - 1);
      if Ready(e, s, PlanOf(e, b - 1), e.blocks[b - 1])
      then AfterMemUpdate(e, s, PlanOf(e, b - 1), e.blocks[b - 1], mems[b - 1])
      else s
  }

  /** Every run from a reset store stays coherent, and no update of it fails. */
  lemma {:induction false} RunCoherent(e: Setup, s0: Store, mems: seq<seq<Row>>, b: nat)
    requires GoodSetup(e) && Fresh(e, s0) && RowsFor(e, mems) && b <= |e.blocks|
    ensures Coherent(e, StoreAfter(e, s0, mems, b), RefAfter(e, mems, b), b)
  {
    hide Coherent, GoodSetup, Fresh, StoreAfter, RefAfter, AfterMemUpdate;
    if b == 0 {
      FreshCoherent(e, s0);
      RunStart(e, s0, mems);
    } else {
      var s, ref := StoreAfter(e, s0, mems, b - 1), RefAfter(e, mems, b - 1);
      RunCoherent(e, s0, mems, b - 1);
      UpdateCoherent(e, s, ref, b - 1, mems[b - 1]);
      RunNext(e, s0, mems, b - 1);
    }
  }

  lemma RunStart(e: Setup, s0: Store, mems: seq<seq<Row>>)
    requires GoodSetup(e) && RowsFor(e, mems)
    ensures StoreAfter(e, s0, mems, 0) == s0 && RefAfter(e, mems, 0) == seq(e.nodeNum, v => e.zero)
  {
    hide GoodSetup;
  }

  lemma RunNext(e: Setup, s0: Store, mems: seq<seq<Row>>, b: nat)
    requires GoodSetup(e) && RowsFor(e, mems) && b < |e.blocks|
    ensures InRange(e.blocks[b], e.nodeNum)
    ensures RefAfter(e, mems, b + 1) == Scatter(RefAfter(e, mems, b), e.blocks[b], mems[b])
    ensures Ready(e, StoreAfter(e, s0, mems, b), PlanOf(e, b), e.blocks[b]) ==>
      StoreAfter(e, s0, mems, b + 1)
      == AfterMemUpdate(e, StoreAfter(e, s0, mems, b), PlanOf(e, b), e.blocks[b], mems[b])
  {
    BlockInRange(e, b);
    hide GoodSetup, Ready, AfterMemUpdate, Scatter;
  }

  lemma RefStep(e: Setup, mems: seq<seq<Row>>, b: nat, v: nat)
    requires GoodSetup(e) && RowsFor(e, mems) && b < |e.blocks| && v < e.nodeNum
    ensures RefAfter(e, mems, b + 1)[v] ==
      if v in e.blocks[b] then mems[b][IndexOf(e.blocks[b], v)] else RefAfter(e, mems, b)[v]
    ensures forall i :: 0 <= i < |e.blocks[b]| && e.blocks[b][i] == v ==> i == IndexOf(e.blocks[b], v)
  {
    var block := e.blocks[b];
    assert StrictlySorted(block) && InRange(block, e.nodeNum);
    hide GoodSetup;
    ScatterAt(RefAfter(e, mems, b), block, mems[b], v);
    forall i | 0 <= i < |block| && block[i] == v ensures i == IndexOf(block, v) {
      IndexOfUnique(block, v, i);
    }
  }

  /** The reference table holds, for every node, the row of the last block that sent it: row `i` of block
      `k` if that was it, and zero if there was none. */
  lemma {:induction false} RefIsLastWrite(e: Setup, mems: seq<seq<Row>>, b: nat, v: nat, k: nat, i: nat)
    requires GoodSetup(e) && RowsFor(e, mems) && b <= |e.blocks| && v < e.nodeNum
    requires forall l :: k < l < b ==> v !in e.blocks[l]
    requires k < b ==> i < |e.blocks[k]| && e.blocks[k][i] == v
    requires k >= b ==> !SentBefore(e.blocks, b, v)
    ensures RefAfter(e, mems, b)[v] == if k < b then mems[k][i] else e.zero
  {
    if b > 0 {
      RefStep(e, mems, b - 1, v);
      hide GoodSetup, RowsFor;
      SentBeforeStep(e.blocks, b - 1, v);
      if k != b - 1 {
        RefIsLastWrite(e, mems, b - 1, v, k, i);
      }
    }
  }

  // -------------------------------------------------------------------------------------- mem_select

  function IsZero(s: seq<nat>): (mask: seq<bool>) {
    seq(|s|, i requires 0 <= i < |s| => s[i] == 0)
  }

  ghost predicate Readable(e: Setup, s: Store, indices: seq<nat>) {
    && Shaped(e, s) && |e.place| == e.nodeNum && InRange(e.place, e.diskRows)
    && InRange(indices, e.nodeNum) && forall v :: 0 <= v < |s.flags| ==> s.flags[v] <= e.maxNum
  }

  /** `torch.nonzero(self.mem_flag[indices])` */
  function LoadInd(s: Store, indices: seq<nat>): (loadInd: seq<nat>)
    requires InRange(indices, |s.memFlag|)
    ensures InRange(loadInd, |indices|)
  {
    Nonzero(Gather(s.memFlag, indices))
  }

  /** `load_ind_cache_flag` */
  function LoadFlags(s: Store, indices: seq<nat>): (cacheFlag: seq<nat>)
    requires InRange(indices, |s.memFlag|) && |s.memFlag| <= |s.flags|
    ensures |cacheFlag| == |LoadInd(s, indices)|
  {
    GatherInRange(indices, LoadInd(s, indices), |s.flags|);
    Gather(s.flags, Gather(indices, LoadInd(s, indices)))
  }

  /** `load_ind[load_ind_cached_ind]`: the written rows whose node has a slot. */
  function CachedPart(s: Store, indices: seq<nat>): (ind: seq<nat>)
    requires InRange(indices, |s.memFlag|) && |s.memFlag| <= |s.flags|
    ensures ind == Nonzero(And(Gather(s.memFlag, indices), Not(IsZero(Gather(s.flags, indices)))))
  {
    var loadInd, cacheFlag := LoadInd(s, indices), LoadFlags(s, indices);
    var written, hasSlot := Gather(s.memFlag, indices), Not(IsZero(Gather(s.flags, indices)));
    assert Gather(hasSlot, loadInd) == Not(IsZero(cacheFlag));
    SelectTwice(written, hasSlot);
    Gather(loadInd, Nonzero(Not(IsZero(cacheFlag))))
  }

  /** `load_ind[nonzero(load_ind_cache_flag == 0)]`: the written rows whose node has none. */
  function DiskPart(s: Store, indices: seq<nat>): (ind: seq<nat>)
    requires InRange(indices, |s.memFlag|) && |s.memFlag| <= |s.flags|
    ensures ind == Nonzero(And(Gather(s.memFlag, indices), IsZero(Gather(s.flags, indices))))
  {
    var loadInd, cacheFlag := LoadInd(s, indices), LoadFlags(s, indices);
    var written, noSlot := Gather(s.memFlag, indices), IsZero(Gather(s.flags, indices));
    assert Gather(noSlot, loadInd) == IsZero(cacheFlag);
    SelectTwice(written, noSlot);
    Gather(loadInd, Nonzero(IsZero(cacheFlag)))
  }

  /** The rows read for the places `ind`: from slots, or from the memory file. */
  function CachedRows(e: Setup, s: Store, indices: seq<nat>, ind: seq<nat>): (rows: seq<Row>)
    requires Readable(e, s, indices) && InRange(ind, |indices|)
    ensures |rows| == |ind| && forall k :: 0 <= k < |ind| ==> rows[k] == s.cache[s.flags[indices[ind[k]]]]
  {
    GatherInRange(indices, ind, e.nodeNum);
    Gather(s.cache, Gather(s.flags, Gather(indices, ind)))
  }

  function DiskRows(e: Setup, s: Store, indices: seq<nat>, ind: seq<nat>): (rows: seq<Row>)
    requires Readable(e, s, indices) && InRange(ind, |indices|)
    ensures |rows| == |ind| && forall k :: 0 <= k < |ind| ==> rows[k] == s.disk[e.place[indices[ind[k]]]]
  {
    GatherInRange(indices, ind, e.nodeNum);
    Gather(s.disk, Gather(e.place, Gather(indices, ind)))
  }

  /** `mem_select`: rows never written stay zero, cached rows come from their slots, the others are
      read from the memory file at their places. */
  function SelectedRows(e: Setup, s: Store, indices: seq<nat>): (rows: seq<Row>)
    requires Readable(e, s, indices)
    ensures |rows| == |indices|
  {
    var cached, onDisk := CachedPart(s, indices), DiskPart(s, indices);
    Scatter(Scatter(seq(|indices|, i => e.zero), cached, CachedRows(e, s, indices, cached)),
      onDisk, DiskRows(e, s, indices, onDisk))
  }

  /** Every selected row is the one its node is looked up at. */
  lemma SelectedRowsLookUp(e: Setup, s: Store, indices: seq<nat>, i: nat)
    requires Readable(e, s, indices) && i < |indices|
    ensures SelectedRows(e, s, indices)[i] == Lookup(e, s, indices[i])
  {
    hide CachedPart, DiskPart, CachedRows, DiskRows, Nonzero, Scatter, Distinct, IndexOf, And, Not, IsZero, Gather;
    var cached, onDisk := CachedPart(s, indices), DiskPart(s, indices);
    PartsAt(s, indices, i);
    RowsAt(e, s, indices, i);
    var zeros := seq(|indices|, k => e.zero);
    ScatterAt(zeros, cached, CachedRows(e, s, indices, cached), i);
    ScatterAt(Scatter(zeros, cached, CachedRows(e, s, indices, cached)), onDisk, DiskRows(e, s, indices, onDisk), i);
  }

  /** Which of the two parts a place belongs to. */
  lemma PartsAt(s: Store, indices: seq<nat>, i: nat)
    requires InRange(indices, |s.memFlag|) && |s.memFlag| <= |s.flags| && i < |indices|
    ensures i in CachedPart(s, indices) <==> s.memFlag[indices[i]] && s.flags[indices[i]] != 0
    ensures i in DiskPart(s, indices) <==> s.memFlag[indices[i]] && s.flags[indices[i]] == 0
    ensures InRange(CachedPart(s, indices), |indices|) && Distinct(CachedPart(s, indices))
    ensures InRange(DiskPart(s, indices), |indices|) && Distinct(DiskPart(s, indices))
  {
    hide Nonzero, CachedPart, DiskPart, Distinct;
    MaskedAt(And(Gather(s.memFlag, indices), Not(IsZero(Gather(s.flags, indices)))), i);
    MaskedAt(And(Gather(s.memFlag, indices), IsZero(Gather(s.flags, indices))), i);
  }

  /** The rows written to a place. */
  lemma RowsAt(e: Setup, s: Store, indices: seq<nat>, i: nat)
    requires Readable(e, s, indices) && i < |indices|
    ensures var cached := CachedPart(s, indices);
      i in cached ==>
        && InRange(cached, |indices|) && 0 <= IndexOf(cached, i) < |CachedRows(e, s, indices, cached)|
        && CachedRows(e, s, indices, cached)[IndexOf(cached, i)] == s.cache[s.flags[indices[i]]]
    ensures var onDisk := DiskPart(s, indices);
      i in onDisk ==>
        && InRange(onDisk, |indices|) && 0 <= IndexOf(onDisk, i) < |DiskRows(e, s, indices, onDisk)|
        && DiskRows(e, s, indices, onDisk)[IndexOf(onDisk, i)] == s.disk[e.place[indices[i]]]
  {
    hide CachedPart, DiskPart, CachedRows, DiskRows, Nonzero;
    PartsAt(s, indices, i);
  }

  lemma MaskedAt(mask: seq<bool>, i: nat)
    requires i < |mask|
    ensures i in Nonzero(mask) <==> mask[i]
    ensures InRange(Nonzero(mask), |mask|) && Distinct(Nonzero(mask))
    ensures i in Nonzero(mask) ==> Nonzero(mask)[IndexOf(Nonzero(mask), i)] == i
  {
  }

  /** What a read returns in a coherent state: the rows of the reference table. */
  lemma SelectedRowsAreRef(e: Setup, s: Store, ref: seq<Row>, b: nat, indices: seq<nat>)
    requires GoodSetup(e) && b <= |e.blocks| && Coherent(e, s, ref, b) && InRange(indices, e.nodeNum)
    ensures Readable(e, s, indices)
    ensures SelectedRows(e, s, indices) == Gather(ref, indices)
  {
    hide SelectedRows, Coherent, GoodSetup, Readable, Lookup;
    CoherentReads(e, s, ref, b, indices);
    forall i | 0 <= i < |indices| ensures SelectedRows(e, s, indices)[i] == ref[indices[i]] {
      SelectedRowsLookUp(e, s, indices, i);
      CoherentAt(e, s, ref, b, indices[i]);
    }
  }

  lemma CoherentReads(e: Setup, s: Store, ref: seq<Row>, b: nat, indices: seq<nat>)
    requires GoodSetup(e) && b <= |e.blocks| && Coherent(e, s, ref, b) && InRange(indices, e.nodeNum)
    ensures Readable(e, s, indices) && |ref| == e.nodeNum
  {
    hide PlanFor, UsedInv, Owned, Lookup, HeldSet, SentBefore;
  }

  lemma CoherentAt(e: Setup, s: Store, ref: seq<Row>, b: nat, v: nat)
    requires GoodSetup(e) && b <= |e.blocks| && Coherent(e, s, ref, b) && v < e.nodeNum
    ensures |e.place| == e.nodeNum && InRange(e.place, e.diskRows) && Shaped(e, s) && s.flags[v] <= e.maxNum
    ensures |ref| == e.nodeNum && Lookup(e, s, v) == ref[v]
  {
    hide PlanFor, UsedInv, Owned, Lookup, HeldSet, SentBefore;
  }

  /** In every run, every read returns the rows that were last written, whatever mixture of cache and
      disk they lie in and whatever the memory file held before. */
  lemma RunReads(e: Setup, s0: Store, mems: seq<seq<Row>>, b: nat, indices: seq<nat>)
    requires GoodSetup(e) && Fresh(e, s0) && RowsFor(e, mems) && b <= |e.blocks| && InRange(indices, e.nodeNum)
    ensures Readable(e, StoreAfter(e, s0, mems, b), indices)
    ensures SelectedRows(e, StoreAfter(e, s0, mems, b), indices) == Gather(RefAfter(e, mems, b), indices)
  {
    RunCoherent(e, s0, mems, b);
    SelectedRowsAreRef(e, StoreAfter(e, s0, mems, b), RefAfter(e, mems, b), b, indices);
  }

  // ------------------------------------------------------------------- from the edges to the set-up

  /** The planner's main program, and what `init_memory` reads of it: blocks, intervals, slot count and files fit
      together as the online side needs them, whatever the edges and the limit. The intervals are those that
      the planner is meant to choose; the slot count is the least that suffices, and with a limit of at least
      one slot it keeps to that. */
  method PlanMemory(src: seq<nat>, dst: seq<nat>, size: nat, end: nat, nodeNum: nat, limit: int, place: seq<nat>,
                    diskRows: nat, zero: Row)
    returns (e: Option<Setup>)
    requires 0 < size && end <= |src| == |dst| && InRange(src, nodeNum) && InRange(dst, nodeNum)
    requires |place| == nodeNum && Distinct(place) && InRange(place, diskRows)
    ensures e.None? <==> end == 0
    ensures e.Some? ==> GoodSetup(e.value) && FilesOf(e.value.files, e.value.blocks, e.value.ivs)
    ensures e.Some? ==> e.value.blocks == SentBlocks(RootBlocks(src, dst, size, 0, end))
    ensures e.Some? ==> Planned(e.value.blocks, e.value.ivs, limit)
    ensures e.Some? && 1 <= limit ==> e.value.maxNum <= limit
    ensures e.Some? && 0 < e.value.maxNum ==>
      exists t :: 0 <= t < |e.value.blocks| && Cover(e.value.ivs, t) == e.value.maxNum
    ensures e.Some? ==>
      e.value.nodeNum == nodeNum && e.value.place == place && e.value.diskRows == diskRows && e.value.zero == zero
  {
    hide FilesOf, IsGreedy, ByWeight, Consecutive, SentBlocks, RootBlocks, Planned, Cover;
    var parts := GenPart(src, dst, size, end);
    if parts.None? { return None; }
    var blocks := parts.value;
    SentFit(src, dst, size, end, nodeNum);
    var ivs;
    ghost var sorted, sel;
    ivs, sorted, sel := DataPlacement(blocks, nodeNum, limit);
    PlacementIsPlanned(blocks, ivs, limit, sorted, sel);
    var maxNum := SimpleMaxNum(ivs, |blocks|);
    var files := GenSimple(blocks, ivs);
    return Some(Setup(blocks, ivs, files, nodeNum, maxNum, place, diskRows, zero));
  }

  lemma SentFit(src: seq<nat>, dst: seq<nat>, size: nat, end: nat, nodeNum: nat)
    requires 0 < size && 0 < end <= |src| == |dst| && InRange(src, nodeNum) && InRange(dst, nodeNum)
    ensures |SentBlocks(RootBlocks(src, dst, size, 0, end))| > 0
    ensures Blocks(SentBlocks(RootBlocks(src, dst, size, 0, end)), nodeNum)
  {
    RootBlocksInRange(src, dst, size, 0, end, nodeNum);
    SentInRange(RootBlocks(src, dst, size, 0, end), nodeNum);
  }

  // ------------------------------------------------------------------------------------- the object

  /** `b` blocks have been written, and every read gives what the plain table `ref` has. */
  ghost predicate Kept(e: Setup, s: Store, ref: seq<Row>, b: nat) {
    GoodSetup(e) && FilesOf(e.files, e.blocks, e.ivs) && b <= |e.blocks| && Coherent(e, s, ref, b)
  }

  /** All that one call of `mem_update` needs and keeps, with the plan as it stands in the files. */
  lemma UpdateKept(e: Setup, s: Store, ref: seq<Row>, b: nat, mems: seq<Row>)
    requires Kept(e, s, ref, b) && b < |e.blocks| && |mems| == |e.blocks[b]|
    ensures HasPlan(e.files, b)
    ensures Ready(e, s, PlanSlice(e.files, b), e.blocks[b])
    ensures InRange(e.blocks[b], |ref|) && |ref| == e.nodeNum
    ensures Kept(e, AfterMemUpdate(e, s, PlanSlice(e.files, b), e.blocks[b], mems), Scatter(ref, e.blocks[b], mems),
                 b + 1)
  {
    PlanSliceIsPlan(e, b);
    UpdateCoherent(e, s, ref, b, mems);
  }

  lemma FreshFrom(e: Setup, s: Store)
    requires |s.flags| == e.nodeNum + 1 && forall v :: 0 <= v < |s.flags| ==> s.flags[v] == 0
    requires |s.used| == e.maxNum + 2 && forall i :: 0 <= i < |s.used| ==> (s.used[i] <==> i == 0)
    requires |s.memFlag| == e.nodeNum && forall v :: 0 <= v < |s.memFlag| ==> !s.memFlag[v]
    requires |s.cache| == e.maxNum + 1 && |s.disk| == e.diskRows
    ensures Fresh(e, s)
  {
  }

  lemma FreshKept(e: Setup, s: Store)
    requires GoodSetup(e) && FilesOf(e.files, e.blocks, e.ivs) && Fresh(e, s)
    ensures Kept(e, s, seq(e.nodeNum, v => e.zero), 0)
  {
    FreshCoherent(e, s);
  }

  lemma KeptReads(e: Setup, s: Store, ref: seq<Row>, b: nat, indices: seq<nat>)
    requires Kept(e, s, ref, b) && InRange(indices, e.nodeNum)
    ensures |ref| == e.nodeNum
    ensures Readable(e, s, indices) && SelectedRows(e, s, indices) == Gather(ref, indices)
  {
    SelectedRowsAreRef(e, s, ref, b, indices);
  }

  /** The part of `Pre_fetch` that keeps node memory. */
  class NodeMemory {
    const setup: Setup
    const nodeCacheFlag: array<nat>
    const nodeCacheUsed: array<bool>
    const cacheMemory: array<Row>
    const memFlag: array<bool>
    const memFile: array<Row>
    ghost var ref: seq<Row>
    ghost var done: nat

    ghost function View(): (s: Store)
      reads nodeCacheFlag, nodeCacheUsed, cacheMemory, memFlag, memFile
    {
      Store(nodeCacheFlag[..], nodeCacheUsed[..], cacheMemory[..], memFlag[..], memFile[..])
    }

    ghost predicate Valid()
      reads this, nodeCacheFlag, nodeCacheUsed, cacheMemory, memFlag, memFile
    {
      nodeCacheUsed != memFlag && cacheMemory != memFile && Kept(setup, View(), ref, done)
    }

    /** `init_memory`: the cache part. The memory file is there already, with whatever it holds. */
    constructor (e: Setup, file: array<Row>)
      requires GoodSetup(e) && FilesOf(e.files, e.blocks, e.ivs) && file.Length == e.diskRows
      ensures Valid() && setup == e && memFile == file && done == 0
      ensures ref == seq(e.nodeNum, v => e.zero)
      ensures fresh(nodeCacheFlag) && fresh(nodeCacheUsed) && fresh(cacheMemory) && fresh(memFlag)
    {
      hide Kept, GoodSetup, FilesOf, Fresh;
      setup := e;
      nodeCacheFlag := new nat[e.nodeNum + 1](_ => 0);
      nodeCacheUsed := new bool[e.maxNum + 2](i => i == 0);
      cacheMemory := new Row[e.maxNum + 1](_ => e.zero);
      memFlag := new bool[e.nodeNum](_ => false);
      memFile := file;
      ref := seq(e.nodeNum, v => e.zero);
      done := 0;
      new;
      FreshFrom(e, View());
      FreshKept(e, View());
    }

    /** `reset_memory`: the flags go back, the memory file does not. */
    method ResetMemory()
      requires Valid()
      modifies this`ref, this`done, nodeCacheFlag, nodeCacheUsed, cacheMemory, memFlag
      ensures Valid() && done == 0 && ref == seq(setup.nodeNum, v => setup.zero)
    {
      assert Shaped(setup, View()) && GoodSetup(setup) && FilesOf(setup.files, setup.blocks, setup.ivs);
      hide Kept, GoodSetup, FilesOf, Fresh;
      Clear();
      ref := seq(setup.nodeNum, v => setup.zero);
      done := 0;
      FreshKept(setup, View());
    }

    /** `fill_` on all but the file. */
    method Clear()
      requires nodeCacheUsed != memFlag && cacheMemory != memFile && Shaped(setup, View())
      modifies nodeCacheFlag, nodeCacheUsed, cacheMemory, memFlag
      ensures Fresh(setup, View()) && memFile[..] == old(memFile[..])
      ensures forall i :: 0 <= i < cacheMemory.Length ==> cacheMemory[i] == setup.zero
    {
      forall i | 0 <= i < cacheMemory.Length { cacheMemory[i] := setup.zero; }
      forall i | 0 <= i < nodeCacheFlag.Length { nodeCacheFlag[i] := 0; }
      forall i | 0 <= i < nodeCacheUsed.Length { nodeCacheUsed[i] := false; }
      nodeCacheUsed[0] := true;
      forall i | 0 <= i < memFlag.Length { memFlag[i] := false; }
    }

    /** The in-place steps of `mem_update` on a non-empty list of nodes. */
    method Write(p: BlockPlan, indices: seq<nat>, mems: seq<Row>)
      requires nodeCacheUsed != memFlag && cacheMemory != memFile
      requires Ready(setup, View(), p, indices) && |mems| == |indices|
      modifies nodeCacheFlag, nodeCacheUsed, cacheMemory, memFlag, memFile
      ensures View() == Updated(setup, old(View()), p, indices, mems)
    {
      ghost var s0 := View();
      var pre := Gather(nodeCacheFlag[..], p.ends);
      var cacheNodes, flushNodes := Gather(indices, p.cacheRows), Gather(indices, p.flushRows);
      GatherInRange(indices, p.cacheRows, setup.nodeNum);
      GatherInRange(indices, p.flushRows, setup.nodeNum);
      GatherInRange(setup.place, flushNodes, setup.diskRows);
      GatherInRange(nodeCacheFlag[..], p.ends, setup.maxNum + 2);
      UpdatedParts(setup, s0, p, indices, mems);
      assert nodeCacheUsed.Length == setup.maxNum + 2 && nodeCacheFlag.Length == setup.nodeNum + 1;
      assert |SlotsFor(s0, p)| == |p.cacheRows| && InRange(SlotsFor(s0, p), cacheMemory.Length);
      hide Ready, Fill, Scatter, LowestFree, Shaped;
      IndexFill(memFlag, indices, true);
      IndexFill(nodeCacheUsed, pre, false);
      IndexFill(nodeCacheFlag, p.ends, 0);
      var slots := LowestFree(nodeCacheUsed[..], |p.cacheRows|);
      assert slots == SlotsFor(s0, p);
      IndexPut(nodeCacheFlag, cacheNodes, slots);
      IndexPut(cacheMemory, slots, Gather(mems, p.cacheRows));
      IndexFill(nodeCacheUsed, slots, true);
      IndexPut(memFile, Gather(setup.place, flushNodes), Gather(mems, p.flushRows));
    }

    /** `mem_update`, called while block `preFetchBlock` is prepared: it writes the rows sent two blocks
        earlier. */
    method MemUpdate(preFetchBlock: nat, indices: seq<nat>, mems: seq<Row>)
      requires Valid() && preFetchBlock >= 2 && preFetchBlock - 2 == done < |setup.blocks|
      requires indices == setup.blocks[done] && |mems| == |indices|
      modifies this`ref, this`done, nodeCacheFlag, nodeCacheUsed, cacheMemory, memFlag, memFile
      ensures Valid() && done == old(done) + 1
      ensures InRange(indices, |old(ref)|) && ref == Scatter(old(ref), indices, mems)
    {
      hide Kept, Ready, Updated, HasPlan, PlanSlice, Scatter;
      ghost var was := View();
      UpdateKept(setup, was, ref, done, mems);
      var p := PlanSlice(setup.files, preFetchBlock - 2);
      if |indices| != 0 {
        Write(p, indices, mems);
      }
      ref := Scatter(ref, indices, mems);
      done := done + 1;
    }

    /** `mem_select`, with the selected rows written over the marked rows of `base`. */
    method MemSelect(indices: seq<nat>, baseInd: seq<bool>, base: seq<Row>) returns (rows: seq<Row>)
      requires Valid() && InRange(indices, setup.nodeNum)
      requires |baseInd| == |base| && |Nonzero(baseInd)| == |indices|
      ensures InRange(indices, |ref|) && rows == Scatter(base, Nonzero(baseInd), Gather(ref, indices))
    {
      KeptReads(setup, View(), ref, done, indices);
      hide Kept, SelectedRows;
      var s := Store(nodeCacheFlag[..], nodeCacheUsed[..], cacheMemory[..], memFlag[..], memFile[..]);
      rows := Scatter(base, Nonzero(baseInd), SelectedRows(setup, s, indices));
    }
  }
}
