/** How the feature table of a block is put together (pre_fetch.py, `pre_fetch`; feat_buffer.py, `analyze` and
    `prefetch_after`). The rows come from four places: the block's incremental file, the bucket cache, the
    features of the negative samples, and the table that the trainer has for the block before. The model
    holds for node features and for edge features alike; "id" stands for either. */
module BlockFeatures {
  import opened Tensors
  import opened BucketCache

  /** The table of a block on the device: row `i` belongs to id `ids[i]`. */
  datatype Table = Table(ids: seq<nat>, rows: seq<Row>)

  /** What every table should be: one gather from the features, at sorted ids. */
  ghost predicate Right(feats: seq<Row>, t: Table) {
    StrictlySorted(t.ids) && InRange(t.ids, |feats|) && t.rows == Gather(feats, t.ids)
  }

  // -------------------------------------------------------------------------------- what is planned

  /** What `gen_part_stream` stores for a block: the ids it is known to need, which of them are cached and which
      the block before has, the slots of the cached ones, and the rows of those that are neither. */
  datatype BlockFile = BlockFile(pos: seq<nat>, inCache: seq<bool>, inPre: seq<bool>, slots: seq<nat>, incre: seq<Row>)

  function FromFile(inCache: seq<bool>, inPre: seq<bool>): (mask: seq<bool>)
    requires |inCache| == |inPre|
    ensures |mask| == |inCache|
    ensures forall i :: 0 <= i < |mask| ==> (mask[i] <==> !inPre[i] && !inCache[i])
  {
    And(Not(inPre), Not(inCache))
  }

  /** A block as the plan sees it: the ids that it needs, those that the block before needs, the cache index in
      force, and the ids of its negative samples. */
  datatype Block = Block(pos: seq<nat>, prePos: seq<nat>, idx: seq<nat>, neg: seq<nat>)

  function PlanBlock(feats: seq<Row>, b: Block): (f: BlockFile)
    requires InRange(b.pos, |feats|)
    ensures |f.inCache| == |f.inPre| == |f.pos| && f.pos == b.pos
  {
    var inCache, inPre := InCache(b.pos, b.idx), Isin(b.pos, b.prePos);
    SelectInRange(b.pos, FromFile(inCache, inPre), |feats|);
    BlockFile(b.pos, inCache, inPre, CacheIndices(b.pos, b.idx), Gather(feats, Select(b.pos, FromFile(inCache, inPre))))
  }

  /** The first block has no block before it and uses no cache: its file holds all rows. */
  function FirstFile(feats: seq<Row>, pos: seq<nat>): (t: Table)
    requires InRange(pos, |feats|)
  {
    Table(pos, Gather(feats, pos))
  }

  // ------------------------------------------------------------------------------ the worker's part

  function Zeros(n: nat, zero: Row): (rows: seq<Row>)
    ensures |rows| == n
  {
    seq(n, i => zero)
  }

  ghost predicate FileOk(f: BlockFile, cacheFeat: seq<Row>) {
    && |f.inCache| == |f.inPre| == |f.pos|
    && |f.incre| == |Nonzero(FromFile(f.inCache, f.inPre))|
    && |f.slots| == |Nonzero(f.inCache)| && InRange(f.slots, |cacheFeat|)
  }

  /** `pos_feats`: rows from the file and from the cache; the others stay zero. */
  function PosRows(f: BlockFile, cacheFeat: seq<Row>, zero: Row): (rows: seq<Row>)
    requires FileOk(f, cacheFeat)
    ensures |rows| == |f.pos|
  {
    var fromFile := Scatter(Zeros(|f.pos|, zero), Nonzero(FromFile(f.inCache, f.inPre)), f.incre);
    Scatter(fromFile, Nonzero(f.inCache), Gather(cacheFeat, f.slots))
  }

  /** `dis_neg`: the negative ids that the block does not have anyway. */
  function DisNeg(neg: seq<nat>, pos: seq<nat>): (ids: seq<nat>)
  {
    Select(neg, Not(Isin(neg, pos)))
  }

  /** `dd_ind`: those of them that the trainer does not have; without incremental data, all. */
  function DdInd(dis: seq<nat>, partMap: seq<nat>, dataIncre: bool): (mask: seq<bool>)
    ensures |mask| == |dis|
    ensures forall i :: 0 <= i < |dis| ==> (mask[i] <==> !dataIncre || dis[i] !in partMap)
  {
    var mask := Not(Isin(dis, partMap));
    if dataIncre then mask else seq(|mask|, i => true)
  }

  /** The edge features as they lie on disk: row `reorder[e]` of `file` is the row of edge `e`. */
  ghost predicate Reordered(feats: seq<Row>, file: seq<Row>, reorder: seq<nat>) {
    |reorder| == |feats| && InRange(reorder, |file|) && forall e :: 0 <= e < |feats| ==> file[reorder[e]] == feats[e]
  }

  /** How loaded rows get to their places: as they come, or in the order in which they lie on disk. */
  datatype Source = Direct(feats: seq<Row>) | OnDisk(file: seq<Row>, reorder: seq<nat>)

  ghost predicate Serves(src: Source, feats: seq<Row>) {
    match src
    case Direct(f) => f == feats
    case OnDisk(file, reorder) => Reordered(feats, file, reorder)
  }

  ghost predicate Loadable(src: Source, ids: seq<nat>) {
    match src
    case Direct(f) => InRange(ids, |f|)
    case OnDisk(file, reorder) => InRange(ids, |reorder|) && InRange(reorder, |file|)
  }

  /** The rows of `ids` written to `places`; from disk they are read in ascending order of where they lie. */
  function LoadTo(src: Source, dst: seq<Row>, places: seq<nat>, ids: seq<nat>): (rows: seq<Row>)
    requires Loadable(src, ids) && |ids| == |places| && InRange(places, |dst|)
    ensures |rows| == |dst|
  {
    match src
    case Direct(feats) => Scatter(dst, places, Gather(feats, ids))
    case OnDisk(file, reorder) =>
      var at := Gather(reorder, ids);
      GatherInRange(reorder, ids, |file|);
      var order := ArgSort(at);
      GatherInRange(at, order, |file|);
      GatherInRange(places, order, |dst|);
      Scatter(dst, Gather(places, order), Gather(file, Gather(at, order)))
  }

  /** What `pre_fetch` hands to the trainer: the sorted ids, their rows, and the places that the trainer has to
      fill from the table it has. */
  datatype Handed = Handed(ids: seq<nat>, rows: seq<Row>, dInd: seq<nat>)

  /** `pre_fetch`, as far as it is about features. */
  function PreFetch(f: BlockFile, cacheFeat: seq<Row>, neg: seq<nat>, partMap: seq<nat>, dataIncre: bool,
                    src: Source, zero: Row)
    : (h: Handed)
    requires FileOk(f, cacheFeat) && Loadable(src, neg)
  {
    var dis := DisNeg(neg, f.pos);
    var dd := DdInd(dis, partMap, dataIncre);
    LoadableParts(src, neg, Not(Isin(neg, f.pos)));
    LoadableParts(src, dis, dd);
    var negRows := LoadTo(src, Zeros(|dis|, zero), Nonzero(dd), Select(dis, dd));
    var all := f.pos + dis;
    var order := ArgSort(all);
    var d := Not(f.inPre) + dd;
    Handed(Gather(all, order), Gather(PosRows(f, cacheFeat, zero) + negRows, order), Nonzero(Not(Gather(d, order))))
  }

  lemma LoadableParts(src: Source, ids: seq<nat>, mask: seq<bool>)
    requires Loadable(src, ids) && |ids| == |mask|
    ensures Loadable(src, Select(ids, mask)) && |Select(ids, mask)| == |Nonzero(mask)|
  {
  }

  // ----------------------------------------------------------------------------- the trainer's part

  /** `get_n_feat`, `get_e_feat`: the rows of these ids. An id that is not in the table is looked up at -1. */
  function GetFeat(t: Table, ids: seq<nat>): (rows: seq<Row>)
    requires |t.ids| == |t.rows| && (|ids| > 0 ==> |t.rows| > 0)
    ensures |rows| == |ids|
  {
    seq(|ids|, i requires 0 <= i < |ids| => PyAt(t.rows, IndexOf(t.ids, ids[i])))
  }

  /** An id that the table does not have gets the last row. */
  lemma MissingRow(t: Table, ids: seq<nat>, i: nat)
    requires |t.ids| == |t.rows| > 0 && i < |ids| && ids[i] !in t.ids
    ensures GetFeat(t, ids)[i] == t.rows[|t.rows| - 1]
  {
  }

  /** `prefetch_after`: the handed rows, with the marked ones taken from the table of the block before. */
  function Overlay(held: Table, h: Handed): (t: Table)
    requires |held.ids| == |held.rows| && |h.ids| == |h.rows| && InRange(h.dInd, |h.ids|)
    requires |h.dInd| > 0 ==> |held.rows| > 0
  {
    Table(h.ids, Scatter(h.rows, h.dInd, GetFeat(held, Gather(h.ids, h.dInd))))
  }

  /** `analyze`: the table of the first block. */
  function FirstTable(feats: seq<Row>, file: Table, neg: seq<nat>): (t: Table)
    requires |file.ids| == |file.rows| && InRange(neg, |feats|)
  {
    var dis := DisNeg(neg, file.ids);
    SelectInRange(neg, Not(Isin(neg, file.ids)), |feats|);
    var all := file.ids + dis;
    Table(Gather(all, ArgSort(all)), Gather(file.rows + Gather(feats, dis), ArgSort(all)))
  }

  // --------------------------------------------------------------------------------------- proofs

  /** Rows written at marked places, in order, are the rows of the marked ids. */
  lemma ScatterSelect(feats: seq<Row>, dst: seq<Row>, ids: seq<nat>, mask: seq<bool>, i: nat)
    requires |ids| == |mask| == |dst| && InRange(ids, |feats|) && i < |ids|
    ensures InRange(Select(ids, mask), |feats|) && |Select(ids, mask)| == |Nonzero(mask)|
    ensures Scatter(dst, Nonzero(mask), Gather(feats, Select(ids, mask)))[i]
      == if mask[i] then feats[ids[i]] else dst[i]
  {
    var places := Nonzero(mask);
    var vals := Gather(feats, Select(ids, mask));
    if mask[i] {
      var k :| 0 <= k < |places| && places[k] == i;
      assert vals[k] == feats[ids[i]];
      assert Scatter(dst, places, vals)[places[k]] == vals[k];
    }
  }

  /** Writing in another order to distinct places makes no difference. */
  lemma ScatterPermuted(dst: seq<Row>, places: seq<nat>, vals: seq<Row>, order: seq<nat>)
    requires |places| == |vals| == |order| && InRange(places, |dst|) && Distinct(places)
    requires InRange(order, |order|) && Distinct(order)
    ensures InRange(Gather(places, order), |dst|)
    ensures Scatter(dst, Gather(places, order), Gather(vals, order)) == Scatter(dst, places, vals)
  {
    hide Scatter, Distinct;
    GatherInRange(places, order, |dst|);
    forall i | 0 <= i < |dst|
      ensures Scatter(dst, Gather(places, order), Gather(vals, order))[i] == Scatter(dst, places, vals)[i]
    {
      PermutedAt(dst, places, vals, order, i);
    }
  }

  lemma PermutedAt(dst: seq<Row>, places: seq<nat>, vals: seq<Row>, order: seq<nat>, i: nat)
    requires |places| == |vals| == |order| && InRange(places, |dst|) && Distinct(places)
    requires InRange(order, |order|) && Distinct(order) && InRange(Gather(places, order), |dst|) && i < |dst|
    ensures Scatter(dst, Gather(places, order), Gather(vals, order))[i] == Scatter(dst, places, vals)[i]
  {
    var p, v := Gather(places, order), Gather(vals, order);
    PermutedMembers(places, order);
    if i in places {
      var k :| 0 <= k < |places| && places[k] == i;
      PermutationOnto(order, k);
      var j :| 0 <= j < |order| && order[j] == k;
      assert Scatter(dst, p, v)[p[j]] == v[j];
      assert Scatter(dst, places, vals)[places[k]] == vals[k];
    }
  }

  /** However the rows are read, the features' own rows get to the places. */
  lemma LoadRight(feats: seq<Row>, src: Source, dst: seq<Row>, places: seq<nat>, ids: seq<nat>)
    requires Serves(src, feats) && InRange(ids, |feats|)
    requires |ids| == |places| && InRange(places, |dst|) && Distinct(places)
    ensures Loadable(src, ids) && LoadTo(src, dst, places, ids) == Scatter(dst, places, Gather(feats, ids))
  {
    if src.OnDisk? {
      var at := Gather(src.reorder, ids);
      GatherInRange(src.reorder, ids, |src.file|);
      var order := ArgSort(at);
      GatherInRange(at, order, |src.file|);
      GatherInRange(places, order, |dst|);
      assert Gather(src.file, Gather(at, order)) == Gather(Gather(feats, ids), order);
      hide Scatter, ArgSort;
      ScatterPermuted(dst, places, Gather(feats, ids), order);
    }
  }

  // ------------------------------------------------------------------------ what the device will show

  /** The row that the cache gives for an id that its index names; any other id has its own. */
  function CachedRow(feats: seq<Row>, cacheFeat: seq<Row>, idx: seq<nat>, x: nat): (row: Row)
    requires |cacheFeat| == |idx| && x < |feats|
  {
    if x in idx then cacheFeat[IndexOf(idx, x)] else feats[x]
  }

  /** The row that the device will show for an id: that of the block before, if the block before shows it; that
      of its cache slot, if it has one; or its own. `prev` is what the block before shows for its ids `held`. */
  function ShownRow(feats: seq<Row>, prev: seq<Row>, cacheFeat: seq<Row>, b: Block, held: seq<nat>, dataIncre: bool,
                    x: nat): (row: Row)
    requires |prev| == |feats| && |cacheFeat| == |b.idx| && x < |feats|
  {
    if x in b.pos then
      if x in b.prePos then prev[x] else CachedRow(feats, cacheFeat, b.idx, x)
    else if dataIncre && x in held then prev[x] else feats[x]
  }

  function Shown(feats: seq<Row>, prev: seq<Row>, cacheFeat: seq<Row>, b: Block, held: seq<nat>, dataIncre: bool)
    : (shown: seq<Row>)
    requires |prev| == |feats| && |cacheFeat| == |b.idx|
    ensures |shown| == |feats|
    ensures forall x :: 0 <= x < |feats| ==> shown[x] == ShownRow(feats, prev, cacheFeat, b, held, dataIncre, x)
  {
    seq(|feats|, x requires 0 <= x < |feats| => ShownRow(feats, prev, cacheFeat, b, held, dataIncre, x))
  }

  /** The plan's file fits every cache of the planned size, whatever rows it holds. */
  lemma PlanFileOk(feats: seq<Row>, b: Block, cacheFeat: seq<Row>)
    requires InRange(b.pos, |feats|) && |cacheFeat| == |b.idx|
    ensures FileOk(PlanBlock(feats, b), cacheFeat)
  {
  }

  /** The rows read from the cache, in terms of the ids. */
  lemma CachedRows(feats: seq<Row>, cacheFeat: seq<Row>, b: Block)
    requires InRange(b.pos, |feats|) && |cacheFeat| == |b.idx| && Distinct(b.idx)
    ensures var cached := seq(|feats|, x requires 0 <= x < |feats| => CachedRow(feats, cacheFeat, b.idx, x));
      && InRange(CacheIndices(b.pos, b.idx), |cacheFeat|) && InRange(Select(b.pos, InCache(b.pos, b.idx)), |feats|)
      && Gather(cacheFeat, CacheIndices(b.pos, b.idx)) == Gather(cached, Select(b.pos, InCache(b.pos, b.idx)))
  {
    var slots, ids := CacheIndices(b.pos, b.idx), Select(b.pos, InCache(b.pos, b.idx));
    SelectInRange(b.pos, InCache(b.pos, b.idx), |feats|);
    hide CacheIndices, Nonzero, FindIndices;
    forall k | 0 <= k < |slots| ensures cacheFeat[slots[k]] == CachedRow(feats, cacheFeat, b.idx, ids[k]) {
      IndexOfUnique(b.idx, ids[k], slots[k]);
    }
  }

  /** A positive row that the trainer need not fill. */
  lemma PosRowShown(feats: seq<Row>, b: Block, cacheFeat: seq<Row>, zero: Row, i: nat)
    requires InRange(b.pos, |feats|) && |cacheFeat| == |b.idx| && Distinct(b.idx) && i < |b.pos|
    requires FileOk(PlanBlock(feats, b), cacheFeat) && b.pos[i] !in b.prePos
    ensures PosRows(PlanBlock(feats, b), cacheFeat, zero)[i] == CachedRow(feats, cacheFeat, b.idx, b.pos[i])
  {
    hide Scatter, Nonzero, CacheIndices, Select, Distinct;
    var f := PlanBlock(feats, b);
    CachedRows(feats, cacheFeat, b);
    var zeros := Zeros(|b.pos|, zero);
    var cached := seq(|feats|, x requires 0 <= x < |feats| => CachedRow(feats, cacheFeat, b.idx, x));
    ScatterSelect(feats, zeros, b.pos, FromFile(f.inCache, f.inPre), i);
    ScatterSelect(cached, Scatter(zeros, Nonzero(FromFile(f.inCache, f.inPre)), f.incre), b.pos, f.inCache, i);
  }

  /** `all[k]` needs no filling and has its row of `shown`, or else the trainer has it, and shows that row. */
  ghost predicate EntryOk(shown: seq<Row>, prev: seq<Row>, all: seq<nat>, rows: seq<Row>, d: seq<bool>,
                          held: seq<nat>, k: nat)
  {
    && k < |all| == |rows| == |d| && all[k] < |shown| == |prev|
    && (if d[k] then rows[k] == shown[all[k]] else all[k] in held && prev[all[k]] == shown[all[k]])
  }

  /** What the assembly of a block is made from: tables of the right shape, and a source that has the features. */
  ghost predicate Assembles(feats: seq<Row>, prev: seq<Row>, b: Block, cacheFeat: seq<Row>, held: seq<nat>, src: Source)
  {
    && |prev| == |feats| && |cacheFeat| == |b.idx| && Distinct(b.idx) && Serves(src, feats)
    && InRange(b.pos, |feats|) && InRange(b.neg, |feats|) && forall x :: x in b.prePos ==> x in held
  }

  lemma PosEntry(feats: seq<Row>, prev: seq<Row>, b: Block, cacheFeat: seq<Row>, held: seq<nat>, src: Source,
                 dataIncre: bool, zero: Row, i: nat)
    requires Assembles(feats, prev, b, cacheFeat, held, src) && i < |b.pos|
    requires FileOk(PlanBlock(feats, b), cacheFeat)
    ensures EntryOk(Shown(feats, prev, cacheFeat, b, held, dataIncre), prev, b.pos,
                    PosRows(PlanBlock(feats, b), cacheFeat, zero), Not(PlanBlock(feats, b).inPre), held, i)
  {
    hide PosRows, Distinct, CachedRow;
    if b.pos[i] !in b.prePos {
      PosRowShown(feats, b, cacheFeat, zero, i);
    }
    assert b.pos[i] in b.pos;
  }

  lemma NegEntry(feats: seq<Row>, prev: seq<Row>, b: Block, cacheFeat: seq<Row>, held: seq<nat>, src: Source,
                 dataIncre: bool, zero: Row, i: nat)
    requires Assembles(feats, prev, b, cacheFeat, held, src) && i < |DisNeg(b.neg, b.pos)|
    ensures var dis := DisNeg(b.neg, b.pos);
      var dd := DdInd(dis, held, dataIncre);
      && |Select(dis, dd)| == |Nonzero(dd)| && Loadable(src, Select(dis, dd))
      && EntryOk(Shown(feats, prev, cacheFeat, b, held, dataIncre), prev, dis,
                 LoadTo(src, Zeros(|dis|, zero), Nonzero(dd), Select(dis, dd)), dd, held, i)
  {
    hide LoadTo, Scatter, Select, Distinct, Nonzero, DisNeg;
    var dis := DisNeg(b.neg, b.pos);
    DisMembers(b.neg, b.pos);
    DisInRange(b.neg, b.pos, |feats|);
    assert dis[i] in dis;
    LoadedAt(feats, dis, DdInd(dis, held, dataIncre), src, zero, i);
  }

  lemma LoadedAt(feats: seq<Row>, dis: seq<nat>, dd: seq<bool>, src: Source, zero: Row, i: nat)
    requires Serves(src, feats) && InRange(dis, |feats|) && |dd| == |dis| && i < |dis|
    ensures |Select(dis, dd)| == |Nonzero(dd)| && Loadable(src, Select(dis, dd))
    ensures dd[i] ==> LoadTo(src, Zeros(|dis|, zero), Nonzero(dd), Select(dis, dd))[i] == feats[dis[i]]
  {
    ScatterSelect(feats, Zeros(|dis|, zero), dis, dd, i);
    LoadRight(feats, src, Zeros(|dis|, zero), Nonzero(dd), Select(dis, dd));
    hide LoadTo, Scatter, Select;
  }

  lemma DisMembers(neg: seq<nat>, pos: seq<nat>)
    ensures forall x :: x in DisNeg(neg, pos) <==> x in neg && x !in pos
  {
    var mask := Not(Isin(neg, pos));
    SelectMembers(neg, mask);
    forall x | x in neg && x !in pos ensures x in DisNeg(neg, pos) {
      var i :| 0 <= i < |neg| && neg[i] == x;
      assert mask[i];
    }
  }

  lemma EntryJoin(shown: seq<Row>, prev: seq<Row>, a: seq<nat>, rowsA: seq<Row>, dA: seq<bool>,
                  b: seq<nat>, rowsB: seq<Row>, dB: seq<bool>, held: seq<nat>, k: nat)
    requires |a| == |rowsA| == |dA| && |b| == |rowsB| == |dB| && k < |a| + |b|
    requires if k < |a| then EntryOk(shown, prev, a, rowsA, dA, held, k)
      else EntryOk(shown, prev, b, rowsB, dB, held, k - |a|)
    ensures EntryOk(shown, prev, a + b, rowsA + rowsB, dA + dB, held, k)
  {
  }

  lemma EntryMoved(shown: seq<Row>, prev: seq<Row>, all: seq<nat>, rows: seq<Row>, d: seq<bool>, held: seq<nat>,
                   order: seq<nat>, k: nat)
    requires |all| == |rows| == |d| && InRange(order, |all|) && k < |order|
    requires EntryOk(shown, prev, all, rows, d, held, order[k])
    ensures EntryOk(shown, prev, Gather(all, order), Gather(rows, order), Gather(d, order), held, k)
  {
  }

  /** What the trainer makes of entries that are right or that it has. */
  lemma OverlayShows(shown: seq<Row>, prev: seq<Row>, held: Table, ids: seq<nat>, rows: seq<Row>, d: seq<bool>)
    requires Right(prev, held) && |ids| == |rows| == |d|
    requires forall k: nat :: k < |ids| ==> EntryOk(shown, prev, ids, rows, d, held.ids, k)
    ensures InRange(ids, |shown|) && (|Nonzero(Not(d))| > 0 ==> |held.rows| > 0)
    ensures Overlay(held, Handed(ids, rows, Nonzero(Not(d)))).rows == Gather(shown, ids)
  {
    hide Nonzero, Scatter, GetFeat, Select, Right;
    var mask := Not(d);
    assert forall k: nat :: k < |ids| ==> EntryOk(shown, prev, ids, rows, d, held.ids, k) && ids[k] < |shown|;
    HeldRows(shown, prev, held, ids, rows, d);
    forall i | 0 <= i < |ids|
      ensures Scatter(rows, Nonzero(mask), GetFeat(held, Select(ids, mask)))[i] == shown[ids[i]]
    {
      ScatterSelect(shown, rows, ids, mask, i);
      assert EntryOk(shown, prev, ids, rows, d, held.ids, i);
    }
    SelectIsGather(ids, mask);
  }

  lemma SelectIsGather(ids: seq<nat>, mask: seq<bool>)
    requires |ids| == |mask|
    ensures Select(ids, mask) == Gather(ids, Nonzero(mask)) && |Select(ids, mask)| == |Nonzero(mask)|
  {
  }

  /** The rows that the trainer looks up are the ones to be shown. */
  lemma HeldRows(shown: seq<Row>, prev: seq<Row>, held: Table, ids: seq<nat>, rows: seq<Row>, d: seq<bool>)
    requires Right(prev, held) && |ids| == |rows| == |d| && InRange(ids, |shown|)
    requires forall k: nat :: k < |ids| ==> EntryOk(shown, prev, ids, rows, d, held.ids, k)
    ensures |Select(ids, Not(d))| == |Nonzero(Not(d))| && InRange(Select(ids, Not(d)), |shown|)
    ensures |held.ids| == |held.rows| && (|Nonzero(Not(d))| > 0 ==> |held.rows| > 0)
    ensures GetFeat(held, Select(ids, Not(d))) == Gather(shown, Select(ids, Not(d)))
  {
    var mask := Not(d);
    var wanted := Select(ids, mask);
    forall k | 0 <= k < |wanted|
      ensures wanted[k] in held.ids && wanted[k] < |prev| == |shown| && prev[wanted[k]] == shown[wanted[k]]
    {
      assert mask[Nonzero(mask)[k]] && EntryOk(shown, prev, ids, rows, d, held.ids, Nonzero(mask)[k]);
    }
    hide GetFeat, Nonzero, Right;
    FeatRight(prev, held, wanted);
  }

  /** Looking up ids that the table has. */
  lemma FeatRight(feats: seq<Row>, t: Table, ids: seq<nat>)
    requires Right(feats, t) && forall k :: 0 <= k < |ids| ==> ids[k] in t.ids
    ensures InRange(ids, |feats|) && |t.ids| == |t.rows| && (|ids| > 0 ==> |t.rows| > 0)
    ensures GetFeat(t, ids) == Gather(feats, ids)
  {
    assert |ids| > 0 ==> ids[0] in t.ids;
    forall k | 0 <= k < |ids| ensures ids[k] < |feats| && PyAt(t.rows, IndexOf(t.ids, ids[k])) == feats[ids[k]] {
      assert ids[k] in t.ids;
    }
  }

  /** The sorted ids of a block: the positive and the negative ones, each once. */
  lemma BlockIds(pos: seq<nat>, neg: seq<nat>)
    requires StrictlySorted(pos) && StrictlySorted(neg)
    ensures var all := pos + DisNeg(neg, pos);
      var ids := Gather(all, ArgSort(all));
      StrictlySorted(ids) && forall x :: x in ids <==> x in pos || x in neg
  {
    DisMembers(neg, pos);
    SelectSorted(neg, Not(Isin(neg, pos)));
    hide DisNeg;
    JoinDistinct(pos, DisNeg(neg, pos));
    SortedDistinct(pos + DisNeg(neg, pos));
  }

  /** The marks that say which entries of a block need no filling, in the order of its sorted ids. */
  function Marks(feats: seq<Row>, b: Block, held: seq<nat>, dataIncre: bool): (d: seq<bool>)
    requires InRange(b.pos, |feats|)
  {
    var dis := DisNeg(b.neg, b.pos);
    Gather(Not(PlanBlock(feats, b).inPre) + DdInd(dis, held, dataIncre), ArgSort(b.pos + dis))
  }

  lemma AllEntries(feats: seq<Row>, prev: seq<Row>, b: Block, cacheFeat: seq<Row>, held: seq<nat>, src: Source,
                   dataIncre: bool, zero: Row, k: nat)
    requires Assembles(feats, prev, b, cacheFeat, held, src)
    requires FileOk(PlanBlock(feats, b), cacheFeat) && Loadable(src, b.neg)
    ensures var h := PreFetch(PlanBlock(feats, b), cacheFeat, b.neg, held, dataIncre, src, zero);
      var d := Marks(feats, b, held, dataIncre);
      && |h.ids| == |h.rows| == |d| && h.dInd == Nonzero(Not(d))
      && (k < |h.ids| ==> EntryOk(Shown(feats, prev, cacheFeat, b, held, dataIncre), prev, h.ids, h.rows, d, held, k))
  {
    hide PlanBlock, PosRows, LoadTo, EntryOk, Select, Shown, Distinct, FileOk, Nonzero;
    var f, dis := PlanBlock(feats, b), DisNeg(b.neg, b.pos);
    var dd := DdInd(dis, held, dataIncre);
    LoadableParts(src, b.neg, Not(Isin(b.neg, b.pos)));
    LoadableParts(src, dis, dd);
    var order := ArgSort(b.pos + dis);
    var posRows, negRows := PosRows(f, cacheFeat, zero), LoadTo(src, Zeros(|dis|, zero), Nonzero(dd), Select(dis, dd));
    if k < |order| {
      var i, shown := order[k], Shown(feats, prev, cacheFeat, b, held, dataIncre);
      if i < |b.pos| {
        PosEntry(feats, prev, b, cacheFeat, held, src, dataIncre, zero, i);
      } else {
        NegEntry(feats, prev, b, cacheFeat, held, src, dataIncre, zero, i - |b.pos|);
      }
      EntryJoin(shown, prev, b.pos, posRows, Not(f.inPre), dis, negRows, dd, held, i);
      EntryMoved(shown, prev, b.pos + dis, posRows + negRows, Not(f.inPre) + dd, held, order, k);
    }
  }

  /** Which ids the trainer fills from its own table: those that the block before needs too, and with incremental data
      negative ones that the trainer has. All others are read by the worker. */
  predicate FromTrainer(b: Block, held: seq<nat>, dataIncre: bool, x: nat) {
    if x in b.pos then x in b.prePos else dataIncre && x in held
  }

  lemma MarkedForTrainer(feats: seq<Row>, prev: seq<Row>, b: Block, cacheFeat: seq<Row>, held: seq<nat>, src: Source,
                         dataIncre: bool, zero: Row, k: nat)
    requires Assembles(feats, prev, b, cacheFeat, held, src)
    requires FileOk(PlanBlock(feats, b), cacheFeat) && Loadable(src, b.neg)
    ensures var h := PreFetch(PlanBlock(feats, b), cacheFeat, b.neg, held, dataIncre, src, zero);
      k in h.dInd <==> k < |h.ids| && FromTrainer(b, held, dataIncre, h.ids[k])
  {
    hide PosRows, LoadTo, EntryOk, Shown, FileOk, Nonzero, DisNeg, FromTrainer, Marks, Loadable, PlanBlock, Distinct,
         ArgSort, Serves;
    AllEntries(feats, prev, b, cacheFeat, held, src, dataIncre, zero, k);
    MarkedAt(Marks(feats, b, held, dataIncre), k);
    MarkIs(feats, b, held, dataIncre, k);
  }

  lemma MarkIs(feats: seq<Row>, b: Block, held: seq<nat>, dataIncre: bool, k: nat)
    requires InRange(b.pos, |feats|)
    ensures var all := b.pos + DisNeg(b.neg, b.pos);
      && |Marks(feats, b, held, dataIncre)| == |Gather(all, ArgSort(all))|
      && (k < |Gather(all, ArgSort(all))| ==>
        (Marks(feats, b, held, dataIncre)[k] <==> !FromTrainer(b, held, dataIncre, Gather(all, ArgSort(all))[k])))
  {
    hide DisNeg, DdInd, FromTrainer, PlanBlock;
    var dis := DisNeg(b.neg, b.pos);
    var order := ArgSort(b.pos + dis);
    if k < |order| {
      UnsortedMark(feats, b, held, dataIncre, order[k]);
    }
  }

  lemma UnsortedMark(feats: seq<Row>, b: Block, held: seq<nat>, dataIncre: bool, i: nat)
    requires InRange(b.pos, |feats|) && i < |b.pos| + |DisNeg(b.neg, b.pos)|
    ensures var dis := DisNeg(b.neg, b.pos);
      (Not(PlanBlock(feats, b).inPre) + DdInd(dis, held, dataIncre))[i]
      <==> !FromTrainer(b, held, dataIncre, (b.pos + dis)[i])
  {
    hide DisNeg, CacheIndices, FromFile, Select;
    var dis := DisNeg(b.neg, b.pos);
    DisMembers(b.neg, b.pos);
    if i < |b.pos| {
      assert b.pos[i] in b.pos;
    } else {
      assert dis[i - |b.pos|] in dis;
    }
  }

  lemma MarkedAt(d: seq<bool>, k: nat)
    ensures k in Nonzero(Not(d)) <==> k < |d| && !d[k]
  {
    hide Nonzero;
    if k < |d| && !d[k] {
      assert Not(d)[k];
    }
  }

  lemma DisInRange(neg: seq<nat>, pos: seq<nat>, n: nat)
    requires InRange(neg, n)
    ensures InRange(DisNeg(neg, pos), n)
  {
    SelectInRange(neg, Not(Isin(neg, pos)), n);
  }

  /** The assembly from four sources is one gather, whatever the cache and the trainer hold: the table of the new
      block has exactly the positive and the negative ids, in order, and shows for each the row that it is said
      to show. */
  lemma BlockShows(feats: seq<Row>, prev: seq<Row>, b: Block, cacheFeat: seq<Row>, held: Table, src: Source,
                   dataIncre: bool, zero: Row)
    requires Assembles(feats, prev, b, cacheFeat, held.ids, src) && Right(prev, held)
    requires StrictlySorted(b.pos) && StrictlySorted(b.neg)
    ensures FileOk(PlanBlock(feats, b), cacheFeat) && Loadable(src, b.neg)
    ensures var h := PreFetch(PlanBlock(feats, b), cacheFeat, b.neg, held.ids, dataIncre, src, zero);
      && |h.ids| == |h.rows| && InRange(h.dInd, |h.ids|) && (|h.dInd| > 0 ==> |held.rows| > 0)
      && Right(Shown(feats, prev, cacheFeat, b, held.ids, dataIncre), Overlay(held, h))
      && forall x :: x in Overlay(held, h).ids <==> x in b.pos || x in b.neg
  {
    hide PlanBlock, PosRows, LoadTo, EntryOk, Overlay, Shown, FileOk, Distinct, Marks, DdInd;
    PlanFileOk(feats, b, cacheFeat);
    AllLoadable(src, feats, b.neg);
    var h := PreFetch(PlanBlock(feats, b), cacheFeat, b.neg, held.ids, dataIncre, src, zero);
    var shown, d := Shown(feats, prev, cacheFeat, b, held.ids, dataIncre), Marks(feats, b, held.ids, dataIncre);
    forall k: nat | k < |h.ids| ensures EntryOk(shown, prev, h.ids, h.rows, d, held.ids, k) {
      AllEntries(feats, prev, b, cacheFeat, held.ids, src, dataIncre, zero, k);
    }
    AllEntries(feats, prev, b, cacheFeat, held.ids, src, dataIncre, zero, 0);
    BlockIds(b.pos, b.neg);
    OverlayShows(shown, prev, held, h.ids, h.rows, d);
    OverlayIds(held, h);
  }

  lemma AllLoadable(src: Source, feats: seq<Row>, ids: seq<nat>)
    requires Serves(src, feats) && InRange(ids, |feats|)
    ensures Loadable(src, ids)
  {
  }

  lemma OverlayIds(held: Table, h: Handed)
    requires |held.ids| == |held.rows| && |h.ids| == |h.rows| && InRange(h.dInd, |h.ids|)
    requires |h.dInd| > 0 ==> |held.rows| > 0
    ensures Overlay(held, h).ids == h.ids
  {
  }

  /** With a coherent cache and a trainer that shows the features, every id shows its own row. */
  lemma ShownRight(feats: seq<Row>, cacheFeat: seq<Row>, b: Block, held: seq<nat>, dataIncre: bool)
    requires Coherent(feats, cacheFeat, b.idx)
    ensures Shown(feats, feats, cacheFeat, b, held, dataIncre) == feats
  {
    forall x: nat | x < |feats| ensures ShownRow(feats, feats, cacheFeat, b, held, dataIncre, x) == feats[x] {
    }
  }

  /** The assembly refines a direct gather: with a coherent cache and a right table before, the table is right. */
  lemma BlockRefines(feats: seq<Row>, b: Block, cacheFeat: seq<Row>, held: Table, src: Source, dataIncre: bool,
                     zero: Row)
    requires Right(feats, held) && Coherent(feats, cacheFeat, b.idx)
    requires Assembles(feats, feats, b, cacheFeat, held.ids, src) && StrictlySorted(b.pos) && StrictlySorted(b.neg)
    ensures FileOk(PlanBlock(feats, b), cacheFeat) && Loadable(src, b.neg)
    ensures var h := PreFetch(PlanBlock(feats, b), cacheFeat, b.neg, held.ids, dataIncre, src, zero);
      && |h.ids| == |h.rows| && InRange(h.dInd, |h.ids|) && (|h.dInd| > 0 ==> |held.rows| > 0)
      && Right(feats, Overlay(held, h))
      && forall x :: x in Overlay(held, h).ids <==> x in b.pos || x in b.neg
  {
    hide PlanBlock, PreFetch, Overlay, FileOk, Loadable, Distinct, Shown, Right;
    BlockShows(feats, feats, b, cacheFeat, held, src, dataIncre, zero);
    ShownRight(feats, cacheFeat, b, held.ids, dataIncre);
  }

  /** The first table is right too. */
  lemma FirstTableRight(feats: seq<Row>, pos: seq<nat>, neg: seq<nat>)
    requires StrictlySorted(pos) && InRange(pos, |feats|) && StrictlySorted(neg) && InRange(neg, |feats|)
    ensures var t := FirstTable(feats, FirstFile(feats, pos), neg);
      Right(feats, t) && forall x :: x in t.ids <==> x in pos || x in neg
  {
    hide DisNeg, ArgSort, StrictlySorted;
    BlockIds(pos, neg);
    DisInRange(neg, pos, |feats|);
    GatherJoined(feats, pos, DisNeg(neg, pos), ArgSort(pos + DisNeg(neg, pos)));
  }

  lemma GatherJoined(feats: seq<Row>, a: seq<nat>, b: seq<nat>, order: seq<nat>)
    requires InRange(a, |feats|) && InRange(b, |feats|) && InRange(order, |a| + |b|)
    ensures InRange(Gather(a + b, order), |feats|)
    ensures Gather(Gather(feats, a) + Gather(feats, b), order) == Gather(feats, Gather(a + b, order))
  {
    assert Gather(feats, a) + Gather(feats, b) == Gather(feats, a + b);
  }

  // ------------------------------------------------------------------------- the shared tensors

  /** The tensors through which one table is handed over. They are longer than any table; lengths are shared
      beside them, and what lies behind these lengths is left from earlier blocks. */
  class SharedTable {
    const ids: array<nat>
    const rows: array<Row>
    const dInd: array<nat>
    var idsLen: nat
    var rowsLen: nat
    var dLen: nat

    /** `init_share_tensor` */
    constructor (capacity: nat, zero: Row)
      ensures Shaped() && ids.Length == capacity && fresh(ids) && fresh(rows) && fresh(dInd)
    {
      ids := new nat[capacity](_ => 0);
      rows := new Row[capacity](_ => zero);
      dInd := new nat[capacity](_ => 0);
      idsLen, rowsLen, dLen := 0, 0, 0;
    }

    ghost predicate Shaped()
    {
      ids != dInd && ids.Length == rows.Length == dInd.Length
    }

    ghost predicate Holds(h: Handed)
      reads this, ids, rows, dInd
    {
      && idsLen <= ids.Length && rowsLen <= rows.Length && dLen <= dInd.Length
      && ids[..idsLen] == h.ids && rows[..rowsLen] == h.rows && dInd[..dLen] == h.dInd
    }

    /** `prefetch_after` of the worker */
    method Publish(h: Handed)
      requires Shaped() && |h.ids| == |h.rows| <= ids.Length && |h.dInd| <= |h.ids|
      modifies this`idsLen, this`rowsLen, this`dLen, ids, rows, dInd
      ensures Holds(h)
    {
      idsLen, rowsLen, dLen := |h.ids|, |h.rows|, |h.dInd|;
      forall i | 0 <= i < |h.ids| { ids[i] := h.ids[i]; }
      forall i | 0 <= i < |h.rows| { rows[i] := h.rows[i]; }
      forall i | 0 <= i < |h.dInd| { dInd[i] := h.dInd[i]; }
    }

    /** `prefetch_after` of the trainer */
    method Collect(held: Table, ghost h: Handed) returns (t: Table)
      requires Shaped() && Holds(h) && |held.ids| == |held.rows|
      requires |h.ids| == |h.rows| && InRange(h.dInd, |h.ids|) && (|h.dInd| > 0 ==> |held.rows| > 0)
      ensures t == Overlay(held, h)
    {
      var part, marked := ids[..idsLen], dInd[..dLen];
      var d := GetFeat(held, Gather(part, marked));
      var feats := rows[..rowsLen];
      feats := Scatter(feats, marked, d);
      t := Table(part, feats);
    }
  }
}
