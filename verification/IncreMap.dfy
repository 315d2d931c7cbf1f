/** The incremental row map (feat_buffer.py, `incre_strategy`): which id each row of a table on the device
    holds. A request keeps the rows of ids that are wanted again, frees the others, and puts the new ids into
    free rows; -1 marks a row that is free. */
module IncreMap {
  import opened Common
  import opened Tensors

  /** The ids held are exactly these, each in one row. */
  ghost predicate Holds(table: seq<int>, ids: seq<nat>) {
    && (forall i :: 0 <= i < |table| ==> table[i] >= -1)
    && (forall i :: 0 <= i < |table| && table[i] >= 0 ==> table[i] in ids)
    && (forall x :: x in ids ==> x in table)
    && OneRowEach(table)
  }

  ghost predicate OneRowEach(table: seq<int>) {
    forall i, j :: 0 <= i < j < |table| && table[i] >= 0 ==> table[i] != table[j]
  }

  /** `table1 == -1` */
  function Missing(vals: seq<int>, other: seq<int>): (mask: seq<bool>)
    ensures |mask| == |vals|
    ensures forall i :: 0 <= i < |vals| ==> (mask[i] <==> vals[i] !in other)
  {
    seq(|vals|, i requires 0 <= i < |vals| => IndexOf(other, vals[i]) == -1)
  }

  /** The ids in ascending order. */
  function Sorted(s: seq<int>): (r: seq<int>)
  {
    Gather(s, ArgSort(s))
  }

  /** `incre_map_index`: the rows whose id is not wanted. */
  function Unwanted(table: seq<int>, cur: seq<nat>): (rows: seq<nat>)
  {
    Select(ArgSort(table), Missing(Sorted(table), Sorted(cur)))
  }

  /** `incre_nid`: the wanted ids that no row holds, ascending. */
  function NewIds(table: seq<int>, cur: seq<nat>): (ids: seq<nat>)
  {
    var idx := Select(ArgSort(cur), Missing(Sorted(cur), Sorted(table)));
    SelectInRange(ArgSort(cur), Missing(Sorted(cur), Sorted(table)), |cur|);
    Gather(cur, idx)
  }

  /** `pre_map[incre_map_index] = -1` */
  function Cleared(table: seq<int>, cur: seq<nat>): (r: seq<int>)
    ensures |r| == |table|
  {
    Fill(table, Unwanted(table, cur), -1)
  }

  function IsFree(table: seq<int>): (mask: seq<bool>)
    ensures |mask| == |table|
  {
    seq(|table|, i requires 0 <= i < |table| => table[i] == -1)
  }

  /** The table with enough free rows for `n` ids: rows are added at the end if there are too few. */
  function Grown(table: seq<int>, n: nat): (r: seq<int>)
  {
    var able := |Nonzero(IsFree(table))|;
    if able < n then table + seq(n - able, i => -1) else table
  }

  lemma SortedMembers(s: seq<int>)
    ensures |Sorted(s)| == |s| && forall x :: x in Sorted(s) <==> x in s
  {
    PermutedMembers(s, ArgSort(s));
  }

  lemma UnwantedRows(table: seq<int>, cur: seq<nat>, i: nat)
    requires i < |table|
    ensures i in Unwanted(table, cur) <==> table[i] !in cur
  {
    var order, mask := ArgSort(table), Missing(Sorted(table), Sorted(cur));
    SortedMembers(cur);
    SelectMembers(order, mask);
    PermutationOnto(order, i);
    var k :| 0 <= k < |order| && order[k] == i;
    assert mask[k] <==> table[i] !in Sorted(cur);
    assert forall j :: 0 <= j < |order| && order[j] == i ==> j == k;
  }

  lemma ClearedAt(table: seq<int>, cur: seq<nat>, i: nat)
    requires i < |table|
    ensures Cleared(table, cur)[i] == if table[i] in cur then table[i] else -1
  {
    hide Unwanted;
    UnwantedRows(table, cur, i);
  }

  lemma NewIdsSorted(table: seq<int>, cur: seq<nat>)
    requires Distinct(cur)
    ensures StrictlySorted(NewIds(table, cur))
    ensures forall x :: x in NewIds(table, cur) <==> x in cur && x !in table
  {
    var order, mask := ArgSort(cur), Missing(Sorted(cur), Sorted(table));
    SortedMembers(cur);
    SortedMembers(table);
    SortedDistinct(cur);
    var sorted := Gather(cur, order);
    assert NewIds(table, cur) == Select(sorted, mask);
    assert Sorted(cur) == sorted;
    SelectSorted(sorted, mask);
    SelectMembers(sorted, mask);
    forall x | x in cur && x !in table ensures x in NewIds(table, cur) {
      assert x in sorted;
      var k :| 0 <= k < |sorted| && sorted[k] == x;
      assert mask[k];
    }
  }

  /** The set places and the others are together all. */
  lemma {:induction false} MaskParts(mask: seq<bool>)
    ensures |Nonzero(mask)| + |Nonzero(Not(mask))| == |mask|
  {
    hide Nonzero, Not;
    if |mask| > 0 {
      var n := |mask| - 1;
      MaskParts(mask[..n]);
      NotFront(mask, n);
      NonzeroPush(mask);
      NonzeroPush(Not(mask));
    }
  }

  lemma NotFront(mask: seq<bool>, n: nat)
    requires |mask| == n + 1
    ensures Not(mask)[..n] == Not(mask[..n]) && Not(mask)[n] == !mask[n]
  {
  }

  /** How many rows keep their ids: as many as there are wanted ids that were held. */
  lemma KeptRows(table: seq<int>, cur: seq<nat>)
    requires Distinct(cur) && OneRowEach(table)
    ensures |Nonzero(Not(IsFree(Cleared(table, cur))))| + |NewIds(table, cur)| == |cur|
  {
    var m := Cleared(table, cur);
    var mask := Not(IsFree(m));
    var kept := Gather(m, Nonzero(mask));
    hide Cleared, NewIds;
    forall i | 0 <= i < |m| ensures m[i] == if table[i] in cur then table[i] else -1 {
      ClearedAt(table, cur, i);
    }
    KeptDistinct(m, mask, kept);
    NewIdsSorted(table, cur);
    var added := NewIds(table, cur);
    KeptMembers(table, cur, m, mask, kept);
    SameMembers(kept, added, cur);
  }

  lemma KeptDistinct(m: seq<int>, mask: seq<bool>, kept: seq<int>)
    requires |mask| == |m| && kept == Gather(m, Nonzero(mask))
    requires forall i :: 0 <= i < |m| && mask[i] ==> m[i] >= 0
    requires OneRowEach(m)
    ensures Distinct(kept)
  {
    var idx := Nonzero(mask);
    forall i, j | 0 <= i < j < |kept| ensures kept[i] != kept[j] {
      assert idx[i] < idx[j] && mask[idx[i]];
    }
  }

  lemma KeptMembers(table: seq<int>, cur: seq<nat>, m: seq<int>, mask: seq<bool>, kept: seq<int>)
    requires |mask| == |m| == |table| && kept == Gather(m, Nonzero(mask))
    requires forall i :: 0 <= i < |m| ==> m[i] == if table[i] in cur then table[i] else -1
    requires forall i :: 0 <= i < |m| ==> (mask[i] <==> m[i] != -1)
    ensures forall x :: x in kept <==> x in cur && x in table
  {
    var idx := Nonzero(mask);
    forall x | x in cur && x in table ensures x in kept {
      var i :| 0 <= i < |table| && table[i] == x;
      assert mask[i];
      var k :| 0 <= k < |idx| && idx[k] == i;
      assert kept[k] == x;
    }
    forall x | x in kept ensures x in cur && x in table {
      var k :| 0 <= k < |kept| && kept[k] == x;
      assert mask[idx[k]];
    }
  }

  lemma SameMembers(a: seq<int>, b: seq<nat>, c: seq<nat>)
    requires Distinct(a) && Distinct(b) && Distinct(c)
    requires (forall x :: x in a ==> x !in b) && forall x :: x in c <==> x in a || x in b
    ensures |a| + |b| == |c|
  {
    var ab: seq<int> := a + b;
    var cs: seq<int> := c;
    JoinDistinct(a, b);
    assert Distinct(ab) && Distinct(cs);
    assert forall x :: x in ab <==> x in cs;
    SameCount(ab, cs);
  }

  lemma SameCount(a: seq<int>, b: seq<int>)
    requires Distinct(a) && Distinct(b) && forall x :: x in a <==> x in b
    ensures |a| == |b|
  {
    hide Distinct, Members;
    SameMembersSet(a, b);
  }

  lemma SameMembersSet(a: seq<int>, b: seq<int>)
    requires forall x :: x in a <==> x in b
    ensures Members(a) == Members(b)
  {
    hide Members;
    forall x ensures x in Members(a) <==> x in Members(b) {
      assert x in Members(a) <==> x in a;
    }
  }

  /** What one request does: the new table, the rows that get new ids, and these ids. */
  function Step(table: seq<int>, cur: seq<nat>): (r: (seq<int>, seq<nat>, seq<nat>))
  {
    var ids := NewIds(table, cur);
    var grown := Grown(Cleared(table, cur), |ids|);
    EnoughFree(Cleared(table, cur), |ids|);
    var rows := Nonzero(IsFree(grown))[..|ids|];
    (Scatter(grown, rows, ids), rows, ids)
  }

  lemma EnoughFree(table: seq<int>, n: nat)
    ensures n <= |Nonzero(IsFree(Grown(table, n)))|
  {
    hide Nonzero, IsFree;
    var able := |Nonzero(IsFree(table))|;
    if able < n {
      FreeAppend(table, n - able);
    }
  }

  lemma {:induction false} FreeAppend(table: seq<int>, k: nat)
    ensures |Nonzero(IsFree(table + seq(k, i => -1)))| == |Nonzero(IsFree(table))| + k
  {
    hide Nonzero;
    if k == 0 {
      assert table + seq(k, i => -1) == table;
    } else {
      FreeAppend(table, k - 1);
      assert table + seq(k, i => -1) == table + seq(k - 1, i => -1) + [-1];
      FreePush(table + seq(k - 1, i => -1));
    }
  }

  lemma FreePush(table: seq<int>)
    ensures |Nonzero(IsFree(table + [-1]))| == |Nonzero(IsFree(table))| + 1
  {
    assert IsFree(table + [-1])[..|table|] == IsFree(table);
  }

  /** After a request the table holds exactly the requested ids, once each. */
  lemma StepHolds(table: seq<int>, cur: seq<nat>)
    requires Distinct(cur) && OneRowEach(table)
    ensures Holds(Step(table, cur).0, cur)
  {
    hide Step, After, NewIds, Distinct;
    var after := Step(table, cur).0;
    forall x | x in cur ensures x in after {
      IdHeld(table, cur, x);
    }
    forall i, j | 0 <= i < j < |after| && after[i] >= 0 ensures after[i] != after[j] {
      StepAt(table, cur, i);
      StepAt(table, cur, j);
      TwoRows(table, cur, i, j);
    }
    forall i | 0 <= i < |after| ensures after[i] >= -1 && (after[i] >= 0 ==> after[i] in cur) {
      RowHolds(table, cur, i);
    }
  }

  lemma IdHeld(table: seq<int>, cur: seq<nat>, x: nat)
    requires Distinct(cur) && x in cur
    ensures x in Step(table, cur).0
  {
    hide Step, NewIds;
    NewIdsSorted(table, cur);
    StepShape(table, cur);
    var (after, rows, ids) := Step(table, cur);
    if x in table {
      var i :| 0 <= i < |table| && table[i] == x;
      StepAt(table, cur, i);
    } else {
      var k :| 0 <= k < |ids| && ids[k] == x;
      assert after[rows[k]] == x;
    }
  }

  lemma RowHolds(table: seq<int>, cur: seq<nat>, i: nat)
    requires Distinct(cur) && i < |Step(table, cur).0|
    ensures Step(table, cur).0[i] >= -1 && (Step(table, cur).0[i] >= 0 ==> Step(table, cur).0[i] in cur)
  {
    hide Step, NewIds;
    NewIdsSorted(table, cur);
    StepShape(table, cur);
    StepAt(table, cur, i);
  }

  /** What row `i` holds after a request: the id it held if that is wanted, or a new id, or nothing. */
  ghost predicate After(table: seq<int>, cur: seq<nat>, i: nat) {
    var (after, rows, ids) := Step(table, cur);
    && i < |after| && |rows| == |ids|
    && (i < |table| && table[i] in cur ==> after[i] == table[i])
    && (i in rows ==> after[i] in ids && !(i < |table| && table[i] in cur))
    && (i !in rows && !(i < |table| && table[i] in cur) ==> after[i] == -1)
  }

  lemma StepShape(table: seq<int>, cur: seq<nat>)
    ensures var (after, rows, ids) := Step(table, cur);
      && |rows| == |ids| && StrictlySorted(rows) && InRange(rows, |after|)
      && |after| == |Grown(Cleared(table, cur), |ids|)| >= |table|
      && ids == NewIds(table, cur)
      && forall k :: 0 <= k < |rows| ==> after[rows[k]] == ids[k]
  {
    hide NewIds, Cleared;
    var ids := NewIds(table, cur);
    EnoughFree(Cleared(table, cur), |ids|);
  }

  lemma StepAt(table: seq<int>, cur: seq<nat>, i: nat)
    requires i < |Step(table, cur).0|
    ensures After(table, cur, i)
  {
    hide NewIds, Cleared, Nonzero;
    var (after, rows, ids) := Step(table, cur);
    var m := Cleared(table, cur);
    var grown := Grown(m, |ids|);
    EnoughFree(m, |ids|);
    StepShape(table, cur);
    if i < |table| {
      ClearedAt(table, cur, i);
    }
    if i in rows {
      var k :| 0 <= k < |rows| && rows[k] == i;
      assert after[rows[k]] in ids;
      assert IsFree(grown)[Nonzero(IsFree(grown))[k]];
    }
  }

  lemma TwoRows(table: seq<int>, cur: seq<nat>, i: nat, j: nat)
    requires Distinct(cur) && OneRowEach(table) && i < j && After(table, cur, i) && After(table, cur, j)
    requires Step(table, cur).0[i] >= 0
    ensures Step(table, cur).0[i] != Step(table, cur).0[j]
  {
    NewIdsSorted(table, cur);
    StepShape(table, cur);
    hide Step, NewIds, Grown, Cleared;
    var (after, rows, ids) := Step(table, cur);
    if i in rows && j in rows {
      var k :| 0 <= k < |rows| && rows[k] == i;
      var l :| 0 <= l < |rows| && rows[l] == j;
      assert k != l;
      assert after[rows[k]] == ids[k] && after[rows[l]] == ids[l];
    }
  }

  /** Ids that stay wanted stay where they are. */
  lemma StepKeeps(table: seq<int>, cur: seq<nat>, i: nat)
    requires i < |table| && table[i] in cur
    ensures i < |Step(table, cur).0| && Step(table, cur).0[i] == table[i]
  {
    StepShape(table, cur);
    StepAt(table, cur, i);
  }

  /** The returned rows hold exactly the new ids, in order. */
  lemma StepReturns(table: seq<int>, cur: seq<nat>)
    requires Distinct(cur)
    ensures var (after, rows, ids) := Step(table, cur);
      && |rows| == |ids| && StrictlySorted(rows) && InRange(rows, |after|)
      && (forall k :: 0 <= k < |rows| ==> after[rows[k]] == ids[k])
      && StrictlySorted(ids) && forall x :: x in ids <==> x in cur && x !in table
  {
    hide Step, NewIds;
    StepShape(table, cur);
    NewIdsSorted(table, cur);
  }

  /** New ids take the lowest rows: a row left free stands behind all that are taken. */
  lemma StepLowest(table: seq<int>, cur: seq<nat>, i: nat)
    requires Distinct(cur) && i < |Step(table, cur).0| && Step(table, cur).0[i] == -1
    ensures var rows := Step(table, cur).1; forall k :: 0 <= k < |rows| ==> rows[k] < i
  {
    hide NewIds, Cleared, Grown, Nonzero;
    NewIdsSorted(table, cur);
    var (after, rows, ids) := Step(table, cur);
    var grown := Grown(Cleared(table, cur), |ids|);
    EnoughFree(Cleared(table, cur), |ids|);
    StepShape(table, cur);
    var free := Nonzero(IsFree(grown));
    assert forall k :: 0 <= k < |rows| ==> after[rows[k]] == ids[k] && rows[k] != i;
    assert grown[i] == -1 && IsFree(grown)[i];
    var m :| 0 <= m < |free| && free[m] == i;
    assert forall k :: 0 <= k < |rows| ==> rows[k] == free[k];
  }

  /** The table grows only as far as the request needs. */
  lemma StepLength(table: seq<int>, cur: seq<nat>)
    requires Distinct(cur) && OneRowEach(table)
    ensures |Step(table, cur).0| == Max(|table|, |cur|)
  {
    hide Step, NewIds, Cleared, Nonzero;
    StepShape(table, cur);
    KeptRows(table, cur);
    MaskParts(IsFree(Cleared(table, cur)));
  }

  // ------------------------------------------------------------------------------ whole sequences

  const UNUSED: int := 0x7fff_ffff

  /** The table after these requests, from the one that `gen_part_incre` starts with. */
  function TableAfter(requests: seq<seq<nat>>): (table: seq<int>)
  {
    if |requests| == 0 then [UNUSED]
    else Step(TableAfter(requests[..|requests| - 1]), requests[|requests| - 1]).0
  }

  function Largest(requests: seq<seq<nat>>): (n: nat)
  {
    if |requests| == 0 then 1
    else Max(Largest(requests[..|requests| - 1]), |requests[|requests| - 1]|)
  }

  /** Over any sequence of requests: the table holds the last one, and is as long as the largest. */
  lemma {:induction false} RequestsHeld(requests: seq<seq<nat>>)
    requires forall k :: 0 <= k < |requests| ==> Distinct(requests[k])
    ensures OneRowEach(TableAfter(requests)) && |TableAfter(requests)| == Largest(requests)
    ensures |requests| > 0 ==> Holds(TableAfter(requests), requests[|requests| - 1])
  {
    if |requests| > 0 {
      var pre := requests[..|requests| - 1];
      RequestsHeld(pre);
      hide Step;
      StepHolds(TableAfter(pre), requests[|requests| - 1]);
      StepLength(TableAfter(pre), requests[|requests| - 1]);
    }
  }

  /** Request `k` returned `x` for row `i`, and the row has held it since. */
  ghost predicate LoadedBy(requests: seq<seq<nat>>, k: nat, i: nat, x: int)
    requires k < |requests|
  {
    var (after, rows, ids) := Step(TableAfter(requests[..k]), requests[k]);
    && (exists j :: 0 <= j < |rows| && j < |ids| && rows[j] == i && ids[j] == x)
    && forall l :: k < l <= |requests| ==> HeldIn(requests[..l], i, x)
  }

  ghost predicate HeldIn(requests: seq<seq<nat>>, i: nat, x: int) {
    i < |TableAfter(requests)| && TableAfter(requests)[i] == x
  }

  /** Ids stay below the value that the table starts with. */
  ghost predicate Ids(requests: seq<seq<nat>>) {
    forall k :: 0 <= k < |requests| ==> Distinct(requests[k]) && InRange(requests[k], 0x7fff_ffff)
  }

  /** Over any sequence of requests, no id gets into the table without having been returned: for every row that holds an
      id, some request returned that id for that row, and the row has held it since. */
  lemma {:induction false} EveryRowLoaded(requests: seq<seq<nat>>, i: nat) returns (k: nat)
    requires Ids(requests) && |requests| > 0 && i < |TableAfter(requests)| && 0 <= TableAfter(requests)[i]
    ensures TableAfter(requests)[i] in requests[|requests| - 1]
    ensures k < |requests| && LoadedBy(requests, k, i, TableAfter(requests)[i])
  {
    hide Step, NewIds, Ids, LoadedBy, Distinct, InRange;
    var n, x := |requests| - 1, TableAfter(requests)[i];
    var pre, cur := requests[..n], requests[n];
    IdsPrefix(requests, n);
    RequestsHeld(requests);
    StepShape(TableAfter(pre), cur);
    StepAt(TableAfter(pre), cur, i);
    NewIdsSorted(TableAfter(pre), cur);
    var (after, rows, ids) := Step(TableAfter(pre), cur);
    if i in rows {
      var j :| 0 <= j < |rows| && rows[j] == i;
      k := n;
      LoadedNow(requests, i, j);
    } else {
      StartUnused(cur);
      k := EveryRowLoaded(pre, i);
      LoadedStill(requests, k, i, x);
    }
  }

  lemma IdsPrefix(requests: seq<seq<nat>>, n: nat)
    requires Ids(requests) && n < |requests|
    ensures Ids(requests[..n]) && Distinct(requests[n]) && InRange(requests[n], 0x7fff_ffff)
    ensures forall k :: 0 <= k < |requests| ==> Distinct(requests[k])
  {
  }

  /** The value that the table starts with is no id. */
  lemma StartUnused(cur: seq<nat>)
    requires InRange(cur, 0x7fff_ffff)
    ensures forall x :: x in TableAfter([]) ==> x !in cur
  {
    InRangeMember(cur, 0x7fff_ffff);
  }

  lemma InRangeMember(ids: seq<nat>, n: nat)
    requires InRange(ids, n)
    ensures (n as int) !in ids
  {
  }

  lemma LoadedNow(requests: seq<seq<nat>>, i: nat, j: nat)
    requires |requests| > 0
    requires var (after, rows, ids) := Step(TableAfter(requests[..|requests| - 1]), requests[|requests| - 1]);
      && j < |rows| == |ids| && rows[j] == i && i < |after| && after[i] == ids[j]
    ensures i < |TableAfter(requests)| && LoadedBy(requests, |requests| - 1, i, TableAfter(requests)[i])
  {
    hide Step;
    assert requests[..|requests|] == requests;
  }

  lemma LoadedStill(requests: seq<seq<nat>>, k: nat, i: nat, x: int)
    requires |requests| > 0 && k < |requests| - 1 && LoadedBy(requests[..|requests| - 1], k, i, x)
    requires HeldIn(requests, i, x)
    ensures LoadedBy(requests, k, i, x)
  {
    hide Step, HeldIn;
    var pre := requests[..|requests| - 1];
    assert pre[..k] == requests[..k] && pre[k] == requests[k];
    forall l: nat | k < l <= |requests| ensures HeldIn(requests[..l], i, x) {
      if l < |requests| {
        assert pre[..l] == requests[..l];
      } else {
        assert requests[..l] == requests;
      }
    }
  }

  /** The first request returns all its ids, in ascending order, for the first rows. */
  lemma FirstRequest(cur: seq<nat>)
    requires Distinct(cur) && InRange(cur, 0x7fff_ffff)
    ensures var (after, rows, ids) := Step(TableAfter([]), cur);
      && |rows| == |ids| == |cur| && StrictlySorted(ids) && (forall x :: x in ids <==> x in cur)
      && (forall k :: 0 <= k < |rows| ==> rows[k] == k)
      && |after| == Max(1, |cur|) && forall k :: 0 <= k < |cur| ==> after[k] == ids[k]
  {
    hide Step, NewIds;
    assert TableAfter([]) == [0x7fff_ffff];
    InRangeMember(cur, 0x7fff_ffff);
    StepReturns(TableAfter([]), cur);
    StepLength(TableAfter([]), cur);
    var (after, rows, ids) := Step(TableAfter([]), cur);
    SameMembers([], ids, cur);
    if |cur| > 0 {
      AllRows(rows, |cur|);
    }
  }

  lemma {:induction false} AllRows(rows: seq<nat>, n: nat)
    requires StrictlySorted(rows) && InRange(rows, n) && |rows| == n
    ensures forall k :: 0 <= k < n ==> rows[k] == k
  {
    if n > 0 {
      forall k | 0 <= k < n - 1 ensures rows[k] < n - 1 {
        assert rows[k] < rows[n - 1];
      }
      AllRows(rows[..n - 1], n - 1);
      assert n > 1 ==> rows[n - 2] == rows[..n - 1][n - 2];
    }
  }

  /** The table itself, overwritten by every request. */
  class RowMap {
    var preMap: array<int>

    constructor ()
      ensures fresh(preMap) && preMap[..] == TableAfter([])
    {
      preMap := new int[1](_ => UNUSED);
    }

    /** `incre_strategy` */
    method IncreStrategy(cur: seq<nat>) returns (increIndices: seq<nat>, increNid: seq<nat>)
      modifies this`preMap, preMap
      ensures preMap == old(preMap) || fresh(preMap)
      ensures (preMap[..], increIndices, increNid) == Step(old(preMap[..]), cur)
    {
      hide NewIds, Unwanted, Scatter;
      ghost var was := preMap[..];
      var increMapIndex := Unwanted(preMap[..], cur);
      increNid := NewIds(preMap[..], cur);
      UnwantedInRange(preMap[..], cur);
      IndexFill(preMap, increMapIndex, -1);
      ghost var cleared := preMap[..];
      var indicesAble := Nonzero(IsFree(preMap[..]));
      var lenAble := |indicesAble|;
      if lenAble < |increNid| {
        var longer := new int[preMap.Length + |increNid| - lenAble](i requires 0 <= i reads this, preMap =>
          if i < preMap.Length then preMap[i] else -1);
        assert longer[..] == cleared + seq(|increNid| - lenAble, i => -1);
        preMap := longer;
        indicesAble := Nonzero(IsFree(preMap[..]));
      }
      assert preMap[..] == Grown(cleared, |increNid|);
      EnoughFree(cleared, |increNid|);
      increIndices := indicesAble[..|increNid|];
      IndexPut(preMap, increIndices, increNid);
    }
  }

  lemma UnwantedInRange(table: seq<int>, cur: seq<nat>)
    ensures InRange(Unwanted(table, cur), |table|)
  {
    SelectInRange(ArgSort(table), Missing(Sorted(table), Sorted(cur)), |table|);
  }
}
