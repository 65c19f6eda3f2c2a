/** The per-column counting bloom filters as the multisets of keys they
    count, and the three loops that change them: adding event values,
    removing event values, and scanning the table to rebuild them. */
module BloomIndex {
  import opened Schema

  /** One counting filter per attribute. */
  type Filters = seq<multiset<string>>

  /** addToBloomFilters, removeFromBloomFilters, or the table scan of
      buildBloomFilters. */
  datatype Mode = Adding | Removing | Scanning

  /** What a loop does to the filter of one column for one value. */
  datatype CellOp = NoOp | Put(key: string) | Take(key: string) | Crash

  /** The loops throw on this value: a null event value when adding or
      removing, and SQL NULL in a STRING column when scanning. */
  predicate Throws(mode: Mode, t: AttrType, v: Value) {
    v.Null? && (mode != Scanning || t == STRING)
  }

  /** Adding and removing stringify the event value (a null one throws);
      the scan goes through ScanKeyOf. */
  function CellOpOf(mode: Mode, t: AttrType, v: Value): (op: CellOp)
    ensures op.Crash? <==> Throws(mode, t, v)
    ensures op.Take? <==> mode == Removing && !v.Null?
  {
    match mode
    case Adding => if KeyOf(v).None? then Crash else Put(KeyOf(v).value)
    case Removing => if KeyOf(v).None? then Crash else Take(KeyOf(v).value)
    case Scanning =>
      match ScanKeyOf(t, v)
      case Skip => NoOp
      case AddKey(k) => Put(k)
      case NullDeref => Crash
  }

  /** The keys an operation counts or uncounts. */
  function OpKeys(op: CellOp): multiset<string> {
    match op
    case Put(k) => multiset{k}
    case Take(k) => multiset{k}
    case NoOp => multiset{}
    case Crash => multiset{}
  }

  datatype CellEffect = Updated(cell: multiset<string>) | Rejected

  /** A counting filter refuses to delete a key that is not a member. */
  function ApplyCell(cell: multiset<string>, op: CellOp): CellEffect {
    match op
    case NoOp => Updated(cell)
    case Put(k) => Updated(cell + multiset{k})
    case Take(k) => if k in cell then Updated(cell - multiset{k}) else Rejected
    case Crash => Rejected
  }

  /** A filter rejects exactly a throwing value and the removal of a key it
      does not count; otherwise it counts the key put, or uncounts the key
      taken, and nothing else. */
  lemma {:induction false} ApplyCellEffect(cell: multiset<string>, op: CellOp)
    ensures ApplyCell(cell, op).Rejected? <==> op.Crash? || (op.Take? && op.key !in cell)
    ensures ApplyCell(cell, op).Updated? ==>
      ApplyCell(cell, op).cell + (if op.Take? then OpKeys(op) else multiset{})
        == cell + (if op.Take? then multiset{} else OpKeys(op))
  {
    if op.Take? && op.key in cell {
      assert (cell - multiset{op.key}) + multiset{op.key} == cell;
    }
  }

  /** The filters after a loop, and whether it ended by an exception. */
  datatype IndexRun = IndexRun(filters: Filters, aborted: bool)

  /** What the inner loop asks of column `i`'s filter for row `r`; a row
      shorter than the attribute list throws at its first missing value. */
  function CellOfRow(mode: Mode, attrs: seq<Attribute>, r: Row, i: nat): CellOp
    requires i < |attrs|
  {
    if i < |r| then CellOpOf(mode, attrs[i].attrType, r[i]) else Crash
  }

  /** The operations the inner loop applies to row `r`, column by column. */
  function RowOps(mode: Mode, attrs: seq<Attribute>, r: Row): (ops: seq<CellOp>)
    ensures |ops| == |attrs|
    ensures forall i :: 0 <= i < |attrs| ==> ops[i] == CellOfRow(mode, attrs, r, i)
  {
    seq(|attrs|, i requires 0 <= i < |attrs| => CellOfRow(mode, attrs, r, i))
  }

  /** One pass of the inner loop: operation `op` on the filter of column `i`. */
  function ColumnStep(prev: IndexRun, op: CellOp, i: nat): (run: IndexRun)
    requires i < |prev.filters|
    ensures |run.filters| == |prev.filters|
  {
    if prev.aborted then prev
    else
      match ApplyCell(prev.filters[i], op)
      case Rejected => IndexRun(prev.filters, true)
      case Updated(c) => IndexRun(prev.filters[i := c], false)
  }

  /** The inner loop over the first `k` columns of one row. */
  function RunRow(f: Filters, ops: seq<CellOp>, k: nat): (run: IndexRun)
    requires k <= |ops| == |f|
    ensures |run.filters| == |f|
  {
    if k == 0 then IndexRun(f, false)
    else ColumnStep(RunRow(f, ops, k - 1), ops[k - 1], k - 1)
  }

  /** The outer loop over the rows, stopping at the first exception. */
  function RunRows(f: Filters, mode: Mode, attrs: seq<Attribute>, rows: seq<Row>): (run: IndexRun)
    requires |attrs| == |f|
    ensures |run.filters| == |f|
    decreases |rows|
  {
    if rows == [] then IndexRun(f, false)
    else
      var prev := RunRows(f, mode, attrs, rows[..|rows| - 1]);
      if prev.aborted then prev
      else RunRow(prev.filters, RowOps(mode, attrs, rows[|rows| - 1]), |attrs|)
  }

  /** The keys one row gives column `i` in a mode. */
  function RowKeys(mode: Mode, attrs: seq<Attribute>, r: Row, i: nat): multiset<string>
    requires i < |attrs|
  {
    OpKeys(CellOfRow(mode, attrs, r, i))
  }

  /** The keys the rows give column `i` in a mode. */
  ghost function Keys(mode: Mode, attrs: seq<Attribute>, rows: seq<Row>, i: nat): multiset<string>
    requires i < |attrs|
    decreases |rows|
  {
    if rows == [] then multiset{}
    else Keys(mode, attrs, rows[..|rows| - 1], i) + RowKeys(mode, attrs, rows[|rows| - 1], i)
  }

  /** No value of the row makes the loop throw in a mode that does not
      depend on the filter contents. */
  ghost predicate RowClean(mode: Mode, attrs: seq<Attribute>, r: Row) {
    |r| >= |attrs| &&
    forall i :: 0 <= i < |attrs| ==> !Throws(mode, attrs[i].attrType, r[i])
  }

  /** Every key the table gives a column is counted by that column's filter. */
  ghost predicate Covers(f: Filters, attrs: seq<Attribute>, rows: seq<Row>) {
    |f| == |attrs| &&
    forall i :: 0 <= i < |attrs| ==> Keys(Scanning, attrs, rows, i) <= f[i]
  }

  /** A membership probe never misses a value the table holds. */
  ghost predicate NoFalseNegatives(f: Filters, attrs: seq<Attribute>, rows: seq<Row>)
    requires |f| == |attrs|
  {
    forall j, i :: 0 <= j < |rows| && 0 <= i < |attrs| && i < |rows[j]| && ScanKeyOf(attrs[i].attrType, rows[j][i]).AddKey? ==>
      ScanKeyOf(attrs[i].attrType, rows[j][i]).key in f[i]
  }

  function EmptyFilters(n: nat): (f: Filters)
    ensures |f| == n && forall i :: 0 <= i < n ==> f[i] == multiset{}
  {
    seq(n, _ => multiset{})
  }

  // ---------------------------------------------------------------------------
  // Runs that stop

  /** An aborted run stays as it is for one more column. */
  lemma {:induction false} StepStopped(f: Filters, ops: seq<CellOp>, m: nat)
    requires 0 < m <= |ops| == |f| && RunRow(f, ops, m - 1).aborted
    ensures RunRow(f, ops, m) == RunRow(f, ops, m - 1)
  {
  }

  /** Once a row throws, its later columns change nothing. */
  lemma {:induction false} RunRowStopped(f: Filters, ops: seq<CellOp>, k: nat, m: nat)
    requires k <= m <= |ops| == |f|
    requires RunRow(f, ops, k).aborted
    ensures RunRow(f, ops, m) == RunRow(f, ops, k)
    decreases m
  {
    if m > k {
      RunRowStopped(f, ops, k, m - 1);
      StepStopped(f, ops, m);
    }
  }

  lemma {:induction false} RunRowsStopped(f: Filters, mode: Mode, attrs: seq<Attribute>, rows: seq<Row>, j: nat)
    requires j <= |rows| && |attrs| == |f|
    requires RunRows(f, mode, attrs, rows[..j]).aborted
    ensures RunRows(f, mode, attrs, rows) == RunRows(f, mode, attrs, rows[..j])
    decreases |rows| - j
  {
    if j < |rows| {
      assert rows[..j + 1][..j] == rows[..j];
      RunRowsStopped(f, mode, attrs, rows, j + 1);
    } else {
      assert rows[..j] == rows;
    }
  }

  /** The outer loop ends with the run over all rows: it went through them,
      or the run stopped. */
  lemma {:induction false} RunRowsExit(f: Filters, mode: Mode, attrs: seq<Attribute>, rows: seq<Row>, j: nat, g: Filters, stop: bool)
    requires j <= |rows| && |attrs| == |f| && (j == |rows| || stop)
    requires RunRows(f, mode, attrs, rows[..j]) == IndexRun(g, stop)
    ensures RunRows(f, mode, attrs, rows) == IndexRun(g, stop)
  {
    if j < |rows| {
      RunRowsStopped(f, mode, attrs, rows, j);
    } else {
      assert rows[..j] == rows;
    }
  }

  /** The outer loop's body takes the run over `j` rows, with filters `g`,
      to the run over `j + 1` rows, with the filters `h` the inner loop left. */
  lemma {:induction false} RunRowsNext(f: Filters, mode: Mode, attrs: seq<Attribute>, rows: seq<Row>, j: nat, g: Filters, h: Filters, stop: bool)
    requires j < |rows| && |attrs| == |f| == |g|
    requires RunRows(f, mode, attrs, rows[..j]) == IndexRun(g, false)
    requires RunRow(g, RowOps(mode, attrs, rows[j]), |attrs|) == IndexRun(h, stop)
    ensures RunRows(f, mode, attrs, rows[..j + 1]) == IndexRun(h, stop)
  {
    PrefixGrows(rows, j);
  }

  lemma {:induction false} PrefixGrows(rows: seq<Row>, j: nat)
    requires j < |rows|
    ensures rows[..j + 1][..j] == rows[..j] && rows[..j + 1][j] == rows[j]
  {
  }

  /** The inner loop's body takes the run over `i` columns, with filters `g`,
      to the run over `i + 1` columns, with filters `h`: it stops exactly
      when the filter rejects the operation, and otherwise changes column
      `i` alone, as the operation says. */
  lemma {:induction false} RunRowAdvance(f: Filters, ops: seq<CellOp>, i: nat, g: Filters, h: Filters, stop: bool)
    requires i < |ops| == |f| && RunRow(f, ops, i) == IndexRun(g, false)
    requires |h| == |g|
    requires stop <==> ApplyCell(g[i], ops[i]).Rejected?
    requires stop ==> h == g
    requires !stop ==> h[i] == ApplyCell(g[i], ops[i]).cell
    requires forall j :: 0 <= j < |g| && j != i ==> h[j] == g[j]
    ensures RunRow(f, ops, i + 1) == IndexRun(h, stop)
  {
    if !stop {
      assert h == g[i := h[i]];
    }
  }

  // ---------------------------------------------------------------------------
  // Closed forms

  /** No operation throws or uncounts: those of a clean row when adding or
      scanning. */
  predicate Growing(ops: seq<CellOp>) {
    forall i :: 0 <= i < |ops| ==> !ops[i].Crash? && !ops[i].Take?
  }

  /** Every operation uncounts a key the filter of its column counts: those
      of a clean row whose keys are counted, when removing. */
  predicate Shrinking(f: Filters, ops: seq<CellOp>)
    requires |ops| == |f|
  {
    forall i :: 0 <= i < |ops| ==> ops[i].Take? && ops[i].key in f[i]
  }

  lemma {:induction false} CleanRowGrows(mode: Mode, attrs: seq<Attribute>, r: Row)
    requires mode != Removing && RowClean(mode, attrs, r)
    ensures Growing(RowOps(mode, attrs, r))
  {
    var ops := RowOps(mode, attrs, r);
    forall i | 0 <= i < |ops| ensures !ops[i].Crash? && !ops[i].Take? {
      assert ops[i] == CellOpOf(mode, attrs[i].attrType, r[i]);
    }
  }

  lemma {:induction false} CleanRowShrinks(f: Filters, attrs: seq<Attribute>, r: Row)
    requires |f| == |attrs| && RowClean(Removing, attrs, r)
    requires forall i :: 0 <= i < |attrs| ==> RowKeys(Removing, attrs, r, i) <= f[i]
    ensures Shrinking(f, RowOps(Removing, attrs, r))
  {
    var ops := RowOps(Removing, attrs, r);
    forall i | 0 <= i < |ops| ensures ops[i].Take? && ops[i].key in f[i] {
      assert ops[i] == Take(ToText(r[i]));
      assert RowKeys(Removing, attrs, r, i) == multiset{ToText(r[i])};
    }
  }

  /** A row shorter than the attribute list throws at its first missing
      value. */
  lemma {:induction false} ShortRowCrashes(mode: Mode, attrs: seq<Attribute>, r: Row)
    requires |r| < |attrs|
    ensures RowOps(mode, attrs, r)[|r|].Crash?
  {
  }

  /** A row whose operations did not throw is clean. */
  lemma {:induction false} OpsCleanRow(mode: Mode, attrs: seq<Attribute>, r: Row)
    requires forall i :: 0 <= i < |attrs| ==> !RowOps(mode, attrs, r)[i].Crash?
    ensures RowClean(mode, attrs, r)
  {
    var ops := RowOps(mode, attrs, r);
    if |r| < |attrs| {
      ShortRowCrashes(mode, attrs, r);
      assert false;
    }
    forall i | 0 <= i < |attrs| ensures !Throws(mode, attrs[i].attrType, r[i]) {
      assert ops[i] == CellOpOf(mode, attrs[i].attrType, r[i]);
    }
  }

  /** A column step that counts a key. */
  lemma {:induction false} PutStep(prev: IndexRun, op: CellOp, i: nat)
    requires i < |prev.filters| && !prev.aborted && !op.Crash? && !op.Take?
    ensures ColumnStep(prev, op, i) == IndexRun(prev.filters[i := prev.filters[i] + OpKeys(op)], false)
  {
    assert ApplyCell(prev.filters[i], op) == Updated(prev.filters[i] + OpKeys(op));
  }

  /** A column step that uncounts a counted key. */
  lemma {:induction false} TakeStep(prev: IndexRun, op: CellOp, i: nat)
    requires i < |prev.filters| && !prev.aborted && op.Take? && op.key in prev.filters[i]
    ensures ColumnStep(prev, op, i) == IndexRun(prev.filters[i := prev.filters[i] - OpKeys(op)], false)
  {
  }

  /** `g` is `f` with the keys of the first `k` operations counted. */
  ghost predicate GrownBy(f: Filters, g: Filters, ops: seq<CellOp>, k: nat)
    requires k <= |ops|
  {
    |g| == |f| == |ops| &&
    forall i {:trigger g[i]} :: 0 <= i < |f| ==> g[i] == if i < k then f[i] + OpKeys(ops[i]) else f[i]
  }

  /** Counting column k - 1 extends the closed form from k - 1 columns to k. */
  lemma {:induction false} GrowStep(f: Filters, ops: seq<CellOp>, k: nat, prev: IndexRun)
    requires 0 < k <= |ops| && !prev.aborted && GrownBy(f, prev.filters, ops, k - 1)
    requires !ops[k - 1].Crash? && !ops[k - 1].Take?
    ensures !ColumnStep(prev, ops[k - 1], k - 1).aborted
    ensures GrownBy(f, ColumnStep(prev, ops[k - 1], k - 1).filters, ops, k)
  {
    PutStep(prev, ops[k - 1], k - 1);
  }

  /** A row that neither throws nor uncounts counts each column's key once. */
  lemma {:induction false} RunRowGrow(f: Filters, ops: seq<CellOp>, k: nat)
    requires k <= |ops| == |f| && Growing(ops)
    ensures !RunRow(f, ops, k).aborted
    ensures GrownBy(f, RunRow(f, ops, k).filters, ops, k)
    decreases k
  {
    if k > 0 {
      RunRowGrow(f, ops, k - 1);
      GrowStep(f, ops, k, RunRow(f, ops, k - 1));
    }
  }

  /** `g` is `f` with the keys of the first `k` operations uncounted. */
  ghost predicate ShrunkBy(f: Filters, g: Filters, ops: seq<CellOp>, k: nat)
    requires k <= |ops|
  {
    |g| == |f| == |ops| &&
    forall i {:trigger g[i]} :: 0 <= i < |f| ==> g[i] == if i < k then f[i] - OpKeys(ops[i]) else f[i]
  }

  /** Uncounting column k - 1 extends the closed form from k - 1 columns to k. */
  lemma {:induction false} ShrinkStep(f: Filters, ops: seq<CellOp>, k: nat, prev: IndexRun)
    requires 0 < k <= |ops| && !prev.aborted && ShrunkBy(f, prev.filters, ops, k - 1)
    requires ops[k - 1].Take? && ops[k - 1].key in f[k - 1]
    ensures !ColumnStep(prev, ops[k - 1], k - 1).aborted
    ensures ShrunkBy(f, ColumnStep(prev, ops[k - 1], k - 1).filters, ops, k)
  {
    assert prev.filters[k - 1] == f[k - 1];
    TakeStep(prev, ops[k - 1], k - 1);
  }

  /** A row whose every key is counted uncounts each once. */
  lemma {:induction false} RunRowShrink(f: Filters, ops: seq<CellOp>, k: nat)
    requires k <= |ops| == |f| && Shrinking(f, ops)
    ensures !RunRow(f, ops, k).aborted
    ensures ShrunkBy(f, RunRow(f, ops, k).filters, ops, k)
    decreases k
  {
    if k > 0 {
      RunRowShrink(f, ops, k - 1);
      ShrinkStep(f, ops, k, RunRow(f, ops, k - 1));
    }
  }

  /** Adding or scanning clean rows counts exactly their keys. */
  lemma {:induction false} RunRowsGrow(f: Filters, mode: Mode, attrs: seq<Attribute>, rows: seq<Row>)
    requires |attrs| == |f| && mode != Removing
    requires forall j :: 0 <= j < |rows| ==> RowClean(mode, attrs, rows[j])
    ensures !RunRows(f, mode, attrs, rows).aborted
    ensures forall i :: 0 <= i < |f| ==> RunRows(f, mode, attrs, rows).filters[i] == f[i] + Keys(mode, attrs, rows, i)
    decreases |rows|
  {
    if rows != [] {
      var init, last := rows[..|rows| - 1], rows[|rows| - 1];
      RunRowsGrow(f, mode, attrs, init);
      var prev := RunRows(f, mode, attrs, init);
      var ops := RowOps(mode, attrs, last);
      CleanRowGrows(mode, attrs, last);
      RunRowGrow(prev.filters, ops, |attrs|);
      var g := RunRows(f, mode, attrs, rows).filters;
      assert GrownBy(prev.filters, g, ops, |attrs|);
      forall i | 0 <= i < |f| ensures g[i] == f[i] + Keys(mode, attrs, rows, i) {
        KeysLast(mode, attrs, rows, i);
        UnionAssociates(f[i], Keys(mode, attrs, init, i), RowKeys(mode, attrs, last, i));
      }
    }
  }

  /** Removing rows whose keys are all counted uncounts exactly their keys. */
  lemma {:induction false} RunRowsShrink(f: Filters, attrs: seq<Attribute>, rows: seq<Row>)
    requires |attrs| == |f|
    requires forall j :: 0 <= j < |rows| ==> RowClean(Removing, attrs, rows[j])
    requires forall i :: 0 <= i < |attrs| ==> Keys(Removing, attrs, rows, i) <= f[i]
    ensures !RunRows(f, Removing, attrs, rows).aborted
    ensures forall i :: 0 <= i < |f| ==> RunRows(f, Removing, attrs, rows).filters[i] == f[i] - Keys(Removing, attrs, rows, i)
    decreases |rows|
  {
    if rows != [] {
      var init := rows[..|rows| - 1];
      var last := rows[|rows| - 1];
      forall i | 0 <= i < |attrs|
        ensures Keys(Removing, attrs, rows, i) == Keys(Removing, attrs, init, i) + RowKeys(Removing, attrs, last, i)
        ensures Keys(Removing, attrs, init, i) <= f[i]
      {
        KeysLast(Removing, attrs, rows, i);
      }
      RunRowsShrink(f, attrs, init);
      var prev := RunRows(f, Removing, attrs, init);
      var ops := RowOps(Removing, attrs, last);
      CleanRowShrinks(prev.filters, attrs, last);
      RunRowShrink(prev.filters, ops, |attrs|);
      assert ShrunkBy(prev.filters, RunRows(f, Removing, attrs, rows).filters, ops, |attrs|);
    }
  }

  /** A column step that did not throw started from a run that did not, and
      did not crash. */
  lemma {:induction false} StepCompleted(prev: IndexRun, op: CellOp, i: nat)
    requires i < |prev.filters| && !ColumnStep(prev, op, i).aborted
    ensures !prev.aborted && !op.Crash?
  {
  }

  /** None of the first `k` operations throws. */
  ghost predicate CleanUpTo(ops: seq<CellOp>, k: nat)
    requires k <= |ops|
  {
    forall i :: 0 <= i < k ==> !ops[i].Crash?
  }

  lemma {:induction false} CleanStep(ops: seq<CellOp>, k: nat)
    requires 0 < k <= |ops| && CleanUpTo(ops, k - 1) && !ops[k - 1].Crash?
    ensures CleanUpTo(ops, k)
  {
  }

  /** A run that did not throw met no throwing operation. */
  lemma {:induction false} RunRowCompletedIsClean(f: Filters, ops: seq<CellOp>, k: nat)
    requires k <= |ops| == |f| && !RunRow(f, ops, k).aborted
    ensures CleanUpTo(ops, k)
    decreases k
  {
    if k > 0 {
      var prev := RunRow(f, ops, k - 1);
      StepCompleted(prev, ops[k - 1], k - 1);
      RunRowCompletedIsClean(f, ops, k - 1);
      CleanStep(ops, k);
    }
  }

  /** Rows the loops went through without an exception are clean. */
  lemma {:induction false} RunRowsCompletedIsClean(f: Filters, mode: Mode, attrs: seq<Attribute>, rows: seq<Row>)
    requires |attrs| == |f|
    requires !RunRows(f, mode, attrs, rows).aborted
    ensures forall j :: 0 <= j < |rows| ==> RowClean(mode, attrs, rows[j])
    decreases |rows|
  {
    if rows != [] {
      var init, last := rows[..|rows| - 1], rows[|rows| - 1];
      RunRowsCompletedIsClean(f, mode, attrs, init);
      RunRowCompletedIsClean(RunRows(f, mode, attrs, init).filters, RowOps(mode, attrs, last), |attrs|);
      OpsCleanRow(mode, attrs, last);
      forall j | 0 <= j < |rows| - 1 ensures RowClean(mode, attrs, rows[j]) {
        assert rows[j] == init[j];
      }
    }
  }

  // ---------------------------------------------------------------------------
  // Keys of row sequences

  /** The keys of a non-empty list: those of all but its last row, plus the
      last row's. */
  lemma {:induction false} KeysLast(mode: Mode, attrs: seq<Attribute>, c: seq<Row>, i: nat)
    requires i < |attrs| && c != []
    ensures Keys(mode, attrs, c, i) == Keys(mode, attrs, c[..|c| - 1], i) + RowKeys(mode, attrs, c[|c| - 1], i)
  {
  }

  lemma {:induction false} UnionAssociates(x: multiset<string>, y: multiset<string>, z: multiset<string>)
    ensures (x + y) + z == x + (y + z)
  {
  }

  lemma {:induction false} KeysConcat(mode: Mode, attrs: seq<Attribute>, a: seq<Row>, b: seq<Row>, i: nat)
    requires i < |attrs|
    ensures Keys(mode, attrs, a + b, i) == Keys(mode, attrs, a, i) + Keys(mode, attrs, b, i)
    decreases |b|
  {
    if b == [] {
      assert a + b == a;
    } else {
      var c, init, x := a + b, b[..|b| - 1], b[|b| - 1];
      assert c[..|c| - 1] == a + init;
      assert c[|c| - 1] == x;
      KeysConcat(mode, attrs, a, init, i);
      KeysLast(mode, attrs, c, i);
      KeysLast(mode, attrs, b, i);
      UnionAssociates(Keys(mode, attrs, a, i), Keys(mode, attrs, init, i), RowKeys(mode, attrs, x, i));
    }
  }

  /** Taking row p out of a list takes its keys out of the list's keys. */
  lemma {:induction false} KeysSplitAt(mode: Mode, attrs: seq<Attribute>, b: seq<Row>, p: nat, i: nat)
    requires p < |b| && i < |attrs|
    ensures Keys(mode, attrs, b, i) == Keys(mode, attrs, b[..p] + b[p + 1..], i) + RowKeys(mode, attrs, b[p], i)
  {
    var x := b[p];
    assert b == b[..p] + ([x] + b[p + 1..]);
    KeysConcat(mode, attrs, b[..p], [x] + b[p + 1..], i);
    KeysConcat(mode, attrs, [x], b[p + 1..], i);
    assert [x][..0] == [];
    assert Keys(mode, attrs, [x], i) == RowKeys(mode, attrs, x, i);
    KeysConcat(mode, attrs, b[..p], b[p + 1..], i);
  }

  /** Taking the row at p out of a list takes one occurrence of it out of the
      list's multiset. */
  lemma {:induction false} RemoveAtMultiset(b: seq<Row>, p: nat)
    requires p < |b|
    ensures multiset(b[..p] + b[p + 1..]) == multiset(b) - multiset{b[p]}
  {
    assert b == b[..p] + [b[p]] + b[p + 1..];
  }

  /** The keys depend on the rows held, not on their order. */
  lemma {:induction false} KeysPermutation(mode: Mode, attrs: seq<Attribute>, a: seq<Row>, b: seq<Row>, i: nat)
    requires i < |attrs| && multiset(a) == multiset(b)
    ensures Keys(mode, attrs, a, i) == Keys(mode, attrs, b, i)
    decreases |a|
  {
    if a == [] {
      assert |b| == |multiset(b)| == 0;
    } else {
      var x := a[|a| - 1];
      var init := a[..|a| - 1];
      assert a == init + [x];
      assert multiset(init) == multiset(a) - multiset{x};
      assert x in multiset(b);
      var p :| 0 <= p < |b| && b[p] == x;
      var rest := b[..p] + b[p + 1..];
      RemoveAtMultiset(b, p);
      KeysPermutation(mode, attrs, init, rest, i);
      KeysLast(mode, attrs, a, i);
      KeysSplitAt(mode, attrs, b, p, i);
    }
  }

  /** For a complete row, the event-side keys and the scan-side keys of a
      column coincide. */
  lemma {:induction false} RowKeysAgree(attrs: seq<Attribute>, r: Row, i: nat)
    requires i < |attrs| && Complete(attrs, r)
    ensures RowKeys(Adding, attrs, r, i) == RowKeys(Scanning, attrs, r, i)
    ensures RowKeys(Removing, attrs, r, i) == RowKeys(Scanning, attrs, r, i)
  {
    ScanKeyAgreesWithKeyOf(attrs[i].attrType, r[i]);
  }

  /** For rows this layer writes, the event-side keys and the scan-side keys
      coincide. */
  lemma {:induction false} KeysAgree(attrs: seq<Attribute>, rows: seq<Row>, i: nat)
    requires i < |attrs|
    requires forall j :: 0 <= j < |rows| ==> Complete(attrs, rows[j])
    ensures Keys(Adding, attrs, rows, i) == Keys(Scanning, attrs, rows, i)
    ensures Keys(Removing, attrs, rows, i) == Keys(Scanning, attrs, rows, i)
    decreases |rows|
  {
    if rows != [] {
      var init, last := rows[..|rows| - 1], rows[|rows| - 1];
      KeysAgree(attrs, init, i);
      RowKeysAgree(attrs, last, i);
      KeysLast(Adding, attrs, rows, i);
      KeysLast(Scanning, attrs, rows, i);
      KeysLast(Removing, attrs, rows, i);
    }
  }

  lemma {:induction false} CompleteRowsClean(attrs: seq<Attribute>, rows: seq<Row>, mode: Mode)
    requires forall j :: 0 <= j < |rows| ==> Complete(attrs, rows[j])
    ensures forall j :: 0 <= j < |rows| ==> RowClean(mode, attrs, rows[j])
  {
    forall j, i | 0 <= j < |rows| && 0 <= i < |attrs|
      ensures !Throws(mode, attrs[i].attrType, rows[j][i])
    {
      ScanKeyAgreesWithKeyOf(attrs[i].attrType, rows[j][i]);
    }
  }

  /** A key of row j is among the keys of the rows. */
  lemma {:induction false} KeyOfRowInKeys(mode: Mode, attrs: seq<Attribute>, rows: seq<Row>, j: nat, i: nat)
    requires j < |rows| && i < |attrs|
    ensures RowKeys(mode, attrs, rows[j], i) <= Keys(mode, attrs, rows, i)
    decreases |rows|
  {
    if j < |rows| - 1 {
      KeyOfRowInKeys(mode, attrs, rows[..|rows| - 1], j, i);
    }
  }

  // ---------------------------------------------------------------------------
  // The index invariant

  /** Covering filters answer every probe for a table value positively. */
  lemma {:induction false} CoversNoFalseNegatives(f: Filters, attrs: seq<Attribute>, rows: seq<Row>)
    requires Covers(f, attrs, rows)
    ensures NoFalseNegatives(f, attrs, rows)
  {
    forall j, i | 0 <= j < |rows| && 0 <= i < |attrs| && i < |rows[j]| && ScanKeyOf(attrs[i].attrType, rows[j][i]).AddKey?
      ensures ScanKeyOf(attrs[i].attrType, rows[j][i]).key in f[i]
    {
      KeyOfRowInKeys(Scanning, attrs, rows, j, i);
    }
  }

  /** A full scan of a table without null strings from fresh filters counts
      exactly the table's keys. */
  lemma {:induction false} RebuildExact(attrs: seq<Attribute>, rows: seq<Row>)
    requires forall j :: 0 <= j < |rows| ==> RowClean(Scanning, attrs, rows[j])
    ensures !RunRows(EmptyFilters(|attrs|), Scanning, attrs, rows).aborted
    ensures forall i :: 0 <= i < |attrs| ==>
      RunRows(EmptyFilters(|attrs|), Scanning, attrs, rows).filters[i] == Keys(Scanning, attrs, rows, i)
    ensures Covers(RunRows(EmptyFilters(|attrs|), Scanning, attrs, rows).filters, attrs, rows)
  {
    RunRowsGrow(EmptyFilters(|attrs|), Scanning, attrs, rows);
  }

  /** A rebuild that reads the whole table without an exception covers it. */
  lemma {:induction false} CompletedRebuildCovers(attrs: seq<Attribute>, rows: seq<Row>)
    requires !RunRows(EmptyFilters(|attrs|), Scanning, attrs, rows).aborted
    ensures Covers(RunRows(EmptyFilters(|attrs|), Scanning, attrs, rows).filters, attrs, rows)
  {
    RunRowsCompletedIsClean(EmptyFilters(|attrs|), Scanning, attrs, rows);
    RebuildExact(attrs, rows);
  }

  /** Covering depends on the rows held, not on their order. */
  lemma {:induction false} CoversPermutation(f: Filters, attrs: seq<Attribute>, a: seq<Row>, b: seq<Row>)
    requires Covers(f, attrs, a) && multiset(a) == multiset(b)
    ensures Covers(f, attrs, b)
  {
    forall i | 0 <= i < |attrs| ensures Keys(Scanning, attrs, b, i) <= f[i] {
      KeysPermutation(Scanning, attrs, a, b, i);
    }
  }

  /** Adding the events a table gained keeps the filters covering it. */
  lemma {:induction false} AddPreservesCovers(f: Filters, attrs: seq<Attribute>, table: seq<Row>, events: seq<Row>)
    requires Covers(f, attrs, table)
    requires forall j :: 0 <= j < |events| ==> Complete(attrs, events[j])
    ensures !RunRows(f, Adding, attrs, events).aborted
    ensures Covers(RunRows(f, Adding, attrs, events).filters, attrs, table + events)
  {
    CompleteRowsClean(attrs, events, Adding);
    RunRowsGrow(f, Adding, attrs, events);
    forall i | 0 <= i < |attrs|
      ensures Keys(Scanning, attrs, table + events, i) <= RunRows(f, Adding, attrs, events).filters[i]
    {
      KeysConcat(Scanning, attrs, table, events, i);
      KeysAgree(attrs, events, i);
    }
  }

  /** Adding events to filters rebuilt from a table gives the filters a
      rebuild of the grown table would give. */
  lemma {:induction false} IncrementalAddAgreesWithRebuild(attrs: seq<Attribute>, table: seq<Row>, events: seq<Row>)
    requires forall j :: 0 <= j < |table| ==> RowClean(Scanning, attrs, table[j])
    requires forall j :: 0 <= j < |events| ==> Complete(attrs, events[j])
    ensures
      var rebuilt := RunRows(EmptyFilters(|attrs|), Scanning, attrs, table);
      RunRows(rebuilt.filters, Adding, attrs, events)
        == RunRows(EmptyFilters(|attrs|), Scanning, attrs, table + events)
  {
    var rebuilt := RunRows(EmptyFilters(|attrs|), Scanning, attrs, table);
    RebuildExact(attrs, table);
    CompleteRowsClean(attrs, events, Adding);
    CompleteRowsClean(attrs, events, Scanning);
    RunRowsGrow(rebuilt.filters, Adding, attrs, events);
    var whole := table + events;
    forall j | 0 <= j < |whole| ensures RowClean(Scanning, attrs, whole[j]) {
      if j >= |table| {
        assert whole[j] == events[j - |table|];
      }
    }
    RebuildExact(attrs, whole);
    forall i | 0 <= i < |attrs|
      ensures RunRows(rebuilt.filters, Adding, attrs, events).filters[i]
           == RunRows(EmptyFilters(|attrs|), Scanning, attrs, whole).filters[i]
    {
      KeysConcat(Scanning, attrs, table, events, i);
      KeysAgree(attrs, events, i);
    }
  }

  /** Deleting exactly the rows of the event the filters are told about keeps
      them covering the table; the removal finds every key it takes. */
  lemma {:induction false} ExactDeletePreservesCovers(f: Filters, attrs: seq<Attribute>, before: seq<Row>, after: seq<Row>, ev: Row)
    requires Covers(f, attrs, before)
    requires Complete(attrs, ev)
    requires multiset(before) == multiset(after) + multiset{ev}
    ensures !RunRows(f, Removing, attrs, [ev]).aborted
    ensures Covers(RunRows(f, Removing, attrs, [ev]).filters, attrs, after)
  {
    assert multiset(before) == multiset(after + [ev]);
    forall i | 0 <= i < |attrs|
      ensures Keys(Removing, attrs, [ev], i) <= f[i]
      ensures Keys(Scanning, attrs, before, i) == Keys(Scanning, attrs, after, i) + Keys(Removing, attrs, [ev], i)
    {
      KeysPermutation(Scanning, attrs, before, after + [ev], i);
      KeysConcat(Scanning, attrs, after, [ev], i);
      KeysAgree(attrs, [ev], i);
    }
    CompleteRowsClean(attrs, [ev], Removing);
    RunRowsShrink(f, attrs, [ev]);
  }

  /** Removing the events just added restores the filters. */
  lemma {:induction false} AddRemoveRoundTrip(f: Filters, attrs: seq<Attribute>, events: seq<Row>)
    requires |f| == |attrs|
    requires forall j :: 0 <= j < |events| ==> Complete(attrs, events[j])
    ensures !RunRows(f, Adding, attrs, events).aborted
    ensures RunRows(RunRows(f, Adding, attrs, events).filters, Removing, attrs, events) == IndexRun(f, false)
  {
    CompleteRowsClean(attrs, events, Adding);
    CompleteRowsClean(attrs, events, Removing);
    RunRowsGrow(f, Adding, attrs, events);
    var g := RunRows(f, Adding, attrs, events).filters;
    forall i | 0 <= i < |attrs| ensures Keys(Removing, attrs, events, i) <= g[i] {
      KeysAgree(attrs, events, i);
    }
    RunRowsShrink(g, attrs, events);
    var h := RunRows(g, Removing, attrs, events).filters;
    forall i | 0 <= i < |f| ensures h[i] == f[i] {
      KeysAgree(attrs, events, i);
    }
  }

  /** The scan keys of the one-column tables of the example below. */
  lemma {:induction false} SymbolKeys(attrs: seq<Attribute>, wso2: Row, ibm: Row)
    requires attrs == [Attribute("symbol", STRING)]
    requires wso2 == [StringValue("WSO2")] && ibm == [StringValue("IBM")]
    ensures Keys(Scanning, attrs, [wso2], 0) == multiset{"WSO2"}
    ensures Keys(Scanning, attrs, [wso2, ibm], 0) == multiset{"WSO2", "IBM"}
  {
    assert [wso2, ibm][..1] == [wso2];
    assert [wso2][..0] == [];
    assert CellOpOf(Scanning, STRING, wso2[0]) == Put("WSO2");
    assert CellOpOf(Scanning, STRING, ibm[0]) == Put("IBM");
    assert Keys(Scanning, attrs, [wso2], 0) == multiset{"WSO2"};
  }

  /** Removing the WSO2 event from the example's filter. */
  lemma {:induction false} SymbolRemoval(attrs: seq<Attribute>, wso2: Row, f: Filters)
    requires attrs == [Attribute("symbol", STRING)] && wso2 == [StringValue("WSO2")]
    requires f == [multiset{"WSO2", "IBM"}]
    ensures RunRows(f, Removing, attrs, [wso2]) == IndexRun([multiset{"IBM"}], false)
  {
    var ops := RowOps(Removing, attrs, wso2);
    assert ops[0] == Take("WSO2");
    assert [wso2][..0] == [];
    assert RunRows(f, Removing, attrs, [wso2]) == RunRow(f, ops, 1);
    TakeStep(IndexRun(f, false), ops[0], 0);
    assert multiset{"WSO2", "IBM"} - multiset{"WSO2"} == multiset{"IBM"};
    assert f[0 := f[0] - OpKeys(ops[0])] == [multiset{"IBM"}];
  }

  /** deleteEvent uncounts the values of the event that triggered it, not those
      of the rows its condition deleted: when the condition deletes the IBM row
      on an event for WSO2, the WSO2 row stays in the table but its symbol is no
      longer counted. */
  lemma {:induction false} MismatchedDeleteLosesRow()
    ensures
      var attrs := [Attribute("symbol", STRING)];
      var wso2: Row := [StringValue("WSO2")];
      var ibm: Row := [StringValue("IBM")];
      var f := [multiset{"WSO2", "IBM"}];
      && Covers(f, attrs, [wso2, ibm])
      && RunRows(f, Removing, attrs, [wso2]) == IndexRun([multiset{"IBM"}], false)
      && !Covers(RunRows(f, Removing, attrs, [wso2]).filters, attrs, [wso2])
  {
    var attrs := [Attribute("symbol", STRING)];
    var wso2: Row := [StringValue("WSO2")];
    var ibm: Row := [StringValue("IBM")];
    var f := [multiset{"WSO2", "IBM"}];
    SymbolKeys(attrs, wso2, ibm);
    SymbolRemoval(attrs, wso2, f);
    assert "WSO2" !in multiset{"IBM"};
  }
}
