/** The RDBMS event table: an object holding the execution info, the
    bloom-filter state and (standing in for the database) the rows of the
    backing table. Every JDBC call the operations make is an oracle
    parameter saying how that call ended. */
module EventTable {
  import opened Schema
  import opened Statements
  import opened Binder
  import opened BloomIndex

  /** How the JDBC calls of one write statement ended. */
  datatype WriteOutcome =
    | NotPrepared               // getConnection or prepareStatement threw
    | ExecuteFailed             // executeUpdate threw
    | CommitFailed(affected: nat)  // executeUpdate returned `affected`, commit threw
    | Committed(affected: nat)

  datatype WriteStep = WriteStep(bindFailures: set<nat>, outcome: WriteOutcome)

  /** How the JDBC calls of one query ended; the rows are the result set. */
  datatype QueryOutcome = QueryNotPrepared | QueryFailed | Answered(rows: seq<Row>)

  datatype ReadStep = ReadStep(bindFailures: set<nat>, outcome: QueryOutcome)

  /** The table scan of buildBloomFilters: no connection, or a result set that
      yields at most `limit` rows before it ends or throws. */
  datatype ScanOutcome = NoConnection | Scanned(limit: nat)

  /** Whether an unchecked exception escaped the operation. */
  datatype Completion = Completed | Aborted

  /** What a write statement did once prepared: an unchecked exception in
      populateStatement, or an execution that ran (`executed`), reported
      `affected` rows and was committed or not. A statement with a parameter
      left unset fails to execute. */
  datatype WriteResult = WriteEscaped | Written(executed: bool, committed: bool, affected: nat)

  function RunWrite(obj: Row, colOrder: seq<Attribute>, step: WriteStep): (w: WriteResult)
    ensures w.Written? && w.committed ==> w.executed
  {
    if step.outcome.NotPrepared? then Written(false, false, 0)
    else
      var b := Bind(obj, colOrder, step.bindFailures, |colOrder|);
      if Escapes(b.status) then WriteEscaped
      else if !FullyBound(b.stmt, |colOrder|) then Written(false, false, 0)
      else
        match step.outcome
        case ExecuteFailed => Written(false, false, 0)
        case CommitFailed(n) => Written(true, false, n)
        case Committed(n) => Written(true, true, n)
  }

  /** The rows a query returns, if it runs: None when it could not be prepared,
      was left with an unset parameter, or failed. */
  function RunQuery(obj: Row, colOrder: seq<Attribute>, step: ReadStep): Option<seq<Row>> {
    if step.outcome.QueryNotPrepared? then None
    else
      var b := Bind(obj, colOrder, step.bindFailures, |colOrder|);
      if Escapes(b.status) || !FullyBound(b.stmt, |colOrder|) || step.outcome.QueryFailed? then None
      else Some(step.outcome.rows)
  }

  function QueryEscapes(obj: Row, colOrder: seq<Attribute>, step: ReadStep): bool {
    !step.outcome.QueryNotPrepared? && Escapes(Bind(obj, colOrder, step.bindFailures, |colOrder|).status)
  }

  datatype InsertResult = InsertResult(committed: seq<Row>, aborted: bool)

  /** The insert loop of addEvent over a chunk, one insert statement per event. */
  function InsertRun(attrs: seq<Attribute>, chunk: seq<Row>, steps: seq<WriteStep>): InsertResult
    requires |steps| == |chunk|
    decreases |chunk|
  {
    if chunk == [] then InsertResult([], false)
    else
      var n := |chunk| - 1;
      var prev := InsertRun(attrs, chunk[..n], steps[..n]);
      if prev.aborted then prev
      else
        match RunWrite(chunk[n], attrs, steps[n])
        case WriteEscaped => InsertResult(prev.committed, true)
        case Written(_, committed, _) => if committed then InsertResult(prev.committed + [chunk[n]], false) else prev
  }

  /** Every row an insert commits is complete. */
  lemma {:induction false} InsertedRowsComplete(attrs: seq<Attribute>, chunk: seq<Row>, steps: seq<WriteStep>)
    requires |steps| == |chunk|
    requires forall j :: 0 <= j < |chunk| ==> |chunk[j]| == |attrs|
    ensures forall r :: r in InsertRun(attrs, chunk, steps).committed ==> Complete(attrs, r)
    decreases |chunk|
  {
    if chunk != [] {
      var n := |chunk| - 1;
      InsertedRowsComplete(attrs, chunk[..n], steps[..n]);
      var prev := InsertRun(attrs, chunk[..n], steps[..n]);
      var w := RunWrite(chunk[n], attrs, steps[n]);
      if !prev.aborted && w.Written? && w.committed {
        BoundIff(chunk[n], attrs, steps[n].bindFailures);
        assert Complete(attrs, chunk[n]);
        var run := InsertRun(attrs, chunk, steps);
        assert run.committed == prev.committed + [chunk[n]];
      }
    }
  }

  /** One event is inserted exactly when its statement was prepared and
      committed, the event is complete and no setter was rejected. */
  lemma {:induction false} InsertOneIff(attrs: seq<Attribute>, ev: Row, step: WriteStep)
    requires |ev| == |attrs|
    ensures InsertRun(attrs, [ev], [step]).committed == [ev]
        <==> (step.outcome.Committed? && Complete(attrs, ev) &&
              forall p: nat :: 1 <= p <= |attrs| ==> p !in step.bindFailures)
    ensures InsertRun(attrs, [ev], [step]).aborted
        <==> !step.outcome.NotPrepared? && Escapes(Bind(ev, attrs, step.bindFailures, |attrs|).status)
  {
    assert [ev][..0] == [];
    assert [step][..0] == [];
    BoundIff(ev, attrs, step.bindFailures);
  }

  /** One more event of the insert loop. */
  lemma {:induction false} InsertRunNext(attrs: seq<Attribute>, chunk: seq<Row>, steps: seq<WriteStep>, j: nat, committed: seq<Row>)
    requires |steps| == |chunk| && j < |chunk|
    requires InsertRun(attrs, chunk[..j], steps[..j]) == InsertResult(committed, false)
    ensures var w := RunWrite(chunk[j], attrs, steps[j]);
      InsertRun(attrs, chunk[..j + 1], steps[..j + 1])
      == if w.WriteEscaped? then InsertResult(committed, true)
         else InsertResult(committed + (if w.committed then [chunk[j]] else []), false)
  {
    assert chunk[..j + 1][..j] == chunk[..j] && steps[..j + 1][..j] == steps[..j];
    assert chunk[..j + 1][j] == chunk[j] && steps[..j + 1][j] == steps[j];
  }

  lemma {:induction false} InsertRunStopped(attrs: seq<Attribute>, chunk: seq<Row>, steps: seq<WriteStep>, j: nat)
    requires |steps| == |chunk| && j <= |chunk|
    requires InsertRun(attrs, chunk[..j], steps[..j]).aborted
    ensures InsertRun(attrs, chunk, steps) == InsertRun(attrs, chunk[..j], steps[..j])
    decreases |chunk| - j
  {
    if j < |chunk| {
      assert chunk[..j + 1][..j] == chunk[..j];
      assert steps[..j + 1][..j] == steps[..j];
      InsertRunStopped(attrs, chunk, steps, j + 1);
    } else {
      assert chunk[..j] == chunk && steps[..j] == steps;
    }
  }

  /** A ClassCastException in a later event leaves the rows committed before it
      in the table but out of the filters: the table holds WSO2 and the
      filters still count nothing. */
  lemma {:induction false} AbortedChunkLeavesRowsUnindexed()
    ensures
      var attrs := [Attribute("symbol", STRING), Attribute("price", DOUBLE)];
      var wso2: Row := [StringValue("WSO2"), DoubleValue("55.6")];
      var ibm: Row := [StringValue("IBM"), IntValue(75)];
      var step := WriteStep({}, Committed(1));
      var run := InsertRun(attrs, [wso2, ibm], [step, step]);
      && run == InsertResult([wso2], true)
      && Covers(EmptyFilters(2), attrs, [])
      && !Covers(EmptyFilters(2), attrs, run.committed)
  {
    var attrs := [Attribute("symbol", STRING), Attribute("price", DOUBLE)];
    var wso2: Row := [StringValue("WSO2"), DoubleValue("55.6")];
    var ibm: Row := [StringValue("IBM"), IntValue(75)];
    var step := WriteStep({}, Committed(1));
    WellTypedEventCommits(attrs, wso2, step);
    MistypedEventEscapes(attrs, ibm, step);
    assert [wso2, ibm][..1] == [wso2] && [step, step][..1] == [step];
    assert [wso2][..0] == [] && [step][..0] == [];
    assert InsertRun(attrs, [wso2], [step]) == InsertResult([wso2], false);
    assert CellOpOf(Scanning, STRING, wso2[0]) == Put("WSO2");
    assert Keys(Scanning, attrs, [wso2], 0) == multiset{"WSO2"};
  }

  /** The events of a chunk whose insert statement commits, in chunk order. */
  function Committing(attrs: seq<Attribute>, chunk: seq<Row>, steps: seq<WriteStep>): seq<Row>
    requires |steps| == |chunk|
    decreases |chunk|
  {
    if chunk == [] then []
    else
      var w := RunWrite(chunk[0], attrs, steps[0]);
      (if w.Written? && w.committed then [chunk[0]] else []) + Committing(attrs, chunk[1..], steps[1..])
  }

  /** The committing events of a chunk end with its last event when that one commits. */
  lemma {:induction false} CommittingSnoc(attrs: seq<Attribute>, chunk: seq<Row>, steps: seq<WriteStep>)
    requires |steps| == |chunk| && chunk != []
    ensures var n := |chunk| - 1;
      var w := RunWrite(chunk[n], attrs, steps[n]);
      Committing(attrs, chunk, steps)
      == Committing(attrs, chunk[..n], steps[..n]) + (if w.Written? && w.committed then [chunk[n]] else [])
    decreases |chunk|
  {
    var n := |chunk| - 1;
    var w0 := RunWrite(chunk[0], attrs, steps[0]);
    var head: seq<Row> := if w0.Written? && w0.committed then [chunk[0]] else [];
    if n == 0 {
      assert chunk[..n] == [] && steps[..n] == [];
      assert chunk[1..] == [] && steps[1..] == [];
    } else {
      CommittingSnoc(attrs, chunk[1..], steps[1..]);
      assert chunk[1..][..n - 1] == chunk[..n][1..] && steps[1..][..n - 1] == steps[..n][1..];
      assert chunk[..n][0] == chunk[0] && steps[..n][0] == steps[0];
      var w := RunWrite(chunk[n], attrs, steps[n]);
      var last: seq<Row> := if w.Written? && w.committed then [chunk[n]] else [];
      var mid := Committing(attrs, chunk[..n][1..], steps[..n][1..]);
      assert Committing(attrs, chunk, steps) == head + (mid + last);
      assert Committing(attrs, chunk[..n], steps[..n]) == head + mid;
      assert head + (mid + last) == (head + mid) + last;
    }
  }

  /** When no event of a chunk escapes, addEvent commits exactly the events
      whose insert statement commits, in chunk order, and completes. */
  lemma {:induction false} InsertRunCommitsInOrder(attrs: seq<Attribute>, chunk: seq<Row>, steps: seq<WriteStep>)
    requires |steps| == |chunk|
    requires forall j :: 0 <= j < |chunk| ==> !RunWrite(chunk[j], attrs, steps[j]).WriteEscaped?
    ensures InsertRun(attrs, chunk, steps) == InsertResult(Committing(attrs, chunk, steps), false)
    decreases |chunk|
  {
    if chunk != [] {
      var n := |chunk| - 1;
      assert forall j :: 0 <= j < n ==> chunk[..n][j] == chunk[j] && steps[..n][j] == steps[j];
      InsertRunCommitsInOrder(attrs, chunk[..n], steps[..n]);
      CommittingSnoc(attrs, chunk, steps);
    }
  }

  /** The insert loop of a chunk aborts exactly when one of its events escapes. */
  lemma {:induction false} InsertRunAbortsIffEscape(attrs: seq<Attribute>, chunk: seq<Row>, steps: seq<WriteStep>)
    requires |steps| == |chunk|
    ensures InsertRun(attrs, chunk, steps).aborted
        <==> exists j :: 0 <= j < |chunk| && RunWrite(chunk[j], attrs, steps[j]).WriteEscaped?
    decreases |chunk|
  {
    if chunk != [] {
      var n := |chunk| - 1;
      assert forall j :: 0 <= j < n ==> chunk[..n][j] == chunk[j] && steps[..n][j] == steps[j];
      InsertRunAbortsIffEscape(attrs, chunk[..n], steps[..n]);
    }
  }

  lemma {:induction false} WellTypedEventCommits(attrs: seq<Attribute>, wso2: Row, step: WriteStep)
    requires attrs == [Attribute("symbol", STRING), Attribute("price", DOUBLE)]
    requires wso2 == [StringValue("WSO2"), DoubleValue("55.6")] && step == WriteStep({}, Committed(1))
    ensures RunWrite(wso2, attrs, step) == Written(true, true, 1)
  {
    assert Bind(wso2, attrs, {}, 1).stmt == map[1 := Param(STRING, wso2[0])];
    assert Bind(wso2, attrs, {}, 2).stmt == map[1 := Param(STRING, wso2[0]), 2 := Param(DOUBLE, wso2[1])];
    assert FullyBound(Bind(wso2, attrs, {}, 2).stmt, 2);
  }

  lemma {:induction false} MistypedEventEscapes(attrs: seq<Attribute>, ibm: Row, step: WriteStep)
    requires attrs == [Attribute("symbol", STRING), Attribute("price", DOUBLE)]
    requires ibm == [StringValue("IBM"), IntValue(75)] && step == WriteStep({}, Committed(1))
    ensures RunWrite(ibm, attrs, step) == WriteEscaped
  {
    assert Bind(ibm, attrs, {}, 1).status == AllAttempted;
    assert Bind(ibm, attrs, {}, 2).status == CastFailedAt(1);
  }

  /** The stock table of the update and containment examples:
      `symbol string, price float, volume long`. */
  function StockAttrs(): seq<Attribute> {
    [Attribute("symbol", STRING), Attribute("price", FLOAT), Attribute("volume", LONG)]
  }

  function Stock(symbol: string, price: string): Row {
    [StringValue(symbol), FloatValue(price), LongValue(100)]
  }

  /** An insert statement that binds every parameter and commits one row. */
  function CommitOne(): WriteStep {
    WriteStep({}, Committed(1))
  }

  /** Sending one stock event to addEvent inserts exactly that event. */
  lemma {:induction false} StockEventCommits(symbol: string, price: string)
    ensures InsertRun(StockAttrs(), [Stock(symbol, price)], [CommitOne()]) == InsertResult([Stock(symbol, price)], false)
  {
    var ev: Row := Stock(symbol, price);
    assert Complete(StockAttrs(), ev);
    BoundIff(ev, StockAttrs(), {});
    assert RunWrite(ev, StockAttrs(), CommitOne()) == Written(true, true, 1);
    assert [ev][..0] == [] && [CommitOne()][..0] == [];
  }

  /** A stock event whose price is null. */
  function NullPriced(symbol: string): Row {
    [StringValue(symbol), Null, LongValue(100)]
  }

  /** A chunk of three stock events whose middle one has a null price: the
      null is skipped, so its insert statement keeps a parameter unset and
      fails to execute without an exception; the other two rows are
      committed, in order. */
  lemma {:induction false} ChunkWithNullCommitsTwo()
    ensures InsertRun(StockAttrs(), [Stock("WSO2", "55.6"), NullPriced("IBM"), Stock("WSO2", "57.6")],
                      [CommitOne(), CommitOne(), CommitOne()])
         == InsertResult([Stock("WSO2", "55.6"), Stock("WSO2", "57.6")], false)
  {
    var a, b, c: Row := Stock("WSO2", "55.6"), NullPriced("IBM"), Stock("WSO2", "57.6");
    var chunk, steps := [a, b, c], [CommitOne(), CommitOne(), CommitOne()];
    assert Complete(StockAttrs(), a) && Complete(StockAttrs(), c);
    BoundIff(a, StockAttrs(), {});
    BoundIff(c, StockAttrs(), {});
    assert RunWrite(a, StockAttrs(), CommitOne()) == Written(true, true, 1);
    assert RunWrite(c, StockAttrs(), CommitOne()) == Written(true, true, 1);
    assert Bind(b, StockAttrs(), {}, 1).status == AllAttempted;
    assert Bind(b, StockAttrs(), {}, 2) == Bind(b, StockAttrs(), {}, 1);
    assert Bind(b, StockAttrs(), {}, 3).status == AllAttempted;
    assert 2 !in Bind(b, StockAttrs(), {}, 3).stmt;
    assert RunWrite(b, StockAttrs(), CommitOne()) == Written(false, false, 0);
    InsertRunCommitsInOrder(StockAttrs(), chunk, steps);
    assert chunk[1..] == [b, c] && steps[1..] == [CommitOne(), CommitOne()];
    assert chunk[1..][1..] == [c] && steps[1..][1..] == [CommitOne()];
    assert Committing(StockAttrs(), [c], [CommitOne()]) == [c];
    assert Committing(StockAttrs(), [b, c], [CommitOne(), CommitOne()]) == [c];
  }

  /** Three stock events sent one by one, then an update matching on the
      symbol: the inserts leave three rows in the table. The size after the
      update is not computed from the update itself: it follows from the
      database outcome the update is assumed to have (UpdateOutcome), whatever
      rows that outcome rewrites. */
  lemma {:induction false} UpdateKeepsThreeRows(obj: Row, updateOrder: seq<Attribute>, update: WriteStep, after: seq<Row>)
    requires UpdateOutcome([Stock("WSO2", "55.6"), Stock("IBM", "75.6"), Stock("WSO2", "57.6")], after, update)
    ensures
      var table := InsertRun(StockAttrs(), [Stock("WSO2", "55.6")], [CommitOne()]).committed
                 + InsertRun(StockAttrs(), [Stock("IBM", "75.6")], [CommitOne()]).committed
                 + InsertRun(StockAttrs(), [Stock("WSO2", "57.6")], [CommitOne()]).committed;
      var w := RunWrite(obj, updateOrder, update);
      && |table| == 3
      && |if w.Written? && w.committed then after else table| == 3
  {
    StockEventCommits("WSO2", "55.6");
    StockEventCommits("IBM", "75.6");
    StockEventCommits("WSO2", "57.6");
  }

  /** addToBloomFilters of one stock event counts its symbol once in the
      symbol column's filter, without an exception. */
  lemma {:induction false} AddStockCountsSymbol(f: Filters, symbol: string, price: string)
    requires |f| == 3
    ensures !RunRows(f, Adding, StockAttrs(), [Stock(symbol, price)]).aborted
    ensures RunRows(f, Adding, StockAttrs(), [Stock(symbol, price)]).filters[0] == f[0] + multiset{symbol}
  {
    var ev := Stock(symbol, price);
    var rows: seq<Row> := [ev];
    assert Complete(StockAttrs(), ev);
    CompleteRowsClean(StockAttrs(), rows, Adding);
    assert rows[..0] == [];
    assert CellOpOf(Adding, STRING, ev[0]) == Put(symbol);
    assert Keys(Adding, StockAttrs(), rows, 0) == multiset{symbol};
    RunRowsGrow(f, Adding, StockAttrs(), rows);
  }

  /** With the filters enabled on a cleared table, WSO2 and IBM are sent one
      by one: the symbol filter then counts both, so probing WSO2 and IBM goes
      on to the database, while BSD is answered "absent" by the filter alone. */
  lemma {:induction false} ProbesAfterTwoInserts()
    ensures
      var attrs := StockAttrs();
      var built := RunRows(EmptyFilters(3), Scanning, attrs, []);
      var first := RunRows(built.filters, Adding, attrs, InsertRun(attrs, [Stock("WSO2", "55.6")], [CommitOne()]).committed);
      var second := RunRows(first.filters, Adding, attrs, InsertRun(attrs, [Stock("IBM", "55.6")], [CommitOne()]).committed);
      && !built.aborted && !first.aborted && !second.aborted
      && second.filters[0] == multiset{"WSO2", "IBM"}
      && "WSO2" in second.filters[0] && "IBM" in second.filters[0] && "BSD" !in second.filters[0]
  {
    var built := RunRows(EmptyFilters(3), Scanning, StockAttrs(), []);
    assert built == IndexRun(EmptyFilters(3), false);
    StockEventCommits("WSO2", "55.6");
    StockEventCommits("IBM", "55.6");
    AddStockCountsSymbol(built.filters, "WSO2", "55.6");
    var first := RunRows(built.filters, Adding, StockAttrs(), [Stock("WSO2", "55.6")]);
    AddStockCountsSymbol(first.filters, "IBM", "55.6");
  }

  /** The filters buildBloomFilters leaves: fresh empty ones, then the scan
      of the rows the result set yields, unless the select statement cannot
      be built (an unchecked exception after the filters were reset). */
  function Rebuild(attrs: seq<Attribute>, query: Result<string, QueryError>, scan: ScanOutcome, rows: seq<Row>): (run: IndexRun)
    ensures |run.filters| == |attrs|
  {
    if scan.NoConnection? then IndexRun(EmptyFilters(|attrs|), false)
    else if query.Err? then IndexRun(EmptyFilters(|attrs|), true)
    else RunRows(EmptyFilters(|attrs|), Scanning, attrs, rows[..if scan.limit < |rows| then scan.limit else |rows|])
  }

  /** A rebuild that read the whole table and did not throw covers it. */
  lemma {:induction false} RebuildCovers(attrs: seq<Attribute>, query: Result<string, QueryError>, scan: ScanOutcome, rows: seq<Row>)
    requires scan.Scanned? && scan.limit >= |rows|
    requires !Rebuild(attrs, query, scan, rows).aborted
    ensures Covers(Rebuild(attrs, query, scan, rows).filters, attrs, rows)
  {
    assert rows[..|rows|] == rows;
    CompletedRebuildCovers(attrs, rows);
  }

  /** A connection failure during a rebuild leaves the filters enabled and
      empty: any value in the table is then missed. */
  lemma {:induction false} LostConnectionEmptiesFilters(attrs: seq<Attribute>, query: Result<string, QueryError>, rows: seq<Row>)
    requires |attrs| >= 1 && |rows| >= 1 && |rows[0]| >= 1
    requires ScanKeyOf(attrs[0].attrType, rows[0][0]).AddKey?
    ensures !Rebuild(attrs, query, NoConnection, rows).aborted
    ensures !NoFalseNegatives(Rebuild(attrs, query, NoConnection, rows).filters, attrs, rows)
  {
  }

  /** The index argument of deleteEvent: the filters after uncounting
      `list` from `f` cover the table the statement left behind. */
  lemma {:induction false} DeleteKeepsIndex(f: Filters, attrs: seq<Attribute>, before: seq<Row>, table: seq<Row>,
                         event: Row, list: seq<Row>, g: Filters)
    requires |f| == |attrs| && Covers(f, attrs, before) && Complete(attrs, event)
    requires list == [] || list == [event]
    requires g == RunRows(f, Removing, attrs, list).filters && !RunRows(f, Removing, attrs, list).aborted
    requires multiset(before) == multiset(table) + multiset(list)
    ensures Covers(g, attrs, table)
  {
    if list == [] {
      assert multiset(before) == multiset(table);
      CoversPermutation(f, attrs, before, table);
    } else {
      ExactDeletePreservesCovers(f, attrs, before, table, event);
    }
  }

  /** What a delete statement can do to the table: remove rows, as many as
      it reports. */
  predicate DeleteOutcome(before: seq<Row>, after: seq<Row>, step: WriteStep) {
    step.outcome.Committed? ==>
      multiset(after) <= multiset(before) && |before| - |after| == step.outcome.affected
  }

  /** What an update statement can do to the table: rewrite rows in place,
      never add or remove one, and leave the rows as they were when it
      reports none updated. */
  predicate UpdateOutcome(before: seq<Row>, after: seq<Row>, step: WriteStep) {
    step.outcome.Committed? ==>
      && |after| == |before|
      && step.outcome.affected <= |before|
      && (step.outcome.affected == 0 ==> multiset(after) == multiset(before))
  }

  /** The table the committed delete statement leaves behind lacks exactly
      one occurrence of the event when it reported deleted rows, and nothing
      when it reported none. */
  ghost predicate DeletesExactly(before: seq<Row>, after: seq<Row>, event: Row, w: WriteResult) {
    w.Written? && w.committed ==>
      if w.affected > 0 then multiset(before) == multiset(after) + multiset{event}
      else multiset(before) == multiset(after)
  }

  /** The nested loops shared by the three filter operations, on the filter
      array of a table with attributes `attrs`. */
  method RunOnFilters(filters: array<multiset<string>>, mode: Mode, attrs: seq<Attribute>, rows: seq<Row>)
    returns (aborted: bool)
    requires filters.Length == |attrs|
    modifies filters
    ensures RunRows(old(filters[..]), mode, attrs, rows) == IndexRun(filters[..], aborted)
  {
    ghost var start := filters[..];
    aborted := false;
    var j := 0;
    while j < |rows| && !aborted
      invariant 0 <= j <= |rows|
      invariant RunRows(start, mode, attrs, rows[..j]) == IndexRun(filters[..], aborted)
    {
      aborted := RunOnNextRow(filters, mode, attrs, rows, j, start);
      j := j + 1;
    }
    RunRowsExit(start, mode, attrs, rows, j, filters[..], aborted);
  }

  /** One pass of the outer loop: row `j` through the inner loop. */
  method RunOnNextRow(filters: array<multiset<string>>, mode: Mode, attrs: seq<Attribute>, rows: seq<Row>, j: nat,
                      ghost start: Filters) returns (aborted: bool)
    requires filters.Length == |attrs| == |start| && j < |rows|
    requires RunRows(start, mode, attrs, rows[..j]) == IndexRun(filters[..], false)
    modifies filters
    ensures RunRows(start, mode, attrs, rows[..j + 1]) == IndexRun(filters[..], aborted)
  {
    ghost var current := filters[..];
    aborted := RunOnRow(filters, mode, attrs, rows[j]);
    RunRowsNext(start, mode, attrs, rows, j, current, filters[..], aborted);
  }

  /** The inner loop: one row, column by column. */
  method RunOnRow(filters: array<multiset<string>>, mode: Mode, attrs: seq<Attribute>, r: Row) returns (aborted: bool)
    requires filters.Length == |attrs|
    modifies filters
    ensures RunRow(old(filters[..]), RowOps(mode, attrs, r), |attrs|) == IndexRun(filters[..], aborted)
  {
    ghost var before := filters[..];
    ghost var ops := RowOps(mode, attrs, r);
    aborted := false;
    var i := 0;
    while i < |attrs| && !aborted
      invariant 0 <= i <= |attrs|
      invariant RunRow(before, ops, i) == IndexRun(filters[..], aborted)
    {
      aborted := RunOnCell(filters, mode, attrs, r, i, before, ops);
      i := i + 1;
    }
    if i < |attrs| {
      RunRowStopped(before, ops, i, |attrs|);
    }
  }

  /** One pass of the inner loop: the value of column `i` goes into, or comes
      out of, that column's filter; a missing value throws. */
  method RunOnCell(filters: array<multiset<string>>, mode: Mode, attrs: seq<Attribute>, r: Row, i: nat,
                   ghost before: Filters, ghost ops: seq<CellOp>) returns (aborted: bool)
    requires filters.Length == |attrs| == |before| && i < |attrs|
    requires ops == RowOps(mode, attrs, r)
    requires RunRow(before, ops, i) == IndexRun(filters[..], false)
    modifies filters
    ensures RunRow(before, ops, i + 1) == IndexRun(filters[..], aborted)
  {
    ghost var current := filters[..];
    aborted := false;
    if i >= |r| {
      aborted := true;
    } else {
      var effect := ApplyCell(filters[i], CellOpOf(mode, attrs[i].attrType, r[i]));
      if effect.Rejected? {
        aborted := true;
      } else {
        filters[i] := effect.cell;
      }
    }
    RunRowAdvance(before, ops, i, current, filters[..], aborted);
  }

  /** DBConfiguration: one event table. */
  class DBConfiguration {
    const attrs: seq<Attribute>
    const tableName: string
    const tokens: Tokens
    const dialect: Dialect
    const info: ExecutionInfo
    /** The rows of the backing database table. */
    var tableRows: seq<Row>
    /** The events handed to the caching table. */
    var cached: seq<Row>
    var bloomFilters: array?<multiset<string>>
    var bloomEnabled: bool

    ghost predicate Valid()
      reads this
    {
      && tokens.Valid()
      && info.insertOrder == attrs
      && (bloomEnabled <==> bloomFilters != null)
      && (bloomFilters != null ==> bloomFilters.Length == |attrs|)
      && forall j :: 0 <= j < |tableRows| ==> Storable(attrs, tableRows[j])
    }

    /** Enabled filters count every key of the table. */
    ghost predicate Indexed()
      reads this, bloomFilters
    {
      bloomFilters != null ==> Covers(bloomFilters[..], attrs, tableRows)
    }

    /** The table after a successful initialisation, filters disabled. */
    constructor (attrs: seq<Attribute>, tableName: string, tokens: Tokens, dialect: Dialect,
                 info: ExecutionInfo, initialRows: seq<Row>)
      requires tokens.Valid() && info.insertOrder == attrs
      requires forall j :: 0 <= j < |initialRows| ==> Storable(attrs, initialRows[j])
      ensures Valid()
      ensures this.attrs == attrs && this.tableName == tableName && this.tokens == tokens
      ensures this.dialect == dialect && this.info == info
      ensures tableRows == initialRows && cached == [] && !bloomEnabled && bloomFilters == null
    {
      this.attrs := attrs;
      this.tableName := tableName;
      this.tokens := tokens;
      this.dialect := dialect;
      this.info := info;
      tableRows := initialRows;
      cached := [];
      bloomFilters := null;
      bloomEnabled := false;
    }

    /** The statement buildBloomFilters runs to read the table. */
    function SelectAllQuery(): Result<string, QueryError>
      requires tokens.Valid()
    {
      ConstructQuery(tokens, tableName, TemplateOf(dialect, GenericSelectTable), None, None, None, None, None)
    }

    /** addToBloomFilters: count each event's values, column by column. */
    method AddToBloomFilters(events: seq<Row>) returns (r: Completion)
      requires Valid()
      modifies bloomFilters
      ensures bloomFilters == null ==> r == (if |events| > 0 && |attrs| > 0 then Aborted else Completed)
      ensures bloomFilters != null ==>
        var run := RunRows(old(bloomFilters[..]), Adding, attrs, events);
        bloomFilters[..] == run.filters && (r == Aborted <==> run.aborted)
    {
      if bloomFilters == null {
        return if |events| > 0 && |attrs| > 0 then Aborted else Completed;
      }
      var aborted := RunOnFilters(bloomFilters, Adding, attrs, events);
      r := if aborted then Aborted else Completed;
    }

    /** removeFromBloomFilters: uncount each event's values, column by column. */
    method RemoveFromBloomFilters(events: seq<Row>) returns (r: Completion)
      requires Valid()
      modifies bloomFilters
      ensures bloomFilters == null ==> r == (if |events| > 0 && |attrs| > 0 then Aborted else Completed)
      ensures bloomFilters != null ==>
        var run := RunRows(old(bloomFilters[..]), Removing, attrs, events);
        bloomFilters[..] == run.filters && (r == Aborted <==> run.aborted)
    {
      if bloomFilters == null {
        return if |events| > 0 && |attrs| > 0 then Aborted else Completed;
      }
      var aborted := RunOnFilters(bloomFilters, Removing, attrs, events);
      r := if aborted then Aborted else Completed;
    }

    /** buildBloomFilters: fresh filters, enabled at once, then filled by a
        scan of the table. */
    method BuildBloomFilters(scan: ScanOutcome) returns (r: Completion)
      requires Valid()
      modifies this
      ensures Valid() && bloomEnabled && fresh(bloomFilters)
      ensures tableRows == old(tableRows) && cached == old(cached)
      ensures var run := Rebuild(attrs, SelectAllQuery(), scan, tableRows);
        bloomFilters[..] == run.filters && (r == Aborted <==> run.aborted)
      ensures r.Completed? && scan.Scanned? && scan.limit >= |tableRows| ==> Indexed()
    {
      var filters := new multiset<string>[|attrs|](_ => multiset{});
      bloomFilters := filters;
      bloomEnabled := true;
      assert filters[..] == EmptyFilters(|attrs|);
      if scan.NoConnection? {
        return Completed;
      }
      var query := SelectAllQuery();
      if query.Err? {
        return Aborted;
      }
      var n := if scan.limit < |tableRows| then scan.limit else |tableRows|;
      var aborted := RunOnFilters(bloomFilters, Scanning, attrs, tableRows[..n]);
      r := if aborted then Aborted else Completed;
      if r.Completed? && scan.limit >= |tableRows| {
        RebuildCovers(attrs, query, scan, tableRows);
      }
    }

    /** addEvent: one insert statement per event; each committed event goes
        to the cache and, when the filters are enabled, into them after the
        loop. An unchecked exception ends the operation at once. */
    method AddEvent(chunk: seq<Row>, steps: seq<WriteStep>, hasCache: bool) returns (r: Completion)
      requires Valid() && |steps| == |chunk|
      requires forall j :: 0 <= j < |chunk| ==> |chunk[j]| == |attrs|
      modifies this, bloomFilters
      ensures Valid()
      ensures bloomFilters == old(bloomFilters) && bloomEnabled == old(bloomEnabled)
      ensures var run := InsertRun(attrs, chunk, steps);
        && tableRows == old(tableRows) + run.committed
        && cached == old(cached) + (if hasCache then run.committed else [])
        && (r == Aborted <==> run.aborted)
        && (bloomFilters != null ==>
              bloomFilters[..] == if run.aborted then old(bloomFilters[..])
                                  else RunRows(old(bloomFilters[..]), Adding, attrs, run.committed).filters)
      ensures r.Completed? && old(Indexed()) ==> Indexed()
    {
      var insertionList, aborted := InsertChunk(chunk, steps, hasCache);
      if aborted {
        return Aborted;
      }
      ghost var committed := InsertRun(attrs, chunk, steps).committed;
      InsertedRowsComplete(attrs, chunk, steps);
      r := Completed;
      if bloomEnabled {
        CompleteRowsClean(attrs, committed, Adding);
        RunRowsGrow(bloomFilters[..], Adding, attrs, committed);
        r := AddToBloomFilters(insertionList);
        if old(Indexed()) {
          AddPreservesCovers(old(bloomFilters[..]), attrs, old(tableRows), committed);
        }
      }
    }

    /** The loop of addEvent: one insert statement per event, until an
        unchecked exception; the list it returns is what goes into the
        filters when they are enabled. */
    method InsertChunk(chunk: seq<Row>, steps: seq<WriteStep>, hasCache: bool) returns (insertionList: seq<Row>, aborted: bool)
      requires Valid() && |steps| == |chunk|
      requires forall j :: 0 <= j < |chunk| ==> |chunk[j]| == |attrs|
      modifies this
      ensures Valid()
      ensures bloomFilters == old(bloomFilters) && bloomEnabled == old(bloomEnabled)
      ensures var run := InsertRun(attrs, chunk, steps);
        && tableRows == old(tableRows) + run.committed
        && cached == old(cached) + (if hasCache then run.committed else [])
        && aborted == run.aborted
        && (bloomEnabled ==> insertionList == run.committed)
    {
      ghost var committed: seq<Row> := [];
      insertionList := [];
      var j := 0;
      while j < |chunk|
        invariant 0 <= j <= |chunk|
        invariant InsertRun(attrs, chunk[..j], steps[..j]) == InsertResult(committed, false)
        invariant tableRows == old(tableRows) + committed
        invariant cached == old(cached) + (if hasCache then committed else [])
        invariant bloomEnabled ==> insertionList == committed
        invariant bloomFilters == old(bloomFilters) && bloomEnabled == old(bloomEnabled)
        invariant Valid()
      {
        var event := chunk[j];
        var escaped, added := InsertOne(event, steps[j], hasCache);
        InsertRunNext(attrs, chunk, steps, j, committed);
        if escaped {
          InsertRunStopped(attrs, chunk, steps, j + 1);
          return insertionList, true;
        }
        if added {
          committed := committed + [event];
          if bloomEnabled {
            insertionList := insertionList + [event];
          }
        }
        j := j + 1;
      }
      assert chunk[..j] == chunk && steps[..j] == steps;
      aborted := false;
    }

    /** The body of addEvent's loop for one event: prepare, bind, execute and
        commit its insert statement; a committed event goes to the table and,
        with a cache, to the cache. */
    method InsertOne(event: Row, step: WriteStep, hasCache: bool) returns (escaped: bool, added: bool)
      requires Valid() && |event| == |attrs|
      modifies this
      ensures Valid()
      ensures bloomFilters == old(bloomFilters) && bloomEnabled == old(bloomEnabled)
      ensures escaped <==> RunWrite(event, attrs, step).WriteEscaped?
      ensures added <==> RunWrite(event, attrs, step).Written? && RunWrite(event, attrs, step).committed
      ensures added ==> Complete(attrs, event)
      ensures tableRows == old(tableRows) + (if added then [event] else [])
      ensures cached == old(cached) + (if added && hasCache then [event] else [])
    {
      escaped, added := false, false;
      if !step.outcome.NotPrepared? {
        var stmt, status := PopulateStatement(event, info.insertOrder, step.bindFailures);
        if Escapes(status) {
          escaped := true;
          return;
        }
        if FullyBound(stmt, |attrs|) && step.outcome.Committed? {
          BoundIff(event, attrs, step.bindFailures);
          CompleteIsStorable(attrs, event);
          tableRows := tableRows + [event];
          added := true;
          if hasCache {
            cached := cached + [event];
          }
        }
      }
    }

    /** deleteEvent: one delete statement; when it commits with rows deleted
        and the filters are enabled, the values of the triggering event are
        uncounted. `after` is the table the database holds once it commits. */
    method DeleteEvent(obj: Row, event: Row, step: WriteStep, after: seq<Row>) returns (r: Completion)
      requires Valid()
      requires forall j :: 0 <= j < |after| ==> Storable(attrs, after[j])
      requires DeleteOutcome(tableRows, after, step)
      modifies this, bloomFilters
      ensures Valid()
      ensures var w := RunWrite(obj, info.deleteOrder, step);
        && multiset(tableRows) <= multiset(old(tableRows))
        && |old(tableRows)| - |tableRows| == if w.Written? && w.committed then w.affected else 0
      ensures bloomFilters == old(bloomFilters) && bloomEnabled == old(bloomEnabled) && cached == old(cached)
      ensures var w := RunWrite(obj, info.deleteOrder, step);
        var uncount := w.Written? && w.committed && w.affected > 0 && bloomEnabled;
        && tableRows == (if w.Written? && w.committed then after else old(tableRows))
        && (bloomFilters != null ==>
              bloomFilters[..] == if uncount then RunRows(old(bloomFilters[..]), Removing, attrs, [event]).filters
                                  else old(bloomFilters[..]))
        && (r == Aborted <==> w.WriteEscaped? ||
                              (uncount && RunRows(old(bloomFilters[..]), Removing, attrs, [event]).aborted))
      ensures r.Completed? && old(Indexed()) && Complete(attrs, event) &&
              DeletesExactly(old(tableRows), after, event, RunWrite(obj, info.deleteOrder, step))
              ==> Indexed()
    {
      ghost var w := RunWrite(obj, info.deleteOrder, step);
      ghost var f := if bloomFilters != null then bloomFilters[..] else [];
      var aborted, deletionList := DeleteRows(obj, event, step, after);
      if aborted {
        return Aborted;
      }
      r := Completed;
      if bloomEnabled {
        assert RunRows(f, Removing, attrs, []) == IndexRun(f, false);
        r := RemoveFromBloomFilters(deletionList);
        if r.Completed? && old(Indexed()) && Complete(attrs, event) &&
           DeletesExactly(old(tableRows), after, event, w) {
          assert multiset(old(tableRows)) == multiset(tableRows) + multiset(deletionList);
          DeleteKeepsIndex(f, attrs, old(tableRows), tableRows, event, deletionList, bloomFilters[..]);
        }
      }
    }

    /** The statement part of deleteEvent: bind and run the delete statement;
        the list it returns is what comes out of the filters. */
    method DeleteRows(obj: Row, event: Row, step: WriteStep, after: seq<Row>) returns (aborted: bool, deletionList: seq<Row>)
      requires Valid()
      requires forall j :: 0 <= j < |after| ==> Storable(attrs, after[j])
      requires DeleteOutcome(tableRows, after, step)
      modifies this
      ensures Valid()
      ensures bloomFilters == old(bloomFilters) && bloomEnabled == old(bloomEnabled) && cached == old(cached)
      ensures var w := RunWrite(obj, info.deleteOrder, step);
        && aborted == w.WriteEscaped?
        && tableRows == (if w.Written? && w.committed then after else old(tableRows))
        && multiset(tableRows) <= multiset(old(tableRows))
        && |old(tableRows)| - |tableRows| == (if w.Written? && w.committed then w.affected else 0)
        && deletionList == (if w.Written? && w.committed && w.affected > 0 && bloomEnabled then [event] else [])
    {
      ghost var w := RunWrite(obj, info.deleteOrder, step);
      aborted, deletionList := false, [];
      if !step.outcome.NotPrepared? {
        var stmt, status := PopulateStatement(obj, info.deleteOrder, step.bindFailures);
        if Escapes(status) {
          assert w == WriteEscaped;
          return true, [];
        }
        if FullyBound(stmt, |info.deleteOrder|) && step.outcome.Committed? {
          assert w == Written(true, true, step.outcome.affected);
          var deletedRows := step.outcome.affected;
          tableRows := after;
          if bloomEnabled && deletedRows > 0 {
            deletionList := deletionList + [event];
          }
        } else {
          assert w.Written? && !w.committed;
        }
      } else {
        assert w == Written(false, false, 0);
      }
    }

    /** updateEvent: one update statement; when it reported updated rows
        (committed or not) and the filters are enabled, they are rebuilt. */
    method UpdateEvent(obj: Row, step: WriteStep, after: seq<Row>, scan: ScanOutcome) returns (r: Completion)
      requires Valid()
      requires forall j :: 0 <= j < |after| ==> Storable(attrs, after[j])
      requires UpdateOutcome(tableRows, after, step)
      modifies this
      ensures Valid() && cached == old(cached)
      ensures |tableRows| == |old(tableRows)|
      ensures var w := RunWrite(obj, info.updateOrder, step);
        var rebuild := old(bloomEnabled) && w.Written? && w.executed && w.affected > 0;
        && tableRows == (if w.Written? && w.committed then after else old(tableRows))
        && (rebuild ==>
              (bloomEnabled && fresh(bloomFilters) &&
               var run := Rebuild(attrs, SelectAllQuery(), scan, tableRows);
               bloomFilters[..] == run.filters && (r == Aborted <==> run.aborted)))
        && (!rebuild ==>
              (bloomFilters == old(bloomFilters) && bloomEnabled == old(bloomEnabled) &&
               (r == Aborted <==> w.WriteEscaped?)))
      ensures var w := RunWrite(obj, info.updateOrder, step);
        var rebuild := old(bloomEnabled) && w.Written? && w.executed && w.affected > 0;
        r.Completed? && old(Indexed()) &&
        (rebuild ==> scan.Scanned? && scan.limit >= |tableRows|)
        ==> Indexed()
    {
      var updatedRows := 0;
      if !step.outcome.NotPrepared? {
        var stmt, status := PopulateStatement(obj, info.updateOrder, step.bindFailures);
        if Escapes(status) {
          return Aborted;
        }
        if FullyBound(stmt, |info.updateOrder|) && !step.outcome.ExecuteFailed? {
          updatedRows := step.outcome.affected;
          if step.outcome.Committed? {
            tableRows := after;
          }
        }
      }
      r := Completed;
      if bloomEnabled && updatedRows > 0 {
        r := BuildBloomFilters(scan);
      } else if bloomFilters != null && old(Indexed()) {
        ghost var w := RunWrite(obj, info.updateOrder, step);
        if w.Written? && w.committed {
          assert step.outcome.affected == 0 && multiset(after) == multiset(old(tableRows));
          assert bloomFilters == old(bloomFilters) && bloomFilters[..] == old(bloomFilters[..]);
          CoversPermutation(bloomFilters[..], attrs, old(tableRows), after);
        }
      }
    }

    /** selectEvent: the first row of the result set, decoded attribute by
        attribute, or none. */
    method SelectEvent(obj: Row, step: ReadStep) returns (r: Completion, first: Option<Row>)
      requires Valid()
      requires step.outcome.Answered? ==> forall j :: 0 <= j < |step.outcome.rows| ==> |step.outcome.rows[j]| == |attrs|
      ensures r == Aborted <==> QueryEscapes(obj, info.conditionOrder, step)
      ensures var rows := RunQuery(obj, info.conditionOrder, step);
        r.Completed? ==> first == if rows.Some? && |rows.value| > 0 then Some(DecodeRow(attrs, rows.value[0])) else None
      ensures r.Completed? && first.Some? && Complete(attrs, step.outcome.rows[0]) ==> first.value == step.outcome.rows[0]
    {
      first := None;
      if step.outcome.QueryNotPrepared? {
        return Completed, None;
      }
      var stmt, status := PopulateStatement(obj, info.conditionOrder, step.bindFailures);
      if Escapes(status) {
        return Aborted, None;
      }
      if !FullyBound(stmt, |info.conditionOrder|) || step.outcome.QueryFailed? {
        return Completed, None;
      }
      var resultSet := step.outcome.rows;
      var returnEventChunk: seq<Row> := [];
      for j := 0 to |resultSet|
        invariant |returnEventChunk| == j
        invariant forall k :: 0 <= k < j ==> returnEventChunk[k] == DecodeRow(attrs, resultSet[k])
      {
        var raw := resultSet[j];
        var data: Row := [];
        for i := 0 to |attrs|
          invariant |data| == i
          invariant forall k :: 0 <= k < i ==> data[k] == DecodeColumn(attrs[k].attrType, raw[k])
        {
          data := data + [DecodeColumn(attrs[i].attrType, raw[i])];
        }
        returnEventChunk := returnEventChunk + [data];
      }
      r := Completed;
      if |returnEventChunk| > 0 {
        first := Some(returnEventChunk[0]);
        if Complete(attrs, resultSet[0]) {
          DecodeRoundTrip(attrs, resultSet[0]);
        }
      }
    }

    /** checkExistence: whether the query returns a row. */
    method CheckExistence(obj: Row, step: ReadStep) returns (r: Completion, found: bool)
      requires Valid()
      ensures r == Aborted <==> QueryEscapes(obj, info.conditionOrder, step)
      ensures var rows := RunQuery(obj, info.conditionOrder, step);
        found <==> r.Completed? && rows.Some? && |rows.value| > 0
    {
      if step.outcome.QueryNotPrepared? {
        return Completed, false;
      }
      var stmt, status := PopulateStatement(obj, info.conditionOrder, step.bindFailures);
      if Escapes(status) {
        return Aborted, false;
      }
      if !FullyBound(stmt, |info.conditionOrder|) || step.outcome.QueryFailed? {
        return Completed, false;
      }
      var resultSet := step.outcome.rows;
      if |resultSet| > 0 {
        return Completed, true;
      }
      return Completed, false;
    }
  }
}
