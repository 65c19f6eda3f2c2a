/** populateStatement: binding an event's values to the parameters of a
    prepared statement, in the order of a column list. */
module Binder {
  import opened Schema

  /** A value set on a statement parameter by the setter of `sqlType`. */
  datatype Param = Param(sqlType: AttrType, value: Value)

  /** The parameters set on a prepared statement, by 1-based index. */
  type Statement = map<nat, Param>

  /** How the binding loop ended.
      SetterFailedAt: the driver rejected a setter with an SQLException, which
      populateStatement catches, so the caller goes on to execute.
      CastFailedAt and MissingValueAt: a ClassCastException or an
      ArrayIndexOutOfBoundsException, which escape to the caller. */
  datatype BindStatus =
    | AllAttempted
    | SetterFailedAt(index: nat)
    | CastFailedAt(index: nat)
    | MissingValueAt(index: nat)

  datatype Binding = Binding(stmt: Statement, status: BindStatus)

  /** The binding leaves the operation by an unchecked exception. */
  predicate Escapes(status: BindStatus) {
    status.CastFailedAt? || status.MissingValueAt?
  }

  /** The state after the loop has run over the first `k` columns; `failures`
      are the parameter indices whose setter the driver rejects. */
  function Bind(o: Row, colOrder: seq<Attribute>, failures: set<nat>, k: nat): Binding
    requires k <= |colOrder|
  {
    if k == 0 then Binding(map[], AllAttempted)
    else
      var prev := Bind(o, colOrder, failures, k - 1);
      var i := k - 1;
      var t := colOrder[i].attrType;
      if !prev.status.AllAttempted? then prev
      else if i >= |o| then Binding(prev.stmt, MissingValueAt(i))
      else if !Bindable(t, o[i]) then prev
      else if !Fits(t, o[i]) then Binding(prev.stmt, CastFailedAt(i))
      else if i + 1 in failures then Binding(prev.stmt, SetterFailedAt(i))
      else Binding(prev.stmt[i + 1 := Param(t, o[i])], AllAttempted)
  }

  /** Column `i` lets the loop go on to the next one. */
  predicate Proceeds(o: Row, colOrder: seq<Attribute>, failures: set<nat>, i: nat)
    requires i < |colOrder|
  {
    i < |o| &&
    (Bindable(colOrder[i].attrType, o[i]) ==> Fits(colOrder[i].attrType, o[i]) && i + 1 !in failures)
  }

  /** The column the loop stopped at, or `k` when it went through. */
  function StopIndex(status: BindStatus, k: nat): nat {
    if status.AllAttempted? then k else status.index
  }

  /** Every parameter 1..n is set. */
  predicate FullyBound(stmt: Statement, n: nat) {
    forall p: nat | 1 <= p <= n :: p in stmt
  }

  /** populateStatement binds, from the first column on, every non-null value of
      a handled type at index i + 1 with the setter of its column type, skips
      null values, and stops at the first column whose value is missing, does
      not cast, or whose setter fails; the status names that column and why. */
  lemma {:induction false} BindCharacterization(o: Row, colOrder: seq<Attribute>, failures: set<nat>, k: nat)
    requires k <= |colOrder|
    ensures
      var b := Bind(o, colOrder, failures, k);
      var s := StopIndex(b.status, k);
      && s <= k
      && (forall i :: 0 <= i < s ==> Proceeds(o, colOrder, failures, i))
      && (!b.status.AllAttempted? ==>
            && s < k
            && !Proceeds(o, colOrder, failures, s)
            && (b.status.MissingValueAt? <==> s >= |o|)
            && (b.status.CastFailedAt? <==> s < |o| && Bindable(colOrder[s].attrType, o[s]) && !Fits(colOrder[s].attrType, o[s])))
      && (forall p: nat :: p in b.stmt <==> 1 <= p <= s && p - 1 < |o| && Bindable(colOrder[p - 1].attrType, o[p - 1]))
      && (forall p: nat :: p in b.stmt ==> b.stmt[p] == Param(colOrder[p - 1].attrType, o[p - 1]))
    decreases k
  {
    if k > 0 {
      BindCharacterization(o, colOrder, failures, k - 1);
    }
  }

  /** Once the loop has stopped, later columns change nothing. */
  lemma {:induction false} BindStopped(o: Row, colOrder: seq<Attribute>, failures: set<nat>, k: nat, m: nat)
    requires k <= m <= |colOrder|
    requires !Bind(o, colOrder, failures, k).status.AllAttempted?
    ensures Bind(o, colOrder, failures, m) == Bind(o, colOrder, failures, k)
    decreases m
  {
    if m > k {
      BindStopped(o, colOrder, failures, k, m - 1);
    }
  }

  /** A statement ends up with every parameter set exactly when the row is
      complete for the column list and no setter is rejected. */
  lemma {:induction false} BindFullIff(o: Row, colOrder: seq<Attribute>, failures: set<nat>)
    requires |o| == |colOrder|
    ensures
      var b := Bind(o, colOrder, failures, |colOrder|);
      (b.status.AllAttempted? && FullyBound(b.stmt, |colOrder|))
      <==> (Complete(colOrder, o) && forall p: nat :: 1 <= p <= |colOrder| ==> p !in failures)
  {
    var n := |colOrder|;
    var b := Bind(o, colOrder, failures, n);
    BindCharacterization(o, colOrder, failures, n);
    if b.status.AllAttempted? && FullyBound(b.stmt, n) {
      forall i | 0 <= i < n
        ensures Bindable(colOrder[i].attrType, o[i]) && Fits(colOrder[i].attrType, o[i]) && i + 1 !in failures
      {
        assert i + 1 in b.stmt;
        assert Proceeds(o, colOrder, failures, i);
      }
      forall p: nat | 1 <= p <= n ensures p !in failures {
        assert Proceeds(o, colOrder, failures, p - 1);
      }
    }
    if Complete(colOrder, o) && forall p: nat :: 1 <= p <= n ==> p !in failures {
      forall i | 0 <= i < n ensures Proceeds(o, colOrder, failures, i) {
        assert i + 1 !in failures;
      }
      forall p: nat | 1 <= p <= n ensures p in b.stmt {
        assert Bindable(colOrder[p - 1].attrType, o[p - 1]);
      }
    }
  }

  /** A statement the caller goes on to execute has every parameter set
      exactly when the row is complete and no setter is rejected. */
  lemma {:induction false} BoundIff(o: Row, colOrder: seq<Attribute>, failures: set<nat>)
    requires |o| == |colOrder|
    ensures
      var b := Bind(o, colOrder, failures, |colOrder|);
      (!Escapes(b.status) && FullyBound(b.stmt, |colOrder|))
      <==> (Complete(colOrder, o) && forall p: nat :: 1 <= p <= |colOrder| ==> p !in failures)
  {
    var b := Bind(o, colOrder, failures, |colOrder|);
    BindCharacterization(o, colOrder, failures, |colOrder|);
    BindFullIff(o, colOrder, failures);
    if b.status.SetterFailedAt? {
      var s := b.status.index;
      assert s + 1 !in b.stmt;
    }
  }

  /** The loop of populateStatement. */
  method PopulateStatement(o: Row, colOrder: seq<Attribute>, failures: set<nat>)
    returns (stmt: Statement, status: BindStatus)
    ensures Binding(stmt, status) == Bind(o, colOrder, failures, |colOrder|)
  {
    stmt, status := map[], AllAttempted;
    var i := 0;
    while i < |colOrder| && status.AllAttempted?
      invariant 0 <= i <= |colOrder|
      invariant Binding(stmt, status) == Bind(o, colOrder, failures, i)
    {
      var attribute := colOrder[i];
      if i >= |o| {
        status := MissingValueAt(i);
      } else {
        var value := o[i];
        if !value.Null? && attribute.attrType != OBJECT {
          if !Fits(attribute.attrType, value) {
            status := CastFailedAt(i);
          } else if i + 1 in failures {
            status := SetterFailedAt(i);
          } else {
            stmt := stmt[i + 1 := Param(attribute.attrType, value)];
          }
        }
      }
      i := i + 1;
    }
    if i < |colOrder| {
      BindStopped(o, colOrder, failures, i, |colOrder|);
    }
  }
}
