/** The table-range resize behind editTableCount: the storage calls it makes,
    in the order it makes them, and what they leave in the table collection. */
module TableRange {
  import opened Entities

  /** One call into the table collection of the storage layer. */
  datatype TableOp = Put(number: int) | Delete(number: int)

  /** Where a run of storage calls ended: after all of them, or at the first
      one that failed, with the tables as that call found them. */
  datatype Outcome = Done(tables: map<int, Table>) | Stopped(tables: map<int, Table>)

  /** The tables present are numbered exactly 1..n (none at all when n <= 0). */
  ghost predicate NumberedUpTo(tables: map<int, Table>, n: int)
  {
    forall k :: k in tables <==> 1 <= k <= n
  }

  /** putTable(new Table(n)) fails when n is already present;
      deleteTable(n) fails when n is absent. */
  function Step(tables: map<int, Table>, op: TableOp): (r: Option<map<int, Table>>)
    ensures r.Some? <==> (op.Put? <==> op.number !in tables)
    ensures r.Some? ==> r.value.Keys == if op.Put? then tables.Keys + {op.number} else tables.Keys - {op.number}
    ensures r.Some? ==> forall k :: k in tables && k != op.number ==> k in r.value && r.value[k] == tables[k]
    ensures r.Some? && op.Put? ==> r.value[op.number] == NewTable(op.number)
  {
    match op
    case Put(n) => if n in tables then None else Some(tables[n := NewTable(n)])
    case Delete(n) => if n in tables then Some(tables - {n}) else None
  }

  /** Performs the calls in order and stops at the first one that fails;
      it can only stop when there was a call to refuse. */
  function Run(tables: map<int, Table>, ops: seq<TableOp>): (out: Outcome)
    ensures out.Stopped? ==> |ops| > 0
    decreases |ops|
  {
    if ops == [] then Done(tables)
    else
      match Run(tables, ops[..|ops| - 1])
      case Stopped(t) => Stopped(t)
      case Done(t) =>
        match Step(t, ops[|ops| - 1])
        case None => Stopped(t)
        case Some(t') => Done(t')
  }

  /** Growing from oldCount to newCount tables puts tables oldCount+1, oldCount+2, ..., newCount:
      only puts, each of a table above oldCount up to newCount, counting up by one from oldCount+1. */
  function Grow(oldCount: int, newCount: int): (ops: seq<TableOp>)
    requires oldCount <= newCount
    ensures |ops| == newCount - oldCount
    ensures forall i :: 0 <= i < |ops| ==> ops[i].Put? && oldCount < ops[i].number <= newCount
    ensures |ops| > 0 ==> ops[0].number == oldCount + 1
    ensures forall i, j :: 0 <= i < j < |ops| ==> ops[j].number - ops[i].number == j - i
  {
    seq(newCount - oldCount, i => Put(oldCount + 1 + i))
  }

  /** Shrinking from oldCount to newCount tables deletes tables oldCount, oldCount-1, ..., newCount+1:
      only deletes, each of a table above newCount up to oldCount, counting down by one from oldCount. */
  function Shrink(oldCount: int, newCount: int): (ops: seq<TableOp>)
    requires newCount <= oldCount
    ensures |ops| == oldCount - newCount
    ensures forall i :: 0 <= i < |ops| ==> ops[i].Delete? && newCount < ops[i].number <= oldCount
    ensures |ops| > 0 ==> ops[0].number == oldCount
    ensures forall i, j :: 0 <= i < j < |ops| ==> ops[i].number - ops[j].number == j - i
  {
    seq(oldCount - newCount, i => Delete(oldCount - i))
  }

  /** The storage calls editTableCount makes to go from oldCount tables to
      newCount tables. It makes one call per table between the two counts,
      and touches no other table: puts of tables above oldCount up to
      newCount, or deletes of tables above newCount up to oldCount. */
  function ResizeOps(oldCount: int, newCount: int): (ops: seq<TableOp>)
    ensures |ops| == if oldCount <= newCount then newCount - oldCount else oldCount - newCount
    ensures forall i :: 0 <= i < |ops| ==>
      if oldCount <= newCount then ops[i].Put? && oldCount < ops[i].number <= newCount
      else ops[i].Delete? && newCount < ops[i].number <= oldCount
  {
    if oldCount <= newCount then Grow(oldCount, newCount) else Shrink(oldCount, newCount)
  }

  /** A run of puts never disturbs a table already present, whether or not
      it completes. */
  lemma {:induction false} RunOfPutsKeeps(tables: map<int, Table>, ops: seq<TableOp>)
    requires forall i :: 0 <= i < |ops| ==> ops[i].Put?
    ensures forall k :: k in tables ==> k in Run(tables, ops).tables && Run(tables, ops).tables[k] == tables[k]
    decreases |ops|
  {
    if ops != [] {
      RunOfPutsKeeps(tables, ops[..|ops| - 1]);
    }
  }

  /** A run of deletes never adds a table nor changes one that stays. */
  lemma {:induction false} RunOfDeletesKeeps(tables: map<int, Table>, ops: seq<TableOp>)
    requires forall i :: 0 <= i < |ops| ==> ops[i].Delete?
    ensures forall k :: k in Run(tables, ops).tables ==> k in tables && Run(tables, ops).tables[k] == tables[k]
    decreases |ops|
  {
    if ops != [] {
      RunOfDeletesKeeps(tables, ops[..|ops| - 1]);
    }
  }

  /** Once a prefix of the calls has stopped, the later calls are never made. */
  lemma {:induction false} StoppedStaysStopped(tables: map<int, Table>, ops: seq<TableOp>, k: nat)
    requires k <= |ops|
    requires Run(tables, ops[..k]).Stopped?
    ensures Run(tables, ops) == Run(tables, ops[..k])
    decreases |ops| - k
  {
    if k < |ops| {
      assert ops[..k + 1][..k] == ops[..k];
      StoppedStaysStopped(tables, ops, k + 1);
    } else {
      assert ops[..k] == ops;
    }
  }

  /** Running one more call after a completed prefix is one more Step. */
  lemma RunSnoc(tables: map<int, Table>, ops: seq<TableOp>, k: nat)
    requires k < |ops|
    requires Run(tables, ops[..k]).Done?
    ensures Run(tables, ops[..k + 1]) ==
      match Step(Run(tables, ops[..k]).tables, ops[k])
      case None => Stopped(Run(tables, ops[..k]).tables)
      case Some(t') => Done(t')
  {
    assert ops[..k + 1][..k] == ops[..k];
  }

  /** The put of table c+1 after the puts of oldCount+1..c completed: it
      either ends the whole growth where it stands or completes one more put. */
  lemma GrowNext(tables: map<int, Table>, oldCount: int, newCount: int, c: int)
    requires oldCount <= c < newCount
    requires Run(tables, Grow(oldCount, newCount)[..c - oldCount]).Done?
    ensures var t := Run(tables, Grow(oldCount, newCount)[..c - oldCount]).tables;
      match Step(t, Put(c + 1))
      case None => Run(tables, Grow(oldCount, newCount)) == Stopped(t)
      case Some(t') => Run(tables, Grow(oldCount, newCount)[..c + 1 - oldCount]) == Done(t')
  {
    var ops := Grow(oldCount, newCount);
    assert ops[c - oldCount] == Put(c + 1);
    RunSnoc(tables, ops, c - oldCount);
    if Run(tables, ops[..c + 1 - oldCount]).Stopped? {
      StoppedStaysStopped(tables, ops, c + 1 - oldCount);
    }
  }

  /** The delete of table c after the deletes of oldCount..c+1 completed. */
  lemma ShrinkNext(tables: map<int, Table>, oldCount: int, newCount: int, c: int)
    requires newCount < c <= oldCount
    requires Run(tables, Shrink(oldCount, newCount)[..oldCount - c]).Done?
    ensures var t := Run(tables, Shrink(oldCount, newCount)[..oldCount - c]).tables;
      match Step(t, Delete(c))
      case None => Run(tables, Shrink(oldCount, newCount)) == Stopped(t)
      case Some(t') => Run(tables, Shrink(oldCount, newCount)[..oldCount - c + 1]) == Done(t')
  {
    var ops := Shrink(oldCount, newCount);
    assert ops[oldCount - c] == Delete(c);
    RunSnoc(tables, ops, oldCount - c);
    if Run(tables, ops[..oldCount - c + 1]).Stopped? {
      StoppedStaysStopped(tables, ops, oldCount - c + 1);
    }
  }

  /** What editTableCount leaves after a resize to newCount: tables 1..newCount,
      the surviving ones untouched and the added ones new. */
  ghost predicate Resized(before: map<int, Table>, after: map<int, Table>, newCount: int)
  {
    && NumberedUpTo(after, newCount)
    && forall k :: k in after ==> after[k] == if k in before then before[k] else NewTable(k)
  }

  /** Growing a contiguous range 1..oldCount puts every table oldCount+1..newCount
      successfully and leaves 1..newCount. */
  lemma {:induction false} GrowFromRange(tables: map<int, Table>, oldCount: int, newCount: int)
    requires 0 <= oldCount <= newCount
    requires NumberedUpTo(tables, oldCount)
    ensures Run(tables, Grow(oldCount, newCount)).Done?
    ensures Resized(tables, Run(tables, Grow(oldCount, newCount)).tables, newCount)
    decreases newCount - oldCount
  {
    if newCount > oldCount {
      var ops := Grow(oldCount, newCount);
      assert ops[..|ops| - 1] == Grow(oldCount, newCount - 1);
      GrowFromRange(tables, oldCount, newCount - 1);
      var t := Run(tables, Grow(oldCount, newCount - 1)).tables;
      assert ops[|ops| - 1] == Put(newCount);
      assert newCount !in t;
      assert Step(t, Put(newCount)) == Some(t[newCount := NewTable(newCount)]);
      assert Run(tables, ops) == Done(t[newCount := NewTable(newCount)]);
    } else {
      assert Grow(oldCount, newCount) == [];
    }
  }

  /** Shrinking a contiguous range 1..oldCount deletes every table oldCount..newCount+1
      successfully and leaves 1..newCount, untouched. */
  lemma {:induction false} ShrinkFromRange(tables: map<int, Table>, oldCount: int, newCount: int)
    requires 0 <= newCount <= oldCount
    requires NumberedUpTo(tables, oldCount)
    ensures Run(tables, Shrink(oldCount, newCount)).Done?
    ensures Resized(tables, Run(tables, Shrink(oldCount, newCount)).tables, newCount)
    decreases oldCount - newCount
  {
    if newCount < oldCount {
      var ops := Shrink(oldCount, newCount);
      assert ops[..|ops| - 1] == Shrink(oldCount, newCount + 1);
      ShrinkFromRange(tables, oldCount, newCount + 1);
      var t := Run(tables, Shrink(oldCount, newCount + 1)).tables;
      assert Run(tables, ops) == Done(t - {newCount + 1});
    } else {
      assert Shrink(oldCount, newCount) == [];
    }
  }

  /** From a contiguous range 1..oldCount, every storage call of the resize
      succeeds and the tables present afterwards are exactly 1..newCount. */
  lemma ResizeFromRange(tables: map<int, Table>, oldCount: int, newCount: int)
    requires 0 <= oldCount && 0 <= newCount
    requires NumberedUpTo(tables, oldCount)
    ensures Run(tables, ResizeOps(oldCount, newCount)).Done?
    ensures Resized(tables, Run(tables, ResizeOps(oldCount, newCount)).tables, newCount)
  {
    if oldCount <= newCount {
      GrowFromRange(tables, oldCount, newCount);
    } else {
      ShrinkFromRange(tables, oldCount, newCount);
    }
  }

  /** Resizing to the current count makes no storage call at all. */
  lemma ResizeToSameIsEmpty(tables: map<int, Table>, n: int)
    ensures ResizeOps(n, n) == []
    ensures Run(tables, ResizeOps(n, n)) == Done(tables)
  {
  }

  /** Growth only ever puts, in increasing order of table number; shrinking
      only ever deletes, in decreasing order. */
  lemma ResizeOrder(oldCount: int, newCount: int, i: int, j: int)
    requires 0 <= i < j < |ResizeOps(oldCount, newCount)|
    ensures oldCount < newCount ==> ResizeOps(oldCount, newCount)[i].Put? && ResizeOps(oldCount, newCount)[i].number < ResizeOps(oldCount, newCount)[j].number
    ensures newCount < oldCount ==> ResizeOps(oldCount, newCount)[i].Delete? && ResizeOps(oldCount, newCount)[i].number > ResizeOps(oldCount, newCount)[j].number
    ensures oldCount < newCount ==> ResizeOps(oldCount, newCount)[0] == Put(oldCount + 1) && ResizeOps(oldCount, newCount)[|ResizeOps(oldCount, newCount)| - 1] == Put(newCount)
    ensures newCount < oldCount ==> ResizeOps(oldCount, newCount)[0] == Delete(oldCount) && ResizeOps(oldCount, newCount)[|ResizeOps(oldCount, newCount)| - 1] == Delete(newCount + 1)
  {
  }

  /** putTable(new Table(n)) on an absent number is undone by deleteTable(n). */
  lemma PutDeleteRoundTrip(tables: map<int, Table>, n: int)
    requires n !in tables
    ensures Step(tables, Put(n)).Some?
    ensures Step(Step(tables, Put(n)).value, Delete(n)) == Some(tables)
  {
    assert tables[n := NewTable(n)] - {n} == tables;
  }

  /** Growing a contiguous range and shrinking it back restores every table,
      orders and checks included. */
  lemma GrowShrinkRoundTrip(tables: map<int, Table>, oldCount: int, newCount: int)
    requires 0 <= oldCount <= newCount
    requires NumberedUpTo(tables, oldCount)
    ensures Run(tables, ResizeOps(oldCount, newCount)).Done?
    ensures Run(Run(tables, ResizeOps(oldCount, newCount)).tables, ResizeOps(newCount, oldCount)) == Done(tables)
  {
    ResizeFromRange(tables, oldCount, newCount);
    var there := Run(tables, ResizeOps(oldCount, newCount)).tables;
    ResizeFromRange(there, newCount, oldCount);
    var back := Run(there, ResizeOps(newCount, oldCount)).tables;
    assert forall k :: k in back ==> k in there && back[k] == there[k];
    assert forall k :: k in back <==> k in tables;
    assert forall k :: k in back ==> back[k] == tables[k];
    assert back == tables;
  }
}
