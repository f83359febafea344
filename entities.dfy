/** The entities the restaurant facade drives: orders, checks, tables and the
    statistics ledger. The classes that hold them (Order, Check, Table,
    RestaurantStatistics) are not part of this model; they appear here as
    plain values, and each operation the facade calls on them is given the
    map or counter semantics written next to it. */
module Entities {

  datatype Option<T> = None | Some(value: T)

  /** The status a freshly created order carries, and the one that puts an
      order on the kitchen's creation-ordered worklist. */
  const Ordered: string := "Ordered"

  datatype Order = Order(
    id: int,
    drink: int,
    appetizer: int,
    meal: int,
    side: int,
    special: string,
    status: string,
    timestamp: int)

  /** A billing snapshot: the order descriptions captured when it was made. */
  datatype Check = Check(descriptions: seq<string>)

  datatype TableStatus = Ready | InUse

  /** A table holds the identifier of its server (a lookup key into the
      server collection, not an owning reference), its open orders keyed by
      order id, and its history of checks. */
  datatype Table = Table(
    number: int,
    server: Option<string>,
    status: TableStatus,
    orders: map<int, Order>,
    checks: seq<Check>)
  {
    /** Table.putOrder: insert or overwrite the order under its own id. */
    function PutOrder(o: Order): (t: Table)
      ensures o.id in t.orders && t.orders[o.id] == o
      ensures forall id :: id in orders && id != o.id ==> id in t.orders && t.orders[id] == orders[id]
      ensures t.orders.Keys == orders.Keys + {o.id}
      ensures t.(orders := orders) == this
    {
      this.(orders := orders[o.id := o])
    }
  }

  /** `new Table(n)`: a ready table with no server, no orders and no checks. */
  function NewTable(n: int): Table
  {
    Table(n, None, Ready, map[], [])
  }

  /** The statistics ledger: the last issued order id, the table count
      (-1 before the first configuration) and one counter array per item
      category, indexed by menu item. */
  datatype Statistics = Statistics(
    orderID: int,
    tableCount: int,
    drinkCounts: seq<int>,
    mealCounts: seq<int>,
    appetizerCounts: seq<int>,
    sideCounts: seq<int>)
  {
    /** updateTableCount(n) takes effect, and reports success, only for a
        non-negative count different from the stored one. */
    predicate AcceptsTableCount(n: int)
    {
      n >= 0 && n != tableCount
    }

    function UpdateTableCount(n: int): (s: Statistics)
      ensures s.tableCount == (if AcceptsTableCount(n) then n else tableCount)
      ensures s.(tableCount := tableCount) == this
    {
      if AcceptsTableCount(n) then this.(tableCount := n) else this
    }

    /** After any update with a non-negative count the stored count is that
        count, and a second identical update changes nothing: the final
        updateTableCount of editTableCount repeats the one made before the
        resize without effect. */
    lemma UpdateTableCountSettles(n: int)
      ensures n >= 0 ==> UpdateTableCount(n).tableCount == n
      ensures UpdateTableCount(n).UpdateTableCount(n) == UpdateTableCount(n)
      ensures n < 0 ==> UpdateTableCount(n) == this
    {
    }

    /** updateOrderID(id) never lets the ledger's order id go down. */
    function UpdateOrderID(id: int): (s: Statistics)
      ensures s.orderID >= orderID && (s.orderID == id || s.orderID == orderID)
      ensures id >= orderID ==> s.orderID == id
      ensures s.(orderID := orderID) == this
    {
      if id >= orderID then this.(orderID := id) else this
    }

    /** The four category increments createOrder performs: each category's
        total of recorded items grows by one when the item is on its menu. */
    function CountOrder(drink: int, appetizer: int, meal: int, side: int): (s: Statistics)
      ensures Total(s.drinkCounts) == Total(drinkCounts) + (if 0 <= drink < |drinkCounts| then 1 else 0)
      ensures Total(s.mealCounts) == Total(mealCounts) + (if 0 <= meal < |mealCounts| then 1 else 0)
      ensures Total(s.appetizerCounts) == Total(appetizerCounts) + (if 0 <= appetizer < |appetizerCounts| then 1 else 0)
      ensures Total(s.sideCounts) == Total(sideCounts) + (if 0 <= side < |sideCounts| then 1 else 0)
      ensures s.orderID == orderID && s.tableCount == tableCount
      ensures s.drinkCounts == Bump(drinkCounts, drink)
      ensures s.mealCounts == Bump(mealCounts, meal)
      ensures s.appetizerCounts == Bump(appetizerCounts, appetizer)
      ensures s.sideCounts == Bump(sideCounts, side)
    {
      TotalBump(drinkCounts, drink);
      TotalBump(mealCounts, meal);
      TotalBump(appetizerCounts, appetizer);
      TotalBump(sideCounts, side);
      this.(drinkCounts := Bump(drinkCounts, drink))
          .(mealCounts := Bump(mealCounts, meal))
          .(appetizerCounts := Bump(appetizerCounts, appetizer))
          .(sideCounts := Bump(sideCounts, side))
    }
  }

  /** A category counter update with the increment flag set: one more at a
      menu index, nothing at all for an index outside the menu. */
  function Bump(counts: seq<int>, i: int): (r: seq<int>)
    ensures |r| == |counts|
    ensures forall j :: 0 <= j < |r| ==> r[j] == counts[j] + (if j == i then 1 else 0)
  {
    if 0 <= i < |counts| then counts[i := counts[i] + 1] else counts
  }

  /** The number of items recorded in a counter array. */
  function Total(counts: seq<int>): int
  {
    if counts == [] then 0 else counts[0] + Total(counts[1..])
  }

  /** Bumping a menu index records one more item; any other index none. */
  lemma {:induction false} TotalBump(counts: seq<int>, i: int)
    ensures Total(Bump(counts, i)) == Total(counts) + (if 0 <= i < |counts| then 1 else 0)
    decreases |counts|
  {
    if counts != [] {
      var b := Bump(counts, i);
      assert b[1..] == Bump(counts[1..], i - 1);
      TotalBump(counts[1..], i - 1);
    }
  }

  /** A category counter read: the count at a menu index, -1 outside the
      menu. On non-negative counters the -1 answer never collides with a
      count: it comes exactly from an index outside the menu. */
  function CountAt(counts: seq<int>, i: int): (c: int)
    ensures 0 <= i < |counts| ==> c == counts[i]
    ensures !(0 <= i < |counts|) ==> c == -1
    ensures NonNegative(counts) ==> (c >= 0 <==> 0 <= i < |counts|)
  {
    if 0 <= i < |counts| then counts[i] else -1
  }

  predicate NonNegative(counts: seq<int>)
  {
    forall j :: 0 <= j < |counts| ==> counts[j] >= 0
  }

  /** Bumping keeps a counter array non-negative, and the bumped entry is positive. */
  lemma BumpNonNegative(counts: seq<int>, i: int)
    requires NonNegative(counts)
    ensures NonNegative(Bump(counts, i))
    ensures 0 <= i < |counts| ==> CountAt(Bump(counts, i), i) == CountAt(counts, i) + 1 > 0
    ensures !(0 <= i < |counts|) ==> Bump(counts, i) == counts
  {
  }
}
