/** The Restaurant facade: the authentication gate in front of the management
    operations, the table-range resize, server reassignment, order creation
    with its id counter and popularity counters, the order and check
    wrappers, and the creation-ordered worklist.

    The storage layer's two keyed collections are the fields `tables` and
    `servers`; the statistics ledger is the field `stats`. */
module RestaurantModel {
  import opened Entities
  import opened Folds
  import opened TableRange
  import opened ServerCounts
  import opened OrderList
  import opened Checks

  /** What a loaded snapshot guarantees: the table count is -1 or more, the
      tables present are exactly 1..count, each table and each order is filed
      under its own number or id, no order id exceeds the ledger's last issued
      id, and no popularity counter is negative. */
  ghost predicate Consistent(tables: map<int, Table>, stats: Statistics)
  {
    && stats.tableCount >= -1
    && NumberedUpTo(tables, stats.tableCount)
    && (forall k :: k in tables ==> tables[k].number == k)
    && (forall k, id :: k in tables && id in tables[k].orders ==>
          tables[k].orders[id].id == id && id <= stats.orderID)
    && NonNegative(stats.drinkCounts)
    && NonNegative(stats.mealCounts)
    && NonNegative(stats.appetizerCounts)
    && NonNegative(stats.sideCounts)
  }

  /** A resize that lands on 1..n keeps a consistent snapshot consistent. */
  lemma ResizedKeepsConsistent(before: map<int, Table>, after: map<int, Table>, stats: Statistics, n: int)
    requires Consistent(before, stats)
    requires n >= 0
    requires Resized(before, after, n)
    ensures Consistent(after, stats.(tableCount := n))
  {
  }

  /** Replacing one table by a table with the same number whose orders are
      filed under their ids, none above the last issued id, keeps a
      snapshot consistent. */
  lemma ReplaceTableKeepsConsistent(tables: map<int, Table>, stats: Statistics, k: int, t: Table)
    requires Consistent(tables, stats)
    requires k in tables && t.number == k
    requires forall id :: id in t.orders ==> t.orders[id].id == id && id <= stats.orderID
    ensures Consistent(tables[k := t], stats)
  {
  }

  /** Filing an order under a fresh id, above every id issued so far, with
      the ledger advanced to that id and its counters still non-negative,
      keeps a snapshot consistent. */
  lemma FileNewOrderKeepsConsistent(tables: map<int, Table>, stats: Statistics, k: int,
                                    o: Order, stats': Statistics)
    requires Consistent(tables, stats)
    requires k in tables
    requires o.id == stats'.orderID && o.id > stats.orderID
    requires stats'.tableCount == stats.tableCount
    requires NonNegative(stats'.drinkCounts) && NonNegative(stats'.mealCounts)
    requires NonNegative(stats'.appetizerCounts) && NonNegative(stats'.sideCounts)
    ensures Consistent(tables[k := tables[k].PutOrder(o)], stats')
    ensures forall k', id :: k' in tables && id in tables[k'].orders ==> id < o.id
  {
  }

  class Restaurant {
    var tables: map<int, Table>
    var servers: map<string, int>
    var stats: Statistics
    /** The last order id this facade issued. */
    var orderID: int
    var authenticated: bool
    /** The storage layer's passcode check, not part of this model. */
    const passcodeAccepted: string -> bool

    ghost predicate Valid()
      reads this
    {
      Consistent(tables, stats) && orderID == stats.orderID
    }

    /** Starts from a loaded snapshot, not authenticated, with the order id
        counter seeded from the ledger. */
    constructor (tables0: map<int, Table>, servers0: map<string, int>, stats0: Statistics,
                 passcodeAccepted: string -> bool)
      requires Consistent(tables0, stats0)
      ensures Valid()
      ensures tables == tables0 && servers == servers0 && stats == stats0
      ensures orderID == stats0.orderID && !authenticated
      ensures this.passcodeAccepted == passcodeAccepted
    {
      tables, servers, stats := tables0, servers0, stats0;
      orderID := stats0.orderID;
      authenticated := false;
      this.passcodeAccepted := passcodeAccepted;
    }

    /** Sets the flag from the passcode check, also clearing it after an
        earlier success. */
    method Authenticate(passcode: string) returns (ok: bool)
      requires Valid()
      modifies this
      ensures Valid()
      ensures authenticated == passcodeAccepted(passcode) && ok == authenticated
      ensures tables == old(tables) && servers == old(servers)
      ensures stats == old(stats) && orderID == old(orderID)
    {
      authenticated := passcodeAccepted(passcode);
      ok := authenticated;
    }

    /** putTable(new Table(i)) for i = oldCount+1, ..., newCount, stopping
        at the first put the storage layer refuses. */
    method PutTables(oldCount: int, newCount: int) returns (ok: bool)
      requires oldCount <= newCount
      modifies this
      ensures tables == Run(old(tables), Grow(oldCount, newCount)).tables
      ensures ok == Run(old(tables), Grow(oldCount, newCount)).Done?
      ensures servers == old(servers) && stats == old(stats)
      ensures orderID == old(orderID) && authenticated == old(authenticated)
    {
      ghost var ops := Grow(oldCount, newCount);
      var c := oldCount;
      while newCount != c
        invariant oldCount <= c <= newCount
        invariant Run(old(tables), ops[..c - oldCount]) == Done(tables)
        invariant servers == old(servers) && stats == old(stats)
        invariant orderID == old(orderID) && authenticated == old(authenticated)
        decreases newCount - c
      {
        GrowNext(old(tables), oldCount, newCount, c);
        match Step(tables, Put(c + 1))
        case None =>
          return false;
        case Some(t) =>
          tables := t;
        c := c + 1;
      }
      assert ops[..newCount - oldCount] == ops;
      ok := true;
    }

    /** deleteTable(c) for c = oldCount, oldCount-1, ..., newCount+1,
        stopping at the first delete the storage layer refuses. */
    method DeleteTables(oldCount: int, newCount: int) returns (ok: bool)
      requires newCount <= oldCount
      modifies this
      ensures tables == Run(old(tables), Shrink(oldCount, newCount)).tables
      ensures ok == Run(old(tables), Shrink(oldCount, newCount)).Done?
      ensures servers == old(servers) && stats == old(stats)
      ensures orderID == old(orderID) && authenticated == old(authenticated)
    {
      ghost var ops := Shrink(oldCount, newCount);
      var c := oldCount;
      while newCount != c
        invariant newCount <= c <= oldCount
        invariant Run(old(tables), ops[..oldCount - c]) == Done(tables)
        invariant servers == old(servers) && stats == old(stats)
        invariant orderID == old(orderID) && authenticated == old(authenticated)
        decreases c - newCount
      {
        ShrinkNext(old(tables), oldCount, newCount, c);
        match Step(tables, Delete(c))
        case None =>
          return false;
        case Some(t) =>
          tables := t;
        c := c - 1;
      }
      assert ops[..oldCount - newCount] == ops;
      ok := true;
    }

    /** Resizes the tables to 1..newTableCount. The first configuration
        (count -1) puts tables 1..n; otherwise a changed count is recorded
        first and the tables are put upwards or deleted downwards one at a
        time. The first storage call that fails ends the operation with the
        calls before it kept; on success the count is recorded. */
    method EditTableCount(newTableCount: int) returns (ok: bool)
      modifies this
      ensures servers == old(servers) && orderID == old(orderID) && authenticated == old(authenticated)
      ensures !old(authenticated) || newTableCount < 0 ==>
        !ok && tables == old(tables) && stats == old(stats)
      ensures old(authenticated) && newTableCount >= 0 && old(stats.tableCount) == -1 ==>
        var out := Run(old(tables), Grow(0, newTableCount));
        && tables == out.tables && ok == out.Done?
        && stats == (if ok then old(stats).(tableCount := newTableCount) else old(stats))
      ensures old(authenticated) && newTableCount >= 0 && old(stats.tableCount) != -1 ==>
        var out := Run(old(tables), ResizeOps(old(stats.tableCount), newTableCount));
        && tables == out.tables && ok == out.Done?
        && stats == old(stats).(tableCount := newTableCount)
      ensures old(Valid()) ==> Valid() && ok == (old(authenticated) && newTableCount >= 0)
      ensures old(Valid()) && ok ==>
        stats.tableCount == newTableCount && Resized(old(tables), tables, newTableCount)
    {
      if !authenticated {
        return false;
      }
      if newTableCount < 0 {
        return false;
      }
      ghost var validBefore := Valid();
      var oldTableCount := stats.tableCount;
      if oldTableCount == -1 {
        if validBefore {
          GrowFromRange(tables, 0, newTableCount);
        }
        ok := PutTables(0, newTableCount);
        if !ok {
          return;
        }
      } else if oldTableCount != newTableCount && stats.AcceptsTableCount(newTableCount) {
        stats := stats.UpdateTableCount(newTableCount);
        if validBefore {
          ResizeFromRange(tables, oldTableCount, newTableCount);
        }
        if newTableCount > oldTableCount {
          ok := PutTables(oldTableCount, newTableCount);
        } else {
          ok := DeleteTables(oldTableCount, newTableCount);
        }
        if !ok {
          return;
        }
      } else {
        ResizeToSameIsEmpty(tables, newTableCount);
      }
      stats := stats.UpdateTableCount(newTableCount);
      if validBefore {
        ResizedKeepsConsistent(old(tables), tables, old(stats), newTableCount);
      }
      ok := true;
    }

    /** putServer(new Server(id)) behind the gate: fails when the identifier
        is taken; a new server starts with no tables. */
    method AddServer(serverID: string) returns (ok: bool)
      requires Valid()
      modifies this
      ensures Valid()
      ensures ok == (old(authenticated) && serverID !in old(servers))
      ensures servers == if ok then old(servers)[serverID := 0] else old(servers)
      ensures tables == old(tables) && stats == old(stats)
      ensures orderID == old(orderID) && authenticated == old(authenticated)
      ensures old(CountsMatch(tables, servers)) && TablesOf(tables, serverID) == {} ==>
        CountsMatch(tables, servers)
    {
      if !authenticated {
        return false;
      }
      if serverID in servers {
        return false;
      }
      servers := servers[serverID := 0];
      ok := true;
    }

    /** deleteServer(id) behind the gate: fails when the identifier is
        absent. Tables that still refer to the server keep the identifier. */
    method DeleteServer(serverID: string) returns (ok: bool)
      requires Valid()
      modifies this
      ensures Valid()
      ensures ok == (old(authenticated) && serverID in old(servers))
      ensures servers == if ok then old(servers) - {serverID} else old(servers)
      ensures tables == old(tables) && stats == old(stats)
      ensures orderID == old(orderID) && authenticated == old(authenticated)
      ensures old(CountsMatch(tables, servers)) ==> CountsMatch(tables, servers)
    {
      if !authenticated {
        return false;
      }
      if serverID !in servers {
        return false;
      }
      servers := servers - {serverID};
      ok := true;
    }

    /** Moves a table to another server: the old server loses one table,
        the new one gains one. A table with no server is refused. */
    method ChangeTableServer(tableNumber: int, newServerID: string) returns (ok: bool)
      requires Valid()
      modifies this
      ensures Valid()
      ensures ok == (tableNumber in old(tables) && newServerID in old(servers)
                     && old(tables)[tableNumber].server.Some?)
      ensures ok ==>
        && tables == old(tables)[tableNumber := old(tables)[tableNumber].(server := Some(newServerID))]
        && servers == MoveTable(old(servers), old(tables)[tableNumber].server.value, newServerID)
      ensures !ok ==> tables == old(tables) && servers == old(servers)
      ensures stats == old(stats) && orderID == old(orderID) && authenticated == old(authenticated)
      ensures ok && old(tables)[tableNumber].server.value in old(servers) ==>
        TotalCount(servers) == TotalCount(old(servers))
      ensures old(CountsMatch(tables, servers)) ==> CountsMatch(tables, servers)
    {
      if tableNumber !in tables {
        return false;
      }
      if newServerID !in servers {
        return false;
      }
      var table := tables[tableNumber];
      if table.server.None? {
        return false;
      }
      var server := table.server.value;
      ReplaceTableKeepsConsistent(tables, stats, tableNumber, table.(server := Some(newServerID)));
      MoveTableTotal(servers, server, newServerID);
      if CountsMatch(tables, servers) {
        ReassignKeepsCountsMatch(tables, servers, tableNumber, newServerID);
      }
      tables := tables[tableNumber := table.(server := Some(newServerID))];
      servers := MoveTable(servers, server, newServerID);
      ok := true;
    }

    /** table.setToInUse(getServer(id)): refused for an unknown table or an
        unknown server; otherwise the table is in use by that server and the
        server's count grows by one. */
    method SetTableToInUse(tableNumber: int, serverID: string) returns (ok: bool)
      requires Valid()
      modifies this
      ensures Valid()
      ensures ok == (tableNumber in old(tables) && serverID in old(servers))
      ensures ok ==>
        && tables == old(tables)[tableNumber := old(tables)[tableNumber].(server := Some(serverID), status := InUse)]
        && servers == old(servers)[serverID := old(servers)[serverID] + 1]
      ensures !ok ==> tables == old(tables) && servers == old(servers)
      ensures stats == old(stats) && orderID == old(orderID) && authenticated == old(authenticated)
      ensures old(CountsMatch(tables, servers)) && ok && old(tables)[tableNumber].server == None ==>
        CountsMatch(tables, servers)
    {
      if tableNumber !in tables {
        return false;
      }
      if serverID !in servers {
        return false;
      }
      if CountsMatch(tables, servers) && tables[tableNumber].server == None {
        AssignKeepsCountsMatch(tables, servers, tableNumber, serverID);
      }
      tables := tables[tableNumber := tables[tableNumber].(server := Some(serverID), status := InUse)];
      servers := servers[serverID := servers[serverID] + 1];
      ok := true;
    }

    /** Marks a known table ready; its server stays assigned. */
    method SetTableToReady(tableNumber: int) returns (ok: bool)
      requires Valid()
      modifies this
      ensures Valid()
      ensures ok == (tableNumber in old(tables))
      ensures tables == if ok then old(tables)[tableNumber := old(tables)[tableNumber].(status := Ready)]
                        else old(tables)
      ensures servers == old(servers) && stats == old(stats)
      ensures orderID == old(orderID) && authenticated == old(authenticated)
    {
      if tableNumber !in tables {
        return false;
      }
      tables := tables[tableNumber := tables[tableNumber].(status := Ready)];
      ok := true;
    }

    /** The numbers of the tables whose server is serverID, each once, in
        the storage layer's iteration order. */
    method GetServerTables(serverID: string) returns (r: seq<int>)
      requires Valid()
      ensures forall k :: k in r <==> k in tables && tables[k].server == Some(serverID)
      ensures forall i, j :: 0 <= i < j < |r| ==> r[i] != r[j]
    {
      r := [];
      var rest := tables;
      while rest != map[]
        invariant forall k :: k in rest ==> k in tables && rest[k] == tables[k]
        invariant forall k :: k in r <==> k in tables && k !in rest && tables[k].server == Some(serverID)
        invariant forall i, j :: 0 <= i < j < |r| ==> r[i] != r[j]
        decreases |rest|
      {
        // w only gives the `:|` below its witness.
        ghost var w := SomeKey(rest);
        var k :| k in rest;
        var t := rest[k];
        if t.server == Some(serverID) {
          r := r + [t.number];
        }
        RemoveOneKey(rest, k);
        rest := rest - {k};
      }
    }

    /** Issues the next order id, counts the four items and files the new
        order, with status "Ordered" and the given creation time, on the
        table. An unknown table is refused and nothing changes. */
    method CreateOrder(tableNumber: int, drink: int, appetizer: int, meal: int, side: int,
                       special: string, now: int) returns (ok: bool)
      requires Valid()
      modifies this
      ensures Valid()
      ensures ok == (tableNumber in old(tables))
      ensures !ok ==> tables == old(tables) && stats == old(stats) && orderID == old(orderID)
      ensures ok ==> orderID == old(orderID) + 1 && stats.orderID == orderID
      ensures ok ==> forall k, id :: k in old(tables) && id in old(tables)[k].orders ==> id < orderID
      ensures ok ==> tables == old(tables)[tableNumber := old(tables)[tableNumber].PutOrder(
                                 Order(orderID, drink, appetizer, meal, side, special, Ordered, now))]
      ensures ok ==>
        && stats.tableCount == old(stats.tableCount)
        && stats.drinkCounts == Bump(old(stats.drinkCounts), drink)
        && stats.mealCounts == Bump(old(stats.mealCounts), meal)
        && stats.appetizerCounts == Bump(old(stats.appetizerCounts), appetizer)
        && stats.sideCounts == Bump(old(stats.sideCounts), side)
      ensures ok && 0 <= drink < |stats.drinkCounts| ==>
        CheckItemPopularity(1, drink) == old(CheckItemPopularity(1, drink)) + 1
      ensures ok && 0 <= meal < |stats.mealCounts| ==>
        CheckItemPopularity(2, meal) == old(CheckItemPopularity(2, meal)) + 1
      ensures ok && 0 <= appetizer < |stats.appetizerCounts| ==>
        CheckItemPopularity(3, appetizer) == old(CheckItemPopularity(3, appetizer)) + 1
      ensures ok && 0 <= side < |stats.sideCounts| ==>
        CheckItemPopularity(4, side) == old(CheckItemPopularity(4, side)) + 1
      ensures servers == old(servers) && authenticated == old(authenticated)
    {
      if tableNumber !in tables {
        return false;
      }
      orderID := orderID + 1;
      stats := stats.UpdateOrderID(orderID);
      stats := stats.CountOrder(drink, appetizer, meal, side);
      BumpNonNegative(old(stats.drinkCounts), drink);
      BumpNonNegative(old(stats.mealCounts), meal);
      BumpNonNegative(old(stats.appetizerCounts), appetizer);
      BumpNonNegative(old(stats.sideCounts), side);
      var o := Order(orderID, drink, appetizer, meal, side, special, Ordered, now);
      FileNewOrderKeepsConsistent(tables, old(stats), tableNumber, o, stats);
      tables := tables[tableNumber := tables[tableNumber].PutOrder(o)];
      ok := true;
    }

    /** Looks the order up and hands it back to its table once
        Order.modifyOrder (not part of this model) has accepted the edit,
        which `editAccepted` stands for; the order is filed back unchanged. */
    method ModifyOrder(tableNumber: int, id: int, editAccepted: bool) returns (ok: bool)
      requires Valid()
      modifies this
      ensures Valid()
      ensures ok == (tableNumber in old(tables) && id in old(tables)[tableNumber].orders && editAccepted)
      ensures tables == old(tables) && servers == old(servers) && stats == old(stats)
      ensures orderID == old(orderID) && authenticated == old(authenticated)
    {
      if tableNumber !in tables {
        return false;
      }
      var t := tables[tableNumber];
      if id !in t.orders {
        return false;
      }
      var o := t.orders[id];
      if !editAccepted {
        return false;
      }
      assert t.orders[o.id := o] == t.orders;
      tables := tables[tableNumber := t.PutOrder(o)];
      ok := true;
    }

    /** Removes an order from its table; an unknown table or order is refused. */
    method DeleteOrder(tableNumber: int, id: int) returns (ok: bool)
      requires Valid()
      modifies this
      ensures Valid()
      ensures ok == (tableNumber in old(tables) && id in old(tables)[tableNumber].orders)
      ensures tables == if ok then old(tables)[tableNumber := old(tables)[tableNumber].(orders := old(tables)[tableNumber].orders - {id})]
                        else old(tables)
      ensures servers == old(servers) && stats == old(stats)
      ensures orderID == old(orderID) && authenticated == old(authenticated)
    {
      if tableNumber !in tables {
        return false;
      }
      var t := tables[tableNumber];
      if id !in t.orders {
        return false;
      }
      tables := tables[tableNumber := t.(orders := t.orders - {id})];
      ok := true;
    }

    /** Every order with status "Ordered" on every table, each inserted ahead
        of the first collected order whose timestamp is at least its own.
        `visited` is the order in which the storage layer's iteration met the
        tables, `segs[i]` the order in which it met the waiting orders of
        table visited[i], and `found` the two together. */
    method ObtainOrderListByCreation()
      returns (r: seq<Order>, ghost found: seq<Order>, ghost visited: seq<int>, ghost segs: seq<seq<Order>>)
      ensures multiset(r) == WaitingOrders(tables)
      ensures forall i :: 0 <= i < |r| ==> r[i].status == Ordered
      ensures SortedByTimestamp(r)
      ensures TablePasses(tables, visited, segs) && found == Concat(segs)
      ensures r == InsertAll(found)
      ensures forall t :: WithTimestamp(r, t) == Reversed(WithTimestamp(found, t))
      ensures forall t :: WithTimestamp(r, t) == Reversed(Concat(TiesBySegment(segs, t)))
    {
      r, found, visited, segs := [], [], [], [];
      var rest := tables;
      PassesStart(tables);
      while rest != map[]
        invariant Traversed(tables, rest, r, found, visited, segs)
        decreases |rest|
      {
        ghost var n;
        rest, r, found, visited, segs, n := PassNext(tables, rest, r, found, visited, segs);
      }
      TraversalDone(tables, r, found, visited, segs);
    }

    /** Appends one check per serialized order list, in order, and stops at
        the first list Table.addCheck refuses; the checks appended before it
        remain. `parse` stands for addCheck's parser. */
    method GenerateChecks(tableNumber: int, lists: seq<string>, parse: string -> Option<Check>)
      returns (ok: bool)
      requires Valid()
      modifies this
      ensures Valid()
      ensures ok == (tableNumber in old(tables) && AllParse(lists, parse))
      ensures tableNumber in old(tables) ==>
        tables == old(tables)[tableNumber := old(tables)[tableNumber].(
                    checks := old(tables)[tableNumber].checks + ParsedPrefix(lists, parse))]
      ensures tableNumber !in old(tables) ==> tables == old(tables)
      ensures servers == old(servers) && stats == old(stats)
      ensures orderID == old(orderID) && authenticated == old(authenticated)
    {
      if tableNumber !in tables {
        return false;
      }
      ghost var added: seq<Check> := [];
      assert old(tables)[tableNumber].checks + added == old(tables)[tableNumber].checks;
      assert tables == old(tables)[tableNumber := old(tables)[tableNumber]];
      var i := 0;
      while i < |lists|
        invariant 0 <= i <= |lists| && |added| == i
        invariant forall j :: 0 <= j < i ==> parse(lists[j]) == Some(added[j])
        invariant tables == old(tables)[tableNumber := old(tables)[tableNumber].(
                              checks := old(tables)[tableNumber].checks + added)]
        invariant servers == old(servers) && stats == old(stats)
        invariant orderID == old(orderID) && authenticated == old(authenticated)
      {
        match parse(lists[i])
        case None =>
          ParsedPrefixUnique(lists, parse, added);
          ParsedPrefixComplete(lists, parse);
          return false;
        case Some(c) =>
          var t := tables[tableNumber];
          assert t.checks + [c] == old(tables)[tableNumber].checks + (added + [c]);
          tables := tables[tableNumber := t.(checks := t.checks + [c])];
          added := added + [c];
        i := i + 1;
      }
      ParsedPrefixUnique(lists, parse, added);
      ok := true;
    }

    /** The popularity count of an item: category 1 is drinks, 2 meals,
        3 appetizers and 4 sides; any other category, or an item outside
        the menu, gives -1. */
    function CheckItemPopularity(category: int, itemIndex: int): (r: int)
      reads this
      requires Valid()
      ensures !(1 <= category <= 4) ==> r == -1
      ensures category == 1 ==> r == CountAt(stats.drinkCounts, itemIndex)
      ensures category == 2 ==> r == CountAt(stats.mealCounts, itemIndex)
      ensures category == 3 ==> r == CountAt(stats.appetizerCounts, itemIndex)
      ensures category == 4 ==> r == CountAt(stats.sideCounts, itemIndex)
      ensures r >= -1
    {
      if category == 1 then CountAt(stats.drinkCounts, itemIndex)
      else if category == 2 then CountAt(stats.mealCounts, itemIndex)
      else if category == 3 then CountAt(stats.appetizerCounts, itemIndex)
      else if category == 4 then CountAt(stats.sideCounts, itemIndex)
      else -1
    }
  }
}
