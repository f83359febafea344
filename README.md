# Restaurant facade, modelled in Dafny

This project models the `Restaurant` facade of the restaurant management
system (`RestaurantManagementSystem/src/model/Restaurant.java`) and proves
what its operations do to the restaurant's state.

The facade owns two fields of its own: the last issued order id and the
authentication flag. It drives three collaborators:

- the storage layer's table collection, a map from table number to table;
- the storage layer's server collection, a map from server id to the
  number of tables the server looks after;
- the statistics ledger, holding the last order id, the table count (-1
  before the first configuration) and four popularity counter arrays
  (drinks, meals, appetizers, sides).

The model is a class `RestaurantModel.Restaurant` with these five fields.
Its methods follow the Java control flow branch for branch. Each method's
`ensures` states the new state exactly, up to the order in which a hash map
is iterated: there the contract names the entry taken (as a ghost output)
and states what holds for every iteration order. The following properties of the
behaviour of `Restaurant.java` are proved:

- The authentication gate: without it, `editTableCount`, `addServer` and
  `deleteServer` refuse and change nothing. A failed `authenticate` clears
  an earlier success.
- The table-range resize is modelled as the run of storage calls it makes,
  in order. The run stops at the first refused call. From a contiguous
  range 1..old:
  - every call succeeds;
  - the tables present are exactly 1..n;
  - surviving tables are untouched and added tables are new;
  - growth puts in increasing order and shrinking deletes in decreasing
    order;
  - resizing to the current count makes no call;
  - growing and then shrinking back restores every table.
- Server reassignment moves one unit of table count from the old server to
  the new one. It keeps the sum of all counts. It also keeps "each server's
  count equals the number of tables that refer to it" whenever that held
  before.
- `createOrder` issues the next id, which is larger than every order id
  already filed. It records that id in the ledger, files the order under it
  and adds exactly one to each of the four counters.
- The creation-ordered worklist is a permutation of the orders with status
  "Ordered", sorted by timestamp. The iteration visits every table exactly
  once. The orders it finds are one segment per visited table, in visit
  order, and each segment is a permutation of that table's waiting orders.
  The worklist is the insertion of those orders in the order they were
  found. Among orders with the same timestamp it holds them in the reverse
  of that order. So within one timestamp the orders of one table are
  adjacent, and the tables appear in the reverse of the order they were
  visited.
- `generateChecks` appends checks in input order and stops at the first list
  the parser refuses. It returns true exactly when every list parses.
- `checkItemPopularity` dispatches categories 1..4 and answers -1 otherwise.

`Restaurant.Valid()` is the invariant every operation keeps:

- the tables are exactly 1..count;
- each table and each order is filed under its own number or id;
- no order id exceeds the last issued id, which the facade and the ledger
  agree on;
- no counter is negative.

`editTableCount` keeps it without requiring it: from a state that
satisfies it, every storage call succeeds.

Modules:

- `Entities`: orders, checks, tables and the ledger, as values, with the
  collaborator operations the facade calls;
- `Folds`: sums and bags over finite maps, independent of iteration order;
- `TableRange`: the storage calls of a resize and their outcome;
- `ServerCounts`: server counts and how reassignment moves them;
- `OrderList`: the worklist's contents and its timestamp insertion;
- `Checks`: the prefix of order lists that parses;
- `RestaurantModel`: the facade class.

## Assumptions

The collaborator classes (`StorageSupport`, `Table`, `Server`, `Order`,
`RestaurantStatistics`) are not part of this model. The facade's calls into
them are given these semantics:

- `putTable(new Table(n))` fails when table `n` is present; otherwise it
  stores a ready table with no server, no orders and no checks.
  `deleteTable(n)` fails when `n` is absent; otherwise it removes it.
- `putServer(new Server(id))` fails when `id` is present; otherwise it stores
  the server with count 0. `deleteServer(id)` fails when `id` is absent.
- `getTable` and `getServer` return null exactly for an absent key.
- `updateTableCount(n)` takes effect, and succeeds, only when `n` is
  non-negative and differs from the stored count.
- `updateOrderID(id)` never lowers the stored id.
- A counter update with the increment flag adds one at a menu index. It
  does nothing for an index outside the menu.
- A counter read returns the count at a menu index and -1 outside it.
- `Table.putOrder(o)` files `o` under its id, replacing any order there, and
  succeeds. `Table.deleteOrder(id)` fails when the order is absent; otherwise
  it removes it.
- `Table.setToInUse(server)` fails for a null server. Otherwise it marks the
  table in use, binds the server and adds one to that server's count.
  `Table.setToReady()` only changes the status.
- `Server.decrementTableCount` / `incrementTableCount` subtract and add one.
- A new order carries status "Ordered" and a creation timestamp.
- A table refers to its server by identifier.
- The snapshot the storage layer loads at start-up is consistent, which
  the constructor requires:
  - the tables present are exactly 1..count (none while the count is -1);
  - every table is stored under its own number;
  - every order is filed under its own id;
  - no order id is above the ledger's last order id;
  - no popularity counter is negative.

## Model

| member | source | states |
|---|---|---|
| RestaurantModel.Restaurant.constructor | RestaurantManagementSystem/src/model/Restaurant.java:17-22 | starts unauthenticated from a loaded snapshot, with the order id counter seeded from the ledger's order id |
| RestaurantModel.Restaurant.Authenticate | RestaurantManagementSystem/src/model/Restaurant.java:174-177 | the flag becomes exactly the passcode check's answer, so a failed attempt clears an earlier success; nothing else changes |
| RestaurantModel.Restaurant.EditTableCount | RestaurantManagementSystem/src/model/Restaurant.java:25-60 | refuses without authentication or for a negative count, changing nothing; first run: the tables are the outcome of putting 1..n and the count becomes n only on success; otherwise a changed count is recorded before the storage calls (so also when one fails) and the tables are the outcome of the resize calls; from a valid state it succeeds, keeps Valid, and leaves exactly 1..n with survivors untouched |
| RestaurantModel.Restaurant.PutTables | RestaurantManagementSystem/src/model/Restaurant.java:42-48 | the put loop (also the first-run loop of lines 34-38): the tables are the outcome of putting old+1..new in order, stopping at the first refused put; true exactly when all succeed; nothing else changes |
| RestaurantModel.Restaurant.DeleteTables | RestaurantManagementSystem/src/model/Restaurant.java:49-56 | the tables are the outcome of deleting old, old-1, ..., new+1 in order, stopping at the first refused delete; true exactly when all succeed |
| RestaurantModel.ResizedKeepsConsistent | RestaurantManagementSystem/src/model/Restaurant.java:40-58 | a resize that leaves 1..n with survivors untouched and new tables empty keeps the snapshot invariant, with count n |
| TableRange.Step | RestaurantManagementSystem/src/model/Restaurant.java:43-52 | a put succeeds exactly when the number is absent and a delete exactly when it is present; a successful call adds or removes exactly that number, the added table is new, and every other table is kept |
| TableRange.PutDeleteRoundTrip | RestaurantManagementSystem/src/model/Restaurant.java:44-51 | putting an absent table number succeeds, and deleting it again restores the tables |
| TableRange.Run | RestaurantManagementSystem/src/model/Restaurant.java:43-56 | the calls are made in order up to the first refused one; a run can stop only when it has a call to refuse |
| TableRange.Grow | RestaurantManagementSystem/src/model/Restaurant.java:42-48 | new-old calls, all puts of tables above old up to new, starting at old+1 and each one higher than the one before by its distance in the sequence |
| TableRange.Shrink | RestaurantManagementSystem/src/model/Restaurant.java:49-56 | old-new calls, all deletes of tables above new up to old, starting at old and each one lower than the one before by its distance in the sequence |
| TableRange.ResizeOps | RestaurantManagementSystem/src/model/Restaurant.java:41-56 | one call per table between the two counts: puts of tables above old up to new when growing, deletes of tables above new up to old when shrinking, no other table touched |
| TableRange.RunOfPutsKeeps | RestaurantManagementSystem/src/model/Restaurant.java:43-48 | a run of puts, whether it completes or stops, keeps every table already present, unchanged |
| TableRange.RunOfDeletesKeeps | RestaurantManagementSystem/src/model/Restaurant.java:50-55 | a run of deletes, whether it completes or stops, adds no table and leaves every remaining table unchanged |
| TableRange.GrowNext | RestaurantManagementSystem/src/model/Restaurant.java:43-47 | after the puts of old+1..c succeeded, a refused put of c+1 ends the whole growth there, and an accepted one completes one more put |
| TableRange.ShrinkNext | RestaurantManagementSystem/src/model/Restaurant.java:50-54 | after the deletes of old..c+1 succeeded, a refused delete of c ends the whole shrink there, and an accepted one completes one more delete |
| TableRange.GrowShrinkRoundTrip | RestaurantManagementSystem/src/model/Restaurant.java:40-56 | from exactly 1..old, growing to new and shrinking back to old restores every table, orders and checks included |
| TableRange.StoppedStaysStopped | RestaurantManagementSystem/src/model/Restaurant.java:44-46 | once a call is refused the later calls are never made: the whole run ends where the prefix stopped |
| TableRange.RunSnoc | RestaurantManagementSystem/src/model/Restaurant.java:43-47 | running one more call after a completed prefix is one more storage step |
| TableRange.GrowFromRange | RestaurantManagementSystem/src/model/Restaurant.java:33-48 | from exactly 1..old, putting old+1..new all succeeds and leaves exactly 1..new, old tables untouched, added ones new |
| TableRange.ShrinkFromRange | RestaurantManagementSystem/src/model/Restaurant.java:49-56 | from exactly 1..old, deleting old..new+1 all succeeds and leaves exactly 1..new, untouched |
| TableRange.ResizeFromRange | RestaurantManagementSystem/src/model/Restaurant.java:40-56 | from exactly 1..old with old and new non-negative, every call of the resize succeeds and the result is exactly 1..new |
| TableRange.ResizeToSameIsEmpty | RestaurantManagementSystem/src/model/Restaurant.java:40 | resizing to the current count makes no storage call and leaves the tables as they are |
| TableRange.ResizeOrder | RestaurantManagementSystem/src/model/Restaurant.java:41-56 | growth only puts, in strictly increasing table order, from old+1 to new; shrinking only deletes, in strictly decreasing order, from old to new+1 |
| Entities.Statistics.UpdateTableCountSettles | RestaurantManagementSystem/src/model/Restaurant.java:40-58 | after an update with a non-negative count the stored count is that count, a negative count changes nothing, and repeating the update changes nothing, so the final update of line 58 after the one of line 40 has no effect |
| RestaurantModel.Restaurant.AddServer | RestaurantManagementSystem/src/model/Restaurant.java:63-69 | succeeds exactly when authenticated and the id is new, adding it with count 0; otherwise nothing changes; counts keep matching the tables when no table refers to the id |
| RestaurantModel.Restaurant.DeleteServer | RestaurantManagementSystem/src/model/Restaurant.java:72-77 | succeeds exactly when authenticated and the id is present, removing it; otherwise nothing changes; the remaining counts keep matching |
| RestaurantModel.Restaurant.ChangeTableServer | RestaurantManagementSystem/src/model/Restaurant.java:90-104 | refuses an unknown table or new server, changing nothing; otherwise the table refers to the new server, the old one's count drops by one and the new one's rises by one, the sum of counts is kept, and matching counts stay matching |
| ServerCounts.MoveTable | RestaurantManagementSystem/src/model/Restaurant.java:99-102 | the old server loses one and the new one gains one; the same server is left as it was; every other server and the key set are kept |
| ServerCounts.MoveTableTotal | RestaurantManagementSystem/src/model/Restaurant.java:99-102 | moving a table between two known servers keeps the sum of all counts; from a server no longer present it adds one |
| ServerCounts.ReassignKeepsCountsMatch | RestaurantManagementSystem/src/model/Restaurant.java:99-102 | if every count equalled the number of tables referring to that server, it still does after the move |
| RestaurantModel.Restaurant.SetTableToInUse | RestaurantManagementSystem/src/model/Restaurant.java:107-114 | refuses an unknown table or server; otherwise the table is in use by that server and its count rises by one; matching counts stay matching for a table that had no server |
| ServerCounts.AssignKeepsCountsMatch | RestaurantManagementSystem/src/model/Restaurant.java:112-113 | binding a server to a table that had none, with one more on its count, keeps every count equal to its number of tables |
| RestaurantModel.Restaurant.SetTableToReady | RestaurantManagementSystem/src/model/Restaurant.java:117-124 | refuses an unknown table; otherwise only that table's status becomes ready |
| RestaurantModel.Restaurant.GetServerTables | RestaurantManagementSystem/src/model/Restaurant.java:127-140 | a number is listed exactly when that table's server is the given id, and no number twice |
| RestaurantModel.Restaurant.CreateOrder | RestaurantManagementSystem/src/model/Restaurant.java:160-171 | an unknown table is refused with id and counters unchanged; otherwise the id rises by exactly one, larger than every filed order id, the ledger records it, the order is filed under it with status Ordered, and each of the four counters gains exactly one at its index, as checkItemPopularity then reports |
| RestaurantModel.FileNewOrderKeepsConsistent | RestaurantManagementSystem/src/model/Restaurant.java:164-170 | filing an order under an id above every issued one, with the ledger advanced to it and the counters non-negative, keeps the snapshot consistent, and every earlier order id is below the new one |
| Entities.Statistics.UpdateOrderID | RestaurantManagementSystem/src/model/Restaurant.java:164 | the ledger's id never goes down and takes any id at least as large |
| Entities.Statistics.CountOrder | RestaurantManagementSystem/src/model/Restaurant.java:165-168 | each category's total of recorded items grows by exactly one when the ordered item is on that category's menu and is unchanged otherwise; order id and table count are kept |
| Entities.TotalBump | RestaurantManagementSystem/src/model/Restaurant.java:165-168 | one counter update records one more item in total for a menu index, and none for an index outside the menu |
| Entities.Bump | RestaurantManagementSystem/src/model/Restaurant.java:165-168 | adds one at the given menu index and nothing elsewhere, and nothing at all outside the menu |
| Entities.BumpNonNegative | RestaurantManagementSystem/src/model/Restaurant.java:165-168 | bumping keeps counters non-negative and the bumped count is one more, and positive |
| Entities.Table.PutOrder | RestaurantManagementSystem/src/model/Restaurant.java:170 | the order is filed under its id, every other order is kept, and nothing else about the table changes |
| RestaurantModel.Restaurant.ModifyOrder | RestaurantManagementSystem/src/model/Restaurant.java:186-197 | succeeds exactly when the table and order exist and the edit is accepted; filing the order back leaves the tables as they were |
| RestaurantModel.Restaurant.DeleteOrder | RestaurantManagementSystem/src/model/Restaurant.java:200-206 | succeeds exactly when the table and order exist, removing only that order |
| RestaurantModel.Restaurant.ObtainOrderListByCreation | RestaurantManagementSystem/src/model/Restaurant.java:209-238 | the result is a permutation of the orders with status Ordered on all tables, holds no other status and is sorted by timestamp; every table is visited exactly once, and the found orders are one segment per visit, each a permutation of that table's waiting orders; the result is the insertion of the found orders in order; for each timestamp, its orders are the reverse of the per-table segments' orders of that timestamp, concatenated in visit order |
| OrderList.PassNext | RestaurantManagementSystem/src/model/Restaurant.java:214-235 | one more table of the iteration is passed: the returned table number n was still to visit, the tables still to visit become all but n, n is appended to the visited ones, the orders found before stay a prefix, and the new segment, appended to the segments, holds exactly n's waiting orders; the traversal state stays consistent |
| OrderList.TraverseStep | RestaurantManagementSystem/src/model/Restaurant.java:214-235 | a table's pass as CollectWaiting states it extends the traversal state by that table |
| OrderList.BagStep | RestaurantManagementSystem/src/model/Restaurant.java:214-235 | what a table's pass adds to the list is exactly what leaves the bag of waiting orders still to visit |
| OrderList.PassStep | RestaurantManagementSystem/src/model/Restaurant.java:214-235 | a passed table leaves the rest, is visited once, and its segment is appended to the found orders |
| OrderList.PassesDone | RestaurantManagementSystem/src/model/Restaurant.java:214-236 | once no table is left, every table has been visited exactly once |
| OrderList.TraversalDone | RestaurantManagementSystem/src/model/Restaurant.java:214-237 | a finished traversal yields a sorted permutation of every waiting order, each table visited once, with equal-timestamp orders reversed and each table's kept together |
| OrderList.ConcatTies | RestaurantManagementSystem/src/model/Restaurant.java:214-236 | the orders of one timestamp in the found orders are each segment's orders of that timestamp, segment after segment |
| OrderList.TiesBySegmentAt | RestaurantManagementSystem/src/model/Restaurant.java:214-236 | the i-th piece is exactly the i-th segment's orders of that timestamp |
| OrderList.CollectWaiting | RestaurantManagementSystem/src/model/Restaurant.java:216-235 | one table's pass keeps the orders found before as a prefix and appends exactly that table's waiting orders; the list is the insertion of the extended sequence and holds no order of another status |
| OrderList.CollectNext | RestaurantManagementSystem/src/model/Restaurant.java:217-234 | one entry of the table's orders is consumed: the returned id was pending and the pending entries become all but id; the found orders gain that entry's order exactly when its status is Ordered; what the list gains is exactly what leaves the bag of waiting orders still to visit, and the list stays the insertion of the found orders |
| OrderList.CollectOne | RestaurantManagementSystem/src/model/Restaurant.java:219-234 | a waiting order is inserted and appended to the found sequence; an order of any other status changes nothing |
| OrderList.InsertTies | RestaurantManagementSystem/src/model/Restaurant.java:223-233 | an insertion puts the order ahead of every order already there with its timestamp and leaves the orders of every other timestamp as they were |
| OrderList.InsertAllTies | RestaurantManagementSystem/src/model/Restaurant.java:214-236 | for each timestamp, the orders of the worklist with that timestamp are those found with it, in the reverse order |
| OrderList.InsertAllKeepsTiesReversed | RestaurantManagementSystem/src/model/Restaurant.java:214-236 | the same for every timestamp at once |
| OrderList.InsertWaiting | RestaurantManagementSystem/src/model/Restaurant.java:219-233 | the scan puts the order in front of the first element with a timestamp at least as large, or at the end, keeping every other element |
| OrderList.InsertPos | RestaurantManagementSystem/src/model/Restaurant.java:223-231 | every element before the insertion point is strictly earlier and the one at it, if any, is not |
| OrderList.InsertPosUnique | RestaurantManagementSystem/src/model/Restaurant.java:223-231 | that characterisation pins the insertion point down |
| OrderList.InsertByTimestamp | RestaurantManagementSystem/src/model/Restaurant.java:227-233 | one element longer, the same elements plus the order, the order at the insertion point, the prefix kept and the suffix shifted by one |
| OrderList.InsertKeepsSorted | RestaurantManagementSystem/src/model/Restaurant.java:223-233 | inserting into a list sorted by timestamp keeps it sorted |
| OrderList.InsertAheadOfTies | RestaurantManagementSystem/src/model/Restaurant.java:225-227 | an order is inserted ahead of an already collected order with the same timestamp |
| OrderList.InsertAll | RestaurantManagementSystem/src/model/Restaurant.java:214-236 | inserting the found orders one by one gives a sorted permutation of them |
| OrderList.InsertAllSnoc | RestaurantManagementSystem/src/model/Restaurant.java:221-233 | one more found order is one more insertion into the list built so far |
| RestaurantModel.Restaurant.GenerateChecks | RestaurantManagementSystem/src/model/Restaurant.java:278-288 | refuses an unknown table; otherwise appends, in order, the checks of the longest prefix of the lists that parses, and returns true exactly when every list parses |
| Checks.ParsedPrefix | RestaurantManagementSystem/src/model/Restaurant.java:282-286 | each appended check is its list's parse, and the list after the prefix, if any, is refused |
| Checks.ParsedPrefixComplete | RestaurantManagementSystem/src/model/Restaurant.java:282-287 | the appends cover every list exactly when every list parses |
| Checks.ParsedPrefixUnique | RestaurantManagementSystem/src/model/Restaurant.java:282-286 | any sequence of checks with that characterisation is the parsed prefix |
| RestaurantModel.Restaurant.CheckItemPopularity | RestaurantManagementSystem/src/model/Restaurant.java:290-308 | categories 1 to 4 read the drink, meal, appetizer and side counters; any other category gives -1; the answer is never below -1 |
| Entities.CountAt | RestaurantManagementSystem/src/model/Restaurant.java:293 | the count at a menu index, -1 outside the menu; on non-negative counters the answer is non-negative exactly for a menu index, so -1 always means "not on the menu" |

## Left out

- Persistence: the constructor's load through the storage layer (lines
  20-21) is replaced by the initial snapshot given to the constructor, and
  `dumpToFile` (lines 180-182) is not modelled. Both are file I/O in classes
  that are not part of this model.
- The passcode check (line 175) is an uninterpreted predicate fixed at
  construction, because its storage and comparison are in the storage layer.
- String rendering is not modelled: `getTableInfo`, `getServersAndNumberOfTables`,
  `getTablesChecks`, `getTablesOrders` and the `toString` calls are
  presentation only. `GetServerTables` returns the listed table numbers,
  without the text around them.
- `submitFeedback` and `getServerFeedback` (lines 142-157) are not modelled.
  They forward to `Server`, which is not part of this model.
  `submitFeedback` dereferences a missing server, and `getServerFeedback`
  answers only when not authenticated, which looks inverted.
- RestaurantModel.Restaurant.ModifyOrder: the body of `Order.modifyOrder`
  (its field dispatch and its counter rebalancing) is not visible.
  Acceptance is a parameter and the order is filed back unchanged.
- RestaurantModel.Restaurant.GenerateChecks: the parser inside
  `Table.addCheck` is not visible and is a parameter.
- RestaurantModel.Restaurant.ChangeTableServer: a table with no server makes
  line 100 dereference null. The model refuses that case with no change
  instead of modelling the crash.
- `getTablesChecks` and `getTablesOrders` on an unknown table dereference
  null (lines 254-255, 268-269); they are left out with the rendering.
- RestaurantModel.Restaurant.EditTableCount: the call is not atomic. A
  refused storage call in the resize branch returns after the new count is
  recorded (line 40), so the ledger and the tables then disagree. The model
  states this behaviour as it is; it proves no atomicity, and from a valid
  state no call is refused.
- RestaurantModel.Restaurant.CreateOrder: the Java `int` id counter would
  wrap after 2^31 - 1 orders; the model's id is unbounded. The clock
  reading for the new order's timestamp is a parameter.
- A `Server` object deleted while a table still refers to it keeps
  receiving count changes in Java. In the model a table holds the server's
  id, and such a change falls on no server (`ServerCounts.MoveTable` leaves
  an absent old server alone), or on a new server that reuses the id.
- Iteration order of the storage layer's table and order collections is
  unspecified. The loops pick any remaining key, and every property is
  proved for every order of picks.
