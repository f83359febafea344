/** The creation-ordered worklist behind obtainOrderListByCreation: which
    orders it collects, and the insertion that keeps it sorted by timestamp. */
module OrderList {
  import opened Entities
  import opened Folds

  ghost predicate SortedByTimestamp(r: seq<Order>)
  {
    forall i, j :: 0 <= i < j < |r| ==> r[i].timestamp <= r[j].timestamp
  }

  /** The orders of one table that the worklist takes. */
  ghost function WaitingOrder(o: Order): multiset<Order>
  {
    if o.status == Ordered then multiset{o} else multiset{}
  }

  ghost function WaitingOrdersOf(t: Table): multiset<Order>
  {
    BagOf(t.orders, WaitingOrder)
  }

  /** Every order with status "Ordered", on every table. */
  ghost function WaitingOrders(tables: map<int, Table>): multiset<Order>
  {
    BagOf(tables, WaitingOrdersOf)
  }

  /** The index at which the worklist receives o: the first element whose
      timestamp is at least o's, or the end when there is none. */
  function InsertPos(r: seq<Order>, o: Order): (p: nat)
    ensures p <= |r|
    ensures forall j :: 0 <= j < p ==> r[j].timestamp < o.timestamp
    ensures p < |r| ==> r[p].timestamp >= o.timestamp
  {
    if r == [] || r[0].timestamp >= o.timestamp then 0 else 1 + InsertPos(r[1..], o)
  }

  /** The first index whose timestamp is at least o's is unique. */
  lemma InsertPosUnique(r: seq<Order>, o: Order, i: nat)
    requires i <= |r|
    requires forall j :: 0 <= j < i ==> r[j].timestamp < o.timestamp
    requires i < |r| ==> r[i].timestamp >= o.timestamp
    ensures InsertPos(r, o) == i
  {
  }

  /** o spliced into r at p: r's first p elements, then o, then the rest. */
  lemma SpliceAt(r: seq<Order>, p: nat, o: Order)
    requires p <= |r|
    ensures |r[..p] + [o] + r[p..]| == |r| + 1
    ensures multiset(r[..p] + [o] + r[p..]) == multiset(r) + multiset{o}
    ensures (r[..p] + [o] + r[p..])[p] == o
    ensures forall j :: 0 <= j < p ==> (r[..p] + [o] + r[p..])[j] == r[j]
    ensures forall j :: p <= j < |r| ==> (r[..p] + [o] + r[p..])[j + 1] == r[j]
  {
    var front, back := r[..p], r[p..];
    assert r == front + back;
    assert multiset(front + [o] + back) == multiset(front) + multiset{o} + multiset(back);
  }

  function InsertByTimestamp(r: seq<Order>, o: Order): (s: seq<Order>)
    ensures |s| == |r| + 1
    ensures multiset(s) == multiset(r) + multiset{o}
    ensures s[InsertPos(r, o)] == o
    ensures forall j :: 0 <= j < InsertPos(r, o) ==> s[j] == r[j]
    ensures forall j :: InsertPos(r, o) <= j < |r| ==> s[j + 1] == r[j]
  {
    var p := InsertPos(r, o);
    SpliceAt(r, p, o);
    r[..p] + [o] + r[p..]
  }

  /** Inserting at InsertPos keeps a sorted worklist sorted. */
  lemma InsertKeepsSorted(r: seq<Order>, o: Order)
    requires SortedByTimestamp(r)
    ensures SortedByTimestamp(InsertByTimestamp(r, o))
  {
  }

  /** An order inserted into a sorted worklist goes ahead of every order
      already there with the same timestamp: a later-found order precedes
      earlier-found ones it ties with. */
  lemma InsertAheadOfTies(r: seq<Order>, o: Order, j: nat)
    requires SortedByTimestamp(r)
    requires j < |r| && r[j].timestamp == o.timestamp
    ensures InsertPos(r, o) <= j
    ensures InsertByTimestamp(r, o)[j + 1] == r[j]
  {
  }

  /** The orders of s whose timestamp is t, in their order in s. */
  function WithTimestamp(s: seq<Order>, t: int): seq<Order>
    decreases |s|
  {
    if s == [] then []
    else WithTimestamp(s[..|s| - 1], t) + (if s[|s| - 1].timestamp == t then [s[|s| - 1]] else [])
  }

  function Reversed(s: seq<Order>): (r: seq<Order>)
    ensures |r| == |s|
    ensures forall i :: 0 <= i < |s| ==> r[i] == s[|s| - 1 - i]
    decreases |s|
  {
    if s == [] then [] else [s[|s| - 1]] + Reversed(s[..|s| - 1])
  }

  lemma {:induction false} WithTimestampAppend(a: seq<Order>, b: seq<Order>, t: int)
    ensures WithTimestamp(a + b, t) == WithTimestamp(a, t) + WithTimestamp(b, t)
    decreases |b|
  {
    if b != [] {
      assert (a + b)[..|a + b| - 1] == a + b[..|b| - 1];
      WithTimestampAppend(a, b[..|b| - 1], t);
    } else {
      assert a + b == a;
    }
  }

  lemma {:induction false} WithTimestampNone(s: seq<Order>, t: int)
    requires forall j :: 0 <= j < |s| ==> s[j].timestamp < t
    ensures WithTimestamp(s, t) == []
    decreases |s|
  {
    if s != [] {
      var init := s[..|s| - 1];
      WithTimestampNone(init, t);
      assert s[|s| - 1].timestamp < t;
    }
  }

  lemma WithTimestampSplice(front: seq<Order>, o: Order, back: seq<Order>, t: int)
    ensures WithTimestamp(front + [o] + back, t) ==
      WithTimestamp(front, t) + (if o.timestamp == t then [o] else []) + WithTimestamp(back, t)
  {
    WithTimestampAppend(front + [o], back, t);
    WithTimestampAppend(front, [o], t);
    assert [o][..0] == [];
  }

  /** Splicing o in where every order before it is strictly earlier. */
  lemma SpliceTies(r: seq<Order>, p: nat, o: Order, t: int)
    requires p <= |r|
    requires forall j :: 0 <= j < p ==> r[j].timestamp < o.timestamp
    ensures WithTimestamp(r[..p] + [o] + r[p..], t) ==
      (if o.timestamp == t then [o] else []) + WithTimestamp(r, t)
  {
    var front, back := r[..p], r[p..];
    assert r == front + back;
    WithTimestampSplice(front, o, back, t);
    WithTimestampAppend(front, back, t);
    if o.timestamp == t {
      WithTimestampNone(front, t);
    }
  }

  /** An insertion puts o in front of every order that already had its
      timestamp, and leaves the other timestamps' orders as they were. */
  lemma InsertTies(r: seq<Order>, o: Order, t: int)
    ensures WithTimestamp(InsertByTimestamp(r, o), t) ==
      (if o.timestamp == t then [o] else []) + WithTimestamp(r, t)
  {
    SpliceTies(r, InsertPos(r, o), o, t);
  }

  /** Among orders with equal timestamps the worklist holds them in the
      reverse of the order they were found: each later one is inserted in
      front of the earlier ones. */
  lemma {:induction false} InsertAllTies(found: seq<Order>, t: int)
    ensures WithTimestamp(InsertAll(found), t) == Reversed(WithTimestamp(found, t))
    decreases |found|
  {
    if found != [] {
      var prefix, last := found[..|found| - 1], found[|found| - 1];
      assert found == prefix + [last];
      InsertAllTies(prefix, t);
      InsertAllSnoc(prefix, last);
      InsertTies(InsertAll(prefix), last, t);
      var w := WithTimestamp(prefix, t);
      if last.timestamp == t {
        assert WithTimestamp(found, t) == w + [last];
        assert (w + [last])[..|w|] == w;
        assert Reversed(w + [last]) == [last] + Reversed(w);
      } else {
        assert WithTimestamp(found, t) == w;
      }
    }
  }

  /** The same for every timestamp at once. */
  lemma InsertAllKeepsTiesReversed(found: seq<Order>)
    ensures forall t :: WithTimestamp(InsertAll(found), t) == Reversed(WithTimestamp(found, t))
  {
    forall t
      ensures WithTimestamp(InsertAll(found), t) == Reversed(WithTimestamp(found, t))
    {
      InsertAllTies(found, t);
    }
  }

  /** One more found order is one more insertion. */
  lemma InsertAllSnoc(found: seq<Order>, o: Order)
    ensures InsertAll(found + [o]) == InsertByTimestamp(InsertAll(found), o)
  {
  }

  /** The scan obtainOrderListByCreation runs for each waiting order: o goes
      in front of the first element whose timestamp is at least its own, or
      at the end when the scan finds none. */
  method InsertWaiting(r: seq<Order>, o: Order) returns (s: seq<Order>)
    ensures s == InsertByTimestamp(r, o)
    ensures forall x :: x in s <==> x in r || x == o
  {
    s := r;
    var added := false;
    var i := 0;
    while i < |s|
      invariant 0 <= i <= |r| && s == r
      invariant forall j :: 0 <= j < i ==> r[j].timestamp < o.timestamp
    {
      if s[i].timestamp >= o.timestamp {
        InsertPosUnique(r, o, i);
        s := s[..i] + [o] + s[i..];
        added := true;
        break;
      }
      i := i + 1;
    }
    if !added {
      InsertPosUnique(r, o, |r|);
      assert r[..|r|] == r;
      s := s + [o];
    }
    forall x
      ensures x in s <==> x in r || x == o
    {
      assert x in s <==> x in multiset(s);
      assert x in r <==> x in multiset(r);
    }
  }

  /** The worklist built by inserting the orders in the order they are found. */
  function InsertAll(found: seq<Order>): (r: seq<Order>)
    ensures multiset(r) == multiset(found)
    ensures SortedByTimestamp(r)
  {
    if found == [] then []
    else
      var prefix, last := found[..|found| - 1], found[|found| - 1];
      assert found == prefix + [last];
      InsertKeepsSorted(InsertAll(prefix), last);
      InsertByTimestamp(InsertAll(prefix), last)
  }

  /** The pass obtainOrderListByCreation makes over one table's orders:
      every waiting order is inserted, in the order the map yields them. */
  method CollectWaiting(r: seq<Order>, ghost found: seq<Order>, orders: map<int, Order>)
    returns (s: seq<Order>, ghost foundAfter: seq<Order>)
    requires r == InsertAll(found)
    requires forall x :: x in r ==> x.status == Ordered
    ensures s == InsertAll(foundAfter)
    ensures |found| <= |foundAfter| && foundAfter[..|found|] == found
    ensures multiset(foundAfter[|found|..]) == BagOf(orders, WaitingOrder)
    ensures multiset(s) == multiset(r) + BagOf(orders, WaitingOrder)
    ensures forall x :: x in s ==> x.status == Ordered
  {
    s, foundAfter := r, found;
    var pending := orders;
    while pending != map[]
      invariant multiset(s) + BagOf(pending, WaitingOrder) == multiset(r) + BagOf(orders, WaitingOrder)
      invariant s == InsertAll(foundAfter)
      invariant forall x :: x in s ==> x.status == Ordered
      invariant |found| <= |foundAfter| && foundAfter[..|found|] == found
      decreases |pending|
    {
      ghost var id;
      pending, s, foundAfter, id := CollectNext(pending, s, foundAfter, |found|);
    }
    assert BagOf(pending, WaitingOrder) == multiset{};
    SplitSeq(foundAfter, |found|);
    assert multiset(s) == multiset(found) + multiset(foundAfter[|found|..]);
    MultisetCancel(multiset(found), multiset(foundAfter[|found|..]), BagOf(orders, WaitingOrder));
  }

  /** One step of the pass: some order still pending is taken out of the
      map and inserted when it is waiting, skipped otherwise. */
  method CollectNext(pending: map<int, Order>, r: seq<Order>, ghost found: seq<Order>, ghost n: nat)
    returns (rest: map<int, Order>, s: seq<Order>, ghost foundAfter: seq<Order>, ghost id: int)
    requires pending != map[]
    requires r == InsertAll(found)
    requires forall x :: x in r ==> x.status == Ordered
    requires n <= |found|
    ensures id in pending && rest == pending - {id}
    ensures foundAfter == found + (if pending[id].status == Ordered then [pending[id]] else [])
    ensures |rest| < |pending|
    ensures multiset(s) + BagOf(rest, WaitingOrder) == multiset(r) + BagOf(pending, WaitingOrder)
    ensures s == InsertAll(foundAfter)
    ensures forall x :: x in s ==> x.status == Ordered
    ensures |foundAfter| >= n && foundAfter[..n] == found[..n]
  {
    // w only gives the `:|` below its witness.
    ghost var w := SomeKey(pending);
    var k :| k in pending;
    id := k;
    WaitingOrderPick(pending, k);
    var o := pending[k];
    s, foundAfter := CollectOne(r, found, o);
    AppendKeepsPrefix(found, if o.status == Ordered then [o] else [], n);
    RemoveOneKey(pending, k);
    rest := pending - {k};
  }

  /** One order of the pass: inserted when it is waiting, skipped otherwise. */
  method CollectOne(r: seq<Order>, ghost found: seq<Order>, o: Order)
    returns (s: seq<Order>, ghost foundAfter: seq<Order>)
    requires r == InsertAll(found)
    requires forall x :: x in r ==> x.status == Ordered
    ensures s == InsertAll(foundAfter)
    ensures foundAfter == found + (if o.status == Ordered then [o] else [])
    ensures multiset(s) == multiset(r) + WaitingOrder(o)
    ensures forall x :: x in s ==> x.status == Ordered
  {
    if o.status == Ordered {
      InsertAllSnoc(found, o);
      s := InsertWaiting(r, o);
      foundAfter := found + [o];
    } else {
      s, foundAfter := r, found;
      assert found + [] == found;
    }
  }

  /** Appending keeps every prefix. */
  lemma AppendKeepsPrefix(a: seq<Order>, b: seq<Order>, n: nat)
    requires n <= |a|
    ensures |a + b| >= n && (a + b)[..n] == a[..n]
  {
  }

  lemma MultisetCancel(a: multiset<Order>, x: multiset<Order>, y: multiset<Order>)
    requires a + x == a + y
    ensures x == y
  {
    assert forall z :: x[z] == (a + x)[z] - a[z] && y[z] == (a + y)[z] - a[z];
  }

  /** The orders found over a whole traversal, one table's segment after another. */
  function Concat(segs: seq<seq<Order>>): seq<Order>
    decreases |segs|
  {
    if segs == [] then [] else Concat(segs[..|segs| - 1]) + segs[|segs| - 1]
  }

  /** Each segment's orders with timestamp t, segment by segment. */
  function TiesBySegment(segs: seq<seq<Order>>, t: int): seq<seq<Order>>
    decreases |segs|
  {
    if segs == [] then [] else TiesBySegment(segs[..|segs| - 1], t) + [WithTimestamp(segs[|segs| - 1], t)]
  }

  /** Segment i of TiesBySegment is segment i's orders with timestamp t. */
  lemma {:induction false} TiesBySegmentAt(segs: seq<seq<Order>>, t: int)
    ensures |TiesBySegment(segs, t)| == |segs|
    ensures forall i :: 0 <= i < |segs| ==> TiesBySegment(segs, t)[i] == WithTimestamp(segs[i], t)
    decreases |segs|
  {
    if segs != [] {
      var init := segs[..|segs| - 1];
      TiesBySegmentAt(init, t);
      assert forall i :: 0 <= i < |init| ==> segs[i] == init[i];
    }
  }

  /** Picking the orders of timestamp t out of a traversal picks them out of
      each segment in turn: within one timestamp, the orders of one segment
      stay together. */
  lemma {:induction false} ConcatTies(segs: seq<seq<Order>>, t: int)
    ensures WithTimestamp(Concat(segs), t) == Concat(TiesBySegment(segs, t))
    decreases |segs|
  {
    if segs != [] {
      var init, last := segs[..|segs| - 1], segs[|segs| - 1];
      ConcatTies(init, t);
      WithTimestampAppend(Concat(init), last, t);
      var ties := TiesBySegment(init, t);
      assert (ties + [WithTimestamp(last, t)])[..|ties|] == ties;
    }
  }

  /** What obtainOrderListByCreation's traversal of the tables has done so
      far: `rest` is what is left of `tables`; `visited` lists the table
      numbers already passed, each once; and `segs[i]` is what the pass over
      table visited[i] appended, exactly that table's waiting orders. */
  ghost predicate PassesSoFar(tables: map<int, Table>, rest: map<int, Table>,
                              visited: seq<int>, segs: seq<seq<Order>>)
  {
    && |segs| == |visited|
    && (forall k :: k in rest ==> k in tables && rest[k] == tables[k])
    && (forall k :: k in tables ==> k in rest || k in visited)
    && (forall i :: 0 <= i < |visited| ==> visited[i] in tables && visited[i] !in rest)
    && (forall i, j :: 0 <= i < j < |visited| ==> visited[i] != visited[j])
    && (forall i :: 0 <= i < |visited| ==> multiset(segs[i]) == WaitingOrdersOf(tables[visited[i]]))
  }

  /** A whole traversal: every table visited exactly once, and one segment
      per visit holding exactly that table's waiting orders. */
  ghost predicate TablePasses(tables: map<int, Table>, visited: seq<int>, segs: seq<seq<Order>>)
  {
    && |segs| == |visited|
    && (forall k :: k in tables <==> k in visited)
    && (forall i, j :: 0 <= i < j < |visited| ==> visited[i] != visited[j])
    && (forall i :: 0 <= i < |visited| ==> multiset(segs[i]) == WaitingOrdersOf(tables[visited[i]]))
  }

  /** Nothing is passed before the traversal starts. */
  lemma PassesStart(tables: map<int, Table>)
    ensures PassesSoFar(tables, tables, [], [])
    ensures Concat([]) == []
  {
  }

  /** One more table passed: it leaves `rest`, joins `visited`, and its
      segment is appended to the traversal. */
  lemma PassStep(tables: map<int, Table>, rest: map<int, Table>, visited: seq<int>,
                 segs: seq<seq<Order>>, n: int, seg: seq<Order>)
    requires PassesSoFar(tables, rest, visited, segs)
    requires n in rest && multiset(seg) == WaitingOrdersOf(rest[n])
    ensures PassesSoFar(tables, rest - {n}, visited + [n], segs + [seg])
    ensures Concat(segs + [seg]) == Concat(segs) + seg
  {
    assert (segs + [seg])[..|segs|] == segs;
  }

  /** Once nothing is left, every table has been passed exactly once. */
  lemma PassesDone(tables: map<int, Table>, visited: seq<int>, segs: seq<seq<Order>>)
    requires PassesSoFar(tables, map[], visited, segs)
    ensures TablePasses(tables, visited, segs)
  {
  }

  /** The worklist and traversal state of obtainOrderListByCreation after
      passing every table of `tables` that is not in `rest`. */
  ghost predicate Traversed(tables: map<int, Table>, rest: map<int, Table>, r: seq<Order>,
                            found: seq<Order>, visited: seq<int>, segs: seq<seq<Order>>)
  {
    && multiset(r) + WaitingOrders(rest) == WaitingOrders(tables)
    && r == InsertAll(found)
    && (forall x :: x in r ==> x.status == Ordered)
    && PassesSoFar(tables, rest, visited, segs)
    && found == Concat(segs)
  }

  /** One table of the traversal: some table still to visit is passed, its
      waiting orders inserted, and it leaves `rest`. */
  method PassNext(ghost tables: map<int, Table>, rest: map<int, Table>, r: seq<Order>,
                  ghost found: seq<Order>, ghost visited: seq<int>, ghost segs: seq<seq<Order>>)
    returns (rest': map<int, Table>, r': seq<Order>, ghost found': seq<Order>,
             ghost visited': seq<int>, ghost segs': seq<seq<Order>>, ghost n: int)
    requires rest != map[]
    requires Traversed(tables, rest, r, found, visited, segs)
    ensures n in rest && rest' == rest - {n}
    ensures visited' == visited + [n]
    ensures |found| <= |found'| && found'[..|found|] == found
    ensures segs' == segs + [found'[|found|..]]
    ensures multiset(found'[|found|..]) == WaitingOrdersOf(rest[n])
    ensures Traversed(tables, rest', r', found', visited', segs')
    ensures |rest'| < |rest|
  {
    // w only gives the `:|` below its witness.
    ghost var w := SomeKey(rest);
    var k :| k in rest;
    n := k;
    r', found' := CollectWaiting(r, found, rest[k].orders);
    TraverseStep(tables, rest, r, found, visited, segs, k, r', found');
    visited', segs' := visited + [k], segs + [found'[|found|..]];
    RemoveOneKey(rest, k);
    rest' := rest - {k};
  }

  /** One table's pass, as CollectWaiting states it, extends the traversal by that table. */
  lemma TraverseStep(tables: map<int, Table>, rest: map<int, Table>, r: seq<Order>,
                     found: seq<Order>, visited: seq<int>, segs: seq<seq<Order>>,
                     n: int, r': seq<Order>, found': seq<Order>)
    requires multiset(r) + WaitingOrders(rest) == WaitingOrders(tables)
    requires PassesSoFar(tables, rest, visited, segs) && found == Concat(segs)
    requires n in rest
    requires r' == InsertAll(found')
    requires |found| <= |found'| && found'[..|found|] == found
    requires multiset(found'[|found|..]) == BagOf(rest[n].orders, WaitingOrder)
    requires multiset(r') == multiset(r) + BagOf(rest[n].orders, WaitingOrder)
    requires forall x :: x in r' ==> x.status == Ordered
    ensures Traversed(tables, rest - {n}, r', found', visited + [n], segs + [found'[|found|..]])
  {
    BagStep(tables, rest, r, n, r');
    ghost var seg := found'[|found|..];
    SplitSeq(found', |found|);
    assert multiset(seg) == WaitingOrdersOf(rest[n]);
    PassStep(tables, rest, visited, segs, n, seg);
  }

  /** What one pass adds to the worklist is what leaves the bag of waiting
      orders still to visit. */
  lemma BagStep(tables: map<int, Table>, rest: map<int, Table>, r: seq<Order>, n: int, r': seq<Order>)
    requires multiset(r) + WaitingOrders(rest) == WaitingOrders(tables)
    requires n in rest
    requires multiset(r') == multiset(r) + BagOf(rest[n].orders, WaitingOrder)
    ensures multiset(r') + WaitingOrders(rest - {n}) == WaitingOrders(tables)
  {
    WaitingOrdersPick(rest, n);
  }

  /** A finished traversal: the worklist is the sorted permutation of every
      waiting order, each table was passed exactly once, and orders with
      equal timestamps come out in the reverse of the order they were found,
      each table's together. */
  lemma TraversalDone(tables: map<int, Table>, r: seq<Order>, found: seq<Order>,
                      visited: seq<int>, segs: seq<seq<Order>>)
    requires Traversed(tables, map[], r, found, visited, segs)
    ensures multiset(r) == WaitingOrders(tables)
    ensures forall i :: 0 <= i < |r| ==> r[i].status == Ordered
    ensures SortedByTimestamp(r)
    ensures TablePasses(tables, visited, segs)
    ensures forall t :: WithTimestamp(r, t) == Reversed(WithTimestamp(found, t))
    ensures forall t :: WithTimestamp(r, t) == Reversed(Concat(TiesBySegment(segs, t)))
  {
    PassesDone(tables, visited, segs);
    InsertAllKeepsTiesReversed(found);
    assert WaitingOrders(map[]) == multiset{};
    forall t
      ensures WithTimestamp(r, t) == Reversed(Concat(TiesBySegment(segs, t)))
    {
      ConcatTies(segs, t);
    }
  }

  /** A sequence is its prefix followed by its suffix. */
  lemma SplitSeq(a: seq<Order>, n: nat)
    requires n <= |a|
    ensures a == a[..n] + a[n..]
  {
  }

  /** Taking the waiting orders of a map one key at a time. */
  lemma WaitingOrdersPick(tables: map<int, Table>, k: int)
    requires k in tables
    ensures WaitingOrders(tables) == WaitingOrdersOf(tables[k]) + WaitingOrders(tables - {k})
  {
    BagOfPick(tables, WaitingOrdersOf, k);
  }

  lemma WaitingOrderPick(orders: map<int, Order>, id: int)
    requires id in orders
    ensures BagOf(orders, WaitingOrder) == WaitingOrder(orders[id]) + BagOf(orders - {id}, WaitingOrder)
  {
    BagOfPick(orders, WaitingOrder, id);
  }
}
