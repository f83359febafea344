/** The table counts servers carry, and how the facade's reassignments move
    them. A table refers to its server by identifier; a server's count is
    meant to equal the number of tables that refer to it. */
module ServerCounts {
  import opened Entities
  import opened Folds

  /** The numbers of the tables that refer to server s. */
  ghost function TablesOf(tables: map<int, Table>, s: string): set<int>
  {
    set k | k in tables && tables[k].server == Some(s)
  }

  /** Every server's count is the number of tables that refer to it. */
  ghost predicate CountsMatch(tables: map<int, Table>, servers: map<string, int>)
  {
    forall s :: s in servers ==> servers[s] == |TablesOf(tables, s)|
  }

  /** The sum of all server table counts. */
  ghost function TotalCount(servers: map<string, int>): int
  {
    SumOf(servers, c => c)
  }

  /** The count changes changeTableServer makes when a table moves from
      oldServer to newServer: the old server (unless it is no longer in the
      collection) loses one, the new server gains one. */
  function MoveTable(servers: map<string, int>, oldServer: string, newServer: string): (r: map<string, int>)
    requires newServer in servers
    ensures r.Keys == servers.Keys
    ensures oldServer != newServer && oldServer in servers ==>
      r[oldServer] == servers[oldServer] - 1 && r[newServer] == servers[newServer] + 1
    ensures oldServer == newServer ==> r[newServer] == servers[newServer]
    ensures oldServer !in servers ==> r[newServer] == servers[newServer] + 1
    ensures forall s :: s in servers && s != oldServer && s != newServer ==> r[s] == servers[s]
  {
    var dec := if oldServer in servers then servers[oldServer := servers[oldServer] - 1] else servers;
    dec[newServer := dec[newServer] + 1]
  }

  /** Moving a table between two servers of the collection leaves the sum of
      all counts unchanged; moving it away from a server that is no longer in
      the collection adds one. */
  lemma MoveTableTotal(servers: map<string, int>, oldServer: string, newServer: string)
    requires newServer in servers
    ensures oldServer in servers ==> TotalCount(MoveTable(servers, oldServer, newServer)) == TotalCount(servers)
    ensures oldServer !in servers ==> TotalCount(MoveTable(servers, oldServer, newServer)) == TotalCount(servers) + 1
  {
    var dec := if oldServer in servers then servers[oldServer := servers[oldServer] - 1] else servers;
    if oldServer in servers {
      SumOfUpdate(servers, c => c, oldServer, servers[oldServer] - 1);
    }
    SumOfUpdate(dec, c => c, newServer, dec[newServer] + 1);
  }

  /** changeTableServer keeps every server's count equal to the number of
      tables that refer to it. */
  lemma ReassignKeepsCountsMatch(tables: map<int, Table>, servers: map<string, int>, k: int, newServer: string)
    requires CountsMatch(tables, servers)
    requires k in tables && tables[k].server.Some?
    requires newServer in servers
    ensures CountsMatch(tables[k := tables[k].(server := Some(newServer))],
                        MoveTable(servers, tables[k].server.value, newServer))
  {
    var oldServer := tables[k].server.value;
    var t' := tables[k := tables[k].(server := Some(newServer))];
    var r := MoveTable(servers, oldServer, newServer);
    forall s | s in r
      ensures r[s] == |TablesOf(t', s)|
    {
      if s == oldServer && s != newServer {
        assert TablesOf(t', s) == TablesOf(tables, s) - {k};
      } else if s == newServer && s != oldServer {
        assert TablesOf(t', s) == TablesOf(tables, s) + {k};
      } else {
        assert TablesOf(t', s) == TablesOf(tables, s);
      }
    }
  }

  /** setTableToInUse on a table with no server keeps every count equal to
      the number of tables that refer to the server. */
  lemma AssignKeepsCountsMatch(tables: map<int, Table>, servers: map<string, int>, k: int, s: string)
    requires CountsMatch(tables, servers)
    requires k in tables && tables[k].server == None
    requires s in servers
    ensures CountsMatch(tables[k := tables[k].(server := Some(s), status := InUse)],
                        servers[s := servers[s] + 1])
  {
    var t' := tables[k := tables[k].(server := Some(s), status := InUse)];
    var r := servers[s := servers[s] + 1];
    forall x | x in r
      ensures r[x] == |TablesOf(t', x)|
    {
      if x == s {
        assert TablesOf(t', x) == TablesOf(tables, x) + {k};
      } else {
        assert TablesOf(t', x) == TablesOf(tables, x);
      }
    }
  }
}
