/** Loading into the warehouse, as the sequence of statements the session sends. */
module Loading {
  import opened Values
  import opened Frames

  /** The statements of the load, without their SQL text: DROP TABLE IF EXISTS, CREATE TABLE,
      a parameterised INSERT with its seven values, and a commit. */
  datatype Command = Drop | Create | Insert(params: seq<Value>) | Commit

  /** The per-row part of the load: for each row in order, its insert and a commit. */
  function InsertSteps(batch: seq<Classified>): (s: seq<Command>)
    ensures |s| == 2 * |batch|
  {
    if batch == [] then [] else [Insert(Tuple(batch[0])), Commit] + InsertSteps(batch[1..])
  }

  /** The insert of row `i` is at `2 * i`, its commit right after. */
  lemma {:induction false} InsertStepsAt(batch: seq<Classified>, i: nat)
    requires i < |batch|
    ensures InsertSteps(batch)[2 * i] == Insert(Tuple(batch[i]))
    ensures InsertSteps(batch)[2 * i + 1] == Commit
    decreases |batch|
  {
    if i > 0 {
      InsertStepsAt(batch[1..], i - 1);
      assert batch[1..][i - 1] == batch[i];
    }
  }

  /** Every position is even or odd. */
  lemma Halve(j: nat) returns (i: nat)
    ensures j == 2 * i || j == 2 * i + 1
  {
    i := j / 2;
  }

  /** Every statement of a complete load, in order: drop, create and commit the table, then for
      each row in order its insert followed by a commit. */
  function Trace(batch: seq<Classified>): (t: seq<Command>)
    ensures |t| == 3 + 2 * |batch|
    ensures t[..3] == [Drop, Create, Commit]
    ensures forall i {:trigger batch[i]} :: 0 <= i < |batch| ==> t[3 + 2 * i] == Insert(Tuple(batch[i])) && t[4 + 2 * i] == Commit
  {
    var s := InsertSteps(batch);
    assert forall i {:trigger batch[i]} :: 0 <= i < |batch| ==> s[2 * i] == Insert(Tuple(batch[i])) && s[2 * i + 1] == Commit by {
      forall i | 0 <= i < |batch| ensures s[2 * i] == Insert(Tuple(batch[i])) && s[2 * i + 1] == Commit {
        InsertStepsAt(batch, i);
      }
    }
    [Drop, Create, Commit] + s
  }

  /** The two statements of row `i`. */
  lemma TraceAt(batch: seq<Classified>, i: nat)
    requires i < |batch|
    ensures Trace(batch)[3 + 2 * i] == Insert(Tuple(batch[i]))
    ensures Trace(batch)[4 + 2 * i] == Commit
  {
  }

  /** The table is dropped and created once, at the start: every later statement is an insert or
      a commit. */
  lemma TraceDropsAndCreatesOnce(batch: seq<Classified>)
    ensures forall j :: 3 <= j < |Trace(batch)| ==> Trace(batch)[j].Insert? || Trace(batch)[j] == Commit
  {
    var t := Trace(batch);
    forall j | 3 <= j < |t| ensures t[j].Insert? || t[j] == Commit {
      var i := Halve(j - 3);
      TraceAt(batch, i);
    }
  }

  /** The parameters of every INSERT in the log, in order. */
  function Inserted(log: seq<Command>): seq<seq<Value>>
  {
    if log == [] then []
    else Inserted(log[..|log| - 1]) + (if log[|log| - 1].Insert? then [log[|log| - 1].params] else [])
  }

  /** What `final_data` durably holds once the log has run, for a log that drops, creates and
      commits the table first: the rows inserted before the last commit. */
  function Persisted(log: seq<Command>): seq<seq<Value>>
  {
    if log == [] then []
    else if log[|log| - 1] == Commit then Inserted(log)
    else Persisted(log[..|log| - 1])
  }

  lemma MapSnoc<A, B>(f: A -> B, s: seq<A>, n: nat)
    requires n < |s|
    ensures Map(f, s[..n + 1]) == Map(f, s[..n]) + [f(s[n])]
  {
    assert s[..n + 1][..n] == s[..n];
  }

  /** The table's own three statements insert nothing. */
  lemma DdlInsertsNothing(batch: seq<Classified>)
    ensures Inserted(Trace(batch)[..3]) == []
    ensures Persisted(Trace(batch)[..3]) == []
  {
    var d1, d2, d3 := [Drop], [Drop, Create], [Drop, Create, Commit];
    assert d3[..2] == d2 && d2[..1] == d1 && d1[..0] == [];
    assert Inserted(d1) == [] && Inserted(d2) == [] && Inserted(d3) == [];
  }

  /** Before the insert of row `i`, the first `i` rows are inserted and committed. */
  lemma {:induction false} LoadedBeforeRow(batch: seq<Classified>, i: nat)
    requires i <= |batch|
    ensures Inserted(Trace(batch)[..3 + 2 * i]) == Map(Tuple, batch[..i])
    ensures Persisted(Trace(batch)[..3 + 2 * i]) == Map(Tuple, batch[..i])
    decreases i, 0
  {
    if i == 0 {
      DdlInsertsNothing(batch);
    } else {
      var t := Trace(batch);
      LoadedAfterInsert(batch, i - 1);
      var k := 3 + 2 * i;
      assert t[..k][..k - 1] == t[..4 + 2 * (i - 1)];
      TraceAt(batch, i - 1);
    }
  }

  /** Right after the insert of row `i`, `i + 1` rows are inserted and still only `i` committed. */
  lemma {:induction false} LoadedAfterInsert(batch: seq<Classified>, i: nat)
    requires i < |batch|
    ensures Inserted(Trace(batch)[..4 + 2 * i]) == Map(Tuple, batch[..i + 1])
    ensures Persisted(Trace(batch)[..4 + 2 * i]) == Map(Tuple, batch[..i])
    decreases i, 1
  {
    var t := Trace(batch);
    LoadedBeforeRow(batch, i);
    var k := 4 + 2 * i;
    assert t[..k][..k - 1] == t[..3 + 2 * i];
    TraceAt(batch, i);
    MapSnoc(Tuple, batch, i);
  }

  /** A complete load leaves exactly the batch in the table, one INSERT per row. */
  lemma LoadReplacesTable(batch: seq<Classified>)
    ensures Persisted(Trace(batch)) == Map(Tuple, batch)
    ensures |Inserted(Trace(batch))| == |batch|
  {
    var t := Trace(batch);
    assert t[..|t|] == t;
    assert batch[..|batch|] == batch;
    LoadedBeforeRow(batch, |batch|);
  }

  /** When the INSERT of row `j` is rejected, or the commit after it, exactly the `j` rows
      before it stay in the table: the 50th row failing leaves 49. */
  lemma RowFailureKeepsEarlierRows(batch: seq<Classified>, j: nat)
    requires j < |batch|
    ensures Trace(batch)[3 + 2 * j] == Insert(Tuple(batch[j]))
    ensures Persisted(Trace(batch)[..3 + 2 * j]) == Map(Tuple, batch[..j])
    ensures Persisted(Trace(batch)[..4 + 2 * j]) == Map(Tuple, batch[..j])
    ensures |Persisted(Trace(batch)[..3 + 2 * j])| == j
  {
    LoadedBeforeRow(batch, j);
    LoadedAfterInsert(batch, j);
  }

  /** Whatever statement is rejected, every INSERT accepted before it is already followed by its
      own commit, except possibly the very last statement accepted. */
  lemma InsertsCommittedBeforeFailure(batch: seq<Classified>, k: nat)
    requires k <= |Trace(batch)|
    ensures forall j :: 0 <= j < k - 1 && Trace(batch)[..k][j].Insert? ==> Trace(batch)[..k][j + 1] == Commit
  {
    var t := Trace(batch);
    forall j | 0 <= j < k - 1 && t[..k][j].Insert? ensures t[..k][j + 1] == Commit {
      assert t[j].Insert?;
      assert j >= 3;
      var i := Halve(j - 3);
      TraceAt(batch, i);
    }
  }

  /** The statements of row `i` extend the log one at a time. */
  lemma TraceStep(batch: seq<Classified>, i: nat)
    requires i < |batch|
    ensures Trace(batch)[..3 + 2 * i] + [Insert(Tuple(batch[i]))] == Trace(batch)[..4 + 2 * i]
    ensures Trace(batch)[..4 + 2 * i] + [Commit] == Trace(batch)[..5 + 2 * i]
  {
    var t := Trace(batch);
    assert t[..4 + 2 * i] == t[..3 + 2 * i] + [t[3 + 2 * i]];
    assert t[..5 + 2 * i] == t[..4 + 2 * i] + [t[4 + 2 * i]];
  }

  /** The number of statements the warehouse accepts out of `total` when it rejects the one at
      position `rejectAt`: the session stops at the rejected statement. */
  function Accepted(rejectAt: Option<nat>, total: nat): nat
  {
    if rejectAt.Some? && rejectAt.value < total then rejectAt.value else total
  }

  /** The behaviour of the warehouse, which the model cannot see: whether it can be reached,
      and which statement of the session, if any, it rejects. */
  datatype Server = Server(reachable: bool, rejectAt: Option<nat>)

  /** A session with the warehouse: the connection and its cursor. */
  class Connection {
    /** The statements the warehouse has accepted in this session, in order. */
    var log: seq<Command>
    /** Whether the session is still open. */
    var open: bool
    /** The position in the session of the statement the warehouse rejects, if any. */
    const rejectAt: Option<nat>

    constructor (rejectAt: Option<nat>)
      ensures log == [] && open && this.rejectAt == rejectAt
    {
      log := [];
      open := true;
      this.rejectAt := rejectAt;
    }

    /** `cursor.execute` or `conn.commit`: one statement, accepted unless it is the one the
        warehouse rejects. */
    method Execute(cmd: Command) returns (ok: bool)
      requires open
      modifies this`log
      ensures ok <==> rejectAt != Some(|old(log)|)
      ensures log == if ok then old(log) + [cmd] else old(log)
    {
      ok := rejectAt != Some(|log|);
      if ok {
        log := log + [cmd];
      }
    }

    /** `cursor.close()` and `conn.close()`. */
    method Close()
      requires open
      modifies this`open
      ensures !open
    {
      open := false;
    }
  }

  /** `psycopg2.connect`: a fresh session, or none when the warehouse cannot be reached. */
  method Connect(server: Server) returns (conn: Connection?)
    ensures (conn != null) == server.reachable
    ensures conn != null ==> fresh(conn) && conn.open && conn.log == [] && conn.rejectAt == server.rejectAt
  {
    if server.reachable {
      conn := new Connection(server.rejectAt);
    } else {
      conn := null;
    }
  }

  /** Lines 96 to 115: drop the table if it exists, create it, commit; the session stops at
      the first statement the warehouse rejects. */
  method ReplaceTable(conn: Connection, ghost batch: seq<Classified>) returns (ok: bool)
    requires conn.open && conn.log == []
    modifies conn`log
    ensures ok <==> 3 <= Accepted(conn.rejectAt, |Trace(batch)|)
    ensures conn.log == Trace(batch)[..if ok then 3 else Accepted(conn.rejectAt, |Trace(batch)|)]
  {
    ok := conn.Execute(Drop);
    if ok {
      ok := conn.Execute(Create);
      if ok {
        ok := conn.Execute(Commit);
      }
    }
  }

  /** Lines 119 to 126 for row `i`: its INSERT, then a commit; the session stops at the
      first of the two that the warehouse rejects. */
  method LoadRow(conn: Connection, batch: seq<Classified>, i: nat) returns (ok: bool)
    requires i < |batch| && conn.open
    requires conn.log == Trace(batch)[..3 + 2 * i]
    requires 3 + 2 * i <= Accepted(conn.rejectAt, |Trace(batch)|)
    modifies conn`log
    ensures ok <==> 5 + 2 * i <= Accepted(conn.rejectAt, |Trace(batch)|)
    ensures conn.log == Trace(batch)[..if ok then 5 + 2 * i else Accepted(conn.rejectAt, |Trace(batch)|)]
  {
    TraceStep(batch, i);
    ok := conn.Execute(Insert(Tuple(batch[i])));
    if ok {
      ok := conn.Execute(Commit);
    }
  }

  /** Lines 96 to 130: the session accepts the load's statements in order up to the first one
      the warehouse rejects. On success it reports the batch size and closes the session; on a
      rejection it fails and leaves the session open, since nothing closes it on that path. */
  method Load(conn: Connection, batch: seq<Classified>) returns (r: Result<nat>)
    requires conn.open && conn.log == []
    modifies conn
    ensures conn.log == Trace(batch)[..Accepted(conn.rejectAt, |Trace(batch)|)]
    ensures r.Ok? <==> Accepted(conn.rejectAt, |Trace(batch)|) == |Trace(batch)|
    ensures r.Ok? ==> r.value == |batch| && !conn.open
    ensures r.Err? ==> r.error == DatabaseError(|conn.log|) && conn.open
  {
    ghost var t := Trace(batch);
    ghost var n := Accepted(conn.rejectAt, |t|);
    var ok := ReplaceTable(conn, batch);
    if !ok {
      return Err(DatabaseError(|conn.log|));
    }
    var i := 0;
    while i < |batch|
      invariant 0 <= i <= |batch|
      invariant conn.open
      invariant conn.log == t[..3 + 2 * i]
      invariant 3 + 2 * i <= n
    {
      ok := LoadRow(conn, batch, i);
      if !ok {
        return Err(DatabaseError(|conn.log|));
      }
      i := i + 1;
    }
    assert t[..|t|] == t;
    conn.Close();
    r := Ok(|batch|);
  }
}
