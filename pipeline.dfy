/** The whole run: transform the decoded table, connect, load. */
module Pipeline {
  import opened Values
  import opened Frames
  import opened Transformation
  import opened Loading

  /** The script from line 31 on. A transformation failure stops the run before the warehouse
      is contacted; an unreachable warehouse stops it before any statement is sent; otherwise
      the load's statements are accepted in order up to the first one the warehouse rejects,
      and a complete load reports the number of rows in the batch. */
  method Run(f: Frame, server: Server) returns (r: Result<nat>, log: seq<Command>)
    ensures Transform(f).Err? ==> r == Err(Transform(f).error) && log == []
    ensures Transform(f).Ok? && !server.reachable ==> r == Err(ConnectionError) && log == []
    ensures Transform(f).Ok? && server.reachable ==>
              log == Trace(Transform(f).value)[..Accepted(server.rejectAt, |Trace(Transform(f).value)|)]
    ensures Transform(f).Ok? && server.reachable ==>
              (r.Ok? <==> |log| == |Trace(Transform(f).value)|)
    ensures Transform(f).Ok? && server.reachable && r.Err? ==> r.error == DatabaseError(|log|)
    ensures r.Ok? ==> Transform(f).Ok? && r.value == |Transform(f).value| == Min(|f.rows|, RowCap)
  {
    var batch := Transform(f);
    if batch.Err? {
      return Err(batch.error), [];
    }
    var conn := Connect(server);
    if conn == null {
      return Err(ConnectionError), [];
    }
    r := Load(conn, batch.value);
    log := conn.log;
  }

  /** What a complete run leaves in `final_data`: one row for each of the first min(N, 100)
      raw rows, in order, holding that raw row's reference values. */
  lemma LoadedTable(f: Frame)
    requires forall c :: c in ProjectedColumns ==> c in f.columns
    requires forall i :: 0 <= i < |f.rows| ==> NumericTenure(f.rows[i])
    ensures Transform(f).Ok?
    ensures |Inserted(Trace(Transform(f).value))| == Min(|f.rows|, RowCap)
    ensures |Persisted(Trace(Transform(f).value))| == Min(|f.rows|, RowCap)
    ensures forall i :: 0 <= i < Min(|f.rows|, RowCap) ==>
              HasProjected(f.rows[i]) && Persisted(Trace(Transform(f).value))[i] == ExpectedTuple(f.rows[i])
  {
    TransformOk(f);
    LoadReplacesTable(Transform(f).value);
  }
}
