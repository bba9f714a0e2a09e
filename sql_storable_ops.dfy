/** The static operations of `Storable<TObj>` (src/db/sql/SqlStorable.h) that
    go through a transaction: `createSchema`, the two `fetchAll` overloads
    and `insertAll`. Each takes the type's binding, which the source reads
    from its per-type static members. */
module SqlStorableOps {
  import opened Wrappers
  import opened SqlStorable
  import opened SqlDriver
  import opened SqlResultIterator

  /** `createSchema(transaction)`: forwards the type's meta object and its
      constraint list, unchanged, to the schema creator. */
  method CreateSchema<Obj>(tx: Transaction<Obj>, b: TypeBinding<Obj>)
    modifies tx`log
    ensures tx.log == old(tx.log) + [SchemaRequest(b.metaObject, b.constraints)]
    ensures tx.table == old(tx.table)
  {
    tx.RequestSchema(b.metaObject, b.constraints);
  }

  /** The capacity `fetchAll` reserves for a result set reporting `size`
      rows: none when the size is the unknown sentinel. */
  function Reserved(size: nat): nat
  {
    if size != SizeMax then size else 0
  }

  /** The loop both `fetchAll` overloads share: reserve when the row count is
      known, then walk the cursor from `begin()` to `end()`, appending the
      shared buffer's contents once per row. `capacity` is what was
      reserved. */
  method Drain<Obj>(rs: ResultSet<Obj>) returns (result: seq<Obj>, ghost capacity: nat)
    requires rs.Valid() && rs.pos == 0
    modifies rs`pos, rs.storable`record
    ensures result == rs.rows
    ensures capacity == Reserved(rs.size)
  {
    result := [];
    capacity := 0;
    var size := rs.size;
    if size != SizeMax {
      capacity := size;
    }
    var it := Begin(rs);
    var end := End(rs);
    while it.NotEquals(end)
      invariant it != end && it.resultSet == rs && end.resultSet == rs && end.rowId == PastTheEnd
      invariant rs.Valid()
      invariant it.rowId == PastTheEnd ==> rs.pos == |rs.rows| && result == rs.rows
      invariant it.rowId != PastTheEnd ==>
                  1 <= rs.pos && it.rowId == rs.pos - 1
                  && rs.storable.record == rs.rows[rs.pos - 1] && result == rs.rows[..rs.pos - 1]
      decreases |rs.rows| - rs.pos + (if it.rowId == PastTheEnd then 0 else 1)
    {
      result := result + [it.Deref().record];
      it.Increment();
    }
  }

  /** `fetchAll(transaction)`: every stored row, in cursor order, each a copy
      of what the shared buffer held at that row. Reserving is done exactly
      when the driver reports a row count other than the sentinel, and does
      not change the result. */
  method FetchAll<Obj>(tx: Transaction<Obj>, b: TypeBinding<Obj>) returns (result: seq<Obj>, ghost capacity: nat)
    ensures result == tx.table
    ensures capacity == if tx.knowsRowCount then Reserved(|result|) else 0
  {
    var storable := new Storable(b);
    var rs := ExecSelect(tx, storable, None);
    result, capacity := Drain(rs);
  }

  /** `fetchAll(transaction, whereClause)`: the stored rows matching the
      where clause, in cursor order. */
  method FetchAllWhere<Obj>(tx: Transaction<Obj>, b: TypeBinding<Obj>, whereClause: WhereClause<Obj>)
    returns (result: seq<Obj>, ghost capacity: nat)
    ensures result == Filter(tx.table, whereClause)
    ensures capacity == if tx.knowsRowCount then Reserved(|result|) else 0
  {
    var storable := new Storable(b);
    var rs := ExecSelect(tx, storable, Some(whereClause));
    result, capacity := Drain(rs);
  }

  /** The steps `insertAll` runs for `objects` on `statement`, in order. */
  function StepsOf<Obj>(statement: InsertStatement<Obj>, objects: seq<Obj>): (calls: seq<Call<Obj>>)
  {
    seq(|objects|, k requires 0 <= k < |objects| => Step(statement, objects[k]))
  }

  /** Number of prepares in a call log. */
  function Prepares<Obj>(log: seq<Call<Obj>>): nat
  {
    if log == [] then 0 else (if log[0].Prepare? then 1 else 0) + Prepares(log[1..])
  }

  /** Number of steps in a call log. */
  function Steps<Obj>(log: seq<Call<Obj>>): nat
  {
    if log == [] then 0 else (if log[0].Step? then 1 else 0) + Steps(log[1..])
  }

  /** A batch's calls hold one step per object, no prepare, and all name the
      batch's statement. */
  lemma {:induction false} StepsOfCounts<Obj>(statement: InsertStatement<Obj>, objects: seq<Obj>)
    ensures Prepares(StepsOf(statement, objects)) == 0
    ensures Steps(StepsOf(statement, objects)) == |objects|
    ensures forall c :: c in StepsOf(statement, objects) ==> c.Step? && c.statement == statement
  {
    if objects != [] {
      StepsOfCounts(statement, objects[1..]);
      assert StepsOf(statement, objects)[1..] == StepsOf(statement, objects[1..]);
    }
  }

  /** The calls of one `insertAll`: exactly one prepare, then exactly one step
      per object, all on the same statement. */
  lemma InsertAllCalls<Obj>(statement: InsertStatement<Obj>, objects: seq<Obj>)
    ensures Prepares([Prepare(statement)] + StepsOf(statement, objects)) == 1
    ensures Steps([Prepare(statement)] + StepsOf(statement, objects)) == |objects|
    ensures forall c :: c in [Prepare(statement)] + StepsOf(statement, objects) ==> c.statement == statement
  {
    var calls := [Prepare(statement)] + StepsOf(statement, objects);
    assert calls[1..] == StepsOf(statement, objects);
    StepsOfCounts(statement, objects);
  }

  /** `insertAll(transaction, objects)`: prepares one insert statement, then
      runs one bind-and-execute step per object, in input order, on that
      statement. `statement` names the statement it made. */
  method InsertAll<Obj>(tx: Transaction<Obj>, b: TypeBinding<Obj>, objects: seq<Obj>)
    returns (ghost statement: InsertStatement<Obj>)
    modifies tx`log, tx`table
    ensures fresh(statement)
    ensures tx.log == old(tx.log) + [Prepare(statement)] + StepsOf(statement, objects)
    ensures tx.table == old(tx.table) + objects
  {
    var storable := new Storable(b);
    var stmt := new InsertStatement(storable);
    statement := stmt;
    stmt.ExecPrepare(tx);
    ghost var start := tx.log;
    for k := 0 to |objects|
      invariant tx.log == start + StepsOf(stmt, objects[..k])
      invariant tx.table == old(tx.table) + objects[..k]
    {
      stmt.ExecStep(tx, objects[k]);
      assert objects[..k + 1] == objects[..k] + [objects[k]];
    }
    assert objects[..|objects|] == objects;
  }

  /** Inserting a batch and then fetching everything yields the rows stored
      before, followed by the batch, in order. */
  method InsertAllThenFetchAll<Obj>(tx: Transaction<Obj>, b: TypeBinding<Obj>, objects: seq<Obj>)
    returns (fetched: seq<Obj>)
    modifies tx`log, tx`table
    ensures fetched == old(tx.table) + objects
  {
    ghost var statement := InsertAll(tx, b, objects);
    ghost var capacity;
    fetched, capacity := FetchAll(tx, b);
  }
}
