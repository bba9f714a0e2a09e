/** The collaborators `Storable<TObj>` and `SqlResultIterator` call into: a
    transaction, an executed select (its result set and the driver's row
    cursor) and a prepared insert statement. Their real implementations are
    not part of this model; this is an in-memory stand-in whose effects are
    the ones the core relies on: a select yields the stored rows that match
    its filter, in order, one per fetch, written into the shared buffer; an
    insert step stores one object; every prepare and step is logged. */
module SqlDriver {
  import opened Wrappers
  import opened SqlStorable

  /** `std::numeric_limits<size_t>::max()` for a 64-bit `size_t`: the row
      count a result set reports when the driver cannot know it. */
  const SizeMax: nat := 0xFFFF_FFFF_FFFF_FFFF

  /** A where clause, as the store evaluates it on one row. */
  type WhereClause<!Obj> = Obj -> bool

  /** The rows of `table` that satisfy `w`, in table order. */
  function Filter<Obj>(table: seq<Obj>, w: WhereClause<Obj>): seq<Obj>
  {
    if table == [] then []
    else (if w(table[0]) then [table[0]] else []) + Filter(table[1..], w)
  }

  /** The rows a select returns: all of them without a where clause. */
  function Selected<Obj>(table: seq<Obj>, where: Option<WhereClause<Obj>>): seq<Obj>
  {
    match where
    case None => table
    case Some(w) => Filter(table, w)
  }

  /** Filtering keeps exactly the matching rows, each as often as it occurs. */
  lemma {:induction false} FilterKeepsMatching<Obj>(table: seq<Obj>, w: WhereClause<Obj>)
    ensures forall x :: x in Filter(table, w) <==> x in table && w(x)
    ensures |Filter(table, w)| <= |table|
  {
    if table != [] {
      FilterKeepsMatching(table[1..], w);
      assert table == [table[0]] + table[1..];
    }
  }

  /** A where clause that matches no row selects nothing (and is no error). */
  lemma {:induction false} FilterNoMatch<Obj>(table: seq<Obj>, w: WhereClause<Obj>)
    requires forall k :: 0 <= k < |table| ==> !w(table[k])
    ensures Filter(table, w) == []
  {
    if table != [] {
      FilterNoMatch(table[1..], w);
    }
  }

  /** Filtering distributes over appending rows. */
  lemma {:induction false} FilterAppend<Obj>(a: seq<Obj>, b: seq<Obj>, w: WhereClause<Obj>)
    ensures Filter(a + b, w) == Filter(a, w) + Filter(b, w)
  {
    if a == [] {
      assert a + b == b;
    } else {
      var head := if w(a[0]) then [a[0]] else [];
      calc {
        Filter(a + b, w);
        { assert (a + b)[0] == a[0] && (a + b)[1..] == a[1..] + b; }
        head + Filter(a[1..] + b, w);
        { FilterAppend(a[1..], b, w); }
        head + (Filter(a[1..], w) + Filter(b, w));
        (head + Filter(a[1..], w)) + Filter(b, w);
      }
    }
  }

  /** What the driver has been asked to do, in order. */
  datatype Call<Obj> =
    | Prepare(statement: InsertStatement<Obj>)
    | Step(statement: InsertStatement<Obj>, obj: Obj)
    | SchemaRequest(metaObject: TypeId, constraints: seq<Constraint>)

  /** A `SqlTransaction` over one table of `Obj` rows. */
  class Transaction<Obj> {
    var table: seq<Obj>
    var log: seq<Call<Obj>>
    /** Whether the driver reports row counts of selects. */
    const knowsRowCount: bool

    constructor (table: seq<Obj>, knowsRowCount: bool)
      ensures this.table == table && log == [] && this.knowsRowCount == knowsRowCount
    {
      this.table := table;
      this.log := [];
      this.knowsRowCount := knowsRowCount;
    }

    /** Hands a schema request to the schema creator. */
    method RequestSchema(metaObject: TypeId, constraints: seq<Constraint>)
      modifies this`log
      ensures log == old(log) + [SchemaRequest(metaObject, constraints)]
    {
      log := log + [SchemaRequest(metaObject, constraints)];
    }
  }

  /** `SqlStatementInsert`: an insert statement bound to one storable. */
  class InsertStatement<Obj> {
    const storable: Storable<Obj>

    constructor (storable: Storable<Obj>)
      ensures this.storable == storable
    {
      this.storable := storable;
    }

    /** `execPrepare(transaction)`. */
    method ExecPrepare(tx: Transaction<Obj>)
      modifies tx`log
      ensures tx.log == old(tx.log) + [Prepare(this)]
    {
      tx.log := tx.log + [Prepare(this)];
    }

    /** `execStep(transaction, &obj)`: binds `obj` and executes once. */
    method ExecStep(tx: Transaction<Obj>, obj: Obj)
      modifies tx`log, tx`table
      ensures tx.log == old(tx.log) + [Step(this, obj)]
      ensures tx.table == old(tx.table) + [obj]
    {
      tx.log := tx.log + [Step(this, obj)];
      tx.table := tx.table + [obj];
    }
  }

  /** `SqlResultSetData`: an executed select. `rows` are what the driver will
      fetch, `pos` how many it has fetched, `storable` the one buffer every
      fetch writes into, `size` the row count it reported. */
  class ResultSet<Obj> {
    const rows: seq<Obj>
    var pos: nat
    const storable: Storable<Obj>
    const size: nat

    ghost predicate Valid()
      reads this
    {
      pos <= |rows|
    }

    constructor (rows: seq<Obj>, storable: Storable<Obj>, size: nat)
      ensures this.rows == rows && pos == 0 && this.storable == storable && this.size == size
      ensures Valid()
    {
      this.rows := rows;
      this.pos := 0;
      this.storable := storable;
      this.size := size;
    }

    /** The driver's `fetchNext(statement, storable)`: writes the next row into
        the shared buffer and reports success, or reports failure once the
        rows are exhausted. */
    method FetchRow() returns (ok: bool)
      requires Valid()
      modifies this`pos, storable`record
      ensures Valid()
      ensures ok <==> old(pos) < |rows|
      ensures ok ==> pos == old(pos) + 1 && storable.record == rows[old(pos)]
      ensures !ok ==> pos == old(pos) && storable.record == old(storable.record)
    {
      ok := pos < |rows|;
      if ok {
        storable.record := rows[pos];
        pos := pos + 1;
      }
    }
  }

  /** `select()[.where(w)].exec(transaction)` for the type of `storable`. */
  method ExecSelect<Obj>(tx: Transaction<Obj>, storable: Storable<Obj>, where: Option<WhereClause<Obj>>)
    returns (rs: ResultSet<Obj>)
    ensures fresh(rs) && rs.Valid()
    ensures rs.rows == Selected(tx.table, where) && rs.pos == 0 && rs.storable == storable
    ensures rs.size == if tx.knowsRowCount then |rs.rows| else SizeMax
  {
    var rows := Selected(tx.table, where);
    rs := new ResultSet(rows, storable, if tx.knowsRowCount then |rows| else SizeMax);
  }
}
