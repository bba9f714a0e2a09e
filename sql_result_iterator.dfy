/** `SqlResultIterator` (src/sql/SqlResultIterator.cpp): a cursor over an
    executed select, as the pair (result set, row id). */
module SqlResultIterator {
  import opened SqlStorable
  import opened SqlDriver

  /** `ROW_ID_PAST_THE_END`. Its definition is in a header that is not part
      of this model; the proofs only use that it is negative, so no row index
      reached by counting up from 0 ever equals it. */
  const PastTheEnd: int := -1

  /** The row id after `operator++`, given whether the fetch succeeded. */
  function Advance(rowId: int, fetched: bool): int
  {
    if fetched then rowId + 1 else PastTheEnd
  }

  /** The row ids an iterator takes when it starts at `rowId` and each
      advance meets the next fetch outcome in `outcomes`. */
  function RowIds(rowId: int, outcomes: seq<bool>): (ids: seq<int>)
    ensures |ids| == |outcomes| + 1 && ids[0] == rowId
    decreases |outcomes|
  {
    if outcomes == [] then [rowId]
    else [rowId] + RowIds(Advance(rowId, outcomes[0]), outcomes[1..])
  }

  /** `n` successful fetches. */
  function Successes(n: nat): (s: seq<bool>)
  {
    seq(n, _ => true)
  }

  /** The integers `lo`, `lo + 1`, ..., `hi - 1`. */
  function Range(lo: int, hi: int): (s: seq<int>)
    requires lo <= hi
  {
    seq(hi - lo, k => lo + k)
  }

  /** Starting from row id `k`, `n` successful fetches and then a failing one
      lead through the row ids `k` .. `k + n` and then past the end. */
  lemma {:induction false} DriveThroughRows(k: nat, n: nat)
    ensures RowIds(k, Successes(n) + [false]) == Range(k, k + n + 1) + [PastTheEnd]
    decreases n
  {
    var outcomes := Successes(n) + [false];
    if n == 0 {
      assert outcomes == [false];
      assert RowIds(k, outcomes) == [k] + RowIds(PastTheEnd, []);
    } else {
      assert outcomes[0] && outcomes[1..] == Successes(n - 1) + [false];
      DriveThroughRows(k + 1, n - 1);
      assert Range(k, k + n + 1) == [k] + Range(k + 1, k + n + 1);
    }
  }

  /** From row index `k`, successful fetches count the row id up one by one
      and never reach the sentinel. */
  lemma {:induction false} SuccessesStayActive(k: nat, n: nat)
    ensures forall j :: 0 <= j <= n ==> RowIds(k, Successes(n))[j] == k + j != PastTheEnd
    decreases n
  {
    if n > 0 {
      assert Successes(n)[0] && Successes(n)[1..] == Successes(n - 1);
      SuccessesStayActive(k + 1, n - 1);
    }
  }

  class ResultIterator<Obj> {
    var resultSet: ResultSet?<Obj>
    var rowId: int

    /** `SqlResultIterator(resultSet, rowId)`. */
    constructor (resultSet: ResultSet?<Obj>, rowId: int)
      ensures this.resultSet == resultSet && this.rowId == rowId
    {
      this.resultSet := resultSet;
      this.rowId := rowId;
    }

    /** The copy constructor: copies both fields, so the copy equals `other`. */
    constructor Copy(other: ResultIterator<Obj>)
      ensures resultSet == other.resultSet && rowId == other.rowId
      ensures Equals(other) && other.Equals(this)
    {
      resultSet := other.resultSet;
      rowId := other.rowId;
    }

    /** `operator=`: overwrites both fields with those of `rhs`. */
    method Assign(rhs: ResultIterator<Obj>)
      modifies this
      ensures resultSet == old(rhs.resultSet) && rowId == old(rhs.rowId)
      ensures Equals(rhs)
    {
      resultSet, rowId := rhs.resultSet, rhs.rowId;
    }

    /** `operator==`: same result set (by identity) and same row id. */
    predicate Equals(rhs: ResultIterator<Obj>)
      reads this, rhs
    {
      resultSet == rhs.resultSet && rowId == rhs.rowId
    }

    /** `operator!=`: differs in the result set or in the row id. */
    predicate NotEquals(rhs: ResultIterator<Obj>)
      reads this, rhs
      ensures NotEquals(rhs) <==> resultSet != rhs.resultSet || rowId != rhs.rowId
      ensures NotEquals(rhs) <==> !Equals(rhs)
    {
      !Equals(rhs)
    }

    /** `operator*` and `operator->`: the result set's one shared storable,
        whatever the row id. */
    function Deref(): (s: Storable<Obj>)
      reads this, resultSet
      requires resultSet != null
      ensures s == resultSet.storable
    {
      resultSet.storable
    }

    /** `fetchNext()`: asks the driver for the next row of the result set. */
    method FetchNext() returns (ok: bool)
      requires resultSet != null && resultSet.Valid()
      modifies resultSet`pos, resultSet.storable`record
      ensures resultSet.Valid()
      ensures ok <==> old(resultSet.pos) < |resultSet.rows|
      ensures ok ==> resultSet.pos == old(resultSet.pos) + 1
                     && resultSet.storable.record == resultSet.rows[old(resultSet.pos)]
      ensures !ok ==> resultSet.pos == old(resultSet.pos)
                      && resultSet.storable.record == old(resultSet.storable.record)
    {
      ok := resultSet.FetchRow();
    }

    /** `operator++`: fetches the next row into the shared buffer; on success
        the row id goes up by one, on failure it becomes the sentinel. The
        result set, and so the buffer a dereference yields, stays the same. */
    method Increment()
      requires resultSet != null && resultSet.Valid()
      modifies this`rowId, resultSet`pos, resultSet.storable`record
      ensures resultSet == old(resultSet) && resultSet.Valid()
      ensures Deref() == old(Deref())
      ensures rowId == Advance(old(rowId), old(resultSet.pos) < |resultSet.rows|)
      ensures old(resultSet.pos) < |resultSet.rows| ==>
                resultSet.pos == old(resultSet.pos) + 1 && Deref().record == resultSet.rows[old(resultSet.pos)]
      ensures old(resultSet.pos) == |resultSet.rows| ==>
                resultSet.pos == old(resultSet.pos) && Deref().record == old(Deref().record)
    {
      var ok := FetchNext();
      if ok {
        rowId := rowId + 1;
      } else {
        rowId := PastTheEnd;
      }
    }
  }

  /** Two iterators over the same result set dereference to the same buffer,
      whatever their row ids. */
  lemma DerefAliases<Obj>(a: ResultIterator<Obj>, b: ResultIterator<Obj>)
    requires a.resultSet != null && a.resultSet == b.resultSet
    ensures a.Deref() == b.Deref()
  {
  }

  /** Iterator equality is an equivalence relation that separates different
      row ids and different result sets. */
  lemma EqualsIsEquivalence<Obj>(a: ResultIterator<Obj>, b: ResultIterator<Obj>, c: ResultIterator<Obj>)
    ensures a.Equals(a)
    ensures a.Equals(b) ==> b.Equals(a)
    ensures a.Equals(b) && b.Equals(c) ==> a.Equals(c)
    ensures a.resultSet == b.resultSet && a.rowId != b.rowId ==> !a.Equals(b)
    ensures a.resultSet != b.resultSet ==> !a.Equals(b)
  {
  }

  /** `SqlResultSet::begin()`: primes the cursor with the first fetch and
      starts at row 0, or past the end when there is no row. */
  method Begin<Obj>(rs: ResultSet<Obj>) returns (it: ResultIterator<Obj>)
    requires rs.Valid() && rs.pos == 0
    modifies rs`pos, rs.storable`record
    ensures fresh(it) && it.resultSet == rs && rs.Valid()
    ensures |rs.rows| > 0 ==> it.rowId == 0 && rs.pos == 1 && rs.storable.record == rs.rows[0]
    ensures |rs.rows| == 0 ==> it.rowId == PastTheEnd && rs.pos == 0
  {
    var ok := rs.FetchRow();
    it := new ResultIterator(rs, if ok then 0 else PastTheEnd);
  }

  /** `SqlResultSet::end()`: the sentinel iterator of `rs`. */
  method End<Obj>(rs: ResultSet<Obj>) returns (it: ResultIterator<Obj>)
    ensures fresh(it) && it.resultSet == rs && it.rowId == PastTheEnd
  {
    it := new ResultIterator(rs, PastTheEnd);
  }
}
