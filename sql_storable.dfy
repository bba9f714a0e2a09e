/** The generic persistence binding `Storable<TObj>` (src/db/sql/SqlStorable.h):
    the per-type constant list of column constraints, its accessors, and the
    primary-key lookup with its lazily filled cache. */
module SqlStorable {
  import opened Wrappers

  /** Kinds of column constraint a type may declare. */
  datatype ConstraintType = PrimaryKey | ForeignKey | Unique | Index | NotNull | Default | Check

  /** Opaque identity of a reflected field (a non-null `MetaFieldBase *`). */
  type FieldId = nat

  /** Opaque identity of a reflected type (`TObj::staticMetaObject()`). */
  type TypeId = nat

  /** One column constraint: its kind and the field it targets. */
  datatype Constraint = Constraint(kind: ConstraintType, field: FieldId)

  /** What the program fixes once per persistent type: the type's meta object,
      the value its default constructor builds, and the constraint list given
      to DEFINE_STORABLE, in declaration order. */
  datatype TypeBinding<Obj> = TypeBinding(metaObject: TypeId, blank: Obj, constraints: seq<Constraint>)

  /** `Storable<TObj>::numConstraints()`. */
  function NumConstraints<Obj>(b: TypeBinding<Obj>): (n: nat)
    ensures n == |b.constraints|
  {
    |b.constraints|
  }

  /** `Storable<TObj>::getConstraint(i)`; the source does not check the index,
      so its callers must stay below `numConstraints()`. */
  function GetConstraint<Obj>(b: TypeBinding<Obj>, i: nat): (c: Constraint)
    requires i < NumConstraints(b)
    ensures c in b.constraints
  {
    b.constraints[i]
  }

  /** Enumerating the list with the two accessors yields the declared list,
      in declaration order. */
  lemma AccessorsEnumerateList<Obj>(b: TypeBinding<Obj>)
    ensures seq(NumConstraints(b), i requires 0 <= i < NumConstraints(b) => GetConstraint(b, i)) == b.constraints
  {
  }

  /** No constraint strictly before position `i` is a primary key. */
  ghost predicate NoPrimaryKeyBefore(cs: seq<Constraint>, i: nat)
    requires i <= |cs|
  {
    forall j :: 0 <= j < i ==> cs[j].kind != PrimaryKey
  }

  /** Specification of the primary-key lookup: the field of the first
      primary-key constraint in list order, or none. */
  function FirstPrimaryKey(cs: seq<Constraint>): Option<FieldId>
  {
    if cs == [] then None
    else if cs[0].kind == PrimaryKey then Some(cs[0].field)
    else FirstPrimaryKey(cs[1..])
  }

  /** If position `i` holds a primary key and none comes before it, the lookup
      yields the field at `i`. */
  lemma {:induction false} FirstPrimaryKeyAt(cs: seq<Constraint>, i: nat)
    requires i < |cs| && cs[i].kind == PrimaryKey && NoPrimaryKeyBefore(cs, i)
    ensures FirstPrimaryKey(cs) == Some(cs[i].field)
  {
    if i > 0 {
      assert cs[0].kind != PrimaryKey;
      FirstPrimaryKeyAt(cs[1..], i - 1);
    }
  }

  /** The lookup yields none exactly when no constraint is a primary key. */
  lemma {:induction false} FirstPrimaryKeyNone(cs: seq<Constraint>)
    ensures FirstPrimaryKey(cs) == None <==> NoPrimaryKeyBefore(cs, |cs|)
  {
    if cs != [] {
      FirstPrimaryKeyNone(cs[1..]);
      if cs[0].kind != PrimaryKey {
        assert forall j :: 1 <= j < |cs| ==> cs[j] == cs[1..][j - 1];
      }
    }
  }

  /** The lookup yields a field only as the field of the first primary-key
      constraint, read through the accessors `getConstraint`/`numConstraints`. */
  lemma {:induction false} FirstPrimaryKeyIsFirst<Obj>(b: TypeBinding<Obj>, f: FieldId)
    requires FirstPrimaryKey(b.constraints) == Some(f)
    ensures exists i :: 0 <= i < NumConstraints(b) && GetConstraint(b, i).kind == PrimaryKey
                        && GetConstraint(b, i).field == f && NoPrimaryKeyBefore(b.constraints, i)
  {
    var i := FirstPrimaryKeyIndex(b.constraints);
    assert GetConstraint(b, i) == b.constraints[i];
  }

  /** Position of the first primary-key constraint, for the lemma above. */
  lemma {:induction false} FirstPrimaryKeyIndex(cs: seq<Constraint>) returns (i: nat)
    requires FirstPrimaryKey(cs).Some?
    ensures i < |cs| && cs[i].kind == PrimaryKey && NoPrimaryKeyBefore(cs, i)
    ensures FirstPrimaryKey(cs) == Some(cs[i].field)
  {
    if cs[0].kind == PrimaryKey {
      i := 0;
    } else {
      var k := FirstPrimaryKeyIndex(cs[1..]);
      i := k + 1;
      assert forall j :: 1 <= j < i ==> cs[j] == cs[1..][j - 1];
    }
  }

  /** A `Storable<TObj>`: one domain value (`record`, the inherited `TObj`
      part) plus the mutable primary-key cache `m_pkey` (`None` is `nullptr`). */
  class Storable<Obj> {
    const binding: TypeBinding<Obj>
    var record: Obj
    var pkey: Option<FieldId>

    /** The cache holds nothing, or the right answer. */
    ghost predicate CacheCoherent()
      reads this
    {
      pkey.None? || pkey == FirstPrimaryKey(binding.constraints)
    }

    /** `Storable()`: a default-constructed record and an empty cache. */
    constructor (b: TypeBinding<Obj>)
      ensures binding == b && record == b.blank && pkey == None
      ensures CacheCoherent()
    {
      binding := b;
      record := b.blank;
      pkey := None;
    }

    /** `Storable(TObj &obj)`: a copy of `obj` and an empty cache. */
    constructor FromObject(b: TypeBinding<Obj>, obj: Obj)
      ensures binding == b && record == obj && pkey == None
      ensures CacheCoherent()
    {
      binding := b;
      record := obj;
      pkey := None;
    }

    /** `primaryKey()`: answers from the cache when it is filled; otherwise
        scans the list in order and caches the first primary key found.
        A `None` answer leaves the cache empty, so the next call scans again.
        `examined` counts the constraints the scan looked at. */
    method PrimaryKey() returns (r: Option<FieldId>, ghost examined: nat)
      requires CacheCoherent()
      modifies this`pkey
      ensures CacheCoherent()
      ensures r == FirstPrimaryKey(binding.constraints)
      ensures old(pkey).Some? ==> pkey == old(pkey) && examined == 0
      ensures old(pkey).None? ==> pkey == r && examined <= |binding.constraints|
      ensures old(pkey).None? && r.None? ==> examined == |binding.constraints|
    {
      if pkey.Some? {
        r, examined := pkey, 0;
        return;
      }
      var cs := binding.constraints;
      var i := 0;
      while i < |cs|
        invariant 0 <= i <= |cs|
        invariant NoPrimaryKeyBefore(cs, i)
        invariant pkey == None
      {
        if cs[i].kind == ConstraintType.PrimaryKey {
          FirstPrimaryKeyAt(cs, i);
          pkey := Some(cs[i].field);
          r, examined := pkey, i + 1;
          return;
        }
        i := i + 1;
      }
      FirstPrimaryKeyNone(cs);
      r, examined := None, |cs|;
    }
  }
}
