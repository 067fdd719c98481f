/** Fixed payload layouts: the check that fields cover a region exactly once, and what an accepted layout means. */
module FieldLayout {
  import opened Wrappers

  type Name = string

  datatype FieldType =
    | Integer(width: nat)
    | ByteArray(count: int)
    | NulAscii(count: int)
    | RepeatedU16(count: int)
    | RepeatedPair(count: int)
    | RepeatedSchema(schema: Name, count: int)
    | Unsupported

  datatype Field = Field(name: Name, offset: int, kind: FieldType, required: Option<int>)

  datatype Schema = Schema(size: nat, fields: seq<Field>)

  type Table = map<Name, Schema>

  /** The encoded width of a field, when its type is known. */
  function FieldWidth(f: Field, table: Table): Option<int> {
    match f.kind
    case Integer(width) => Some(width)
    case ByteArray(count) => Some(count)
    case NulAscii(count) => Some(count)
    case RepeatedU16(count) => Some(count * 2)
    case RepeatedPair(count) => Some(count * 4)
    case RepeatedSchema(schema, count) => if schema in table then Some(count * table[schema].size) else None
    case Unsupported => None
  }

  // ------------------------------------------------------------ the exact cover

  predicate Covers(f: Field, table: Table, i: int) {
    FieldWidth(f, table).Some? && f.offset <= i < f.offset + FieldWidth(f, table).value
  }

  predicate Within(f: Field, table: Table, size: nat) {
    && FieldWidth(f, table).Some?
    && 0 <= f.offset && 0 <= FieldWidth(f, table).value && f.offset + FieldWidth(f, table).value <= size
  }

  predicate DistinctNames(fields: seq<Field>) {
    forall j, k :: 0 <= j < k < |fields| ==> fields[j].name != fields[k].name
  }

  /** Byte `i` belongs to field `k` and to no other. */
  predicate OnlyCoveredBy(fields: seq<Field>, table: Table, i: int, k: nat) {
    && k < |fields| && Covers(fields[k], table, i)
    && forall j :: 0 <= j < |fields| && j != k ==> !Covers(fields[j], table, i)
  }

  ghost predicate CoveredOnceAt(fields: seq<Field>, table: Table, i: int) {
    exists k: nat :: OnlyCoveredBy(fields, table, i, k)
  }

  /** Every byte of the region belongs to exactly one field, and no field reaches outside it. */
  ghost predicate ExactCover(size: nat, fields: seq<Field>, table: Table) {
    && DistinctNames(fields)
    && (forall k :: 0 <= k < |fields| ==> Within(fields[k], table, size))
    && (forall i :: 0 <= i < size ==> CoveredOnceAt(fields, table, i))
  }

  datatype Fault =
    | DuplicateName
    | UnknownType(field: nat)
    | Exceeds(field: nat)
    | Overlaps(field: nat, byte: nat)
    | Uncovered(byte: nat)

  predicate CoveredBefore(fields: seq<Field>, table: Table, k: nat, i: int)
    requires k <= |fields|
  {
    exists j :: 0 <= j < k && Covers(fields[j], table, i)
  }

  /** What each fault says about the layout; the first field at fault is named, with its first byte taken twice, or
      else the first byte that no field takes. */
  predicate Explains(fault: Fault, size: nat, fields: seq<Field>, table: Table) {
    match fault
    case DuplicateName => !DistinctNames(fields)
    case UnknownType(k) =>
      && k < |fields| && FieldWidth(fields[k], table).None?
      && forall j :: 0 <= j < k ==> Within(fields[j], table, size)
    case Exceeds(k) =>
      && k < |fields| && FieldWidth(fields[k], table).Some? && !Within(fields[k], table, size)
      && forall j :: 0 <= j < k ==> Within(fields[j], table, size)
    case Overlaps(k, i) =>
      && k < |fields| && i < size && Covers(fields[k], table, i) && CoveredBefore(fields, table, k, i)
      && forall j :: fields[k].offset <= j < i ==> !CoveredBefore(fields, table, k, j)
    case Uncovered(i) =>
      && i < size && !CoveredBefore(fields, table, |fields|, i)
      && forall j :: 0 <= j < i ==> CoveredBefore(fields, table, |fields|, j)
  }

  /** The first `k` fields overlap nowhere, and `occupied` says which of them holds each byte. */
  ghost predicate Occupancy(occupied: seq<Option<nat>>, fields: seq<Field>, table: Table, k: nat) {
    && k <= |fields|
    && forall i :: 0 <= i < |occupied| ==> Holder(occupied[i], fields, table, k, i)
  }

  ghost predicate Holder(holder: Option<nat>, fields: seq<Field>, table: Table, k: nat, i: nat)
    requires k <= |fields|
  {
    match holder
    case None => forall j :: 0 <= j < k ==> !Covers(fields[j], table, i)
    case Some(h) =>
      && h < k && Covers(fields[h], table, i)
      && forall j :: 0 <= j < k && j != h ==> !Covers(fields[j], table, i)
  }

  method NamesAreDistinct(fields: seq<Field>) returns (distinct: bool)
    ensures distinct <==> DistinctNames(fields)
  {
    var seen: set<Name> := {};
    for k := 0 to |fields|
      invariant DistinctNames(fields[..k])
      invariant forall name :: name in seen <==> exists j :: 0 <= j < k && fields[j].name == name
    {
      if fields[k].name in seen {
        return false;
      }
      seen := seen + {fields[k].name};
    }
    assert fields[..|fields|] == fields;
    return true;
  }

  /** Accepts exactly the layouts that cover every byte of the region once. */
  method ValidateFields(size: nat, fields: seq<Field>, table: Table) returns (fault: Option<Fault>)
    ensures fault.None? <==> ExactCover(size, fields, table)
    ensures fault.Some? ==> Explains(fault.value, size, fields, table)
  {
    var distinct := NamesAreDistinct(fields);
    if !distinct {
      return Some(DuplicateName);
    }
    var occupancy := new Option<nat>[size](_ => None);
    for k := 0 to |fields|
      invariant forall j :: 0 <= j < k ==> Within(fields[j], table, size)
      invariant Occupancy(occupancy[..], fields, table, k)
    {
      var width := FieldWidth(fields[k], table);
      if width.None? {
        return Some(UnknownType(k));
      }
      if fields[k].offset < 0 || width.value < 0 || fields[k].offset + width.value > size {
        return Some(Exceeds(k));
      }
      var fault := Occupy(occupancy, fields, table, k);
      if fault.Some? {
        return fault;
      }
    }
    for i := 0 to size
      invariant forall j :: 0 <= j < i ==> occupancy[j].Some?
    {
      if occupancy[i].None? {
        assert Holder(occupancy[..][i], fields, table, |fields|, i);
        assert !CoveredOnceAt(fields, table, i);
        TakenSoFar(occupancy[..], fields, table, |fields|, 0, i);
        return Some(Uncovered(i));
      }
    }
    CoveredOnce(occupancy[..], fields, table);
    return None;
  }

  lemma CoveredOnce(occupied: seq<Option<nat>>, fields: seq<Field>, table: Table)
    requires Occupancy(occupied, fields, table, |fields|)
    requires forall i :: 0 <= i < |occupied| ==> occupied[i].Some?
    ensures forall i :: 0 <= i < |occupied| ==> CoveredOnceAt(fields, table, i)
  {
    forall i | 0 <= i < |occupied|
      ensures CoveredOnceAt(fields, table, i)
    {
      assert Holder(occupied[i], fields, table, |fields|, i);
      assert OnlyCoveredBy(fields, table, i, occupied[i].value);
    }
  }

  /** Enters one field into the occupancy, unless some byte of it is already taken. */
  method Occupy(occupancy: array<Option<nat>>, fields: seq<Field>, table: Table, k: nat) returns (fault: Option<Fault>)
    requires k < |fields| && Within(fields[k], table, occupancy.Length)
    requires Occupancy(occupancy[..], fields, table, k)
    modifies occupancy
    ensures fault.None? ==> Occupancy(occupancy[..], fields, table, k + 1)
    ensures fault.Some? ==>
              !ExactCover(occupancy.Length, fields, table) && Explains(fault.value, occupancy.Length, fields, table)
  {
    ghost var before := occupancy[..];
    var (from, to) := (fields[k].offset, fields[k].offset + FieldWidth(fields[k], table).value);
    for i := from to to
      invariant forall j :: 0 <= j < occupancy.Length ==>
        occupancy[j] == if from <= j < i then Some(k) else before[j]
      invariant forall j :: from <= j < i ==> before[j].None?
    {
      if occupancy[i].Some? {
        TakenTwice(before, fields, table, k, i);
        TakenSoFar(before, fields, table, k, from, i);
        return Some(Overlaps(k, i));
      }
      occupancy[i] := Some(k);
    }
    forall i | 0 <= i < occupancy.Length
      ensures Holder(occupancy[..][i], fields, table, k + 1, i)
    {
      assert Holder(before[i], fields, table, k, i);
      assert Covers(fields[k], table, i) <==> from <= i < to;
    }
    return None;
  }

  /** What the occupancy says of the bytes from `from` to `to`. */
  lemma TakenSoFar(occupied: seq<Option<nat>>, fields: seq<Field>, table: Table, k: nat, from: nat, to: nat)
    requires Occupancy(occupied, fields, table, k) && from <= to < |occupied|
    ensures forall i :: from <= i <= to ==> (CoveredBefore(fields, table, k, i) <==> occupied[i].Some?)
  {
    forall i | from <= i <= to
      ensures CoveredBefore(fields, table, k, i) <==> occupied[i].Some?
    {
      assert Holder(occupied[i], fields, table, k, i);
    }
  }

  lemma TwoOwners(fields: seq<Field>, table: Table, i: int, j: nat, k: nat)
    requires j < |fields| && k < |fields| && j != k
    requires Covers(fields[j], table, i) && Covers(fields[k], table, i)
    ensures !CoveredOnceAt(fields, table, i)
  {
  }

  lemma TakenTwice(occupied: seq<Option<nat>>, fields: seq<Field>, table: Table, k: nat, i: nat)
    requires k < |fields| && i < |occupied| && Occupancy(occupied, fields, table, k)
    requires occupied[i].Some? && Covers(fields[k], table, i)
    ensures !ExactCover(|occupied|, fields, table)
  {
    assert Holder(occupied[i], fields, table, k, i);
    TwoOwners(fields, table, i, occupied[i].value, k);
  }

  predicate Apart(a: Field, b: Field, table: Table)
    requires FieldWidth(a, table).Some? && FieldWidth(b, table).Some?
  {
    var (w, v) := (FieldWidth(a, table).value, FieldWidth(b, table).value);
    w == 0 || v == 0 || a.offset + w <= b.offset || b.offset + v <= a.offset
  }

  /** Fields of an exact cover never share a byte. */
  lemma CoverIsDisjoint(size: nat, fields: seq<Field>, table: Table, j: nat, k: nat)
    requires ExactCover(size, fields, table) && j < |fields| && k < |fields| && j != k
    ensures Apart(fields[j], fields[k], table)
  {
    var (a, b) := (fields[j], fields[k]);
    assert Within(a, table, size) && Within(b, table, size);
    if !Apart(a, b, table) {
      TwoOwners(fields, table, if a.offset < b.offset then b.offset else a.offset, j, k);
    }
  }
}
