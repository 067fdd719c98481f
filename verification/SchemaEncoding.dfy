/** Encoding values by an accepted table of nested schemas, and reading them back field by field. */
module SchemaEncoding {
  import opened Wrappers
  import opened FixedWidth
  import opened LittleEndian
  import opened FieldLayout

  datatype Value =
    | Number(number: int)
    | ByteString(bytes: Bytes)
    | Text(text: Bytes)
    | Numbers(numbers: seq<int>)
    | Pairs(pairs: seq<(int, int)>)
    | Records(records: seq<Record>)

  datatype Record = Record(values: map<Name, Value>)

  /** Every schema covers its region exactly, and nests only schemas of lower rank. */
  ghost predicate Sound(table: Table, rank: map<Name, nat>) {
    forall name :: name in table ==>
      && name in rank
      && ExactCover(table[name].size, table[name].fields, table)
      && forall f :: f in table[name].fields && f.kind.RepeatedSchema? ==> NestsLower(table, rank, name, f)
  }

  ghost predicate NestsLower(table: Table, rank: map<Name, nat>, name: Name, f: Field)
    requires name in rank && f.kind.RepeatedSchema?
  {
    f.kind.schema in table ==> f.kind.schema in rank && rank[f.kind.schema] < rank[name]
  }

  lemma FieldIsSound(table: Table, rank: map<Name, nat>, name: Name, k: nat)
    requires Sound(table, rank) && name in table && k < |table[name].fields|
    ensures Within(table[name].fields[k], table, table[name].size)
    ensures table[name].fields[k].kind.RepeatedSchema? ==>
              && table[name].fields[k].kind.schema in table && table[name].fields[k].kind.schema in rank
              && rank[table[name].fields[k].kind.schema] < rank[name]
  {
    var f := table[name].fields[k];
    assert f in table[name].fields;
    assert Within(f, table, table[name].size);
    assert f.kind.RepeatedSchema? ==> NestsLower(table, rank, name, f);
  }

  // ------------------------------------------------------------------ encoding

  function Zeros(n: nat): (s: Bytes)
    ensures |s| == n && forall k :: 0 <= k < n ==> s[k] == 0
  {
    seq(n, _ => 0)
  }

  function FieldValue(f: Field, values: map<Name, Value>): Option<Value> {
    if f.required.Some? then Some(Number(f.required.value))
    else if f.name in values then Some(values[f.name])
    else None
  }

  function EncodeNumber(n: int, width: nat): (r: Option<Bytes>)
    ensures r.Some? ==> |r.value| == width
  {
    if 0 <= n < Capacity(width) then Some(Encode(n, width)) else None
  }

  function EncodeNumbers(numbers: seq<int>): (r: Option<Bytes>)
    ensures r.Some? ==> |r.value| == |numbers| * 2
  {
    if numbers == [] then Some([])
    else
      var (head, rest) := (EncodeNumber(numbers[0], 2), EncodeNumbers(numbers[1..]));
      if head.None? || rest.None? then None else Some(head.value + rest.value)
  }

  function Flattened(pairs: seq<(int, int)>): (numbers: seq<int>)
    ensures |numbers| == 2 * |pairs|
  {
    if pairs == [] then [] else [pairs[0].0, pairs[0].1] + Flattened(pairs[1..])
  }

  /** The bytes of a field that nests nothing. */
  function EncodeLeaf(kind: FieldType, v: Value): (r: Option<Bytes>)
    requires !kind.RepeatedSchema?
  {
    match kind
    case Integer(width) => if v.Number? then EncodeNumber(v.number, width) else None
    case ByteArray(count) => if v.ByteString? && |v.bytes| == count then Some(v.bytes) else None
    case NulAscii(count) =>
      if v.Text? && |v.text| < count && (forall k :: 0 <= k < |v.text| ==> v.text[k] < 128)
      then Some(v.text + Zeros(count - |v.text|)) else None
    case RepeatedU16(count) => if v.Numbers? && |v.numbers| == count then EncodeNumbers(v.numbers) else None
    case RepeatedPair(count) => if v.Pairs? && |v.pairs| == count then EncodeNumbers(Flattened(v.pairs)) else None
    case Unsupported => None
  }

  predicate Is16Bits(n: int) {
    0 <= n < 0x1_0000
  }

  lemma CapacityOf16Bits()
    ensures Capacity(2) == 0x1_0000
  {
  }

  /** Numbers encode exactly if all fit 16 bits, one little-endian number after the other. */
  lemma {:induction false} NumbersLieAt(numbers: seq<int>)
    ensures EncodeNumbers(numbers).Some? <==> forall k :: 0 <= k < |numbers| ==> Is16Bits(numbers[k])
    ensures EncodeNumbers(numbers).Some? ==>
      forall k :: 0 <= k < |numbers| ==> Decode(EncodeNumbers(numbers).value[2 * k..2 * k + 2]) == numbers[k]
  {
    CapacityOf16Bits();
    if numbers != [] {
      NumbersLieAt(numbers[1..]);
      var (head, rest) := (EncodeNumber(numbers[0], 2), EncodeNumbers(numbers[1..]));
      if forall k :: 0 <= k < |numbers[1..]| ==> Is16Bits(numbers[1..][k]) {
        assert forall k :: 1 <= k < |numbers| ==> numbers[k] == numbers[1..][k - 1];
      } else {
        var k :| 0 <= k < |numbers[1..]| && !Is16Bits(numbers[1..][k]);
        assert !Is16Bits(numbers[k + 1]);
      }
      if head.Some? && rest.Some? {
        var s := head.value + rest.value;
        DecodeEncode(numbers[0], 2);
        assert s[..2] == head.value && s[2..] == rest.value;
        hide Decode, EncodeNumber;
        forall k | 0 <= k < |numbers|
          ensures Decode(s[2 * k..2 * k + 2]) == numbers[k]
        {
          if k > 0 {
            assert s[2..][2 * (k - 1)..2 * (k - 1) + 2] == s[2 * k..2 * k + 2];
          }
        }
      }
    }
  }

  lemma {:induction false} FlattenedAt(pairs: seq<(int, int)>)
    ensures forall k :: 0 <= k < |pairs| ==>
      Flattened(pairs)[2 * k] == pairs[k].0 && Flattened(pairs)[2 * k + 1] == pairs[k].1
  {
    if pairs != [] {
      FlattenedAt(pairs[1..]);
      forall k | 0 < k < |pairs|
        ensures Flattened(pairs)[2 * k] == pairs[k].0 && Flattened(pairs)[2 * k + 1] == pairs[k].1
      {
        assert pairs[1..][k - 1] == pairs[k];
        assert Flattened(pairs)[2 * k] == Flattened(pairs[1..])[2 * (k - 1)];
        assert Flattened(pairs)[2 * k + 1] == Flattened(pairs[1..])[2 * (k - 1) + 1];
      }
    }
  }

  /** What each kind of leaf accepts, and how it lies in its bytes: numbers little-endian, text in front of zeros, pairs
      one after the other with the first of each first. */
  lemma LeafLayout(kind: FieldType, v: Value)
    requires !kind.RepeatedSchema?
    ensures EncodeLeaf(kind, v).Some? <==>
              match kind
              case Integer(width) => v.Number? && 0 <= v.number < Capacity(width)
              case ByteArray(count) => v.ByteString? && |v.bytes| == count
              case NulAscii(count) =>
                v.Text? && |v.text| < count && forall k :: 0 <= k < |v.text| ==> v.text[k] < 128
              case RepeatedU16(count) =>
                v.Numbers? && |v.numbers| == count && forall k :: 0 <= k < count ==> Is16Bits(v.numbers[k])
              case RepeatedPair(count) =>
                && v.Pairs? && |v.pairs| == count
                && forall k :: 0 <= k < count ==> Is16Bits(v.pairs[k].0) && Is16Bits(v.pairs[k].1)
              case Unsupported => false
    ensures EncodeLeaf(kind, v).Some? ==>
              var s := EncodeLeaf(kind, v).value;
              match kind
              case Integer(width) => |s| == width && Decode(s) == v.number
              case ByteArray(count) => s == v.bytes
              case NulAscii(count) =>
                |s| == count && s[..|v.text|] == v.text && forall k :: |v.text| <= k < count ==> s[k] == 0
              case RepeatedU16(count) =>
                |s| == 2 * count && forall k :: 0 <= k < count ==> Decode(s[2 * k..2 * k + 2]) == v.numbers[k]
              case RepeatedPair(count) =>
                |s| == 4 * count && forall k :: 0 <= k < count ==>
                  Decode(s[4 * k..4 * k + 2]) == v.pairs[k].0 && Decode(s[4 * k + 2..4 * k + 4]) == v.pairs[k].1
              case Unsupported => true
  {
    match kind {
      case Integer(width) =>
        if v.Number? && 0 <= v.number < Capacity(width) {
          DecodeEncode(v.number, width);
        }
      case RepeatedU16(_) =>
        if v.Numbers? {
          NumbersLieAt(v.numbers);
        }
      case RepeatedPair(count) =>
        if v.Pairs? && |v.pairs| == count {
          PairsLieAt(v.pairs);
        }
      case _ =>
    }
  }

  lemma PairsLieAt(pairs: seq<(int, int)>)
    ensures EncodeNumbers(Flattened(pairs)).Some? <==>
              forall k :: 0 <= k < |pairs| ==> Is16Bits(pairs[k].0) && Is16Bits(pairs[k].1)
    ensures EncodeNumbers(Flattened(pairs)).Some? ==>
      var s := EncodeNumbers(Flattened(pairs)).value;
      forall k :: 0 <= k < |pairs| ==>
        Decode(s[4 * k..4 * k + 2]) == pairs[k].0 && Decode(s[4 * k + 2..4 * k + 4]) == pairs[k].1
  {
    var numbers := Flattened(pairs);
    FlattenedAt(pairs);
    NumbersLieAt(numbers);
    hide Decode, EncodeNumbers, Flattened, Is16Bits;
    if forall k :: 0 <= k < |pairs| ==> Is16Bits(pairs[k].0) && Is16Bits(pairs[k].1) {
      forall j | 0 <= j < |numbers|
        ensures Is16Bits(numbers[j])
      {
        var k := j / 2;
        assert Is16Bits(pairs[k].0) && Is16Bits(pairs[k].1);
        assert numbers[2 * k] == pairs[k].0 && numbers[2 * k + 1] == pairs[k].1;
        assert j == 2 * k || j == 2 * k + 1;
      }
    }
    if EncodeNumbers(numbers).Some? {
      var s := EncodeNumbers(numbers).value;
      forall k | 0 <= k < |pairs|
        ensures Is16Bits(pairs[k].0) && Is16Bits(pairs[k].1)
        ensures Decode(s[4 * k..4 * k + 2]) == pairs[k].0 && Decode(s[4 * k + 2..4 * k + 4]) == pairs[k].1
      {
        assert numbers[2 * k] == pairs[k].0 && numbers[2 * k + 1] == pairs[k].1;
        assert Decode(s[2 * (2 * k)..2 * (2 * k) + 2]) == numbers[2 * k];
        assert Decode(s[2 * (2 * k + 1)..2 * (2 * k + 1) + 2]) == numbers[2 * k + 1];
      }
    }
  }

  lemma LeafFillsField(f: Field, v: Value, table: Table)
    requires !f.kind.RepeatedSchema?
    ensures EncodeLeaf(f.kind, v).Some? ==> FieldWidth(f, table) == Some(|EncodeLeaf(f.kind, v).value|)
  {
  }

  /** The bytes of field `k` of a schema. */
  function EncodeField(table: Table, name: Name, k: nat, v: Value, ghost rank: map<Name, nat>): (r: Option<Bytes>)
    requires Sound(table, rank) && name in table && k < |table[name].fields|
    ensures r.Some? ==> FieldWidth(table[name].fields[k], table) == Some(|r.value|)
    decreases rank[name], 1, 0
  {
    var f := table[name].fields[k];
    FieldIsSound(table, rank, name, k);
    if f.kind.RepeatedSchema? then
      if v.Records? && |v.records| == f.kind.count then EncodeRecords(table, f.kind.schema, v.records, rank) else None
    else
      LeafFillsField(f, v, table);
      EncodeLeaf(f.kind, v)
  }

  function EncodeRecords(table: Table, nested: Name, items: seq<Record>, ghost rank: map<Name, nat>)
    : (r: Option<Bytes>)
    requires Sound(table, rank) && nested in table
    ensures r.Some? ==> |r.value| == |items| * table[nested].size
    decreases rank[nested], 4, |items|
  {
    if items == [] then Some([])
    else
      var head := EncodeSchema(table, nested, items[0].values, rank);
      var rest := EncodeRecords(table, nested, items[1..], rank);
      if head.None? || rest.None? then None
      else
        OneMore(|items|, table[nested].size);
        Some(head.value + rest.value)
  }

  lemma OneMore(n: nat, size: nat)
    requires n > 0
    ensures n * size == size + (n - 1) * size
  {
  }

  function Place(payload: Bytes, offset: nat, encoded: Bytes): (after: Bytes)
    requires offset + |encoded| <= |payload|
    ensures |after| == |payload|
  {
    payload[..offset] + encoded + payload[offset + |encoded|..]
  }

  /** The payload with its first `n` fields laid down. */
  function LayFields(table: Table, name: Name, values: map<Name, Value>, ghost rank: map<Name, nat>, n: nat)
    : (r: Option<Bytes>)
    requires Sound(table, rank) && name in table && n <= |table[name].fields|
    ensures r.Some? ==> |r.value| == table[name].size
    decreases rank[name], 2, n
  {
    if n == 0 then Some(Zeros(table[name].size))
    else
      var before := LayFields(table, name, values, rank, n - 1);
      var f := table[name].fields[n - 1];
      var v := FieldValue(f, values);
      if before.None? || v.None? then None
      else
        var encoded := EncodeField(table, name, n - 1, v.value, rank);
        FieldIsSound(table, rank, name, n - 1);
        if encoded.None? then None else Some(Place(before.value, f.offset, encoded.value))
  }

  function ExpectedNames(fields: seq<Field>): set<Name> {
    set f | f in fields && f.required.None? :: f.name
  }

  function EncodeSchema(table: Table, name: Name, values: map<Name, Value>, ghost rank: map<Name, nat>)
    : (r: Option<Bytes>)
    requires Sound(table, rank) && name in table
    ensures r.Some? ==> |r.value| == table[name].size
    decreases rank[name], 3, 0
  {
    if values.Keys - ExpectedNames(table[name].fields) != {} then None
    else LayFields(table, name, values, rank, |table[name].fields|)
  }

  // ------------------------------------------------------- the imperative encoder

  method Write(payload: array<u8>, offset: nat, encoded: Bytes)
    requires offset + |encoded| <= payload.Length
    modifies payload
    ensures payload[..] == Place(old(payload[..]), offset, encoded)
  {
    for k := 0 to |encoded|
      invariant forall j :: 0 <= j < payload.Length ==>
        payload[j] == if offset <= j < offset + k then encoded[j - offset] else old(payload[j])
    {
      payload[offset + k] := encoded[k];
    }
  }

  method EncodeSchemaPayload(table: Table, name: Name, values: map<Name, Value>, ghost rank: map<Name, nat>)
    returns (r: Option<Bytes>)
    requires Sound(table, rank) && name in table
    ensures r == EncodeSchema(table, name, values, rank)
    decreases rank[name], 1
  {
    hide Sound, EncodeField, ExpectedNames;
    var schema := table[name];
    var payload := new u8[schema.size](_ => 0);
    ghost var full := |schema.fields|;
    assert payload[..] == Zeros(schema.size);
    for n := 0 to |schema.fields|
      invariant LayFields(table, name, values, rank, n) == Some(payload[..])
    {
      var f := schema.fields[n];
      FieldIsSound(table, rank, name, n);
      var value := FieldValue(f, values);
      if value.None? {
        Spoiled(table, name, values, rank, n + 1, full);
        return None;
      }
      var encoded := EncodeValue(table, name, n, value.value, rank);
      if encoded.None? {
        Spoiled(table, name, values, rank, n + 1, full);
        return None;
      }
      Write(payload, f.offset, encoded.value);
    }
    if values.Keys - ExpectedNames(schema.fields) != {} {
      return None;
    }
    return Some(payload[..]);
  }

  method EncodeValue(table: Table, name: Name, k: nat, v: Value, ghost rank: map<Name, nat>) returns (r: Option<Bytes>)
    requires Sound(table, rank) && name in table && k < |table[name].fields|
    ensures r == EncodeField(table, name, k, v, rank)
    decreases rank[name], 0
  {
    hide Sound, EncodeSchema, EncodeLeaf;
    var f := table[name].fields[k];
    FieldIsSound(table, rank, name, k);
    if !f.kind.RepeatedSchema? {
      return EncodeLeaf(f.kind, v);
    }
    if !v.Records? || |v.records| != f.kind.count {
      return None;
    }
    var encoded: Bytes := [];
    ghost var all := EncodeRecords(table, f.kind.schema, v.records, rank);
    assert v.records[0..] == v.records;
    for n := 0 to |v.records|
      invariant var rest := EncodeRecords(table, f.kind.schema, v.records[n..], rank);
                && all.Some? == rest.Some?
                && (all.Some? ==> all.value == encoded + rest.value)
    {
      var record := EncodeSchemaPayload(table, f.kind.schema, v.records[n].values, rank);
      assert v.records[n..][1..] == v.records[n + 1..] && v.records[n..][0] == v.records[n];
      if record.None? {
        return None;
      }
      encoded := encoded + record.value;
    }
    assert v.records[|v.records|..] == [] && all == Some(encoded + []);
    assert encoded + [] == encoded;
    return Some(encoded);
  }

  /** Once a field cannot be encoded, nothing after it helps. */
  lemma {:induction false} Spoiled(table: Table, name: Name, values: map<Name, Value>, rank: map<Name, nat>, n: nat,
                                   m: nat)
    requires Sound(table, rank) && name in table && n <= m <= |table[name].fields|
    requires LayFields(table, name, values, rank, n).None?
    ensures LayFields(table, name, values, rank, m).None?
    decreases m
  {
    if n < m {
      Spoiled(table, name, values, rank, n, m - 1);
    }
  }

  // -------------------------------------------------------------- reading back

  /** Field `k` stands in the payload exactly as encoded. */
  ghost predicate Stands(table: Table, name: Name, values: map<Name, Value>, rank: map<Name, nat>, payload: Bytes,
                         k: nat)
    requires Sound(table, rank) && name in table && k < |table[name].fields|
  {
    var f := table[name].fields[k];
    var v := FieldValue(f, values);
    && v.Some?
    && var encoded := EncodeField(table, name, k, v.value, rank);
       && encoded.Some?
       && 0 <= f.offset && f.offset + |encoded.value| <= |payload|
       && payload[f.offset..f.offset + |encoded.value|] == encoded.value
  }

  lemma PlaceKeepsApart(payload: Bytes, offset: nat, encoded: Bytes, from: nat, to: nat)
    requires offset + |encoded| <= |payload| && from <= to <= |payload|
    requires from == to || encoded == [] || to <= offset || offset + |encoded| <= from
    ensures Place(payload, offset, encoded)[from..to] == payload[from..to]
    ensures Place(payload, offset, encoded)[offset..offset + |encoded|] == encoded
  {
    if encoded == [] {
      assert Place(payload, offset, encoded) == payload;
    }
  }

  lemma {:induction false} FieldsStand(table: Table, name: Name, values: map<Name, Value>, rank: map<Name, nat>, n: nat)
    requires Sound(table, rank) && name in table && n <= |table[name].fields|
    requires LayFields(table, name, values, rank, n).Some?
    ensures forall k :: 0 <= k < n ==>
      Stands(table, name, values, rank, LayFields(table, name, values, rank, n).value, k)
    decreases n
  {
    if n > 0 {
      FieldsStand(table, name, values, rank, n - 1);
      var after := LayFields(table, name, values, rank, n).value;
      forall k | 0 <= k < n
        ensures Stands(table, name, values, rank, after, k)
      {
        if k < n - 1 {
          EarlierFieldStands(table, name, values, rank, n, k);
        } else {
          LastFieldStands(table, name, values, rank, n);
        }
      }
    }
  }

  lemma EarlierFieldStands(table: Table, name: Name, values: map<Name, Value>, rank: map<Name, nat>, n: nat, k: nat)
    requires Sound(table, rank) && name in table && k + 1 < n <= |table[name].fields|
    requires LayFields(table, name, values, rank, n).Some?
    requires Stands(table, name, values, rank, LayFields(table, name, values, rank, n - 1).value, k)
    ensures Stands(table, name, values, rank, LayFields(table, name, values, rank, n).value, k)
  {
    hide EncodeField;
    var before := LayFields(table, name, values, rank, n - 1).value;
    var (f, g) := (table[name].fields[n - 1], table[name].fields[k]);
    var encoded := EncodeField(table, name, n - 1, FieldValue(f, values).value, rank).value;
    FieldIsSound(table, rank, name, n - 1);
    FieldIsSound(table, rank, name, k);
    CoverIsDisjoint(table[name].size, table[name].fields, table, k, n - 1);
    PlaceKeepsApart(before, f.offset, encoded, g.offset, g.offset + FieldWidth(g, table).value);
  }

  lemma LastFieldStands(table: Table, name: Name, values: map<Name, Value>, rank: map<Name, nat>, n: nat)
    requires Sound(table, rank) && name in table && 0 < n <= |table[name].fields|
    requires LayFields(table, name, values, rank, n).Some?
    ensures Stands(table, name, values, rank, LayFields(table, name, values, rank, n).value, n - 1)
  {
    hide EncodeField;
    var f := table[name].fields[n - 1];
    var encoded := EncodeField(table, name, n - 1, FieldValue(f, values).value, rank).value;
    FieldIsSound(table, rank, name, n - 1);
    PlaceKeepsApart(LayFields(table, name, values, rank, n - 1).value, f.offset, encoded, 0, 0);
  }

  lemma {:induction false} RecordStands(table: Table, nested: Name, items: seq<Record>, rank: map<Name, nat>, r: nat)
    requires Sound(table, rank) && nested in table && r < |items|
    requires EncodeRecords(table, nested, items, rank).Some?
    ensures var (all, size) := (EncodeRecords(table, nested, items, rank).value, table[nested].size);
            && r * size + size <= |all|
            && EncodeSchema(table, nested, items[r].values, rank) == Some(all[r * size..r * size + size])
    decreases |items|
  {
    var (all, size) := (EncodeRecords(table, nested, items, rank).value, table[nested].size);
    var head := EncodeSchema(table, nested, items[0].values, rank).value;
    OneMore(|items|, size);
    if r == 0 {
      assert all[..size] == head;
    } else {
      RecordStands(table, nested, items[1..], rank, r - 1);
      OneMore(r, size);
      hide EncodeSchema;
      var rest := EncodeRecords(table, nested, items[1..], rank).value;
      var at := (r - 1) * size;
      assert all == head + rest;
      assert all[at + size..at + size + size] == rest[at..at + size];
    }
  }

  ghost predicate FieldEncodes(table: Table, name: Name, values: map<Name, Value>, rank: map<Name, nat>, k: nat)
    requires Sound(table, rank) && name in table && k < |table[name].fields|
  {
    var v := FieldValue(table[name].fields[k], values);
    v.Some? && EncodeField(table, name, k, v.value, rank).Some?
  }

  /** A schema encodes exactly when every field has a value that encodes and no other value is supplied. */
  lemma EncodesIffFieldsDo(table: Table, name: Name, values: map<Name, Value>, rank: map<Name, nat>)
    requires Sound(table, rank) && name in table
    ensures EncodeSchema(table, name, values, rank).Some? <==>
              && (forall given :: given in values ==> given in ExpectedNames(table[name].fields))
              && forall k :: 0 <= k < |table[name].fields| ==> FieldEncodes(table, name, values, rank, k)
  {
    LaidIffFieldsEncode(table, name, values, rank, |table[name].fields|);
    hide LayFields, FieldEncodes, Sound, ExpectedNames;
    var extra := values.Keys - ExpectedNames(table[name].fields);
    if given :| given in values && given !in ExpectedNames(table[name].fields) {
      assert given in extra;
    } else {
      assert extra == {};
    }
  }

  lemma {:induction false} LaidIffFieldsEncode(table: Table, name: Name, values: map<Name, Value>,
                                               rank: map<Name, nat>, n: nat)
    requires Sound(table, rank) && name in table && n <= |table[name].fields|
    ensures LayFields(table, name, values, rank, n).Some? <==>
              forall k :: 0 <= k < n ==> FieldEncodes(table, name, values, rank, k)
    decreases n
  {
    if n > 0 {
      LaidIffFieldsEncode(table, name, values, rank, n - 1);
      hide EncodeField, Sound;
      assert LayFields(table, name, values, rank, n).Some? <==>
        LayFields(table, name, values, rank, n - 1).Some? && FieldEncodes(table, name, values, rank, n - 1);
    }
  }

  /** The fields leave no byte of a payload open. */
  lemma FieldsDetermine(table: Table, name: Name, values: map<Name, Value>, rank: map<Name, nat>, p: Bytes, q: Bytes)
    requires Sound(table, rank) && name in table && |p| == |q| == table[name].size
    requires forall k :: 0 <= k < |table[name].fields| ==>
      Stands(table, name, values, rank, p, k) && Stands(table, name, values, rank, q, k)
    ensures p == q
  {
    var (size, fields) := (table[name].size, table[name].fields);
    forall i | 0 <= i < size
      ensures p[i] == q[i]
    {
      assert ExactCover(size, fields, table) && CoveredOnceAt(fields, table, i);
      var k: nat :| OnlyCoveredBy(fields, table, i, k);
      assert Stands(table, name, values, rank, p, k) && Stands(table, name, values, rank, q, k);
      var f := fields[k];
      var encoded := EncodeField(table, name, k, FieldValue(f, values).value, rank).value;
      hide EncodeField, Sound;
      assert p[f.offset..f.offset + |encoded|][i - f.offset] == q[f.offset..f.offset + |encoded|][i - f.offset];
    }
  }

  /** A field of a schema, or one inside a record of a repeated field. */
  datatype Path = Here(field: nat) | Inside(field: nat, record: nat, rest: Path)

  predicate ValidPath(table: Table, name: Name, path: Path)
    decreases path
  {
    && name in table
    && path.field < |table[name].fields|
    && (path.Inside? ==>
          var kind := table[name].fields[path.field].kind;
          && kind.RepeatedSchema? && kind.schema in table
          && path.record < kind.count && ValidPath(table, kind.schema, path.rest))
  }

  /** The offset of a field from the start of the outermost payload. */
  function OffsetOf(table: Table, name: Name, path: Path): int
    requires ValidPath(table, name, path)
    decreases path
  {
    var f := table[name].fields[path.field];
    match path
    case Here(_) => f.offset
    case Inside(_, record, rest) => f.offset + record * table[f.kind.schema].size + OffsetOf(table, f.kind.schema, rest)
  }

  /** The schema and the index a path leads to. */
  function Target(table: Table, name: Name, path: Path): (Name, nat)
    requires ValidPath(table, name, path)
    decreases path
  {
    match path
    case Here(k) => (name, k)
    case Inside(k, _, rest) => Target(table, table[name].fields[k].kind.schema, rest)
  }

  /** The value supplied, or required, for the field a path leads to. */
  function ValueAt(table: Table, name: Name, values: map<Name, Value>, path: Path): Option<Value>
    requires ValidPath(table, name, path)
    decreases path
  {
    var v := FieldValue(table[name].fields[path.field], values);
    match path
    case Here(_) => v
    case Inside(k, record, rest) =>
      if v.Some? && v.value.Records? && record < |v.value.records| then
        ValueAt(table, table[name].fields[k].kind.schema, v.value.records[record].values, rest)
      else None
  }

  lemma {:induction false} TargetExists(table: Table, name: Name, path: Path)
    requires ValidPath(table, name, path)
    ensures var (schema, k) := Target(table, name, path); schema in table && k < |table[schema].fields|
    decreases path
  {
    if path.Inside? {
      TargetExists(table, table[name].fields[path.field].kind.schema, path.rest);
    }
  }

  /** The bytes a path leads to are the encoding of the value supplied or required there. */
  ghost predicate ReadsBack(table: Table, name: Name, values: map<Name, Value>, rank: map<Name, nat>, payload: Bytes,
                            path: Path)
    requires Sound(table, rank) && ValidPath(table, name, path)
  {
    TargetExists(table, name, path);
    var (schema, k) := Target(table, name, path);
    var v := ValueAt(table, name, values, path);
    && v.Some?
    && var encoded := EncodeField(table, schema, k, v.value, rank);
       && encoded.Some?
       && 0 <= OffsetOf(table, name, path) && OffsetOf(table, name, path) + |encoded.value| <= |payload|
       && payload[OffsetOf(table, name, path)..OffsetOf(table, name, path) + |encoded.value|] == encoded.value
  }

  /** In an encoded payload, every field however deep inside repeated records reads back. */
  lemma {:induction false} EveryFieldReadsBack(table: Table, name: Name, values: map<Name, Value>,
                                               rank: map<Name, nat>, path: Path)
    requires Sound(table, rank) && ValidPath(table, name, path)
    requires EncodeSchema(table, name, values, rank).Some?
    ensures ReadsBack(table, name, values, rank, EncodeSchema(table, name, values, rank).value, path)
    decreases path
  {
    var payload := EncodeSchema(table, name, values, rank).value;
    FieldsStand(table, name, values, rank, |table[name].fields|);
    assert Stands(table, name, values, rank, payload, path.field);
    if path.Inside? {
      FieldIsSound(table, rank, name, path.field);
      RecordIsHeld(table, name, values, rank, payload, path.field, path.record);
      var f := table[name].fields[path.field];
      var inner := FieldValue(f, values).value.records[path.record].values;
      EveryFieldReadsBack(table, f.kind.schema, inner, rank, path.rest);
      InsideReads(table, name, values, rank, payload, path);
    }
  }

  /** A repeated field holds each of its records, encoded, at its place. */
  ghost predicate HoldsRecord(table: Table, name: Name, values: map<Name, Value>, rank: map<Name, nat>,
                              payload: Bytes, k: nat, r: nat)
    requires Sound(table, rank) && name in table && k < |table[name].fields|
    requires table[name].fields[k].kind.RepeatedSchema? && table[name].fields[k].kind.schema in table
  {
    var f := table[name].fields[k];
    var v := FieldValue(f, values);
    var size := table[f.kind.schema].size;
    var base := f.offset + r * size;
    && v.Some? && v.value.Records? && r < |v.value.records|
    && 0 <= base && base + size <= |payload|
    && EncodeSchema(table, f.kind.schema, v.value.records[r].values, rank) == Some(payload[base..base + size])
  }

  lemma RecordIsHeld(table: Table, name: Name, values: map<Name, Value>, rank: map<Name, nat>, payload: Bytes, k: nat,
                     r: nat)
    requires Sound(table, rank) && name in table && k < |table[name].fields|
    requires table[name].fields[k].kind.RepeatedSchema? && table[name].fields[k].kind.schema in table
    requires r < table[name].fields[k].kind.count
    requires Stands(table, name, values, rank, payload, k)
    ensures HoldsRecord(table, name, values, rank, payload, k, r)
  {
    var f := table[name].fields[k];
    var v := FieldValue(f, values).value;
    var size := table[f.kind.schema].size;
    var all := FieldIsRecords(table, name, values, rank, payload, k);
    RecordStands(table, f.kind.schema, v.records, rank, r);
    hide Sound, EncodeSchema, EncodeRecords, Stands, EncodeField, FieldValue, FieldWidth;
    SliceOfSlice(payload, f.offset, f.offset + |all|, r * size, r * size + size);
  }

  lemma FieldIsRecords(table: Table, name: Name, values: map<Name, Value>, rank: map<Name, nat>, payload: Bytes, k: nat)
    returns (all: Bytes)
    requires Sound(table, rank) && name in table && k < |table[name].fields|
    requires table[name].fields[k].kind.RepeatedSchema? && table[name].fields[k].kind.schema in table
    requires Stands(table, name, values, rank, payload, k)
    ensures var f := table[name].fields[k];
            var v := FieldValue(f, values);
            && v.Some? && v.value.Records? && |v.value.records| == f.kind.count
            && EncodeRecords(table, f.kind.schema, v.value.records, rank) == Some(all)
            && 0 <= f.offset && f.offset + |all| <= |payload| && payload[f.offset..f.offset + |all|] == all
  {
    hide EncodeRecords, Sound;
    all := EncodeField(table, name, k, FieldValue(table[name].fields[k], values).value, rank).value;
  }

  lemma SliceOfSlice(s: Bytes, from: nat, to: nat, i: nat, j: nat)
    requires from <= to <= |s| && i <= j <= to - from
    ensures s[from..to][i..j] == s[from + i..from + j]
  {
    var (a, b) := (s[from..to][i..j], s[from + i..from + j]);
    assert forall k :: 0 <= k < j - i ==> a[k] == b[k];
  }

  lemma InsideReads(table: Table, name: Name, values: map<Name, Value>, rank: map<Name, nat>, payload: Bytes,
                    path: Path)
    requires Sound(table, rank) && ValidPath(table, name, path) && path.Inside?
    requires HoldsRecord(table, name, values, rank, payload, path.field, path.record)
    requires var f := table[name].fields[path.field];
             var inner := FieldValue(f, values).value.records[path.record].values;
             ReadsBack(table, f.kind.schema, inner, rank, EncodeSchema(table, f.kind.schema, inner, rank).value,
                       path.rest)
    ensures ReadsBack(table, name, values, rank, payload, path)
  {
    hide EncodeSchema, EncodeField, Sound;
    var f := table[name].fields[path.field];
    var inner := FieldValue(f, values).value.records[path.record].values;
    var base := f.offset + path.record * table[f.kind.schema].size;
    TargetExists(table, f.kind.schema, path.rest);
    var (schema, k) := Target(table, f.kind.schema, path.rest);
    var encoded := EncodeField(table, schema, k, ValueAt(table, f.kind.schema, inner, path.rest).value, rank).value;
    var at := OffsetOf(table, f.kind.schema, path.rest);
    SliceOfSlice(payload, base, base + table[f.kind.schema].size, at, at + |encoded|);
  }

  // ------------------------------------------------------------ reading values

  function ReadNumbers(s: Bytes): (numbers: seq<int>)
    requires |s| % 2 == 0
  {
    if s == [] then [] else [Decode(s[..2])] + ReadNumbers(s[2..])
  }

  function ReadPairs(s: Bytes): (pairs: seq<(int, int)>)
    requires |s| % 4 == 0
  {
    if s == [] then [] else [(Decode(s[..2]), Decode(s[2..4]))] + ReadPairs(s[4..])
  }

  function UntilNul(s: Bytes): Bytes {
    if s == [] || s[0] == 0 then [] else [s[0]] + UntilNul(s[1..])
  }

  /** The value that bytes of a field that nests nothing are read as. */
  function ReadLeaf(kind: FieldType, s: Bytes): Option<Value> {
    match kind
    case Integer(_) => Some(Number(Decode(s)))
    case ByteArray(_) => Some(ByteString(s))
    case NulAscii(_) => Some(Text(UntilNul(s)))
    case RepeatedU16(_) => if |s| % 2 == 0 then Some(Numbers(ReadNumbers(s))) else None
    case RepeatedPair(_) => if |s| % 4 == 0 then Some(Pairs(ReadPairs(s))) else None
    case _ => None
  }

  lemma {:induction false} NumbersReadBack(numbers: seq<int>)
    requires EncodeNumbers(numbers).Some?
    ensures ReadNumbers(EncodeNumbers(numbers).value) == numbers
  {
    if numbers != [] {
      var s := EncodeNumbers(numbers).value;
      DecodeEncode(numbers[0], 2);
      NumbersReadBack(numbers[1..]);
      assert s[..2] == Encode(numbers[0], 2) && s[2..] == EncodeNumbers(numbers[1..]).value;
      assert numbers == [numbers[0]] + numbers[1..];
    }
  }

  lemma {:induction false} PairsReadBack(pairs: seq<(int, int)>)
    requires EncodeNumbers(Flattened(pairs)).Some?
    ensures |EncodeNumbers(Flattened(pairs)).value| % 4 == 0
    ensures ReadPairs(EncodeNumbers(Flattened(pairs)).value) == pairs
  {
    if pairs != [] {
      var (numbers, rest) := (Flattened(pairs), Flattened(pairs[1..]));
      var s := EncodeNumbers(numbers).value;
      assert numbers[1..] == [pairs[0].1] + rest && numbers[1..][1..] == rest;
      DecodeEncode(pairs[0].0, 2);
      DecodeEncode(pairs[0].1, 2);
      PairsReadBack(pairs[1..]);
      var tail := EncodeNumbers(numbers[1..]).value;
      assert s[..2] == Encode(pairs[0].0, 2) && s[2..] == tail;
      assert tail[..2] == Encode(pairs[0].1, 2) && tail[2..] == EncodeNumbers(rest).value;
      assert s[2..4] == tail[..2] && s[4..] == tail[2..];
      assert pairs == [pairs[0]] + pairs[1..];
    }
  }

  lemma {:induction false} TextReadsBack(text: Bytes, padding: Bytes)
    requires padding != [] && padding[0] == 0
    ensures UntilNul(text + padding) == text <==> 0 !in text
  {
    if text == [] {
      assert text + padding == padding;
    } else {
      TextReadsBack(text[1..], padding);
      assert (text + padding)[1..] == text[1..] + padding;
      assert text == [text[0]] + text[1..];
      assert 0 in text <==> text[0] == 0 || 0 in text[1..];
    }
  }

  /** A field that nests nothing is read back as the value it was given; a text, exactly when it holds no NUL. */
  lemma LeafReadsBack(kind: FieldType, v: Value)
    requires !kind.RepeatedSchema? && EncodeLeaf(kind, v).Some?
    ensures ReadLeaf(kind, EncodeLeaf(kind, v).value) == Some(v) <==> (kind.NulAscii? ==> 0 !in v.text)
  {
    match kind {
      case Integer(width) => DecodeEncode(v.number, width);
      case NulAscii(count) => TextReadsBack(v.text, Zeros(count - |v.text|));
      case RepeatedU16(_) => NumbersReadBack(v.numbers);
      case RepeatedPair(_) => PairsReadBack(v.pairs);
      case _ =>
    }
  }

  /** In an encoded payload, the bytes any path leads to, however deep, are read as the value supplied or required
      there; a text, exactly when it holds no NUL. */
  lemma LeafAtPathReadsBack(table: Table, name: Name, values: map<Name, Value>, rank: map<Name, nat>, path: Path)
    requires Sound(table, rank) && ValidPath(table, name, path)
    requires EncodeSchema(table, name, values, rank).Some?
    requires LeafField(table, name, path).Some?
    ensures var payload := EncodeSchema(table, name, values, rank).value;
            var f := LeafField(table, name, path).value;
            var (at, v) := (OffsetOf(table, name, path), ValueAt(table, name, values, path));
            && v.Some? && FieldWidth(f, table).Some?
            && 0 <= at <= at + FieldWidth(f, table).value <= |payload|
            && (f.kind.NulAscii? ==> v.value.Text?)
            && (ReadLeaf(f.kind, payload[at..at + FieldWidth(f, table).value]) == v
                <==> (f.kind.NulAscii? ==> 0 !in v.value.text))
  {
    EveryFieldReadsBack(table, name, values, rank, path);
    TargetExists(table, name, path);
    var (schema, k) := Target(table, name, path);
    var v := ValueAt(table, name, values, path).value;
    hide EncodeSchema, Sound, ReadLeaf;
    assert EncodeField(table, schema, k, v, rank) == EncodeLeaf(table[schema].fields[k].kind, v);
    LeafReadsBack(table[schema].fields[k].kind, v);
  }

  /** The field a path leads to, when it nests nothing. */
  function LeafField(table: Table, name: Name, path: Path): Option<Field>
    requires ValidPath(table, name, path)
  {
    TargetExists(table, name, path);
    var (schema, k) := Target(table, name, path);
    var f := table[schema].fields[k];
    if f.kind.RepeatedSchema? then None else Some(f)
  }

  // ------------------------------------------------------------ decoding schemas

  /** The value in the bytes of field `k`. */
  function DecodeField(table: Table, name: Name, k: nat, s: Bytes, ghost rank: map<Name, nat>): Option<Value>
    requires Sound(table, rank) && name in table && k < |table[name].fields|
    requires FieldWidth(table[name].fields[k], table) == Some(|s|)
    decreases rank[name], 1, 0
  {
    var f := table[name].fields[k];
    FieldIsSound(table, rank, name, k);
    if f.kind.RepeatedSchema? then
      if f.kind.count < 0 then None
      else
        var records := DecodeRecords(table, f.kind.schema, s, f.kind.count, rank);
        if records.None? then None else Some(Records(records.value))
    else ReadLeaf(f.kind, s)
  }

  function DecodeRecords(table: Table, nested: Name, s: Bytes, count: nat, ghost rank: map<Name, nat>)
    : Option<seq<Record>>
    requires Sound(table, rank) && nested in table && |s| == count * table[nested].size
    decreases rank[nested], 4, count
  {
    if count == 0 then Some([])
    else
      var size := table[nested].size;
      OneMore(count, size);
      var head := DecodeSchema(table, nested, s[..size], rank);
      var rest := DecodeRecords(table, nested, s[size..], count - 1, rank);
      if head.None? || rest.None? then None else Some([Record(head.value)] + rest.value)
  }

  /** The values of the first `n` fields that are not fixed by the schema. */
  function DecodeFields(table: Table, name: Name, s: Bytes, ghost rank: map<Name, nat>, n: nat)
    : Option<map<Name, Value>>
    requires Sound(table, rank) && name in table && |s| == table[name].size && n <= |table[name].fields|
    decreases rank[name], 2, n
  {
    if n == 0 then Some(map[])
    else
      var before := DecodeFields(table, name, s, rank, n - 1);
      var f := table[name].fields[n - 1];
      FieldIsSound(table, rank, name, n - 1);
      if before.None? || f.required.Some? then before
      else
        var v := DecodeField(table, name, n - 1, s[f.offset..f.offset + FieldWidth(f, table).value], rank);
        if v.None? then None else Some(before.value[f.name := v.value])
  }

  function DecodeSchema(table: Table, name: Name, s: Bytes, ghost rank: map<Name, nat>): Option<map<Name, Value>>
    requires Sound(table, rank) && name in table && |s| == table[name].size
    decreases rank[name], 3, 0
  {
    DecodeFields(table, name, s, rank, |table[name].fields|)
  }

  // -------------------------------------------------------- decoding undoes encoding

  /** No text in the value of field `k`, at any depth, holds a NUL. */
  ghost predicate LegibleField(table: Table, name: Name, k: nat, v: Value, rank: map<Name, nat>)
    requires Sound(table, rank) && name in table && k < |table[name].fields|
    decreases rank[name], 1, 0
  {
    var f := table[name].fields[k];
    FieldIsSound(table, rank, name, k);
    if f.kind.RepeatedSchema? then
      v.Records? ==> forall r :: 0 <= r < |v.records| ==> LegibleSchema(table, f.kind.schema, v.records[r].values, rank)
    else v.Text? ==> 0 !in v.text
  }

  ghost predicate LegibleSchema(table: Table, name: Name, values: map<Name, Value>, rank: map<Name, nat>)
    requires Sound(table, rank) && name in table
    decreases rank[name], 3, 0
  {
    forall k :: 0 <= k < |table[name].fields| && Supplied(table[name].fields[k], values) ==>
      LegibleField(table, name, k, values[table[name].fields[k].name], rank)
  }

  /** The field's value comes from the caller. */
  predicate Supplied(f: Field, values: map<Name, Value>) {
    f.required.None? && f.name in values
  }

  lemma {:induction false} FieldDecodes(table: Table, name: Name, k: nat, v: Value, rank: map<Name, nat>)
    requires Sound(table, rank) && name in table && k < |table[name].fields|
    requires EncodeField(table, name, k, v, rank).Some?
    ensures var decoded := DecodeField(table, name, k, EncodeField(table, name, k, v, rank).value, rank);
            decoded.Some? && (decoded.value == v <==> LegibleField(table, name, k, v, rank))
    decreases rank[name], 1, 0
  {
    var f := table[name].fields[k];
    FieldIsSound(table, rank, name, k);
    if f.kind.RepeatedSchema? {
      RecordsDecode(table, f.kind.schema, v.records, rank);
    } else {
      LeafReadsBack(f.kind, v);
    }
  }

  lemma {:induction false} RecordsDecode(table: Table, nested: Name, items: seq<Record>, rank: map<Name, nat>)
    requires Sound(table, rank) && nested in table && EncodeRecords(table, nested, items, rank).Some?
    ensures var decoded := DecodeRecords(table, nested, EncodeRecords(table, nested, items, rank).value, |items|, rank);
            && decoded.Some?
            && (decoded.value == items
                <==> forall r :: 0 <= r < |items| ==> LegibleSchema(table, nested, items[r].values, rank))
    decreases rank[nested], 4, |items|
  {
    if items != [] {
      var (s, size) := (EncodeRecords(table, nested, items, rank).value, table[nested].size);
      OneMore(|items|, size);
      assert s[..size] == EncodeSchema(table, nested, items[0].values, rank).value;
      assert s[size..] == EncodeRecords(table, nested, items[1..], rank).value;
      hide Sound, EncodeSchema, DecodeSchema, LegibleSchema;
      SchemaDecodes(table, nested, items[0].values, rank);
      RecordsDecode(table, nested, items[1..], rank);
      HeadAndRest(DecodeSchema(table, nested, s[..size], rank).value,
                  DecodeRecords(table, nested, s[size..], |items| - 1, rank).value, items);
    }
  }

  lemma HeadAndRest(head: map<Name, Value>, rest: seq<Record>, items: seq<Record>)
    requires items != []
    ensures [Record(head)] + rest == items <==> head == items[0].values && rest == items[1..]
  {
    assert ([Record(head)] + rest)[1..] == rest && items == [Record(items[0].values)] + items[1..];
  }

  /** The first `n` fields decode to values under their own names, the supplied one exactly when it is legible. */
  ghost predicate DecodesAs(table: Table, name: Name, values: map<Name, Value>, rank: map<Name, nat>, n: nat,
                            decoded: Option<map<Name, Value>>)
    requires Sound(table, rank) && name in table && n <= |table[name].fields|
  {
    && decoded.Some?
    && (forall given :: given in decoded.value ==> exists k :: 0 <= k < n && IsNamed(table[name].fields[k], given))
    && (forall k :: 0 <= k < n && table[name].fields[k].required.None? ==>
          DecodedFaithfully(table, name, values, rank, k, decoded.value))
  }

  predicate IsNamed(f: Field, given: Name) {
    f.required.None? && f.name == given
  }

  ghost predicate DecodedFaithfully(table: Table, name: Name, values: map<Name, Value>, rank: map<Name, nat>, k: nat,
                                    decoded: map<Name, Value>)
    requires Sound(table, rank) && name in table && k < |table[name].fields|
  {
    var given := table[name].fields[k].name;
    && given in decoded && given in values
    && (decoded[given] == values[given] <==> LegibleField(table, name, k, values[given], rank))
  }

  lemma {:induction false} FieldsDecode(table: Table, name: Name, values: map<Name, Value>, rank: map<Name, nat>,
                                        n: nat)
    requires Sound(table, rank) && name in table && n <= |table[name].fields|
    requires EncodeSchema(table, name, values, rank).Some?
    ensures DecodesAs(table, name, values, rank, n,
                      DecodeFields(table, name, EncodeSchema(table, name, values, rank).value, rank, n))
    decreases rank[name], 2, n
  {
    if n > 0 {
      FieldsDecode(table, name, values, rank, n - 1);
      var payload := EncodeSchema(table, name, values, rank).value;
      FieldsStand(table, name, values, rank, |table[name].fields|);
      assert Stands(table, name, values, rank, payload, n - 1);
      var f := table[name].fields[n - 1];
      FieldIsSound(table, rank, name, n - 1);
      if f.required.None? {
        FieldDecodes(table, name, n - 1, FieldValue(f, values).value, rank);
      }
      LastDecodes(table, name, values, rank, n, payload);
    }
  }

  lemma LastDecodes(table: Table, name: Name, values: map<Name, Value>, rank: map<Name, nat>, n: nat, payload: Bytes)
    requires Sound(table, rank) && name in table && 0 < n <= |table[name].fields| && |payload| == table[name].size
    requires DecodesAs(table, name, values, rank, n - 1, DecodeFields(table, name, payload, rank, n - 1))
    requires Stands(table, name, values, rank, payload, n - 1)
    requires var f := table[name].fields[n - 1];
             f.required.None? ==>
               var v := FieldValue(f, values).value;
               var decoded := DecodeField(table, name, n - 1, EncodeField(table, name, n - 1, v, rank).value, rank);
               decoded.Some? && (decoded.value == v <==> LegibleField(table, name, n - 1, v, rank))
    ensures DecodesAs(table, name, values, rank, n, DecodeFields(table, name, payload, rank, n))
  {
    var f := table[name].fields[n - 1];
    var (before, after) := (DecodeFields(table, name, payload, rank, n - 1).value,
                            DecodeFields(table, name, payload, rank, n));
    NamesDiffer(table, rank, name, n);
    hide EncodeField, DecodeField, LegibleField, Sound;
    if f.required.None? {
      assert after.Some? && after.value.Keys == before.Keys + {f.name};
      assert IsNamed(f, f.name);
    }
    forall k | 0 <= k < n && table[name].fields[k].required.None?
      ensures DecodedFaithfully(table, name, values, rank, k, after.value)
    {
      assert k < n - 1 ==> DecodedFaithfully(table, name, values, rank, k, before);
    }
    forall given | given in after.value
      ensures exists k :: 0 <= k < n && IsNamed(table[name].fields[k], given)
    {
      if given in before {
        var k :| 0 <= k < n - 1 && IsNamed(table[name].fields[k], given);
      } else {
        assert IsNamed(table[name].fields[n - 1], given);
      }
    }
  }

  lemma NamesDiffer(table: Table, rank: map<Name, nat>, name: Name, n: nat)
    requires Sound(table, rank) && name in table && 0 < n <= |table[name].fields|
    ensures forall k :: 0 <= k < n - 1 ==> table[name].fields[k].name != table[name].fields[n - 1].name
  {
    assert ExactCover(table[name].size, table[name].fields, table);
  }

  /** Decoding an encoded payload gives the supplied values back exactly when no text among them, at any depth of
      nesting, holds a NUL. */
  lemma {:induction false} SchemaDecodes(table: Table, name: Name, values: map<Name, Value>, rank: map<Name, nat>)
    requires Sound(table, rank) && name in table && EncodeSchema(table, name, values, rank).Some?
    ensures var decoded := DecodeSchema(table, name, EncodeSchema(table, name, values, rank).value, rank);
            decoded.Some? && (decoded.value == values <==> LegibleSchema(table, name, values, rank))
    decreases rank[name], 3, 0
  {
    FieldsDecode(table, name, values, rank, |table[name].fields|);
    EncodesIffFieldsDo(table, name, values, rank);
    hide Sound, EncodeSchema, DecodeFields, LegibleSchema, FieldEncodes, ExpectedNames;
    ValuesAgree(table, name, values, rank,
                DecodeSchema(table, name, EncodeSchema(table, name, values, rank).value, rank));
  }

  /** Maps with the expected names agree exactly when every supplied value is legible. */
  lemma ValuesAgree(table: Table, name: Name, values: map<Name, Value>, rank: map<Name, nat>,
                    decoded: Option<map<Name, Value>>)
    requires Sound(table, rank) && name in table
    requires DecodesAs(table, name, values, rank, |table[name].fields|, decoded)
    requires forall given :: given in values ==> given in ExpectedNames(table[name].fields)
    ensures decoded.value == values <==> LegibleSchema(table, name, values, rank)
  {
    hide Sound, LegibleField;
    var (fields, m) := (table[name].fields, decoded.value);
    forall given | given in values
      ensures given in m
    {
      assert given in ExpectedNames(fields);
      var f :| f in fields && f.required.None? && f.name == given;
      var k :| 0 <= k < |fields| && fields[k] == f;
      assert DecodedFaithfully(table, name, values, rank, k, m);
    }
    if LegibleSchema(table, name, values, rank) {
      forall given | given in m
        ensures given in values && m[given] == values[given]
      {
        var k :| 0 <= k < |fields| && IsNamed(fields[k], given);
        assert DecodedFaithfully(table, name, values, rank, k, m) && Supplied(fields[k], values);
      }
      assert m == values;
    } else {
      var k :| 0 <= k < |fields| && Supplied(fields[k], values)
               && !LegibleField(table, name, k, values[fields[k].name], rank);
      assert DecodedFaithfully(table, name, values, rank, k, m);
    }
  }
}
