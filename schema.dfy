/** Schemas and records (include/schema.h). A schema is a reflected C++
    struct: a name and its fields in declaration order. A record is one
    object of that struct; schema_to_tuple lists its field values in
    member_list order. */
module Schema {
  import opened Wrappers
  import opened Common

  /** The field types the engine handles: integers of a C++ integral type
      (with that type's range) and strings. */
  datatype FieldType = IntType(lo: int, hi: int) | TextType

  datatype Field = Field(name: string, ty: FieldType)

  datatype Schema = Schema(name: string, fields: seq<Field>)

  /** C++ member names within one struct are distinct, and an integral
      type's range is not empty. */
  predicate WellFormed(s: Schema)
  {
    (forall i, j :: 0 <= i < j < |s.fields| ==> s.fields[i].name != s.fields[j].name) &&
    (forall i :: 0 <= i < |s.fields| && s.fields[i].ty.IntType? ==> s.fields[i].ty.lo <= 0 <= s.fields[i].ty.hi)
  }

  /** member_list: the field names in declaration order. */
  function MemberList(s: Schema): (ml: seq<string>)
    ensures |ml| == |s.fields|
    ensures forall i :: 0 <= i < |ml| ==> ml[i] == s.fields[i].name
  {
    seq(|s.fields|, i requires 0 <= i < |s.fields| => s.fields[i].name)
  }

  /** std::find over a name list, as a position. */
  function Find(ml: seq<string>, name: string): (r: nat)
    ensures r <= |ml|
    ensures r < |ml| ==> ml[r] == name
    ensures forall j :: 0 <= j < r ==> ml[j] != name
  {
    if |ml| == 0 then 0
    else if ml[0] == name then 0
    else 1 + Find(ml[1..], name)
  }

  /** get_index: the position of the first field with that name, or the
      field count when no field has it. */
  function GetIndex(s: Schema, name: string): (r: nat)
    ensures r <= |s.fields|
    ensures r < |s.fields| <==> name in MemberList(s)
    ensures r < |s.fields| ==> s.fields[r].name == name
    ensures forall j :: 0 <= j < r ==> s.fields[j].name != name
  {
    Find(MemberList(s), name)
  }

  /** The one-schema resolve_name: the schema's descriptor when the name is
      one of its members, nothing otherwise. */
  function ResolveName(s: Schema, name: string): (r: Option<Schema>)
    ensures r.Some? <==> name in MemberList(s)
    ensures r.Some? ==> r.value == s
  {
    if name in MemberList(s) then Some(s) else None
  }

  /** The two-schema resolve_name: which alternative of the
      variant<descriptor of S1, descriptor of S2> it returns (0 or 1), or
      the exception it throws. */
  function ResolveName2(s1: Schema, s2: Schema, name: string): (r: Result<nat>)
    ensures r == Err(AmbiguousColumn) <==> name in MemberList(s1) && name in MemberList(s2)
    ensures r == Err(UnknownColumn) <==> name !in MemberList(s1) && name !in MemberList(s2)
    ensures r == Ok(0) <==> name in MemberList(s1) && name !in MemberList(s2)
    ensures r == Ok(1) <==> name !in MemberList(s1) && name in MemberList(s2)
  {
    var td1 := ResolveName(s1, name);
    var td2 := ResolveName(s2, name);
    if td1.Some? && td2.Some? then Err(AmbiguousColumn)
    else if td1.None? && td2.None? then Err(UnknownColumn)
    else if td1.Some? then Ok(0)
    else Ok(1)
  }

  /** A record of the schema: a value for every field name. */
  predicate IsRecord(s: Schema, rec: map<string, Value>)
  {
    forall i :: 0 <= i < |s.fields| ==> s.fields[i].name in rec
  }

  /** schema_to_tuple: the field values in member_list order. */
  function SchemaToTuple(s: Schema, rec: map<string, Value>): (t: Tuple)
    requires IsRecord(s, rec)
    ensures |t| == |s.fields|
  {
    seq(|s.fields|, i requires 0 <= i < |s.fields| => rec[s.fields[i].name])
  }

  /** The tuple holds field n at position get_index(n). */
  lemma TupleAtIndex(s: Schema, rec: map<string, Value>, n: string)
    requires IsRecord(s, rec)
    requires n in MemberList(s)
    ensures GetIndex(s, n) < |SchemaToTuple(s, rec)| && SchemaToTuple(s, rec)[GetIndex(s, n)] == rec[n]
  {
  }

  /** In a well-formed schema get_index inverts member_list. */
  lemma GetIndexOfMember(s: Schema, i: nat)
    requires WellFormed(s) && i < |s.fields|
    ensures GetIndex(s, s.fields[i].name) == i
  {
    var r := GetIndex(s, s.fields[i].name);
    assert s.fields[i].name in MemberList(s) by {
      assert MemberList(s)[i] == s.fields[i].name;
    }
  }

  /** A value a field of this type can hold. */
  predicate FitsType(v: Value, ty: FieldType)
  {
    match ty
    case IntType(lo, hi) => v.Int? && lo <= v.i <= hi
    case TextType => v.Str?
  }

  /** A tuple whose values fit the schema's field types, such as one that
      schema_to_tuple produces from a C++ object. */
  predicate Conforms(s: Schema, t: Tuple)
  {
    |t| == |s.fields| && forall i :: 0 <= i < |t| ==> FitsType(t[i], s.fields[i].ty)
  }
}
