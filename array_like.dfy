/** The early prototype in include/parser.h: a fixed-capacity array with
    a length (ArrayLike) and a toy parser whose column list evaluates to
    the total length of its identifiers. */
module ToyParser {

  /** ArrayLike<T, Capacity>: |arr| is the capacity, the first len slots
      are in use. */
  datatype ArrayLike<T> = ArrayLike(arr: seq<T>, len: nat)

  predicate Valid<T>(a: ArrayLike<T>) { a.len <= |a.arr| }

  /** The elements in use. */
  function Contents<T>(a: ArrayLike<T>): seq<T>
    requires Valid(a)
  {
    a.arr[..a.len]
  }

  /** The default constructor: every slot value-initialised, length 0. */
  function Empty<T>(capacity: nat, init: T): (r: ArrayLike<T>)
    ensures Valid(r) && |r.arr| == capacity && Contents(r) == []
    ensures forall i :: 0 <= i < capacity ==> r.arr[i] == init
  {
    ArrayLike(seq(capacity, _ => init), 0)
  }

  /** The array that ArrayLike::add builds, as written: the first len
      elements copied, elem stored at index len + 1, and every other slot
      left as the fresh array had it (`unset`). */
  function AddAsWritten<T>(a: ArrayLike<T>, elem: T, unset: T): ArrayLike<T>
    requires a.len + 1 < |a.arr|
  {
    ArrayLike(a.arr[..a.len] + [unset] + [elem] + seq(|a.arr| - a.len - 2, _ => unset), a.len + 1)
  }

  /** ArrayLike::add as written: copy_n of the first len elements into a
      fresh array, then one store at index len + 1. Indexing a std::array
      past its end is undefined, so the store needs len + 1 < Capacity. */
  method Add<T>(a: ArrayLike<T>, elem: T, unset: T) returns (r: ArrayLike<T>)
    requires a.len + 1 < |a.arr|
    ensures r == AddAsWritten(a, elem, unset)
    ensures |r.arr| == |a.arr| && r.len == a.len + 1
    ensures r.arr[..a.len] == a.arr[..a.len] && r.arr[a.len + 1] == elem && r.arr[a.len] == unset
  {
    var newArr := new T[|a.arr|](_ => unset);
    var i := 0;
    while i < a.len
      invariant 0 <= i <= a.len
      invariant newArr[..i] == a.arr[..i]
      invariant forall k :: i <= k < newArr.Length ==> newArr[k] == unset
    {
      newArr[i] := a.arr[i];
      i := i + 1;
    }
    newArr[a.len + 1] := elem;
    r := ArrayLike(newArr[..], a.len + 1);
    assert r.arr == a.arr[..a.len] + [unset] + [elem] + seq(|a.arr| - a.len - 2, _ => unset);
  }

  /** The element added last is not among the contents: the slot at len
      is the unassigned one, and elem lies just past the new length. */
  lemma AddAsWrittenLosesElement()
    ensures var a := ArrayLike([0, 0, 0], 0);
            Contents(AddAsWritten(a, 7, 0)) == [0] && Contents(AddAsWritten(a, 7, 0)) != Contents(a) + [7]
  {
    var a := ArrayLike([0, 0, 0], 0);
    assert AddAsWritten(a, 7, 0).arr == [0, 7, 0];
    assert Contents(a) + [7] == [7];
    assert Contents(AddAsWritten(a, 7, 0))[0] == 0;
  }

  /** add as intended: the store goes to index len. */
  function AddCorrected<T>(a: ArrayLike<T>, elem: T): (r: ArrayLike<T>)
    requires a.len < |a.arr|
    ensures Valid(r) && |r.arr| == |a.arr|
    ensures Contents(r) == Contents(a) + [elem]
    ensures r.arr[a.len + 1..] == a.arr[a.len + 1..]
  {
    ArrayLike(a.arr[a.len := elem], a.len + 1)
  }

  /** The toy grammar's identifier, `[a-z]+`. */
  predicate IsToyIdentifier(s: string)
  {
    |s| > 0 && forall i :: 0 <= i < |s| ==> 'a' <= s[i] <= 'z'
  }

  /** col_name(sql_identifier): the identifier's length. */
  function ToyColName(cn: string): (r: nat)
    requires IsToyIdentifier(cn)
    ensures r == |cn| && r > 0
  {
    |cn|
  }

  /** col_name_list(col_name_list, ',', col_name): the running sum; what
      it adds up over a whole list is stated by FoldListSums. */
  function ToyListAppend(colNames: nat, colName: nat): nat
  {
    colNames + colName
  }

  function SumOfLengths(ids: seq<string>): nat
  {
    if |ids| == 0 then 0 else SumOfLengths(ids[..|ids| - 1]) + |ids[|ids| - 1]|
  }

  /** Applying the list rule to identifiers in order, starting from some
      value v, adds the total length of the identifiers to v. */
  function FoldList(v: nat, ids: seq<string>): nat
    requires forall i :: 0 <= i < |ids| ==> IsToyIdentifier(ids[i])
  {
    if |ids| == 0 then v else ToyListAppend(FoldList(v, ids[..|ids| - 1]), ToyColName(ids[|ids| - 1]))
  }

  lemma {:induction false} FoldListSums(v: nat, ids: seq<string>)
    requires forall i :: 0 <= i < |ids| ==> IsToyIdentifier(ids[i])
    ensures FoldList(v, ids) == v + SumOfLengths(ids)
  {
    if |ids| > 0 {
      FoldListSums(v, ids[..|ids| - 1]);
    }
  }
}
