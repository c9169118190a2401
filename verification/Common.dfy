/** Small types and functions shared by the models. */
module Common {

  datatype Option<+T> = None | Some(value: T)

  function Min(a: nat, b: nat): nat { if a < b then a else b }

  const TWO32 := 0x1_0000_0000

  function SetAt<T>(t: seq<T>, i: nat, v: T): (r: seq<T>)
    requires i < |t|
    ensures |r| == |t| && forall k :: 0 <= k < |t| ==> r[k] == if k == i then v else t[k]
  {
    t[i := v]
  }

  // No element twice.
  ghost predicate Distinct<T(!new)>(l: seq<T>) { forall i, j :: 0 <= i < j < |l| ==> l[i] != l[j] }
}
