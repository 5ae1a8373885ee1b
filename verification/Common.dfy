/** Small notions that several modules share. */
module Common {
  datatype Option<T> = None | Some(value: T)

  ghost predicate NoRepeats<T>(q: seq<T>) {
    forall i, j :: 0 <= i < j < |q| ==> q[i] != q[j]
  }

  function One(b: bool): nat { if b then 1 else 0 }
}
