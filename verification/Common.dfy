/** Notions that several components share. */
module Common {

  datatype Option<+T> = None | Some(value: T)

  const WORD := 0x1_0000_0000_0000_0000  // an unsigned long wraps here

  /** No element comes twice. */
  ghost predicate Distinct<T>(s: seq<T>) {
    forall i, j :: 0 <= i < j < |s| ==> s[i] != s[j]
  }

  ghost function Elements<T>(s: seq<T>): set<T> {
    set e | e in s
  }
}
