/** Shared vocabulary: optional values, bytes, paths and a few sequence facts. */
module Prelude {

  datatype Option<+T> = None | Some(value: T)

  /** One octet of a buffer written by the operating system. */
  type Byte = b: int | 0 <= b < 256

  /** A path as a sequence of code units; conversions between encodings are not modelled. */
  type Path = string

  /** A UTF-16 code unit, and the wide strings made of them. */
  type Unit = u: int | 0 <= u < 0x1_0000
  type Wide = seq<Unit>

  const TWO_TO_32 := 0x1_0000_0000

  /** No element occurs twice. */
  ghost predicate Distinct<T>(s: seq<T>) {
    forall i, j :: 0 <= i < j < |s| ==> s[i] != s[j]
  }

  /** The elements of `s`, as a set. */
  ghost function Elements<T>(s: seq<T>): set<T> {
    set x | x in s
  }

  lemma DistinctCons<T>(x: T, s: seq<T>)
    ensures Distinct([x] + s) <==> x !in s && Distinct(s)
  {
    var t := [x] + s;
    assert forall i :: 0 <= i < |s| ==> t[i + 1] == s[i];
    if Distinct(t) {
      forall i, j | 0 <= i < j < |s| ensures s[i] != s[j] {
        assert t[i + 1] != t[j + 1];
      }
      forall i | 0 <= i < |s| ensures s[i] != x {
        assert t[0] != t[i + 1];
      }
    }
  }
}
