/** What several parts of the kernel share. */
module Common {

  const PGSIZE := 4096
  const MAXOPBLOCKS := 10
  const LOGSIZE := 30

  const UINT_LIMIT := 0x1_0000_0000

  type Byte = b: int | 0 <= b < 256
  type Word = x: int | 0 <= x < 0x1_0000_0000

  datatype Option<T> = None | Some(value: T)

  ghost predicate Distinct(s: seq<nat>) {
    forall i, j :: 0 <= i < j < |s| ==> s[i] != s[j]
  }

  lemma {:induction false} SubsetSize<T>(a: set<T>, b: set<T>)
    requires a <= b
    ensures |a| <= |b|
  {
    if a != {} {
      var x :| x in a;
      SubsetSize(a - {x}, b - {x});
    }
  }
}
