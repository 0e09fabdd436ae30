// What several modules share.

module Common {

  datatype Option<+T> = None | Some(value: T)

  const UINT32 := 0x1_0000_0000

  /** No value occurs twice. */
  ghost predicate Distinct<T>(s: seq<T>) {
    forall i, j | 0 <= i < j < |s| :: s[i] != s[j]
  }

  function Flatten<T>(ss: seq<seq<T>>): seq<T> {
    if ss == [] then [] else ss[0] + Flatten(ss[1..])
  }

  lemma Assoc<T>(a: seq<T>, b: seq<T>, c: seq<T>)
    ensures (a + b) + c == a + (b + c) && a + [] == a
  {
  }

  lemma MulMono(a: int, b: int, c: nat)
    requires a <= b
    ensures a * c <= b * c
  {
  }

  lemma AtLeastOnce(k: int, c: int)
    requires k >= 1 && c > 0
    ensures k * c >= c
  {
  }

  lemma QuotientUnique(q1: int, r1: int, q2: int, r2: int, c: int)
    requires 0 <= r1 < c && 0 <= r2 < c && q1 * c + r1 == q2 * c + r2
    ensures q1 == q2 && r1 == r2
  {
    if q1 < q2 {
      AtLeastOnce(q2 - q1, c);
    } else if q2 < q1 {
      AtLeastOnce(q1 - q2, c);
    }
  }
}
