/** Notions that several parts share. */
module Common {

  datatype Option<+T> = None | Some(value: T)

  /** One more than the greatest unsigned 32-bit word. */
  const WORD: nat := 0x1_0000_0000

  newtype byte = x: int | 0 <= x < 256

  /** The cast to char, which is unsigned here. */
  function AsChar(x: nat): byte {
    (x % 256) as byte
  }

  ghost predicate NoRepeats<T>(s: seq<T>) {
    forall i: nat, j: nat :: i < j < |s| ==> s[i] != s[j]
  }

  lemma DivisionIsUnique(n: nat, m: nat, q: nat, r: nat)
    requires r < m && n == q * m + r
    ensures n / m == q && n % m == r
  {
    var d := n / m - q;
    assert d >= 1 ==> d * m >= m;
    assert d <= -1 ==> d * m + m <= 0;
    assert d * m == r - n % m;
  }
}
