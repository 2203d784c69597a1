/** Optional values, and remainders of successive numbers. */
module Helpers {
  datatype Option<+T> = None | Some(value: T)

  lemma NextMod(k: nat, m: nat)
    requires m > 0
    ensures (k + 1) % m == if k % m == m - 1 then 0 else k % m + 1
  {
    var q := k / m;
    assert k == m * q + k % m;
    if k % m == m - 1 {
      ModIs(k + 1, m, q + 1, 0);
    } else {
      ModIs(k + 1, m, q, k % m + 1);
    }
  }

  /** Division with remainder is unique. */
  lemma ModIs(a: int, m: int, q: int, r: int)
    requires 0 <= r < m && a == m * q + r
    ensures a % m == r
  {
    var d := a / m - q;
    assert a == m * (a / m) + a % m;
    assert m * d == r - a % m;
    assert d >= 1 ==> m * d >= m;
    assert d <= -1 ==> m * d <= -m;
  }
}
