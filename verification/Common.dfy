/** Small definitions shared by every module. */
module Common {
  datatype Option<+T> = None | Some(value: T)

  function Min(a: int, b: int): int { if a < b then a else b }

  function Max(a: int, b: int): int { if a > b then a else b }

  function Abs(a: int): (r: int)
    ensures r >= 0
  {
    if a < 0 then -a else a
  }

  lemma CancelFactor(p: int, q: int, d: int)
    requires d > 0 && p * d < q * d
    ensures p < q
  {
  }

  lemma DivModUnique(d: nat, q: nat, r: nat)
    requires r < d
    ensures (d * q + r) / d == q && (d * q + r) % d == r
  {
    var n := d * q + r;
    var a := n / d;
    assert n == d * a + n % d;
    assert (q + 1) * d == d * q + d && (a + 1) * d == d * a + d;
    CancelFactor(a, q + 1, d);
    CancelFactor(q, a + 1, d);
  }
}
