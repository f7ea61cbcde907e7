/** Small types and facts shared by all models. */
module Common {

  datatype Option<+T> = None | Some(value: T)

  /** A Python call that returns or raises. */
  datatype Result<+T> = Ok(value: T) | Err(reason: string)

  function Min(a: int, b: int): int { if a <= b then a else b }
  function Max(a: int, b: int): int { if a >= b then a else b }

  lemma MulMonotone(a: int, b: int, c: int)
    requires a <= b && c >= 0
    ensures a * c <= b * c
  {
    assert b * c == a * c + (b - a) * c;
    assert (b - a) * c >= 0;
  }

  /** A product with a larger factor is larger by at least the other factor. */
  lemma Grows(y: int, a: int, b: int)
    requires y > 0 && a < b
    ensures y * a + y <= y * b
  {
    assert y * b == y * a + y + y * (b - a - 1);
    assert y * (b - a - 1) >= 0;
  }

  /** Quotient and remainder are unique. */
  lemma QuotientIs(x: int, y: int, q: int, r: int)
    requires y > 0 && 0 <= r < y && x == y * q + r
    ensures x / y == q && x % y == r
  {
    var q', r' := x / y, x % y;
    assert x == y * q' + r';
    if q' < q { Grows(y, q', q); }
    if q < q' { Grows(y, q, q'); }
  }

  lemma MultipleDivides(q: int, a: int)
    requires a > 0
    ensures (a * q) % a == 0 && (q * a) % a == 0
  {
    QuotientIs(a * q, a, q, 0);
    assert q * a == a * q;
  }

  /** What is missing to the next multiple of n. */
  function Missing(len: nat, n: nat): nat
    requires n > 0
  {
    if len % n == 0 then 0 else n - len % n
  }

  lemma MissingFills(len: nat, n: nat) returns (s: nat)
    requires n > 0
    ensures len + Missing(len, n) == n * s
    ensures Missing(len, n) == (n - len % n) % n
  {
    s := if len % n == 0 then len / n else len / n + 1;
    assert len == n * (len / n) + len % n;
    assert n * (len / n + 1) == n * (len / n) + n;
  }

  lemma MissingNone(n: nat, s: nat)
    requires n > 0
    ensures (n * s) % n == 0 && Missing(n * s, n) == 0
  {
    MultipleDivides(s, n);
  }

  lemma SameLength<T>(a: seq<T>, b: seq<T>)
    requires multiset(a) == multiset(b)
    ensures |a| == |b|
  {
    assert |multiset(a)| == |a| && |multiset(b)| == |b|;
  }
}
