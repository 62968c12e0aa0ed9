/** Small definitions that several components share. */
module Common {

  datatype Option<T> = None | Some(value: T)

  function Pow2(k: nat): (p: nat)
    ensures p > 0
  {
    if k == 0 then 1 else 2 * Pow2(k - 1)
  }

  /** How often a value can be halved before it is 1 or less. */
  function HighBit(v: nat): nat {
    if v <= 1 then 0 else 1 + HighBit(v / 2)
  }

  /** Powers of two bound the value. */
  lemma {:induction false} HighBitBounds(v: nat)
    ensures v >= 1 ==> Pow2(HighBit(v)) <= v < Pow2(HighBit(v) + 1)
  {
    if v > 1 { HighBitBounds(v / 2); }
  }

  /** `k * size`, by addition: it keeps products out of proofs about sums. */
  function Times(k: nat, size: nat): nat {
    if k == 0 then 0 else Times(k - 1, size) + size
  }

  lemma {:induction false} TimesIs(k: nat, size: nat)
    ensures Times(k, size) == k * size
  {
    if k > 0 {
      TimesIs(k - 1, size);
      assert (k - 1) * size + size == k * size;
    }
  }

  lemma {:induction false} TimesAdd(a: nat, b: nat, size: nat)
    ensures Times(a + b, size) == Times(a, size) + Times(b, size)
  {
    if b > 0 { TimesAdd(a, b - 1, size); }
  }

  lemma {:induction false} TimesOrder(j: nat, k: nat, size: nat)
    requires j <= k
    ensures Times(j, size) <= Times(k, size)
  {
    if j < k { TimesOrder(j, k - 1, size); }
  }

  lemma ProductOrder(b: nat, q: nat, r: nat)
    requires q <= r
    ensures b * q <= b * r
  {
  }

  lemma DivDiv(v: nat, a: nat, b: nat)
    requires a > 0 && b > 0
    ensures v / a / b == v / (a * b)
  {
    var q := v / a;
    var h, r := q / b, q % b;
    DivParts(v, a, q, v % a, b, h, r);
    QuotientIs(v, a * b, h, a * r + v % a);
  }

  lemma DivParts(v: nat, a: nat, q: nat, x: nat, b: nat, h: nat, r: nat)
    requires x < a && v == a * q + x && q == b * h + r && r < b
    ensures v == a * b * h + (a * r + x) && a * r + x < a * b
  {
    assert a * (b * h + r) == a * b * h + a * r;
    assert a * (r + 1) <= a * b;
  }

  lemma QuotientIs(v: nat, d: nat, q: nat, r: nat)
    requires d > 0 && v == d * q + r && r < d
    ensures v / d == q
  {
    var k := v / d;
    assert v == d * k + v % d;
    if k < q { ProductOrder(d, k + 1, q); }
    if q < k { ProductOrder(d, q + 1, k); }
  }

  /** The numbers below `n`. */
  function Below(n: nat): set<nat> {
    if n == 0 then {} else Below(n - 1) + {n - 1}
  }

  lemma {:induction false} BelowCount(n: nat)
    ensures |Below(n)| == n
    ensures forall i: nat :: i in Below(n) <==> i < n
  {
    if n > 0 { BelowCount(n - 1); }
  }
}
