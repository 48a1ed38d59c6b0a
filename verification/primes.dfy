/** Trial division by odd numbers up to the square root. */
module Primes {

  predicate Divides(d: int, n: int)
    requires d > 0
  {
    n % d == 0
  }

  ghost predicate Prime(n: int) {
    n >= 2 && forall d {:trigger Divides(d, n)} :: 2 <= d < n ==> !Divides(d, n)
  }

  lemma DividesTimes(d: int, n: int, q: int)
    requires d > 0 && n == d * q
    ensures Divides(d, n) && n / d == q
  {
    assert n == q * d + 0;
    QuotientRemainder(n, d, q, 0);
  }

  lemma QuotientRemainder(n: int, d: int, q: int, r: int)
    requires d > 0 && n == q * d + r && 0 <= r < d
    ensures n / d == q && n % d == r
  {
    var k := q - n / d;
    assert n == (n / d) * d + n % d;
    assert k * d == q * d - (n / d) * d;
    AtLeastOne(k, d);
    AtLeastOne(-k, d);
    assert (-k) * d == -(k * d);
  }

  lemma AtLeastOne(k: int, d: int)
    requires d > 0
    ensures k >= 1 ==> k * d >= d
  {
  }

  lemma ProperCofactor(n: int, d: int, q: int)
    requires n == d * q && 2 <= d < n
    ensures 2 <= q < n
  {
    assert q <= 1 ==> d * q <= d;
    assert q >= 2 ==> d * q >= 2 * q;
  }

  lemma SmallerFactor(n: int, d: int, q: int)
    requires n == d * q && d >= 1 && q >= 1
    ensures d * d <= n || q * q <= n
  {
    if d <= q {
      assert d * d <= d * q;
    } else {
      assert q * q <= d * q;
    }
  }

  /** A composite number has a divisor no larger than its square root; an odd one has an odd one. */
  lemma SmallDivisor(n: int, d: int) returns (e: int)
    requires n % 2 == 1 && 2 <= d < n && Divides(d, n)
    ensures 3 <= e && e % 2 == 1 && e * e <= n && Divides(e, n)
  {
    var q := n / d;
    assert n == d * q;
    OddFactors(n, d, q);
    ProperCofactor(n, d, q);
    SmallerFactor(n, d, q);
    DividesTimes(q, n, d);
    e := if d * d <= n then d else q;
  }

  lemma OddFactors(n: int, d: int, q: int)
    requires n == d * q && n % 2 == 1
    ensures d % 2 == 1 && q % 2 == 1
  {
    var a, b := d / 2, q / 2;
    assert d % 2 == 0 ==> n == 2 * (a * q);
    assert q % 2 == 0 ==> n == 2 * (d * b);
  }

  lemma SquareGrows(i: int, e: int)
    requires i >= 0
    ensures e >= i ==> e * e >= i * i
  {
    assert e >= i ==> e * e >= e * i >= i * i;
  }

  /** No odd number from 3 up to but excluding `i` divides `num`. */
  ghost predicate NoOddDivisorBelow(i: int, num: int) {
    forall d {:trigger Divides(d, num)} :: 3 <= d < i && d % 2 == 1 ==> !Divides(d, num)
  }

  /** When no odd number up to the square root divides it, an odd number is prime. */
  lemma NoneDivides(num: int, i: int)
    requires num >= 3 && num % 2 == 1 && i >= 3 && i * i > num && NoOddDivisorBelow(i, num)
    ensures Prime(num)
  {
    forall d {:trigger Divides(d, num)} | 2 <= d < num
      ensures !Divides(d, num)
    {
      if Divides(d, num) {
        var e := SmallDivisor(num, d);
        SquareGrows(i, e);
      }
    }
  }

  lemma SquareBounds(i: int, num: int)
    requires i >= 3 && i * i <= num
    ensures i < num
  {
    assert i * i >= 3 * i;
  }

  /** is_prime, for any value of the bound mx: 1 exactly for the primes up to it. */
  method IsPrime(num: int, mx: int) returns (r: int)
    ensures r == 0 || r == 1
    ensures r == 1 <==> Prime(num) && num <= mx
  {
    if num <= 1 || num > mx {
      return 0;
    }
    if num == 2 {
      return 1;
    }
    if num % 2 == 0 {
      assert Divides(2, num);
      return 0;
    }
    var i := 3;
    while i * i <= num
      invariant i >= 3 && i % 2 == 1 && NoOddDivisorBelow(i, num)
      decreases num - i
    {
      SquareBounds(i, num);
      if num % i == 0 {
        assert Divides(i, num);
        return 0;
      }
      assert !Divides(i, num);
      i := i + 2;
    }
    NoneDivides(num, i);
    return 1;
  }
}
