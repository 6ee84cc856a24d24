/**
 * The powers of alpha. For a primitive polynomial they run through all 255 non-zero elements, so multiplication is
 * addition of logarithms; for any other one some element is left out.
 */
module GaloisPowers {
  import opened Bytes
  import opened Galois

  /** The i-th power of alpha. */
  function Power(low: bv8, i: nat): bv8 {
    if i == 0 then 1 else Xtime(low, Power(low, i - 1))
  }

  /** The order of alpha is 255. */
  ghost predicate Primitive(low: bv8) {
    Power(low, 255) == 1 && forall d | 0 < d < 255 :: Power(low, d) != 1
  }

  lemma PowerZero(low: bv8)
    ensures Power(low, 0) == 1
  {
  }

  lemma PowerNext(low: bv8, i: nat)
    requires i >= 1
    ensures Power(low, i) == Xtime(low, Power(low, i - 1))
  {
  }

  lemma {:induction false} PowerAdds(low: bv8, i: nat, j: nat)
    ensures Power(low, i + j) == Product(low, Power(low, i), Power(low, j))
  {
    hide Product, Xtime;
    if i == 0 {
      ProductOne(low, Power(low, j));
    } else {
      PowerAdds(low, i - 1, j);
      ProductXtime(low, Power(low, i - 1), Power(low, j));
    }
  }

  lemma {:induction false} PowerRepeats(low: bv8, d: nat, k: nat, s: nat)
    requires Power(low, d) == 1
    ensures Power(low, k * d + s) == Power(low, s)
    decreases k
  {
    hide Power, Product;
    if k > 0 {
      PowerRepeats(low, d, k - 1, s);
      PowerAdds(low, d, (k - 1) * d + s);
      ProductOne(low, Power(low, (k - 1) * d + s));
      assert k * d + s == d + ((k - 1) * d + s);
    }
  }

  lemma PowerPeriod(low: bv8, q: nat, s: nat)
    requires Primitive(low)
    ensures Power(low, 255 * q + s) == Power(low, s)
  {
    hide Power;
    PowerRepeats(low, 255, q, s);
  }

  lemma PowerNonZero(low: bv8, i: nat)
    requires Primitive(low)
    ensures Power(low, i) != 0
  {
    hide Power, Product;
    PowerAdds(low, i, 255 * (i + 1) - i);
    PowerPeriod(low, i + 1, 0);
    PowerZero(low);
    ProductZero(low, Power(low, 255 * (i + 1) - i));
  }

  // Fermat's prime factors: 255 = 3 * 5 * 17

  /** An inverse of r modulo the prime 17, 5 or 3. */
  lemma Inverse(r: nat, prime: nat) returns (s: nat, t: nat)
    requires (prime == 17 || prime == 5 || prime == 3) && 0 < r < prime
    ensures r * s == prime * t + 1
  {
    if prime == 3 {
      match r
        case 1 => s, t := 1, 0; case 2 => s, t := 2, 1;
    } else if prime == 5 {
      match r
        case 1 => s, t := 1, 0; case 2 => s, t := 3, 1; case 3 => s, t := 2, 1; case 4 => s, t := 4, 3;
    } else {
      match r
        case 1 => s, t := 1, 0; case 2 => s, t := 9, 1; case 3 => s, t := 6, 1; case 4 => s, t := 13, 3;
        case 5 => s, t := 7, 2; case 6 => s, t := 3, 1; case 7 => s, t := 5, 2; case 8 => s, t := 15, 7;
        case 9 => s, t := 2, 1; case 10 => s, t := 12, 7; case 11 => s, t := 14, 9; case 12 => s, t := 10, 7;
        case 13 => s, t := 4, 3; case 14 => s, t := 11, 9; case 15 => s, t := 8, 7; case 16 => s, t := 16, 15;
    }
  }

  lemma Exponents(d: nat, prime: nat, e: nat, s: nat, t: nat)
    requires prime > 0 && e * prime == 255 && (d % prime) * s == prime * t + 1
    ensures (e * s) * d == (s * (d / prime) + t) * 255 + e
  {
    var q, r := d / prime, d % prime;
    assert d == prime * q + r;
    calc {
      (e * s) * d;
      (e * s) * (prime * q + r);
      (e * prime) * (s * q) + e * (r * s);
      (e * prime) * (s * q) + e * (prime * t + 1);
      255 * (s * q) + (e * prime) * t + e;
      (s * q + t) * 255 + e;
    }
  }

  lemma NoOrder(low: bv8, d: nat, prime: nat, e: nat)
    requires (prime == 17 && e == 15) || (prime == 5 && e == 51) || (prime == 3 && e == 85)
    requires Power(low, 255) == 1 && Power(low, e) != 1 && d % prime != 0
    ensures Power(low, d) != 1
  {
    hide Power;
    if Power(low, d) == 1 {
      var s, t := Inverse(d % prime, prime);
      Exponents(d, prime, e, s, t);
      PowerRepeats(low, d, e * s, 0);
      PowerRepeats(low, 255, s * (d / prime) + t, e);
      PowerZero(low);
    }
  }

  lemma SomeFactorMissing(d: nat)
    requires 0 < d < 255
    ensures d % 17 != 0 || d % 5 != 0 || d % 3 != 0
  {
    if d % 17 == 0 && d % 5 == 0 {
      assert d == 85 || d == 170;
    }
  }

  /** Four powers decide whether a polynomial is primitive. */
  lemma PrimitiveIff(low: bv8)
    ensures Primitive(low) <==>
            Power(low, 255) == 1 && Power(low, 85) != 1 && Power(low, 51) != 1 && Power(low, 15) != 1
  {
    hide Power;
    if Power(low, 255) == 1 && Power(low, 85) != 1 && Power(low, 51) != 1 && Power(low, 15) != 1 {
      forall d | 0 < d < 255 ensures Power(low, d) != 1 {
        SomeFactorMissing(d);
        if d % 17 != 0 {
          NoOrder(low, d, 17, 15);
        } else if d % 5 != 0 {
          NoOrder(low, d, 5, 51);
        } else {
          NoOrder(low, d, 3, 85);
        }
      }
    }
  }

  // The polynomials of the library's header

  /** The low bytes of the primitive polynomials it offers. */
  const OFFERED: set<bv8> :=
    {0x1D, 0x2B, 0x2D, 0x4D, 0x5F, 0x63, 0x65, 0x69, 0x71, 0x87, 0x8D, 0xA9, 0xC3, 0xCF, 0xE7, 0xF5}

  lemma FirstPowers(low: bv8)
    ensures Power(low, 1) == 2 && Power(low, 2) == 4 && Power(low, 4) == 0x10
  {
    XtimeSmall(low);
    assert Power(low, 1) == Xtime(low, Power(low, 0)) && Power(low, 2) == Xtime(low, Power(low, 1));
    assert Power(low, 3) == Xtime(low, Power(low, 2)) && Power(low, 4) == Xtime(low, Power(low, 3));
  }

  lemma XtimeSmall(low: bv8)
    ensures Xtime(low, 1) == 2 && Xtime(low, 2) == 4 && Xtime(low, 4) == 8 && Xtime(low, 8) == 0x10
  {
  }

  /** A chain of products that reaches the four exponents. */
  lemma PrimitiveBy(low: bv8, p8: bv8, p16: bv8, p17: bv8, p34: bv8, p51: bv8, p68: bv8, p85: bv8, p170: bv8)
    requires Multiples(low, 0x10, 0x10) == p8 && Multiples(low, p8, p8) == p16 && Xtime(low, p16) == p17
    requires Multiples(low, p17, p17) == p34 && Multiples(low, p34, p17) == p51 && Multiples(low, p34, p34) == p68
    requires Multiples(low, p68, p17) == p85 && Multiples(low, p85, p85) == p170 && Multiples(low, p170, p85) == 1
    requires p16 != 2 && p51 != 1 && p85 != 1
    ensures Primitive(low)
  {
    hide Power, Product, Multiples, Xtime, Primitive;
    FirstPowers(low);
    PowerAdds(low, 4, 4);
    ProductIsMultiples(low, 0x10, 0x10);
    PowerAdds(low, 8, 8);
    ProductIsMultiples(low, p8, p8);
    PowerNext(low, 17);
    PowerAdds(low, 17, 17);
    ProductIsMultiples(low, p17, p17);
    PowerAdds(low, 34, 17);
    ProductIsMultiples(low, p34, p17);
    PowerAdds(low, 34, 34);
    ProductIsMultiples(low, p34, p34);
    PowerAdds(low, 68, 17);
    ProductIsMultiples(low, p68, p17);
    PowerAdds(low, 85, 85);
    ProductIsMultiples(low, p85, p85);
    PowerAdds(low, 170, 85);
    ProductIsMultiples(low, p170, p85);
    PowerNext(low, 16);
    XtimeSmall(low);
    PrimitiveIff(low);
  }

  lemma Offered0()
    ensures Primitive(0x1D) && Primitive(0x2B)
  {
    hide Primitive, Power;
    PrimitiveBy(0x1D, 0x1D, 0x4C, 0x98, 0x4E, 0x0A, 0x99, 0xD6, 0xD7);
    PrimitiveBy(0x2B, 0x2B, 0xE9, 0xF9, 0xC5, 0x13, 0x12, 0xEB, 0xEA);
  }

  lemma Offered1()
    ensures Primitive(0x2D) && Primitive(0x4D)
  {
    hide Primitive, Power;
    PrimitiveBy(0x2D, 0x2D, 0xE5, 0xE7, 0x59, 0xDC, 0xE6, 0xBE, 0xBF);
    PrimitiveBy(0x4D, 0x4D, 0xF8, 0xBD, 0x5B, 0xA0, 0xA1, 0x1C, 0x1D);
  }

  lemma Offered2()
    ensures Primitive(0x5F) && Primitive(0x63)
  {
    hide Primitive, Power;
    PrimitiveBy(0x5F, 0x5F, 0x86, 0x53, 0xD6, 0x48, 0x49, 0x1A, 0x1B);
    PrimitiveBy(0x63, 0x63, 0xF3, 0x85, 0x75, 0x12, 0x84, 0xF0, 0xF1);
  }

  lemma Offered3()
    ensures Primitive(0x65) && Primitive(0x69)
  {
    hide Primitive, Power;
    PrimitiveBy(0x65, 0x65, 0x8B, 0x73, 0xFA, 0x61, 0x72, 0x89, 0x88);
    PrimitiveBy(0x69, 0x69, 0x03, 0x06, 0x14, 0x78, 0x79, 0x7F, 0x7E);
  }

  lemma Offered4()
    ensures Primitive(0x71) && Primitive(0x87)
  {
    hide Primitive, Power;
    PrimitiveBy(0x71, 0x71, 0xF3, 0x97, 0xBC, 0x4D, 0x4C, 0xDB, 0xDA);
    PrimitiveBy(0x87, 0x87, 0x6F, 0xDE, 0x74, 0x6C, 0xDF, 0xAA, 0xAB);
  }

  lemma Offered5()
    ensures Primitive(0x8D) && Primitive(0xA9)
  {
    hide Primitive, Power;
    PrimitiveBy(0x8D, 0x8D, 0x3D, 0x7A, 0x71, 0x35, 0x34, 0x4E, 0x4F);
    PrimitiveBy(0xA9, 0xA9, 0x18, 0x30, 0xF6, 0xDC, 0x31, 0xC6, 0xC7);
  }

  lemma Offered6()
    ensures Primitive(0xC3) && Primitive(0xCF)
  {
    hide Primitive, Power;
    PrimitiveBy(0xC3, 0xC3, 0x1F, 0x3E, 0x1D, 0x93, 0x92, 0xAC, 0xAD);
    PrimitiveBy(0xCF, 0xCF, 0x76, 0xEC, 0xD1, 0x48, 0xED, 0x3D, 0x3C);
  }

  lemma Offered7()
    ensures Primitive(0xE7) && Primitive(0xF5)
  {
    hide Primitive, Power;
    PrimitiveBy(0xE7, 0xE7, 0x7D, 0xFA, 0xCB, 0x7E, 0x7F, 0x85, 0x84);
    PrimitiveBy(0xF5, 0xF5, 0x28, 0x50, 0x0D, 0x7A, 0x51, 0x5D, 0x5C);
  }

  /** Every polynomial of the header is primitive. */
  lemma OfferedArePrimitive(low: bv8)
    requires low in OFFERED
    ensures Primitive(low)
  {
    hide Primitive;
    Offered0();
    Offered1();
    Offered2();
    Offered3();
    Offered4();
    Offered5();
    Offered6();
    Offered7();
  }

  // Which elements are powers

  /** The first powers of alpha, the 255th excluded, are distinct. */
  lemma PowersDistinct(low: bv8, i: nat, j: nat)
    requires Primitive(low) && i < j <= i + 254
    ensures Power(low, i) != Power(low, j)
  {
    hide Power, Product;
    if Power(low, i) == Power(low, j) {
      // cancel alpha^i by multiplying with alpha^(255 k - i)
      var k := i + 1;
      var c := 255 * k - i;
      PowerAdds(low, i, c);
      PowerAdds(low, j, c);
      PowerPeriod(low, k, 0);
      PowerPeriod(low, k, j - i);
      assert i + c == 255 * k + 0 && j + c == 255 * k + (j - i);
      PowerZero(low);
    }
  }

  ghost function UpTo(n: nat): set<nat> {
    if n == 0 then {} else UpTo(n - 1) + {n}
  }

  lemma {:induction false} UpToSize(n: nat)
    ensures |UpTo(n)| == n && forall x: nat :: x in UpTo(n) <==> 0 < x <= n
  {
    if n > 0 {
      UpToSize(n - 1);
    }
  }

  /** The first n powers, as numbers. */
  ghost function Reached(low: bv8, n: nat): set<nat> {
    if n == 0 then {} else Reached(low, n - 1) + {Value(Power(low, n - 1))}
  }

  lemma {:induction false} ReachedIff(low: bv8, n: nat, x: nat)
    ensures x in Reached(low, n) <==> exists i | 0 <= i < n :: Value(Power(low, i)) == x
    decreases n
  {
    hide Power, Value;
    if n > 0 {
      ReachedIff(low, n - 1, x);
      assert x == Value(Power(low, n - 1)) ==> exists i | 0 <= i < n :: Value(Power(low, i)) == x;
    }
  }

  lemma {:induction false} ReachedSize(low: bv8, n: nat)
    ensures |Reached(low, n)| <= n
    decreases n
  {
    hide Power, Value;
    if n > 0 {
      ReachedSize(low, n - 1);
    }
  }

  /** If the first n powers are distinct, they are n. */
  lemma {:induction false} DistinctSize(low: bv8, n: nat)
    requires forall i, j | 0 <= i < j < n :: Power(low, i) != Power(low, j)
    ensures |Reached(low, n)| == n
    decreases n
  {
    hide Power, Value;
    if n > 0 {
      DistinctSize(low, n - 1);
      if Value(Power(low, n - 1)) in Reached(low, n - 1) {
        ReachedIff(low, n - 1, Value(Power(low, n - 1)));
        var i :| 0 <= i < n - 1 && Value(Power(low, i)) == Value(Power(low, n - 1));
        SameValue(Power(low, i), Power(low, n - 1));
      }
    }
  }

  /** The numbers of the non-zero elements. */
  ghost function NonZero(): (s: set<nat>)
    ensures |s| == 255 && forall x: nat :: x in s <==> 0 < x < 256
  {
    hide UpTo;
    UpToSize(255);
    UpTo(255)
  }

  lemma ValueZero(a: bv8)
    ensures Value(a) == 0 <==> a == 0
  {
    hide Value;
    ValueEnds();
    if Value(a) == 0 { SameValue(a, 0); }
  }

  lemma ReachedNonZero(low: bv8, n: nat)
    requires forall i | 0 <= i < n :: Power(low, i) != 0
    ensures Reached(low, n) <= NonZero()
  {
    hide Power, Value, Reached, NonZero;
    forall x | x in Reached(low, n) ensures x in NonZero() {
      ReachedIff(low, n, x);
      var i :| 0 <= i < n && Value(Power(low, i)) == x;
      ValueZero(Power(low, i));
    }
  }

  lemma SubsetOfSameSize(s: set<nat>, t: set<nat>)
    requires s <= t
    ensures |s| <= |t| && (|s| == |t| ==> s == t)
  {
    assert t == s + (t - s);
  }

  /** alpha generates the field: 255 distinct powers leave no non-zero byte out. */
  lemma EveryElementIsPower(low: bv8, a: bv8) returns (i: nat)
    requires Primitive(low) && a != 0
    ensures 1 <= i <= 255 && Power(low, i) == a
  {
    hide Power, Value, Reached, NonZero;
    forall i, j | 0 <= i < j < 255 ensures Power(low, i) != Power(low, j) { PowersDistinct(low, i, j); }
    forall i | 0 <= i < 255 ensures Power(low, i) != 0 { PowerNonZero(low, i); }
    DistinctSize(low, 255);
    ReachedNonZero(low, 255);
    SubsetOfSameSize(Reached(low, 255), NonZero());
    ValueZero(a);
    ReachedIff(low, 255, Value(a));
    i :| 0 <= i < 255 && Value(Power(low, i)) == Value(a);
    SameValue(Power(low, i), a);
    if i == 0 {
      PowerZero(low);
      i := 255;
    }
  }

  // What goes wrong for other polynomials

  predicate Odd(a: bv8) { a & 1 == 1 }

  lemma XtimeEven(low: bv8, a: bv8)
    requires !Odd(low)
    ensures !Odd(Xtime(low, a)) && Odd(3)
  {
  }

  lemma XtimeNonZero(low: bv8, a: bv8)
    requires Odd(low) && a != 0
    ensures Xtime(low, a) != 0
  {
  }

  lemma XorZero(a: bv8, b: bv8)
    ensures Add(a, b) == 0 <==> a == b
  {
  }

  lemma XtimeInjective(low: bv8, a: bv8, b: bv8)
    requires Odd(low) && Xtime(low, a) == Xtime(low, b)
    ensures a == b
  {
    hide Odd, Xtime, Add;
    XtimeLinear(low, a, b);
    XorZero(Xtime(low, a), Xtime(low, b));
    XorZero(a, b);
    if a != b { XtimeNonZero(low, Add(a, b)); }
  }

  lemma {:induction false} OddNonZero(low: bv8, i: nat)
    requires Odd(low)
    ensures Power(low, i) != 0
    decreases i
  {
    hide Odd, Xtime;
    if i > 0 {
      OddNonZero(low, i - 1);
      XtimeNonZero(low, Power(low, i - 1));
    }
  }

  lemma {:induction false} Unwind(low: bv8, i: nat, j: nat)
    requires Odd(low) && i <= j && Power(low, i) == Power(low, j)
    ensures Power(low, j - i) == 1
    decreases i
  {
    hide Odd, Xtime;
    if i > 0 {
      XtimeInjective(low, Power(low, i - 1), Power(low, j - 1));
      Unwind(low, i - 1, j - 1);
    }
  }

  /** 256 powers cannot all be different. */
  lemma SomeOrder(low: bv8) returns (d: nat)
    requires Odd(low)
    ensures 0 < d <= 255 && Power(low, d) == 1
  {
    hide Odd, Power, Value, Reached, NonZero;
    if forall i, j | 0 <= i < j < 256 :: Power(low, i) != Power(low, j) {
      DistinctSize(low, 256);
      forall i | 0 <= i < 256 ensures Power(low, i) != 0 { OddNonZero(low, i); }
      ReachedNonZero(low, 256);
      SubsetOfSameSize(Reached(low, 256), NonZero());
      assert false;
    }
    var i, j :| 0 <= i < j < 256 && Power(low, i) == Power(low, j);
    Unwind(low, i, j);
    d := j - i;
  }

  lemma ShortOrderMisses(low: bv8, d: nat) returns (a: bv8)
    requires 0 < d < 255 && Power(low, d) == 1
    ensures a != 0 && forall k: nat :: Power(low, k) != a
  {
    hide Power, Value, Small, Reached, NonZero;
    ReachedSize(low, d);
    if NonZero() <= Reached(low, d) {
      SubsetOfSameSize(NonZero(), Reached(low, d));
    }
    var x :| x in NonZero() && x !in Reached(low, d);
    SmallRoundTrip(x);
    a := Small(x);
    ValueZero(a);
    forall k: nat ensures Power(low, k) != a {
      if Power(low, k) == a {
        PowerRepeats(low, d, k / d, k % d);
        ReachedIff(low, d, x);
      }
    }
  }

  lemma {:induction false} EvenMisses(low: bv8, k: nat)
    requires !Odd(low)
    ensures Power(low, k) != 3
  {
    hide Xtime;
    if k > 0 { XtimeEven(low, Power(low, k - 1)); }
  }

  /** Without a primitive polynomial some element is no power of alpha at all. */
  lemma MissingElement(low: bv8) returns (a: bv8)
    requires !Primitive(low)
    ensures a != 0 && forall k: nat :: Power(low, k) != a
  {
    hide Odd, Power;
    if Odd(low) {
      var d := SomeOrder(low);
      if d == 255 {
        d :| 0 < d < 255 && Power(low, d) == 1;
      }
      a := ShortOrderMisses(low, d);
    } else {
      a := 3;
      forall k: nat ensures Power(low, k) != a { EvenMisses(low, k); }
    }
  }
}
