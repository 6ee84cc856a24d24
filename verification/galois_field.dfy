/** The logarithm tables of the Reed-Solomon decoder: field_create, field_mul, field_div, field_pow and their kin. */
module GaloisField {
  import opened Bytes
  import opened Galois
  import opened GaloisPowers

  function Doubled(element: bv16): bv16 { element * 2 }

  /** One round of field_create's loop on a 16-bit element. */
  function NextElement(poly: bv16, element: bv16): bv16 {
    if Doubled(element) > 255 then Xor16(Doubled(element), poly) else Doubled(element)
  }

  /** The element after n rounds, which is also the index into the 256 logarithms at which round n < 256 writes. */
  function Element(poly: bv16, n: nat): bv16 {
    if n == 0 then 1 else NextElement(poly, Element(poly, n - 1))
  }

  /** The polynomial has degree 8. */
  predicate Degree8(poly: bv16) { 0x100 <= poly < 0x200 }

  lemma NextIsByte(poly: bv16, element: bv16)
    requires Degree8(poly) && element <= 255
    ensures NextElement(poly, element) <= 255
  {
  }

  lemma {:induction false} ElementIsByte(poly: bv16, n: nat)
    requires Degree8(poly)
    ensures Element(poly, n) <= 255
    decreases n
  {
    hide NextElement, Degree8;
    if n > 0 {
      ElementIsByte(poly, n - 1);
      NextIsByte(poly, Element(poly, n - 1));
    }
  }

  lemma FirstRounds(poly: bv16)
    ensures NextElement(poly, 1) == 2 && NextElement(poly, 2) == 4 && NextElement(poly, 4) == 8
    ensures NextElement(poly, 8) == 0x10 && NextElement(poly, 0x10) == 0x20 && NextElement(poly, 0x20) == 0x40
    ensures NextElement(poly, 0x40) == 0x80 && NextElement(poly, 0x80) == Xor16(0x100, poly)
  {
  }

  lemma EighthElement(poly: bv16)
    ensures Element(poly, 8) == Xor16(0x100, poly)
  {
    hide NextElement, Xor16;
    FirstRounds(poly);
    assert Element(poly, 1) == NextElement(poly, Element(poly, 0));
    assert Element(poly, 2) == 4 && Element(poly, 3) == 8 && Element(poly, 4) == 0x10;
    assert Element(poly, 5) == 0x20 && Element(poly, 6) == 0x40 && Element(poly, 7) == 0x80;
  }

  lemma ReducedIsByteIff(poly: bv16)
    ensures Xor16(0x100, poly) <= 255 <==> Degree8(poly)
  {
  }

  /** The writes to the 256 logarithms stay inside the table exactly for the polynomials of degree 8. */
  lemma WritesStayInsideIff(poly: bv16)
    ensures (forall n: nat | 1 <= n < 256 :: Element(poly, n) <= 255) <==> Degree8(poly)
  {
    hide Element, Degree8, Xor16;
    if Degree8(poly) {
      forall n: nat | 1 <= n < 256 ensures Element(poly, n) <= 255 { ElementIsByte(poly, n); }
    } else {
      EighthElement(poly);
      ReducedIsByteIff(poly);
    }
  }

  lemma ModulusOfLow(poly: bv16)
    requires Degree8(poly)
    ensures Modulus(LowByte(poly)) == poly
  {
  }

  /** C's conversion to an 8-bit element. */
  function Narrow(element: bv16): bv8 { (element & 0xFF) as bv8 }

  lemma DoubledIs(a: bv8)
    ensures Doubled(Widen(a)) == Twice(Widen(a)) && (Doubled(Widen(a)) > 255 <==> Bit7(a))
  {
  }

  lemma TwiceIs(a: bv8)
    requires !Bit7(a)
    ensures Twice(Widen(a)) == Widen(Double(a))
  {
  }

  lemma ReducedIs(low: bv8, a: bv8)
    requires Bit7(a)
    ensures Xor16(Twice(Widen(a)), Modulus(low)) == Widen(Add(Double(a), low))
  {
  }

  lemma NextIsXtime(low: bv8, a: bv8)
    ensures NextElement(Modulus(low), Widen(a)) == Widen(Xtime(low, a))
  {
    hide Doubled, Twice, Widen, Bit7, Double, Xor16, Add, Modulus;
    DoubledIs(a);
    if Bit7(a) {
      ReducedIs(low, a);
    } else {
      TwiceIs(a);
      AddCancels(Double(a));
    }
  }

  lemma NarrowWiden(a: bv8)
    ensures Narrow(Widen(a)) == a
  {
  }

  lemma FirstElement(low: bv8)
    ensures Power(low, 0) == Narrow(1) && 1 == Widen(Power(low, 0))
  {
  }

  /** C's `%`: the remainder has the sign of the dividend. */
  function TruncMod(x: int, m: int): int
    requires m > 0
  {
    if x >= 0 then x % m else -((-x) % m)
  }

  /** The n-fold product. */
  function Repeated(low: bv8, a: bv8, n: nat): bv8 {
    if n == 0 then 1 else Product(low, a, Repeated(low, a, n - 1))
  }

  class Field {
    ghost const low: bv8
    const exp: array<bv8>
    const log: array<nat>

    /** exp holds the powers of alpha, and log, where it holds anything, an exponent of each of them. */
    ghost predicate Valid()
      reads exp, log
    {
      && exp.Length == 512 && log.Length == 256
      && (forall i | 0 <= i < 512 :: exp[i] == Power(low, i))
      && (forall i | 0 <= i < 256 :: log[i] <= 255)
      && (Primitive(low) ==> log[0] == 0)
      && (forall i | 1 <= i <= 255 :: LogIs(i))
    }

    /** The table has an exponent for the i-th power. */
    ghost predicate LogIs(i: nat)
      requires log.Length == 256
      reads log
    {
      var l := log[Value(Power(low, i))];
      1 <= l <= 255 && Power(low, l) == Power(low, i)
    }

    /**
     * field_create for a polynomial whose writes stay inside the table; the memory it gets for the logarithms may hold
     * anything.
     */
    constructor (poly: bv16, memory: seq<bv8>)
      requires |memory| == 256 && Degree8(poly)
      ensures Valid() && fresh(exp) && fresh(log) && low == LowByte(poly)
    {
      hide Power, Value, NextElement, Widen, Narrow, Modulus, LowByte, Degree8;
      ModulusOfLow(poly);
      low := LowByte(poly);
      exp := new bv8[512];
      log := new nat[256](i requires 0 <= i < 256 => Value(memory[i]));
      new;
      var element: bv16 := 1;
      FirstElement(low);
      exp[0] := Narrow(element);
      log[0] := 0;
      for i := 1 to 512
        invariant element == Widen(Power(low, i - 1))
        invariant forall k | 0 <= k < i :: exp[k] == Power(low, k)
        invariant forall k | 0 <= k < 256 :: log[k] <= 255
        invariant Primitive(low) ==> log[0] == 0
        invariant forall k | 1 <= k < i && k < 256 :: LogIs(k)
      {
        if Primitive(low) { PowerNonZero(low, i); }
        element := Fill(poly, i, element);
      }
    }

    /** The body of field_create's loop. */
    method Fill(poly: bv16, i: nat, element: bv16) returns (next: bv16)
      requires exp.Length == 512 && log.Length == 256 && 1 <= i < 512 && poly == Modulus(low)
      requires element == Widen(Power(low, i - 1))
      requires forall k | 0 <= k < i :: exp[k] == Power(low, k)
      requires forall k | 0 <= k < 256 :: log[k] <= 255
      requires forall k | 1 <= k < i && k < 256 :: LogIs(k)
      modifies exp, log
      ensures next == Widen(Power(low, i))
      ensures forall k | 0 <= k <= i :: exp[k] == Power(low, k)
      ensures forall k | 0 <= k < 256 :: log[k] <= 255
      ensures forall k | 1 <= k <= i && k < 256 :: LogIs(k)
      ensures Power(low, i) != 0 ==> log[0] == old(log[0])
    {
      hide Power, Value, NextElement, Widen, Narrow;
      PowerNext(low, i);
      NextIsXtime(low, Power(low, i - 1));
      NarrowWiden(Power(low, i));
      next := NextElement(poly, element);
      exp[i] := Narrow(next);
      if i < 256 {
        ValueZero(Power(low, i));
        log[Value(Narrow(next))] := i;
        forall k | 1 <= k < i ensures LogIs(k) {
          assert old(LogIs(k));
          if Value(Power(low, k)) == Value(Power(low, i)) { SameValue(Power(low, k), Power(low, i)); }
        }
      }
    }

    /** The stored logarithm of a non-zero element. */
    lemma LogOf(a: bv8)
      requires Valid() && Primitive(low) && a != 0
      ensures 1 <= log[Value(a)] <= 255 && Power(low, log[Value(a)]) == a
    {
      hide Power, Value;
      var i := EveryElementIsPower(low, a);
      assert LogIs(i);
    }

    /** field_mul is multiplication in the field. */
    function Mul(l: bv8, r: bv8): (p: bv8)
      requires Valid()
      reads exp, log
      ensures Primitive(low) ==> p == Product(low, l, r)
    {
      hide Power, Value, Product, Primitive;
      ProductZero(low, l);
      ProductZero(low, r);
      if l == 0 || r == 0 then 0
      else
        MulOf(l, r);
        exp[log[Value(l)] + log[Value(r)]]
    }

    lemma MulOf(l: bv8, r: bv8)
      requires Valid() && l != 0 && r != 0
      ensures Primitive(low) ==> Power(low, log[Value(l)] + log[Value(r)]) == Product(low, l, r)
    {
      hide Power, Value, Product, Primitive;
      if Primitive(low) {
        LogOf(l);
        LogOf(r);
        PowerAdds(low, log[Value(l)], log[Value(r)]);
      }
    }

    /** The index field_div looks up: the difference of the logarithms, moved up by 255. */
    function Quotient(l: bv8, r: bv8): (res: int)
      requires Valid()
      reads log, exp
      ensures 0 <= res < 512
    {
      hide Power, Value;
      255 + (log[Value(l)] as int) - log[Value(r)] as int
    }

    lemma QuotientOf(l: bv8, r: bv8)
      requires Valid() && Primitive(low) && l != 0 && r != 0
      ensures Product(low, exp[Quotient(l, r)], r) == l
    {
      hide Power, Value, Product, Primitive;
      LogOf(l);
      LogOf(r);
      PowerAdds(low, Quotient(l, r), log[Value(r)]);
      PowerPeriod(low, 1, log[Value(l)]);
    }

    /** field_div undoes multiplication; division by zero gives zero. */
    function Div(l: bv8, r: bv8): (q: bv8)
      requires Valid()
      reads exp, log
      ensures r == 0 ==> q == 0
      ensures Primitive(low) && r != 0 ==> Product(low, q, r) == l
    {
      hide Power, Value, Product, Quotient, Primitive;
      ProductZero(low, r);
      if l == 0 then 0
      else if r == 0 then 0
      else
        DivOf(l, r);
        exp[Quotient(l, r)]
    }

    lemma DivOf(l: bv8, r: bv8)
      requires Valid() && l != 0 && r != 0
      ensures Primitive(low) ==> Product(low, exp[Quotient(l, r)], r) == l
    {
      hide Quotient, Power, Product, Primitive;
      if Primitive(low) { QuotientOf(l, r); }
    }

    /** field_mul_log_element. */
    function MulLogElement(l: nat, r: nat): (p: bv8)
      requires Valid() && l <= 255 && r <= 255
      reads exp, log
      ensures p == Product(low, Power(low, l), Power(low, r))
    {
      hide Power, Value, Product;
      PowerAdds(low, l, r);
      exp[l + r]
    }

    /** field_pow, on mathematical integers. */
    function Pow(a: bv8, n: int): (p: bv8)
      requires Valid() && Primitive(low)
      reads exp, log
      ensures a == 0 ==> p == 1
      ensures a != 0 && n >= 0 ==> p == Repeated(low, a, n)
      ensures a != 0 && n < 0 ==> p == Repeated(low, Div(1, a), -n)
    {
      hide Power, Value, Product, Repeated, Div, Primitive;
      var rem := TruncMod(log[Value(a)] * n, 255);
      TruncModRange(log[Value(a)] * n);
      if a == 0 then
        ValueZero(a);
        assert log[Value(a)] * n == 0;
        PowerZero(low);
        exp[if rem < 0 then rem + 255 else rem]
      else
        PowCorrect(a, n);
        exp[if rem < 0 then rem + 255 else rem]
    }

    lemma PowCorrect(a: bv8, n: int)
      requires Valid() && Primitive(low) && a != 0
      ensures var mod := (log[Value(a)] * n) % 255;
              Power(low, mod) == if n >= 0 then Repeated(low, a, n) else Repeated(low, Div(1, a), -n)
    {
      hide Power, Value, Product, Repeated, Primitive;
      LogOf(a);
      var l := log[Value(a)];
      if n >= 0 {
        PowerMod(low, l * n);
        PowerTimes(low, l, n);
      } else {
        InverseIsPower(a);
        NegativeMod(l, -n);
        assert l * n == -(l * -n);
        PowerMod(low, (255 - l) * -n);
        PowerTimes(low, 255 - l, -n);
      }
    }

    lemma InverseIsPower(a: bv8)
      requires Valid() && Primitive(low) && a != 0
      ensures log[Value(a)] <= 255 && Div(1, a) == Power(low, 255 - log[Value(a)])
    {
      hide Power, Value, Product, Primitive;
      LogOf(a);
      LogOfOne();
      PowerPeriod(low, 1, 255 - log[Value(a)]);
    }

    /** The logarithm of one is stored as 255, not 0. */
    lemma LogOfOne()
      requires Valid() && Primitive(low)
      ensures log[Value(1)] == 255
    {
      hide Power, Value;
      LogOf(1);
    }
  }

  /** field_mul_log: logarithms stay between 0 and 255. */
  function MulLog(l: nat, r: nat): (s: nat)
    requires l <= 255 && r <= 255
    ensures s <= 255
    ensures forall low | Primitive(low) :: Power(low, s) == Product(low, Power(low, l), Power(low, r))
  {
    hide Power, Product, Primitive;
    SumOfLogs(l, r);
    if l + r > 255 then
      l + r - 255
    else
      l + r
  }

  lemma SumOfLogs(l: nat, r: nat)
    requires l <= 255 && r <= 255
    ensures forall low | Primitive(low) ::
              Power(low, if l + r > 255 then l + r - 255 else l + r) == Product(low, Power(low, l), Power(low, r))
  {
    hide Power, Product, Primitive;
    forall low | Primitive(low)
      ensures Power(low, if l + r > 255 then l + r - 255 else l + r) == Product(low, Power(low, l), Power(low, r))
    {
      PowerAdds(low, l, r);
      if l + r > 255 { PowerPeriod(low, 1, l + r - 255); }
    }
  }

  /** field_div_log. */
  function DivLog(l: nat, r: nat): (s: nat)
    requires l <= 255 && r <= 255
    ensures s <= 255
    ensures forall low | Primitive(low) :: Product(low, Power(low, s), Power(low, r)) == Power(low, l)
  {
    hide Power, Product, Primitive;
    DifferenceOfLogs(l, r);
    if 255 + l - r > 255 then
      l - r
    else
      255 + l - r
  }

  lemma DifferenceOfLogs(l: nat, r: nat)
    requires l <= 255 && r <= 255
    ensures forall low | Primitive(low) ::
              Product(low, Power(low, if l > r then l - r else 255 + l - r), Power(low, r)) == Power(low, l)
  {
    hide Power, Product, Primitive;
    forall low | Primitive(low)
      ensures Product(low, Power(low, if l > r then l - r else 255 + l - r), Power(low, r)) == Power(low, l)
    {
      if l > r {
        PowerAdds(low, l - r, r);
      } else {
        PowerAdds(low, 255 + l - r, r);
        PowerPeriod(low, 1, l);
      }
    }
  }

  /** field_sum: the n-fold sum. */
  function SumOf(a: bv8, n: nat): (s: bv8)
    ensures s == RepeatedSum(a, n)
  {
    RepeatedSumIs(a, n);
    if n % 2 == 1 then a else 0
  }

  function RepeatedSum(a: bv8, n: nat): bv8 {
    if n == 0 then 0 else Add(a, RepeatedSum(a, n - 1))
  }

  lemma AddCancels(a: bv8)
    ensures Add(a, a) == 0 && Add(a, 0) == a
  {
  }

  lemma {:induction false} RepeatedSumIs(a: bv8, n: nat)
    ensures RepeatedSum(a, n) == if n % 2 == 1 then a else 0
  {
    hide Add;
    AddCancels(a);
    if n > 0 {
      RepeatedSumIs(a, n - 1);
    }
  }

  // The field

  lemma {:induction false} PowerDistributes(low: bv8, i: nat, b: bv8, c: bv8)
    ensures Product(low, Power(low, i), Add(b, c)) ==
            Add(Product(low, Power(low, i), b), Product(low, Power(low, i), c))
    decreases i
  {
    hide Product, Xtime, Add;
    if i == 0 {
      ProductOne(low, b);
      ProductOne(low, c);
      ProductOne(low, Add(b, c));
    } else {
      PowerDistributes(low, i - 1, b, c);
      ProductXtime(low, Power(low, i - 1), b);
      ProductXtime(low, Power(low, i - 1), c);
      ProductXtime(low, Power(low, i - 1), Add(b, c));
      XtimeLinear(low, Product(low, Power(low, i - 1), b), Product(low, Power(low, i - 1), c));
    }
  }

  /** Reduced carry-less multiplication distributes over exclusive or. */
  lemma ProductDistributes(low: bv8, a: bv8, b: bv8, c: bv8)
    requires Primitive(low)
    ensures Product(low, a, Add(b, c)) == Add(Product(low, a, b), Product(low, a, c))
  {
    hide Product, Power, Add, Primitive;
    if a == 0 {
      ProductZero(low, b);
      ProductZero(low, c);
      ProductZero(low, Add(b, c));
      AddCancels(0);
    } else {
      var i := EveryElementIsPower(low, a);
      PowerDistributes(low, i, b, c);
    }
  }

  /** It commutes. */
  lemma ProductCommutes(low: bv8, a: bv8, b: bv8)
    requires Primitive(low)
    ensures Product(low, a, b) == Product(low, b, a)
  {
    hide Product, Power, Primitive;
    ProductZero(low, a);
    ProductZero(low, b);
    if a != 0 && b != 0 {
      var i := EveryElementIsPower(low, a);
      var j := EveryElementIsPower(low, b);
      PowerAdds(low, i, j);
      PowerAdds(low, j, i);
    }
  }

  /** It associates. */
  lemma ProductAssociates(low: bv8, a: bv8, b: bv8, c: bv8)
    requires Primitive(low)
    ensures Product(low, Product(low, a, b), c) == Product(low, a, Product(low, b, c))
  {
    hide Product, Power, Primitive;
    ProductZero(low, a);
    ProductZero(low, b);
    ProductZero(low, c);
    ProductZero(low, Product(low, a, b));
    ProductZero(low, Product(low, b, c));
    if a != 0 && b != 0 && c != 0 {
      var i := EveryElementIsPower(low, a);
      var j := EveryElementIsPower(low, b);
      var k := EveryElementIsPower(low, c);
      PowerAdds(low, i, j);
      PowerAdds(low, i + j, k);
      PowerAdds(low, j, k);
      PowerAdds(low, i, j + k);
    }
  }

  /** A product determines its other factor, so a quotient is the only one. */
  lemma QuotientIsUnique(low: bv8, p: bv8, q: bv8, r: bv8)
    requires Primitive(low) && r != 0 && Product(low, p, r) == Product(low, q, r)
    ensures p == q
  {
    hide Product, Power;
    var k := EveryElementIsPower(low, r);
    PowerAdds(low, k, 255 - k);
    ProductAssociates(low, p, r, Power(low, 255 - k));
    ProductAssociates(low, q, r, Power(low, 255 - k));
    ProductOne(low, p);
    ProductOne(low, q);
  }

  /** field_div undoes field_mul. */
  lemma DivMul(f: Field, l: bv8, r: bv8)
    requires f.Valid() && Primitive(f.low) && r != 0
    ensures f.Div(f.Mul(l, r), r) == l
  {
    hide Product, Primitive, Power;
    QuotientIsUnique(f.low, f.Div(f.Mul(l, r), r), l, r);
  }

  /** field_pow is the n-fold product for n >= 0, except that the powers of zero come out as one. */
  lemma PowIsRepeatedIff(f: Field, a: bv8, n: nat)
    requires f.Valid() && Primitive(f.low)
    ensures f.Pow(a, n) == Repeated(f.low, a, n) <==> a != 0 || n == 0
  {
    hide Product, Value, TruncMod, Primitive, Power;
    if a == 0 && n > 0 {
      ProductZero(f.low, Repeated(f.low, a, n - 1));
    }
  }

  /**
   * field_mul multiplies, on all pairs, exactly when the polynomial is primitive: with any other one it misses a
   * product by one, whatever the memory held.
   */
  lemma MulMultipliesIff(f: Field)
    requires f.Valid()
    ensures (forall l, r :: f.Mul(l, r) == Product(f.low, l, r)) <==> Primitive(f.low)
  {
    hide Product, Primitive, Power, Value;
    if !Primitive(f.low) {
      var a := MissingElement(f.low);
      ProductOne(f.low, a);
      assert f.Mul(a, 1) == Power(f.low, f.log[Value(a)] + f.log[Value(1)]);
    }
  }

  // Exponents

  lemma TruncModRange(x: int)
    ensures var rem := TruncMod(x, 255); (if rem < 0 then rem + 255 else rem) == x % 255
  {
    if x < 0 {
      assert -x == 255 * ((-x) / 255) + (-x) % 255;
      ModUnique(x, -((-x) / 255) - 1, 255 - (-x) % 255);
    }
  }

  lemma ModUnique(x: int, q: int, rem: int)
    requires x == 255 * q + rem && 0 <= rem <= 255
    ensures x % 255 == if rem == 255 then 0 else rem
  {
  }

  lemma PowerMod(low: bv8, x: nat)
    requires Primitive(low)
    ensures Power(low, x % 255) == Power(low, x)
  {
    hide Power, Primitive;
    PowerPeriod(low, x / 255, x % 255);
  }

  lemma {:induction false} PowerTimes(low: bv8, l: nat, n: nat)
    ensures Power(low, l * n) == Repeated(low, Power(low, l), n)
    decreases n
  {
    hide Power, Product;
    if n == 0 {
      PowerZero(low);
    } else {
      PowerTimes(low, l, n - 1);
      PowerAdds(low, l, l * (n - 1));
      assert l * n == l + l * (n - 1);
    }
  }

  lemma NegativeMod(l: nat, m: nat)
    requires l <= 255
    ensures (-(l * m)) % 255 == ((255 - l) * m) % 255 && (255 - l) * m >= 0
  {
    assert (255 - l) * m == 255 * m - l * m;
    var x := -(l * m);
    assert (x + 255 * m) % 255 == x % 255;
  }
}
