/** Arithmetic on bytes modulo a polynomial of degree 8, given by its low byte. */
module Galois {

  function Add(a: bv8, b: bv8): bv8 { a ^ b }

  function Scale(bit: bool, a: bv8): bv8 { if bit then a else 0 }

  function Double(a: bv8): bv8 { a << 1 }

  function Bit0(b: bv8): bool { b & 0x01 != 0 }
  function Bit1(b: bv8): bool { b & 0x02 != 0 }
  function Bit2(b: bv8): bool { b & 0x04 != 0 }
  function Bit3(b: bv8): bool { b & 0x08 != 0 }
  function Bit4(b: bv8): bool { b & 0x10 != 0 }
  function Bit5(b: bv8): bool { b & 0x20 != 0 }
  function Bit6(b: bv8): bool { b & 0x40 != 0 }
  function Bit7(b: bv8): bool { b & 0x80 != 0 }

  // Carry-less multiplication and long division

  function Xor16(p: bv16, q: bv16): bv16 { p ^ q }

  function Scale16(bit: bool, p: bv16): bv16 { if bit then p else 0 }

  function Has(p: bv16, top: bv16): bool { p & top != 0 }

  /** One step of long division: cancel the bit `top` with a multiple of the modulus. */
  function Cancel(p: bv16, top: bv16, multiple: bv16): bv16 {
    Xor16(p, Scale16(Has(p, top), multiple))
  }

  function LowByte(p: bv16): bv8 { (p & 0xFF) as bv8 }

  function Widen(a: bv8): bv16 { a as bv16 }

  function Twice(p: bv16): bv16 { p << 1 }

  function Modulus(low: bv8): bv16 { 0x100 | (low as bv16) }

  /** The power x^(8 + n), and the multiple of the modulus that it leads. */
  function Top(n: nat): bv16 {
    if n == 0 then 0x100 else Twice(Top(n - 1))
  }

  function Multiple(low: bv8, n: nat): bv16 {
    if n == 0 then Modulus(low) else Twice(Multiple(low, n - 1))
  }

  /** Long division of a polynomial of degree less than 8 + n. */
  function Reduce(low: bv8, p: bv16, n: nat): bv16
    decreases n
  {
    if n == 0 then p else Reduce(low, Cancel(p, Top(n - 1), Multiple(low, n - 1)), n - 1)
  }

  /** The remainder of a polynomial of degree at most 14. */
  function Remainder(low: bv8, p: bv16): bv8 {
    LowByte(Reduce(low, p, 7))
  }

  function Sum16(b: bv8, p0: bv16, p1: bv16, p2: bv16, p3: bv16, p4: bv16, p5: bv16, p6: bv16, p7: bv16): bv16 {
    Xor16(Xor16(Xor16(Scale16(Bit0(b), p0), Scale16(Bit1(b), p1)), Xor16(Scale16(Bit2(b), p2), Scale16(Bit3(b), p3))),
          Xor16(Xor16(Scale16(Bit4(b), p4), Scale16(Bit5(b), p5)), Xor16(Scale16(Bit6(b), p6), Scale16(Bit7(b), p7))))
  }

  /** The carry-less product of two bytes: their product as polynomials over GF(2). */
  function Carryless(a: bv8, b: bv8): bv16 {
    var p0 := Widen(a);
    var p1 := Twice(p0);
    var p2 := Twice(p1);
    var p3 := Twice(p2);
    var p4 := Twice(p3);
    var p5 := Twice(p4);
    var p6 := Twice(p5);
    Sum16(b, p0, p1, p2, p3, p4, p5, p6, Twice(p6))
  }

  /** The product in the field: carry-less, then reduced. */
  function Product(low: bv8, a: bv8, b: bv8): bv8 {
    Remainder(low, Carryless(a, b))
  }

  /** Multiplication by alpha, the polynomial x. */
  function Xtime(low: bv8, a: bv8): bv8 {
    Add(Double(a), Scale(Bit7(a), low))
  }

  // Exclusive or

  lemma AddCommutes(a: bv8, b: bv8)
    ensures Add(a, b) == Add(b, a)
  {
  }

  lemma AddAssociates(a: bv8, b: bv8, c: bv8)
    ensures Add(Add(a, b), c) == Add(a, Add(b, c))
  {
  }

  lemma AddExchanges(a: bv8, b: bv8, c: bv8, d: bv8)
    ensures Add(Add(a, b), Add(c, d)) == Add(Add(a, c), Add(b, d))
  {
    hide Add;
    AddAssociates(a, b, Add(c, d));
    AddAssociates(b, c, d);
    AddCommutes(b, c);
    AddAssociates(c, b, d);
    AddAssociates(a, c, Add(b, d));
  }

  lemma Xor16Commutes(a: bv16, b: bv16)
    ensures Xor16(a, b) == Xor16(b, a)
  {
  }

  lemma Xor16Associates(a: bv16, b: bv16, c: bv16)
    ensures Xor16(Xor16(a, b), c) == Xor16(a, Xor16(b, c))
  {
  }

  lemma Xor16Exchanges(a: bv16, b: bv16, c: bv16, d: bv16)
    ensures Xor16(Xor16(a, b), Xor16(c, d)) == Xor16(Xor16(a, c), Xor16(b, d))
  {
    hide Xor16;
    Xor16Associates(a, b, Xor16(c, d));
    Xor16Associates(b, c, d);
    Xor16Commutes(b, c);
    Xor16Associates(c, b, d);
    Xor16Associates(a, c, Xor16(b, d));
  }

  lemma Xor16Zero(p: bv16)
    ensures Xor16(p, p) == 0 && Xor16(p, 0) == p == Xor16(0, p)
  {
  }

  lemma ScaleOfXor(x: bool, y: bool, a: bv8)
    ensures Scale(x != y, a) == Add(Scale(x, a), Scale(y, a))
  {
  }

  lemma Scale16OfXor(x: bool, y: bool, p: bv16)
    ensures Scale16(x != y, p) == Xor16(Scale16(x, p), Scale16(y, p))
  {
    hide Xor16;
    Xor16Zero(p);
    Xor16Zero(0);
  }

  // Linearity

  lemma DoubleLinear(a: bv8, b: bv8)
    ensures Double(Add(a, b)) == Add(Double(a), Double(b)) && Bit7(Add(a, b)) == (Bit7(a) != Bit7(b))
  {
  }

  lemma XtimeLinear(low: bv8, a: bv8, b: bv8)
    ensures Xtime(low, Add(a, b)) == Add(Xtime(low, a), Xtime(low, b))
  {
    hide Add, Double, Bit7, Scale;
    DoubleLinear(a, b);
    ScaleOfXor(Bit7(a), Bit7(b), low);
    AddExchanges(Double(a), Scale(Bit7(a), low), Double(b), Scale(Bit7(b), low));
  }

  lemma XtimeZero(low: bv8)
    ensures Xtime(low, 0) == 0
  {
  }

  lemma XtimeScale(low: bv8, bit: bool, a: bv8)
    ensures Xtime(low, Scale(bit, a)) == Scale(bit, Xtime(low, a))
  {
    hide Xtime;
    XtimeZero(low);
  }

  predicate OneBit(top: bv16) {
    top == 0x4000 || top == 0x2000 || top == 0x1000 || top == 0x800 || top == 0x400 || top == 0x200 || top == 0x100
  }

  lemma HasLinear(p: bv16, q: bv16, top: bv16)
    requires OneBit(top)
    ensures Has(Xor16(p, q), top) == (Has(p, top) != Has(q, top))
  {
  }

  lemma CancelLinear(p: bv16, q: bv16, top: bv16, multiple: bv16)
    requires OneBit(top)
    ensures Cancel(Xor16(p, q), top, multiple) == Xor16(Cancel(p, top, multiple), Cancel(q, top, multiple))
  {
    hide Xor16, Scale16, Has;
    HasLinear(p, q, top);
    Scale16OfXor(Has(p, top), Has(q, top), multiple);
    Xor16Exchanges(p, Scale16(Has(p, top), multiple), q, Scale16(Has(q, top), multiple));
  }

  lemma LowByteLinear(p: bv16, q: bv16)
    ensures LowByte(Xor16(p, q)) == Add(LowByte(p), LowByte(q))
  {
  }

  lemma TopIs(n: nat)
    requires n < 7
    ensures Top(n) == if n == 0 then 0x100 else if n == 1 then 0x200 else if n == 2 then 0x400 else if n == 3 then 0x800
                      else if n == 4 then 0x1000 else if n == 5 then 0x2000 else 0x4000
  {
    if n > 0 { TopIs(n - 1); }
  }

  lemma {:induction false} ReduceLinear(low: bv8, p: bv16, q: bv16, n: nat)
    requires n <= 7
    ensures Reduce(low, Xor16(p, q), n) == Xor16(Reduce(low, p, n), Reduce(low, q, n))
    decreases n
  {
    hide Cancel, Xor16, Top, Multiple;
    if n > 0 {
      var top, m := Top(n - 1), Multiple(low, n - 1);
      TopIs(n - 1);
      CancelLinear(p, q, top, m);
      ReduceLinear(low, Cancel(p, top, m), Cancel(q, top, m), n - 1);
    }
  }

  lemma RemainderLinear(low: bv8, p: bv16, q: bv16)
    ensures Remainder(low, Xor16(p, q)) == Add(Remainder(low, p), Remainder(low, q))
  {
    hide Reduce, Xor16, Add, LowByte;
    ReduceLinear(low, p, q, 7);
    LowByteLinear(Reduce(low, p, 7), Reduce(low, q, 7));
  }

  // Division of small polynomials, and of doubled ones

  lemma CancelSmall(p: bv16, top: bv16, multiple: bv16)
    requires OneBit(top) && p < top
    ensures Cancel(p, top, multiple) == p
  {
  }

  lemma OneBitBounds(n: nat)
    requires n < 7
    ensures OneBit(Top(n)) && Top(n) >= 0x100 && (n > 0 ==> Top(n - 1) < Top(n))
  {
    hide Top;
    TopIs(n);
    if n > 0 { TopIs(n - 1); }
  }

  lemma {:induction false} ReduceSmall(low: bv8, p: bv16, n: nat)
    requires p < 0x100 && n <= 7
    ensures Reduce(low, p, n) == p
    decreases n
  {
    hide Cancel, Top, Multiple, OneBit;
    if n > 0 {
      OneBitBounds(n - 1);
      CancelSmall(p, Top(n - 1), Multiple(low, n - 1));
      ReduceSmall(low, p, n - 1);
    }
  }

  lemma LowByteWiden(a: bv8)
    ensures LowByte(Widen(a)) == a && Widen(a) < 0x100
  {
  }

  lemma RemainderSmall(low: bv8, a: bv8)
    ensures Remainder(low, Widen(a)) == a
  {
    hide Reduce, LowByte, Widen;
    LowByteWiden(a);
    ReduceSmall(low, Widen(a), 7);
  }

  lemma RemainderScale(low: bv8, bit: bool, p: bv16)
    ensures Remainder(low, Scale16(bit, p)) == Scale(bit, Remainder(low, p))
  {
    hide Remainder;
    RemainderSmall(low, 0);
    WidenZero();
  }

  lemma WidenZero()
    ensures Widen(0) == 0
  {
  }

  predicate Leads(m: bv16, top: bv16) { top <= m < Twice(top) }

  lemma LeadsTwice(m: bv16, top: bv16)
    requires OneBit(top) && top != 0x4000 && Leads(m, top)
    ensures Leads(Twice(m), Twice(top))
  {
    if top == 0x100 { assert Leads(Twice(m), 0x200); }
    else if top == 0x200 { assert Leads(Twice(m), 0x400); }
    else if top == 0x400 { assert Leads(Twice(m), 0x800); }
    else if top == 0x800 { assert Leads(Twice(m), 0x1000); }
    else if top == 0x1000 { assert Leads(Twice(m), 0x2000); }
    else { assert Leads(Twice(m), 0x4000); }
  }

  lemma ModulusLeads(low: bv8)
    ensures Leads(Modulus(low), 0x100)
  {
  }

  lemma {:induction false} MultipleLeads(low: bv8, n: nat)
    requires n < 7
    ensures Leads(Multiple(low, n), Top(n))
  {
    hide Leads, Twice, Modulus;
    if n == 0 {
      ModulusLeads(low);
    } else {
      MultipleLeads(low, n - 1);
      OneBitBounds(n - 1);
      TopIs(n - 1);
      LeadsTwice(Multiple(low, n - 1), Top(n - 1));
    }
  }

  lemma CancelShrinks(p: bv16, top: bv16, m: bv16)
    requires OneBit(top) && Leads(m, top) && p < Twice(top)
    ensures Cancel(p, top, m) < top
  {
  }

  lemma {:induction false} ReduceShrinks(low: bv8, p: bv16, n: nat)
    requires n < 7 && p < Top(n)
    ensures Reduce(low, p, n) < 0x100
    decreases n
  {
    hide Cancel, Multiple, OneBit, Twice;
    if n > 0 {
      OneBitBounds(n - 1);
      MultipleLeads(low, n - 1);
      CancelShrinks(p, Top(n - 1), Multiple(low, n - 1));
      ReduceShrinks(low, Cancel(p, Top(n - 1), Multiple(low, n - 1)), n - 1);
    }
  }

  lemma HasTwice(p: bv16, top: bv16)
    requires OneBit(top) && top != 0x4000
    ensures Has(Twice(p), Twice(top)) == Has(p, top)
  {
    if top == 0x100 { assert Has(Twice(p), 0x200) == Has(p, 0x100); }
    else if top == 0x200 { assert Has(Twice(p), 0x400) == Has(p, 0x200); }
    else if top == 0x400 { assert Has(Twice(p), 0x800) == Has(p, 0x400); }
    else if top == 0x800 { assert Has(Twice(p), 0x1000) == Has(p, 0x800); }
    else if top == 0x1000 { assert Has(Twice(p), 0x2000) == Has(p, 0x1000); }
    else { assert Has(Twice(p), 0x4000) == Has(p, 0x2000); }
  }

  lemma TwiceLinear(p: bv16, q: bv16)
    ensures Twice(Xor16(p, q)) == Xor16(Twice(p), Twice(q)) && Twice(0) == 0
  {
  }

  lemma CancelTwice(p: bv16, top: bv16, m: bv16)
    requires OneBit(top) && top != 0x4000
    ensures Cancel(Twice(p), Twice(top), Twice(m)) == Twice(Cancel(p, top, m))
  {
    hide Has, Twice, Xor16, OneBit;
    HasTwice(p, top);
    TwiceLinear(p, m);
    TwiceLinear(p, 0);
  }

  /** Dividing twice the polynomial is dividing the polynomial, doubling the remainder and one more step. */
  lemma {:induction false} ReduceTwice(low: bv8, p: bv16, n: nat)
    requires n < 7 && p < Top(n)
    ensures Reduce(low, Twice(p), n + 1) == Cancel(Twice(Reduce(low, p, n)), 0x100, Modulus(low))
    decreases n
  {
    hide Cancel, OneBit, Twice, Modulus;
    if n > 0 {
      var top, m := Top(n - 1), Multiple(low, n - 1);
      OneBitBounds(n - 1);
      TopIs(n - 1);
      CancelTwice(p, top, m);
      MultipleLeads(low, n - 1);
      CancelShrinks(p, top, m);
      ReduceTwice(low, Cancel(p, top, m), n - 1);
    }
  }

  lemma LastStepIsXtime(low: bv8, q: bv16)
    requires q < 0x100
    ensures LowByte(Cancel(Twice(q), 0x100, Modulus(low))) == Xtime(low, LowByte(q))
  {
  }

  /** Doubling a polynomial multiplies its remainder by x. */
  lemma RemainderTwice(low: bv8, p: bv16)
    requires p < 0x4000
    ensures Remainder(low, Twice(p)) == Xtime(low, Remainder(low, p))
  {
    hide Cancel, Multiple, OneBit, Twice, Modulus, LowByte, Xtime, Top;
    TopIs(6);
    OneBitBounds(6);
    ReduceTwice(low, p, 6);
    ReduceShrinks(low, p, 6);
    LastStepIsXtime(low, Reduce(low, p, 6));
    CancelSmall(p, Top(6), Multiple(low, 6));
  }

  // Multiplication as a sum of multiples by powers of alpha

  function Xtime4(low: bv8, a: bv8): bv8 {
    Xtime(low, Xtime(low, Xtime(low, Xtime(low, a))))
  }

  lemma TwiceBounds(p: bv16)
    requires p < 0x2000
    ensures Twice(p) < 0x4000
    ensures p < 0x100 ==> Twice(p) < 0x200
    ensures p < 0x200 ==> Twice(p) < 0x400
    ensures p < 0x400 ==> Twice(p) < 0x800
    ensures p < 0x800 ==> Twice(p) < 0x1000
    ensures p < 0x1000 ==> Twice(p) < 0x2000
  {
  }

  lemma RemainderShifts(low: bv8, a: bv8)
    ensures var p3 := Twice(Twice(Twice(Widen(a))));
            && Remainder(low, Widen(a)) == a
            && Remainder(low, Twice(Widen(a))) == Xtime(low, a)
            && Remainder(low, Twice(Twice(Widen(a)))) == Xtime(low, Xtime(low, a))
            && Remainder(low, p3) == Xtime(low, Xtime(low, Xtime(low, a)))
            && Remainder(low, Twice(p3)) == Xtime4(low, a)
            && Remainder(low, Twice(Twice(p3))) == Xtime(low, Xtime4(low, a))
            && Remainder(low, Twice(Twice(Twice(p3)))) == Xtime(low, Xtime(low, Xtime4(low, a)))
            && Remainder(low, Twice(Twice(Twice(Twice(p3))))) == Xtime(low, Xtime(low, Xtime(low, Xtime4(low, a))))
  {
    hide Remainder, Xtime, Twice, Widen;
    var p := Widen(a);
    LowByteWiden(a);
    RemainderSmall(low, a);
    var p1 := Twice(p);
    var p2 := Twice(p1);
    var p3 := Twice(p2);
    var p4 := Twice(p3);
    var p5 := Twice(p4);
    var p6 := Twice(p5);
    TwiceBounds(p);
    TwiceBounds(p1);
    TwiceBounds(p2);
    TwiceBounds(p3);
    TwiceBounds(p4);
    TwiceBounds(p5);
    RemainderTwice(low, p);
    RemainderTwice(low, p1);
    RemainderTwice(low, p2);
    RemainderTwice(low, p3);
    RemainderTwice(low, p4);
    RemainderTwice(low, p5);
    RemainderTwice(low, p6);
  }

  /** The sum of the terms selected by the bits of b. */
  function Sum(b: bv8, t0: bv8, t1: bv8, t2: bv8, t3: bv8, t4: bv8, t5: bv8, t6: bv8, t7: bv8): bv8 {
    Add(Add(Add(Scale(Bit0(b), t0), Scale(Bit1(b), t1)), Add(Scale(Bit2(b), t2), Scale(Bit3(b), t3))),
        Add(Add(Scale(Bit4(b), t4), Scale(Bit5(b), t5)), Add(Scale(Bit6(b), t6), Scale(Bit7(b), t7))))
  }

  function Multiples(low: bv8, a: bv8, b: bv8): bv8 {
    var c := Xtime4(low, a);
    Sum(b, a, Xtime(low, a), Xtime(low, Xtime(low, a)), Xtime(low, Xtime(low, Xtime(low, a))),
        c, Xtime(low, c), Xtime(low, Xtime(low, c)), Xtime(low, Xtime(low, Xtime(low, c))))
  }

  lemma RemainderAddScaled(low: bv8, x: bool, p: bv16, y: bool, q: bv16)
    ensures Remainder(low, Xor16(Scale16(x, p), Scale16(y, q))) ==
            Add(Scale(x, Remainder(low, p)), Scale(y, Remainder(low, q)))
  {
    hide Remainder, Xor16, Add, Scale, Scale16;
    RemainderLinear(low, Scale16(x, p), Scale16(y, q));
    RemainderScale(low, x, p);
    RemainderScale(low, y, q);
  }

  lemma RemainderSum(low: bv8, b: bv8,
                     p0: bv16, p1: bv16, p2: bv16, p3: bv16, p4: bv16, p5: bv16, p6: bv16, p7: bv16)
    ensures Remainder(low, Sum16(b, p0, p1, p2, p3, p4, p5, p6, p7)) ==
            Sum(b, Remainder(low, p0), Remainder(low, p1), Remainder(low, p2), Remainder(low, p3),
                Remainder(low, p4), Remainder(low, p5), Remainder(low, p6), Remainder(low, p7))
  {
    hide Remainder, Xor16, Add, Scale, Scale16, Bit0, Bit1, Bit2, Bit3, Bit4, Bit5, Bit6, Bit7;
    var p01 := Xor16(Scale16(Bit0(b), p0), Scale16(Bit1(b), p1));
    var p23 := Xor16(Scale16(Bit2(b), p2), Scale16(Bit3(b), p3));
    var p45 := Xor16(Scale16(Bit4(b), p4), Scale16(Bit5(b), p5));
    var p67 := Xor16(Scale16(Bit6(b), p6), Scale16(Bit7(b), p7));
    RemainderAddScaled(low, Bit0(b), p0, Bit1(b), p1);
    RemainderAddScaled(low, Bit2(b), p2, Bit3(b), p3);
    RemainderAddScaled(low, Bit4(b), p4, Bit5(b), p5);
    RemainderAddScaled(low, Bit6(b), p6, Bit7(b), p7);
    RemainderLinear(low, p01, p23);
    RemainderLinear(low, p45, p67);
    RemainderLinear(low, Xor16(p01, p23), Xor16(p45, p67));
  }

  lemma ProductIsMultiples(low: bv8, a: bv8, b: bv8)
    ensures Product(low, a, b) == Multiples(low, a, b)
  {
    hide Remainder, Sum, Sum16, Xtime, Xtime4, Widen, Twice;
    var p := Widen(a);
    var p3 := Twice(Twice(Twice(p)));
    RemainderSum(low, b, p, Twice(p), Twice(Twice(p)), p3,
                 Twice(p3), Twice(Twice(p3)), Twice(Twice(Twice(p3))), Twice(Twice(Twice(Twice(p3)))));
    RemainderShifts(low, a);
  }

  lemma XtimeAddScaled(low: bv8, x: bool, a: bv8, y: bool, b: bv8)
    ensures Xtime(low, Add(Scale(x, a), Scale(y, b))) == Add(Scale(x, Xtime(low, a)), Scale(y, Xtime(low, b)))
  {
    hide Xtime, Add, Scale;
    XtimeLinear(low, Scale(x, a), Scale(y, b));
    XtimeScale(low, x, a);
    XtimeScale(low, y, b);
  }

  lemma XtimeSum(low: bv8, b: bv8, t0: bv8, t1: bv8, t2: bv8, t3: bv8, t4: bv8, t5: bv8, t6: bv8, t7: bv8)
    ensures Xtime(low, Sum(b, t0, t1, t2, t3, t4, t5, t6, t7)) ==
            Sum(b, Xtime(low, t0), Xtime(low, t1), Xtime(low, t2), Xtime(low, t3),
                Xtime(low, t4), Xtime(low, t5), Xtime(low, t6), Xtime(low, t7))
  {
    hide Xtime, Add, Scale, Bit0, Bit1, Bit2, Bit3, Bit4, Bit5, Bit6, Bit7;
    XtimeAddScaled(low, Bit0(b), t0, Bit1(b), t1);
    XtimeAddScaled(low, Bit2(b), t2, Bit3(b), t3);
    XtimeAddScaled(low, Bit4(b), t4, Bit5(b), t5);
    XtimeAddScaled(low, Bit6(b), t6, Bit7(b), t7);
    var u := Add(Scale(Bit0(b), t0), Scale(Bit1(b), t1));
    var v := Add(Scale(Bit2(b), t2), Scale(Bit3(b), t3));
    var w := Add(Scale(Bit4(b), t4), Scale(Bit5(b), t5));
    var z := Add(Scale(Bit6(b), t6), Scale(Bit7(b), t7));
    XtimeLinear(low, u, v);
    XtimeLinear(low, w, z);
    XtimeLinear(low, Add(u, v), Add(w, z));
  }

  /** Multiplying by alpha commutes with multiplication, whatever the polynomial. */
  lemma ProductXtime(low: bv8, a: bv8, b: bv8)
    ensures Product(low, Xtime(low, a), b) == Xtime(low, Product(low, a, b))
  {
    hide Product, Xtime, Sum;
    ProductIsMultiples(low, a, b);
    ProductIsMultiples(low, Xtime(low, a), b);
    var c := Xtime4(low, a);
    XtimeSum(low, b, a, Xtime(low, a), Xtime(low, Xtime(low, a)), Xtime(low, Xtime(low, Xtime(low, a))),
             c, Xtime(low, c), Xtime(low, Xtime(low, c)), Xtime(low, Xtime(low, Xtime(low, c))));
  }

  lemma CarrylessOne(b: bv8)
    ensures Carryless(1, b) == Widen(b) == Carryless(b, 1)
  {
  }

  lemma ProductOne(low: bv8, b: bv8)
    ensures Product(low, 1, b) == b == Product(low, b, 1)
  {
    hide Remainder, Carryless, Widen;
    CarrylessOne(b);
    RemainderSmall(low, b);
  }

  lemma CarrylessZero(b: bv8)
    ensures Carryless(0, b) == Widen(0) == Carryless(b, 0)
  {
  }

  lemma ProductZero(low: bv8, b: bv8)
    ensures Product(low, 0, b) == 0 == Product(low, b, 0)
  {
    hide Remainder, Carryless, Widen;
    CarrylessZero(b);
    RemainderSmall(low, 0);
  }
}
