/**
  The amount of a proposed trade on its way between hosts, wf4/src/quiesce.cpp: it
  is written as an unsigned integer and its bits are read back as a double.
 */
module ProposalWire {

  /** The weight of the hidden bit of a double. */
  const HIDDEN_BIT: nat := 0x10_0000_0000_0000

  ghost function TwoTo(k: int): (r: real)
    ensures r > 0.0
    decreases if k >= 0 then k else -k
  {
    if k == 0 then 1.0 else if k > 0 then 2.0 * TwoTo(k - 1) else TwoTo(k + 1) / 2.0
  }

  /** The integer an amount is converted to. */
  function Written(w: real): (r: nat)
    requires w >= 0.0
    ensures r as real <= w < r as real + 1.0
  {
    w.Floor
  }

  ghost function Exponent(bits: nat): (e: nat)
    ensures e * HIDDEN_BIT <= bits < e * HIDDEN_BIT + HIDDEN_BIT
  {
    bits / HIDDEN_BIT
  }

  ghost function Fraction(bits: nat): (f: nat)
    ensures f < HIDDEN_BIT && bits == Exponent(bits) * HIDDEN_BIT + f
  {
    bits - Exponent(bits) * HIDDEN_BIT
  }

  /** The positive finite double with these bits, by IEEE 754-2019, section 3.4. */
  ghost function ReadBack(bits: nat): real
    requires bits < 2047 * HIDDEN_BIT
  {
    if Exponent(bits) == 0 then Times(Fraction(bits), TwoTo(Exponent(bits) - 1074))
    else Times(HIDDEN_BIT + Fraction(bits), TwoTo(Exponent(bits) - 1075))
  }

  ghost function Times(m: nat, t: real): real {
    m as real * t
  }

  // ---------- Powers of two ----------

  lemma {:induction false} AtMostOne(k: int)
    requires k <= 0
    ensures TwoTo(k) <= if k < 0 then 0.5 else 1.0
    decreases -k
  {
    if k < 0 {
      AtMostOne(k + 1);
    }
  }

  lemma {:induction false} Grows(j: int, k: int)
    requires 0 <= j <= k
    ensures TwoTo(j) <= TwoTo(k)
    decreases k - j
  {
    if j < k {
      Grows(j, k - 1);
    }
  }

  lemma SmallPowers()
    ensures TwoTo(9) == 512.0 && TwoTo(10) == 1024.0 && TwoTo(11) == 2048.0
  {
    assert TwoTo(3) == 8.0;
    assert TwoTo(6) == 64.0;
  }

  ghost function Power(k: int): (r: nat)
    requires k >= 0
  {
    if k == 0 then 1 else 2 * Power(k - 1)
  }

  lemma {:induction false} Inverse(k: int)
    requires k >= 0
    ensures Times(Power(k), TwoTo(-k)) == 1.0
  {
    if k > 0 {
      Inverse(k - 1);
      assert TwoTo(-k) == TwoTo(-(k - 1)) / 2.0;
      assert Times(Power(k), TwoTo(-k)) == 2.0 * Power(k - 1) as real * (TwoTo(-(k - 1)) / 2.0);
    }
  }

  lemma {:induction false} PowerGrows(k: int)
    requires k >= 60
    ensures Power(k) > HIDDEN_BIT
  {
    if k > 60 {
      PowerGrows(k - 1);
    } else {
      SixtyMore(k - 60);
    }
  }

  lemma SixtyMore(k: int)
    requires k == 0
    ensures Power(k + 60) > HIDDEN_BIT
  {
    assert Power(k) == 1;
    hide Power;
    TenMore(k);
    TenMore(k + 10);
    TenMore(k + 20);
    TenMore(k + 30);
    TenMore(k + 40);
    TenMore(k + 50);
  }

  lemma TenMore(k: int)
    requires k >= 0
    ensures Power(k + 10) == 1024 * Power(k)
  {
    assert Power(k + 2) == 4 * Power(k);
    assert Power(k + 4) == 4 * Power(k + 2);
    assert Power(k + 6) == 4 * Power(k + 4);
    assert Power(k + 8) == 4 * Power(k + 6);
  }

  lemma TimesLe(m: nat, t: real, m': nat, t': real)
    requires m <= m' && 0.0 <= t <= t'
    ensures 0.0 <= Times(m, t) <= Times(m', t')
  {
    assert m as real * t <= m' as real * t <= m' as real * t';
  }

  // ---------- What arrives ----------

  /** With an exponent field of zero less than one arrives, and less than was written unless that is zero. */
  lemma TinyShrinks(f: nat, k: int)
    requires k <= -60 && f < HIDDEN_BIT
    ensures 0.0 <= Times(f, TwoTo(k)) < 1.0
    ensures if f == 0 then Times(f, TwoTo(k)) == 0.0 else Times(f, TwoTo(k)) < f as real
  {
    AtMostOne(k);
    Inverse(-k);
    PowerGrows(-k);
    hide TwoTo, Power;
    TimesLe(f + 1, TwoTo(k), Power(-k), TwoTo(k));
    assert Times(f + 1, TwoTo(k)) == Times(f, TwoTo(k)) + TwoTo(k);
    TimesLe(f, TwoTo(k), f, 0.5);
  }

  /** Up to an exponent field of 1084 less arrives than was written. */
  lemma SmallShrinks(e: nat, f: nat)
    requires 0 < e <= 1084 && f < HIDDEN_BIT
    ensures Times(HIDDEN_BIT + f, TwoTo(e - 1075)) < (e * HIDDEN_BIT + f) as real
  {
    var t := if e < 1075 then 0.5 else if e == 1075 then 1.0 else 512.0;
    SmallPowers();
    if e <= 1075 {
      AtMostOne(e - 1075);
    } else {
      Grows(e - 1075, 9);
    }
    TimesLe(HIDDEN_BIT + f, TwoTo(e - 1075), HIDDEN_BIT + f, t);
    Smaller(e, f, t);
  }

  lemma Smaller(e: nat, f: nat, t: real)
    requires 0 < e <= 1084 && f < HIDDEN_BIT && t == if e < 1075 then 0.5 else if e == 1075 then 1.0 else 512.0
    ensures Times(HIDDEN_BIT + f, t) < (e * HIDDEN_BIT + f) as real
  {
    assert e >= 1076 ==> e * HIDDEN_BIT >= 1076 * HIDDEN_BIT;
  }

  /** From an exponent field of 1086 on more arrives, by at least one. */
  lemma LargeGrows(e: nat, f: nat)
    requires 1086 <= e < 2047 && f < HIDDEN_BIT
    ensures Times(HIDDEN_BIT + f, TwoTo(e - 1075)) >= (e * HIDDEN_BIT + f) as real + 1.0
  {
    SmallPowers();
    Grows(11, e - 1075);
    TimesLe(HIDDEN_BIT + f, 2048.0, HIDDEN_BIT + f, TwoTo(e - 1075));
    Larger(e, f);
  }

  lemma Larger(e: nat, f: nat)
    requires e < 2047 && f < HIDDEN_BIT
    ensures Times(HIDDEN_BIT + f, 2048.0) >= (e * HIDDEN_BIT + f) as real + 1.0
  {
    assert e * HIDDEN_BIT <= 2046 * HIDDEN_BIT;
  }

  /** At 1085 the two would agree only for a fraction that is none, as 1023 does not divide it. */
  lemma NeverEqual(f: nat, w: real)
    requires w >= 0.0 && Written(w) == 1085 * HIDDEN_BIT + f
    ensures Times(HIDDEN_BIT + f, 1024.0) != w
  {
    var n, bits := (HIDDEN_BIT + f) * 1024, Written(w);
    assert Times(HIDDEN_BIT + f, 1024.0) == n as real;
    assert n as real == w ==> n == bits;
    assert 61 * HIDDEN_BIT % 1023 == 244;
    assert 1023 * f != 61 * HIDDEN_BIT;
  }

  lemma ReadTiny(bits: nat)
    requires bits < HIDDEN_BIT
    ensures 0.0 <= ReadBack(bits) < 1.0 && if bits == 0 then ReadBack(bits) == 0.0 else ReadBack(bits) < bits as real
  {
    hide TwoTo, Times;
    NoExponent(bits);
    TinyShrinks(bits, Exponent(bits) - 1074);
  }

  lemma NoExponent(bits: nat)
    requires bits < HIDDEN_BIT
    ensures Exponent(bits) == 0 && Fraction(bits) == bits
  {
  }

  /**
    An amount arrives as it was sent only if it is zero. An amount of less than the
    hidden bit arrives as less than one, so an answer to it arrives as zero.
   */
  lemma OnlyZeroSurvives(w: real)
    requires w >= 0.0 && Written(w) < 2047 * HIDDEN_BIT
    ensures ReadBack(Written(w)) == w <==> w == 0.0
    ensures Written(w) < HIDDEN_BIT ==> 0.0 <= ReadBack(Written(w)) < 1.0 && ReadBack(Written(ReadBack(Written(w)))) == 0.0
  {
    hide TwoTo, Times;
    var bits := Written(w);
    var e, f := Exponent(bits), Fraction(bits);
    if bits < HIDDEN_BIT {
      ReadTiny(bits);
      ReadTiny(0);
    } else if e <= 1084 {
      SmallShrinks(e, f);
    } else if e == 1085 {
      SmallPowers();
      NeverEqual(f, w);
    } else {
      LargeGrows(e, f);
    }
  }
}
