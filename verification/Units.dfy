/** bytes2Human: which power of 1024 a byte count is shown in. */
module Units {

  const UNIT := 1024
  const SUFFIXES := "KMGTPE"

  function Pow(base: nat, exp: nat): nat {
    if exp == 0 then 1 else base * Pow(base, exp - 1)
  }

  /** `Plain` prints the number as it is; `Scaled` prints num / div with a suffix. */
  datatype Human = Plain(num: nat) | Scaled(num: nat, div: nat, suffix: char)

  lemma {:induction false} PowMonotone(a: nat, b: nat)
    requires a <= b
    ensures 1 <= Pow(UNIT, a) <= Pow(UNIT, b)
  {
    if b > 0 {
      if a < b {
        PowMonotone(a, b - 1);
      } else {
        PowMonotone(a - 1, b - 1);
      }
    }
  }

  lemma Scale(a: nat, b: nat, d: nat)
    requires a <= b
    ensures a * d <= b * d
  {
  }

  lemma NestedDivision(num: nat, div: nat)
    requires div > 0
    ensures num / (div * UNIT) == num / div / UNIT
  {
    var q, low := num / div, num % div;
    var r, high := q / UNIT, q % UNIT;
    Digits(r, high, low, div);
    DivisionUnique(num, div * UNIT, r, high * div + low);
  }

  lemma Digits(r: nat, high: nat, low: nat, div: nat)
    requires low < div && high < UNIT
    ensures (r * UNIT + high) * div + low == r * (div * UNIT) + (high * div + low)
    ensures high * div + low < div * UNIT
  {
    Scale(high, UNIT - 1, div);
  }

  lemma DivisionUnique(num: nat, d: nat, q: nat, rest: nat)
    requires d > 0 && num == q * d + rest && rest < d
    ensures num / d == q
  {
    var p := num / d;
    if p < q {
      Scale(p + 1, q, d);
    } else if p > q {
      Scale(q + 1, p, d);
    }
  }

  /** A quotient between 1 and 1023 says between which powers the number lies. */
  lemma Bracket(num: nat, div: nat)
    requires div > 0 && 1 <= num / div < UNIT
    ensures div <= num < div * UNIT
  {
    var q := num / div;
    Scale(1, q, div);
    Scale(q + 1, UNIT, div);
  }

  /** The exponent is determined by the number alone. */
  lemma ExponentUnique(num: nat, e: nat, f: nat)
    requires Pow(UNIT, e) <= num < Pow(UNIT, e + 1)
    requires Pow(UNIT, f) <= num < Pow(UNIT, f + 1)
    ensures e == f
  {
    if e < f {
      PowMonotone(e + 1, f);
    } else if f < e {
      PowMonotone(f + 1, e);
    }
  }

  lemma Powers()
    ensures Pow(UNIT, 1) == 0x400 && Pow(UNIT, 2) == 0x10_0000 && Pow(UNIT, 3) == 0x4000_0000
    ensures Pow(UNIT, 4) == 0x100_0000_0000 && Pow(UNIT, 5) == 0x4_0000_0000_0000
    ensures Pow(UNIT, 6) == 0x1000_0000_0000_0000
    ensures Pow(UNIT, 7) == 0x40_0000_0000_0000_0000
  {
    assert Pow(UNIT, 3) == 0x4000_0000;
    assert Pow(UNIT, 5) == 0x4_0000_0000_0000;
  }

  /** The divisor and the suffix are those of the power of 1024 below the number. */
  predicate ShownWith(text: Human, exp: nat) {
    && text.Scaled? && exp < |SUFFIXES| && text.suffix == SUFFIXES[exp]
    && text.div == Pow(UNIT, exp + 1) <= text.num < Pow(UNIT, exp + 2)
  }

  /** For every 64-bit count the loop ends on the one power of 1024 that brackets
      it, the suffix exists, and the divisor fits a signed 64-bit integer. */
  method Bytes2Human(num: nat) returns (text: Human)
    requires num < 0x1_0000_0000_0000_0000
    ensures num < UNIT <==> text == Plain(num)
    ensures num >= UNIT ==> text.Scaled? && text.num == num
    ensures text.Scaled? ==> exists exp: nat :: ShownWith(text, exp)
    ensures text.Scaled? ==> 1 <= num / text.div < UNIT && text.div < 0x8000_0000_0000_0000
    ensures text.Scaled? ==>
      && (text.suffix == 'K' <==> num < 0x10_0000)
      && (text.suffix == 'M' <==> 0x10_0000 <= num < 0x4000_0000)
      && (text.suffix == 'G' <==> 0x4000_0000 <= num < 0x100_0000_0000)
      && (text.suffix == 'T' <==> 0x100_0000_0000 <= num < 0x4_0000_0000_0000)
      && (text.suffix == 'P' <==> 0x4_0000_0000_0000 <= num < 0x1000_0000_0000_0000)
      && (text.suffix == 'E' <==> 0x1000_0000_0000_0000 <= num)
  {
    if num < UNIT {
      return Plain(num);
    }
    var div, exp := UNIT, 0;
    var n := num / UNIT;
    assert Pow(UNIT, 1) == UNIT;
    while n >= UNIT
      invariant 0 <= exp && div == Pow(UNIT, exp + 1) > 0
      invariant n == num / div >= 1
    {
      NestedDivision(num, div);
      n := n / UNIT;
      div := div * UNIT;
      exp := exp + 1;
    }
    Bracket(num, div);
    Powers();
    if exp >= 6 {
      PowMonotone(7, exp + 1);
    }
    PowMonotone(exp + 1, 6);
    text := Scaled(num, div, SUFFIXES[exp]);
    assert ShownWith(text, exp);
  }
}
