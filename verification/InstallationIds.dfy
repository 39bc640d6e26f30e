/**
 Reading an installation id from untrusted text (web/src/modules/github/domain/installation.ts): digits,
 then a number, which beyond 2^53 is only the nearest double (section 6.1.6.1 of ECMA-262).
 */
module InstallationIds {
  import opened Options
  import opened Decimals

  const TWO_TO_52: nat := 0x10_0000_0000_0000
  const TWO_TO_53: nat := 0x20_0000_0000_0000
  const MAX_SAFE_INTEGER: nat := TWO_TO_53 - 1

  /** `/^[1-9]\d*$/` */
  predicate IsPositiveInteger(value: string) {
    value != [] && AllDigits(value) && value[0] != '0'
  }

  function PowerOfTwo(n: nat): (p: nat)
    ensures p >= 1
  {
    if n == 0 then 1 else 2 * PowerOfTwo(n - 1)
  }

  /** How many low bits a double leaves out of an integer. */
  function LowBits(v: nat): nat {
    if v < TWO_TO_53 then 0 else 1 + LowBits(v / 2)
  }

  /** The nearest 53-bit significand, a tie going to the even one. */
  function Significand(v: nat, unit: nat): nat
    requires unit >= 1
  {
    var q, r := v / unit, v % unit;
    if 2 * r > unit || (2 * r == unit && q % 2 == 1) then q + 1 else q
  }

  /** The double nearest an integer; none when that is infinity. */
  function NearestDouble(v: nat): Option<nat> {
    var unit := PowerOfTwo(LowBits(v));
    var rounded := Significand(v, unit) * unit;
    if rounded >= PowerOfTwo(1024) then None else Some(rounded)
  }

  function InstallationIdFrom(value: Option<string>): Option<nat> {
    if value.None? || !IsPositiveInteger(value.value) then None
    else
      var id := NearestDouble(Value(value.value));
      if id.Some? && id.value <= MAX_SAFE_INTEGER then id else None
  }

  /** Below 2^53 a double is exact. */
  lemma ExactBelow(v: nat)
    requires v < TWO_TO_53
    ensures NearestDouble(v) == Some(v)
  {
    assert v / 1 == v && v % 1 == 0;
    PowersGrow(53, 1024);
    PowerOfFiftyThree();
  }

  lemma {:induction false} PowersGrow(m: nat, n: nat)
    requires m <= n
    ensures PowerOfTwo(m) <= PowerOfTwo(n)
    decreases n - m
  {
    if m < n {
      PowersGrow(m, n - 1);
    }
  }

  lemma PowerOfFiftyThree()
    ensures PowerOfTwo(52) == TWO_TO_52 && PowerOfTwo(53) == TWO_TO_53
  {
    assert PowerOfTwo(8) == 0x100;
    assert PowerOfTwo(16) == 0x1_0000;
    assert PowerOfTwo(24) == 0x100_0000;
    assert PowerOfTwo(32) == 0x1_0000_0000;
    assert PowerOfTwo(40) == 0x100_0000_0000;
    assert PowerOfTwo(48) == 0x1_0000_0000_0000;
  }

  /** The significand of what does not fit has its full 53 bits. */
  lemma {:induction false} FullSignificand(v: nat)
    requires v >= TWO_TO_53
    ensures TWO_TO_52 * PowerOfTwo(LowBits(v)) <= v && PowerOfTwo(LowBits(v)) >= 2
  {
    var half := v / 2;
    assert PowerOfTwo(LowBits(v)) == 2 * PowerOfTwo(LowBits(half));
    if half >= TWO_TO_53 {
      FullSignificand(half);
    } else {
      assert PowerOfTwo(LowBits(half)) == 1;
    }
  }

  lemma {:induction false} ProductGrows(a: nat, b: nat, unit: nat)
    requires a <= b
    ensures a * unit <= b * unit
    decreases b - a
  {
    if a < b {
      ProductGrows(a, b - 1, unit);
      assert b * unit == (b - 1) * unit + unit;
    }
  }

  lemma QuotientAtLeast(v: nat, unit: nat, n: nat)
    requires unit >= 1 && n * unit <= v
    ensures v / unit >= n
  {
    var q := v / unit;
    assert v < (q + 1) * unit by {
      assert v == q * unit + v % unit;
    }
    if n >= q + 1 {
      ProductGrows(q + 1, n, unit);
      assert false;
    }
  }

  /** At or beyond 2^53 a double stays there. */
  lemma NotSafeBeyond(v: nat)
    requires v >= TWO_TO_53
    ensures NearestDouble(v).Some? ==> NearestDouble(v).value >= TWO_TO_53
  {
    var unit := PowerOfTwo(LowBits(v));
    FullSignificand(v);
    SignificandAtLeast(v, unit, TWO_TO_52);
    ProductGrows(TWO_TO_52, Significand(v, unit), unit);
    assert TWO_TO_52 * unit >= TWO_TO_53;
  }

  /** Rounding never goes below the quotient. */
  lemma SignificandAtLeast(v: nat, unit: nat, n: nat)
    requires unit >= 1 && n * unit <= v
    ensures Significand(v, unit) >= n
  {
    QuotientAtLeast(v, unit, n);
  }

  /** Accepts exactly the canonical decimals of 1 to 2^53 - 1, as what they print. */
  lemma AcceptsExactlyDecimals(value: string, id: nat)
    ensures InstallationIdFrom(Some(value)) == Some(id)
            <==> 1 <= id <= MAX_SAFE_INTEGER && value == Decimal(id)
  {
    if 1 <= id <= MAX_SAFE_INTEGER && value == Decimal(id) {
      ValueOfDecimal(id);
      ExactBelow(id);
    }
    if IsPositiveInteger(value) {
      DecimalOfValue(value);
      if Value(value) < TWO_TO_53 {
        ExactBelow(Value(value));
      } else {
        NotSafeBeyond(Value(value));
      }
    }
  }
}
