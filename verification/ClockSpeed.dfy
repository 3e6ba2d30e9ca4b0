/** The search for the PLL multiplier and dividers of the ARM clock, in 32-bit arithmetic. */
module ClockSpeed {
  const TWO_32 := 0x1_0000_0000
  const PLL_MIN := 648_000_000
  const PLL_MAX := 1296_000_000

  type U32 = x: int | 0 <= x < TWO_32

  /** What set_arm_clock decides on. */
  datatype Setting = Setting(divArm: nat, divAhb: nat, mult: nat, clamped: bool, frequency: U32, divIpg: nat)

  /** With these dividers the PLL would run too slowly. */
  predicate Tried(f: U32, arm: nat, ahb: nat) {
    f * (arm * ahb) < PLL_MIN
  }

  /** All pairs tried before (divArm, divAhb) leave the PLL too slow. */
  ghost predicate AllTried(f: U32, divArm: nat, divAhb: nat) {
    forall arm, ahb :: 1 <= arm <= 8 && 1 <= ahb && (ahb < divAhb || (ahb == divAhb && arm < divArm)) ==>
      Tried(f, arm, ahb)
  }

  /** The search: the first pair of dividers, counting divArm up to 8 for each divAhb up to
      5, with which the PLL runs fast enough; the last pair if there is none. */
  method FindDividers(frequency: U32) returns (divArm: nat, divAhb: nat)
    ensures 1 <= divArm <= 8 && 1 <= divAhb <= 5
    ensures frequency * (divArm * divAhb) < TWO_32
    ensures !Tried(frequency, divArm, divAhb) || (divArm == 8 && divAhb == 5)
    ensures AllTried(frequency, divArm, divAhb)
  {
    divArm, divAhb := 1, 1;
    while (frequency * divArm * divAhb) % TWO_32 < PLL_MIN
      invariant 1 <= divArm <= 8 && 1 <= divAhb <= 5
      invariant frequency * (divArm * divAhb) < TWO_32
      invariant frequency * divArm * divAhb == frequency * (divArm * divAhb)
      invariant AllTried(frequency, divArm, divAhb)
      decreases 5 - divAhb, 8 - divArm
    {
      assert Tried(frequency, divArm, divAhb);
      if divArm < 8 {
        NextProduct(frequency, divArm, divAhb, divArm + 1, divAhb);
        divArm := divArm + 1;
      } else if divAhb < 5 {
        NextProduct(frequency, divArm, divAhb, 1, divAhb + 1);
        divAhb := divAhb + 1;
        divArm := 1;
      } else {
        break;
      }
    }
  }

  /** Going to the next pair at most doubles the product. */
  lemma NextProduct(f: U32, arm: nat, ahb: nat, arm': nat, ahb': nat)
    requires 1 <= arm <= 8 && 1 <= ahb <= 5 && Tried(f, arm, ahb)
    requires (arm < 8 && arm' == arm + 1 && ahb' == ahb) || (arm == 8 && arm' == 1 && ahb' == ahb + 1)
    ensures f * (arm' * ahb') < PLL_MAX
    ensures f * arm' * ahb' == f * (arm' * ahb')
  {
    AtMostDoubled(arm, ahb, arm', ahb');
    ProductGrows(f, arm' * ahb', 2 * (arm * ahb));
    Doubled(f, arm * ahb);
    Associative(f, arm', ahb');
  }

  lemma AtMostDoubled(arm: nat, ahb: nat, arm': nat, ahb': nat)
    requires 1 <= arm <= 8 && 1 <= ahb <= 5
    requires (arm < 8 && arm' == arm + 1 && ahb' == ahb) || (arm == 8 && arm' == 1 && ahb' == ahb + 1)
    ensures arm' * ahb' <= 2 * (arm * ahb)
  {
    if arm < 8 {
      assert arm' * ahb == arm * ahb + ahb;
      ProductGrows(ahb, 1, arm);
    }
  }

  lemma ProductGrows(f: nat, a: nat, b: nat)
    requires a <= b
    ensures f * a <= f * b
  {
  }

  lemma Doubled(f: nat, a: nat)
    ensures f * (2 * a) == 2 * (f * a)
  {
  }

  lemma Associative(f: nat, a: nat, b: nat)
    ensures f * a * b == f * (a * b)
  {
  }

  lemma SmallProduct(arm: nat, ahb: nat)
    requires 1 <= arm <= 8 && 1 <= ahb <= 5
    ensures 1 <= arm * ahb <= 40
  {
    ProductGrows(arm, 1, ahb);
    ProductGrows(arm, ahb, 5);
  }

  /** Where the search ends up, for every request. */
  lemma SearchResult(f: U32, divArm: nat, divAhb: nat)
    requires 1 <= divArm <= 8 && 1 <= divAhb <= 5 && AllTried(f, divArm, divAhb)
    requires !Tried(f, divArm, divAhb) || (divArm == 8 && divAhb == 5)
    ensures f >= PLL_MIN ==> divArm == 1 && divAhb == 1
    ensures f < PLL_MIN ==> f * (divArm * divAhb) < PLL_MAX
    ensures f >= 16_200_000 ==> f * (divArm * divAhb) >= PLL_MIN
    ensures f < 16_200_000 ==> divArm == 8 && divAhb == 5
  {
    if divArm > 1 {
      assert Tried(f, divArm - 1, divAhb);
      NextProduct(f, divArm - 1, divAhb, divArm, divAhb);
      SmallProduct(divArm - 1, divAhb);
      ProductGrows(f, 1, (divArm - 1) * divAhb);
    } else if divAhb > 1 {
      assert Tried(f, 8, divAhb - 1);
      NextProduct(f, 8, divAhb - 1, divArm, divAhb);
      ProductGrows(f, 1, 8 * (divAhb - 1));
    }
    SmallProduct(divArm, divAhb);
    ProductGrows(f, divArm * divAhb, 40);
  }

  /** Dividing in two steps loses less than one unit of the quotient. */
  lemma NestedDivision(x: nat, a: nat, b: nat)
    requires a > 0 && b > 0
    ensures x / a / b * (a * b) <= x < (x / a / b + 1) * (a * b)
  {
    Nested(x, a, b, x / a, x / a / b);
  }

  lemma Nested(x: nat, a: nat, b: nat, q: nat, r: nat)
    requires q * a <= x < (q + 1) * a && r * b <= q < (r + 1) * b
    ensures r * (a * b) <= x < (r + 1) * (a * b)
  {
    ProductGrows(a, r * b, q);
    ProductGrows(a, q + 1, (r + 1) * b);
    Reordered(r, b, a);
    Reordered(r + 1, b, a);
  }

  lemma Reordered(r: nat, b: nat, a: nat)
    ensures a * (r * b) == r * (a * b)
  {
    Associative(r, a, b);
    Associative(a, r, b);
  }

  function Rounded(product: U32): nat {
    (product + 6_000_000) % TWO_32 / 12_000_000
  }

  function Clamped(mult: nat): nat {
    if mult > 108 then 108 else if mult < 54 then 54 else mult
  }

  /** Rounding to multiples of 12 MHz, and when it leaves the range of the PLL. */
  lemma RoundedRange(f: U32, d: nat)
    requires 1 <= d <= 40 && f * d < TWO_32
    requires f >= PLL_MIN ==> d == 1
    requires f < PLL_MIN ==> f * d < PLL_MAX
    requires f >= 16_200_000 ==> f * d >= PLL_MIN
    requires f < 16_200_000 ==> d == 40
    ensures Clamped(Rounded(f * d)) == Rounded(f * d) <==> 16_050_000 <= f < 1302_000_000
    ensures 16_050_000 <= f < 1302_000_000 ==>
      -6_000_000 < 12_000_000 * Rounded(f * d) - f * d <= 6_000_000
    ensures f < 16_050_000 ==> Clamped(Rounded(f * d)) == 54
    ensures f >= 1302_000_000 ==> Clamped(Rounded(f * d)) == if f < TWO_32 - 6_000_000 then 108 else 54
  {
  }

  /** The whole decision.  No request needs clamping between 16.05 and 1302 MHz, and none
      outside escapes it; a request so close to 2^32 that the rounding wraps around is
      clamped to the wrong end. */
  method SetArmClock(frequency: U32) returns (s: Setting, bus: nat)
    ensures 1 <= s.divArm <= 8 && 1 <= s.divAhb <= 5 && 54 <= s.mult <= 108 && 1 <= s.divIpg <= 4
    ensures s.clamped <==> !(16_050_000 <= frequency < 1302_000_000)
    ensures frequency < 16_050_000 ==> s.frequency == 16_200_000
    ensures frequency >= 1302_000_000 ==> s.frequency == if frequency < TWO_32 - 6_000_000 then PLL_MAX else PLL_MIN
    ensures 16_200_000 <= frequency <= PLL_MAX ==> PLL_MIN <= frequency * (s.divArm * s.divAhb) <= PLL_MAX
    ensures var d := s.divArm * s.divAhb;
      !s.clamped ==> -6_000_000 - d < s.frequency * d - frequency * d <= 6_000_000
    ensures s.frequency <= 600_000_000 ==> bus <= 150_000_000
    ensures bus * s.divIpg <= s.frequency < (bus + 1) * s.divIpg
    ensures s.divIpg > 1 ==> s.frequency > 150_000_000 * (s.divIpg - 1)
    ensures AllTried(frequency, s.divArm, s.divAhb)
    ensures !Tried(frequency, s.divArm, s.divAhb) || (s.divArm == 8 && s.divAhb == 5)
  {
    var divArm, divAhb := FindDividers(frequency);
    ghost var d := divArm * divAhb;
    SearchResult(frequency, divArm, divAhb);
    SmallProduct(divArm, divAhb);
    Associative(frequency, divArm, divAhb);
    RoundedRange(frequency, d);
    var unclamped := (frequency * divArm * divAhb + 6_000_000) % TWO_32 / 12_000_000;
    var mult := unclamped;
    if mult > 108 {
      mult := 108;
    }
    if mult < 54 {
      mult := 54;
    }
    var result := Divided(mult, divArm, divAhb);
    var divIpg, slow := BusDivider(result);
    s, bus := Setting(divArm, divAhb, mult, mult != unclamped, result, divIpg), slow;
  }

  method Divided(mult: nat, divArm: nat, divAhb: nat) returns (r: nat)
    requires 54 <= mult <= 108 && 1 <= divArm <= 8 && 1 <= divAhb <= 5
    ensures PLL_MIN / 40 <= r <= PLL_MAX
    ensures r * (divArm * divAhb) <= mult * 12_000_000 < (r + 1) * (divArm * divAhb)
    ensures divArm == 1 && divAhb == 1 ==> r == mult * 12_000_000
    ensures divArm == 8 && divAhb == 5 && mult == 54 ==> r == 16_200_000
  {
    r := mult * 12_000_000 / divArm / divAhb;
    NestedDivision(mult * 12_000_000, divArm, divAhb);
    SmallProduct(divArm, divAhb);
    if r + 1 <= PLL_MIN / 40 {
      ProductGrows(r + 1, divArm * divAhb, 40);
    }
    ProductGrows(r, 1, divArm * divAhb);
  }

  /** The divider of the peripheral bus. */
  method BusDivider(frequency: U32) returns (divIpg: nat, bus: nat)
    requires PLL_MIN / 40 <= frequency <= PLL_MAX
    ensures 1 <= divIpg <= 4 && bus * divIpg <= frequency < (bus + 1) * divIpg
    ensures frequency <= 600_000_000 ==> bus <= 150_000_000
    ensures divIpg > 1 ==> frequency > 150_000_000 * (divIpg - 1)
  {
    divIpg := (frequency + 149_999_999) / 150_000_000;
    if divIpg > 4 {
      divIpg := 4;
    }
    bus := frequency / divIpg;
  }
}
