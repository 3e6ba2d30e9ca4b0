/** Printing numbers through a buffer filled from its end, and reading them back. */
module NumberText {
  const TWO_31 := 0x8000_0000
  const TWO_32 := 0x1_0000_0000
  const MINUS: Byte := 45
  const ZERO: Byte := 48

  type Byte = x: int | 0 <= x < 256
  type Base = x: int | 2 <= x < 256 witness 10

  function Pow2(k: nat): nat {
    if k == 0 then 1 else 2 * Pow2(k - 1)
  }

  lemma Pow2Plus8(k: nat)
    ensures Pow2(k + 8) == 256 * Pow2(k)
  {
    assert Pow2(k + 4) == 2 * Pow2(k + 3) == 4 * Pow2(k + 2) == 8 * Pow2(k + 1) == 16 * Pow2(k);
    assert Pow2(k + 8) == 2 * Pow2(k + 7) == 4 * Pow2(k + 6) == 8 * Pow2(k + 5) == 16 * Pow2(k + 4);
  }

  lemma Pow2Words()
    ensures Pow2(32) == TWO_32 && Pow2(64) == TWO_32 * TWO_32
  {
    Pow2Plus8(0);
    Pow2Plus8(8);
    Pow2Plus8(16);
    Pow2Plus8(24);
    Pow2Plus8(32);
    Pow2Plus8(40);
    Pow2Plus8(48);
    Pow2Plus8(56);
  }

  // ---------- division by a base ----------

  function Quotient(n: nat, base: Base): (q: nat)
    ensures q <= n / 2 && (q == 0 <==> n < base)
  {
    if n < base then 0 else 1 + Quotient(n - base, base)
  }

  function Remainder(n: nat, base: Base): (r: Byte)
    ensures r < base
  {
    if n < base then n else Remainder(n - base, base)
  }

  lemma MulAtLeast(k: int, base: int)
    requires k >= 1 && base > 0
    ensures k * base >= base
  {
  }

  lemma DivisionIsUnique(n: nat, base: nat, q: nat, r: nat)
    requires base > 0 && n == q * base + r && r < base
    ensures n / base == q && n % base == r
  {
    var d, m := n / base, n % base;
    assert n == d * base + m;
    assert (q - d) * base == m - r;
    if q > d {
      MulAtLeast(q - d, base);
    } else if d > q {
      MulAtLeast(d - q, base);
    }
  }

  lemma {:induction false} QuotientAndRemainder(n: nat, base: Base)
    ensures n == Quotient(n, base) * base + Remainder(n, base)
  {
    if n >= base {
      QuotientAndRemainder(n - base, base);
      assert (1 + Quotient(n - base, base)) * base == base + Quotient(n - base, base) * base;
    }
  }

  lemma Division(n: nat, base: Base)
    ensures n / base == Quotient(n, base) && n % base == Remainder(n, base)
  {
    QuotientAndRemainder(n, base);
    DivisionIsUnique(n, base, Quotient(n, base), Remainder(n, base));
  }

  // ---------- numerals ----------

  /** The byte printed for a digit: letters follow 9, and past 200 the byte wraps around. */
  function DigitByte(d: Byte): Byte {
    if d < 10 then ZERO + d else (65 + d - 10) % 256
  }

  /** Digits below 36 are printed as the usual characters. */
  lemma DigitCharacters(d: Byte)
    ensures d < 10 ==> DigitByte(d) == "0123456789"[d] as int
    ensures 10 <= d < 36 ==> DigitByte(d) == "ABCDEFGHIJKLMNOPQRSTUVWXYZ"[d - 10] as int
    ensures MINUS == '-' as int
  {
  }

  function Digits(n: nat, base: Base): (s: seq<Byte>)
    ensures |s| >= 1
    decreases n
  {
    if n < base then [DigitByte(n)]
    else Digits(Quotient(n, base), base) + [DigitByte(Remainder(n, base))]
  }

  function Numeral(n: nat, base: Base, negative: bool): seq<Byte> {
    (if negative then [MINUS] else []) + Digits(n, base)
  }

  lemma {:induction false} FewDigits(n: nat, base: Base, k: nat)
    requires k > 0 && n < Pow2(k)
    ensures |Digits(n, base)| <= k
  {
    if n >= base {
      FewDigits(Quotient(n, base), base, k - 1);
    }
  }

  lemma DigitBytesDiffer(d: Byte, e: Byte, base: Base)
    requires base <= 249 && d < base && e < base && DigitByte(d) == DigitByte(e)
    ensures d == e
  {
  }

  lemma {:induction false} NumeralsDiffer(n: nat, m: nat, base: Base)
    requires base <= 249 && Digits(n, base) == Digits(m, base)
    ensures n == m
    decreases n
  {
    var s, t := Digits(n, base), Digits(m, base);
    if n < base {
      DigitBytesDiffer(n, m, base);
    } else {
      assert s[..|s| - 1] == Digits(Quotient(n, base), base) && t[..|t| - 1] == Digits(Quotient(m, base), base);
      assert s[|s| - 1] == DigitByte(Remainder(n, base)) && t[|t| - 1] == DigitByte(Remainder(m, base));
      DigitBytesDiffer(Remainder(n, base), Remainder(m, base), base);
      NumeralsDiffer(Quotient(n, base), Quotient(m, base), base);
      QuotientAndRemainder(n, base);
      QuotientAndRemainder(m, base);
    }
  }

  /** A printed number can be told from every other one exactly up to base 249, where the
      byte of digit 249 wraps around to that of digit 0. */
  lemma NumeralsDifferIff(base: Base)
    ensures (forall n: nat, m: nat :: Digits(n, base) == Digits(m, base) ==> n == m) <==> base <= 249
  {
    if base <= 249 {
      forall n: nat, m: nat | Digits(n, base) == Digits(m, base) ensures n == m {
        NumeralsDiffer(n, m, base);
      }
    } else {
      assert Digits(249, base) == Digits(0, base);
    }
  }

  // ---------- Print ----------

  lemma OneDigit(n: nat, base: Base)
    ensures n < base ==> Digits(n, base) == [DigitByte(n)] && Remainder(n, base) == n && Quotient(n, base) == 0
    ensures n >= base ==> Digits(n, base) == Digits(Quotient(n, base), base) + [DigitByte(Remainder(n, base))]
    ensures DigitByte(0) == ZERO
  {
  }

  lemma Storable(digit: Byte)
    ensures DigitByte(digit) == if digit < 10 then ZERO + digit else (65 + digit - 10) % 256
  {
  }

  /** The last digit of a number and what stands before it. */
  method LastDigit(n: nat, base: Base) returns (digit: nat, before: nat)
    ensures digit == Remainder(n, base) && before == Quotient(n, base)
    ensures n < base ==> digit == n && before == 0
  {
    Division(n, base);
    return n % base, n / base;
  }

  /** The digit loop, writing backwards from the end of the buffer; it leaves room for a sign. */
  method FillDigits(buf: array<Byte>, number: nat, base: Base) returns (i: nat)
    requires buf.Length >= 3 && number < Pow2(buf.Length - 2)
    modifies buf
    ensures 1 <= i < buf.Length && buf[i..] == Digits(number, base)
  {
    hide Quotient, Remainder, Digits, DigitByte;
    OneDigit(0, base);
    if number == 0 {
      buf[buf.Length - 1] := ZERO;
      return buf.Length - 1;
    }
    var n := number;
    i := buf.Length - 1;
    while true
      invariant 2 <= i < buf.Length && 0 < n < Pow2(i - 1)
      invariant Digits(number, base) == Digits(n, base) + buf[i + 1..]
      decreases n
    {
      ghost var printed := buf[i + 1..];
      var digit, before := LastDigit(n, base);
      OneDigit(n, base);
      Storable(digit);
      buf[i] := if digit < 10 then ZERO + digit else (65 + digit - 10) % 256;
      assert buf[i..] == [DigitByte(digit)] + printed;
      n := before;
      if n == 0 {
        break;
      }
      i := i - 1;
    }
  }

  /** A 34-byte buffer is enough for every 32-bit number; base 0 writes a raw byte. */
  method PrintNumber(n: nat, base: Byte, sign: bool) returns (written: seq<Byte>)
    requires n < TWO_32
    ensures base == 0 ==> written == [n % 256]
    ensures base == 1 ==> written == Numeral(n, 10, sign)
    ensures base >= 2 ==> written == Numeral(n, base, sign)
  {
    var buf := new Byte[34];
    var b := base;
    if b == 0 {
      return [n % 256];
    } else if b == 1 {
      b := 10;
    }
    Pow2Words();
    var i := FillDigits(buf, n, b);
    ghost var digits := buf[i..];
    if sign {
      i := i - 1;
      buf[i] := MINUS;
      assert buf[i..] == [MINUS] + digits;
    }
    return buf[i..];
  }

  method PrintNumber64(n: nat, base: Byte, sign: bool) returns (written: seq<Byte>)
    requires n < TWO_32 * TWO_32
    ensures written == if base < 2 then [] else Numeral(n, base, sign)
  {
    var buf := new Byte[66];
    if base < 2 {
      return [];
    }
    Pow2Words();
    var i := FillDigits(buf, n, base);
    ghost var digits := buf[i..];
    if sign {
      i := i - 1;
      buf[i] := MINUS;
      assert buf[i..] == [MINUS] + digits;
    }
    return buf[i..];
  }

  /** Two's complement: the 32-bit value of an integer. */
  function Int32(x: int): (r: int)
    ensures -TWO_31 <= r < TWO_31
  {
    (x + TWO_31) % TWO_32 - TWO_31
  }

  function Int64(x: int): (r: int)
    ensures -TWO_31 * TWO_32 <= r < TWO_31 * TWO_32
  {
    (x + TWO_31 * TWO_32) % (TWO_32 * TWO_32) - TWO_31 * TWO_32
  }

  function Magnitude(n: int): nat {
    if n < 0 then -n else n
  }

  lemma NegatedAsUnsigned(n: int)
    ensures -TWO_31 <= n < 0 ==> Int32(-n) % TWO_32 == -n
    ensures -TWO_31 * TWO_32 <= n < 0 ==> Int64(-n) % (TWO_32 * TWO_32) == -n
  {
  }

  /** Negation wraps at the smallest number; as an unsigned number it is still right. */
  method PrintLong(number: int) returns (written: seq<Byte>)
    requires -TWO_31 <= number < TWO_31
    ensures written == Numeral(Magnitude(number), 10, number < 0)
  {
    var n := number;
    var sign := false;
    NegatedAsUnsigned(number);
    if n < 0 {
      sign := true;
      n := Int32(-n);
    }
    written := PrintNumber(n % TWO_32, 10, sign);
  }

  method PrintInt64(n: int) returns (written: seq<Byte>)
    requires -TWO_31 * TWO_32 <= n < TWO_31 * TWO_32
    ensures written == Numeral(Magnitude(n), 10, n < 0)
  {
    NegatedAsUnsigned(n);
    if n < 0 {
      written := PrintNumber64(Int64(-n) % (TWO_32 * TWO_32), 10, true);
    } else {
      written := PrintNumber64(n, 10, false);
    }
  }

  // ---------- decimal text ----------

  predicate IsDigit(c: int) {
    ZERO <= c <= ZERO + 9
  }

  lemma DigitsOnly(c: int)
    ensures IsDigit(c) <==> '0' as int <= c <= '9' as int
  {
  }

  predicate AllDigits(s: seq<Byte>) {
    forall i :: 0 <= i < |s| ==> IsDigit(s[i])
  }

  /** The number a string of decimal digits stands for; the empty one stands for 0. */
  function Value(s: seq<Byte>): nat
    requires AllDigits(s)
  {
    if s == [] then 0 else 10 * Value(s[..|s| - 1]) + s[|s| - 1] - ZERO
  }

  lemma {:induction false} DecimalDigits(n: nat)
    ensures AllDigits(Digits(n, 10)) && Value(Digits(n, 10)) == n
  {
    var s := Digits(n, 10);
    if n >= 10 {
      DecimalDigits(Quotient(n, 10));
      QuotientAndRemainder(n, 10);
      assert s[..|s| - 1] == Digits(Quotient(n, 10), 10);
    }
  }
}

/** Reading integers from a stream. */
module NumberStreams {
  import opened NumberText

  /** A byte at which reading a number starts. */
  predicate Starts(c: int) {
    c == MINUS || IsDigit(c)
  }

  /** Whether a byte continues a number, when `skip` is to be ignored. */
  predicate Continues(c: int, skip: Byte) {
    IsDigit(c) || c == skip
  }

  function Sought(s: seq<Byte>): seq<Byte> {
    if s == [] || Starts(s[0]) then s else Sought(s[1..])
  }

  /** How many leading bytes continue a number. */
  function RunLength(s: seq<Byte>, skip: Byte): (k: nat)
    ensures k <= |s|
  {
    if s == [] || !Continues(s[0], skip) then 0 else 1 + RunLength(s[1..], skip)
  }

  /** The value accumulated over a run, in 32-bit arithmetic. */
  function Accumulated(s: seq<Byte>, skip: Byte): int {
    if s == [] then 0
    else
      var before, c := Accumulated(s[..|s| - 1], skip), s[|s| - 1];
      if c != skip && IsDigit(c) then Int32(Int32(Int32(before * 10) + c) - ZERO) else before
  }

  /** No intermediate result of the accumulation leaves the 32-bit range. */
  predicate Fits(s: seq<Byte>, skip: Byte) {
    s == [] ||
    (var before, c := Accumulated(s[..|s| - 1], skip), s[|s| - 1];
     Fits(s[..|s| - 1], skip) && (c != skip && IsDigit(c) ==> before * 10 + c < TWO_31))
  }

  /** The bytes of the number that comes next in a stream. */
  function Next(s: seq<Byte>, skip: Byte): seq<Byte> {
    var t := Sought(s);
    if t == [] then [] else t[..1 + RunLength(t[1..], skip)]
  }

  function Parsed(number: seq<Byte>, skip: Byte): int {
    if number == [] then 0
    else
      var value := Accumulated(number, skip);
      if number[0] == MINUS && skip != MINUS then Int32(-value) else value
  }

  /** What one byte of a number does to the value and the sign read so far. */
  method TakeIn(c: Byte, skip: Byte, value: int, isNegative: bool, ghost taken: seq<Byte>) returns (v: int, n: bool)
    requires value == Accumulated(taken, skip)
    ensures v == Accumulated(taken + [c], skip) && n == (isNegative || (c == MINUS && skip != MINUS))
  {
    v, n := value, isNegative;
    assert (taken + [c])[..|taken|] == taken;
    if c == skip {
    } else if c == MINUS {
      n := true;
    } else if IsDigit(c) {
      v := Int32(Int32(Int32(v * 10) + c) - ZERO);
    }
  }

  class Stream {
    /** The bytes that arrive before a read times out. */
    var rest: seq<Byte>

    method TimedPeek() returns (c: int)
      ensures c == if rest == [] then -1 else rest[0]
    {
      c := if rest == [] then -1 else rest[0];
    }

    method ReadByte()
      modifies this
      ensures rest == if old(rest) == [] then [] else old(rest)[1..]
    {
      if rest != [] {
        rest := rest[1..];
      }
    }

    method PeekNextDigit() returns (c: int)
      modifies this
      ensures rest == Sought(old(rest))
      ensures c == if rest == [] then -1 else rest[0]
    {
      while true
        invariant Sought(rest) == Sought(old(rest))
        decreases |rest|
      {
        c := TimedPeek();
        if c < 0 {
          return;
        }
        if c == MINUS {
          return;
        }
        if IsDigit(c) {
          return;
        }
        ReadByte();
      }
    }

    /** The loop of parseInt: takes the first byte and all that continue it. */
    method TakeRun(skip: Byte) returns (value: int, isNegative: bool)
      requires rest != []
      modifies this
      ensures var all := old(rest); var k := 1 + RunLength(all[1..], skip);
        && rest == all[k..] && value == Accumulated(all[..k], skip)
        && isNegative == (all[0] == MINUS && skip != MINUS)
    {
      hide Accumulated;
      NothingAccumulated(skip);
      value, isNegative := 0, false;
      var c: int := rest[0];
      ghost var all, k := rest, 0;
      ghost var limit := 1 + RunLength(all[1..], skip);
      while true
        invariant 0 <= k < limit <= |all| && rest == all[k..] && c == all[k]
        invariant k > 0 ==> limit == k + RunLength(rest, skip)
        invariant value == Accumulated(all[..k], skip)
        invariant isNegative == (k > 0 && all[0] == MINUS && skip != MINUS)
        decreases limit - k
      {
        assert all[..k + 1] == all[..k] + [all[k]];
        assert k > 0 ==> Continues(c, skip);
        value, isNegative := TakeIn(rest[0], skip, value, isNegative, all[..k]);
        ReadByte();
        k := k + 1;
        assert rest == all[k..];
        c := TimedPeek();
        if !(IsDigit(c) || c == skip) {
          break;
        }
      }
      assert k == limit;
    }

    /** Reads the next number, which only ever grows by the bytes that continue it. */
    method ParseInt(skip: Byte) returns (value: int)
      modifies this
      ensures value == Parsed(Next(old(rest), skip), skip)
      ensures Sought(old(rest)) == Next(old(rest), skip) + rest
    {
      hide Sought, RunLength, Accumulated;
      var c := PeekNextDigit();
      if c < 0 {
        return 0;
      }
      var isNegative;
      value, isNegative := TakeRun(skip);
      if isNegative {
        value := Int32(-value);
      }
    }
  }

  lemma NothingAccumulated(skip: Byte)
    ensures Accumulated([], skip) == 0
  {
  }

  // ---------- printed numbers read back ----------

  /** parseInt() without an argument ignores this byte, which no number contains. */
  const NO_SKIP_CHAR: Byte := 1

  function Printed(n: int): seq<Byte> {
    Numeral(Magnitude(n), 10, n < 0)
  }

  lemma StartsHere(s: seq<Byte>)
    requires s == [] || Starts(s[0])
    ensures Sought(s) == s
  {
  }

  lemma {:induction false} SoughtAfter(lead: seq<Byte>, s: seq<Byte>)
    requires forall i :: 0 <= i < |lead| ==> !Starts(lead[i])
    ensures Sought(lead + s) == Sought(s)
  {
    if lead == [] {
      assert lead + s == s;
    } else {
      assert (lead + s)[1..] == lead[1..] + s;
      SoughtAfter(lead[1..], s);
    }
  }

  lemma {:induction false} RunIsAll(body: seq<Byte>, tail: seq<Byte>, skip: Byte)
    requires forall i :: 0 <= i < |body| ==> Continues(body[i], skip)
    requires tail == [] || !Continues(tail[0], skip)
    ensures RunLength(body + tail, skip) == |body|
  {
    if body == [] {
      assert body + tail == tail;
    } else {
      assert (body + tail)[1..] == body[1..] + tail;
      RunIsAll(body[1..], tail, skip);
    }
  }

  lemma Int32Period(v: int, k: int)
    ensures Int32(v + k * TWO_32) == Int32(v)
  {
  }

  /** How far wrapping moves a number. */
  lemma Int32Moves(v: int) returns (k: int)
    ensures Int32(v) == v + k * TWO_32
  {
    k := -((v + TWO_31) / TWO_32);
  }

  lemma Int32Sum(v: int, c: int)
    ensures Int32(Int32(v) + c) == Int32(v + c)
  {
    hide Int32;
    var k := Int32Moves(v);
    Int32Period(v + c, k);
  }

  lemma Int32Scaled(v: int)
    ensures Int32(Int32(v) * 10) == Int32(v * 10)
    ensures Int32(-Int32(v)) == Int32(-v)
  {
    hide Int32;
    var k := Int32Moves(v);
    Int32Period(v * 10, 10 * k);
    Int32Period(-v, -k);
  }

  /** Wrapping every intermediate result comes to the same as wrapping the last one. */
  lemma Int32Wraps(v: int, c: int)
    ensures Int32(Int32(Int32(Int32(v) * 10) + c) - ZERO) == Int32(v * 10 + c - ZERO)
    ensures Int32(-Int32(v)) == Int32(-v)
  {
    hide Int32;
    Int32Scaled(v);
    Int32Sum(v * 10, c);
    var zero: int := ZERO;
    Int32Sum(v * 10 + c, -zero);
  }

  /** The digits of a number, without what is skipped. */
  function Kept(s: seq<Byte>, skip: Byte): (r: seq<Byte>)
    ensures AllDigits(r)
  {
    if s == [] then []
    else Kept(s[..|s| - 1], skip) + if s[|s| - 1] != skip && IsDigit(s[|s| - 1]) then [s[|s| - 1]] else []
  }

  /** In 32-bit arithmetic the wrapped value of the digits comes out, whatever their number
      and whatever is skipped. */
  lemma {:induction false} AccumulatedValue(s: seq<Byte>, skip: Byte)
    ensures Accumulated(s, skip) == Int32(Value(Kept(s, skip)))
  {
    if s != [] {
      var before, c := s[..|s| - 1], s[|s| - 1];
      AccumulatedValue(before, skip);
      if c != skip && IsDigit(c) {
        assert Kept(s, skip)[..|Kept(s, skip)| - 1] == Kept(before, skip);
        Int32Wraps(Value(Kept(before, skip)), c);
      } else {
        assert Kept(s, skip) == Kept(before, skip);
      }
    }
  }

  /** A number is negative exactly if it begins with a minus sign that is not skipped. */
  lemma ParsedValue(number: seq<Byte>, skip: Byte)
    ensures var value: int := Value(Kept(number, skip));
      Parsed(number, skip)
        == Int32(if number != [] && number[0] == '-' as int && skip != '-' as int then -value else value)
  {
    if number != [] {
      AccumulatedValue(number, skip);
      Int32Wraps(Value(Kept(number, skip)), 0);
    }
  }

  lemma KeptOneMore(s: seq<Byte>, c: Byte, skip: Byte)
    ensures Kept(s + [c], skip) == Kept(s, skip) + if c != skip && IsDigit(c) then [c] else []
  {
    assert (s + [c])[..|s|] == s;
  }

  lemma {:induction false} KeptDigits(sign: seq<Byte>, digits: seq<Byte>)
    requires AllDigits(digits) && (sign == [] || sign == [MINUS])
    ensures Kept(sign + digits, NO_SKIP_CHAR) == digits
  {
    hide Kept;
    if digits == [] {
      assert sign + digits == sign && [] + [MINUS] == [MINUS];
      assert Kept([], NO_SKIP_CHAR) == [] by { NothingKept(NO_SKIP_CHAR); }
      KeptOneMore([], MINUS, NO_SKIP_CHAR);
    } else {
      var d := |digits| - 1;
      KeptDigits(sign, digits[..d]);
      KeptOneMore(sign + digits[..d], digits[d], NO_SKIP_CHAR);
      assert sign + digits == sign + digits[..d] + [digits[d]];
      assert digits == digits[..d] + [digits[d]];
    }
  }

  lemma NothingKept(skip: Byte)
    ensures Kept([], skip) == []
  {
  }

  lemma Int32Exact(v: int)
    requires -TWO_31 <= v < TWO_31
    ensures Int32(v) == v
  {
  }

  /** No intermediate result overflows exactly if the value is not within 48 of the range's
      end: the character code is added before that of '0' is taken away. */
  lemma {:induction false} FitsIff(sign: seq<Byte>, digits: seq<Byte>)
    requires AllDigits(digits) && (sign == [] || sign == [MINUS])
    ensures Fits(sign + digits, NO_SKIP_CHAR) <==> digits == [] || Value(digits) + ZERO < TWO_31
  {
    hide Kept, Int32;
    var s := sign + digits;
    if digits == [] {
      assert s == sign;
      assert sign == [MINUS] ==> sign[..0] == [];
    } else {
      var d := |digits| - 1;
      assert s[..|s| - 1] == sign + digits[..d];
      FitsIff(sign, digits[..d]);
      AccumulatedValue(sign + digits[..d], NO_SKIP_CHAR);
      KeptDigits(sign, digits[..d]);
      var before := Value(digits[..d]);
      assert IsDigit(s[|s| - 1]) && s[|s| - 1] == digits[d] && Value(digits) == 10 * before + digits[d] - ZERO;
      if before < TWO_31 {
        Int32Exact(before);
      }
    }
  }

  lemma NextAtStart(number: seq<Byte>, tail: seq<Byte>, skip: Byte)
    requires number != [] && Starts(number[0]) && forall i :: 1 <= i < |number| ==> Continues(number[i], skip)
    requires tail == [] || !Continues(tail[0], skip)
    ensures Next(number + tail, skip) == number && Sought(number + tail) == number + tail
  {
    hide RunLength;
    var t := number + tail;
    StartsHere(t);
    assert t[1..] == number[1..] + tail;
    RunIsAll(number[1..], tail, skip);
    assert t[..|number|] == number;
  }

  /** A sign or digit, digits and skipped bytes behind it and nothing that continues them:
      that is read next. */
  lemma NextIsNumber(lead: seq<Byte>, number: seq<Byte>, tail: seq<Byte>, skip: Byte)
    requires forall i :: 0 <= i < |lead| ==> !Starts(lead[i])
    requires number != [] && Starts(number[0]) && forall i :: 1 <= i < |number| ==> Continues(number[i], skip)
    requires tail == [] || !Continues(tail[0], skip)
    ensures Next(lead + number + tail, skip) == number
    ensures Sought(lead + number + tail) == number + tail
  {
    hide Sought, RunLength;
    assert lead + number + tail == lead + (number + tail);
    SoughtAfter(lead, number + tail);
    NextAtStart(number, tail, skip);
  }

  /** A number with skipped bytes among its digits is read back, commas in thousands say. */
  lemma SkippingReadsBack(lead: seq<Byte>, number: seq<Byte>, n: int, tail: seq<Byte>, skip: Byte)
    requires -TWO_31 <= n < TWO_31 && skip != '-' as int
    requires number != [] && Starts(number[0]) && (number[0] == '-' as int <==> n < 0)
    requires forall i :: 1 <= i < |number| ==> '0' as int <= number[i] <= '9' as int || number[i] == skip
    requires Kept(number, skip) == Digits(Magnitude(n), 10)
    requires forall i :: 0 <= i < |lead| ==> !Starts(lead[i])
    requires tail == [] || !Continues(tail[0], skip)
    ensures Parsed(Next(lead + number + tail, skip), skip) == n
    ensures Sought(lead + number + tail) == number + tail
  {
    hide Kept, Next, Parsed, Sought, Digits, Value, Int32;
    NextIsNumber(lead, number, tail, skip);
    ParsedValue(number, skip);
    DecimalDigits(Magnitude(n));
    Int32Exact(n);
  }

  lemma PrintedIsNumber(n: int)
    ensures Printed(n) != [] && Starts(Printed(n)[0]) && AllDigits(Printed(n)[1..])
  {
    var digits := Digits(Magnitude(n), 10);
    DecimalDigits(Magnitude(n));
    assert n < 0 ==> Printed(n)[1..] == digits;
    assert n >= 0 ==> Printed(n) == digits;
  }

  lemma ParsedIsNumber(n: int)
    requires -TWO_31 <= n < TWO_31
    ensures Parsed(Printed(n), NO_SKIP_CHAR) == n
  {
    var digits := Digits(Magnitude(n), 10);
    DecimalDigits(Magnitude(n));
    KeptDigits(if n < 0 then [MINUS] else [], digits);
    ParsedValue(Printed(n), NO_SKIP_CHAR);
    Int32Exact(n);
    assert n >= 0 ==> Printed(n) == digits && IsDigit(digits[0]);
  }

  /** A printed 32-bit number, among bytes that are not part of a number, is read back. */
  lemma PrintedReadsBack(lead: seq<Byte>, n: int, tail: seq<Byte>)
    requires -TWO_31 <= n < TWO_31
    requires forall i :: 0 <= i < |lead| ==> lead[i] != '-' as int && !('0' as int <= lead[i] <= '9' as int)
    requires tail != [] ==> tail[0] != 1 && !('0' as int <= tail[0] <= '9' as int)
    ensures Parsed(Next(lead + Printed(n) + tail, NO_SKIP_CHAR), NO_SKIP_CHAR) == n
    ensures Sought(lead + Printed(n) + tail) == Printed(n) + tail
    ensures Next(lead + Printed(n) + tail, NO_SKIP_CHAR) == Printed(n)
  {
    PrintedIsNumber(n);
    NextIsNumber(lead, Printed(n), tail, NO_SKIP_CHAR);
    ParsedIsNumber(n);
  }

  lemma PrintedFitsIff(n: int)
    ensures Fits(Printed(n), NO_SKIP_CHAR) <==> Magnitude(n) < TWO_31 - ZERO
  {
    DecimalDigits(Magnitude(n));
    FitsIff(if n < 0 then [MINUS] else [], Digits(Magnitude(n), 10));
  }

  /** Numbers printed one after the other, each with a separator behind it. */
  function Listing(ns: seq<int>, separator: Byte): seq<Byte> {
    if ns == [] then [] else Printed(ns[0]) + [separator] + Listing(ns[1..], separator)
  }

  /** What `k` calls of parseInt return. */
  function ReadBack(s: seq<Byte>, k: nat): seq<int>
    decreases k
  {
    if k == 0 then []
    else
      var number := Next(s, NO_SKIP_CHAR);
      [Parsed(number, NO_SKIP_CHAR)] + ReadBack(Sought(s)[|number|..], k - 1)
  }

  lemma {:induction false} ListingReadsBack(lead: seq<Byte>, ns: seq<int>, separator: Byte)
    requires forall i :: 0 <= i < |ns| ==> -TWO_31 <= ns[i] < TWO_31
    requires !Starts(separator) && separator != NO_SKIP_CHAR
    requires forall i :: 0 <= i < |lead| ==> !Starts(lead[i])
    ensures ReadBack(lead + Listing(ns, separator), |ns|) == ns
    decreases |ns|
  {
    if ns != [] {
      var tail := [separator] + Listing(ns[1..], separator);
      assert Listing(ns, separator) == Printed(ns[0]) + tail;
      assert lead + Listing(ns, separator) == lead + Printed(ns[0]) + tail;
      PrintedReadsBack(lead, ns[0], tail);
      assert (Printed(ns[0]) + tail)[|Printed(ns[0])|..] == tail;
      ListingReadsBack([separator], ns[1..], separator);
    }
  }
}
