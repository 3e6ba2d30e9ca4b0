/** IP addresses as dotted text. */
module IpText {
  import opened NumberText

  const DOT: Byte := 46

  // ---------- the grammar ----------

  function Extended(fields: seq<seq<Byte>>, f: seq<Byte>): (r: seq<seq<Byte>>)
    requires |fields| >= 1
    ensures |r| == |fields|
  {
    fields[..|fields| - 1] + [fields[|fields| - 1] + f]
  }

  /** What one more character does to the fields read so far. */
  function Step(fields: seq<seq<Byte>>, c: Byte): (r: seq<seq<Byte>>)
    requires |fields| >= 1
    ensures |r| >= 1
  {
    if c == DOT then fields + [[]] else Extended(fields, [c])
  }

  /** The fields between the dots. */
  function Fields(s: seq<Byte>): (fields: seq<seq<Byte>>)
    ensures |fields| >= 1
  {
    if s == [] then [[]] else Step(Fields(s[..|s| - 1]), s[|s| - 1])
  }

  /** A field holds digits only, up to 255; the empty one stands for 0. */
  predicate IsField(f: seq<Byte>) {
    AllDigits(f) && Value(f) <= 255
  }

  predicate AreFields(fields: seq<seq<Byte>>) {
    |fields| <= 4 && forall j :: 0 <= j < |fields| ==> IsField(fields[j])
  }

  predicate IsAddress(s: seq<Byte>) {
    AreFields(Fields(s)) && |Fields(s)| == 4
  }

  lemma FieldGrows(f: seq<Byte>, c: Byte)
    ensures IsField(f + [c]) <==> IsField(f) && IsDigit(c) && 10 * Value(f) + c - ZERO <= 255
    ensures IsField(f + [c]) ==> Value(f + [c]) == 10 * Value(f) + c - ZERO
  {
    var g := f + [c];
    assert g[..|g| - 1] == f;
    if AllDigits(g) {
      assert forall i :: 0 <= i < |f| ==> f[i] == g[i];
      assert IsDigit(g[|f|]);
    }
  }

  lemma StepFields(fields: seq<seq<Byte>>, c: Byte)
    requires |fields| >= 1
    ensures AreFields(Step(fields, c))
      <==> AreFields(fields) && if c == DOT then |fields| < 4 else IsField(fields[|fields| - 1] + [c])
  {
    var last, next := |fields| - 1, Step(fields, c);
    FieldGrows(fields[last], c);
    assert forall j :: 0 <= j < last ==> fields[j] == next[j];
    if c == DOT {
      assert next[last] == fields[last] && next[last + 1] == [];
    } else {
      assert next[last] == fields[last] + [c];
    }
  }

  /** What is wrong with the beginning of a text is wrong with the text. */
  lemma {:induction false} AreFieldsPrefix(s: seq<Byte>, k: nat)
    requires k <= |s| && AreFields(Fields(s))
    ensures AreFields(Fields(s[..k]))
    decreases |s|
  {
    if k == |s| {
      assert s[..k] == s;
    } else {
      var t := s[..|s| - 1];
      StepFields(Fields(t), s[|s| - 1]);
      AreFieldsPrefix(t, k);
      assert t[..k] == s[..k];
    }
  }

  // ---------- the object ----------

  class IPAddress {
    const bytes: array<Byte>

    constructor (address: seq<Byte>)
      requires |address| == 4
      ensures bytes.Length == 4 && fresh(bytes) && bytes[..] == address
    {
      bytes := new Byte[4](i requires 0 <= i < 4 => address[i]);
    }

    method PrintTo() returns (text: seq<Byte>)
      requires bytes.Length == 4
      ensures text == Dotted(bytes[..])
    {
      text := [];
      var i := 0;
      while true
        invariant 0 <= i < 4 && text == DottedUpTo(bytes[..], i)
        decreases 4 - i
      {
        var digits := PrintNumber(bytes[i], 10, false);
        assert digits == Digits(bytes[..][i], 10);
        text := text + digits;
        i := i + 1;
        if i >= 4 {
          return;
        }
        text := text + [DOT];
      }
    }

    /** The address holds the fields before the last, whose value is `acc`. */
    ghost predicate Holds(fields: seq<seq<Byte>>, acc: int)
      reads bytes
    {
      && bytes.Length == 4 && 1 <= |fields| && AreFields(fields) && acc == Value(fields[|fields| - 1])
      && forall j :: 0 <= j < |fields| - 1 ==> bytes[j] == Value(fields[j])
    }

    /** Takes in one character, unless it makes the text no address. */
    method TakeIn(c: Byte, acc: nat, dots: nat, ghost fields: seq<seq<Byte>>) returns (ok: bool, a: nat, d: nat)
      requires Holds(fields, acc) && dots == |fields| - 1
      modifies bytes
      ensures ok <==> AreFields(Step(fields, c))
      ensures ok ==> Holds(Step(fields, c), a) && d == |Step(fields, c)| - 1
      ensures bytes[3] == old(bytes[3])
    {
      StepFields(fields, c);
      FieldGrows(fields[dots], c);
      a, d := acc, dots;
      if IsDigit(c) {
        a := a * 10 + (c - ZERO);
        if a > 255 {
          return false, a, d;
        }
      } else if c == DOT {
        if d == 3 {
          return false, a, d;
        }
        bytes[d] := a;
        d := d + 1;
        a := 0;
      } else {
        return false, a, d;
      }
      return true, a, d;
    }

    /** Accepts exactly the addresses; a refused text leaves the last byte alone but may have
        replaced the ones before it by its leading fields. */
    method FromString(address: seq<Byte>) returns (ok: bool)
      requires bytes.Length == 4
      modifies bytes
      ensures ok <==> IsAddress(address)
      ensures ok ==> forall j :: 0 <= j < 4 ==> bytes[j] == Value(Fields(address)[j])
      ensures !ok ==> bytes[3] == old(bytes[3])
    {
      var acc, dots, i := 0, 0, 0;
      while i < |address|
        invariant 0 <= i <= |address| && Holds(Fields(address[..i]), acc) && dots == |Fields(address[..i])| - 1
        invariant bytes[3] == old(bytes[3])
      {
        FieldsStep(address[..i], address[i]);
        assert address[..i + 1] == address[..i] + [address[i]];
        ok, acc, dots := TakeIn(address[i], acc, dots, Fields(address[..i]));
        i := i + 1;
        if !ok {
          if IsAddress(address) {
            AreFieldsPrefix(address, i);
          }
          return false;
        }
      }
      assert address[..i] == address;
      if dots != 3 {
        return false;
      }
      bytes[3] := acc;
      return true;
    }
  }

  lemma FieldsStep(s: seq<Byte>, c: Byte)
    ensures Fields(s + [c]) == Step(Fields(s), c)
  {
    assert (s + [c])[..|s|] == s;
  }

  // ---------- the text of an address ----------

  /** The bytes before byte `i` with their dots. */
  function DottedUpTo(a: seq<Byte>, i: nat): seq<Byte>
    requires i <= |a|
  {
    if i == 0 then [] else DottedUpTo(a, i - 1) + Digits(a[i - 1], 10) + [DOT]
  }

  function Dotted(a: seq<Byte>): seq<Byte>
    requires |a| == 4
  {
    DottedUpTo(a, 3) + Digits(a[3], 10)
  }

  /** Spelled out. */
  lemma DottedIs(a: seq<Byte>)
    requires |a| == 4
    ensures var dot := ['.' as int];
      Dotted(a) == Digits(a[0], 10) + dot + Digits(a[1], 10) + dot + Digits(a[2], 10) + dot + Digits(a[3], 10)
  {
    assert DottedUpTo(a, 1) == Digits(a[0], 10) + [DOT];
    assert DottedUpTo(a, 2) == DottedUpTo(a, 1) + Digits(a[1], 10) + [DOT];
    assert DottedUpTo(a, 3) == DottedUpTo(a, 2) + Digits(a[2], 10) + [DOT];
  }

  /** The fields with dots between them. */
  function WithDots(fields: seq<seq<Byte>>): seq<Byte>
    requires |fields| >= 1
  {
    if |fields| == 1 then fields[0]
    else WithDots(fields[..|fields|-1]) + ['.' as int] + fields[|fields|-1]
  }

  /** The fields of a text are the only way to cut it at all its dots. */
  lemma {:induction false} FieldsAre(s: seq<Byte>)
    ensures WithDots(Fields(s)) == s
    ensures forall j :: 0 <= j < |Fields(s)| ==> '.' as int !in Fields(s)[j]
  {
    if s != [] {
      var before, c := s[..|s| - 1], s[|s| - 1];
      var fields := Fields(before);
      FieldsAre(before);
      assert s == before + [c];
      if c == DOT {
        assert (fields + [[]])[..|fields|] == fields;
        assert WithDots(fields) + ['.' as int] + [] == s;
      } else {
        var last := |fields| - 1;
        var next := Extended(fields, [c]);
        assert next[..last] == fields[..last];
        if last > 0 {
          assert WithDots(fields[..last]) + ['.' as int] + (fields[last] + [c])
            == WithDots(fields[..last]) + ['.' as int] + fields[last] + [c];
        }
      }
    }
  }

  lemma ExtendedTwice(fields: seq<seq<Byte>>, f: seq<Byte>, g: seq<Byte>)
    requires |fields| >= 1
    ensures Extended(Extended(fields, f), g) == Extended(fields, f + g)
    ensures Extended(fields, []) == fields
  {
    var last := fields[|fields| - 1];
    assert last + f + g == last + (f + g) && last + [] == last;
  }

  lemma {:induction false} FieldsOfDotless(s: seq<Byte>, f: seq<Byte>)
    requires DOT !in f
    ensures Fields(s + f) == Extended(Fields(s), f)
  {
    hide Fields, Extended;
    if f == [] {
      assert s + f == s;
      ExtendedTwice(Fields(s), [], []);
    } else {
      var g, c := f[..|f| - 1], f[|f| - 1];
      FieldsOfDotless(s, g);
      assert s + f == (s + g) + [c] && f == g + [c];
      FieldsStep(s + g, c);
      ExtendedTwice(Fields(s), g, [c]);
    }
  }

  function Numerals(a: seq<Byte>): seq<seq<Byte>> {
    seq(|a|, i requires 0 <= i < |a| => Digits(a[i], 10))
  }

  lemma NumeralIsField(s: seq<Byte>, before: seq<seq<Byte>>, n: Byte)
    requires Fields(s) == before + [[]]
    ensures Fields(s + Digits(n, 10)) == before + [Digits(n, 10)]
  {
    var digits := Digits(n, 10);
    DecimalDigits(n);
    assert DOT !in digits;
    FieldsOfDotless(s, digits);
    assert [] + digits == digits;
    assert Extended(before + [[]], digits) == before + [digits];
  }

  lemma NumeralsStep(a: seq<Byte>, i: nat)
    requires 0 < i <= |a|
    ensures Numerals(a[..i]) == Numerals(a[..i - 1]) + [Digits(a[i - 1], 10)]
  {
  }

  lemma {:induction false} FieldsUpTo(a: seq<Byte>, i: nat)
    requires i <= |a|
    ensures Fields(DottedUpTo(a, i)) == Numerals(a[..i]) + [[]]
  {
    if i > 0 {
      var before, digits := DottedUpTo(a, i - 1), Digits(a[i - 1], 10);
      FieldsUpTo(a, i - 1);
      NumeralIsField(before, Numerals(a[..i - 1]), a[i - 1]);
      FieldsStep(before + digits, DOT);
      NumeralsStep(a, i);
    }
  }

  lemma FieldsOfDotted(a: seq<Byte>)
    requires |a| == 4
    ensures Fields(Dotted(a)) == Numerals(a)
  {
    FieldsUpTo(a, 3);
    NumeralIsField(DottedUpTo(a, 3), Numerals(a[..3]), a[3]);
    assert Numerals(a) == Numerals(a[..3]) + [Digits(a[3], 10)];
  }

  /** A printed address is accepted and its fields stand for the bytes printed. */
  lemma DottedReadsBack(a: seq<Byte>)
    requires |a| == 4
    ensures IsAddress(Dotted(a))
    ensures forall j :: 0 <= j < 4 ==> Value(Fields(Dotted(a))[j]) == a[j]
  {
    FieldsOfDotted(a);
    forall j | 0 <= j < 4 ensures IsField(Numerals(a)[j]) && Value(Numerals(a)[j]) == a[j] {
      DecimalDigits(a[j]);
    }
  }

  // ---------- texts that are printed as they were read ----------

  predicate Canonical(f: seq<Byte>) {
    |f| == 1 || (|f| > 1 && f[0] != ZERO)
  }

  lemma {:induction false} ZeroStartsWithZero(f: seq<Byte>)
    requires AllDigits(f) && f != [] && Value(f) == 0
    ensures f[0] == ZERO
  {
    if |f| > 1 {
      assert f[..|f| - 1][0] == f[0];
      ZeroStartsWithZero(f[..|f| - 1]);
    }
  }

  lemma {:induction false} CanonicalIff(f: seq<Byte>)
    requires AllDigits(f)
    ensures Digits(Value(f), 10) == f <==> Canonical(f)
  {
    if |f| == 1 {
      assert f[..0] == [];
    } else if |f| > 1 {
      var g, n := f[..|f| - 1], Value(f);
      assert f == g + [f[|f| - 1]] && g[0] == f[0] && IsDigit(f[|f| - 1]);
      CanonicalIff(g);
      if Value(g) == 0 {
        ZeroStartsWithZero(g);
      } else {
        QuotientAndRemainder(n, 10);
        assert Quotient(n, 10) == Value(g);
        var s := Digits(n, 10);
        assert s[..|s| - 1] == Digits(Value(g), 10) && s[|s| - 1] == f[|f| - 1];
      }
    }
  }

  /** The last character and what the fields were before it can be told from the fields. */
  lemma StepTells(f: seq<seq<Byte>>, g: seq<seq<Byte>>, c: Byte, d: Byte)
    requires |f| >= 1 && |g| >= 1 && Step(f, c) == Step(g, d)
    ensures f == g && c == d && Step(f, c) != [[]]
  {
    var next := Step(f, c);
    var last := next[|next| - 1];
    if c == DOT {
      assert last == [];
      assert f == next[..|next| - 1];
    } else {
      assert last == f[|f| - 1] + [c];
      assert f == next[..|next| - 1] + [last[..|last| - 1]];
    }
    if d == DOT {
      assert last == [];
      assert g == next[..|next| - 1];
    } else {
      assert last == g[|g| - 1] + [d];
      assert g == next[..|next| - 1] + [last[..|last| - 1]];
    }
  }

  lemma SomeFields(s: seq<Byte>)
    requires s != []
    ensures Fields(s) != [[]]
  {
    var before := Fields(s[..|s| - 1]);
    StepTells(before, before, s[|s| - 1], s[|s| - 1]);
  }

  lemma {:induction false} FieldsDiffer(s: seq<Byte>, t: seq<Byte>)
    requires Fields(s) == Fields(t)
    ensures s == t
    decreases |s|
  {
    if s == [] || t == [] {
      if s != [] {
        SomeFields(s);
      }
      if t != [] {
        SomeFields(t);
      }
    } else {
      var p, q, c, d := s[..|s| - 1], t[..|t| - 1], s[|s| - 1], t[|t| - 1];
      assert Step(Fields(p), c) == Step(Fields(q), d);
      StepTells(Fields(p), Fields(q), c, d);
      FieldsDiffer(p, q);
      assert s == p + [c] && t == q + [d];
    }
  }

  lemma PrintedAsRead(s: seq<Byte>, a: seq<Byte>)
    requires |a| == 4
    ensures Dotted(a) == s <==> Fields(s) == Numerals(a)
  {
    FieldsOfDotted(a);
    if Fields(s) == Numerals(a) {
      FieldsDiffer(Dotted(a), s);
    }
  }

  /** Printing the address read from a text gives the text back if and only if no field is
      empty or has a leading zero. */
  lemma PrintedAsReadIff(s: seq<Byte>, a: seq<Byte>)
    requires IsAddress(s) && |a| == 4 && forall j :: 0 <= j < 4 ==> a[j] == Value(Fields(s)[j])
    ensures Dotted(a) == s <==> forall j :: 0 <= j < 4 ==> Canonical(Fields(s)[j])
  {
    var f, n := Fields(s), Numerals(a);
    PrintedAsRead(s, a);
    forall j | 0 <= j < 4 ensures n[j] == f[j] <==> Canonical(f[j]) {
      CanonicalIff(f[j]);
    }
    assert f == n <==> forall j :: 0 <= j < 4 ==> n[j] == f[j];
  }
}
