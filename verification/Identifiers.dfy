/** Identifiers whose string order is their numeric order: ULIDs and checkpoint versions. */
module Identifiers {
  import opened Text

  // ---------------------------------------------------------------- numerals of fixed width

  function Pow(base: nat, n: nat): nat { if n == 0 then 1 else base * Pow(base, n - 1) }

  ghost predicate Digits(d: seq<nat>, base: nat) { forall i :: 0 <= i < |d| ==> d[i] < base }

  /** Most significant digit first. */
  function Value(d: seq<nat>, base: nat): nat {
    if d == [] then 0 else d[0] * Pow(base, |d| - 1) + Value(d[1..], base)
  }

  lemma TimesAtMost(a: nat, b: nat, p: nat)
    requires a <= b
    ensures a * p <= b * p
  {}

  lemma {:induction false} ValueBound(d: seq<nat>, base: nat)
    requires Digits(d, base)
    ensures Value(d, base) < Pow(base, |d|)
  {
    if d != [] {
      ValueBound(d[1..], base);
      LeadingBelow(d[0], Value(d[1..], base), base, Pow(base, |d| - 1));
    }
  }

  lemma LeadingBelow(x: nat, v: nat, base: nat, p: nat)
    requires x < base && v < p
    ensures x * p + v < base * p
  {
    TimesAtMost(x + 1, base, p);
  }

  lemma {:induction false} ValueSnoc(d: seq<nat>, x: nat, base: nat)
    ensures Value(d + [x], base) == base * Value(d, base) + x
  {
    if d == [] {
      assert (d + [x])[1..] == [];
      assert Pow(base, 0) == 1;
    } else {
      var p := Pow(base, |d| - 1);
      ValueSnoc(d[1..], x, base);
      assert (d + [x])[1..] == d[1..] + [x];
      assert Pow(base, |d|) == base * p;
      Distribute(base, d[0], p, Value(d[1..], base));
    }
  }

  lemma Distribute(base: nat, x: nat, p: nat, v: nat)
    ensures x * (base * p) + base * v == base * (x * p + v)
  {}

  /** Below `p`, the rest cannot make up for a smaller leading digit. */
  lemma LeadingDecides(x: nat, v: nat, y: nat, w: nat, p: nat)
    requires v < p && w < p
    ensures x * p + v < y * p + w <==> x < y || (x == y && v < w)
  {
    if x < y {
      TimesAtMost(x + 1, y, p);
    } else if y < x {
      TimesAtMost(y + 1, x, p);
    }
  }

  predicate NatLess(a: nat, b: nat) { a < b }

  /** For numerals of one width, lexicographic order is numeric order. */
  lemma {:induction false} OrderIsNumeric(d: seq<nat>, e: seq<nat>, base: nat)
    requires |d| == |e| && Digits(d, base) && Digits(e, base)
    ensures Lex(NatLess, d, e) <==> Value(d, base) < Value(e, base)
  {
    if d != [] {
      var p := Pow(base, |d| - 1);
      ValueBound(d[1..], base);
      ValueBound(e[1..], base);
      LeadingDecides(d[0], Value(d[1..], base), e[0], Value(e[1..], base), p);
      OrderIsNumeric(d[1..], e[1..], base);
    }
  }

  ghost predicate Ascends(alphabet: string) { forall i, j :: 0 <= i < j < |alphabet| ==> alphabet[i] < alphabet[j] }

  function Spelled(d: seq<nat>, alphabet: string): (s: string)
    requires forall i :: 0 <= i < |d| ==> d[i] < |alphabet|
    ensures |s| == |d| && forall i :: 0 <= i < |d| ==> s[i] == alphabet[d[i]]
  {
    seq(|d|, i requires 0 <= i < |d| => alphabet[d[i]])
  }

  lemma {:induction false} SpellingKeepsOrder(d: seq<nat>, e: seq<nat>, alphabet: string)
    requires Ascends(alphabet) && Digits(d, |alphabet|) && Digits(e, |alphabet|)
    ensures StrLess(Spelled(d, alphabet), Spelled(e, alphabet)) <==> Lex(NatLess, d, e)
  {
    if d != [] && e != [] {
      var s, t := Spelled(d, alphabet), Spelled(e, alphabet);
      assert s[1..] == Spelled(d[1..], alphabet) && t[1..] == Spelled(e[1..], alphabet);
      SpellingKeepsOrder(d[1..], e[1..], alphabet);
      assert d[0] < e[0] ==> s[0] < t[0];
      assert d[0] > e[0] ==> s[0] > t[0];
    }
  }

  // ---------------------------------------------------------------- ULIDs

  const CROCKFORD := "0123456789abcdefghjkmnpqrstvwxyz"

  /** The digits the loop takes off the low end, in reading order. */
  function Base32(value: nat, width: nat): (d: seq<nat>)
    ensures |d| == width && forall i :: 0 <= i < width ==> d[i] < 32
  {
    if width == 0 then [] else Base32(value / 32, width - 1) + [value % 32]
  }

  function UlidText(value: nat): string { Spelled(Base32(value, 26), CROCKFORD) }

  lemma {:induction false} Base32Value(value: nat, width: nat)
    requires value < Pow(32, width)
    ensures Value(Base32(value, width), 32) == value
  {
    if width > 0 {
      assert value / 32 < Pow(32, width - 1);
      Base32Value(value / 32, width - 1);
      ValueSnoc(Base32(value / 32, width - 1), value % 32, 32);
    }
  }

  type Byte = n: int | 0 <= n < 256

  function FromBytes(b: seq<Byte>): nat { if b == [] then 0 else 256 * FromBytes(b[..|b| - 1]) + b[|b| - 1] }

  function ToBytes(n: nat, width: nat): (b: seq<Byte>)
    ensures |b| == width
  {
    if width == 0 then [] else ToBytes(n / 256, width - 1) + [n % 256]
  }

  lemma {:induction false} BytesBack(n: nat, width: nat)
    requires n < Pow(256, width)
    ensures FromBytes(ToBytes(n, width)) == n
  {
    if width > 0 {
      assert n / 256 < Pow(256, width - 1);
      BytesBack(n / 256, width - 1);
      var b := ToBytes(n, width);
      assert b[..|b| - 1] == ToBytes(n / 256, width - 1);
    }
  }

  lemma {:induction false} FromBytesBound(b: seq<Byte>)
    ensures FromBytes(b) < Pow(256, |b|)
  {
    if b != [] {
      FromBytesBound(b[..|b| - 1]);
      TimesAtMost(FromBytes(b[..|b| - 1]) + 1, Pow(256, |b| - 1), 256);
    }
  }

  lemma {:induction false} FromBytesConcat(a: seq<Byte>, b: seq<Byte>)
    ensures FromBytes(a + b) == FromBytes(a) * Pow(256, |b|) + FromBytes(b)
  {
    if b == [] {
      assert a + b == a;
      assert Pow(256, 0) == 1;
    } else {
      var most := b[..|b| - 1];
      FromBytesConcat(a, most);
      assert (a + b)[..|a + b| - 1] == a + most;
      Distribute(256, FromBytes(a), Pow(256, |b| - 1), FromBytes(most));
    }
  }

  /** The 128-bit number of a timestamp and its entropy. */
  function UlidValue(timestamp: nat, random: seq<Byte>): nat {
    timestamp * Pow(256, 10) + FromBytes(random)
  }

  /** None stands for the OverflowError of a timestamp beyond 48 bits and the ValueError of a wrong byte count. */
  method GenerateUlid(timestamp: int, random: seq<Byte>) returns (r: Option<string>)
    ensures r.Some? <==> 0 <= timestamp < Pow(256, 6) && |random| == 10
    ensures r.Some? ==> r.value == UlidText(UlidValue(timestamp, random))
  {
    if timestamp < 0 || timestamp >= Pow(256, 6) || |random| != 10 { return None; }
    var combined := ToBytes(timestamp, 6) + random;
    BytesBack(timestamp, 6);
    FromBytesConcat(ToBytes(timestamp, 6), random);
    var text := Encode(FromBytes(combined));
    r := Some(text);
  }

  function Reversed(s: string): (r: string)
    ensures |r| == |s| && forall i :: 0 <= i < |s| ==> r[i] == s[|s| - 1 - i]
  {
    seq(|s|, i requires 0 <= i < |s| => s[|s| - 1 - i])
  }

  lemma ReversedSnoc(s: string, c: char)
    ensures Reversed(s + [c]) == [c] + Reversed(s)
  {}

  /** Twenty-six digits off the low end, then turned round. */
  method Encode(value: nat) returns (text: string)
    ensures text == UlidText(value)
  {
    var chars, left := "", value;
    ghost var digits: seq<nat> := [];
    for i := 0 to 26
      invariant Digits(digits, 32) && Reversed(chars) == Spelled(digits, CROCKFORD)
      invariant |digits| == i && Base32(value, 26) == Base32(left, 26 - i) + digits
    {
      var low := left % 32;
      SpelledCons(low, digits);
      ReversedSnoc(chars, CROCKFORD[low]);
      BaseStep(left, 26 - i, digits);
      chars := chars + [CROCKFORD[low]];
      digits := [low] + digits;
      left := left / 32;
    }
    assert Base32(left, 0) + digits == digits;
    text := Reversed(chars);
  }

  lemma SpelledCons(x: nat, d: seq<nat>)
    requires x < 32 && Digits(d, 32)
    ensures Digits([x] + d, 32) && Spelled([x] + d, CROCKFORD) == [CROCKFORD[x]] + Spelled(d, CROCKFORD)
  {}

  lemma BaseStep(left: nat, width: nat, digits: seq<nat>)
    requires width > 0
    ensures Base32(left, width) + digits == Base32(left / 32, width - 1) + ([left % 32] + digits)
  {}

  predicate Climbs(s: string) { forall k :: 0 < k < |s| ==> s[k - 1] < s[k] }

  lemma {:induction false} ClimbingAscends(s: string, i: nat, j: nat)
    requires Climbs(s) && i < j < |s|
    ensures s[i] < s[j]
    decreases j
  {
    assert s[j - 1] < s[j];
    if i < j - 1 { ClimbingAscends(s, i, j - 1); }
  }

  lemma AlphabetAscends()
    ensures |CROCKFORD| == 32 && Ascends(CROCKFORD)
  {
    var s := CROCKFORD;
    assert |s| == 32 && Climbs(s);
    forall i, j | 0 <= i < j < |s| ensures s[i] < s[j] { ClimbingAscends(s, i, j); }
  }

  lemma DigitsAscend()
    ensures |DIGITS| == 10 && Ascends(DIGITS)
  {}

  lemma {:induction false} PowAdd(base: nat, m: nat, n: nat)
    ensures Pow(base, m + n) == Pow(base, m) * Pow(base, n)
  {
    if m > 0 {
      PowAdd(base, m - 1, n);
      TimesAssociate(base, Pow(base, m - 1), Pow(base, n));
    } else {
      assert Pow(base, 0) == 1;
    }
  }

  lemma TimesAssociate(a: nat, b: nat, c: nat)
    ensures (a * b) * c == a * (b * c)
  {}

  /** 128 bits fit into 26 digits of five. */
  lemma Powers()
    ensures Pow(256, 16) == Pow(256, 6) * Pow(256, 10) && Pow(256, 16) < Pow(32, 26)
  {
    PowAdd(256, 6, 10);
    assert Pow(256, 1) == 256 && Pow(256, 2) == 0x1_0000 && Pow(256, 3) == 0x100_0000 && Pow(256, 4) == 0x1_0000_0000;
    PowAdd(256, 4, 4);
    PowAdd(256, 8, 8);
    assert Pow(256, 16) == 0x1_0000_0000_0000_0000_0000_0000_0000_0000;
    assert Pow(32, 1) == 32 && Pow(32, 2) == 0x400 && Pow(32, 3) == 0x8000;
    PowAdd(32, 3, 3);
    PowAdd(32, 6, 6);
    PowAdd(32, 12, 12);
    PowAdd(32, 24, 2);
    assert Pow(32, 26) == 0x4_0000_0000_0000_0000_0000_0000_0000_0000;
  }

  lemma UlidFits(timestamp: nat, random: seq<Byte>)
    requires timestamp < Pow(256, 6) && |random| == 10
    ensures UlidValue(timestamp, random) < Pow(32, 26)
  {
    FromBytesBound(random);
    TimesAtMost(timestamp + 1, Pow(256, 6), Pow(256, 10));
    Powers();
  }

  /** On 128-bit values string order is numeric order, so a ULID determines its value. */
  lemma UlidOrder(a: nat, b: nat)
    requires a < Pow(32, 26) && b < Pow(32, 26)
    ensures StrLess(UlidText(a), UlidText(b)) <==> a < b
    ensures UlidText(a) == UlidText(b) <==> a == b
  {
    AlphabetAscends();
    Base32Value(a, 26);
    Base32Value(b, 26);
    SpellingKeepsOrder(Base32(a, 26), Base32(b, 26), CROCKFORD);
    SpellingKeepsOrder(Base32(b, 26), Base32(a, 26), CROCKFORD);
    OrderIsNumeric(Base32(a, 26), Base32(b, 26), 32);
    OrderIsNumeric(Base32(b, 26), Base32(a, 26), 32);
    StrOrder();
  }

  /** A later millisecond sorts later, whatever the entropy; within one, the entropy decides. */
  lemma LaterSortsLater(s: nat, x: seq<Byte>, t: nat, y: seq<Byte>)
    requires s < Pow(256, 6) && t < Pow(256, 6) && |x| == 10 && |y| == 10
    ensures StrLess(UlidText(UlidValue(s, x)), UlidText(UlidValue(t, y))) <==>
            s < t || (s == t && FromBytes(x) < FromBytes(y))
  {
    UlidFits(s, x);
    UlidFits(t, y);
    UlidOrder(UlidValue(s, x), UlidValue(t, y));
    FromBytesBound(x);
    FromBytesBound(y);
    LeadingDecides(s, FromBytes(x), t, FromBytes(y), Pow(256, 10));
  }

  // ---------------------------------------------------------------- checkpoint versions

  const DIGITS := "0123456789"

  function Zeros(n: int): (s: string)
    ensures forall i :: 0 <= i < |s| ==> s[i] == '0'
    ensures |s| == if n < 0 then 0 else n
  {
    if n <= 0 then "" else "0" + Zeros(n - 1)
  }

  /** `f"{n:032}"`, whose zeros go after the sign. */
  function Padded(n: int): string {
    if n >= 0 then Filled(n, 32) else Negated(Filled(-n, 31))
  }

  function Negated(digits: string): string { "-" + digits }

  function Filled(n: nat, width: nat): string { Zeros(width - |Decimal(n)|) + Decimal(n) }

  /** The suffix is whatever the random fraction prints as. */
  function VersionText(n: int, suffix: string): string { Padded(n) + "." + suffix }

  datatype Current = Absent | Count(n: int) | Text(text: string)

  /** `int()` on decimal numerals; on anything else it may answer or raise. */
  ghost predicate ReadsNumerals(intOf: string -> Option<int>) {
    forall s {:trigger ReadsNumeral(intOf, s, ParseDecimal(s))} ::
      AllDigits(s) ==> ReadsNumeral(intOf, s, ParseDecimal(s))
  }

  ghost predicate ReadsNumeral(intOf: string -> Option<int>, s: string, n: int) {
    intOf(s) == Some(n) && intOf(Negated(s)) == Some(-n)
  }

  /** One such reading: nothing but decimal numerals. */
  function DecimalInt(s: string): Option<int> {
    if AllDigits(s) then Some(ParseDecimal(s))
    else if s != "" && s[0] == '-' && AllDigits(s[1..]) then
      var n: int := ParseDecimal(s[1..]);
      Some(-n)
    else None
  }

  lemma SomeReader()
    ensures exists intOf: string -> Option<int> :: ReadsNumerals(intOf)
  {
    forall s | AllDigits(s) ensures ReadsNumeral(DecimalInt, s, ParseDecimal(s)) {
      assert Negated(s)[0] == '-' && !IsDigit('-') && Negated(s)[1..] == s;
    }
    assert ReadsNumerals(DecimalInt);
  }

  function Counter(current: Current, intOf: string -> Option<int>): int {
    match current
    case Absent => 0
    case Count(n) => n
    case Text(t) => (match intOf(t[..Position(t, '.')]) case Some(n) => n case None => 0)
  }

  function NextVersion(current: Current, suffix: string, intOf: string -> Option<int>): string {
    VersionText(Counter(current, intOf) + 1, suffix)
  }

  lemma {:induction false} ParseZeros(k: int, s: string)
    requires AllDigits(s)
    ensures AllDigits(Zeros(k) + s) && ParseDecimal(Zeros(k) + s) == ParseDecimal(s)
    decreases |s|
  {
    var t := Zeros(k) + s;
    assert t[..|t| - 1] == Zeros(k) + s[..|s| - 1];
    if |s| == 1 {
      ParseOnlyZeros(Zeros(k));
      assert s[..0] == [] && t[..|t| - 1] == Zeros(k);
    } else {
      ParseZeros(k, s[..|s| - 1]);
    }
  }

  lemma {:induction false} ParseOnlyZeros(z: string)
    requires forall i :: 0 <= i < |z| ==> z[i] == '0'
    ensures ParseDecimal(z) == 0
  {
    if z != "" { ParseOnlyZeros(z[..|z| - 1]); }
  }

  lemma FirstDot(a: string, b: string)
    requires '.' !in a
    ensures Position(a + "." + b, '.') == |a|
  {
    var s := a + "." + b;
    var i := Position(s, '.');
    assert s[|a|] == '.';
    assert forall k :: 0 <= k < |a| ==> s[k] == a[k];
  }

  lemma DigitsHaveNoDot(s: string)
    requires AllDigits(s)
    ensures '.' !in s && '.' !in Negated(s)
  {}

  /** A version gives back the counter it was printed with, so the next one counts one further. */
  lemma VersionReadsBack(n: int, suffix: string, intOf: string -> Option<int>)
    requires ReadsNumerals(intOf)
    ensures Counter(Text(VersionText(n, suffix)), intOf) == n
  {
    PaddedHasNoDot(n);
    FirstDot(Padded(n), suffix);
    assert VersionText(n, suffix)[..|Padded(n)|] == Padded(n);
    PaddedReads(n, intOf);
  }

  lemma PaddedHasNoDot(n: int)
    ensures '.' !in Padded(n)
  {
    var digits := if n >= 0 then Filled(n, 32) else Filled(-n, 31);
    FilledParses(if n >= 0 then n else -n, if n >= 0 then 32 else 31);
    DigitsHaveNoDot(digits);
  }

  lemma NumeralReads(s: string, n: int, intOf: string -> Option<int>)
    requires ReadsNumerals(intOf) && AllDigits(s) && ParseDecimal(s) == n
    ensures intOf(s) == Some(n)
    ensures intOf(Negated(s)) == Some(-n)
  {
    assert ReadsNumeral(intOf, s, ParseDecimal(s));
  }

  lemma PaddedReads(n: int, intOf: string -> Option<int>)
    requires ReadsNumerals(intOf)
    ensures intOf(Padded(n)) == Some(n)
  {
    if n >= 0 {
      FilledParses(n, 32);
      NumeralReads(Filled(n, 32), n, intOf);
      assert Padded(n) == Filled(n, 32);
    } else {
      FilledParses(-n, 31);
      NumeralReads(Filled(-n, 31), -n, intOf);
      assert Padded(n) == Negated(Filled(-n, 31));
    }
  }

  lemma FilledParses(n: nat, width: nat)
    ensures AllDigits(Filled(n, width)) && ParseDecimal(Filled(n, width)) == n
  {
    ParseZeros(width - |Decimal(n)|, Decimal(n));
    DecimalRoundTrip(n);
  }

  lemma {:induction false} DecimalWidth(n: nat, w: nat)
    requires n < Pow(10, w) && w > 0
    ensures |Decimal(n)| <= w
    decreases w
  {
    if n >= 10 {
      assert Pow(10, 0) == 1;
      assert n / 10 < Pow(10, w - 1);
      DecimalWidth(n / 10, w - 1);
    }
  }

  function Numeral(c: char): (n: nat)
    requires IsDigit(c)
    ensures n < 10 && n == c as int - '0' as int
  {
    c as int - '0' as int
  }

  function Numerals(s: string): (d: seq<nat>)
    requires forall i :: 0 <= i < |s| ==> IsDigit(s[i])
    ensures |d| == |s| && forall i :: 0 <= i < |s| ==> d[i] == Numeral(s[i])
  {
    seq(|s|, i requires 0 <= i < |s| => Numeral(s[i]))
  }

  lemma {:induction false} NumeralsValue(s: string)
    requires forall i :: 0 <= i < |s| ==> IsDigit(s[i])
    ensures Value(Numerals(s), 10) == ParseDecimal(s)
  {
    if s != "" {
      var most := s[..|s| - 1];
      NumeralsValue(most);
      assert Numerals(s) == Numerals(most) + [Numeral(s[|s| - 1])];
      ValueSnoc(Numerals(most), Numeral(s[|s| - 1]), 10);
    }
  }

  lemma NumeralsSpell(s: string)
    requires AllDigits(s)
    ensures Spelled(Numerals(s), DIGITS) == s
  {
    forall i | 0 <= i < |s| ensures DIGITS[Numerals(s)[i]] == s[i] { DigitAt(s[i]); }
  }

  lemma DigitAt(c: char)
    requires IsDigit(c)
    ensures DIGITS[Numeral(c)] == c
  {}

  /** Digit strings of one length compare as their numbers. */
  lemma DigitOrder(a: string, b: string)
    requires AllDigits(a) && AllDigits(b) && |a| == |b|
    ensures StrLess(a, b) <==> ParseDecimal(a) < ParseDecimal(b)
  {
    NumeralsSpell(a);
    NumeralsSpell(b);
    NumeralsValue(a);
    NumeralsValue(b);
    DigitsAscend();
    SpellingKeepsOrder(Numerals(a), Numerals(b), DIGITS);
    OrderIsNumeric(Numerals(a), Numerals(b), 10);
  }

  lemma {:induction false} PrefixDecides(a: string, b: string, u: string, v: string)
    requires |a| == |b| && StrLess(a, b)
    ensures StrLess(a + u, b + v)
  {
    assert (a + u)[1..] == a[1..] + u && (b + v)[1..] == b[1..] + v;
    assert (a + u)[0] == a[0] && (b + v)[0] == b[0];
    if a[0] == b[0] { PrefixDecides(a[1..], b[1..], u, v); }
  }

  lemma FilledOrder(m: nat, n: nat, width: nat)
    requires m < n < Pow(10, width) && width > 0
    ensures |Filled(m, width)| == |Filled(n, width)| == width && StrLess(Filled(m, width), Filled(n, width))
  {
    DecimalWidth(m, width);
    DecimalWidth(n, width);
    FilledParses(m, width);
    FilledParses(n, width);
    DigitOrder(Filled(m, width), Filled(n, width));
  }

  /** Thirty-two digits, a dot and the suffix. */
  lemma WhatAVersionIs(n: nat, suffix: string)
    requires n < Pow(10, 32)
    ensures var s := VersionText(n, suffix);
            && |s| == 33 + |suffix| && s[32] == '.' && s[33..] == suffix
            && AllDigits(s[..32]) && ParseDecimal(s[..32]) == n
  {
    FilledParses(n, 32);
    DecimalWidth(n, 32);
    var s := VersionText(n, suffix);
    assert s[..32] == Filled(n, 32);
  }

  /** Below 10^32 a larger counter makes a later string, whatever the suffixes. */
  lemma LaterVersionSortsLater(m: nat, x: string, n: nat, y: string)
    requires m < n < Pow(10, 32)
    ensures StrLess(VersionText(m, x), VersionText(n, y))
  {
    FilledOrder(m, n, 32);
    PrefixDecides(Padded(m), Padded(n), "." + x, "." + y);
    Regroup(Padded(m), ".", x);
    Regroup(Padded(n), ".", y);
  }

  lemma {:induction false} PowersOfTen(k: nat)
    requires k > 0
    ensures Pow(10, k) >= 10 && Decimal(Pow(10, k))[0] == '1' && Decimal(Pow(10, k) - 1)[0] == '9'
    ensures |Decimal(Pow(10, k))| == k + 1 && |Decimal(Pow(10, k) - 1)| == k
  {
    if k == 1 {
      assert Pow(10, 0) == 1;
      assert Decimal(1) == "1" && Decimal(10) == "10" && Decimal(9) == "9";
    } else {
      PowersOfTen(k - 1);
      var p := Pow(10, k - 1);
      assert (10 * p) / 10 == p && (10 * p - 1) / 10 == p - 1;
    }
  }

  lemma WidthOverflows(width: nat)
    requires width > 0
    ensures Filled(Pow(10, width), width) != "" && Filled(Pow(10, width), width)[0] == '1'
    ensures Pow(10, width) > 0 && Filled(Pow(10, width) - 1, width) != "" && Filled(Pow(10, width) - 1, width)[0] == '9'
  {
    PowersOfTen(width);
    assert Zeros(-1) == "" && Zeros(0) == "";
  }

  /** The bound is sharp: the version after 10^32 - 1 sorts before it. */
  lemma OverflowSortsEarlier(limit: nat, x: string, y: string)
    requires limit == Pow(10, 32)
    ensures limit > 0 && StrLess(VersionText(limit, y), VersionText(limit - 1, x))
  {
    WidthOverflows(32);
    var a, b := Padded(limit), Padded(limit - 1);
    assert (a + "." + y)[0] == a[0] && (b + "." + x)[0] == b[0];
  }

  /** Equal counters with different random suffixes are different versions, which keeps branches apart. */
  lemma SuffixesTellBranchesApart(m: nat, x: string, n: nat, y: string)
    ensures VersionText(m, x) == VersionText(n, y) <==> m == n && x == y
  {
    if VersionText(m, x) == VersionText(n, y) {
      SplitAtDot(m, x);
      SplitAtDot(n, y);
      FilledParses(m, 32);
      FilledParses(n, 32);
    }
  }

  lemma SplitAtDot(n: nat, suffix: string)
    ensures var t := VersionText(n, suffix);
            var i := Position(t, '.');
            i < |t| && t[..i] == Padded(n) && t[i + 1..] == suffix
  {
    PaddedHasNoDot(n);
    FirstDot(Padded(n), suffix);
  }

  /** A channel's versions, each made from the one before. */
  ghost predicate VersionChain(versions: seq<string>, suffixes: seq<string>, intOf: string -> Option<int>) {
    && |versions| == |suffixes|
    && forall i :: 0 <= i < |versions| ==> Linked(versions, suffixes, intOf, i)
  }

  ghost predicate Linked(versions: seq<string>, suffixes: seq<string>, intOf: string -> Option<int>, i: nat)
    requires i < |versions| == |suffixes|
  {
    versions[i] == NextVersion(if i == 0 then Absent else Text(versions[i - 1]), suffixes[i], intOf)
  }

  lemma {:induction false} ChainCounts(
      versions: seq<string>, suffixes: seq<string>, intOf: string -> Option<int>, i: nat)
    requires VersionChain(versions, suffixes, intOf) && ReadsNumerals(intOf) && i < |versions|
    ensures versions[i] == VersionText(i + 1, suffixes[i])
  {
    assert Linked(versions, suffixes, intOf, i);
    if i > 0 {
      ChainCounts(versions, suffixes, intOf, i - 1);
      VersionReadsBack(i, suffixes[i - 1], intOf);
    }
  }

  /** Along a channel every version sorts after all before it, for the first 10^32 - 1 of them. */
  lemma ChainSortsInOrder(versions: seq<string>, suffixes: seq<string>, intOf: string -> Option<int>, i: nat, j: nat)
    requires VersionChain(versions, suffixes, intOf) && ReadsNumerals(intOf)
    requires i < j < |versions| && j + 1 < Pow(10, 32)
    ensures StrLess(versions[i], versions[j])
  {
    var s, t := versions[i], versions[j];
    ChainCounts(versions, suffixes, intOf, i);
    ChainCounts(versions, suffixes, intOf, j);
    assert StrLess(s, t) by { LaterVersionSortsLater(i + 1, suffixes[i], j + 1, suffixes[j]); }
  }
}
