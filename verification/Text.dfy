/** Strings as the services use them: code-point order, sorted name lists, decimal numerals. */
module Text {

  datatype Option<+T> = None | Some(value: T)

  function ToSet<T(==)>(s: seq<T>): set<T> { set x | x in s }

  lemma ToSetGrows<T>(s: seq<T>, i: nat)
    requires i < |s|
    ensures ToSet(s[..i + 1]) == ToSet(s[..i]) + {s[i]}
  {
    assert s[..i + 1] == s[..i] + [s[i]];
  }

  ghost predicate Distinct<T>(s: seq<T>) { forall i, j :: 0 <= i < j < |s| ==> s[i] != s[j] }

  lemma SameLength<T>(a: seq<T>, b: seq<T>)
    requires multiset(a) == multiset(b)
    ensures |a| == |b|
  {
    assert |multiset(a)| == |a| && |multiset(b)| == |b|;
  }

  lemma SplitAt<T>(b: seq<T>, i: nat)
    requires i < |b|
    ensures b == b[..i] + ([b[i]] + b[i + 1..])
  {}

  function Without<T>(s: seq<T>, i: nat): seq<T>
    requires i < |s|
  {
    s[..i] + s[i + 1..]
  }

  lemma MultisetWithout<T>(b: seq<T>, i: nat)
    requires i < |b|
    ensures multiset(Without(b, i)) == multiset(b) - multiset{b[i]}
  {
    var before, after := b[..i], b[i + 1..];
    SplitAt(b, i);
    assert multiset([b[i]] + after) == multiset{b[i]} + multiset(after);
    assert multiset(b) == multiset(before) + (multiset{b[i]} + multiset(after));
    assert Without(b, i) == before + after;
  }

  lemma CountedTwice<T>(s: seq<T>, i: nat, j: nat)
    requires i < j < |s| && s[i] == s[j]
    ensures multiset(s)[s[i]] >= 2
  {
    assert s == s[..j] + ([s[j]] + s[j + 1..]);
    assert s[..j][i] == s[i] && s[i] in s[..j];
    assert multiset(s) == multiset(s[..j]) + (multiset{s[j]} + multiset(s[j + 1..]));
  }

  lemma Regroup<T>(a: seq<T>, b: seq<T>, c: seq<T>)
    ensures (a + b) + c == a + (b + c)
  {}

  // ---------------------------------------------------------------- lexicographic order

  ghost predicate StrictTotal<T(!new)>(lt: (T, T) -> bool) {
    && (forall x :: !lt(x, x))
    && (forall x, y :: x != y ==> lt(x, y) || lt(y, x))
    && (forall x, y, z :: lt(x, y) && lt(y, z) ==> lt(x, z))
  }

  /** Python's order on sequences: the first difference decides, a proper prefix comes first. */
  predicate Lex<T(==)>(lt: (T, T) -> bool, a: seq<T>, b: seq<T>) {
    |b| > 0 && (|a| == 0 || lt(a[0], b[0]) || (a[0] == b[0] && Lex(lt, a[1..], b[1..])))
  }

  lemma {:induction false} LexIrreflexive<T(!new)>(lt: (T, T) -> bool, a: seq<T>)
    requires StrictTotal(lt)
    ensures !Lex(lt, a, a)
  {
    if |a| > 0 {
      LexIrreflexive(lt, a[1..]);
    }
  }

  lemma {:induction false} LexTotal<T(!new)>(lt: (T, T) -> bool, a: seq<T>, b: seq<T>)
    requires StrictTotal(lt)
    ensures a == b || Lex(lt, a, b) || Lex(lt, b, a)
  {
    if |a| > 0 && |b| > 0 && a[0] == b[0] {
      LexTotal(lt, a[1..], b[1..]);
      assert a == [a[0]] + a[1..] && b == [b[0]] + b[1..];
    }
  }

  lemma {:induction false} LexTransitive<T(!new)>(lt: (T, T) -> bool, a: seq<T>, b: seq<T>, c: seq<T>)
    requires StrictTotal(lt) && Lex(lt, a, b) && Lex(lt, b, c)
    ensures Lex(lt, a, c)
  {
    if |a| > 0 && a[0] == b[0] && b[0] == c[0] {
      LexTransitive(lt, a[1..], b[1..], c[1..]);
    }
  }

  /** Lexicographic order over a strict total order is itself a strict total order. */
  lemma LexStrictTotal<T(!new)>(lt: (T, T) -> bool)
    requires StrictTotal(lt)
    ensures StrictTotal((a: seq<T>, b: seq<T>) => Lex(lt, a, b))
  {
    forall a: seq<T> ensures !Lex(lt, a, a) { LexIrreflexive(lt, a); }
    forall a: seq<T>, b: seq<T> | a != b ensures Lex(lt, a, b) || Lex(lt, b, a) { LexTotal(lt, a, b); }
    forall a: seq<T>, b: seq<T>, c: seq<T> | Lex(lt, a, b) && Lex(lt, b, c) ensures Lex(lt, a, c) {
      LexTransitive(lt, a, b, c);
    }
  }

  predicate CharLess(a: char, b: char) { a < b }

  predicate StrLess(a: string, b: string) { Lex(CharLess, a, b) }

  lemma StrOrder()
    ensures StrictTotal(StrLess)
  {
    LexStrictTotal(CharLess);
    var lex := (a: string, b: string) => Lex(CharLess, a, b);
    assert forall a: string, b: string :: StrLess(a, b) == lex(a, b);
    assert StrictTotal(lex);
    forall x: string ensures !StrLess(x, x) { assert !lex(x, x); }
    forall x: string, y: string | x != y ensures StrLess(x, y) || StrLess(y, x) {
      assert lex(x, y) || lex(y, x);
    }
    forall x: string, y: string, z: string | StrLess(x, y) && StrLess(y, z) ensures StrLess(x, z) {
      assert lex(x, y) && lex(y, z);
    }
  }

  // ---------------------------------------------------------------- sorted name lists

  ghost predicate Increasing(s: seq<string>) {
    forall i, j :: 0 <= i < j < |s| ==> StrLess(s[i], s[j])
  }

  lemma {:induction false} LeastName(s: set<string>) returns (m: string)
    requires s != {}
    ensures m in s && forall x :: x in s ==> x == m || StrLess(m, x)
  {
    StrOrder();
    m :| m in s;
    if s != {m} {
      var l := LeastName(s - {m});
      if StrLess(l, m) {
        m := l;
      } else {
        forall x | x in s ensures x == m || StrLess(m, x) {
          if x != m { assert x in s - {m}; }
        }
      }
    } else {
      forall x | x in s ensures x == m {}
    }
  }

  /** `sorted(s)`: the names of `s` in increasing order. */
  ghost function Sorted(s: set<string>): (r: seq<string>)
    ensures Increasing(r) && (forall x :: x in r <==> x in s)
  {
    if s == {} then [] else
      StrOrder();
      LeastNameExists(s);
      var m :| m in s && forall x :: x in s ==> x == m || StrLess(m, x);
      [m] + Sorted(s - {m})
  }

  lemma LeastNameExists(s: set<string>)
    requires s != {}
    ensures exists m :: m in s && forall x :: x in s ==> x == m || StrLess(m, x)
  {
    var m := LeastName(s);
  }

  /** An increasing list is determined by its elements. */
  lemma {:induction false} IncreasingUnique(a: seq<string>, b: seq<string>)
    requires Increasing(a) && Increasing(b)
    requires forall x :: x in a <==> x in b
    ensures a == b
  {
    StrOrder();
    assert |a| > 0 ==> a[0] in b;
    assert |b| > 0 ==> b[0] in a;
    if |a| > 0 {
      var i :| 0 <= i < |a| && a[i] == b[0];
      var j :| 0 <= j < |b| && b[j] == a[0];
      assert a[0] == b[0];
      forall x ensures x in a[1..] <==> x in b[1..] {
        if x in a[1..] { var k :| 1 <= k < |a| && a[k] == x; assert StrLess(a[0], x); assert x in b; }
        if x in b[1..] { var k :| 1 <= k < |b| && b[k] == x; assert StrLess(b[0], x); assert x in a; }
      }
      IncreasingUnique(a[1..], b[1..]);
      assert a == [a[0]] + a[1..] && b == [b[0]] + b[1..];
    }
  }

  method SortNames(s: set<string>) returns (r: seq<string>)
    ensures r == Sorted(s)
  {
    r := [];
    var rest := s;
    while rest != {}
      invariant rest <= s
      invariant Increasing(r)
      invariant forall x :: x in r <==> x in s - rest
      invariant forall x, y :: x in r && y in rest ==> StrLess(x, y)
      decreases rest
    {
      LeastNameExists(rest);
      var m :| m in rest && forall x :: x in rest ==> x == m || StrLess(m, x);
      r := r + [m];
      rest := rest - {m};
    }
    IncreasingUnique(r, Sorted(s));
  }

  /** The elements of a set in some order of Python's choosing. */
  method Listed<T(==)>(s: set<T>) returns (q: seq<T>)
    ensures multiset(q) == multiset(s)
  {
    q := [];
    var rest := s;
    while rest != {}
      invariant rest <= s && multiset(q) == multiset(s - rest)
      decreases rest
    {
      var x :| x in rest;
      q := q + [x];
      assert s - (rest - {x}) == (s - rest) + {x};
      rest := rest - {x};
    }
    assert s - rest == s;
  }

  // ---------------------------------------------------------------- decimal numerals

  predicate IsDigit(c: char) { '0' <= c <= '9' }

  predicate AllDigits(s: string) { |s| > 0 && forall i :: 0 <= i < |s| ==> IsDigit(s[i]) }

  function DigitChar(d: nat): (c: char)
    requires d < 10
    ensures IsDigit(c) && c as int - '0' as int == d
  {
    ('0' as int + d) as char
  }

  /** `str(n)` for a non-negative integer. */
  function Decimal(n: nat): (s: string)
    ensures AllDigits(s)
    ensures |s| > 1 ==> s[0] != '0'
    decreases n
  {
    if n < 10 then [DigitChar(n)] else Decimal(n / 10) + [DigitChar(n % 10)]
  }

  function SignedDecimal(n: int): string { if n < 0 then "-" + Decimal(-n) else Decimal(n) }

  /** `int(s)` for a string of digits. */
  function ParseDecimal(s: string): nat
    requires forall i :: 0 <= i < |s| ==> IsDigit(s[i])
  {
    if s == [] then 0 else
      assert IsDigit(s[|s| - 1]);
      10 * ParseDecimal(s[..|s| - 1]) + (s[|s| - 1] as int - '0' as int)
  }

  lemma {:induction false} DecimalRoundTrip(n: nat)
    ensures ParseDecimal(Decimal(n)) == n
    decreases n
  {
    if n >= 10 {
      DecimalRoundTrip(n / 10);
      assert Decimal(n)[..|Decimal(n)| - 1] == Decimal(n / 10);
    } else {
      var s := Decimal(n);
      assert s[..0] == [];
      assert ParseDecimal(s[..0]) == 0;
    }
  }

  /** The base is ten. */
  lemma TenIsTheBase()
    ensures Decimal(9) == "9" && Decimal(10) == "10" && ParseDecimal("10") == 10
  {
    DecimalRoundTrip(10);
  }

  lemma DecimalInjective(m: nat, n: nat)
    requires Decimal(m) == Decimal(n)
    ensures m == n
  {
    DecimalRoundTrip(m);
    DecimalRoundTrip(n);
  }

  /** Strings compare at their first difference, by code point; a proper prefix comes first. */
  ghost predicate Precedes(a: string, b: string) {
    (a <= b && a != b) || exists k :: 0 <= k < |a| && k < |b| && a[..k] == b[..k] && a[k] < b[k]
  }

  lemma PrecedesCons(c: char, a: string, b: string)
    ensures Precedes([c] + a, [c] + b) <==> Precedes(a, b)
  {
    var x, y := [c] + a, [c] + b;
    assert x[1..] == a && y[1..] == b;
    assert x <= y <==> a <= b;
    if k :| 0 <= k < |a| && k < |b| && a[..k] == b[..k] && a[k] < b[k] {
      assert x[..k + 1] == [c] + a[..k] == [c] + b[..k] == y[..k + 1] && x[k + 1] < y[k + 1];
    }
    if k :| 0 <= k < |x| && k < |y| && x[..k] == y[..k] && x[k] < y[k] {
      assert k > 0 && a[..k - 1] == x[..k][1..] == y[..k][1..] == b[..k - 1] && a[k - 1] < b[k - 1];
    }
  }

  lemma {:induction false} WhatStrLessMeans(a: string, b: string)
    ensures StrLess(a, b) <==> Precedes(a, b)
    decreases |a|
  {
    if a != "" && b != "" {
      if a[0] == b[0] {
        WhatStrLessMeans(a[1..], b[1..]);
        PrecedesCons(a[0], a[1..], b[1..]);
        assert a == [a[0]] + a[1..] && b == [b[0]] + b[1..];
      } else if a[0] < b[0] {
        assert a[..0] == b[..0];
      }
    }
  }

  // ---------------------------------------------------------------- trimming and searching

  /** The characters `str.strip()` removes. */
  predicate IsSpace(c: char) {
    '\t' <= c <= '\r' || '\U{1c}' <= c <= ' ' || c == '\U{85}' || c == '\U{a0}' || c == '\U{1680}'
    || '\U{2000}' <= c <= '\U{200a}' || c == '\U{2028}' || c == '\U{2029}' || c == '\U{202f}'
    || c == '\U{205f}' || c == '\U{3000}'
  }

  /** Neither end is a space. */
  predicate Trimmed(s: string) { s != "" ==> !IsSpace(s[0]) && !IsSpace(s[|s| - 1]) }

  function Strip(s: string): (r: string)
    ensures Trimmed(r)
    ensures Trimmed(s) ==> r == s
    ensures |r| <= |s|
    ensures forall c :: c in r ==> c in s
  {
    if s == "" then s
    else if IsSpace(s[0]) then Strip(s[1..])
    else if IsSpace(s[|s| - 1]) then Strip(s[..|s| - 1])
    else s
  }

  ghost predicate Around(s: string, before: string, r: string, after: string) {
    s == before + r + after && forall c :: c in before || c in after ==> IsSpace(c)
  }

  /** Stripping takes nothing but spaces, and only from the ends. */
  lemma {:induction false} StrippingTakesSpaces(s: string) returns (before: string, after: string)
    ensures Around(s, before, Strip(s), after)
  {
    if s == "" {
      before, after := "", "";
    } else if IsSpace(s[0]) {
      var b, a := StrippingTakesSpaces(s[1..]);
      before, after := [s[0]] + b, a;
      assert s == [s[0]] + s[1..] == before + Strip(s) + after;
    } else if IsSpace(s[|s| - 1]) {
      var b, a := StrippingTakesSpaces(s[..|s| - 1]);
      before, after := b, a + [s[|s| - 1]];
      assert s == s[..|s| - 1] + [s[|s| - 1]] == before + Strip(s) + after;
    } else {
      before, after := "", "";
    }
  }

  /** ASCII letters in lower case, everything else as it is. */
  function Lower(s: string): (r: string)
    ensures |r| == |s| && forall k :: 0 <= k < |s| ==> r[k] == LowerChar(s[k])
  {
    seq(|s|, i requires 0 <= i < |s| => LowerChar(s[i]))
  }

  const CAPITALS := "ABCDEFGHIJKLMNOPQRSTUVWXYZ"
  const SMALL := "abcdefghijklmnopqrstuvwxyz"

  lemma CapitalLetters(c: char)
    ensures 'A' <= c <= 'Z' <==> c in CAPITALS
  {
    if 'A' <= c <= 'Z' { assert CAPITALS[c as int - 'A' as int] == c; }
  }

  lemma SmallLetters(c: char)
    ensures 'a' <= c <= 'z' <==> c in SMALL
  {
    if 'a' <= c <= 'z' { assert SMALL[c as int - 'a' as int] == c; }
  }

  /** Capitals become the small letters in their places, and nothing else changes. */
  lemma LowerLetters(c: char)
    ensures forall i :: 0 <= i < 26 ==> LowerChar(CAPITALS[i]) == SMALL[i]
    ensures c !in CAPITALS ==> LowerChar(c) == c
  {
    CapitalLetters(c);
  }

  function LowerChar(c: char): char { if 'A' <= c <= 'Z' then (c as int + 32) as char else c }

  /** A text and the same with a newline at its end: what a pattern's `$` does not tell apart. */
  predicate SameLine(s: string, line: string) { s == line || s == line + "\n" }

  /** Without one trailing newline. */
  function Chomp(s: string): (r: string)
    ensures SameLine(s, r)
  {
    if |s| > 0 && s[|s| - 1] == '\n' then s[..|s| - 1] else s
  }

  /** A prefix that ends in no newline is one of the line. */
  lemma PrefixOfLine(p: string, s: string, line: string)
    requires SameLine(s, line) && p != "" && p[|p| - 1] != '\n'
    ensures p <= s <==> p <= line
  {
    if s != line && p <= s {
      assert p[|p| - 1] == s[|p| - 1];
      assert s[|line|] == '\n';
    }
  }

  /** The index of the first `c`, or the length when there is none. */
  function Position(s: string, c: char): (i: nat)
    ensures i <= |s| && (forall k :: 0 <= k < i ==> s[k] != c) && (i < |s| ==> s[i] == c)
  {
    if s == [] || s[0] == c then 0 else 1 + Position(s[1..], c)
  }

  /** The index just after the last `c`, or 0 when there is none. */
  function AfterLast(s: string, c: char): (i: nat)
    ensures i <= |s| && (forall k :: i <= k < |s| ==> s[k] != c) && (i > 0 ==> s[i - 1] == c)
  {
    if s == [] then 0 else if s[|s| - 1] == c then |s| else AfterLast(s[..|s| - 1], c)
  }
}
