/** Names of twin databases and namespaces: the printers, and the parser garbage collection relies on. */
module Naming {
  import opened Text

  // ---------------------------------------------------------------- databases

  /** `replace("-", "_")`. */
  function Underscored(s: string): (r: string)
    ensures |r| == |s| && forall k :: 0 <= k < |s| ==> r[k] == if s[k] == '-' then '_' else s[k]
  {
    if s == "" then "" else [if s[0] == '-' then '_' else s[0]] + Underscored(s[1..])
  }

  function Norm(incident: string): string { Strip(Underscored(incident)) }

  function NumberedName(clean: string, digits: string): string { "twin_" + clean + "_" + digits }

  function TwinName(clean: string, index: nat): string { NumberedName(clean, Decimal(index)) }

  /** None stands for the FleetError on an empty incident or a negative index. */
  function DatabaseName(incident: string, index: int): Option<string> {
    if Norm(incident) == "" || index < 0 then None else Some(TwinName(Norm(incident), index))
  }

  /** `^twin_(.+)_\d+$`: the greedy group runs to the last underscore, after which only digits may stand. */
  function ParseTwin(name: string): Option<string> { ParseLine(Chomp(name)) }

  function ParseLine(line: string): Option<string> {
    if !("twin_" <= line) then None else
    var rest := line[5..];
    var k := AfterLast(rest, '_');
    if k >= 2 && AllDigits(rest[k..]) && '\n' !in rest[..k - 1] then Some(rest[..k - 1]) else None
  }

  /** What the pattern says; its `$` also accepts one trailing newline. */
  ghost predicate Matches(name: string, group: string, digits: string) {
    SameLine(name, NumberedName(group, digits)) && group != "" && '\n' !in group && AllDigits(digits)
  }

  lemma {:induction false} AfterLastOne(a: string, d: string, c: char)
    requires c !in d
    ensures AfterLast(a + [c] + d, c) == |a| + 1
    decreases |d|
  {
    var s := a + [c] + d;
    if d == [] {
      assert s[|s| - 1] == c;
    } else {
      var d' := d[..|d| - 1];
      assert s[|s| - 1] == d[|d| - 1] && s[..|s| - 1] == a + [c] + d';
      AfterLastOne(a, d', c);
    }
  }

  /** The parser finds exactly the pattern's matches, so a name has at most one group. */
  lemma ParseIsTheMatch(name: string, group: string)
    ensures ParseTwin(name) == Some(group) <==> exists digits :: Matches(name, group, digits)
  {
    var line := Chomp(name);
    if ParseLine(line) == Some(group) {
      var rest := line[5..];
      var k := AfterLast(rest, '_');
      assert line == "twin_" + rest && rest == group + "_" + rest[k..];
      assert Matches(name, group, rest[k..]);
    }
    forall digits | Matches(name, group, digits) ensures ParseTwin(name) == Some(group) {
      MatchParses(name, group, digits);
    }
  }

  lemma MatchParses(name: string, group: string, digits: string)
    requires Matches(name, group, digits)
    ensures ParseTwin(name) == Some(group)
  {
    var rest, line := group + "_" + digits, NumberedName(group, digits);
    assert line == "twin_" + rest;
    assert IsDigit(line[|line| - 1]) by { assert line[|line| - 1] == digits[|digits| - 1]; }
    assert Chomp(name) == line;
    assert line[5..] == rest && "twin_" <= line;
    assert rest[..|group|] == group && rest[|group| + 1..] == digits;
    AfterLastOne(group, digits, '_');
  }

  /** Reading back what the printer wrote gives the incident it was written for. */
  lemma PrinterParses(clean: string, index: nat)
    requires clean != "" && '\n' !in clean
    ensures ParseTwin(TwinName(clean, index)) == Some(clean)
  {
    assert Matches(TwinName(clean, index), clean, Decimal(index));
    ParseIsTheMatch(TwinName(clean, index), clean);
  }

  /** Different normal forms or candidates never print the same name. */
  lemma TwinNameInjective(a: string, i: nat, b: string, j: nat)
    requires TwinName(a, i) == TwinName(b, j)
    ensures a == b && i == j
  {
    SplitName(a, Decimal(i));
    SplitName(b, Decimal(j));
    DecimalInjective(i, j);
  }

  lemma SplitName(clean: string, digits: string)
    requires AllDigits(digits)
    ensures var rest := NumberedName(clean, digits)[5..];
            AfterLast(rest, '_') == |clean| + 1 && rest[..|clean|] == clean && rest[|clean| + 1..] == digits
  {
    var rest := clean + "_" + digits;
    assert NumberedName(clean, digits) == "twin_" + rest;
    assert NumberedName(clean, digits)[5..] == rest;
    AfterLastOne(clean, digits, '_');
  }

  /** The prefix `twin_r_` that incident `r` is cleaned up by. */
  function CleanupPrefix(r: string): string { "twin_" + r + "_" }

  /** It takes in the twins of `r` itself and of every incident whose name extends `r_`; no others. */
  lemma PrefixTakes(r: string, a: string, digits: string)
    requires AllDigits(digits)
    ensures CleanupPrefix(r) <= NumberedName(a, digits) <==> r == a || r + "_" <= a
  {
    if CleanupPrefix(r) <= NumberedName(a, digits) { TakenMeans(r, a, digits); }
    if r == a || r + "_" <= a { MeantIsTaken(r, a, digits); }
  }

  lemma TakenMeans(r: string, a: string, digits: string)
    requires AllDigits(digits) && CleanupPrefix(r) <= NumberedName(a, digits)
    ensures r == a || r + "_" <= a
  {
    var x, y := a + "_" + digits, r + "_";
    assert NumberedName(a, digits)[5..] == x && CleanupPrefix(r)[5..] == y;
    assert forall k :: 0 <= k < |y| ==> y[k] == CleanupPrefix(r)[5 + k] == NumberedName(a, digits)[5 + k] == x[k];
    assert forall k :: |a| < k < |x| ==> x[k] == digits[k - |a| - 1];
    assert x[|r|] == '_';
    assert r == x[..|r|] && a == x[..|a|];
  }

  lemma MeantIsTaken(r: string, a: string, digits: string)
    requires r == a || r + "_" <= a
    ensures CleanupPrefix(r) <= NumberedName(a, digits)
  {
    if r != a { assert a == r + "_" + a[|r| + 1..]; }
    var rest := if r == a then digits else a[|r| + 1..] + "_" + digits;
    assert NumberedName(a, digits) == CleanupPrefix(r) + rest;
  }

  // ---------------------------------------------------------------- names as PostgreSQL stores them

  const NAME_LIMIT := 63

  /** Unquoted identifiers are folded to lower case and cut to 63 bytes: characters, as only ASCII names get through. */
  function Stored(name: string): string { Cut(Lower(name)) }

  function Cut(name: string): (r: string)
    ensures |r| <= NAME_LIMIT
  {
    if |name| <= NAME_LIMIT then name else name[..NAME_LIMIT]
  }

  lemma StoredIsStable(name: string)
    ensures Stored(Stored(name)) == Stored(name)
  {
    var r := Stored(name);
    forall k | 0 <= k < |r| ensures LowerChar(r[k]) == r[k] { assert r[k] == LowerChar(name[k]); }
    assert Lower(r) == r;
  }

  /** The digits of a name that storing it leaves. */
  function KeptDigits(length: nat, digits: string): (r: string)
    requires length <= NAME_LIMIT - 7 && AllDigits(digits)
    ensures AllDigits(r)
  {
    if |digits| <= NAME_LIMIT - 6 - length then digits else digits[..NAME_LIMIT - 6 - length]
  }

  lemma FoldConcat(a: string, b: string)
    ensures Lower(a + b) == Lower(a) + Lower(b)
  {}

  lemma FoldDigits(s: string)
    requires AllDigits(s)
    ensures Lower(s) == s
  {
    forall k | 0 <= k < |s| ensures Lower(s)[k] == s[k] { assert IsDigit(s[k]); }
  }

  lemma FoldedName(clean: string, digits: string)
    requires AllDigits(digits)
    ensures Lower(NumberedName(clean, digits)) == NumberedName(Lower(clean), digits)
  {
    FoldConcat("twin_" + clean + "_", digits);
    FoldConcat("twin_" + clean, "_");
    FoldConcat("twin_", clean);
    FoldDigits(digits);
    assert Lower("twin_") == "twin_" && Lower("_") == "_";
  }

  lemma NameLength(clean: string, digits: string)
    ensures |NumberedName(clean, digits)| == 6 + |clean| + |digits|
  {}

  lemma CutConcat(front: string, digits: string)
    requires |front| < NAME_LIMIT
    ensures Cut(front + digits)
         == front + (if |digits| <= NAME_LIMIT - |front| then digits else digits[..NAME_LIMIT - |front|])
  {}

  lemma CutName(clean: string, digits: string)
    requires |clean| <= NAME_LIMIT - 7 && AllDigits(digits)
    ensures Cut(NumberedName(clean, digits)) == NumberedName(clean, KeptDigits(|clean|, digits))
  {
    CutConcat("twin_" + clean + "_", digits);
  }

  lemma StoredName(clean: string, digits: string)
    requires |clean| <= NAME_LIMIT - 7 && AllDigits(digits)
    ensures Stored(NumberedName(clean, digits)) == NumberedName(Lower(clean), KeptDigits(|clean|, digits))
  {
    FoldedName(clean, digits);
    CutName(Lower(clean), digits);
  }

  lemma SameMiddle(a: string, d: string, b: string, e: string)
    requires |a| == |b| && NumberedName(a, d) == NumberedName(b, e)
    ensures a == b
  {
    MiddleOfName(a, d);
    MiddleOfName(b, e);
  }

  lemma MiddleOfName(clean: string, digits: string)
    ensures |NumberedName(clean, digits)| == 6 + |clean| + |digits|
    ensures NumberedName(clean, digits)[5..5 + |clean|] == clean
  {}

  lemma StoredIsOneLine(name: string)
    requires '\n' !in name
    ensures '\n' !in Stored(name)
  {
    forall k | 0 <= k < |Stored(name)| ensures Stored(name)[k] != '\n' {
      assert Stored(name)[k] == LowerChar(name[k]) && name[k] in name;
    }
  }

  lemma NameIsOneLine(clean: string, digits: string)
    requires '\n' !in clean && AllDigits(digits)
    ensures '\n' !in NumberedName(clean, digits)
  {
    forall k | 0 <= k < |digits| ensures digits[k] != '\n' { assert IsDigit(digits[k]); }
  }

  /** A stored twin is recognised as its incident's exactly for normal forms without capitals up to 56 characters. */
  lemma StoredTwinIsRecognised(clean: string, digits: string)
    requires clean != "" && '\n' !in clean && AllDigits(digits)
    ensures ParseTwin(Stored(NumberedName(clean, digits))) == Some(clean) <==>
            Lower(clean) == clean && |clean| <= NAME_LIMIT - 7
  {
    var stored := Stored(NumberedName(clean, digits));
    if Lower(clean) == clean && |clean| <= NAME_LIMIT - 7 {
      StoredName(clean, digits);
      MatchParses(stored, clean, KeptDigits(|clean|, digits));
    }
    if ParseTwin(stored) == Some(clean) {
      ParseIsTheMatch(stored, clean);
      var kept :| Matches(stored, clean, kept);
      NameIsOneLine(clean, digits);
      StoredIsOneLine(NumberedName(clean, digits));
      assert stored == NumberedName(clean, kept) by {
        var longer := NumberedName(clean, kept) + "\n";
        assert longer[|longer| - 1] == '\n';
      }
      RecognisedIsSmall(clean, digits, kept);
    }
  }

  lemma RecognisedIsSmall(clean: string, digits: string, kept: string)
    requires AllDigits(digits) && AllDigits(kept) && Stored(NumberedName(clean, digits)) == NumberedName(clean, kept)
    ensures Lower(clean) == clean && |clean| <= NAME_LIMIT - 7
  {
    NameLength(clean, kept);
    StoredName(clean, digits);
    SameMiddle(clean, kept, Lower(clean), KeptDigits(|clean|, digits));
  }

  // ---------------------------------------------------------------- namespaces

  predicate IsAlnum(c: char) { 'a' <= c <= 'z' || '0' <= c <= '9' }

  predicate IsLabelChar(c: char) { IsAlnum(c) || c == '-' }

  /** A label of section 2.1 of RFC 1123. */
  predicate IsLabel(s: string) {
    1 <= |s| <= 63 && IsAlnum(s[0]) && IsAlnum(s[|s| - 1]) && forall k :: 0 <= k < |s| ==> IsLabelChar(s[k])
  }

  /** `str.lower()` is known on ASCII; what it does beyond is left open. */
  ghost predicate LowersAscii(lower: char -> string) {
    forall c: char :: c < '\U{80}' ==> lower(c) == [LowerChar(c)]
  }

  lemma SomeLowering()
    ensures exists lower: char -> string :: LowersAscii(lower)
  {
    assert LowersAscii(c => [LowerChar(c)]);
  }

  function Lowered(lower: char -> string, s: string): string {
    if s == "" then "" else lower(s[0]) + Lowered(lower, s[1..])
  }

  /** Underscores and every other character a label cannot hold become hyphens. */
  function Hyphened(s: string): (r: string)
    ensures |r| == |s| && forall k :: 0 <= k < |s| ==> r[k] == if IsLabelChar(s[k]) then s[k] else '-'
  {
    if s == "" then "" else [if IsLabelChar(s[0]) then s[0] else '-'] + Hyphened(s[1..])
  }

  predicate NoRuns(s: string) { forall k :: 0 < k < |s| ==> s[k - 1] != '-' || s[k] != '-' }

  function Collapsed(s: string): (r: string)
    ensures NoRuns(r) && (NoRuns(s) ==> r == s)
    ensures (s == "" <==> r == "") && (s != "" ==> r[0] == s[0])
    ensures forall c :: c in r ==> c in s
  {
    if |s| < 2 then s
    else if s[0] == '-' && s[1] == '-' then Collapsed(s[1..])
    else [s[0]] + Collapsed(s[1..])
  }

  /** `strip("-")`. */
  function Unhyphened(s: string): (r: string)
    ensures r != "" ==> r[0] != '-' && r[|r| - 1] != '-'
    ensures (s != "" ==> s[0] != '-' && s[|s| - 1] != '-') ==> r == s
    ensures NoRuns(s) ==> NoRuns(r)
    ensures forall c :: c in r ==> c in s
    ensures s != "" && s[0] != '-' ==> r != "" && r <= s
  {
    if s == "" then s
    else if s[0] == '-' then Unhyphened(s[1..])
    else if s[|s| - 1] == '-' then Unhyphened(s[..|s| - 1])
    else s
  }

  function SanitizeLabel(lower: char -> string, value: string): string {
    Unhyphened(Collapsed(Hyphened(Lowered(lower, Strip(value)))))
  }

  /** Empty, or made of label characters with single hyphens inside only. */
  predicate Clean(s: string) {
    && (forall k :: 0 <= k < |s| ==> IsLabelChar(s[k]))
    && NoRuns(s) && (s != "" ==> s[0] != '-' && s[|s| - 1] != '-')
  }

  lemma {:induction false} LoweredLabel(lower: char -> string, s: string)
    requires LowersAscii(lower) && forall k :: 0 <= k < |s| ==> IsLabelChar(s[k])
    ensures Lowered(lower, s) == s
  {
    if s != "" {
      assert lower(s[0]) == [s[0]];
      LoweredLabel(lower, s[1..]);
      assert s == [s[0]] + s[1..];
    }
  }

  lemma SanitizeCleans(lower: char -> string, value: string)
    ensures Clean(SanitizeLabel(lower, value))
  {
    var h := Hyphened(Lowered(lower, Strip(value)));
    var r := SanitizeLabel(lower, value);
    forall k | 0 <= k < |r| ensures IsLabelChar(r[k]) {
      assert r[k] in r && r[k] in h;
    }
  }

  lemma CleanIsFixed(lower: char -> string, s: string)
    requires LowersAscii(lower) && Clean(s)
    ensures SanitizeLabel(lower, s) == s
  {
    LoweredLabel(lower, s);
    HyphenedLabel(s);
    assert Strip(s) == s by { assert s != "" ==> !IsSpace(s[0]) && !IsSpace(s[|s| - 1]); }
  }

  lemma HyphenedLabel(s: string)
    requires forall k :: 0 <= k < |s| ==> IsLabelChar(s[k])
    ensures Hyphened(s) == s
  {}

  /** Sanitising projects onto the clean strings: it fixes them, and nothing else. */
  lemma SanitizeFixesTheClean(lower: char -> string, s: string)
    requires LowersAscii(lower)
    ensures SanitizeLabel(lower, s) == s <==> Clean(s)
  {
    SanitizeCleans(lower, s);
    if Clean(s) { CleanIsFixed(lower, s); }
  }

  lemma SanitizeIdempotent(lower: char -> string, value: string)
    requires LowersAscii(lower)
    ensures SanitizeLabel(lower, SanitizeLabel(lower, value)) == SanitizeLabel(lower, value)
  {
    SanitizeCleans(lower, value);
    CleanIsFixed(lower, SanitizeLabel(lower, value));
  }

  /** The letters and digits of a string, in order. */
  function Alnums(s: string): string {
    if s == "" then "" else (if IsAlnum(s[0]) then [s[0]] else "") + Alnums(s[1..])
  }

  lemma {:induction false} AlnumsSnoc(s: string, c: char)
    ensures Alnums(s + [c]) == Alnums(s) + (if IsAlnum(c) then [c] else "")
  {
    if s == "" {
      assert (s + [c])[1..] == "";
    } else {
      assert (s + [c])[1..] == s[1..] + [c];
      assert (s + [c])[0] == s[0];
      AlnumsSnoc(s[1..], c);
      Regroup(if IsAlnum(s[0]) then [s[0]] else "", Alnums(s[1..]), if IsAlnum(c) then [c] else "");
    }
  }

  lemma {:induction false} AlnumsOfHyphened(s: string)
    ensures Alnums(Hyphened(s)) == Alnums(s)
  {
    if s != "" {
      AlnumsOfHyphened(s[1..]);
      assert Hyphened(s)[1..] == Hyphened(s[1..]);
    }
  }

  lemma {:induction false} AlnumsOfCollapsed(s: string)
    ensures Alnums(Collapsed(s)) == Alnums(s)
  {
    if |s| >= 2 {
      AlnumsOfCollapsed(s[1..]);
      if s[0] != '-' || s[1] != '-' { assert Collapsed(s)[1..] == Collapsed(s[1..]); }
    }
  }

  lemma AlnumsOfFront(s: string)
    requires s != "" && s[|s| - 1] == '-'
    ensures Alnums(s[..|s| - 1]) == Alnums(s)
  {
    AlnumsSnoc(s[..|s| - 1], '-');
    assert s == s[..|s| - 1] + ['-'];
  }

  lemma {:induction false} AlnumsOfUnhyphened(s: string)
    ensures Alnums(Unhyphened(s)) == Alnums(s)
    decreases |s|
  {
    if s != "" && s[0] == '-' {
      AlnumsOfUnhyphened(s[1..]);
    } else if s != "" && s[|s| - 1] == '-' {
      AlnumsOfUnhyphened(s[..|s| - 1]);
      AlnumsOfFront(s);
    }
  }

  /** Sanitising changes separators only: every letter and digit of the lowered text is kept, in order. */
  lemma SanitizeKeepsLettersAndDigits(lower: char -> string, value: string)
    ensures Alnums(SanitizeLabel(lower, value)) == Alnums(Lowered(lower, Strip(value)))
  {
    var low := Lowered(lower, Strip(value));
    AlnumsOfHyphened(low);
    AlnumsOfCollapsed(Hyphened(low));
    AlnumsOfUnhyphened(Collapsed(Hyphened(low)));
  }

  lemma {:induction false} StripUnderscored(s: string)
    ensures Strip(Underscored(s)) == Underscored(Strip(s))
    decreases |s|
  {
    var u := Underscored(s);
    if s != "" {
      assert IsSpace(u[0]) == IsSpace(s[0]) && IsSpace(u[|s| - 1]) == IsSpace(s[|s| - 1]);
      if IsSpace(s[0]) {
        assert u[1..] == Underscored(s[1..]);
        StripUnderscored(s[1..]);
      } else if IsSpace(s[|s| - 1]) {
        assert u[..|s| - 1] == Underscored(s[..|s| - 1]);
        StripUnderscored(s[..|s| - 1]);
      }
    }
  }

  lemma HyphenedConcat(a: string, b: string)
    ensures Hyphened(a + b) == Hyphened(a) + Hyphened(b)
  {}

  lemma {:induction false} HyphenedUnderscored(lower: char -> string, s: string)
    requires LowersAscii(lower)
    ensures Hyphened(Lowered(lower, Underscored(s))) == Hyphened(Lowered(lower, s))
  {
    if s != "" {
      var u := Underscored(s);
      assert u[1..] == Underscored(s[1..]);
      HyphenedUnderscored(lower, s[1..]);
      HyphenedConcat(lower(u[0]), Lowered(lower, u[1..]));
      HyphenedConcat(lower(s[0]), Lowered(lower, s[1..]));
      if s[0] == '-' { assert lower('-') == "-" && lower('_') == "_" && Hyphened("_") == Hyphened("-"); }
    }
  }

  lemma SanitizeUnderscored(lower: char -> string, s: string)
    requires LowersAscii(lower)
    ensures SanitizeLabel(lower, Underscored(s)) == SanitizeLabel(lower, s)
  {
    StripUnderscored(s);
    HyphenedUnderscored(lower, Strip(s));
  }

  datatype NameError = EmptyIncident | NegativeIndex | EmptyPrefix | UnusableIncident | NoRoom
  datatype Named = Name(name: string) | Bad(error: NameError)

  function Fitted(incident: string, budget: nat): string {
    if |incident| > budget then Unhyphened(incident[..budget]) else incident
  }

  function Assembled(p: string, incident: string, index: nat): Named {
    var budget := 63 - |p| - 1 - |"-" + Decimal(index)|;
    if budget < 1 then Bad(NoRoom) else Name(p + "-" + Fitted(incident, budget) + "-" + Decimal(index))
  }

  function TwinNamespace(lower: char -> string, prefix: string, incident: string, index: int): Named {
    if Strip(incident) == "" then Bad(EmptyIncident)
    else if index < 0 then Bad(NegativeIndex)
    else
      var p, i := SanitizeLabel(lower, prefix), SanitizeLabel(lower, incident);
      if p == "" then Bad(EmptyPrefix) else if i == "" then Bad(UnusableIncident) else Assembled(p, i, index)
  }

  lemma FittedIsUsable(incident: string, budget: nat)
    requires Clean(incident) && incident != "" && budget >= 1
    ensures var f := Fitted(incident, budget); f != "" && |f| <= budget && f <= incident && Clean(f)
  {
    if |incident| > budget {
      var cut := incident[..budget];
      var f := Unhyphened(cut);
      forall k | 0 <= k < |f| ensures IsLabelChar(f[k]) { assert f[k] in f && f[k] in cut; }
    }
  }

  /** Whenever a namespace name comes back it is a valid label, cut incident or not. */
  lemma TwinNamespaceIsLabel(lower: char -> string, prefix: string, incident: string, index: int)
    ensures var n := TwinNamespace(lower, prefix, incident, index); n.Name? ==> IsLabel(n.name)
  {
    var p, i := SanitizeLabel(lower, prefix), SanitizeLabel(lower, incident);
    SanitizeCleans(lower, prefix);
    SanitizeCleans(lower, incident);
    if p != "" && i != "" && index >= 0 { AssembledIsLabel(p, i, index); }
  }

  lemma AssembledIsLabel(p: string, i: string, index: nat)
    requires Clean(p) && Clean(i) && p != "" && i != ""
    ensures Assembled(p, i, index).Name? ==> IsLabel(Assembled(p, i, index).name)
  {
    var budget := 63 - |p| - 1 - |"-" + Decimal(index)|;
    if budget >= 1 {
      FittedIsUsable(i, budget);
      LabelOfParts(p, Fitted(i, budget), Decimal(index));
    }
  }

  lemma LabelOfParts(p: string, f: string, d: string)
    requires Clean(p) && Clean(f) && AllDigits(d) && p != "" && f != "" && |p| + 1 + |f| + 1 + |d| <= 63
    ensures IsLabel(p + "-" + f + "-" + d)
  {
    var s := p + "-" + f + "-" + d;
    assert s[0] == p[0] && s[|s| - 1] == d[|d| - 1];
    assert forall k :: 0 <= k < |d| ==> IsAlnum(d[k]);
  }

  /** As much of the incident as fits, less the hyphens a cut leaves at its end. */
  ghost predicate Fits(incident: string, budget: int, f: string) {
    if |incident| <= budget then f == incident
    else
      && 0 <= |f| <= budget && f == incident[..|f|] && (f != "" ==> f[|f| - 1] != '-')
      && forall k :: |f| <= k < budget ==> incident[k] == '-'
  }

  lemma {:induction false} UnhyphenedCut(s: string)
    requires s == "" || s[0] != '-'
    ensures var r := Unhyphened(s);
            |r| <= |s| && r == s[..|r|] && (r != "" ==> r[|r| - 1] != '-') && forall k :: |r| <= k < |s| ==> s[k] == '-'
    decreases |s|
  {
    if s != "" && s[|s| - 1] == '-' { UnhyphenedCut(s[..|s| - 1]); }
  }

  lemma FittedFits(incident: string, budget: nat)
    requires incident != "" && incident[0] != '-'
    ensures Fits(incident, budget, Fitted(incident, budget))
  {
    if budget < |incident| {
      UnhyphenedCut(incident[..budget]);
      var f := Fitted(incident, budget);
      assert incident[..|f|] == incident[..budget][..|f|];
      forall k | |f| <= k < budget ensures incident[k] == '-' { assert incident[..budget][k] == '-'; }
    }
  }

  /** The prefix, what fits of the incident and the index, when there is room for one character of it. */
  lemma WhatIsAssembled(p: string, i: string, index: nat)
    requires i != "" && i[0] != '-'
    ensures var room := 61 - |p| - |Decimal(index)|;
            match Assembled(p, i, index)
            case Name(name) => room >= 1 && exists f :: Fits(i, room, f) && name == p + "-" + f + "-" + Decimal(index)
            case Bad(error) => room < 1 && error == NoRoom
  {
    var room := 61 - |p| - |Decimal(index)|;
    assert |"-" + Decimal(index)| == 1 + |Decimal(index)|;
    if room >= 1 { FittedFits(i, room); }
  }

  /** What is refused, and for what; anything else is assembled from its sanitised parts. */
  lemma WhatATwinNamespaceIs(lower: char -> string, prefix: string, incident: string, index: int)
    ensures var p, i, n := SanitizeLabel(lower, prefix), SanitizeLabel(lower, incident),
                           TwinNamespace(lower, prefix, incident, index);
            if Strip(incident) == "" then n == Bad(EmptyIncident)
            else if index < 0 then n == Bad(NegativeIndex)
            else if p == "" then n == Bad(EmptyPrefix)
            else if i == "" then n == Bad(UnusableIncident)
            else i[0] != '-' && n == Assembled(p, i, index)
  {
    SanitizeCleans(lower, incident);
  }

  /** A database is named after the incident's normal form and the candidate, unless either is missing. */
  lemma WhatADatabaseNameIs(incident: string, index: int)
    ensures DatabaseName(incident, index) == None <==> Norm(incident) == "" || index < 0
    ensures DatabaseName(incident, index).Some? ==>
              DatabaseName(incident, index).value == "twin_" + Norm(incident) + "_" + Decimal(index)
  {}

  /** One incident's candidates never share a namespace, even when its name is cut to different lengths. */
  lemma CandidatesGetDistinctNamespaces(lower: char -> string, prefix: string, incident: string, i: int, j: int)
    requires TwinNamespace(lower, prefix, incident, i).Name?
    requires TwinNamespace(lower, prefix, incident, i) == TwinNamespace(lower, prefix, incident, j)
    ensures i == j
  {
    AssembledTellsTheIndex(SanitizeLabel(lower, prefix), SanitizeLabel(lower, incident), i, j);
  }

  lemma AssembledTellsTheIndex(p: string, incident: string, i: nat, j: nat)
    requires Assembled(p, incident, i).Name? && Assembled(p, incident, i) == Assembled(p, incident, j)
    ensures i == j
  {
    var a := p + "-" + Fitted(incident, 63 - |p| - 1 - |"-" + Decimal(i)|);
    var b := p + "-" + Fitted(incident, 63 - |p| - 1 - |"-" + Decimal(j)|);
    var x := Assembled(p, incident, i).name;
    assert x == a + "-" + Decimal(i) && x == b + "-" + Decimal(j);
    AfterLastOne(a, Decimal(i), '-');
    AfterLastOne(b, Decimal(j), '-');
    assert x[|a| + 1..] == Decimal(i) && x[|b| + 1..] == Decimal(j);
    DecimalInjective(i, j);
  }

  /** Incidents that differ only in hyphens and underscores share their namespaces, as they share their databases. */
  lemma SeparatorsShareANamespace(lower: char -> string, prefix: string, a: string, b: string, index: int)
    requires LowersAscii(lower) && Underscored(a) == Underscored(b)
    ensures TwinNamespace(lower, prefix, a, index) == TwinNamespace(lower, prefix, b, index)
    ensures DatabaseName(a, index) == DatabaseName(b, index)
  {
    SanitizeUnderscored(lower, a);
    SanitizeUnderscored(lower, b);
    StripUnderscored(a);
    StripUnderscored(b);
    assert Strip(a) == "" <==> Underscored(Strip(a)) == "";
    assert Strip(b) == "" <==> Underscored(Strip(b)) == "";
  }
}
