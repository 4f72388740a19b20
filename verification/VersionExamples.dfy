/** The concrete cases of the extension's version comparator tests, and a pair of
    qualifiers that differ only in case. Each string is parsed by a lemma of its own. */
module VersionExamples {
  import opened Text
  import opened Versions
  import Sorting

  lemma LiteralTen()
    ensures NatToString(10) == "10"
  {
    assert NatToString(1) == "1";
  }

  lemma ParseOne()
    ensures Parse("1") == ParsedVersion(1, 0, 0, "")
  {
    assert NatToString(1) == "1";
    ParseMajor(1);
  }

  lemma ParseOneZero()
    ensures Parse("1.0") == ParsedVersion(1, 0, 0, "")
  {
    assert NatToString(1) + (['.'] + NatToString(0)) == "1.0";
    ParseMajorMinor(1, 0);
  }

  lemma ParseOneZeroZero()
    ensures Parse("1.0.0") == ParsedVersion(1, 0, 0, "")
  {
    assert NatToString(1) + (['.'] + (NatToString(0) + (['.'] + NatToString(0)))) == "1.0.0";
    ParseMajorMinorMicro(1, 0, 0);
  }

  lemma NoDash(q: string)
    requires '-' !in q
    ensures ReplaceFirst(q, '-', ".") == q
  {
  }

  lemma ParseQualified(a: nat, b: nat, c: nat, q: string, text: string)
    requires '-' !in q && NumbersThen(a, b, c, '.', q) == text
    ensures Parse(text) == ParsedVersion(a, b, c, q)
  {
    ParseNumbersThenQualifier(a, b, c, '.', q);
  }

  lemma ParseOneAlpha1()
    ensures Parse("1.0.0.ALPHA1") == ParsedVersion(1, 0, 0, "ALPHA1")
  {
    assert '-' !in "ALPHA1";
    ParseQualified(1, 0, 0, "ALPHA1", "1.0.0.ALPHA1");
  }

  lemma ParseOneAlpha2()
    ensures Parse("1.0.ALPHA2") == ParsedVersion(1, 0, 0, "ALPHA2")
  {
    assert NatToString(1) + (['.'] + (NatToString(0) + (['.'] + "ALPHA2"))) == "1.0.ALPHA2";
    assert !IsAsciiDigit("ALPHA2"[0]);
    assert '.' !in "ALPHA2" && '-' !in "ALPHA2";
    ParseMinorThenQualifier(1, 0, '.', "ALPHA2");
  }

  lemma ParseOneBeta1()
    ensures Parse("1-BETA1") == ParsedVersion(1, 0, 0, "BETA1")
  {
    assert NatToString(1) + (['-'] + "BETA1") == "1-BETA1";
    assert !IsAsciiDigit("BETA1"[0]);
    assert '.' !in "BETA1" && '-' !in "BETA1";
    ParseMajorThenQualifier(1, '-', "BETA1");
  }

  lemma ParseOneRc1()
    ensures Parse("1.0-rc.1") == ParsedVersion(1, 0, 0, "rc.1")
  {
    assert NatToString(1) + (['.'] + (NatToString(0) + (['-'] + "rc.1"))) == "1.0-rc.1";
    assert FirstSegment("rc.1") == "rc";
    assert !IsAsciiDigit("rc"[0]);
    ParseMinorThenQualifier(1, 0, '-', "rc.1");
  }

  lemma ParseOneTrailingDot()
    ensures Parse("1.a.") == ParsedVersion(1, 0, 0, "a")
  {
    assert NatToString(1) + (['.'] + "a.") == "1.a.";
    assert FirstSegment("a.") == "a";
    assert !IsAsciiDigit("a"[0]);
    ParseMajorThenQualifier(1, '.', "a.");
  }

  lemma ParseSix()
    ensures Parse("6.0.0") == ParsedVersion(6, 0, 0, "")
  {
    assert NatToString(6) + (['.'] + (NatToString(0) + (['.'] + NatToString(0)))) == "6.0.0";
    ParseMajorMinorMicro(6, 0, 0);
  }

  lemma ParseSixAlpha1()
    ensures Parse("6.0.0.ALPHA1") == ParsedVersion(6, 0, 0, "ALPHA1")
  {
    assert '-' !in "ALPHA1";
    ParseQualified(6, 0, 0, "ALPHA1", "6.0.0.ALPHA1");
  }

  lemma ParseSixAlpha2()
    ensures Parse("6.0.0.ALPHA2") == ParsedVersion(6, 0, 0, "ALPHA2")
  {
    assert '-' !in "ALPHA2";
    ParseQualified(6, 0, 0, "ALPHA2", "6.0.0.ALPHA2");
  }

  lemma ParseSixOneOneAlpha1()
    ensures Parse("6.1.1.ALPHA1") == ParsedVersion(6, 1, 1, "ALPHA1")
  {
    assert '-' !in "ALPHA1";
    ParseQualified(6, 1, 1, "ALPHA1", "6.1.1.ALPHA1");
  }

  lemma ParseSixRc1()
    ensures Parse("6.0.0.RC1") == ParsedVersion(6, 0, 0, "RC1")
  {
    assert '-' !in "RC1";
    ParseQualified(6, 0, 0, "RC1", "6.0.0.RC1");
  }

  lemma ParseFourTen()
    ensures Parse("4.10.0") == ParsedVersion(4, 10, 0, "")
  {
    LiteralTen();
    assert NatToString(4) + (['.'] + (NatToString(10) + (['.'] + NatToString(0)))) == "4.10.0";
    ParseMajorMinorMicro(4, 10, 0);
  }

  lemma ParseFourTenRc1()
    ensures Parse("4.10.0-RC1") == ParsedVersion(4, 10, 0, "RC1")
  {
    LiteralTen();
    assert NumbersThen(4, 10, 0, '-', "RC1") == "4.10.0-RC1";
    ParseNumbersThenQualifier(4, 10, 0, '-', "RC1");
  }

  lemma ParseFourTenDashAlpha()
    ensures Parse("4.10.0-alpha-1") == ParsedVersion(4, 10, 0, "alpha-1")
  {
    LiteralTen();
    assert NumbersThen(4, 10, 0, '-', "alpha-1") == "4.10.0-alpha-1";
    ParseNumbersThenQualifier(4, 10, 0, '-', "alpha-1");
  }

  lemma ReplaceAlpha()
    ensures ReplaceFirst("alpha-1", '-', ".") == "alpha.1"
  {
    assert FindChar("alpha-1", '-') == 5;
  }

  lemma ParseFourTenDotAlpha()
    ensures Parse("4.10.0.alpha-1") == ParsedVersion(4, 10, 0, "alpha.1")
  {
    LiteralTen();
    assert NumbersThen(4, 10, 0, '.', "alpha-1") == "4.10.0.alpha-1";
    ParseNumbersThenQualifier(4, 10, 0, '.', "alpha-1");
    ReplaceAlpha();
  }

  /** `1`, `1.0` and `1.0.0` are the same version; so are two empty strings. */
  lemma EqualityCases(empty: string, one: string, oneZero: string, oneZeroZero: string)
    requires empty == "" && one == "1" && oneZero == "1.0" && oneZeroZero == "1.0.0"
    ensures CompareVersions(empty, empty) == 0
    ensures CompareVersions(one, one) == 0
    ensures CompareVersions(oneZero, one) == 0
    ensures CompareVersions(oneZero, oneZeroZero) == 0
  {
    ParseOne();
    ParseOneZero();
    ParseOneZeroZero();
  }

  lemma LowerAlpha(alpha1: string, alpha2: string, beta1: string, rc1: string)
    requires alpha1 == "ALPHA1" && alpha2 == "ALPHA2" && beta1 == "BETA1" && rc1 == "RC1"
    ensures !Less(ToLower(alpha2), ToLower(alpha1))
    ensures !Less(ToLower(beta1), ToLower(alpha1))
    ensures !Less(ToLower(rc1), ToLower(alpha1))
  {
    assert ToLower("ALPHA1") == "alpha1" && ToLower("ALPHA2") == "alpha2";
    assert ToLower("BETA1") == "beta1" && ToLower("RC1") == "rc1";
    assert !Less("alpha2", "alpha1");
    assert !Less("beta1", "alpha1");
    assert !Less("rc1", "alpha1");
  }

  /** A qualifier after a short version still counts: `1.0.ALPHA2` beats `1.0.0.ALPHA1`. */
  lemma ShortQualifierCase(alpha2: string, alpha1: string)
    requires alpha2 == "1.0.ALPHA2" && alpha1 == "1.0.0.ALPHA1"
    ensures CompareVersions(alpha2, alpha1) == 1
  {
    ParseOneAlpha1();
    ParseOneAlpha2();
    AlphaTwoAfterOne(Parse(alpha2).qualifier, Parse(alpha1).qualifier);
    QualifierDecides(Parse(alpha2), Parse(alpha1));
  }

  lemma AlphaTwoAfterOne(alpha2: string, alpha1: string)
    requires alpha2 == "ALPHA2" && alpha1 == "ALPHA1"
    ensures alpha2 != alpha1 && !Less(ToLower(alpha2), ToLower(alpha1))
  {
    assert alpha2[5] != alpha1[5];
    LowerAlpha(alpha1, alpha2, "BETA1", "RC1");
  }

  /** With equal numbers and two different qualifiers, the qualifier that does not sort
      first ignoring case wins. */
  lemma QualifierDecides(v1: ParsedVersion, v2: ParsedVersion)
    requires SameNumbers(v1, v2) && v1.qualifier != "" && v2.qualifier != "" && v1.qualifier != v2.qualifier
    requires !Less(ToLower(v1.qualifier), ToLower(v2.qualifier))
    ensures CompareParsed(v1, v2) == 1
  {
  }

  /** `1-BETA1` has major 1 only, and beats `1.0.0.ALPHA1` by its qualifier. */
  lemma MajorOnlyQualifierCase(beta1: string, alpha1: string)
    requires beta1 == "1-BETA1" && alpha1 == "1.0.0.ALPHA1"
    ensures CompareVersions(beta1, alpha1) == 1
  {
    ParseOneAlpha1();
    ParseOneBeta1();
    LowerAlpha(Parse(alpha1).qualifier, "ALPHA2", Parse(beta1).qualifier, "RC1");
  }

  /** Numbers decide before qualifiers. */
  lemma NumbersFirstCase(s: string, t: string)
    requires s == "6.0.0.ALPHA2" && t == "6.1.1.ALPHA1"
    ensures CompareVersions(s, t) == -1
  {
    ParseSixAlpha2();
    ParseSixOneOneAlpha1();
  }

  /** A release beats an alpha; `RC1` beats `ALPHA1`. */
  lemma QualifierCases(release: string, rc1: string, alpha1: string)
    requires release == "6.0.0" && rc1 == "6.0.0.RC1" && alpha1 == "6.0.0.ALPHA1"
    ensures CompareVersions(release, alpha1) == 1
    ensures CompareVersions(rc1, alpha1) == 1
  {
    ParseSix();
    ParseSixAlpha1();
    ParseSixRc1();
    LowerAlpha(Parse(alpha1).qualifier, "ALPHA2", "BETA1", Parse(rc1).qualifier);
  }

  lemma RcAfterAlpha(rc1: string, alpha: string)
    requires rc1 == "RC1" && alpha == "alpha.1"
    ensures !Less(ToLower(rc1), ToLower(alpha))
  {
    assert ToLower("RC1") == "rc1" && ToLower("alpha.1") == "alpha.1";
    assert !Less("rc1", "alpha.1");
  }

  /** `rc` beats `alpha` whatever the case of either. */
  lemma CaseInsensitiveCase(s: string, t: string)
    requires s == "4.10.0-RC1" && t == "4.10.0.alpha-1"
    ensures CompareVersions(s, t) == 1
  {
    ParseFourTenRc1();
    ParseFourTenDotAlpha();
    RcAfterAlpha(Parse(s).qualifier, Parse(t).qualifier);
  }

  lemma AlphaBeforeRc(alpha: string, rc1: string)
    requires alpha == "alpha-1" && rc1 == "RC1"
    ensures Less(ToLower(alpha), ToLower(rc1))
  {
    assert ToLower("RC1") == "rc1" && ToLower("alpha-1") == "alpha-1";
    assert Less("alpha-1", "rc1");
  }

  lemma SortCaseCompares(release: string, alpha: string, rc: string)
    requires release == "4.10.0" && alpha == "4.10.0-alpha-1" && rc == "4.10.0-RC1"
    ensures CompareVersions(alpha, rc) == -1
    ensures CompareVersions(release, alpha) == 1
    ensures CompareVersions(release, rc) == 1
  {
    ParseFourTen();
    ParseFourTenRc1();
    ParseFourTenDashAlpha();
    AlphaBeforeRc(Parse(alpha).qualifier, Parse(rc).qualifier);
  }

  /** Sorting `4.10.0`, `4.10.0-alpha-1` and `4.10.0-RC1` ascending puts the release last. */
  lemma SortCase(release: string, alpha: string, rc: string)
    requires release == "4.10.0" && alpha == "4.10.0-alpha-1" && rc == "4.10.0-RC1"
    ensures Sorting.Sort([release, alpha, rc], CompareVersions) == [alpha, rc, release]
  {
    SortCaseCompares(release, alpha, rc);
    InsertThree(release, alpha, rc, CompareVersions);
  }

  /** The insertions that sort three elements when the second comes before the third and
      the first after both. */
  lemma InsertThree<T>(x: T, y: T, z: T, compare: (T, T) -> int)
    requires compare(y, z) <= 0 && compare(x, y) > 0 && compare(x, z) > 0
    ensures Sorting.Sort([x, y, z], compare) == [y, z, x]
  {
    var s := [x, y, z];
    assert s[1..] == [y, z] && s[1..][1..] == [z] && s[1..][1..][1..] == [];
    assert Sorting.Sort([z], compare) == [z];
    assert Sorting.Insert(y, [z], compare) == [y, z];
    assert Sorting.Insert(x, [z], compare) == [z, x];
    assert [y, z][1..] == [z];
    assert Sorting.Insert(x, [y, z], compare) == [y] + [z, x];
  }

  lemma ParseLowerA()
    ensures Parse("1.0.0.a") == ParsedVersion(1, 0, 0, "a")
  {
    ParseQualified(1, 0, 0, "a", "1.0.0.a");
  }

  lemma ParseUpperA()
    ensures Parse("1.0.0.A") == ParsedVersion(1, 0, 0, "A")
  {
    ParseQualified(1, 0, 0, "A", "1.0.0.A");
  }

  lemma LowerTwins(lower: string, upper: string)
    requires lower == "a" && upper == "A"
    ensures CaseTwins(lower, upper)
  {
    assert ToLower("A") == "a" && ToLower("a") == "a";
  }

  /** `1.0.0.a` and `1.0.0.A` are different strings whose qualifiers lower-case to the
      same text: each compares above the other. */
  lemma CaseTwinsCase(lower: string, upper: string)
    requires lower == "1.0.0.a" && upper == "1.0.0.A"
    ensures CompareVersions(lower, upper) == 1
    ensures CompareVersions(upper, lower) == 1
  {
    ParseLowerA();
    ParseUpperA();
    LowerTwins(Parse(lower).qualifier, Parse(upper).qualifier);
    CaseTwinsBothGreater(Parse(lower), Parse(upper));
  }
}
