/** `models/Version.ts`: an OSGi-like version `major.minor.micro.qualifier`, parsed
    leniently, and the comparator the completers use to order the versions they offer. */
module Versions {
  import opened Text
  import Sorting

  datatype ParsedVersion = ParsedVersion(major: nat, minor: nat, micro: nat, qualifier: string)

  /** The segments the parser walks: the first `-` becomes `.`, then the text is split at `.`. */
  function Segments(version: string): (parts: seq<string>)
    ensures |parts| >= 1
  {
    Split(ReplaceFirst(version, '-', "."), '.')
  }

  /** The qualifier kept when segment `seg` is not numeric: `seg`, followed by the
      remaining segments when they join to a non-empty string. */
  function QualifierFrom(seg: string, rest: seq<string>): string {
    var remainder := Join(rest, ".");
    if remainder != "" then seg + "." + remainder else seg
  }

  /** What the `Version` constructor leaves in its four fields: a text whose first segment
      is not numeric is all qualifier; otherwise that segment is the major number and the
      qualifier is a strict tail's worth of the text. */
  function Parse(version: string): (r: ParsedVersion)
    ensures var parts := Segments(version);
      if IsDigits(parts[0]) then r.major == DecimalValue(parts[0]) && |r.qualifier| < |version|
      else r == ParsedVersion(0, 0, 0, version)
  {
    var parts := Segments(version);
    ReplaceFirstLength(version, '-', ".");
    JoinSplit(ReplaceFirst(version, '-', "."), '.');
    FromSegmentsShorter(version, parts);
    FromSegments(version, parts)
  }

  lemma ReplaceFirstLength(s: string, c: char, rep: string)
    requires |rep| == 1
    ensures |ReplaceFirst(s, c, rep)| == |s|
  {
  }

  /** Dropping `k` segments drops at least the first one and `k` dots. */
  lemma {:induction false} JoinTailShorter(parts: seq<string>, k: nat)
    requires 1 <= k < |parts|
    ensures |Join(parts[k..], ".")| + |parts[0]| + k <= |Join(parts, ".")|
    decreases k
  {
    assert |Join(parts, ".")| == |parts[0]| + 1 + |Join(parts[1..], ".")|;
    if k > 1 {
      JoinTailShorter(parts[1..], k - 1);
      assert parts[1..][k - 1..] == parts[k..];
    }
  }

  /** The qualifier kept from `seg` and `rest` is no longer than their join. */
  lemma QualifierFromShorter(seg: string, rest: seq<string>)
    ensures |QualifierFrom(seg, rest)| <= |Join([seg] + rest, ".")|
  {
    if rest != [] {
      JoinCons(seg, rest, ".");
    } else {
      assert [seg] + rest == [seg];
    }
  }

  /** With a numeric first segment, the qualifier is shorter than the text. */
  lemma FromSegmentsShorter(version: string, parts: seq<string>)
    requires |parts| >= 1 && |Join(parts, ".")| == |version|
    ensures IsDigits(parts[0]) ==> |FromSegments(version, parts).qualifier| < |version|
  {
    if IsDigits(parts[0]) && |parts| > 1 {
      JoinTailShorter(parts, 1);
      QualifierFromShorter(parts[1], parts[2..]);
      assert [parts[1]] + parts[2..] == parts[1..];
      if |parts| > 2 {
        JoinTailShorter(parts, 2);
        QualifierFromShorter(parts[2], parts[3..]);
        assert [parts[2]] + parts[3..] == parts[2..];
        if |parts| > 3 {
          JoinTailShorter(parts, 3);
        }
      }
    }
  }

  /** The fields read off the segments `parts` of `version`. */
  function FromSegments(version: string, parts: seq<string>): ParsedVersion
    requires |parts| >= 1
  {
    if !IsDigits(parts[0]) then ParsedVersion(0, 0, 0, version)
    else
      var major := DecimalValue(parts[0]);
      if |parts| == 1 then ParsedVersion(major, 0, 0, "")
      else if !IsDigits(parts[1]) then ParsedVersion(major, 0, 0, QualifierFrom(parts[1], parts[2..]))
      else
        var minor := DecimalValue(parts[1]);
        if |parts| == 2 then ParsedVersion(major, minor, 0, "")
        else if !IsDigits(parts[2]) then ParsedVersion(major, minor, 0, QualifierFrom(parts[2], parts[3..]))
        else
          var micro := DecimalValue(parts[2]);
          if |parts| == 3 then ParsedVersion(major, minor, micro, "")
          else ParsedVersion(major, minor, micro, Join(parts[3..], "."))
  }

  /** `new Version(text)`: fields start at 0, 0, 0 and "" and the parser shifts
      segments off the front, stopping at the first non-numeric one. */
  class Version {
    var major: nat
    var minor: nat
    var micro: nat
    var qualifier: string

    function Value(): ParsedVersion
      reads this
    {
      ParsedVersion(major, minor, micro, qualifier)
    }

    constructor(version: string)
      ensures Value() == Parse(version)
    {
      major, minor, micro, qualifier := 0, 0, 0, "";
      new;
      ParseFields(version);
    }

    method ParseFields(version: string)
      requires Value() == ParsedVersion(0, 0, 0, "")
      modifies this
      ensures Value() == Parse(version)
    {
      var parts := Segments(version);
      // `split` never yields an empty list, so the first shift always happens
      var maj := parts[0];
      parts := parts[1..];
      if IsDigits(maj) {
        major := DecimalValue(maj);
      } else {
        qualifier := version;
        return;
      }
      if |parts| > 0 {
        var min := parts[0];
        parts := parts[1..];
        if IsDigits(min) {
          minor := DecimalValue(min);
        } else {
          qualifier := QualifierFrom(min, parts);
          return;
        }
      }
      if |parts| > 0 {
        var mic := parts[0];
        parts := parts[1..];
        if IsDigits(mic) {
          micro := DecimalValue(mic);
        } else {
          qualifier := QualifierFrom(mic, parts);
          return;
        }
      }
      if |parts| > 0 {
        qualifier := Join(parts, ".");
      }
    }
  }

  /** `v1` and `v2` agree on all three numbers. */
  predicate SameNumbers(v1: ParsedVersion, v2: ParsedVersion) {
    v1.major == v2.major && v1.minor == v2.minor && v1.micro == v2.micro
  }

  /** The numbers of `v1` come lexicographically before those of `v2`. */
  predicate NumbersBelow(v1: ParsedVersion, v2: ParsedVersion) {
    v1.major < v2.major
    || (v1.major == v2.major && v1.minor < v2.minor)
    || (v1.major == v2.major && v1.minor == v2.minor && v1.micro < v2.micro)
  }

  /** Two different qualifiers that `toLowerCase` makes equal. */
  predicate CaseTwins(q1: string, q2: string) {
    q1 != q2 && ToLower(q1) == ToLower(q2)
  }

  /** `compareOSGiVersions` on the field values: the numbers decide first, by their
      difference; then an equal qualifier gives 0, a missing one (a release) comes last,
      and otherwise the lower-cased qualifiers are compared as strings. */
  function CompareParsed(v1: ParsedVersion, v2: ParsedVersion): (r: int)
    ensures r == 0 <==> v1 == v2
    ensures NumbersBelow(v1, v2) ==> r < 0
    ensures NumbersBelow(v2, v1) ==> r > 0
    ensures SameNumbers(v1, v2) ==> -1 <= r <= 1
  {
    if v1.major != v2.major then v1.major - v2.major
    else if v1.minor != v2.minor then v1.minor - v2.minor
    else if v1.micro != v2.micro then v1.micro - v2.micro
    else if v1.qualifier == v2.qualifier then 0
    else if v1.qualifier == "" then 1
    else if v2.qualifier == "" then -1
    else if Less(ToLower(v1.qualifier), ToLower(v2.qualifier)) then -1
    else 1
  }

  /** `compareOSGiVersions(v1, v2)` on two objects: the identity quick test agrees with
      the comparison of their fields. */
  function CompareOSGiVersions(v1: Version, v2: Version): (r: int)
    reads v1, v2
    ensures r == CompareParsed(v1.Value(), v2.Value())
  {
    if v1 == v2 then 0 else CompareParsed(v1.Value(), v2.Value())
  }

  /** `compareVersions(s, t)`: the string-equality shortcut agrees with comparing the
      parsed versions. */
  function CompareVersions(s: string, t: string): (r: int)
    ensures r == CompareParsed(Parse(s), Parse(t))
    ensures r == 0 <==> Parse(s) == Parse(t)
  {
    if s == t then 0 else CompareParsed(Parse(s), Parse(t))
  }

  /** `compareVersionsDesc(s, t)`: the newer version first. */
  function CompareVersionsDesc(s: string, t: string): (r: int)
    ensures r == CompareParsed(Parse(t), Parse(s))
  {
    CompareVersions(t, s)
  }

  /** With equal numbers, a release (no qualifier) sorts after any qualified version. */
  lemma ReleaseAfterQualified(v1: ParsedVersion, v2: ParsedVersion)
    requires SameNumbers(v1, v2) && v1.qualifier == "" && v2.qualifier != ""
    ensures CompareParsed(v1, v2) == 1 && CompareParsed(v2, v1) == -1
  {
  }

  /** With equal numbers and two different non-empty qualifiers the result is -1 exactly
      when the lower-cased first qualifier is the smaller string, and 1 otherwise. */
  lemma QualifiersIgnoreCase(v1: ParsedVersion, v2: ParsedVersion)
    requires SameNumbers(v1, v2) && v1.qualifier != v2.qualifier
    requires v1.qualifier != "" && v2.qualifier != ""
    ensures CompareParsed(v1, v2) == -1 <==> Less(ToLower(v1.qualifier), ToLower(v2.qualifier))
    ensures CompareParsed(v1, v2) == 1 <==> !Less(ToLower(v1.qualifier), ToLower(v2.qualifier))
  {
  }

  /** Qualifiers that differ only in case each compare above the other. */
  lemma CaseTwinsBothGreater(v1: ParsedVersion, v2: ParsedVersion)
    requires SameNumbers(v1, v2) && CaseTwins(v1.qualifier, v2.qualifier)
    ensures CompareParsed(v1, v2) == 1 && CompareParsed(v2, v1) == 1
  {
    LessIrreflexive(ToLower(v1.qualifier));
  }

  /** Apart from case twins the comparator is antisymmetric in sign. */
  lemma CompareAntisymmetric(v1: ParsedVersion, v2: ParsedVersion)
    requires !(SameNumbers(v1, v2) && CaseTwins(v1.qualifier, v2.qualifier))
    ensures CompareParsed(v1, v2) < 0 <==> CompareParsed(v2, v1) > 0
    ensures CompareParsed(v1, v2) == 0 <==> CompareParsed(v2, v1) == 0
  {
    var q1, q2 := ToLower(v1.qualifier), ToLower(v2.qualifier);
    if SameNumbers(v1, v2) && v1.qualifier != v2.qualifier && v1.qualifier != "" && v2.qualifier != "" {
      if Less(q1, q2) {
        LessAsymmetric(q1, q2);
      } else {
        LessTotal(q1, q2);
      }
    }
  }

  /** `CompareParsed(a, b) <= 0` is transitive. */
  lemma CompareTransitive(a: ParsedVersion, b: ParsedVersion, c: ParsedVersion)
    requires CompareParsed(a, b) <= 0 && CompareParsed(b, c) <= 0
    ensures CompareParsed(a, c) <= 0
  {
    if SameNumbers(a, b) && SameNumbers(b, c) && a.qualifier != c.qualifier {
      var qa, qb, qc := ToLower(a.qualifier), ToLower(b.qualifier), ToLower(c.qualifier);
      if a.qualifier != b.qualifier && b.qualifier != c.qualifier && c.qualifier != "" {
        LessTransitive(qa, qb, qc);
      }
    }
  }

  /** Apart from case twins any two versions are comparable. */
  lemma CompareTotal(a: ParsedVersion, b: ParsedVersion)
    requires !(SameNumbers(a, b) && CaseTwins(a.qualifier, b.qualifier))
    ensures CompareParsed(a, b) <= 0 || CompareParsed(b, a) <= 0
  {
    CompareAntisymmetric(a, b);
  }

  /** No two of the strings parse to case twins. */
  ghost predicate NoCaseTwins(s: multiset<string>) {
    forall a, b :: a in s && b in s ==>
      !(SameNumbers(Parse(a), Parse(b)) && CaseTwins(Parse(a).qualifier, Parse(b).qualifier))
  }

  lemma VersionsTotal(s: multiset<string>)
    requires NoCaseTwins(s)
    ensures forall a, b :: a in s && b in s ==> CompareVersions(a, b) <= 0 || CompareVersions(b, a) <= 0
  {
    forall a, b | a in s && b in s
      ensures CompareVersions(a, b) <= 0 || CompareVersions(b, a) <= 0
    {
      CompareTotal(Parse(a), Parse(b));
    }
  }

  lemma VersionsTransitive()
    ensures forall a, b, c :: CompareVersions(a, b) <= 0 && CompareVersions(b, c) <= 0 ==> CompareVersions(a, c) <= 0
  {
    forall a, b, c | CompareVersions(a, b) <= 0 && CompareVersions(b, c) <= 0
      ensures CompareVersions(a, c) <= 0
    {
      CompareTransitive(Parse(a), Parse(b), Parse(c));
    }
  }

  /** On version lists without case twins both comparators are total preorders, so
      sorting with them yields an ordered list. */
  lemma VersionsTotalPreorder(s: multiset<string>)
    requires NoCaseTwins(s)
    ensures Sorting.TotalPreorderOn(CompareVersions, s)
    ensures Sorting.TotalPreorderOn(CompareVersionsDesc, s)
  {
    AscendingPreorder(s);
    DescendingPreorder(s);
  }

  lemma AscendingPreorder(s: multiset<string>)
    requires NoCaseTwins(s)
    ensures Sorting.TotalPreorderOn(CompareVersions, s)
  {
    VersionsTotal(s);
    VersionsTransitive();
  }

  lemma DescendingPreorder(s: multiset<string>)
    requires NoCaseTwins(s)
    ensures Sorting.TotalPreorderOn(CompareVersionsDesc, s)
  {
    VersionsTotal(s);
    VersionsTransitive();
  }

  /** `versions.sort(compareVersionsDesc)` lists a version before every older one. */
  lemma SortDescNewestFirst(versions: seq<string>)
    requires NoCaseTwins(multiset(versions))
    ensures var r := Sorting.Sort(versions, CompareVersionsDesc);
      multiset(r) == multiset(versions) &&
      forall i, j :: 0 <= i < j < |r| ==> CompareVersions(r[j], r[i]) <= 0
  {
    VersionsTotalPreorder(multiset(versions));
    Sorting.SortSorted(versions, CompareVersionsDesc);
    Sorting.SortPermutes(versions, CompareVersionsDesc);
  }


  lemma ConsThree<T>(x: T, y: T, z: T, r: seq<T>)
    ensures [x] + ([y, z] + r) == [x, y, z] + r
  {
  }

  lemma SplitOne(x: string, w: string)
    requires '.' !in x
    ensures Split(x + (['.'] + w), '.') == [x] + Split(w, '.')
  {
    assert x + (['.'] + w) == x + ['.'] + w;
    SplitCons(x, '.', w);
  }

  lemma ConsTwo<T>(y: T, z: T, r: seq<T>)
    ensures [y] + ([z] + r) == [y, z] + r
  {
  }

  lemma SplitTwo(y: string, z: string, w: string)
    requires '.' !in y && '.' !in z
    ensures Split(y + (['.'] + (z + (['.'] + w))), '.') == [y, z] + Split(w, '.')
  {
    SplitOne(z, w);
    SplitOne(y, z + (['.'] + w));
    ConsTwo(y, z, Split(w, '.'));
  }

  lemma SplitThree(x: string, y: string, z: string, w: string)
    requires '.' !in x && '.' !in y && '.' !in z
    ensures Split(x + (['.'] + (y + (['.'] + (z + (['.'] + w))))), '.') == [x, y, z] + Split(w, '.')
  {
    SplitTwo(y, z, w);
    SplitOne(x, y + (['.'] + (z + (['.'] + w))));
    ConsThree(x, y, z, Split(w, '.'));
  }

  /** Replacing the first `-` in `p`, `sep`, `q` where `p` has none. */
  lemma ReplaceAfterPrefix(p: string, sep: char, q: string)
    requires '-' !in p && (sep == '.' || sep == '-')
    ensures ReplaceFirst(p + ([sep] + q), '-', ".")
         == p + (['.'] + (if sep == '.' then ReplaceFirst(q, '-', ".") else q))
  {
    ReplaceFirstAfter(p, [sep] + q, '-', ".");
    if sep == '.' {
      ReplaceFirstAfter([sep], q, '-', ".");
    } else {
      assert FindChar([sep] + q, '-') == 0;
      assert ([sep] + q)[1..] == q;
    }
  }

  /** Replacing the first `-` after a segment and a dot, neither holding one. */
  lemma ReplaceAfterSegment(x: string, t: string)
    requires '-' !in x
    ensures ReplaceFirst(x + (['.'] + t), '-', ".") == x + (['.'] + ReplaceFirst(t, '-', "."))
  {
    ReplaceFirstAfter(x, ['.'] + t, '-', ".");
    ReplaceFirstAfter(['.'], t, '-', ".");
  }

  /** The version text `a.b.c` followed by `sep` and `q`. */
  function NumbersThen(a: nat, b: nat, c: nat, sep: char, q: string): string {
    NatToString(a) + (['.'] + (NatToString(b) + (['.'] + (NatToString(c) + ([sep] + q)))))
  }

  /** The segments of three numbers followed by `sep` and `q`: the numbers, then the
      parts of `q`, whose first `-` the parser turned into `.` unless `sep` was that `-`. */
  lemma SegmentsOfNumbers(a: nat, b: nat, c: nat, sep: char, q: string)
    requires sep == '.' || sep == '-'
    ensures var q' := if sep == '.' then ReplaceFirst(q, '-', ".") else q;
      Segments(NumbersThen(a, b, c, sep, q))
      == [NatToString(a), NatToString(b), NatToString(c)] + Split(q', '.')
  {
    var na, nb, nc := NatToString(a), NatToString(b), NatToString(c);
    NatToStringHasNo(a, '-'); NatToStringHasNo(b, '-'); NatToStringHasNo(c, '-');
    NatToStringHasNo(a, '.'); NatToStringHasNo(b, '.'); NatToStringHasNo(c, '.');
    var q' := if sep == '.' then ReplaceFirst(q, '-', ".") else q;
    var t3 := nc + ([sep] + q);
    var t2 := nb + (['.'] + t3);
    ReplaceAfterPrefix(nc, sep, q);
    ReplaceAfterSegment(nb, t3);
    ReplaceAfterSegment(na, t2);
    SplitThree(na, nb, nc, q');
  }

  lemma FromThreeNumbers(version: string, x: string, y: string, z: string, rest: seq<string>)
    requires IsDigits(x) && IsDigits(y) && IsDigits(z) && rest != []
    ensures FromSegments(version, [x, y, z] + rest)
         == ParsedVersion(DecimalValue(x), DecimalValue(y), DecimalValue(z), Join(rest, "."))
  {
    var parts := [x, y, z] + rest;
    assert parts[0] == x && parts[1] == y && parts[2] == z && parts[3..] == rest;
  }

  /** `a.b.c-q` parses to the qualifier `q`; `a.b.c.q` to `q` with its first `-` turned
      into `.`. */
  lemma ParseNumbersThenQualifier(a: nat, b: nat, c: nat, sep: char, q: string)
    requires sep == '.' || sep == '-'
    ensures Parse(NumbersThen(a, b, c, sep, q))
         == ParsedVersion(a, b, c, if sep == '.' then ReplaceFirst(q, '-', ".") else q)
  {
    var q' := if sep == '.' then ReplaceFirst(q, '-', ".") else q;
    SegmentsOfNumbers(a, b, c, sep, q);
    DecimalValueOfNatToString(a);
    DecimalValueOfNatToString(b);
    DecimalValueOfNatToString(c);
    FromThreeNumbers(NumbersThen(a, b, c, sep, q), NatToString(a), NatToString(b), NatToString(c), Split(q', '.'));
    JoinSplit(q', '.');
  }

  /** `a`, `a.b` and `a.b.c` written with plain numbers parse to those numbers and no
      qualifier. */
  lemma ParseRelease(a: nat, b: nat, c: nat)
    ensures Parse(NatToString(a)) == ParsedVersion(a, 0, 0, "")
    ensures Parse(NatToString(a) + (['.'] + NatToString(b))) == ParsedVersion(a, b, 0, "")
    ensures Parse(NatToString(a) + (['.'] + (NatToString(b) + (['.'] + NatToString(c)))))
         == ParsedVersion(a, b, c, "")
  {
    ParseMajor(a);
    ParseMajorMinor(a, b);
    ParseMajorMinorMicro(a, b, c);
  }

  lemma ParseMajor(a: nat)
    ensures Parse(NatToString(a)) == ParsedVersion(a, 0, 0, "")
  {
    NatToStringHasNo(a, '-');
    NatToStringHasNo(a, '.');
    DecimalValueOfNatToString(a);
    SplitNone(NatToString(a), '.');
  }

  lemma ParseMajorMinor(a: nat, b: nat)
    ensures Parse(NatToString(a) + (['.'] + NatToString(b))) == ParsedVersion(a, b, 0, "")
  {
    var na, nb := NatToString(a), NatToString(b);
    SegmentsMajorMinor(a, b);
    DecimalValueOfNatToString(a);
    DecimalValueOfNatToString(b);
    FromTwoNumbers(na + (['.'] + nb), na, nb);
  }

  lemma SegmentsMajorMinor(a: nat, b: nat)
    ensures Segments(NatToString(a) + (['.'] + NatToString(b))) == [NatToString(a), NatToString(b)]
  {
    var na, nb := NatToString(a), NatToString(b);
    NatToStringHasNo(a, '-'); NatToStringHasNo(b, '-');
    NatToStringHasNo(a, '.'); NatToStringHasNo(b, '.');
    SplitNone(nb, '.');
    assert '-' !in na + (['.'] + nb);
    ReplaceFirstAbsent(na + (['.'] + nb), '-', ".");
    SplitOne(na, nb);
  }

  lemma FromTwoNumbers(version: string, x: string, y: string)
    requires IsDigits(x) && IsDigits(y)
    ensures FromSegments(version, [x, y]) == ParsedVersion(DecimalValue(x), DecimalValue(y), 0, "")
  {
  }

  lemma ParseMajorMinorMicro(a: nat, b: nat, c: nat)
    ensures Parse(NatToString(a) + (['.'] + (NatToString(b) + (['.'] + NatToString(c)))))
         == ParsedVersion(a, b, c, "")
  {
    var na, nb, nc := NatToString(a), NatToString(b), NatToString(c);
    SegmentsMajorMinorMicro(a, b, c);
    DecimalValueOfNatToString(a);
    DecimalValueOfNatToString(b);
    DecimalValueOfNatToString(c);
    FromNumbersOnly(na + (['.'] + (nb + (['.'] + nc))), na, nb, nc);
  }

  lemma SegmentsMajorMinorMicro(a: nat, b: nat, c: nat)
    ensures Segments(NatToString(a) + (['.'] + (NatToString(b) + (['.'] + NatToString(c)))))
         == [NatToString(a), NatToString(b), NatToString(c)]
  {
    var na, nb, nc := NatToString(a), NatToString(b), NatToString(c);
    NatToStringHasNo(a, '-'); NatToStringHasNo(b, '-'); NatToStringHasNo(c, '-');
    NatToStringHasNo(a, '.'); NatToStringHasNo(b, '.'); NatToStringHasNo(c, '.');
    SplitNone(nc, '.');
    assert '-' !in na + (['.'] + (nb + (['.'] + nc)));
    ReplaceFirstAbsent(na + (['.'] + (nb + (['.'] + nc))), '-', ".");
    SplitTwo(na, nb, nc);
  }

  lemma FromNumbersOnly(version: string, x: string, y: string, z: string)
    requires IsDigits(x) && IsDigits(y) && IsDigits(z)
    ensures FromSegments(version, [x, y, z]) == ParsedVersion(DecimalValue(x), DecimalValue(y), DecimalValue(z), "")
  {
  }

  /** The text of `q` before its first dot. */
  function FirstSegment(q: string): (seg: string)
    ensures '.' !in seg && (seg == q || StartsWith(q, seg + "."))
  {
    var i := FindChar(q, '.');
    assert i < |q| ==> q[..i + 1] == q[..i] + ".";
    q[..i]
  }

  /** The qualifier kept from the segments of `q` is `q` itself, except that the dot ending
      a one-segment `q` is dropped. */
  lemma {:induction false} QualifierFromSplit(q: string)
    ensures var parts := Split(q, '.');
      QualifierFrom(parts[0], parts[1..]) == (if q == FirstSegment(q) + "." then FirstSegment(q) else q)
  {
    var parts := Split(q, '.');
    JoinSplit(q, '.');
    SplitHead(q, '.');
    if |parts| >= 2 {
      JoinCons(parts[0], parts[1..], ".");
      assert [parts[0]] + parts[1..] == parts;
    }
  }

  /** `a-q` and `a.q`, where the first segment of `q` is not numeric, keep all of `q` as the
      qualifier (less the dot that ends a one-segment `q`) and leave minor and micro at 0;
      with `a.q`, `q` holds no `-`, which would otherwise become a dot. */
  lemma ParseMajorThenQualifier(a: nat, sep: char, q: string)
    requires sep == '.' || sep == '-'
    requires sep == '-' || '-' !in q
    requires !IsDigits(FirstSegment(q))
    ensures Parse(NatToString(a) + ([sep] + q))
         == ParsedVersion(a, 0, 0, if q == FirstSegment(q) + "." then FirstSegment(q) else q)
  {
    SegmentsMajorThenQualifier(a, sep, q);
    DecimalValueOfNatToString(a);
    SplitHead(q, '.');
    QualifierFromSplit(q);
    FromOneNumberThen(NatToString(a) + ([sep] + q), NatToString(a), Split(q, '.'));
  }

  lemma SegmentsMajorThenQualifier(a: nat, sep: char, q: string)
    requires sep == '.' || sep == '-'
    requires sep == '-' || '-' !in q
    ensures Segments(NatToString(a) + ([sep] + q)) == [NatToString(a)] + Split(q, '.')
  {
    var na := NatToString(a);
    NatToStringHasNo(a, '-');
    NatToStringHasNo(a, '.');
    ReplaceAfterPrefix(na, sep, q);
    if sep == '.' {
      ReplaceFirstAbsent(q, '-', ".");
    }
    SplitOne(na, q);
  }

  lemma FromOneNumberThen(version: string, x: string, qs: seq<string>)
    requires IsDigits(x) && |qs| >= 1 && !IsDigits(qs[0])
    ensures FromSegments(version, [x] + qs) == ParsedVersion(DecimalValue(x), 0, 0, QualifierFrom(qs[0], qs[1..]))
  {
    var parts := [x] + qs;
    assert parts[1] == qs[0] && parts[2..] == qs[1..];
  }

  /** `a.b-q` and `a.b.q`, where the first segment of `q` is not numeric, keep all of `q` as
      the qualifier (less the dot that ends a one-segment `q`) and leave micro at 0. */
  lemma ParseMinorThenQualifier(a: nat, b: nat, sep: char, q: string)
    requires sep == '.' || sep == '-'
    requires sep == '-' || '-' !in q
    requires !IsDigits(FirstSegment(q))
    ensures Parse(NatToString(a) + (['.'] + (NatToString(b) + ([sep] + q))))
         == ParsedVersion(a, b, 0, if q == FirstSegment(q) + "." then FirstSegment(q) else q)
  {
    var na, nb := NatToString(a), NatToString(b);
    SegmentsMinorThenQualifier(a, b, sep, q);
    DecimalValueOfNatToString(a);
    DecimalValueOfNatToString(b);
    SplitHead(q, '.');
    QualifierFromSplit(q);
    FromTwoNumbersThen(na + (['.'] + (nb + ([sep] + q))), na, nb, Split(q, '.'));
  }

  lemma SegmentsMinorThenQualifier(a: nat, b: nat, sep: char, q: string)
    requires sep == '.' || sep == '-'
    requires sep == '-' || '-' !in q
    ensures Segments(NatToString(a) + (['.'] + (NatToString(b) + ([sep] + q)))) == [NatToString(a), NatToString(b)] + Split(q, '.')
  {
    var na, nb := NatToString(a), NatToString(b);
    NatToStringHasNo(a, '-'); NatToStringHasNo(b, '-');
    NatToStringHasNo(a, '.'); NatToStringHasNo(b, '.');
    if sep == '.' {
      ReplaceFirstAbsent(q, '-', ".");
    }
    ReplaceAfterPrefix(nb, sep, q);
    ReplaceAfterSegment(na, nb + ([sep] + q));
    SplitTwo(na, nb, q);
  }

  lemma FromTwoNumbersThen(version: string, x: string, y: string, qs: seq<string>)
    requires IsDigits(x) && IsDigits(y) && |qs| >= 1 && !IsDigits(qs[0])
    ensures FromSegments(version, [x, y] + qs) == ParsedVersion(DecimalValue(x), DecimalValue(y), 0, QualifierFrom(qs[0], qs[1..]))
  {
    var parts := [x, y] + qs;
    assert parts[2] == qs[0] && parts[3..] == qs[1..];
  }

  /** Trailing zero segments do not change a version: `a` equals `a.0` and `a.b` equals
      `a.b.0`. */
  lemma TrailingZerosIgnored(a: nat, b: nat)
    ensures CompareVersions(NatToString(a), NatToString(a) + (['.'] + NatToString(0))) == 0
    ensures CompareVersions(NatToString(a) + (['.'] + NatToString(b)),
                            NatToString(a) + (['.'] + (NatToString(b) + (['.'] + NatToString(0))))) == 0
  {
    ParseRelease(a, 0, 0);
    ParseRelease(a, b, 0);
  }

  /** The first segment is `s` up to the first separator. */
  lemma SplitHead(s: string, c: char)
    ensures Split(s, c)[0] == s[..FindChar(s, c)]
  {
  }

  /** Parsing a string that does not start with a digit keeps all of it as the qualifier. */
  lemma ParseNonNumeric(version: string)
    requires version == [] || !IsAsciiDigit(version[0])
    ensures Parse(version) == ParsedVersion(0, 0, 0, version)
  {
    var r := ReplaceFirst(version, '-', ".");
    SplitHead(r, '.');
    var head := Segments(version)[0];
    if version != [] {
      assert r != [] && (r[0] == '.' || r[0] == version[0]) by {
        if '-' in version {
          var i := FindChar(version, '-');
          if i > 0 {
            assert r[0] == version[..i][0];
          }
        }
      }
      if head != [] {
        assert head[0] == r[0];
      }
    }
    assert !IsDigits(head);
  }
}
