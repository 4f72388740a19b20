/** JavaScript string semantics used throughout the extension, over `seq<char>`:
    `startsWith`, `includes`, `indexOf`, `split`, `join`, `trim`, `substring`,
    `padStart`, `toLowerCase`, the `<` operator on strings, and the `\s` class of
    regular expressions. */
module Text {

  /** `\s` in a JavaScript regular expression: WhiteSpace and LineTerminator code
      points. `String.prototype.trim` removes exactly the same set. */
  predicate IsWhitespace(c: char) {
    c == '\t' || c == '\n' || c == '\U{000B}' || c == '\U{000C}' || c == '\r' || c == ' '
    || c == '\U{00A0}' || c == '\U{1680}' || ('\U{2000}' <= c <= '\U{200A}')
    || c == '\U{2028}' || c == '\U{2029}' || c == '\U{202F}' || c == '\U{205F}'
    || c == '\U{3000}' || c == '\U{FEFF}'
  }

  /** The characters that `.` in a JavaScript regular expression does not match. */
  predicate IsLineTerminator(c: char) {
    c == '\n' || c == '\r' || c == '\U{2028}' || c == '\U{2029}'
  }

  predicate NoLineTerminator(s: string) {
    forall i :: 0 <= i < |s| ==> !IsLineTerminator(s[i])
  }

  /** `s.startsWith(p)` */
  predicate StartsWith(s: string, p: string) {
    |p| <= |s| && s[..|p|] == p
  }

  /** `s.endsWith(p)` */
  predicate EndsWith(s: string, p: string) {
    |p| <= |s| && s[|s| - |p|..] == p
  }

  lemma StartsWithAppend(p: string, q: string)
    ensures StartsWith(p + q, p)
  {
    assert (p + q)[..|p|] == p;
  }

  /** If `s` starts with both `p` and `q`, one of them is a prefix of the other. */
  lemma StartsWithBoth(s: string, p: string, q: string)
    requires StartsWith(s, p) && StartsWith(s, q) && |p| <= |q|
    ensures StartsWith(q, p)
  {
    assert q[..|p|] == s[..|q|][..|p|];
  }

  lemma StartsWithTrans(s: string, p: string, q: string)
    requires StartsWith(s, q) && StartsWith(q, p)
    ensures StartsWith(s, p)
  {
    assert s[..|p|] == s[..|q|][..|p|];
  }

  /** `s.indexOf(p)`: the first index at which `p` occurs, or -1. */
  function IndexOf(s: string, p: string): (r: int)
    ensures -1 <= r <= |s|
    ensures r >= 0 ==> StartsWith(s[r..], p) && forall i :: 0 <= i < r ==> !StartsWith(s[i..], p)
    ensures r == -1 ==> forall i :: 0 <= i <= |s| ==> !StartsWith(s[i..], p)
    decreases |s|
  {
    if StartsWith(s, p) then 0
    else if s == [] then -1
    else
      var k := IndexOf(s[1..], p);
      assert forall i :: 1 <= i <= |s| ==> s[i..] == s[1..][i - 1..];
      if k < 0 then -1 else k + 1
  }

  /** `s.includes(p)` */
  predicate Contains(s: string, p: string) {
    IndexOf(s, p) >= 0
  }

  lemma ContainsAt(s: string, p: string, i: nat)
    requires i <= |s| && StartsWith(s[i..], p)
    ensures Contains(s, p)
  {
  }

  /** The first index of `c` in `s`, or `|s|` when `c` does not occur. */
  function FindChar(s: string, c: char): (i: nat)
    ensures i <= |s|
    ensures i < |s| ==> s[i] == c
    ensures forall j :: 0 <= j < i ==> s[j] != c
  {
    if s == [] then 0
    else if s[0] == c then 0
    else FindChar(s[1..], c) + 1
  }

  /** `c` is found exactly when it occurs. */
  lemma FindCharIn(s: string, c: char)
    ensures FindChar(s, c) == |s| <==> c !in s
  {
    var i := FindChar(s, c);
    if i < |s| {
      assert s[i] in s;
    }
  }

  /** `s.split(c)` for a one-character separator: never empty, and no part holds `c`. */
  function Split(s: string, c: char): (r: seq<string>)
    ensures |r| >= 1
    ensures forall k :: 0 <= k < |r| ==> c !in r[k]
    decreases |s|
  {
    var i := FindChar(s, c);
    if i == |s| then [s] else [s[..i]] + Split(s[i + 1..], c)
  }

  /** `parts.join(sep)` */
  function Join(parts: seq<string>, sep: string): string {
    if parts == [] then ""
    else if |parts| == 1 then parts[0]
    else parts[0] + sep + Join(parts[1..], sep)
  }

  lemma SplitNone(s: string, c: char)
    requires c !in s
    ensures Split(s, c) == [s]
  {
  }

  lemma SplitCons(a: string, c: char, b: string)
    requires c !in a
    ensures Split(a + [c] + b, c) == [a] + Split(b, c)
  {
    var s := a + [c] + b;
    var i := FindChar(s, c);
    assert s[..|a|] == a;
    assert s[|a|] == c;
    assert c in s[..|a| + 1];
    assert i == |a|;
    assert s[i + 1..] == b;
  }

  /** Splitting gives exactly one part iff the separator does not occur. */
  lemma SplitSingle(s: string, c: char)
    ensures |Split(s, c)| == 1 <==> c !in s
  {
  }

  /** Joining the parts with the separator gives back the original string. */
  lemma {:induction false} JoinSplit(s: string, c: char)
    ensures Join(Split(s, c), [c]) == s
    decreases |s|
  {
    var i := FindChar(s, c);
    if i < |s| {
      JoinSplit(s[i + 1..], c);
      var rest := Split(s[i + 1..], c);
      assert Split(s, c) == [s[..i]] + rest;
      JoinCons(s[..i], rest, [c]);
      assert s == s[..i] + [c] + s[i + 1..];
    } else {
      assert Split(s, c) == [s];
    }
  }

  /** Splitting a join of separator-free parts gives back the parts. */
  lemma {:induction false} SplitJoin(parts: seq<string>, c: char)
    requires |parts| >= 1
    requires forall k :: 0 <= k < |parts| ==> c !in parts[k]
    ensures Split(Join(parts, [c]), c) == parts
  {
    if |parts| > 1 {
      SplitJoin(parts[1..], c);
      JoinCons(parts[0], parts[1..], [c]);
      assert [parts[0]] + parts[1..] == parts;
      SplitCons(parts[0], c, Join(parts[1..], [c]));
    }
  }

  /** Splitting at a separator occurrence splits the two sides independently. */
  lemma {:induction false} SplitConcat(x: string, c: char, y: string)
    ensures Split(x + [c] + y, c) == Split(x, c) + Split(y, c)
    decreases |x|
  {
    var i := FindChar(x, c);
    if i == |x| {
      SplitNone(x, c);
      SplitCons(x, c, y);
    } else {
      var x1, x2 := x[..i], x[i + 1..];
      Regroup(x, c, y, i);
      SplitCons(x1, c, x2);
      SplitCons(x1, c, x2 + [c] + y);
      SplitConcat(x2, c, y);
      AppendAssoc([x1], Split(x2, c), Split(y, c));
    }
  }

  lemma Regroup(x: string, c: char, y: string, i: nat)
    requires i < |x| && x[i] == c
    ensures x == x[..i] + [c] + x[i + 1..]
    ensures x + [c] + y == x[..i] + [c] + (x[i + 1..] + [c] + y)
  {
    assert x == x[..i] + [c] + x[i + 1..];
  }

  lemma AppendAssoc<T>(a: seq<T>, b: seq<T>, d: seq<T>)
    ensures a + (b + d) == (a + b) + d
  {
  }

  lemma JoinTwo(a: string, b: string, sep: string)
    ensures Join([a, b], sep) == a + sep + b
  {
    assert [a, b][1..] == [b];
  }

  lemma JoinCons(a: string, rest: seq<string>, sep: string)
    requires rest != []
    ensures Join([a] + rest, sep) == a + sep + Join(rest, sep)
  {
    assert ([a] + rest)[1..] == rest;
  }

  /** `text.split(/\r?\n/)`: split at every line feed, together with a carriage return
      directly before it. */
  function SplitLines(text: string): (lines: seq<string>)
    ensures |lines| == |Split(text, '\n')|
    ensures forall k :: 0 <= k < |lines| ==> '\n' !in lines[k]
  {
    var parts := Split(text, '\n');
    seq(|parts|, k requires 0 <= k < |parts| =>
      if k < |parts| - 1 then DropTrailingCR(parts[k]) else parts[k])
  }

  function DropTrailingCR(s: string): (r: string)
    ensures r == s || (s == r + ['\r'])
  {
    if |s| > 0 && s[|s| - 1] == '\r' then s[..|s| - 1] else s
  }

  function TrimStart(s: string): (r: string)
    ensures |r| <= |s| && r == s[|s| - |r|..]
    ensures r == [] || !IsWhitespace(r[0])
    ensures forall i :: 0 <= i < |s| - |r| ==> IsWhitespace(s[i])
  {
    if s != [] && IsWhitespace(s[0]) then TrimStart(s[1..]) else s
  }

  /** `s.trimEnd()` */
  function TrimEnd(s: string): (r: string)
    ensures |r| <= |s| && r == s[..|r|]
    ensures r == [] || !IsWhitespace(r[|r| - 1])
    ensures forall i :: |r| <= i < |s| ==> IsWhitespace(s[i])
  {
    if s != [] && IsWhitespace(s[|s| - 1]) then TrimEnd(s[..|s| - 1]) else s
  }

  /** `s.trim()` */
  function Trim(s: string): string {
    TrimEnd(TrimStart(s))
  }

  /** `s.charAt(i)`: the one-character string at `i`, or the empty string outside `s`. */
  function CharAt(s: string, i: int): (r: string)
    ensures |r| <= 1
    ensures 0 <= i < |s| <==> |r| == 1
    ensures 0 <= i < |s| ==> r == [s[i]]
  {
    if 0 <= i < |s| then [s[i]] else ""
  }

  function Clamp(i: int, n: nat): (r: nat)
    ensures r <= n
  {
    if i < 0 then 0 else if i > n then n else i
  }

  /** `s.substring(a, b)`: both bounds are clamped to `[0, |s|]` and swapped when `a > b`. */
  function Substring(s: string, a: int, b: int): (r: string)
    ensures |r| <= |s|
  {
    var x := Clamp(a, |s|);
    var y := Clamp(b, |s|);
    if x <= y then s[x..y] else s[y..x]
  }

  /** `s.replace(c, rep)` with a one-character pattern: only the first occurrence is replaced. */
  function ReplaceFirst(s: string, c: char, rep: string): string {
    var i := FindChar(s, c);
    if i == |s| then s else s[..i] + rep + s[i + 1..]
  }

  /** Without an occurrence of `c` nothing is replaced. */
  lemma ReplaceFirstAbsent(s: string, c: char, rep: string)
    requires c !in s
    ensures ReplaceFirst(s, c, rep) == s
  {
    FindCharIn(s, c);
  }

  lemma {:induction false} FindCharAfter(p: string, q: string, c: char)
    requires c !in p
    ensures FindChar(p + q, c) == |p| + FindChar(q, c)
    decreases |p|
  {
    if p != [] {
      var s := p + q;
      assert s[0] == p[0] && p[0] in p;
      assert s[1..] == p[1..] + q;
      FindCharAfter(p[1..], q, c);
      assert FindChar(s, c) == FindChar(s[1..], c) + 1;
    } else {
      assert p + q == q;
    }
  }

  /** Replacing the first `c` after a prefix without `c` leaves the prefix alone. */
  lemma ReplaceFirstAfter(p: string, q: string, c: char, rep: string)
    requires c !in p
    ensures ReplaceFirst(p + q, c, rep) == p + ReplaceFirst(q, c, rep)
  {
    FindCharAfter(p, q, c);
    if FindChar(q, c) < |q| {
      ReplacedAfter(p, q, c, rep);
    } else {
      NotReplacedAfter(p, q, c, rep);
    }
  }

  lemma ReplacedAfter(p: string, q: string, c: char, rep: string)
    requires FindChar(p + q, c) == |p| + FindChar(q, c) && FindChar(q, c) < |q|
    ensures ReplaceFirst(p + q, c, rep) == p + ReplaceFirst(q, c, rep)
  {
    SlicesAfter(p, q, FindChar(q, c), rep);
  }

  lemma NotReplacedAfter(p: string, q: string, c: char, rep: string)
    requires FindChar(p + q, c) == |p| + FindChar(q, c) && FindChar(q, c) == |q|
    ensures ReplaceFirst(p + q, c, rep) == p + ReplaceFirst(q, c, rep)
  {
    assert |p + q| == |p| + |q|;
  }

  lemma SlicesAfter(p: string, q: string, i: nat, rep: string)
    requires i < |q|
    ensures (p + q)[..|p| + i] + rep + (p + q)[|p| + i + 1..] == p + (q[..i] + rep + q[i + 1..])
  {
    assert (p + q)[..|p| + i] == p + q[..i];
    assert (p + q)[|p| + i + 1..] == q[i + 1..];
  }

  /** `s.replace(/c/g, d)`: every occurrence of `c` becomes `d`. */
  function ReplaceAll(s: string, c: char, d: char): (r: string)
    ensures |r| == |s|
    ensures forall i :: 0 <= i < |s| ==> r[i] == if s[i] == c then d else s[i]
  {
    seq(|s|, i requires 0 <= i < |s| => if s[i] == c then d else s[i])
  }

  lemma ReplaceAllConcat(a: string, b: string, c: char, d: char)
    ensures ReplaceAll(a + b, c, d) == ReplaceAll(a, c, d) + ReplaceAll(b, c, d)
  {
    var r := ReplaceAll(a + b, c, d);
    assert forall i :: 0 <= i < |a| ==> r[i] == ReplaceAll(a, c, d)[i];
    assert forall i :: |a| <= i < |r| ==> r[i] == ReplaceAll(b, c, d)[i - |a|];
  }

  /** Replacing every `c` by a `d` that did not occur, then splitting at `d`, is splitting at `c`. */
  lemma {:induction false} SplitReplaceAll(s: string, c: char, d: char)
    requires d !in s
    ensures Split(ReplaceAll(s, c, d), d) == Split(s, c)
    decreases |s|
  {
    var i := FindChar(s, c);
    if i == |s| {
      assert ReplaceAll(s, c, d) == s;
      SplitNone(s, c);
      SplitNone(s, d);
    } else {
      var s1, s2 := s[..i], s[i + 1..];
      assert s == s1 + [c] + s2 by { assert s[i] == c; }
      ReplaceAllConcat(s1 + [c], s2, c, d);
      ReplaceAllConcat(s1, [c], c, d);
      assert ReplaceAll(s1, c, d) == s1;
      assert ReplaceAll([c], c, d) == [d];
      assert d !in s2 by { assert forall k :: 0 <= k < |s2| ==> s2[k] == s[i + 1 + k]; }
      assert d !in s1;
      SplitReplaceAll(s2, c, d);
      SplitCons(s1, c, s2);
      SplitCons(s1, d, ReplaceAll(s2, c, d));
    }
  }

  /** `toLowerCase()`, on the ASCII letters. */
  function LowerChar(c: char): char {
    if 'A' <= c <= 'Z' then (c as int - 'A' as int + 'a' as int) as char else c
  }

  function ToLower(s: string): (r: string)
    ensures |r| == |s|
    ensures forall i :: 0 <= i < |s| ==> r[i] == LowerChar(s[i])
  {
    seq(|s|, i requires 0 <= i < |s| => LowerChar(s[i]))
  }

  /** `a < b` on strings: lexicographic by character, a proper prefix being smaller. */
  predicate Less(a: string, b: string)
    decreases |a|
  {
    if b == [] then false
    else if a == [] then true
    else if a[0] != b[0] then a[0] < b[0]
    else Less(a[1..], b[1..])
  }

  lemma {:induction false} LessIrreflexive(a: string)
    ensures !Less(a, a)
    decreases |a|
  {
    if a != [] {
      LessIrreflexive(a[1..]);
    }
  }

  lemma {:induction false} LessAsymmetric(a: string, b: string)
    requires Less(a, b)
    ensures !Less(b, a)
    decreases |a|
  {
    if a != [] && b != [] && a[0] == b[0] {
      LessAsymmetric(a[1..], b[1..]);
    }
  }

  lemma {:induction false} LessTotal(a: string, b: string)
    requires a != b
    ensures Less(a, b) || Less(b, a)
    decreases |a|
  {
    if a != [] && b != [] && a[0] == b[0] {
      assert a == [a[0]] + a[1..] && b == [b[0]] + b[1..];
      LessTotal(a[1..], b[1..]);
    }
  }

  lemma {:induction false} LessTransitive(a: string, b: string, c: string)
    requires Less(a, b) && Less(b, c)
    ensures Less(a, c)
    decreases |a|
  {
    if a != [] && a[0] == b[0] && b[0] == c[0] {
      LessTransitive(a[1..], b[1..], c[1..]);
    }
  }

  /** Comparing two strings of the same length extended by one character each. */
  lemma {:induction false} LessAppend(a: string, b: string, x: char, y: char)
    requires |a| == |b|
    ensures Less(a + [x], b + [y]) <==> Less(a, b) || (a == b && x < y)
    decreases |a|
  {
    if a == [] {
      assert a + [x] == [x] && b + [y] == [y];
    } else {
      assert (a + [x])[0] == a[0] && (b + [y])[0] == b[0];
      assert (a + [x])[1..] == a[1..] + [x] && (b + [y])[1..] == b[1..] + [y];
      LessAppend(a[1..], b[1..], x, y);
      if a[0] == b[0] {
        assert a == [a[0]] + a[1..] && b == [b[0]] + b[1..];
      }
    }
  }

  /** `a.localeCompare(b)`, taken as the lexicographic order: -1, 0 or 1. */
  function LocaleCompare(a: string, b: string): (r: int)
    ensures r == 0 <==> a == b
    ensures r == -1 <==> Less(a, b)
    ensures r == 1 <==> Less(b, a)
  {
    if a == b then (LessIrreflexive(a); 0)
    else if Less(a, b) then (LessAsymmetric(a, b); -1)
    else (LessTotal(a, b); 1)
  }

  predicate IsAsciiDigit(c: char) {
    '0' <= c <= '9'
  }

  /** `/^\d+$/.test(s)` */
  predicate IsDigits(s: string) {
    |s| > 0 && forall i :: 0 <= i < |s| ==> IsAsciiDigit(s[i])
  }

  /** `parseInt(s)` of a digit string: its decimal value. */
  function DecimalValue(s: string): nat
    requires forall i :: 0 <= i < |s| ==> IsAsciiDigit(s[i])
  {
    if s == [] then 0
    else
      var last := s[|s| - 1];
      assert IsAsciiDigit(last);
      DecimalValue(s[..|s| - 1]) * 10 + (last as int - '0' as int)
  }

  function DigitChar(d: nat): (c: char)
    requires d < 10
    ensures IsAsciiDigit(c)
  {
    ('0' as int + d) as char
  }

  /** `${n}` for a natural number: its decimal digits without leading zeros. */
  function NatToString(n: nat): (r: string)
    ensures |r| >= 1
    ensures forall i :: 0 <= i < |r| ==> IsAsciiDigit(r[i])
  {
    if n < 10 then [DigitChar(n)] else NatToString(n / 10) + [DigitChar(n % 10)]
  }

  /** `parseInt` reads back what `${n}` writes. */
  lemma {:induction false} DecimalValueOfNatToString(n: nat)
    ensures DecimalValue(NatToString(n)) == n
  {
    if n >= 10 {
      var t := NatToString(n / 10);
      var s := t + [DigitChar(n % 10)];
      assert s[..|s| - 1] == t;
      DecimalValueOfNatToString(n / 10);
    }
  }

  lemma NatToStringHasNo(n: nat, c: char)
    requires !IsAsciiDigit(c)
    ensures c !in NatToString(n)
  {
  }

  /** `${n}` for an integer that may be negative. */
  function IntToString(n: int): string {
    if n < 0 then "-" + NatToString(-n) else NatToString(n)
  }

  function Repeat(c: char, n: nat): (r: string)
    ensures |r| == n && forall i :: 0 <= i < n ==> r[i] == c
  {
    seq(n, _ => c)
  }

  /** `s.padStart(width, c)` */
  function PadStart(s: string, width: nat, c: char): (r: string)
    ensures |s| >= width ==> r == s
    ensures |s| < width ==> |r| == width && r == Repeat(c, width - |s|) + s
  {
    if |s| >= width then s else Repeat(c, width - |s|) + s
  }

  function Pow10(w: nat): (p: nat)
    ensures p >= 1
  {
    if w == 0 then 1 else 10 * Pow10(w - 1)
  }

  /** The `w`-digit decimal representation of `n`, with leading zeros. */
  function FixedDigits(n: nat, w: nat): (r: string)
    ensures |r| == w
  {
    if w == 0 then [] else FixedDigits(n / 10, w - 1) + [DigitChar(n % 10)]
  }

  lemma {:induction false} FixedDigitsZero(w: nat)
    ensures FixedDigits(0, w) == Repeat('0', w)
  {
    if w > 0 {
      FixedDigitsZero(w - 1);
    }
  }

  /** Zero-padding `${n}` to `w` characters gives the `w`-digit representation. */
  lemma {:induction false} PadStartIsFixedDigits(n: nat, w: nat)
    requires 1 <= w && n < Pow10(w)
    ensures PadStart(NatToString(n), w, '0') == FixedDigits(n, w)
  {
    if n < 10 {
      FixedDigitsZero(w - 1);
      assert FixedDigits(n, w) == FixedDigits(0, w - 1) + [DigitChar(n)];
    } else {
      assert w >= 2;
      PadStartIsFixedDigits(n / 10, w - 1);
      var t := NatToString(n / 10);
      if |t| < w - 1 {
        assert Repeat('0', w - 1 - |t|) + (t + [DigitChar(n % 10)])
            == (Repeat('0', w - 1 - |t|) + t) + [DigitChar(n % 10)];
        assert Repeat('0', w - |t + [DigitChar(n % 10)]|) == Repeat('0', w - 1 - |t|);
      }
    }
  }

  lemma {:induction false} FixedDigitsInjective(i: nat, j: nat, w: nat)
    requires i < Pow10(w) && j < Pow10(w) && FixedDigits(i, w) == FixedDigits(j, w)
    ensures i == j
  {
    if w > 0 {
      var a, b := FixedDigits(i / 10, w - 1), FixedDigits(j / 10, w - 1);
      assert FixedDigits(i, w)[..w - 1] == a && FixedDigits(j, w)[..w - 1] == b;
      assert FixedDigits(i, w)[w - 1] == DigitChar(i % 10);
      assert FixedDigits(j, w)[w - 1] == DigitChar(j % 10);
      FixedDigitsInjective(i / 10, j / 10, w - 1);
    }
  }

  /** On `w`-digit representations the string order is the numeric order. */
  lemma {:induction false} FixedDigitsOrder(i: nat, j: nat, w: nat)
    requires i < Pow10(w) && j < Pow10(w)
    ensures Less(FixedDigits(i, w), FixedDigits(j, w)) <==> i < j
  {
    if w == 0 {
    } else {
      var a, b := FixedDigits(i / 10, w - 1), FixedDigits(j / 10, w - 1);
      LessAppend(a, b, DigitChar(i % 10), DigitChar(j % 10));
      FixedDigitsOrder(i / 10, j / 10, w - 1);
      if a == b {
        FixedDigitsInjective(i / 10, j / 10, w - 1);
      }
    }
  }

  /** Zero-padded decimal indices sort as strings in numeric order. */
  lemma PaddedIndexOrder(i: nat, j: nat, w: nat)
    requires 1 <= w && i < Pow10(w) && j < Pow10(w)
    ensures Less(PadStart(NatToString(i), w, '0'), PadStart(NatToString(j), w, '0')) <==> i < j
  {
    PadStartIsFixedDigits(i, w);
    PadStartIsFixedDigits(j, w);
    FixedDigitsOrder(i, j, w);
  }
}
