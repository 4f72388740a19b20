/** Cursor scans over one line of text: where the word under the cursor starts and ends,
    where a version starts after the last `:`, where a path segment starts after the last
    `/`, and the word around an index. */
module TextHelper {
  import opened Wrappers
  import opened Text
  import opened Editor

  /** `/^[\s,]$/.test(c)`: `c` is exactly one whitespace character or a comma. */
  predicate IsDelimiter(c: string) {
    |c| == 1 && (IsWhitespace(c[0]) || c[0] == ',')
  }

  /** The empty string, which `charAt` gives outside the line, is no delimiter. */
  lemma EmptyIsNoDelimiter()
    ensures !IsDelimiter("")
    ensures forall s: string, i: int :: !(0 <= i < |s|) ==> !IsDelimiter(CharAt(s, i))
  {
  }

  /** `":" === c` */
  predicate IsColon(c: string) {
    c == ":"
  }

  /** `"/" === c` */
  predicate IsSlash(c: string) {
    c == "/"
  }

  /** The last index in `[0, from]` whose character passes `test`, or -1. */
  function LastAtOrBefore(s: string, from: int, test: string -> bool): (r: int)
    ensures from < 0 ==> r == -1
    ensures from >= 0 ==> -1 <= r <= from
    ensures r >= 0 ==> test(CharAt(s, r))
    ensures forall i :: r < i <= from ==> !test(CharAt(s, i))
    decreases if from < 0 then 0 else from + 1
  {
    if from < 0 then -1
    else if test(CharAt(s, from)) then from
    else LastAtOrBefore(s, from - 1, test)
  }

  /** The first index in `[from, |s|)` whose character passes `test`, or `|s|`. */
  function FirstFrom(s: string, from: nat, test: string -> bool): (r: nat)
    ensures from <= |s| ==> from <= r <= |s|
    ensures from > |s| ==> r == |s|
    ensures r < |s| ==> test(CharAt(s, r))
    ensures forall i :: from <= i < r ==> !test(CharAt(s, i))
    decreases |s| - from
  {
    if from >= |s| then |s|
    else if test(CharAt(s, from)) then from
    else FirstFrom(s, from + 1, test)
  }

  /** Where the word under the cursor starts: just after the last delimiter at or before the
      cursor, with no delimiter between it and the cursor, or at the end of the directive
      when no delimiter precedes the cursor. */
  function StartPosition(lineText: string, position: Position, directive: string, test: string -> bool): (p: Position)
    ensures p.line == position.line
    ensures var c := p.character;
      || (1 <= c <= position.character + 1 && test(CharAt(lineText, c - 1))
          && forall i :: c <= i <= position.character ==> !test(CharAt(lineText, i)))
      || (c == |directive| && forall i :: 0 <= i <= position.character ==> !test(CharAt(lineText, i)))
  {
    var i := LastAtOrBefore(lineText, position.character, test);
    Position(position.line, if i >= 0 then i + 1 else |directive|)
  }

  /** Where the word under the cursor ends: the first delimiter at or after the cursor, or
      the end of the line, with no delimiter between the cursor and it. */
  function EndPosition(lineText: string, position: Position): (p: Position)
    ensures p.line == position.line
    ensures var c := p.character;
      (c < |lineText| ==> position.character <= c && (lineText[c] == ',' || IsWhitespace(lineText[c])))
      && (c == |lineText| || position.character <= c)
      && forall i :: position.character <= i < c ==> !IsDelimiter(CharAt(lineText, i))
  {
    Position(position.line, FirstFrom(lineText, position.character, IsDelimiter))
  }

  /** Just after the last `test` character at or before the cursor, with none between it and
      the cursor; the cursor itself when there is none. */
  function AfterLast(lineText: string, position: Position, test: string -> bool): (p: Position)
    ensures p.line == position.line
    ensures p == position || (1 <= p.character <= position.character + 1 && test(CharAt(lineText, p.character - 1)))
    ensures forall i :: p.character <= i <= position.character ==> !test(CharAt(lineText, i))
  {
    var i := LastAtOrBefore(lineText, position.character, test);
    if i >= 0 then Position(position.line, i + 1) else position
  }

  /** `findStartPosition(lineText, position, directive, delimiterFunc)`; the delimiter test
      defaults to `isDelimiter`. */
  method FindStartPosition(lineText: string, position: Position, directive: string, delimiterFunc: Option<string -> bool>)
    returns (p: Position)
    ensures p == StartPosition(lineText, position, directive,
                               if delimiterFunc.Some? then delimiterFunc.value else IsDelimiter)
  {
    var test: string -> bool := if delimiterFunc.Some? then delimiterFunc.value else IsDelimiter;
    var i: int := position.character;
    while i > -1
      invariant -1 <= i <= position.character
      invariant LastAtOrBefore(lineText, position.character, test) == LastAtOrBefore(lineText, i, test)
      decreases i + 1
    {
      if test(CharAt(lineText, i)) {
        return Position(position.line, i + 1);
      }
      i := i - 1;
    }
    return Position(position.line, |directive|);
  }

  /** `findEndPosition(lineText, position)` */
  method FindEndPosition(lineText: string, position: Position) returns (p: Position)
    ensures p == EndPosition(lineText, position)
  {
    var i := position.character;
    while i < |lineText|
      invariant position.character <= i
      invariant FirstFrom(lineText, position.character, IsDelimiter) == FirstFrom(lineText, i, IsDelimiter)
      decreases |lineText| - i
    {
      if IsDelimiter(CharAt(lineText, i)) {
        return Position(position.line, i);
      }
      i := i + 1;
    }
    return Position(position.line, |lineText|);
  }

  /** The backward scan shared by `findVersionPosition` and `findSegmentPosition`. */
  method ScanBackAfter(lineText: string, position: Position, test: string -> bool) returns (p: Position)
    ensures p == AfterLast(lineText, position, test)
  {
    var i: int := position.character;
    while i > -1
      invariant -1 <= i <= position.character
      invariant LastAtOrBefore(lineText, position.character, test) == LastAtOrBefore(lineText, i, test)
      decreases i + 1
    {
      if test(CharAt(lineText, i)) {
        return Position(position.line, i + 1);
      }
      i := i - 1;
    }
    return position;
  }

  /** `findVersionPosition(lineText, position)`: just after the last `:` at or before the cursor. */
  method FindVersionPosition(lineText: string, position: Position) returns (p: Position)
    ensures p == AfterLast(lineText, position, IsColon)
  {
    p := ScanBackAfter(lineText, position, IsColon);
  }

  /** `findSegmentPosition(lineText, position)`: just after the last `/` at or before the cursor. */
  method FindSegmentPosition(lineText: string, position: Position) returns (p: Position)
    ensures p == AfterLast(lineText, position, IsSlash)
  {
    p := ScanBackAfter(lineText, position, IsSlash);
  }

  /** The version start follows the last `:` at or before the cursor; with no `:` it is the
      cursor. */
  lemma AfterLastColonMeaning(lineText: string, position: Position)
    ensures var p := AfterLast(lineText, position, IsColon);
      && p.line == position.line
      && (p == position || (1 <= p.character <= position.character + 1 && lineText[p.character - 1] == ':'))
      && forall i :: p.character <= i <= position.character && i < |lineText| ==> lineText[i] != ':'
  {
    var p := AfterLast(lineText, position, IsColon);
    forall i | p.character <= i <= position.character && i < |lineText| ensures lineText[i] != ':' {
      assert CharAt(lineText, i) == [lineText[i]];
    }
  }

  /** `getTextAt(lineText, index)`: the word around `index`, or undefined when `index` is
      outside the line or on a delimiter. */
  method GetTextAt(lineText: string, index: int) returns (r: Option<string>)
    ensures r.None? <==> index < 0 || index > |lineText| - 1 || IsDelimiter(CharAt(lineText, index))
    ensures r.Some? ==> exists a, b :: WordAround(lineText, index, a, b) && r.value == lineText[a..b]
  {
    if index < 0 || index > |lineText| - 1 || IsDelimiter(CharAt(lineText, index)) {
      return None;
    }
    var before := "";
    var after := "";
    var i: int := index;
    while i > -1
      invariant -1 <= i <= index
      invariant before == lineText[i + 1..index + 1]
      invariant forall k :: i < k <= index ==> !IsDelimiter(CharAt(lineText, k))
      decreases i + 1
    {
      var c := CharAt(lineText, i);
      if IsDelimiter(c) {
        break;
      }
      before := c + before;
      i := i - 1;
    }
    var a := i + 1;
    var j := index + 1;
    while j < |lineText|
      invariant index + 1 <= j <= |lineText|
      invariant after == lineText[index + 1..j]
      invariant forall k :: index < k < j ==> !IsDelimiter(CharAt(lineText, k))
      decreases |lineText| - j
    {
      var c := CharAt(lineText, j);
      if IsDelimiter(c) {
        break;
      }
      after := after + c;
      j := j + 1;
    }
    assert WordAround(lineText, index, a, j);
    return Some(before + after);
  }

  /** `s[a..b]` is the maximal run of non-delimiters that contains `index`. */
  predicate WordAround(s: string, index: int, a: int, b: int) {
    && 0 <= a <= index < b <= |s|
    && (forall k :: a <= k < b ==> !IsDelimiter(CharAt(s, k)))
    && (a == 0 || IsDelimiter(CharAt(s, a - 1)))
    && (b == |s| || IsDelimiter(CharAt(s, b)))
  }

  /** There is only one maximal run around an index, so `getTextAt` is determined. */
  lemma WordAroundUnique(s: string, index: int, a: int, b: int, a': int, b': int)
    requires WordAround(s, index, a, b) && WordAround(s, index, a', b')
    ensures a == a' && b == b'
  {
  }
}
