/** An older copy of the cursor scans. Each scan here is proved to return exactly what the
    scan of the same name in `TextHelper` returns with its default delimiter test. */
module CompletionHelper {
  import opened Text
  import opened Editor
  import TextHelper

  /** `/^[\s,]$/.test(c)`, the same pattern as in `TextHelper`. */
  predicate IsDelimiter(c: string) {
    |c| == 1 && (IsWhitespace(c[0]) || c[0] == ',')
  }

  /** Both copies of the delimiter test agree on every string. */
  lemma SameDelimiter()
    ensures forall c :: IsDelimiter(c) == TextHelper.IsDelimiter(c)
  {
  }

  /** `findStartPosition(lineText, position, directive)` */
  method FindStartPosition(lineText: string, position: Position, directive: string) returns (p: Position)
    ensures p == TextHelper.StartPosition(lineText, position, directive, TextHelper.IsDelimiter)
  {
    SameDelimiter();
    var i: int := position.character;
    while i > -1
      invariant -1 <= i <= position.character
      invariant TextHelper.LastAtOrBefore(lineText, position.character, TextHelper.IsDelimiter)
             == TextHelper.LastAtOrBefore(lineText, i, TextHelper.IsDelimiter)
      decreases i + 1
    {
      if IsDelimiter(CharAt(lineText, i)) {
        return Position(position.line, i + 1);
      }
      i := i - 1;
    }
    return Position(position.line, |directive|);
  }

  /** `findEndPosition(lineText, position)` */
  method FindEndPosition(lineText: string, position: Position) returns (p: Position)
    ensures p == TextHelper.EndPosition(lineText, position)
  {
    SameDelimiter();
    var i := position.character;
    while i < |lineText|
      invariant position.character <= i
      invariant TextHelper.FirstFrom(lineText, position.character, TextHelper.IsDelimiter)
             == TextHelper.FirstFrom(lineText, i, TextHelper.IsDelimiter)
      decreases |lineText| - i
    {
      if IsDelimiter(CharAt(lineText, i)) {
        return Position(position.line, i);
      }
      i := i + 1;
    }
    return Position(position.line, |lineText|);
  }

  /** `findVersionPosition(lineText, position)` */
  method FindVersionPosition(lineText: string, position: Position) returns (p: Position)
    ensures p == TextHelper.AfterLast(lineText, position, TextHelper.IsColon)
  {
    var i: int := position.character;
    while i > -1
      invariant -1 <= i <= position.character
      invariant TextHelper.LastAtOrBefore(lineText, position.character, TextHelper.IsColon)
             == TextHelper.LastAtOrBefore(lineText, i, TextHelper.IsColon)
      decreases i + 1
    {
      var c := CharAt(lineText, i);
      if ":" == c {
        return Position(position.line, i + 1);
      }
      i := i - 1;
    }
    return position;
  }

  /** `findSegmentPosition(lineText, position)` */
  method FindSegmentPosition(lineText: string, position: Position) returns (p: Position)
    ensures p == TextHelper.AfterLast(lineText, position, TextHelper.IsSlash)
  {
    var i: int := position.character;
    while i > -1
      invariant -1 <= i <= position.character
      invariant TextHelper.LastAtOrBefore(lineText, position.character, TextHelper.IsSlash)
             == TextHelper.LastAtOrBefore(lineText, i, TextHelper.IsSlash)
      decreases i + 1
    {
      var c := CharAt(lineText, i);
      if "/" == c {
        return Position(position.line, i + 1);
      }
      i := i - 1;
    }
    return position;
  }
}
