/** The original `//DEPS` completion provider: in a JBang file, on a `//DEPS ` line, it
    searches Maven Central for the coordinate being typed and offers artifacts or versions. */
module CompletionProvider {
  import opened Wrappers
  import opened Text
  import opened Editor
  import opened Search
  import JBangUtils
  import TextHelper

  const DEPS_PREFIX: string := "//DEPS "

  /** `findCurrentWord`: the text between the last delimiter at or before the cursor and the
      cursor, untrimmed, starting just after that delimiter; with no such delimiter, the
      trimmed text between the end of `//DEPS ` and the cursor, starting at column 7. */
  function CurrentWord(lineText: string, position: Position): (r: (string, Position))
    ensures r.1 == TextHelper.StartPosition(lineText, position, DEPS_PREFIX, TextHelper.IsDelimiter)
    ensures r.1.character == |DEPS_PREFIX| || TextHelper.IsDelimiter(CharAt(lineText, r.1.character - 1))
  {
    var i := TextHelper.LastAtOrBefore(lineText, position.character, TextHelper.IsDelimiter);
    if i >= 0 then (Substring(lineText, i + 1, position.character), Position(position.line, i + 1))
    else (Trim(Substring(lineText, |DEPS_PREFIX|, position.character)), Position(position.line, |DEPS_PREFIX|))
  }

  /** `findCurrentWord(lineText, position)` */
  method FindCurrentWord(lineText: string, position: Position) returns (candidate: string, startPosition: Position)
    ensures (candidate, startPosition) == CurrentWord(lineText, position)
  {
    candidate := Trim(Substring(lineText, |DEPS_PREFIX|, position.character));
    startPosition := Position(position.line, |DEPS_PREFIX|);
    var i: int := position.character;
    while i > -1
      invariant -1 <= i <= position.character
      invariant TextHelper.LastAtOrBefore(lineText, position.character, TextHelper.IsDelimiter)
             == TextHelper.LastAtOrBefore(lineText, i, TextHelper.IsDelimiter)
      decreases i + 1
    {
      var c := CharAt(lineText, i);
      if TextHelper.IsDelimiter(c) {
        var nonDelimIdx := i + 1;
        candidate := Substring(lineText, nonDelimIdx, position.character);
        startPosition := Position(position.line, nonDelimIdx);
        return;
      }
      i := i - 1;
    }
  }

  /** On a `//DEPS ` line with the cursor at column 6 or later the space at column 6 is always
      found, so the trimmed fallback is never taken: the word is the untrimmed text from a
      column of at least 7 up to the cursor. */
  lemma FallbackUnreachable(lineText: string, position: Position)
    requires StartsWith(lineText, DEPS_PREFIX) && position.character >= 6
    ensures var (word, start) := CurrentWord(lineText, position);
      start.character >= 7 && word == Substring(lineText, start.character, position.character)
  {
    assert lineText[6] == ' ';
    assert TextHelper.IsDelimiter(CharAt(lineText, 6));
  }

  /** With the cursor on a delimiter inside the line, `substring(i + 1, i)` swaps its bounds,
      so the word is that delimiter itself and starts after it. */
  lemma CursorOnDelimiter(lineText: string, position: Position)
    requires position.character < |lineText| && TextHelper.IsDelimiter(CharAt(lineText, position.character))
    ensures CurrentWord(lineText, position)
         == ([lineText[position.character]], Position(position.line, position.character + 1))
  {
    var c := position.character;
    assert TextHelper.LastAtOrBefore(lineText, c, TextHelper.IsDelimiter) == c;
    assert Clamp(c + 1, |lineText|) == c + 1 && Clamp(c, |lineText|) == c;
    assert Substring(lineText, c + 1, c) == lineText[c..c + 1] == [lineText[c]];
  }

  /** `findEndPosition(lineText, position)` */
  method FindEndPosition(lineText: string, position: Position) returns (p: Position)
    ensures p == TextHelper.EndPosition(lineText, position)
  {
    var i := position.character;
    while i < |lineText|
      invariant position.character <= i
      invariant TextHelper.FirstFrom(lineText, position.character, TextHelper.IsDelimiter)
             == TextHelper.FirstFrom(lineText, i, TextHelper.IsDelimiter)
      decreases |lineText| - i
    {
      if TextHelper.IsDelimiter(CharAt(lineText, i)) {
        return Position(position.line, i);
      }
      i := i + 1;
    }
    return Position(position.line, |lineText|);
  }

  /** `findVersionPosition(lineText, position)` */
  method FindVersionPosition(lineText: string, position: Position) returns (p: Position)
    ensures p == TextHelper.AfterLast(lineText, position, TextHelper.IsColon)
  {
    var i: int := position.character;
    while i > -1
      invariant -1 <= i <= position.character
      invariant TextHelper.LastAtOrBefore(lineText, position.character, TextHelper.IsColon)
             == TextHelper.LastAtOrBefore(lineText, i, TextHelper.IsColon)
      decreases i + 1
    {
      if ":" == CharAt(lineText, i) {
        return Position(position.line, i + 1);
      }
      i := i - 1;
    }
    return position;
  }

  /** `toCompletionItem(gav, index, range)`: the coordinate `g:a:version` as label and
      insert text, the decimal index as sort text. */
  function ToCompletionItem(gav: Doc, index: nat, range: Range): (r: CompletionItem)
    ensures r.kind == ModuleItem && r.range == Some(range)
    ensures r.insertText == Some(Plain(r.labelText))
    ensures StartsWith(r.labelText, gav.g + ":" + gav.a + ":") && EndsWith(r.labelText, ChosenVersion(gav))
    ensures |r.labelText| == |gav.g| + |gav.a| + 2 + |ChosenVersion(gav)|
    ensures r.sortText.Some? && IsDigits(r.sortText.value) && DecimalValue(r.sortText.value) == index
  {
    DecimalValueOfNatToString(index);
    var labelText := ArtifactLabel(gav);
    CompletionItem(labelText, ModuleItem, Some(Plain(labelText)), None, Some(range), None,
                   Some(NatToString(index)), None)
  }

  /** `toVersionCompletionItem(gav, index, range)`: the version as label; the sort text is
      the document's age in milliseconds at time `now`. */
  function ToVersionCompletionItem(now: int, gav: Doc, index: nat, range: Range): (r: CompletionItem)
    ensures r.kind == ValueItem && r.range == Some(range) && r.labelText == gav.v
    ensures r.insertText.None? && r.sortText.Some?
    ensures now >= gav.timestamp ==>
      IsDigits(r.sortText.value) && DecimalValue(r.sortText.value) == now - gav.timestamp
  {
    var item := CompletionItem(gav.v, ValueItem, None, None, Some(range), None,
                               Some(IntToString(now - gav.timestamp)), None);
    if now >= gav.timestamp then (DecimalValueOfNatToString(now - gav.timestamp); item) else item
  }

  /** Version items sort by the text of their age, not by its value: a document 10 ms old
      sorts before one 9 ms old. */
  lemma AgeSortsAsText(now: int, older: Doc, newer: Doc, range: Range)
    requires now - older.timestamp == 10 && now - newer.timestamp == 9
    ensures Less(ToVersionCompletionItem(now, older, 0, range).sortText.value,
                 ToVersionCompletionItem(now, newer, 1, range).sortText.value)
  {
    assert NatToString(10) == NatToString(1) + [DigitChar(0)];
    assert NatToString(1) == ['1'] && NatToString(9) == ['9'];
    assert Less("10", "9");
  }

  /** `toCompletionList(response, range, mapper)`: one item per document, in document
      order; incomplete when the service found more than it returned. */
  method ToCompletionList(response: Response, range: Range, mapper: (Doc, nat, Range) -> CompletionItem)
    returns (result: CompletionList)
    ensures |result.items| == |response.docs|
    ensures forall i :: 0 <= i < |response.docs| ==> result.items[i] == mapper(response.docs[i], i, range)
    ensures result.isIncomplete <==> NumFound(response) > |result.items|
  {
    var items: seq<CompletionItem> := [];
    var index := 0;
    while index < |response.docs|
      invariant 0 <= index <= |response.docs|
      invariant |items| == index
      invariant forall i :: 0 <= i < index ==> items[i] == mapper(response.docs[i], i, range)
    {
      var gav := response.docs[index];
      items := items + [mapper(gav, index, range)];
      index := index + 1;
    }
    var numFound := NumFound(response);
    result := CompletionList(items, numFound > |items|);
  }

  /** What `provideCompletionItems` returns: a bare item array or a completion list. */
  datatype Completions = Items(items: seq<CompletionItem>) | List(list: CompletionList)

  /** The mapper for version results at time `now`. */
  function VersionMapper(now: int): (Doc, nat, Range) -> CompletionItem {
    (gav: Doc, index: nat, range: Range) => ToVersionCompletionItem(now, gav, index, range)
  }

  /** `list` holds one item per document of `json`, made by `mapper` over `range`, and is
      incomplete iff the service found more. */
  ghost predicate ListOf(list: CompletionList, json: Response, range: Range, mapper: (Doc, nat, Range) -> CompletionItem) {
    && |list.items| == |json.docs|
    && (forall i :: 0 <= i < |json.docs| ==> list.items[i] == mapper(json.docs[i], i, range))
    && (list.isIncomplete <==> NumFound(json) > |json.docs|)
  }

  /** The parts of the coordinate typed at the cursor. */
  function WordParts(lineText: string, position: Position): seq<string> {
    Split(CurrentWord(lineText, position).0, ':')
  }

  /** `list` holds the search results for the coordinate typed at the cursor: artifact items
      over the word for one or two parts, version items after the last `:` for three or four. */
  ghost predicate Answers(list: CompletionList, lineText: string, position: Position, now: int,
                          search: Query -> Option<Response>)
    requires HasDocs(Lookup(WordParts(lineText, position), search))
  {
    var parts := WordParts(lineText, position);
    var json := Lookup(parts, search).value;
    var end := TextHelper.EndPosition(lineText, position);
    && 1 <= |parts| <= 4
    && (|parts| <= 2 ==> ListOf(list, json, Range(CurrentWord(lineText, position).1, end), ToCompletionItem))
    && (|parts| >= 3 ==> ListOf(list, json, Range(TextHelper.AfterLast(lineText, position, TextHelper.IsColon), end),
                                VersionMapper(now)))
  }

  /** `provideCompletionItems(document, position)` for a document with text `text` whose
      line at the cursor is `lineText`; `search` answers the query, and `now` is the clock. */
  method ProvideCompletionItems(text: string, lineText: string, position: Position, now: int,
                                search: Query -> Option<Response>)
    returns (r: Completions)
    ensures !JBangUtils.IsJBangFile(JBangUtils.Whole(text)) ==> r == Items([])
    ensures !StartsWith(lineText, DEPS_PREFIX) ==> r == Items([])
    ensures r.Items? ==> r.items == []
    ensures r.List? <==> JBangUtils.IsJBangFile(JBangUtils.Whole(text)) && StartsWith(lineText, DEPS_PREFIX)
                         && HasDocs(Lookup(WordParts(lineText, position), search))
    ensures r.List? ==> HasDocs(Lookup(WordParts(lineText, position), search))
                        && Answers(r.list, lineText, position, now, search)
  {
    if !JBangUtils.IsJBangFile(JBangUtils.Whole(text)) {
      return Items([]);
    }
    if !StartsWith(lineText, DEPS_PREFIX) {
      return Items([]);
    }
    var list := DepsCompletions(lineText, position, now, search);
    return if list.Some? then List(list.value) else Items([]);
  }

  /** The search and the list built from its answer, on a `//DEPS ` line. */
  method DepsCompletions(lineText: string, position: Position, now: int, search: Query -> Option<Response>)
    returns (r: Option<CompletionList>)
    ensures r.Some? <==> HasDocs(Lookup(WordParts(lineText, position), search))
    ensures r.Some? ==> HasDocs(Lookup(WordParts(lineText, position), search))
                        && Answers(r.value, lineText, position, now, search)
  {
    var currText, start := FindCurrentWord(lineText, position);
    var parts := Split(currText, ':');
    var json := Lookup(parts, search);
    if !HasDocs(json) {
      return None;
    }
    var end := FindEndPosition(lineText, position);
    var result: CompletionList;
    if |parts| <= 2 {
      result := ToCompletionList(json.value, Range(start, end), ToCompletionItem);
    } else {
      // three or four parts: five or more select no search, so there are no documents
      var versionStart := FindVersionPosition(lineText, position);
      result := ToCompletionList(json.value, Range(versionStart, end), VersionMapper(now));
    }
    return Some(result);
  }
}
