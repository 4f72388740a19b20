/** The older `//DEPS ` completer: it searches Maven Central for every typed coordinate,
    the empty one included, and offers artifacts or versions without a save command. */
module DependencyCompletion {
  import opened Wrappers
  import opened Text
  import opened Editor
  import opened Search
  import TextHelper
  import CompletionHelper
  import CompletionProvider
  import Remote = RemoteDependencyCompletion

  const DEPS_PREFIX: string := "//DEPS "

  /** `applies(lineText)`: the line starts with `//DEPS `. */
  predicate Applies(lineText: string) {
    StartsWith(lineText, DEPS_PREFIX)
  }

  /** This completer and the remote one apply to the same lines. */
  lemma SameLinesAsRemote(lineText: string)
    ensures Applies(lineText) <==> Remote.Applies(lineText)
  {
    Remote.AppliesIff(lineText);
  }

  /** `toVersionCompletionItem(gav, index, range)`: the version as label, the index padded
      to ten digits as sort text. */
  function ToVersionCompletionItem(gav: Doc, index: nat, range: Range): (r: CompletionItem)
    ensures r.kind == ValueItem && r.range == Some(range) && r.labelText == gav.v
    ensures r.insertText.None? && r.command.None? && r.dependency.None?
    ensures r.sortText.Some? && |r.sortText.value| >= 10 && EndsWith(r.sortText.value, NatToString(index))
  {
    CompletionItem(gav.v, ValueItem, None, None, Some(range), None, Some(PaddedSortText(index)), None)
  }

  /** Version items sort as text in the order of their indices. */
  lemma VersionItemsKeepOrder(x: Doc, i: nat, y: Doc, j: nat, range: Range)
    requires i < 10000000000 && j < 10000000000
    ensures i < j <==> Less(ToVersionCompletionItem(x, i, range).sortText.value,
                            ToVersionCompletionItem(y, j, range).sortText.value)
  {
    PaddedSortTextOrder(i, j);
  }

  /** With nothing typed the completer still searches: the empty text is one empty part,
      which searches every name. */
  lemma EmptyTextSearchesAll(lineText: string, position: Position)
    requires Remote.CurrentText(lineText, position) == []
    ensures Remote.Parts(lineText, position) == [[]]
    ensures QueryFor(Remote.Parts(lineText, position)) == Some(SearchAll([]))
  {
    SplitNone([], ':');
  }

  /** `list` holds the answer's documents: artifact items over the typed word for one or two
      parts, version items after the last `:` for three or four. */
  ghost predicate Answers(list: CompletionList, lineText: string, position: Position, fetch: Query -> Option<Response>)
    requires HasDocs(Remote.Json(lineText, position, fetch))
  {
    var parts := Remote.Parts(lineText, position);
    var json := Remote.Json(lineText, position, fetch).value;
    var end := TextHelper.EndPosition(lineText, position);
    && 1 <= |parts| <= 4
    && (|parts| <= 2 ==> CompletionProvider.ListOf(list, json, Range(Remote.Start(lineText, position), end),
                                                   CompletionProvider.ToCompletionItem))
    && (|parts| >= 3 ==> CompletionProvider.ListOf(list, json,
                                                   Range(TextHelper.AfterLast(lineText, position, TextHelper.IsColon), end),
                                                   ToVersionCompletionItem))
  }

  /** `provideCompletionItems(document, position)` on the line `lineText`; `fetch` answers
      the searches. */
  method ProvideCompletionItems(lineText: string, position: Position, fetch: Query -> Option<Response>)
    returns (r: CompletionProvider.Completions)
    ensures !Applies(lineText) ==> r == CompletionProvider.Items([])
    ensures r.Items? ==> r.items == []
    ensures r.List? <==> Applies(lineText) && HasDocs(Remote.Json(lineText, position, fetch))
    ensures r.List? ==> HasDocs(Remote.Json(lineText, position, fetch)) && Answers(r.list, lineText, position, fetch)
  {
    if !Applies(lineText) {
      return CompletionProvider.Items([]);
    }
    var start := CompletionHelper.FindStartPosition(lineText, position, DEPS_PREFIX);
    var currText := Trim(Substring(lineText, start.character, position.character));
    var parts := Split(currText, ':');
    var json: Option<Response> := None;
    var q := QueryFor(parts);
    if q.Some? {
      json := RunSearch(q.value, fetch);
    }
    if !HasDocs(json) {
      return CompletionProvider.Items([]);
    }
    // five or more parts select no search, so an answer with documents has at most four
    var list := Listed(lineText, position, start, parts, json.value);
    return CompletionProvider.List(list);
  }

  /** The list built from an answer with documents. */
  method Listed(lineText: string, position: Position, start: Position, parts: seq<string>, json: Response)
    returns (r: CompletionList)
    requires start == Remote.Start(lineText, position) && parts == Remote.Parts(lineText, position)
    requires 1 <= |parts| <= 4
    ensures |parts| <= 2 ==> CompletionProvider.ListOf(r, json, Range(start, TextHelper.EndPosition(lineText, position)),
                                                       CompletionProvider.ToCompletionItem)
    ensures |parts| >= 3 ==> CompletionProvider.ListOf(r, json,
                                                       Range(TextHelper.AfterLast(lineText, position, TextHelper.IsColon),
                                                             TextHelper.EndPosition(lineText, position)),
                                                       ToVersionCompletionItem)
  {
    var end := CompletionHelper.FindEndPosition(lineText, position);
    if |parts| <= 2 {
      r := CompletionProvider.ToCompletionList(json, Range(start, end), CompletionProvider.ToCompletionItem);
    } else {
      var versionStart := CompletionHelper.FindVersionPosition(lineText, position);
      r := CompletionProvider.ToCompletionList(json, Range(versionStart, end), ToVersionCompletionItem);
    }
  }
}
