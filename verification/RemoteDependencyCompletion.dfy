/** The `//DEPS ` completer that searches Maven Central: it bails out on an empty or local
    (`.`-prefixed) coordinate, searches by the part count of the typed coordinate, and offers
    artifacts or versions, each item optionally carrying the save command. */
module RemoteDependencyCompletion {
  import opened Wrappers
  import opened Text
  import opened Editor
  import opened Search
  import Directives
  import Dependencies
  import TextHelper
  import CompletionProvider

  /** The `DEPS_PREFIX` the start scan falls back to. */
  const DEPS_PREFIX: string := "//DEPS "

  /** `applies(lineText)`: `DEPS.matches(lineText, true)`. */
  predicate Applies(lineText: string) {
    Directives.DEPS.Matches(lineText, true)
  }

  /** The completer applies exactly to the lines that start with `//DEPS `. */
  lemma AppliesIff(lineText: string)
    ensures Applies(lineText) <==> StartsWith(lineText, DEPS_PREFIX)
  {
    assert Directives.DEPS.Prefix() + " " == DEPS_PREFIX;
  }

  /** Where the typed coordinate starts: after the last delimiter at or before the cursor. */
  function Start(lineText: string, position: Position): Position {
    TextHelper.StartPosition(lineText, position, DEPS_PREFIX, TextHelper.IsDelimiter)
  }

  /** `lineText.substring(start.character, position.character).trim()` */
  function CurrentText(lineText: string, position: Position): string {
    Trim(Substring(lineText, Start(lineText, position).character, position.character))
  }

  /** An empty current text, or a local one starting with `.`, is not searched. */
  predicate Bails(currText: string) {
    currText == [] || StartsWith(currText, ".")
  }

  /** The parts of the current text. */
  function Parts(lineText: string, position: Position): seq<string> {
    Split(CurrentText(lineText, position), ':')
  }

  /** `{ command: JBANG_SAVE_SCRIPT, title: "Save", arguments: [document.uri] }` when saving on
      select is enabled; `saveScript` is the command's identifier. */
  function SaveCommand(saveOnSelect: bool, saveScript: string, uri: string): (c: Option<Command>)
    ensures c.Some? <==> saveOnSelect
    ensures c.Some? ==> c.value.command == saveScript && c.value.title == "Save" && c.value.arguments == [uri]
  {
    if saveOnSelect then Some(Command(saveScript, "Save", [uri])) else None
  }

  /** `toCompletionItem(gav, index, range, command)`: the coordinate `g:a:version` as label
      and insert text, the decimal index as sort text, and the coordinate parsed back from
      the label. */
  function ToCompletionItem(gav: Doc, index: nat, range: Range, command: Option<Command>): (r: CompletionItem)
    ensures r.kind == ModuleItem && r.range == Some(range) && r.command == command
    ensures r.insertText == Some(Plain(r.labelText))
    ensures StartsWith(r.labelText, gav.g + ":" + gav.a + ":") && EndsWith(r.labelText, ChosenVersion(gav))
    ensures |r.labelText| == |gav.g| + |gav.a| + 2 + |ChosenVersion(gav)|
    ensures r.sortText.Some? && IsDigits(r.sortText.value) && DecimalValue(r.sortText.value) == index
    ensures r.dependency.Some?
  {
    DecimalValueOfNatToString(index);
    var labelText := ArtifactLabel(gav);
    assert ':' in labelText by {
      var p := gav.g + ":" + gav.a + ":";
      assert labelText[..|p|] == p && p[|gav.g|] == ':';
      assert labelText[|gav.g|] == ':';
    }
    CompletionItem(labelText, ModuleItem, Some(Plain(labelText)), None, Some(range), command,
                   Some(NatToString(index)), Dependencies.GetDependency(labelText))
  }

  /** An artifact item carries exactly the document's group, artifact and chosen version when
      none of them holds a `:`. */
  lemma ItemDependency(gav: Doc, index: nat, range: Range, command: Option<Command>)
    requires ':' !in gav.g && ':' !in gav.a && ':' !in ChosenVersion(gav)
    ensures ToCompletionItem(gav, index, range, command).dependency
         == Some(Dependencies.Dependency(Some(gav.g), Some(gav.a), Some(ChosenVersion(gav)), None))
  {
    ArtifactLabelParses(gav);
  }

  /** `toVersionCompletionItem(gav, index, range, command)`: the version as label, the index
      padded to ten digits as sort text. */
  function ToVersionCompletionItem(gav: Doc, index: nat, range: Range, command: Option<Command>): (r: CompletionItem)
    ensures r.kind == ValueItem && r.range == Some(range) && r.labelText == gav.v && r.command == command
    ensures r.insertText.None? && r.dependency.None?
    ensures r.sortText.Some? && |r.sortText.value| >= 10 && EndsWith(r.sortText.value, NatToString(index))
  {
    CompletionItem(gav.v, ValueItem, None, None, Some(range), command, Some(PaddedSortText(index)), None)
  }

  /** Version items sort as text in the order of their indices. */
  lemma VersionItemsKeepOrder(x: Doc, i: nat, y: Doc, j: nat, range: Range, command: Option<Command>)
    requires i < 10000000000 && j < 10000000000
    ensures i < j <==> Less(ToVersionCompletionItem(x, i, range, command).sortText.value,
                            ToVersionCompletionItem(y, j, range, command).sortText.value)
  {
    PaddedSortTextOrder(i, j);
  }

  /** A mapper with the command bound. */
  function WithCommand(mapper: (Doc, nat, Range, Option<Command>) -> CompletionItem, command: Option<Command>)
    : (Doc, nat, Range) -> CompletionItem
  {
    (gav: Doc, index: nat, range: Range) => mapper(gav, index, range, command)
  }

  /** `toCompletionList(response, range, command, mapper)`: one item per document, in
      document order; incomplete when the service found more than it returned. */
  method ToCompletionList(response: Response, range: Range, command: Option<Command>,
                          mapper: (Doc, nat, Range, Option<Command>) -> CompletionItem)
    returns (result: CompletionList)
    ensures CompletionProvider.ListOf(result, response, range, WithCommand(mapper, command))
  {
    var items: seq<CompletionItem> := [];
    var index := 0;
    while index < |response.docs|
      invariant 0 <= index <= |response.docs|
      invariant |items| == index
      invariant forall i :: 0 <= i < index ==> items[i] == mapper(response.docs[i], i, range, command)
    {
      var gav := response.docs[index];
      items := items + [mapper(gav, index, range, command)];
      index := index + 1;
    }
    var numFound := NumFound(response);
    result := CompletionList(items, numFound > |items|);
  }

  /** The answer the completer works with for the text at the cursor. */
  function Json(lineText: string, position: Position, fetch: Query -> Option<Response>): Option<Response> {
    SortedLookup(Parts(lineText, position), fetch)
  }

  /** Whether the completer offers anything: the line applies, the current text is searched,
      and the answer has documents. */
  ghost predicate Offers(lineText: string, position: Position, fetch: Query -> Option<Response>) {
    Applies(lineText) && !Bails(CurrentText(lineText, position)) && HasDocs(Json(lineText, position, fetch))
  }

  /** `list` holds the answer's documents: artifact items over the typed word for one or two
      parts, version items after the last `:` for three or four, each carrying `command`. */
  ghost predicate Answers(list: CompletionList, lineText: string, position: Position, command: Option<Command>,
                          fetch: Query -> Option<Response>)
    requires HasDocs(Json(lineText, position, fetch))
  {
    var parts := Parts(lineText, position);
    var json := Json(lineText, position, fetch).value;
    var end := TextHelper.EndPosition(lineText, position);
    && 1 <= |parts| <= 4
    && (|parts| <= 2 ==> CompletionProvider.ListOf(list, json, Range(Start(lineText, position), end),
                                                   WithCommand(ToCompletionItem, command)))
    && (|parts| >= 3 ==> CompletionProvider.ListOf(list, json,
                                                   Range(TextHelper.AfterLast(lineText, position, TextHelper.IsColon), end),
                                                   WithCommand(ToVersionCompletionItem, command)))
  }

  /** `provideCompletionItems(document, position)` on the line `lineText`; `fetch` answers
      the searches, and `saveOnSelect`, `saveScript` and `uri` make the save command. */
  method ProvideCompletionItems(lineText: string, position: Position, saveOnSelect: bool, saveScript: string,
                                uri: string, fetch: Query -> Option<Response>)
    returns (r: CompletionList)
    ensures !Applies(lineText) ==> r == EmptyList()
    ensures Bails(CurrentText(lineText, position)) ==> r == EmptyList()
    ensures !Offers(lineText, position, fetch) ==> r == EmptyList()
    ensures Offers(lineText, position, fetch) ==>
      HasDocs(Json(lineText, position, fetch))
      && Answers(r, lineText, position, SaveCommand(saveOnSelect, saveScript, uri), fetch)
  {
    if !Applies(lineText) {
      return EmptyList();
    }
    var start := TextHelper.FindStartPosition(lineText, position, DEPS_PREFIX, None);
    var currText := Trim(Substring(lineText, start.character, position.character));
    if |currText| == 0 || StartsWith(currText, ".") {
      return EmptyList();
    }
    var parts := Split(currText, ':');
    var json: Option<Response> := None;
    var q := QueryFor(parts);
    if q.Some? {
      json := RunSearch(q.value, fetch);
    }
    if !HasDocs(json) {
      return EmptyList();
    }
    var command := SaveCommand(saveOnSelect, saveScript, uri);
    // five or more parts select no search, so an answer with documents has at most four
    r := Listed(lineText, position, start, parts, json.value, command);
  }

  /** The list built from an answer with documents. */
  method Listed(lineText: string, position: Position, start: Position, parts: seq<string>, json: Response,
                command: Option<Command>)
    returns (r: CompletionList)
    requires start == Start(lineText, position) && parts == Parts(lineText, position)
    requires 1 <= |parts| <= 4
    ensures |parts| <= 2 ==> CompletionProvider.ListOf(r, json, Range(start, TextHelper.EndPosition(lineText, position)),
                                                       WithCommand(ToCompletionItem, command))
    ensures |parts| >= 3 ==> CompletionProvider.ListOf(r, json,
                                                       Range(TextHelper.AfterLast(lineText, position, TextHelper.IsColon),
                                                             TextHelper.EndPosition(lineText, position)),
                                                       WithCommand(ToVersionCompletionItem, command))
  {
    var end := TextHelper.FindEndPosition(lineText, position);
    if |parts| <= 2 {
      r := ToCompletionList(json, Range(start, end), command, ToCompletionItem);
    } else {
      var versionStart := TextHelper.FindVersionPosition(lineText, position);
      r := ToCompletionList(json, Range(versionStart, end), command, ToVersionCompletionItem);
    }
  }
}
