/** The editor values the completion providers build: positions, ranges, commands and
    completion items, as plain records. An item's `label` is the field `labelText`
    (`label` is a keyword here). */
module Editor {
  import opened Wrappers
  import opened Dependencies

  /** A zero-based line and character offset. */
  datatype Position = Position(line: nat, character: nat)

  datatype Range = Range(start: Position, end: Position)

  datatype Command = Command(command: string, title: string, arguments: seq<string>)

  datatype ItemKind = TextItem | ValueItem | ModuleItem

  /** Text inserted as typed, or a snippet with `${0}`-style tab stops. */
  datatype InsertText = Plain(text: string) | Snippet(snippet: string)

  /** A completion item; `dependency` is set only on the items of the remote dependency
      completer, which carry the coordinate parsed from their label. */
  datatype CompletionItem = CompletionItem(
    labelText: string,
    kind: ItemKind,
    insertText: Option<InsertText>,
    detail: Option<string>,
    range: Option<Range>,
    command: Option<Command>,
    sortText: Option<string>,
    dependency: Option<Dependency>)

  datatype CompletionList = CompletionList(items: seq<CompletionItem>, isIncomplete: bool)

  /** `new CompletionItem(label, kind)`: every other field is unset. */
  function NewItem(labelText: string, kind: ItemKind): CompletionItem {
    CompletionItem(labelText, kind, None, None, None, None, None, None)
  }

  function EmptyList(): CompletionList {
    CompletionList([], false)
  }
}
