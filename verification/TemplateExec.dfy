/** Running `jbang` for the new-script wizard: listing the templates, building the
    `jbang init` arguments, and telling which files the generation created. */
module TemplateExec {
  import opened Wrappers
  import Arrays

  /** One entry of `jbang template list --format=json`. */
  datatype TemplateEntry = TemplateEntry(name: string, description: string)

  /** A template as the wizard shows it. */
  datatype Template = Template(labelText: string, description: string)

  /** `listTemplates()` on the command's output: `entries` is the parsed JSON array, `None`
      when the output does not parse, which gives no templates. */
  function ListTemplates(entries: Option<seq<TemplateEntry>>): (templates: seq<Template>)
    ensures entries.None? ==> templates == []
    ensures entries.Some? ==> |templates| == |entries.value|
    ensures entries.Some? ==> forall i :: 0 <= i < |templates| ==>
      templates[i].labelText == entries.value[i].name && templates[i].description == entries.value[i].description
  {
    match entries
    case None => []
    case Some(es) => seq(|es|, i requires 0 <= i < |es| => Template(es[i].name, es[i].description))
  }

  /** A template is used when it is set and not empty. */
  predicate Truthy(template: Option<string>) {
    template.Some? && template.value != ""
  }

  /** The arguments `generateArgs` builds: they name the template exactly when one is used,
      and the script last. */
  function Args(template: Option<string>, scriptName: string): (r: seq<string>)
    ensures TemplateIn(r) == (if Truthy(template) then template else None)
    ensures |r| == (if Truthy(template) then 5 else 3)
    ensures r[0] == "init" && r[|r| - 2] == "--force" && r[|r| - 1] == scriptName
  {
    ["init"] + (if Truthy(template) then ["-t", template.value] else []) + ["--force", scriptName]
  }

  /** `generateArgs(scriptGenState)`: `init`, then `-t <template>` when there is a
      template, then `--force <scriptName>`. */
  method GenerateArgs(template: Option<string>, scriptName: string) returns (args: seq<string>)
    ensures args == Args(template, scriptName)
    ensures args[0] == "init" && args[|args| - 1] == scriptName && args[|args| - 2] == "--force"
  {
    args := ["init"];
    if template.Some? && template.value != "" {
      args := args + ["-t"];
      args := args + [template.value];
    }
    args := args + ["--force"];
    args := args + [scriptName];
  }

  /** The template named in `jbang init` arguments: the one after `-t` in second place. */
  function TemplateIn(args: seq<string>): Option<string> {
    if |args| >= 3 && args[1] == "-t" then Some(args[2]) else None
  }

  /** `filesAfter.filter(file => !filesBefore.includes(file))` */
  function NewFiles(filesBefore: seq<string>, filesAfter: seq<string>): (newFiles: seq<string>)
    ensures forall f :: f in newFiles <==> f in filesAfter && f !in filesBefore
    ensures |newFiles| <= |filesAfter|
  {
    Arrays.Filter(filesAfter, (f: string) => f !in filesBefore)
  }

  /** The files new after generation keep their order in the listing after it. */
  lemma {:induction false} NewFilesInOrder(filesBefore: seq<string>, filesAfter: seq<string>)
    ensures NewFiles(filesBefore, filesAfter) == Subsequence(filesAfter, filesBefore)
  {
    if filesAfter != [] {
      NewFilesInOrder(filesBefore, filesAfter[1..]);
      assert filesAfter == [filesAfter[0]] + filesAfter[1..];
      Arrays.FilterAppend([filesAfter[0]], filesAfter[1..], (f: string) => f !in filesBefore);
    }
  }

  /** The elements of `s` not in `gone`, in order. */
  function Subsequence(s: seq<string>, gone: seq<string>): seq<string> {
    if s == [] then [] else (if s[0] in gone then [] else [s[0]]) + Subsequence(s[1..], gone)
  }

  /** `generateScript(scriptGenState)`: the command `jbang` is run with `generateArgs` in the
      target directory, whose files are `filesBefore` before and `filesAfter` after. */
  method GenerateScript(template: Option<string>, scriptName: string, filesBefore: seq<string>, filesAfter: seq<string>)
    returns (args: seq<string>, newFiles: seq<string>)
    ensures args == Args(template, scriptName)
    ensures newFiles == NewFiles(filesBefore, filesAfter)
  {
    args := GenerateArgs(template, scriptName);
    newFiles := NewFiles(filesBefore, filesAfter);
  }
}
