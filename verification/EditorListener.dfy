/** Keeping the editor's `isJBangFile` context key in step with the active editor: a Java
    document counts as a JBang script when one of its lines is marked. */
module EditorListener {
  import opened Wrappers
  import opened Text

  /** The active editor's document: its language and its text. */
  datatype TextEditor = TextEditor(languageId: string, text: string)

  /** `a || b` for a string `a` and a boolean `b`: `a` when it is non-empty, otherwise `b`,
      which `startsWith` then reads as the string `"true"` or `"false"`. */
  function OrElse(a: string, b: bool): (r: string)
    ensures a != "" ==> r == a
    ensures a == "" ==> r == (if b then "true" else "false")
  {
    if a != "" then a else if b then "true" else "false"
  }

  /** The line test as written: the disjunction sits inside the argument of `startsWith`. */
  predicate AsWrittenTest(line: string) {
    StartsWith(line, OrElse("//DEPS", StartsWith(line, "//JAVA") || StartsWith(line, "///usr/bin/env jbang")))
  }

  /** The evident intent: a line starting with any of the three markers. */
  predicate IntendedTest(line: string) {
    StartsWith(line, "//DEPS") || StartsWith(line, "//JAVA") || StartsWith(line, "///usr/bin/env jbang")
  }

  /** The test as written only ever looks for `//DEPS`. */
  lemma AsWrittenCollapses(line: string)
    ensures AsWrittenTest(line) <==> StartsWith(line, "//DEPS")
  {
    assert OrElse("//DEPS", StartsWith(line, "//JAVA") || StartsWith(line, "///usr/bin/env jbang")) == "//DEPS";
  }

  /** The value the context key receives for `editor` when lines are tested with `test`:
      only a non-empty Java document with a marked `\r?\n`-separated line counts. */
  predicate Detects(editor: Option<TextEditor>, test: string -> bool) {
    && editor.Some? && editor.value.languageId == "java" && editor.value.text != ""
    && exists i :: 0 <= i < |SplitLines(editor.value.text)| && test(SplitLines(editor.value.text)[i])
  }

  /** The loop of the scan: the index of the first line passing `test`, or `|lines|`. */
  method FirstMarkedLine(lines: seq<string>, test: string -> bool) returns (i: nat)
    ensures i <= |lines|
    ensures i < |lines| ==> test(lines[i])
    ensures forall k :: 0 <= k < i ==> !test(lines[k])
  {
    i := 0;
    while i < |lines|
      invariant i <= |lines|
      invariant forall k :: 0 <= k < i ==> !test(lines[k])
    {
      if test(lines[i]) {
        return;
      }
      i := i + 1;
    }
  }

  class Listener {
    /** The value last given to the `isJBangFile` context key; `None` before any check. */
    var jbangFileContext: Option<bool>

    constructor()
      ensures jbangFileContext == None
    {
      jbangFileContext := None;
    }

    /** `setJBangFileContext(value)` */
    method SetJBangFileContext(value: bool)
      modifies this
      ensures jbangFileContext == Some(value)
    {
      jbangFileContext := Some(value);
    }

    /** `checkJBangFileContext(editor)` as written: only `//DEPS` lines are noticed. */
    method CheckJBangFileContext(editor: Option<TextEditor>)
      modifies this
      ensures jbangFileContext == Some(Detects(editor, AsWrittenTest))
      ensures jbangFileContext == Some(Detects(editor, (line: string) => StartsWith(line, "//DEPS")))
    {
      forall line: string { AsWrittenCollapses(line); }
      Check(editor, AsWrittenTest);
      DetectsSameTest(editor, AsWrittenTest, (line: string) => StartsWith(line, "//DEPS"));
    }

    /** `checkJBangFileContext(editor)` with the intended test. */
    method CheckJBangFileContextCorrected(editor: Option<TextEditor>)
      modifies this
      ensures jbangFileContext == Some(Detects(editor, IntendedTest))
    {
      Check(editor, IntendedTest);
    }

    method Check(editor: Option<TextEditor>, test: string -> bool)
      modifies this
      ensures jbangFileContext == Some(Detects(editor, test))
    {
      if editor.None? || "java" != editor.value.languageId {
        SetJBangFileContext(false);
        return;
      }
      var content := editor.value.text;
      if content == "" {
        SetJBangFileContext(false);
        return;
      }
      var lines := SplitLines(content);
      var i := FirstMarkedLine(lines, test);
      var isJBangFile := i < |lines|;
      SetJBangFileContext(isJBangFile);
    }
  }

  lemma DetectsSameTest(editor: Option<TextEditor>, t1: string -> bool, t2: string -> bool)
    requires forall line :: t1(line) == t2(line)
    ensures Detects(editor, t1) == Detects(editor, t2)
  {
  }

  /** Every document the code as written notices, the intended test notices too. */
  lemma CorrectedExtendsAsWritten(editor: Option<TextEditor>)
    ensures Detects(editor, AsWrittenTest) ==> Detects(editor, IntendedTest)
  {
    if Detects(editor, AsWrittenTest) {
      var lines := SplitLines(editor.value.text);
      var i :| 0 <= i < |lines| && AsWrittenTest(lines[i]);
      AsWrittenCollapses(lines[i]);
      assert IntendedTest(lines[i]);
    }
  }

  /** A one-line document is judged by its only line. */
  lemma DetectsOneLine(languageId: string, text: string, test: string -> bool)
    requires '\n' !in text && text != ""
    ensures Detects(Some(TextEditor(languageId, text)), test) <==> languageId == "java" && test(text)
  {
    SplitNone(text, '\n');
    assert SplitLines(text) == [text];
    assert SplitLines(text)[0] == text;
  }

  /** A Java script whose only marker is `//JAVA 17` is missed as written and noticed
      by the intended test. */
  lemma JavaOnlyScriptMissed(text: string)
    requires text == "//JAVA 17"
    ensures !Detects(Some(TextEditor("java", text)), AsWrittenTest)
    ensures Detects(Some(TextEditor("java", text)), IntendedTest)
  {
    DetectsOneLine("java", text, AsWrittenTest);
    DetectsOneLine("java", text, IntendedTest);
    AsWrittenCollapses(text);
    assert text[..6] == "//JAVA";
    assert text[2] != "//DEPS"[2];
  }
}
