/** The new-script wizard: pick a template (none, a listed one, or a custom name), then
    enter a script name; the inputs are validated and the step count follows the path. */
module JBangScriptWizard {
  import opened Wrappers
  import opened Text
  import TemplateExec

  const CUSTOM_TEMPLATE: string := "$(pencil) Custom template ..."
  const NO_TEMPLATE: string := "$(close) No template"
  const DEFAULT_TOTAL_STEPS: int := 3
  const SUPPORTED_EXTENSIONS: seq<string> := [".java", ".kt", ".groovy", ".md"]

  /** The name ends with one of the supported extensions. */
  predicate HasSupportedExtension(name: string) {
    exists k | 0 <= k < |SUPPORTED_EXTENSIONS| :: EndsWith(name, SUPPORTED_EXTENSIONS[k])
  }

  /** `validateName(name)`: the first failing check gives its message, in the order empty,
      spaces, extension; a valid name gives none. */
  function ValidateName(name: string): (error: Option<string>)
    ensures error.None? <==> name != "" && ' ' !in name && HasSupportedExtension(name)
    ensures name == "" ==> error == Some("Script name is required")
    ensures name != "" && ' ' in name ==> error == Some("Script name cannot contain spaces")
    ensures name != "" && ' ' !in name && !HasSupportedExtension(name) ==>
      error == Some("Script name must end with a supported extension:" + Join(SUPPORTED_EXTENSIONS, ", "))
  {
    if name == "" then Some("Script name is required")
    else if ' ' in name then Some("Script name cannot contain spaces")
    else if !HasSupportedExtension(name) then
      Some("Script name must end with a supported extension:" + Join(SUPPORTED_EXTENSIONS, ", "))
    else None
  }

  /** `validateTemplateName(name)`: empty, then spaces; otherwise valid. */
  function ValidateTemplateName(name: string): (error: Option<string>)
    ensures error.None? <==> name != "" && ' ' !in name
    ensures name == "" ==> error == Some("Template name is required")
    ensures name != "" && ' ' in name ==> error == Some("Template name cannot contain spaces")
  {
    if name == "" then Some("Template name is required")
    else if ' ' in name then Some("Template name cannot contain spaces")
    else None
  }

  /** Every valid script name would also pass as a template name, and a template name
      fails as a script name only for want of an extension. */
  lemma ScriptNamesAreTemplateNames(name: string)
    ensures ValidateName(name).None? ==> ValidateTemplateName(name).None?
    ensures ValidateTemplateName(name).None? && ValidateName(name).Some? ==> !HasSupportedExtension(name)
  {
  }

  /** A name with a supported extension and no space is valid. */
  lemma ExtensionMakesValid(base: string, k: nat)
    requires k < |SUPPORTED_EXTENSIONS| && ' ' !in base
    ensures ValidateName(base + SUPPORTED_EXTENSIONS[k]).None?
  {
    var name := base + SUPPORTED_EXTENSIONS[k];
    assert name[|name| - |SUPPORTED_EXTENSIONS[k]|..] == SUPPORTED_EXTENSIONS[k];
    assert ' ' !in SUPPORTED_EXTENSIONS[k];
    forall i | 0 <= i < |name| ensures name[i] != ' ' {
      if i >= |base| {
        assert name[i] == SUPPORTED_EXTENSIONS[k][i - |base|];
      }
    }
  }

  /** The step that runs next. */
  datatype Step = CustomTemplateStep | ScriptNameStep

  /** `Partial<ScriptGenState>`: what the steps have filled in so far. */
  class ScriptGenState {
    var totalSteps: int
    var template: Option<string>
    var scriptName: Option<string>

    /** `{ totalSteps: DEFAULT_TOTAL_STEPS }` */
    constructor()
      ensures totalSteps == DEFAULT_TOTAL_STEPS && template.None? && scriptName.None?
    {
      totalSteps := DEFAULT_TOTAL_STEPS;
      template := None;
      scriptName := None;
    }

    /** `inputTemplate(input, state)`: the pick is asked again while it is undefined; `picks`
        are the answers in turn. The custom item leads to the custom template step; any
        other pick but "No template" becomes the template. */
    method InputTemplate(picks: seq<Option<string>>) returns (next: Step)
      requires exists k :: 0 <= k < |picks| && picks[k].Some?
      modifies this
      ensures totalSteps == DEFAULT_TOTAL_STEPS && scriptName == old(scriptName)
      ensures var pick := FirstPick(picks);
        && (pick == CUSTOM_TEMPLATE ==> next == CustomTemplateStep && template == old(template))
        && (pick == NO_TEMPLATE ==> next == ScriptNameStep && template == old(template))
        && (pick != CUSTOM_TEMPLATE && pick != NO_TEMPLATE ==> next == ScriptNameStep && template == Some(pick))
    {
      totalSteps := DEFAULT_TOTAL_STEPS;
      var k := 0;
      while picks[k].None?
        invariant 0 <= k < |picks|
        invariant forall e :: 0 <= e < k ==> picks[e].None?
        invariant exists e :: k <= e < |picks| && picks[e].Some?
        decreases |picks| - k
      {
        k := k + 1;
      }
      FirstPickAt(picks, k);
      var selectedTemplate := picks[k].value;
      if selectedTemplate == CUSTOM_TEMPLATE {
        return CustomTemplateStep;
      }
      if selectedTemplate != NO_TEMPLATE {
        template := Some(selectedTemplate);
      }
      return ScriptNameStep;
    }

    /** `inputCustomTemplate(input, state)`: one more step, and the entered name (undefined
        when the box is dismissed) becomes the template. Returns the step number shown. */
    method InputCustomTemplate(entered: Option<string>) returns (step: int, next: Step)
      modifies this
      ensures totalSteps == DEFAULT_TOTAL_STEPS + 1 && template == entered && scriptName == old(scriptName)
      ensures step == 2 && next == ScriptNameStep
    {
      totalSteps := DEFAULT_TOTAL_STEPS + 1;
      template := entered;
      return 2, ScriptNameStep;
    }

    /** `inputScriptName(input, state)`: the entered name becomes the script name, on the
        last step. Returns the step number shown. */
    method InputScriptName(entered: Option<string>) returns (step: int)
      modifies this
      ensures scriptName == entered && template == old(template) && totalSteps == old(totalSteps)
      ensures step == totalSteps - 1
    {
      scriptName := entered;
      step := totalSteps - 1;
    }
  }

  /** The first defined pick. */
  function FirstPick(picks: seq<Option<string>>): string
    requires exists k :: 0 <= k < |picks| && picks[k].Some?
  {
    if picks[0].Some? then picks[0].value
    else
      assert exists k :: 0 <= k < |picks[1..]| && picks[1..][k].Some? by {
        var k :| 0 <= k < |picks| && picks[k].Some?;
        assert picks[1..][k - 1] == picks[k];
      }
      FirstPick(picks[1..])
  }

  lemma {:induction false} FirstPickAt(picks: seq<Option<string>>, k: nat)
    requires k < |picks| && picks[k].Some? && forall e :: 0 <= e < k ==> picks[e].None?
    ensures FirstPick(picks) == picks[k].value
  {
    if k > 0 {
      assert picks[1..][k - 1] == picks[k];
      FirstPickAt(picks[1..], k - 1);
    }
  }

  /** The items of the template pick: "No template", the custom item, then the listed
      templates. */
  function TemplateChoices(templates: seq<TemplateExec.Template>): (labels: seq<string>)
    ensures |labels| == |templates| + 2 && labels[0] == NO_TEMPLATE && labels[1] == CUSTOM_TEMPLATE
    ensures forall i :: 0 <= i < |templates| ==> labels[i + 2] == templates[i].labelText
  {
    [NO_TEMPLATE, CUSTOM_TEMPLATE] + seq(|templates|, i requires 0 <= i < |templates| => templates[i].labelText)
  }

  /** `getTemplates()`: the templates are listed once and kept. */
  class Wizard {
    var templates: Option<seq<TemplateExec.Template>>

    constructor()
      ensures templates.None?
    {
      templates := None;
    }

    /** `listed` is what `listTemplates()` would answer if it is run. */
    method GetTemplates(listed: seq<TemplateExec.Template>) returns (r: seq<TemplateExec.Template>)
      modifies this
      ensures old(templates).Some? ==> r == old(templates).value && templates == old(templates)
      ensures old(templates).None? ==> r == listed && templates == Some(listed)
    {
      if templates.None? {
        templates := Some(listed);
      }
      r := templates.value;
    }
  }

  /** Choosing the custom template makes four steps, and the script name comes third; the
      other paths take three steps with the script name second. */
  method CustomPath(picks: seq<Option<string>>, entered: Option<string>, name: Option<string>)
    returns (state: ScriptGenState, step: int)
    requires exists k :: 0 <= k < |picks| && picks[k].Some?
    ensures FirstPick(picks) == CUSTOM_TEMPLATE ==> state.totalSteps == 4 && step == 3 && state.template == entered
    ensures FirstPick(picks) != CUSTOM_TEMPLATE ==> state.totalSteps == 3 && step == 2
    ensures FirstPick(picks) != CUSTOM_TEMPLATE && FirstPick(picks) != NO_TEMPLATE ==>
      state.template == Some(FirstPick(picks))
    ensures FirstPick(picks) == NO_TEMPLATE ==> state.template.None?
    ensures state.scriptName == name
  {
    state := new ScriptGenState();
    var next := state.InputTemplate(picks);
    if next == CustomTemplateStep {
      var _, _ := state.InputCustomTemplate(entered);
    }
    step := state.InputScriptName(name);
  }
}
