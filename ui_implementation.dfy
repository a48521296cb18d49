/**
 * The implementation guide page: installation steps and usage examples with
 * copy buttons, an OS selector that switches the activation command and the
 * Windows-only `set` line, and the per-key copy acknowledgment flags.
 */
module Implementation {
  import opened Commands
  import Clipboard

  /** An installation step; `items`, `command` and `commandKey` are optional. */
  datatype InstallStep = InstallStep(
    title: string,
    description: string,
    items: Option<seq<string>>,
    command: Option<string>,
    commandKey: Option<string>)

  /** A usage example always carries a command and its copy key. */
  datatype UsageExample = UsageExample(title: string, description: string, command: string, commandKey: string)

  const InstallationSteps: seq<InstallStep> := [
    InstallStep("Prerequisites", "Before you begin, ensure you have the following installed:",
      Some(["Python 3.8 or higher", "pip (Python package manager)", "Git (for cloning repositories)"]),
      None, None),
    InstallStep("Installation", "Install Insight CLI using pip:",
      None, Some("pip install insight-cli-sarang"), Some("install")),
    InstallStep("Verify Installation", "Check if Insight CLI is installed correctly:",
      None, Some("insight-cli-sarang --version"), Some("version"))
  ]

  const UsageExamples: seq<UsageExample> := [
    UsageExample("Basic Analysis", "Analyze the current directory", "insight-cli-sarang .", "basic"),
    UsageExample("Analyze Specific Directory", "Analyze a specific project folder",
      "insight-cli-sarang /path/to/your/project", "specific"),
    UsageExample("Custom Output File", "Specify a custom output filename",
      "insight-cli-sarang . --output my-report.md", "output"),
    UsageExample("Exclude Files", "Exclude specific files or patterns",
      "insight-cli-sarang . --exclude \"*.test.js\" \"node_modules/*\"", "exclude"),
    UsageExample("Verbose Mode", "Enable detailed logging", "insight-cli-sarang . --verbose", "verbose"),
    UsageExample("Help Command", "View all available options", "insight-cli-sarang --help", "help")
  ]

  /** The copy keys of the fixed buttons elsewhere on the page (quick start,
      virtual environment and API key sections). */
  const FixedCopyKeys: seq<string> :=
    ["quickstart-install", "quickstart-run", "venv-create", "venv-activate", "venv-install", "api-key"]

  /** The key under which a JavaScript object stores an optional key: a missing
      one is coerced to the property name "undefined". */
  function PropertyName(key: Option<string>): string
  {
    match key
    case Some(k) => k
    case None => "undefined"
  }

  /** A step renders its bullet list iff it has `items` (an empty array is truthy). */
  predicate ShowsItems(step: InstallStep): (r: bool)
    ensures r <==> step.items.Some?
    ensures step.items == Some([]) ==> r
  {
    step.items.Some?
  }

  /** A step renders its command and copy button iff `command` is a non-empty
      string (an empty string is falsy). */
  predicate ShowsCommand(step: InstallStep): (r: bool)
    ensures r ==> step.command.Some? && |step.command.value| > 0
    ensures step.command == Some("") ==> !r
    ensures step.command.Some? && step.command.value != "" ==> r
  {
    step.command.Some? && step.command.value != ""
  }

  /** What the copy button of a step copies, and under which key. */
  function StepCopy(step: InstallStep): (r: Option<(string, string)>)
    ensures r.Some? <==> ShowsCommand(step)
    ensures r.Some? ==> r.value.0 == step.command.value && r.value.1 == PropertyName(step.commandKey)
  {
    if ShowsCommand(step) then Some((step.command.value, PropertyName(step.commandKey))) else None
  }

  /** Every copy key the page uses, in page order. */
  function PageCopyKeys(): (r: seq<string>)
    ensures r == ["quickstart-install", "quickstart-run", "install", "version",
                  "venv-create", "venv-activate", "venv-install", "api-key",
                  "basic", "specific", "output", "exclude", "verbose", "help"]
  {
    FixedCopyKeys[..2]
    + seq(|InstallationSteps|, i requires 0 <= i < |InstallationSteps| => PropertyName(InstallationSteps[i].commandKey))[1..]
    + FixedCopyKeys[2..]
    + seq(|UsageExamples|, i requires 0 <= i < |UsageExamples| => UsageExamples[i].commandKey)
  }

  /** In the page's data the first step only lists items and the other two only
      show a command, each with its own key. */
  lemma InstallationStepsRender()
    ensures ShowsItems(InstallationSteps[0]) && !ShowsCommand(InstallationSteps[0])
    ensures forall i :: 1 <= i < |InstallationSteps| ==>
      !ShowsItems(InstallationSteps[i]) && ShowsCommand(InstallationSteps[i]) && InstallationSteps[i].commandKey.Some?
  {
    assert InstallationSteps[1].command.value[0] == 'p';
    assert InstallationSteps[2].command.value[0] == 'i';
  }

  /** All fourteen copy keys are pairwise distinct, so one button's check mark
      never lights up another's. */
  lemma CopyKeysDistinct()
    ensures |PageCopyKeys()| == 14
    ensures forall i, j :: 0 <= i < j < |PageCopyKeys()| ==> PageCopyKeys()[i] != PageCopyKeys()[j]
  {
    var ks := PageCopyKeys();
    assert forall i, j :: 0 <= i < j < |ks| ==> ks[i] != ks[j] by {
      forall i, j | 0 <= i < j < |ks|
        ensures ks[i] != ks[j]
      {
      }
    }
  }

  const WindowsSetLine: string := "set GOOGLE_API_KEY=your-api-key-here"
  const ExportCommand: string := "export GOOGLE_API_KEY=\"your-api-key-here\""

  /** The Windows `set` line is shown only while Windows is selected. */
  function ApiKeyLines(os: OS): (lines: seq<string>)
    ensures |lines| >= 1 && lines[0] == ExportCommand
    ensures |lines| == 2 <==> os == Windows
    ensures |lines| <= 2
    ensures |lines| == 2 ==> lines[1] == WindowsSetLine
  {
    if os == Windows then [ExportCommand, WindowsSetLine] else [ExportCommand]
  }

  /** The page component's state cells. */
  class Page {
    var selectedOS: OS
    var copiedStates: Clipboard.Flags

    constructor ()
      ensures selectedOS == Unix && copiedStates == map[]
    {
      selectedOS := Unix;
      copiedStates := map[];
    }

    method SelectOS(os: OS)
      modifies this
      ensures selectedOS == os && copiedStates == old(copiedStates)
    {
      selectedOS := os;
    }

    /** `copyToClipboard(text, key)` once the clipboard write resolved with
        outcome `succeeded`; `text` only goes to the clipboard. */
    method CopyToClipboard(text: string, key: string, succeeded: bool)
      modifies this
      ensures copiedStates == Clipboard.AfterCopy(old(copiedStates), key, succeeded)
      ensures selectedOS == old(selectedOS)
    {
      if succeeded {
        copiedStates := copiedStates[key := true];
      }
    }

    /** The two-second timer scheduled by a successful copy of `key` fired. */
    method CopyTimerFired(key: string)
      modifies this
      ensures copiedStates == Clipboard.Expire(old(copiedStates), key)
      ensures selectedOS == old(selectedOS)
    {
      copiedStates := copiedStates[key := false];
    }

    /** The activation command shown and copied under `venv-activate`. */
    function ShownActivateCommand(): (r: string)
      reads this
      ensures r == UnixActivate <==> selectedOS == Unix
      ensures r == WindowsActivate <==> selectedOS == Windows
    {
      ActivateCommand(selectedOS)
    }
  }
}
