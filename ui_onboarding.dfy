/**
 * The onboarding wizard: an eight-step walkthrough whose state is the current
 * step index, the set of steps marked complete, the copy acknowledgment flags,
 * the OS choice and two free-text drafts (API key and project path).  The
 * shown commands and the progress bar are pure functions of that state.
 */
module Onboarding {
  import opened Commands
  import Clipboard

  /** The step identifiers, in navigation order. */
  const StepIds: seq<string> :=
    ["welcome", "clone", "venv-create", "venv-activate", "install", "api-key", "run", "help"]

  /** `steps.length`. */
  const StepCount: int := |StepIds|

  const DefaultProjectPath: string := "./my-project"
  const ApiKeyPlaceholder: string := "your-api-key"
  const ExportPrefix: string := "export GOOGLE_API_KEY=\""
  const WindowsSetPrefix: string := "set GOOGLE_API_KEY="
  const RunPrefix: string := "insight-cli "

  /** Step identifiers are pairwise distinct. */
  lemma StepIdsDistinct()
    ensures StepCount == 8
    ensures forall i, j :: 0 <= i < j < StepCount ==> StepIds[i] != StepIds[j]
  {
    assert StepIds[0][0] == 'w' && StepIds[1][0] == 'c' && StepIds[2][0] == 'v';
    assert StepIds[3][0] == 'v' && StepIds[4][0] == 'i' && StepIds[5][0] == 'a';
    assert StepIds[6][0] == 'r' && StepIds[7][0] == 'h';
    assert StepIds[2][5] == 'c' && StepIds[3][5] == 'a';
  }

  /** `nextStep`: advance unless already on the last step. */
  function Next(step: int): (r: int)
    ensures r == step + 1 <==> step < StepCount - 1
    ensures r == step <==> step >= StepCount - 1
    ensures 0 <= step < StepCount ==> 0 <= r < StepCount
  {
    if step < StepCount - 1 then step + 1 else step
  }

  /** `prevStep`: go back unless already on the first step. */
  function Prev(step: int): (r: int)
    ensures r == step - 1 <==> step > 0
    ensures r == step <==> step <= 0
    ensures 0 <= step < StepCount ==> 0 <= r < StepCount
  {
    if step > 0 then step - 1 else step
  }

  /** The step reached by pressing Next `k` times from `step`. */
  function NextTimes(step: int, k: nat): int
    decreases k
  {
    if k == 0 then step else NextTimes(Next(step), k - 1)
  }

  function Min(a: int, b: int): int { if a <= b then a else b }

  /** Pressing Next k times from a valid step clamps at the last step. */
  lemma {:induction false} NextTimesClamps(step: int, k: nat)
    requires 0 <= step < StepCount
    ensures NextTimes(step, k) == Min(step + k, StepCount - 1)
    decreases k
  {
    if k > 0 {
      NextTimesClamps(Next(step), k - 1);
    }
  }

  /** From the initial step 0, i presses of Next reach step i when i < 8 and
      the last step otherwise. */
  lemma AdvanceFromStart(k: nat)
    ensures k < StepCount ==> NextTimes(0, k) == k
    ensures k >= StepCount ==> NextTimes(0, k) == StepCount - 1
  {
    NextTimesClamps(0, k);
  }

  /** `markStepComplete(i)`: the completed set grows by exactly `i`. */
  function MarkComplete(done: set<int>, i: int): (r: set<int>)
    ensures i in r
    ensures done <= r
    ensures r - done <= {i}
  {
    done + {i}
  }

  /** Marking a step twice is the same as marking it once. */
  lemma MarkCompleteIdempotent(done: set<int>, i: int)
    ensures MarkComplete(MarkComplete(done, i), i) == MarkComplete(done, i)
  {
  }

  /** `progressPercentage`, as an exact ratio. */
  function Progress(step: int): (r: real)
    ensures 0 <= step < StepCount ==> 0.0 < r <= 100.0
  {
    (step + 1) as real / StepCount as real * 100.0
  }

  /** The progress bar is 12.5% on the first step, exactly 100% on the last,
      strictly increasing, and within (0, 100] on every valid step. */
  lemma ProgressFacts(step: int, other: int)
    requires 0 <= step < StepCount
    ensures Progress(0) == 12.5 && Progress(StepCount - 1) == 100.0
    ensures 0.0 < Progress(step) <= 100.0
    ensures step < other ==> Progress(step) < Progress(other)
  {
  }

  /** What a progress marker shows: a check mark, or its one-based number. */
  datatype MarkerLabel = CheckMark | Number(n: int)

  /** One marker of the progress row: whether it carries the `active` and
      `completed` classes, and its content. */
  datatype Marker = Marker(active: bool, completed: bool, content: MarkerLabel)

  /** The marker drawn for step `index` while `current` is shown and the
      steps in `done` are marked complete. */
  function MarkerAt(index: int, current: int, done: set<int>): (m: Marker)
    ensures m.active <==> index <= current
    ensures m.completed <==> index in done
    ensures m.content == CheckMark <==> index in done
    ensures index !in done ==> m.content == Number(index + 1)
  {
    var checked := index in done;
    Marker(index <= current, checked, if checked then CheckMark else Number(index + 1))
  }

  /** The markers follow the wizard: on a valid step the first marker and the
      current one are active and those after it are not; Next activates
      exactly the following marker, Prev deactivates exactly the current one,
      and marking step `i` complete checks marker `i` and no other. */
  lemma MarkersFollowState(index: int, current: int, done: set<int>, i: int)
    requires 0 <= current < StepCount && 0 <= index < StepCount
    ensures MarkerAt(0, current, done).active && MarkerAt(current, current, done).active
    ensures current < index ==> !MarkerAt(index, current, done).active
    ensures MarkerAt(index, Next(current), done).active <==>
      MarkerAt(index, current, done).active || (index == current + 1 && current < StepCount - 1)
    ensures MarkerAt(index, Prev(current), done).active <==>
      MarkerAt(index, current, done).active && !(index == current && current > 0)
    ensures MarkerAt(index, current, MarkComplete(done, i)).completed <==>
      MarkerAt(index, current, done).completed || index == i
  {
  }

  /** What the footer offers on the right-hand side. */
  datatype FooterAction = NextButton | GitHubLink

  /** The last step shows the GitHub link instead of Next. */
  function Footer(step: int): (r: FooterAction)
    ensures r == GitHubLink <==> step == StepCount - 1
  {
    if step == StepCount - 1 then GitHubLink else NextButton
  }

  /** The element a click lands on: the overlay itself, the close button in
      the header, or anything else inside the modal. */
  datatype ClickTarget = Overlay | CloseButton | ModalContent

  /** `handleOverlayClick`: `onClose` runs only when the click's target is the
      overlay element on which the handler sits. */
  function OverlayClickCloses(target: ClickTarget): (close: bool)
    ensures close <==> target == Overlay
  {
    target == Overlay
  }

  /** How often one click calls `onClose`: the close button's own handler
      runs first, then the click bubbles up to the overlay's handler, which
      ignores it because the target is not the overlay.  So the overlay and
      the close button close the modal once each, and nothing else does. */
  function CloseCalls(target: ClickTarget): (n: nat)
    ensures n <= 1
    ensures n == 1 <==> target == Overlay || target == CloseButton
  {
    (if target == CloseButton then 1 else 0) + (if OverlayClickCloses(target) then 1 else 0)
  }

  /** The API key shown in commands: the draft, or the placeholder when empty. */
  function ShownKey(apiKey: string): (r: string)
    ensures apiKey != "" ==> r == apiKey
    ensures apiKey == "" ==> r == ApiKeyPlaceholder
  {
    if apiKey != "" then apiKey else ApiKeyPlaceholder
  }

  /** The export command shown and copied on the API-key step. */
  function ExportCommand(apiKey: string): (r: string)
    ensures |r| == |ExportPrefix| + |ShownKey(apiKey)| + 1
    ensures r[..|ExportPrefix|] == ExportPrefix && r[|r| - 1] == '"'
  {
    ExportPrefix + ShownKey(apiKey) + "\""
  }

  /** Reads the key back out of an export command. */
  function ExportedKey(cmd: string): string
    requires |cmd| > |ExportPrefix|
  {
    cmd[|ExportPrefix|..|cmd| - 1]
  }

  /** The export command carries the draft verbatim when it is non-empty and
      the placeholder otherwise, between the fixed prefix and a closing quote. */
  lemma ExportCommandRoundTrip(apiKey: string)
    ensures |ExportCommand(apiKey)| > |ExportPrefix|
    ensures ExportCommand(apiKey)[..|ExportPrefix|] == ExportPrefix
    ensures ExportedKey(ExportCommand(apiKey)) == if apiKey == "" then ApiKeyPlaceholder else apiKey
  {
    var c := ExportCommand(apiKey);
    assert c[..|ExportPrefix|] == ExportPrefix;
    assert c[|ExportPrefix|..|c| - 1] == ShownKey(apiKey);
  }

  /** The Windows `set` line of the API-key step, present only for Windows. */
  function WindowsSetLine(os: OS, apiKey: string): (r: Option<string>)
    ensures r.Some? <==> os == Windows
    ensures r.Some? ==> r.value == WindowsSetPrefix + ShownKey(apiKey)
  {
    if os == Windows then Some(WindowsSetPrefix + ShownKey(apiKey)) else None
  }

  /** The run command of the run step. */
  function RunCommand(projectPath: string): (r: string)
    ensures |r| == |RunPrefix| + |projectPath|
    ensures r[..|RunPrefix|] == RunPrefix
  {
    RunPrefix + projectPath
  }

  /** The run command is the fixed prefix followed by the path, so the path can
      be read back from it; with the default draft it is `insight-cli ./my-project`. */
  lemma RunCommandRoundTrip(projectPath: string)
    ensures RunCommand(projectPath)[..|RunPrefix|] == RunPrefix
    ensures RunCommand(projectPath)[|RunPrefix|..] == projectPath
    ensures RunCommand(DefaultProjectPath) == "insight-cli ./my-project"
  {
    assert RunCommand(projectPath)[|RunPrefix|..] == projectPath;
  }

  /** The wizard component's state cells. */
  class Wizard {
    var currentStep: int
    var completedSteps: set<int>
    var copiedStates: Clipboard.Flags
    var selectedOS: OS
    var apiKey: string
    var projectPath: string

    /** The step index always names an existing step. */
    ghost predicate Valid()
      reads this
    {
      0 <= currentStep < StepCount
    }

    /** The state at mount. */
    constructor ()
      ensures Valid()
      ensures currentStep == 0 && completedSteps == {} && copiedStates == map[]
      ensures selectedOS == Unix && apiKey == "" && projectPath == DefaultProjectPath
    {
      currentStep := 0;
      completedSteps := {};
      copiedStates := map[];
      selectedOS := Unix;
      apiKey := "";
      projectPath := DefaultProjectPath;
    }

    method NextStep()
      requires Valid()
      modifies this
      ensures Valid()
      ensures currentStep == Next(old(currentStep))
      ensures completedSteps == old(completedSteps) && copiedStates == old(copiedStates)
      ensures selectedOS == old(selectedOS) && apiKey == old(apiKey) && projectPath == old(projectPath)
    {
      if currentStep < StepCount - 1 {
        currentStep := currentStep + 1;
      }
    }

    method PrevStep()
      requires Valid()
      modifies this
      ensures Valid()
      ensures currentStep == Prev(old(currentStep))
      ensures completedSteps == old(completedSteps) && copiedStates == old(copiedStates)
      ensures selectedOS == old(selectedOS) && apiKey == old(apiKey) && projectPath == old(projectPath)
    {
      if currentStep > 0 {
        currentStep := currentStep - 1;
      }
    }

    method MarkStepComplete(stepIndex: int)
      requires Valid()
      modifies this
      ensures Valid()
      ensures completedSteps == MarkComplete(old(completedSteps), stepIndex)
      ensures currentStep == old(currentStep) && copiedStates == old(copiedStates)
      ensures selectedOS == old(selectedOS) && apiKey == old(apiKey) && projectPath == old(projectPath)
    {
      completedSteps := completedSteps + {stepIndex};
    }

    /** `copyToClipboard(text, key)` once the clipboard write resolved with
        outcome `succeeded`; `text` only goes to the clipboard. */
    method CopyToClipboard(text: string, key: string, succeeded: bool)
      requires Valid()
      modifies this
      ensures Valid()
      ensures copiedStates == Clipboard.AfterCopy(old(copiedStates), key, succeeded)
      ensures currentStep == old(currentStep) && completedSteps == old(completedSteps)
      ensures selectedOS == old(selectedOS) && apiKey == old(apiKey) && projectPath == old(projectPath)
    {
      if succeeded {
        copiedStates := copiedStates[key := true];
      }
    }

    /** The two-second timer scheduled by a successful copy of `key` fired. */
    method CopyTimerFired(key: string)
      requires Valid()
      modifies this
      ensures Valid()
      ensures copiedStates == Clipboard.Expire(old(copiedStates), key)
      ensures currentStep == old(currentStep) && completedSteps == old(completedSteps)
      ensures selectedOS == old(selectedOS) && apiKey == old(apiKey) && projectPath == old(projectPath)
    {
      copiedStates := copiedStates[key := false];
    }

    method SetOS(os: OS)
      requires Valid()
      modifies this
      ensures Valid() && selectedOS == os
      ensures currentStep == old(currentStep) && completedSteps == old(completedSteps)
      ensures copiedStates == old(copiedStates) && apiKey == old(apiKey) && projectPath == old(projectPath)
    {
      selectedOS := os;
    }

    method SetApiKey(s: string)
      requires Valid()
      modifies this
      ensures Valid() && apiKey == s
      ensures currentStep == old(currentStep) && completedSteps == old(completedSteps)
      ensures copiedStates == old(copiedStates) && selectedOS == old(selectedOS) && projectPath == old(projectPath)
    {
      apiKey := s;
    }

    method SetProjectPath(s: string)
      requires Valid()
      modifies this
      ensures Valid() && projectPath == s
      ensures currentStep == old(currentStep) && completedSteps == old(completedSteps)
      ensures copiedStates == old(copiedStates) && selectedOS == old(selectedOS) && apiKey == old(apiKey)
    {
      projectPath := s;
    }

    /** The activation command shown and copied on the activation step. */
    function ShownActivateCommand(): (r: string)
      reads this
      ensures r == UnixActivate <==> selectedOS == Unix
      ensures r == WindowsActivate <==> selectedOS == Windows
    {
      ActivateCommand(selectedOS)
    }

    /** The export command shown and copied on the API-key step. */
    function ShownExportCommand(): (r: string)
      reads this
      ensures |r| > |ExportPrefix| && r[..|ExportPrefix|] == ExportPrefix
      ensures ExportedKey(r) == if apiKey == "" then ApiKeyPlaceholder else apiKey
    {
      ExportCommandRoundTrip(apiKey);
      ExportCommand(apiKey)
    }

    /** The run command shown and copied on the run step. */
    function ShownRunCommand(): (r: string)
      reads this
      ensures |r| >= |RunPrefix| && r[..|RunPrefix|] == RunPrefix && r[|RunPrefix|..] == projectPath
    {
      RunCommandRoundTrip(projectPath);
      RunCommand(projectPath)
    }
  }
}
