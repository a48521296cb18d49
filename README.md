# Insight site and link-cut tree: a Dafny model

This project models two parts of the Insight repository.

**The link-cut tree** (`Link-cut-Tree.py`) is a splay-based Sleator–Tarjan
dynamic forest. It has path-sum aggregation and lazy path reversal.

- Nodes are the indices `1..n` of per-field sequences (`parent`, `left`,
  `right`, `val`, `sum`, `rev`). Index `0` plays the part of `None`, as in
  the 1-indexed list that `buildNodes` returns.
- The class `LinkCut.LinkCutTree` keeps those fields and updates them in place.
- It also keeps a ghost abstract forest `forest`. This is a rooted
  parent-pointer map `up`, plus a `rank` that makes it acyclic.
- `Valid()` ties the two layers together. Every splay tree must be well
  formed, every `sum` must be the sum of `val` over its subtree, and the
  in-order sequence of each splay tree must read down a path of the
  abstract forest. That path hangs below the splay root's path-parent pointer.
- Each operation of the source is a method. Its contract states the new
  abstract forest (unchanged, `Reroot`, `Link` or `Cut`) and what the
  method returns in its terms: the root of `x`'s tree, connectivity, or the
  sum of `val` along the path.
- Lemmas about `Reroot`, `Link` and `Cut` say what these mean for an
  undirected forest: connectivity, edge sets, and the tree path between two
  nodes.
- The program's example run is replayed in `LctDemo.Example`, which yields
  10, 23, 37, 50, false, true and 43.

**The React site** contributes small state machines and lookup rules:

- the onboarding wizard's step index, completed-step set, copy
  acknowledgments and shell commands;
- the layout's active-link rule and mobile-menu flag;
- the implementation page's copy keys and OS-dependent lines;
- the roadmap's status tables and label formatting;
- the language modal's colour lookup and file-type table.

Each component's state cells are a class whose methods are the setters. The
derived values are functions.

## Model

| member | source | states |
|---|---|---|
| LinkCut.LinkCutTree.constructor | Link-cut-Tree.py:149-150 | `n` singleton nodes: no pointers, `sum = val`, no pending reversal, the values in order after the unused slot 0, and an abstract forest of `n` one-node trees |
| LctOps.SingletonsValid | Link-cut-Tree.py:7-15 | the fresh nodes are well formed, correctly summed and represent the forest of `n` roots |
| LinkCut.LinkCutTree.IsRootNode | Link-cut-Tree.py:17-18 | true exactly when `x` has no parent or its parent has `x` as neither child |
| LctSteps.PushUpF | Link-cut-Tree.py:20-25 | `sum[x]` becomes `val[x]` plus the sums of the existing children; every other field and every other `sum` entry is unchanged |
| LinkCut.LinkCutTree.PushUp | Link-cut-Tree.py:20-25 | the new node state is `PushUpF` of the old one, and the forest is unchanged |
| LctSteps.PushDownF | Link-cut-Tree.py:27-34 | with `rev` set: the children are swapped, each existing child's `rev` is toggled and `rev[x]` is cleared, and no other node changes; with `rev` clear: nothing changes |
| LctSteps.PushDownWf | Link-cut-Tree.py:27-34 | pushing a reversal down keeps the splay trees well formed and the sums consistent |
| LctSteps.PushDownSelf | Link-cut-Tree.py:27-34 | pushing a reversal down leaves the in-order sequence of `x`'s subtree unchanged |
| LinkCut.LinkCutTree.PushDown | Link-cut-Tree.py:27-34 | the new node state is `PushDownF` of the old one, and the forest is unchanged |
| LinkCut.LinkCutTree.Relink | Link-cut-Tree.py:37-57 | the pointer rewiring of a rotation: `x` takes `p`'s place under `g`, `p` becomes `x`'s child and `x`'s inner child moves to `p` |
| LinkCut.LinkCutTree.Rotate | Link-cut-Tree.py:36-59 | the new node state is `RotateF` of the old one: the rewiring, then `pushUp(p)` and `pushUp(x)` |
| LctSteps.RotateWf | Link-cut-Tree.py:36-59 | a rotation keeps the splay tree well formed and the sums consistent; `x`'s subtree takes over `p`'s size |
| LctSteps.RotateSeq | Link-cut-Tree.py:36-59 | with no reversal pending at `x` and `p`, the in-order sequence under `x` afterwards equals the one under `p` before |
| LctSteps.RotateRoots | Link-cut-Tree.py:36-59 | the splay roots after a rotation are those before, except that `x` replaces `p`; `x` inherits `p`'s parent pointer |
| LinkCut.LinkCutTree.Ancestors | Link-cut-Tree.py:63-69 | the list runs from `x` up parent pointers to a node without a parent, and contains every node whose subtree holds `x` |
| LinkCut.LinkCutTree.PushDownPath | Link-cut-Tree.py:71-72 | the new node state is the pushDown of each listed ancestor in turn, from the top |
| LctSplay.SplayRotate | Link-cut-Tree.py:74-82 | each zig, zig-zig or zig-zag rotation keeps the splay loop's invariant and strictly grows `x`'s subtree when `x` itself rotates |
| LinkCut.LinkCutTree.Splay | Link-cut-Tree.py:61-83 | `x` becomes its splay tree's root with no pending reversal; the splay tree's in-order sequence, its path-parent pointer, every other splay tree, the values and the forest are unchanged |
| LctAccess.SwitchRepresents | Link-cut-Tree.py:90-92 | replacing the right child of a splay root by the previously exposed tree keeps every splay tree reading down a forest path |
| LctAccess.AccessStep | Link-cut-Tree.py:89-94 | one pass of the access loop keeps its invariant, and the next node up has a smaller rank |
| LinkCut.LinkCutTree.Expose | Link-cut-Tree.py:89-94 | after the loop, the tree of `last` reads exactly the forest path from the root down to `x` |
| LinkCut.LinkCutTree.SetRight | Link-cut-Tree.py:91-92 | the new node state is `Switch` of the old one: `cur`'s right child becomes `last`, `cur`'s size and sum are recomputed; the forest is unchanged |
| LctAccess.AccessDone | Link-cut-Tree.py:89-96 | when the loop stops, `last` is the splay root holding `x`, has no path-parent, and lies on `x`'s path |
| LctAccess.LastHasNoRight | Link-cut-Tree.py:85-96 | a splay root without pending reversal whose sequence ends with itself has no right child |
| LinkCut.LinkCutTree.Access | Link-cut-Tree.py:85-96 | `x` is a splay root with no parent, no right child and no pending reversal; its sequence is the forest path from its root to `x`; splay trees outside `x`'s component are untouched; the forest is unchanged |
| LctOps.FlipRepresents | Link-cut-Tree.py:100 | toggling `rev` on the root of the exposed path represents the forest rerooted at `x` |
| LctOps.MakeRootDone | Link-cut-Tree.py:100-101 | after the flip and the pushDown, the nodes are valid for the rerooted forest, and `x`'s sequence is its old path reversed |
| LinkCut.LinkCutTree.Evert | Link-cut-Tree.py:100-101 | on an exposed `x`, the forest becomes the one rerooted at `x` |
| LinkCut.LinkCutTree.Toggle | Link-cut-Tree.py:100 | the new node state is `Flip` of the old one: only `x`'s reversal flag changes; the forest is unchanged |
| LinkCut.LinkCutTree.MakeRoot | Link-cut-Tree.py:98-101 | the forest becomes `Reroot(forest, x)`; `x` is a splay root with no parent, its sequence is its old root path reversed, and the values are unchanged |
| LctForest.RerootConnected | Link-cut-Tree.py:98-101 | rerooting changes no connectivity |
| LctForest.RerootEdges | Link-cut-Tree.py:98-101 | rerooting keeps the undirected edge set |
| LctForest.RerootRoot | Link-cut-Tree.py:98-101 | after rerooting at `x`, every node of `x`'s tree has root `x`, and every other node keeps its root |
| LctOps.FindStep | Link-cut-Tree.py:107-112 | each pushDown and left step of the walk keeps the first node of `x`'s path within reach and shrinks the subtree; at a node without a left child, that node is the first one |
| LinkCut.LinkCutTree.FindRoot | Link-cut-Tree.py:103-114 | returns `Root(forest, x)` and leaves the forest unchanged |
| LinkCut.LinkCutTree.Connected | Link-cut-Tree.py:116-119 | true exactly when `u` and `v` lie in the same tree of the forest (including `u == v`) |
| LctOps.LinkStep | Link-cut-Tree.py:125 | with `u` rerooted and `v` in another tree, setting `u`'s parent to `v` represents `Link(forest, u, v)` |
| LinkCut.LinkCutTree.Link | Link-cut-Tree.py:121-125 | the forest becomes `Link(forest, u, v)`: `u`'s tree rerooted and hung below `v`, or only rerooted when `u` and `v` are already connected |
| LinkCut.LinkCutTree.Hang | Link-cut-Tree.py:124-125 | only `parent[u]` changes, to `v`; the forest is unchanged |
| LctForest.LinkConnected | Link-cut-Tree.py:121-125 | after `link(u, v)`, `a` and `b` are connected exactly when they were before, or `u` and `v` were apart and `a`, `b` lie on opposite sides |
| LctForest.LinkEdges | Link-cut-Tree.py:121-125 | `link(u, v)` adds the edge u–v when `u` and `v` are apart and changes no edge otherwise |
| LctOps.CutTest | Link-cut-Tree.py:130-132 | after `makeRoot(u)` and `access(v)` with u–v an edge, `v.left is u` and `u.right is None` hold |
| LctOps.DetachRepresents | Link-cut-Tree.py:133-135 | detaching `v`'s left subtree and pushing up `v` represents the forest with `v`'s parent pointer cleared |
| LinkCut.LinkCutTree.Cut | Link-cut-Tree.py:127-135 | when u–v is an edge, the forest becomes `Cut(forest, u, v)`; otherwise it is rerooted at `u` or cut below `v` |
| LinkCut.LinkCutTree.DropLeft | Link-cut-Tree.py:133-135 | the new node state is `Detach` of the old one: `u` loses its parent, `v` its left child, and `v`'s size and sum are recomputed; in the forest only `v`'s parent link goes |
| LctForest.CutEdges | Link-cut-Tree.py:127-135 | cutting an existing edge u–v removes exactly that edge |
| LctOps.UpdateStep | Link-cut-Tree.py:139-140 | setting the value of a splay root and pushing it up keeps the nodes valid for the same forest |
| LinkCut.LinkCutTree.UpdateValue | Link-cut-Tree.py:137-140 | only `val[x]` changes, to the new value; the forest is unchanged |
| LctNodes.SumIsPathSum | Link-cut-Tree.py:142-146 | in correctly summed nodes, the `sum` of a node is the sum of `val` over its in-order sequence |
| LinkCut.LinkCutTree.PathSum | Link-cut-Tree.py:142-146 | the forest is rerooted at `u`, and the result is the sum of `val` over the path from the new root of `v`'s tree down to `v` |
| LctForest.TreePath | Link-cut-Tree.py:142-146 | for connected `u` and `v`, that path starts at `u`, ends at `v`, repeats no node, and each step is an edge: it is the tree path u–v |
| LctForest.PathElsewhere | Link-cut-Tree.py:142-146 | for `u` and `v` in different trees, the path summed is `v`'s own root path |
| LctDemo.Build | Link-cut-Tree.py:155-162 | seven nodes valued 1..7, then links 1–2 and 2–3, give the expected parent pointers |
| LctDemo.Grow | Link-cut-Tree.py:163-164 | links 3–4 and 3–5 give the expected parent pointers |
| LctDemo.Complete | Link-cut-Tree.py:165-166 | links 5–6 and 2–7 give the expected parent pointers |
| LctDemo.FirstSumOneFour | Link-cut-Tree.py:169 | `pathSum(1, 4)` is 10 |
| LctDemo.SumSixSeven | Link-cut-Tree.py:170 | `pathSum(6, 7)` is the sum of the values of 6, 5, 3, 2 and 7 |
| LctDemo.SetThree | Link-cut-Tree.py:173 | `updateValue(3, 30)` changes only node 3's value |
| LctDemo.SecondSumOneFour | Link-cut-Tree.py:174 | after the update, `pathSum(1, 4)` is 37 |
| LctDemo.Sums | Link-cut-Tree.py:169-175 | the four path sums are 10, 23, 37 and 50 |
| LctDemo.Split | Link-cut-Tree.py:178-179 | after cutting 3–5, nodes 6 and 1 are not connected |
| LctDemo.Rejoin | Link-cut-Tree.py:181-182 | after linking 6 to 4, nodes 6 and 1 are connected |
| LctDemo.SumSixOne | Link-cut-Tree.py:183 | `pathSum(6, 1)` is then 43 |
| LctDemo.Example | Link-cut-Tree.py:153-183 | the whole run yields 10, 23, 37, 50, false, true and 43 |
| Clipboard.Acknowledge | src/components/OnboardingModal.tsx:35 | a successful copy sets the key's flag and no other |
| Clipboard.Expire | src/components/OnboardingModal.tsx:36-38 | the timer clears the key's flag and no other |
| Clipboard.AfterCopy | src/components/OnboardingModal.tsx:32-42 | success acknowledges the key; failure leaves the flags unchanged |
| Clipboard.CopyThenExpire | src/components/OnboardingModal.tsx:32-42 | a copy followed by its timer leaves the key unacknowledged and every other key as before |
| Clipboard.RepeatedCopyConverges | src/components/OnboardingModal.tsx:32-42 | two copies of one key followed by both timers end as one copy followed by its timer |
| Commands.ActivateCommand | src/components/OnboardingModal.tsx:214-220 | `source venv/bin/activate` exactly for unix, `venv\Scripts\activate` exactly for windows |
| Commands.ActivateSeparators | src/components/OnboardingModal.tsx:214-220 | the windows command has a backslash and no slash, and the unix one the reverse |
| Onboarding.StepIdsDistinct | src/components/OnboardingModal.tsx:48-443 | there are eight steps, with pairwise distinct ids |
| Onboarding.Next | src/components/OnboardingModal.tsx:445-449 | increments exactly when the step is below the last one, otherwise stays, and stays within the steps |
| Onboarding.Prev | src/components/OnboardingModal.tsx:451-455 | decrements exactly when the step is above 0, otherwise stays, and stays within the steps |
| Onboarding.NextTimesClamps | src/components/OnboardingModal.tsx:445-449 | `k` presses of Next reach `min(step + k, 7)` |
| Onboarding.AdvanceFromStart | src/components/OnboardingModal.tsx:25 | from the initial step 0, `k` presses reach step `k`, or the last step once `k >= 8` |
| Onboarding.MarkComplete | src/components/OnboardingModal.tsx:44-46 | the completed set grows by exactly the given index |
| Onboarding.MarkCompleteIdempotent | src/components/OnboardingModal.tsx:44-46 | marking a step twice equals marking it once |
| Onboarding.ProgressFacts | src/components/OnboardingModal.tsx:457 | progress is 12.5 on the first step and exactly 100 on the last, lies in (0, 100], and strictly increases with the step |
| Onboarding.Progress | src/components/OnboardingModal.tsx:457 | on every valid step the percentage lies in (0, 100] |
| Onboarding.MarkerAt | src/components/OnboardingModal.tsx:498-505 | a marker is `active` exactly when its index is at most the current step, `completed` exactly when its step is marked, and shows a check mark when marked and its one-based number otherwise |
| Onboarding.MarkersFollowState | src/components/OnboardingModal.tsx:498-505 | the first and the current markers are active and later ones are not; Next activates exactly the following marker, Prev deactivates exactly the current one, and marking step `i` complete checks marker `i` and no other |
| Onboarding.Footer | src/components/OnboardingModal.tsx:526-541 | the GitHub link replaces Next exactly on the last step |
| Onboarding.OverlayClickCloses | src/components/OnboardingModal.tsx:459-463 | the overlay's own handler calls `onClose` exactly when the click target is the overlay itself |
| Onboarding.CloseCalls | src/components/OnboardingModal.tsx:459-487 | one click calls `onClose` at most once, and exactly once when it lands on the overlay or on the header's close button; the button's click bubbles to the overlay handler, which ignores it |
| Onboarding.ShownKey | src/components/OnboardingModal.tsx:318 | the draft key when non-empty, otherwise `your-api-key` |
| Onboarding.ExportCommandRoundTrip | src/components/OnboardingModal.tsx:318-321 | the export command is the fixed prefix, the shown key, and a closing quote, and the key can be read back from it |
| Onboarding.ExportCommand | src/components/OnboardingModal.tsx:318-321 | the command is as long as the prefix, the shown key and one quote together, starts with `export GOOGLE_API_KEY="` and ends with a quote |
| Onboarding.WindowsSetLine | src/components/OnboardingModal.tsx:327-334 | the `set GOOGLE_API_KEY=` line exists exactly for windows and carries the shown key |
| Onboarding.RunCommandRoundTrip | src/components/OnboardingModal.tsx:382-384 | the run command is `insight-cli ` followed by the path, and the default path gives `insight-cli ./my-project` |
| Onboarding.RunCommand | src/components/OnboardingModal.tsx:382-384 | the command is as long as `insight-cli ` and the path together, and starts with `insight-cli ` |
| Onboarding.Wizard.constructor | src/components/OnboardingModal.tsx:25-30 | initial state: step 0, nothing completed or copied, unix, empty key, `./my-project` |
| Onboarding.Wizard.NextStep | src/components/OnboardingModal.tsx:445-449 | the step becomes `Next` of the old one, stays valid, and nothing else changes |
| Onboarding.Wizard.PrevStep | src/components/OnboardingModal.tsx:451-455 | the step becomes `Prev` of the old one, stays valid, and nothing else changes |
| Onboarding.Wizard.MarkStepComplete | src/components/OnboardingModal.tsx:44-46 | the completed set becomes `MarkComplete` of the old one, and nothing else changes |
| Onboarding.Wizard.CopyToClipboard | src/components/OnboardingModal.tsx:32-42 | the flags become `AfterCopy` of the old ones, and nothing else changes |
| Onboarding.Wizard.CopyTimerFired | src/components/OnboardingModal.tsx:36-38 | the flags become `Expire` of the old ones, and nothing else changes |
| Onboarding.Wizard.SetOS | src/components/OnboardingModal.tsx:186-199 | only the OS choice changes |
| Onboarding.Wizard.SetApiKey | src/components/OnboardingModal.tsx:297 | only the key draft changes |
| Onboarding.Wizard.SetProjectPath | src/components/OnboardingModal.tsx:362 | only the path draft changes |
| Onboarding.Wizard.ShownActivateCommand | src/components/OnboardingModal.tsx:214-220 | the unix activation command exactly when unix is selected, the windows one exactly when windows is |
| Onboarding.Wizard.ShownExportCommand | src/components/OnboardingModal.tsx:318-321 | the shown command starts with the export prefix and carries the key draft, or `your-api-key` when the draft is empty |
| Onboarding.Wizard.ShownRunCommand | src/components/OnboardingModal.tsx:382-384 | the shown command is `insight-cli ` followed by exactly the path draft |
| Layout.StartsWith | src/components/Layout.tsx:40 | `s` starts with `p` exactly when `s` is `p` followed by some rest |
| Layout.IsActive | src/components/Layout.tsx:36-41 | `/` is active exactly on pathname `/`; any other link exactly when the pathname starts with it |
| Layout.SubPageActivatesSection | src/components/Layout.tsx:36-41 | `/features/x` activates `/features` but not `/` |
| Layout.NoLinkIsPrefixOfAnother | src/components/Layout.tsx:29-34 | any two non-root links differ in their second character |
| Layout.AtMostOneActive | src/components/Layout.tsx:29-41 | for every pathname, at most one navigation link is active |
| Layout.Menu.constructor | src/components/Layout.tsx:12 | the menu starts closed |
| Layout.Menu.Toggle | src/components/Layout.tsx:104 | the button flips the menu flag |
| Layout.Menu.RouteChanged | src/components/Layout.tsx:24-27 | a location change closes the menu |
| Implementation.ShowsItems | src/pages/Implementation.tsx:193 | the bullet list shows exactly when `items` is present, even when it is empty (an empty array is truthy) |
| Implementation.ShowsCommand | src/pages/Implementation.tsx:203 | the command block shows exactly when `command` is present and non-empty (an empty string is falsy) |
| Implementation.StepCopy | src/pages/Implementation.tsx:203-214 | a step offers a copy exactly when its command is a non-empty string, copying that command under its key |
| Implementation.InstallationStepsRender | src/pages/Implementation.tsx:20-42 | the first step renders only its list; the other two render only a command, each with a key |
| Implementation.PageCopyKeys | src/pages/Implementation.tsx:20-81 | the page's copy keys in page order: the two quick-start keys, `install` and `version` from the installation steps, the four section keys, then the six usage-example keys |
| Implementation.CopyKeysDistinct | src/pages/Implementation.tsx:20-81 | the page's fourteen copy keys are pairwise distinct; besides the data at lines 20-81, the keys come from the buttons at lines 154, 164, 269, 291, 311 and 340 |
| Implementation.ApiKeyLines | src/pages/Implementation.tsx:336-351 | the export line always shows; the `set` line shows exactly for windows |
| Implementation.Page.constructor | src/pages/Implementation.tsx:5-6 | initial state: unix, nothing copied |
| Implementation.Page.SelectOS | src/pages/Implementation.tsx:244-257 | only the OS choice changes |
| Implementation.Page.CopyToClipboard | src/pages/Implementation.tsx:8-18 | the flags become `AfterCopy` of the old ones, and the OS choice is unchanged |
| Implementation.Page.CopyTimerFired | src/pages/Implementation.tsx:12-14 | the flags become `Expire` of the old ones, and the OS choice is unchanged |
| Implementation.Page.ShownActivateCommand | src/pages/Implementation.tsx:286-292 | the unix command exactly for unix, the windows command exactly for windows |
| Roadmap.StatusColor | src/pages/Roadmap.tsx:187-198 | green, yellow and blue gradients for the three statuses, gray for any other string |
| Roadmap.StatusBadge | src/pages/Roadmap.tsx:200-211 | green, yellow and blue badges for the three statuses, gray for any other string |
| Roadmap.TablesSeparateStatuses | src/pages/Roadmap.tsx:187-211 | two different statuses, at least one of them known, get different colours and badges |
| Roadmap.PeriodsUseKnownStatuses | src/pages/Roadmap.tsx:5-167 | every period's status is known, so none is drawn gray |
| Roadmap.FirstIndex | src/pages/Roadmap.tsx:243 | the index of the first occurrence of a character, or -1 exactly when there is none |
| Roadmap.ReplaceFirst | src/pages/Roadmap.tsx:243 | replacing keeps the length |
| Roadmap.ReplaceFirstSpec | src/pages/Roadmap.tsx:243 | `replace('-', ' ')` changes exactly the first dash, or nothing when there is none |
| Roadmap.ToUpperSpec | src/pages/Roadmap.tsx:243 | upper-casing keeps the length, maps each character, leaves no lower-case letter and is idempotent |
| Roadmap.ToUpper | src/pages/Roadmap.tsx:243 | upper-casing keeps the length |
| Roadmap.StatusLabel | src/pages/Roadmap.tsx:243 | the label is as long as the status, holds no lower-case ASCII letter, and is the plain upper-cased status when the status has no dash |
| Roadmap.CompletedLabel | src/pages/Roadmap.tsx:243 | the label of `completed` is `COMPLETED` |
| Roadmap.InProgressLabel | src/pages/Roadmap.tsx:243 | the label of `in-progress` is `IN PROGRESS` |
| Roadmap.PlannedLabel | src/pages/Roadmap.tsx:243 | the label of `planned` is `PLANNED` |
| Roadmap.SecondDashKept | src/pages/Roadmap.tsx:243 | only the first dash becomes a space: `a-b-c` gives `A B-C` |
| Languages.ColorClasses | src/components/LanguageModal.tsx:153-161 | a known colour gets its own gradient, any other the cyan one, never an empty string |
| Languages.ColorClassesDistinct | src/components/LanguageModal.tsx:153-159 | distinct known colours get distinct gradients |
| Languages.CategoryColorsKnown | src/components/LanguageModal.tsx:10-149 | every category's colour is a key of the dictionary |
| Languages.ExtensionsStartWithDot | src/components/LanguageModal.tsx:10-149 | every listed extension starts with a dot and has a further character |
| Languages.TsxListedTwice | src/components/LanguageModal.tsx:26-97 | `.tsx` is listed under both TypeScript and JSX/TSX |
| Languages.Render | src/components/LanguageModal.tsx:151 | a closed modal renders nothing, and an open one renders the whole table |
| Languages.ClickCloses | src/components/LanguageModal.tsx:163-187 | a click closes the modal exactly when it lands on the backdrop or on the header's close button; a click anywhere else in the dialog stops propagating and closes nothing |

## Left out

- LinkCut.LinkCutTree.Cut: when u–v is not an edge, the model does not prove that nothing is detached. It proves only that the result is the rerooted forest or the forest cut below `v`. Closing the gap needs `u`'s reversal flag to be clear after `access(v)`, and the splay invariant does not track that flag.
- Running time: the amortised O(log n) bound is not a functional property and is not modelled.
- The `print` calls of the example run. Their expected values are the postconditions of `LctDemo.Example`.
- Node objects and their identity: nodes are indices, so `is` comparisons become integer equality.
- The clipboard write and `setTimeout`: these browser services appear only as the events they cause, namely a copy that succeeds or fails and a later timer expiry. The `console.error` logging on failure is not modelled.
- JSX markup, CSS classes, icons, routing and React's scheduling of state updates. Each setter is a plain state update.
- The progress bar's floating-point width: progress is an exact rational number.
- `toUpperCase` beyond ASCII letters: the status strings are ASCII.
- Prototype keys such as `toString` in the colour dictionary lookup: a key is either one of the four entries or absent.
- The layout's mouse-glow position and listener, and the static texts of the pages.
- src/App.tsx, src/pages/Features.tsx and src/pages/Home.tsx are not part of this model. They hold static content and an open/close flag.
