# DOM widget: element discovery, retry loop and validation gate

The DOM widget runs inside an iframe of an API Management developer-portal page. It reads the
parent ("host") document and looks for its own iframe there. It then collects the elements
that come before that iframe, nearest first, and picks the first textbox and the first button
(a BUTTON, or an INPUT of type button or submit) in that list. If the textbox comes before the
button in the list, it installs a validation gate once: the button is enabled only while the
textbox value matches the configured regular expression. While the elements cannot be found,
it retries every second on a single interval timer. Every step is reported in a status log.

The project models that core in Dafny:

- `Wrappers.dfy` holds the `Option` datatype.
- `Dom.dfy` holds the host document: an immutable tree of elements, where an element is
  identified by its path from the root. It also has the pre-order walk (`Walk`), the iframe
  list (`Iframes`) and document order (`LeftOf`).
- `Discovery.dfy` holds one discovery pass:
  - the proximity collector (`Candidates`, with the imperative `CollectElementsInOrder`,
    `CollectPreviousSiblings` and `CollectCandidates`);
  - the classifier (`FirstIndex`, `Classify`);
  - the self-locator (`LocateSelf`, `LocateIframe`);
  - the verdict (`Verdict`, `Discover`) and the outcome of a whole pass (`Pass`).
- `WidgetValues.dfy` holds the configuration values and the default pattern
  `^ABC-\d+-DEF$`, written out as a predicate.
- `Widget.dfy` holds the widget:
  - its state as a value (`WidgetState`);
  - each operation as a pure transition function (`ShowOn`, `StartRetry`, `StopRetry`,
    `Validate`, `Setup`, `AfterDiscover`, `AfterPass`, `AfterEvent`, `Run`);
  - lemmas about those functions;
  - class `App`, whose fields mirror the widget's fields. Each method is proved to change
    them exactly as the matching function says (`State() == F(old(State()))`).

The state also holds the parts of the browser the widget writes to: the style of each button
(by path), the attached listeners, the live value of the bound textbox, and the window's table
of live intervals.

## Model

| member | source | states |
|---|---|---|
| Dom.WalkShape | src/dom-widget/src/index.ts:180-187 | the walk of a subtree has one entry per element of it, and its first entry is the element itself |
| Dom.WalkLocated | src/dom-widget/src/index.ts:180-187 | every entry of a walk is a real element of the document, inside the walked element's subtree |
| Dom.WalkComplete | src/dom-widget/src/index.ts:180-187 | every element of the document inside the walked element's subtree appears in the walk |
| Dom.WalkDistinct | src/dom-widget/src/index.ts:180-187 | the walk lists no element twice |
| Dom.PrefixValid | src/dom-widget/src/index.ts:111-118 | every ancestor of an element exists, following `parentElement` upward |
| Dom.Iframes | src/dom-widget/src/index.ts:41 | every entry of `getElementsByTagName('iframe')` is an element of the document with tag IFRAME |
| Dom.IframesComplete | src/dom-widget/src/index.ts:41 | conversely, every IFRAME element of the document is in the list |
| Discovery.CollectElementsInOrder | src/dom-widget/src/index.ts:180-187 | the collection keeps its prefix and gains exactly the pre-order walk of the element: the element first, then each child's walk in order |
| Discovery.CollectPreviousSiblings | src/dom-widget/src/index.ts:104-108 | the `previousElementSibling` loop appends the walks of all earlier siblings, nearest first |
| Discovery.CollectCandidates | src/dom-widget/src/index.ts:99-119 | the list built equals `Candidates`: the iframe's level, then each ancestor's level, stopping at `body` or at null |
| Discovery.CandidatesBeforeIframe | src/dom-widget/src/index.ts:99-119 | every candidate is an element of the document, comes before the iframe in document order, and is neither the iframe nor one of its ancestors |
| Discovery.CandidatesCover | src/dom-widget/src/index.ts:99-119 | conversely, every element before the iframe in document order that is not an ancestor of it is a candidate, as long as it lies inside `body` when `body` contains the iframe |
| Discovery.CandidatesDistinct | src/dom-widget/src/index.ts:99-119 | the list names no element twice |
| Discovery.CandidatesInsideBody | src/dom-widget/src/index.ts:111-119 | when `body` contains the iframe, every candidate lies strictly inside `body`; the walk upward never passes it |
| Discovery.CandidatesStartWithNearestSibling | src/dom-widget/src/index.ts:104-106 | the list begins with the iframe's nearest previous sibling, followed by that sibling's whole subtree |
| Discovery.RolesDisjoint | src/dom-widget/src/index.ts:128-140 | no element qualifies as both a textbox and a button |
| Discovery.Qualifies | src/dom-widget/src/index.ts:129-139 | a textbox is an INPUT or TEXTAREA whose type is not hidden, button or submit; a button is a BUTTON, or an INPUT of type button or submit |
| Discovery.InputRoles | src/dom-widget/src/index.ts:129-139 | an INPUT of type hidden is neither role, one of type button or submit is a button only, any other is a textbox only; a BUTTON is a button only |
| Discovery.FirstIndex | src/dom-widget/src/index.ts:125-142 | the index found qualifies for the role and no earlier index does; none is found only when no element qualifies |
| Discovery.FirstIndexUnique | src/dom-widget/src/index.ts:125-142 | the first-match property determines the index |
| Discovery.FirstTextboxIsNotFirstButton | src/dom-widget/src/index.ts:122-142 | the first textbox index and the first button index are never equal |
| Discovery.Classify | src/dom-widget/src/index.ts:122-142 | the single scan records the first textbox index and the first button index, and never overwrites either later |
| Discovery.LocateSelf | src/dom-widget/src/index.ts:44-53 | the iframe chosen is the first one whose content window is ours; iframes whose read throws are skipped |
| Discovery.LocateIframe | src/dom-widget/src/index.ts:42-53 | the loop with `break` finds our iframe exactly when one exists, and finds the first one |
| Discovery.Verdict | src/dom-widget/src/index.ts:144-170 | the verdict is never an access error or a missing iframe; it is an ordering violation exactly when both indices exist and the textbox's is greater; otherwise a missing textbox exactly when there is no textbox, a missing button (carrying the textbox) exactly when there is a textbox but no button, and a success, carrying the two elements at those indices, exactly when both exist in order |
| Discovery.PassFoundCharacterized | src/dom-widget/src/index.ts:35-77 | a pass succeeds exactly when our iframe is found and, among its candidates, the first textbox comes before the first button; the two elements found then qualify, are in the document and come before the iframe |
| Discovery.DiscoverOrdering | src/dom-widget/src/index.ts:144-150 | with both elements present, the pass is accepted exactly when the textbox is nearer the iframe, and rejected as an ordering violation exactly when the button is |
| Discovery.ProximityNotDocumentOrder | src/dom-widget/src/index.ts:99-150 | siblings in the order textbox, button, iframe are rejected, while button, textbox, iframe are accepted |
| WidgetValues.DefaultPatternExamples | src/dom-widget/src/values.ts:7 | the default pattern accepts "ABC-123-DEF" and rejects "xyz", "ABC--DEF" and "ABC-12x-DEF" |
| Widget.InitialInv | src/dom-widget/src/index.ts:6-10 | the fields as initialised satisfy the invariant |
| Widget.Lower | src/dom-widget/src/index.ts:156 | `toLowerCase` on the tag name; see `Widget.LowerPointwise` |
| Widget.LowerPointwise | src/dom-widget/src/index.ts:156 | lower-casing keeps the length, maps each character on its own, and leaves no upper-case ASCII letter |
| Widget.Label | src/dom-widget/src/index.ts:155-164 | the identifier logged is never empty: the `id` when it is non-empty, else the `name`, else "(no id)" |
| Widget.GateStyle | src/dom-widget/src/index.ts:209-219 | `disabled` is the negation of validity; opacity "1" and cursor "pointer" when valid, "0.5" and "not-allowed" otherwise |
| Widget.ValidateGate | src/dom-widget/src/index.ts:202-220 | without both references nothing changes; otherwise only the bound button's style changes, to the gate style of the pattern test; validating twice equals validating once |
| Widget.AtMostOneTimer | src/dom-widget/src/index.ts:80-97 | under the invariant at most one interval is live; when one is, it is the one `retryIntervalId` holds and it fires every 1000 ms |
| Widget.Inv | src/dom-widget/src/index.ts:80-97 | the invariant: at most one live interval, the one `retryIntervalId` holds; live handles below the next handle; listeners exactly when initialised; both elements bound when initialised; no log without a status element |
| Widget.RetrySchedulerIdempotent | src/dom-widget/src/index.ts:80-97 | starting while polling and stopping while idle change nothing; start and stop are each idempotent |
| Widget.RetrySchedulerKeepsInv | src/dom-widget/src/index.ts:80-97 | start and stop keep the invariant; after a start an interval is held, after a stop none is live |
| Widget.DiscoverBindings | src/dom-widget/src/index.ts:144-177 | an ordering violation or a missing textbox binds nothing; a missing button binds only the textbox; a success binds both and initialises the gate; an initialised gate is never reinstalled |
| Widget.DiscoverStepsEffect | src/dom-widget/src/index.ts:144-177 | running the code's steps in order (log, bind, log, install once) has exactly the declarative effect `AfterDiscover` |
| Widget.PassStepsEffect | src/dom-widget/src/index.ts:35-77 | running the steps of `findParentElements` in order has exactly the declarative effect `AfterPass`: the log rewritten from its first entry, the discovery effect, then the retry interval stopped on success and started otherwise |
| Widget.PassKeepsInv | src/dom-widget/src/index.ts:35-97 | every pass, whatever its outcome, keeps the invariant (one interval at most, listeners exactly when initialised, both elements bound when initialised, no log without a status element) |
| Widget.PassRetryState | src/dom-widget/src/index.ts:55-77 | after a success no interval is live; after a retryable outcome exactly one one-second interval is live, the same one if already polling; an access error leaves the retry state unchanged |
| Widget.FirstPassFromConstruction | src/dom-widget/src/index.ts:12-28 | the first pass leaves an interval exactly when its outcome is retryable; an access error leaves no timer, and the log ends with the sandbox hint |
| Widget.SuccessIsFinal | src/dom-widget/src/index.ts:66-70 | after a success no interval is live, so no further pass is scheduled, and the gate is initialised |
| Widget.RunKeepsInv | src/dom-widget/src/index.ts:85-88 | any sequence of passes keeps the invariant and never has two live intervals |
| Widget.InitializedStays | src/dom-widget/src/index.ts:172-175 | once initialised, the flag stays set and the listeners stay as they were over any further passes |
| Widget.InstalledOnFirstSuccess | src/dom-widget/src/index.ts:172-200 | over any sequence of passes from an uninitialised widget, the gate is installed exactly when some pass succeeds, once, on the textbox of the first successful pass |
| Widget.TickOverwritesRetrying | src/dom-widget/src/index.ts:85-88 | the interval callback's "retrying" entry never survives the pass it starts |
| Widget.PassLogHasNoRetrying | src/dom-widget/src/index.ts:35-77 | no log written by a pass contains a "retrying" entry |
| Widget.EventRevalidates | src/dom-widget/src/index.ts:196-197 | once the gate is installed, an input or change event on the textbox leaves the button disabled exactly when the new value fails the pattern |
| Widget.EventWithoutListener | src/dom-widget/src/index.ts:196-197 | an event with no gate listener on its target changes no button |
| Widget.DefaultGateExamples | src/dom-widget/src/index.ts:202-220 | with the default pattern and both elements bound, validating "ABC-123-DEF" enables the bound button and validating "xyz" disables and dims it |
| Widget.App.constructor | src/dom-widget/src/index.ts:12-28 | construction starts from the initial fields, runs one pass, and leaves the invariant and the state after that pass |
| Widget.App.ShowStatus | src/dom-widget/src/index.ts:222-235 | without a status element nothing changes; with one, `append` adds one entry at the end and otherwise the log becomes that single entry |
| Widget.App.SetInterval | src/dom-widget/src/index.ts:85-88 | the browser hands out the next interval handle and registers it with the given period; under the invariant, which keeps every live handle below the next one, that handle is fresh |
| Widget.App.ClearInterval | src/dom-widget/src/index.ts:93 | the interval is removed from the live table |
| Widget.App.StartRetryInterval | src/dom-widget/src/index.ts:80-89 | the fields change exactly as `StartRetry` says: nothing while polling, otherwise log and register one 1000 ms interval |
| Widget.App.StopRetryInterval | src/dom-widget/src/index.ts:91-97 | the fields change exactly as `StopRetry` says: nothing while idle, otherwise clear the interval, forget it and log |
| Widget.App.ValidateAndUpdateButton | src/dom-widget/src/index.ts:202-220 | the fields change exactly as `Validate` says |
| Widget.App.SetupTextboxValidation | src/dom-widget/src/index.ts:189-200 | the fields change exactly as `Setup` says: validate once, attach an input and a change listener to the textbox, log |
| Widget.App.FindElementsBeforeIframe | src/dom-widget/src/index.ts:99-178 | returns true exactly when the verdict on the iframe's candidates is a success; the fields change exactly as `AfterDiscover` says for that verdict |
| Widget.App.AdoptVerdict | src/dom-widget/src/index.ts:144-177 | given the candidates and the two first indices, it returns true exactly on a success and changes the fields as the code's steps do for `Verdict` |
| Widget.App.FindParentElements | src/dom-widget/src/index.ts:35-78 | the fields change exactly as `AfterPass` says for the outcome `Pass` of this pass |
| Widget.App.Tick | src/dom-widget/src/index.ts:85-88 | the interval callback logs "retrying", then runs a pass; the invariant is kept |
| Widget.App.DispatchEvent | src/dom-widget/src/index.ts:196-197 | the browser's event dispatch changes the fields exactly as `AfterEvent` says, and keeps the invariant |

## Left out

- Rendering of the configured values (`updateDisplay`, and its two calls in `initializeWidget`, lines 22-24 and 30-33): it only writes text into the widget's own page. The first discovery pass, which `initializeWidget` runs at line 27, is modelled in `Widget.App.constructor`.
- `showValidationResult` (lines 237-244): nothing calls it.
- The timestamp, CSS class and exact wording of each status entry (lines 225-227): an entry is modelled as its severity and a message kind. The found-element entries keep the lower-cased tag and identifier.
- `getValues` and the secrets (line 15): the resolved values are a constructor parameter. `valuesDefault` is modelled as `WidgetValues.ValuesDefault`.
- The regular-expression engine (line 206) is the parameter `matches`. An invalid pattern, which makes `new RegExp` throw, is not modelled. Only the default pattern is written out, as `DefaultPatternTest`.
- `Widget.App.FindParentElements`: its `catch` is modelled only for the parent-document read (`ParentAccess.Denied`). Other exceptions inside the `try` are not modelled.
- Real time and the browser's event loop: an interval fires only when `Tick` is called with a live handle, and an event only when `DispatchEvent` is called.
- `Widget.App.FindParentElements` does not state the invariant itself. Its callers obtain it from `PassKeepsInv`, since the state equation and that lemma together imply it.
- `Widget.App.AdoptVerdict`: the second half of `findElementsBeforeIframe` is a method of its own, to keep each proof small. The outer method runs the collector and the classifier and then calls it, and the order of the steps is the same.
- The host document is one immutable snapshot per pass, and an element is its path in that snapshot. Element identity across passes, for a page that changes between retries, is not modelled.
- `collectElementsInOrder` pushes onto a shared array. In the model it returns the extended sequence; the array is local to one call of `findElementsBeforeIframe`, so nothing else can observe it.
- `toLowerCase` is modelled for ASCII letters only, which covers the tag names the DOM reports.
- `Discovery.CandidatesInsideBody` needs `body` to contain the iframe. When it does not (no `body`, or an iframe outside it), the walk goes up to the root. `body` can then appear among the candidates, as a previous sibling of an ancestor.

## Open question: proximity order versus document order

The comments at lines 100 and 144 speak of document order, and the rejection message says the
textbox must appear before the button in the page. The list the code builds is in proximity
order instead: the nearest previous sibling comes first, so one level is in reverse document
order. The index comparison at line 146 therefore compares nearness to the iframe.
`Discovery.ProximityNotDocumentOrder` proves the consequence. A body with a text input, a
button and the iframe, in that document order, is rejected as an ordering violation. The
layout with the button first is accepted. The model keeps the code's behaviour.
