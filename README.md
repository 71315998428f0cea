# formalize: the multi-step form wizard, modelled in Dafny

`app.js` drives a questionnaire split into panels (form steps). An `App`
singleton keeps the current panel, the number of completed panels, the
number of present panels and ad-hoc answers such as `isDope`. Each `.panel`
element is decorated with a `Panel` record of flags (`isActive`,
`isComplete`, `hasError`, `isPresent`). Each `input` is registered by id as
an `Input` that may validate its value against a named rule of the
`Validation` table and then run a named hook of the `Callbacks` table.
Forward navigation is gated on the current panel being complete and happens
after a delay. Backward navigation is unconditional.

The model has five modules:

- `Values`: the JavaScript values the wizard compares: attributes that may be
  absent, truthiness, the `"undefined"` key.
- `Validation`: the rule table as pure functions (`Test`, `Message`,
  lookup by name).
- `Callbacks`: the hook table and the value `updateIsDope` writes.
- `Counting`: counting flags as `App.set` does, and the `.each` scan of the
  multi-input panels, written as a loop.
- `Wizard`: `class Panel` and `class App`, whose methods update the flags
  and counters in place, plus the `Input` record and the event handlers
  that tie validation to navigation.

The invariant `App.Valid()` has two parts. `App.Wellformed()` says panel
`k` sits at position `k`, every panel is present, `currentNumPanels` equals
the number of panels, and `currentPanel` indexes a panel. On top of that,
`completed` is the number of complete panels. That second part holds
because every completion goes through the current panel, and
`onComplete` calls `forward`, whose gate then passes and recounts. The
navigation methods (`ForwardFire`, `Backward`), the refresh loops,
`DoValidate`, `OnValidate`, `Panel.OnComplete` and the event handlers
require and keep `Valid()`. `Forward` needs only `Wellformed()`, because
`onComplete` calls it between setting the flag and the recount. It
restores `Valid()` when it recounts. The setters, `RunCallback` and the
counting loops neither require nor promise it. Each method's contract ties
the panels' flags (`View()`) and the counters to their old values through
specification functions (`Clamp`, `ActivateOnly`, `Validated`, `Count`).
The lemmas about those functions state what the source promises.

Behaviour of the code that the model keeps as written:

- The panel creator passes `isDependent` but the `Panel` constructor reads
  `options.state`. So `isDependent` is always undefined, and every panel is
  present in every state. `Valid()` records this.
- `setTimeout` in `forward` is modelled as a second method,
  `App.ForwardFire`. That continuation advances without re-checking
  completeness. The handlers return how many advances they scheduled. A
  `textMulti` blur can schedule two: one from a passing validation and one
  from the scan.
- The `.each` scans of `textMulti` and `radioMulti` write `pass` for every
  element. The bare `return` inside the callback does not stop the scan.
  So only the last input or group decides (`Counting.LastNonZero`).
- `doValidate` completes the *current* panel, not the panel that holds the
  input. `hasError` is never cleared.
- Clamping applies the lower bound first. So with no present panels,
  `currentPanel` would become `-1`.

Points where app.js does less than one might expect:

- `currentNumPanels` is recounted only during initialisation. `onValidate`
  recomputes each panel's presence but does not recount (app.js:242-244).
- `onValidate` also runs after a soft failure (app.js:237).
- A later successful validation does not reset `hasError`. Only a CSS class
  is removed (app.js:227).

## Model

| member | source | states |
|---|---|---|
| Validation.RuleNamed | app.js:225 | `Validation[name]` finds a rule exactly when `name` is the property name of one of the four modelled rules; any other name gives no rule, which for an undefined name is the TypeError of `.test` (`isNumeric` is defined in the source but not modelled) |
| Validation.NameRoundTrip | app.js:69-100 | looking up a rule by its own name finds that rule |
| Validation.Test | app.js:70-99 | `isRequired` accepts exactly the non-empty strings, `isTextLengthLongerThanThree` those of length at least 3, `didAnswerYes` only "Yes", `isGoldenState` only "Golden State" |
| Validation.Message | app.js:74-98 | every rule has a non-empty failure message |
| Validation.LongerThanThreeAcceptsThree | app.js:82-87 | despite its name the length rule accepts three characters; it rejects two and accepts four |
| Validation.RequiredScenario | app.js:76-81 | `isRequired` fails on "" with "This field is required." and passes on "x" |
| Callbacks.CallbackNamed | app.js:104-108 | `Callbacks[name]` exists exactly for "updateIsDope" |
| Callbacks.DopeValue | app.js:105-107 | `updateIsDope` stores "yes" iff validation passed and "no" iff it failed |
| Counting.Count | app.js:22-25 | a count of panels with a flag is at most the number of panels |
| Counting.CountZero | app.js:22-25 | the count is 0 iff no panel has the flag |
| Counting.CountAll | app.js:29-32 | when every panel is present the present count is the number of panels |
| Counting.CountUpdate | app.js:22-25 | changing one panel's flag changes the recount by exactly the difference of that flag |
| Counting.CountAppend | app.js:22-25 | counting two runs of panels adds their counts |
| Counting.CountOneHot | app.js:47-49 | flags true at exactly one position count one |
| Counting.LastNonZero | app.js:167-171 | the `textMulti` scan (and the identical `radioMulti` scan) passes iff the LAST input or group is filled |
| Counting.LastNonZeroIsWeakerThanAll | app.js:198-202 | "every group filled" implies the scan passes, but the scan also passes on `[0, 1]`, where the first group is empty |
| Wizard.Clamp | app.js:17-20 | with at least one present panel the stored index lies in `[0, count-1]`, values already in range are kept, values below become 0 and values above become `count-1`; with no present panel it is `-1` |
| Wizard.ActivateOnly | app.js:122-124 | refreshing `isActive` sets it to (position == current) on every panel and changes no other flag, so the completion flags, and with them the `completed` count, are kept |
| Wizard.ExactlyOneActive | app.js:58-60 | after the refresh the current panel is active, every other panel is not, and exactly one panel is active |
| Wizard.CompleteAt | app.js:139-141 | `onComplete` makes panel `c` complete and changes no other flag of it and no other panel |
| Wizard.Validated | app.js:228-236 | after `doValidate` only the current panel changes: a pass completes it, a failure without `softfail` sets `hasError` and leaves `isComplete`, a soft failure changes nothing, and `isActive`/`isPresent` are kept; a failure leaves every completion flag as it was |
| Wizard.CompletedAfterComplete | app.js:21-27 | completing a panel raises the recounted `completed` by one iff the panel was not complete yet |
| Wizard.Registry | app.js:281 | every registered input is stored under its own id |
| Wizard.RegistryLast | app.js:273-282 | every input's id is registered, and an id maps to the last input carrying it |
| Wizard.RegistryKeys | app.js:273-282 | every registered id is the id of some input |
| Wizard.Panel.constructor | app.js:111-119 | a new panel has no error, is not complete, is present, is active iff its index is 0, and takes `isDependent` from `options.state` |
| Wizard.Panel.SetActive | app.js:122-127 | the panel is active iff its index equals `current`, or equals `App.currentPanel` when `current` is absent or 0 |
| Wizard.Panel.SetIsPresent | app.js:130-136 | the panel is present iff it has no truthy dependency or `App.get(data-state)` is strictly equal to `data-value` |
| Wizard.Panel.OnComplete | app.js:139-144 | called on the current panel (as every call site does): the panel becomes complete and no other flag changes, forward is always scheduled, and `completed` grows by one iff the panel was not complete before, so the invariant is kept |
| Wizard.Panel.OnError | app.js:147-152 | `hasError` becomes true; nothing else changes |
| Wizard.App.Get | app.js:11-13 | `currentPanel`, `completed` and `currentNumPanels` read as their own numbers; any other stored property reads as exactly its stored string, and only stored properties read as strings |
| Wizard.NewPanels | app.js:255-261 | panel `k` is a fresh panel with index `k` and the `k`-th panel's attributes, no dependency, active iff `k` is 0, not complete, no error, present |
| Wizard.RegisterInputs | app.js:273-282 | the loop stores every input under its id, giving exactly `Registry` of the inputs |
| Wizard.App.Decorate | app.js:263-264 | every panel is active iff its position is `currentPanel`, present, and still neither complete nor erroneous; the `App` fields are untouched |
| Wizard.App.CountInitialPanels | app.js:267 | on freshly decorated panels the recount makes `currentNumPanels` the panel count and establishes the invariant (nothing is complete, `completed` is 0) |
| Wizard.App.constructor | app.js:251-282 | after initialisation: panel `k` has index `k`, only panel 0 is active, nothing is complete or erroneous, all panels are present, `currentNumPanels` is the panel count (1 when there are none), `isDope` is "no", and inputs are registered by id; with at least one panel the invariant holds |
| Wizard.App.SetCurrentPanel | app.js:17-20 | `currentPanel` becomes `Clamp(value, currentNumPanels)` and nothing else changes |
| Wizard.App.CountCompleted | app.js:22-25 | the loop returns the number of complete panels |
| Wizard.App.CountPresent | app.js:29-32 | the loop returns the number of present panels |
| Wizard.App.SetCompleted | app.js:21-27 | `completed` becomes the number of complete panels whatever value was passed, so repeating it changes nothing; no panel flag changes |
| Wizard.App.SetCurrentNumPanels | app.js:28-34 | `currentNumPanels` becomes the number of present panels whatever value was passed; no panel flag changes |
| Wizard.App.SetProp | app.js:35-36 | any other property is stored as given and read back by `get` |
| Wizard.App.Forward | app.js:42-52 | nothing changes unless the current panel is complete; then `completed` is recounted and one advance is scheduled; `currentPanel` and all panel flags are unchanged; a recount (or a state that already held the invariant) leaves the invariant holding |
| Wizard.App.ForwardFire | app.js:45-50 | `currentPanel` becomes `min(old+1, count-1)` without a completeness check, and exactly the new current panel is active |
| Wizard.App.Backward | app.js:56-61 | `currentPanel` becomes `max(old-1, 0)`, so it stays at 0; exactly that panel is active; no other App field changes |
| Wizard.App.RefreshActive | app.js:47-49 | every panel's `isActive` is recomputed against `currentPanel`, other flags untouched |
| Wizard.App.RefreshPresence | app.js:242-244 | every panel's presence is recomputed from its dependency; with no dependent panels all flags stay as they were |
| Wizard.App.RunCallback | app.js:241 | a known hook writes its property: `isDope` becomes "yes"/"no" from the result |
| Wizard.App.OnValidate | app.js:240-245 | an unknown hook name throws and changes nothing; a known hook writes its property, then presence is recomputed |
| Wizard.App.ReportResult | app.js:228-236 | the flags become `Validated(...)` of the result on the current panel, one advance is scheduled iff the value passed, and the invariant is kept |
| Wizard.App.DoValidate | app.js:221-238 | an unknown rule throws before any change; otherwise the panel flags become `Validated(...)` of the result, a pass schedules one advance and recounts `completed`, and `onValidate` then runs with the result (throwing on an unknown hook) |
| Wizard.App.CompleteCurrent | app.js:156-160 | the `affirm`/`radioSingle` handler completes the current panel, recounts `completed` and schedules one advance |
| Wizard.App.OnTextSingleBlur | app.js:179-187 | an unknown input id throws and changes nothing; an input that does not validate completes the current panel, recounts `completed` and schedules one advance; one that validates has exactly `DoValidate`'s effect on the flags, `completed`, the properties, the outcome and the schedule |
| Wizard.App.OnTextMultiBlur | app.js:161-172 | an unknown id throws and changes nothing; otherwise the flags become `DoValidate`'s result (when the input validates) and then, unless validation threw, the current panel is completed when the last input is non-empty; the schedule counts one advance for a passing validation and one for a passing scan, so two are possible; when the scan fails after a non-validating input nothing changes |
| Wizard.App.CompleteOnScan | app.js:167-171 | the scan shared by `textMulti` and `radioMulti`: iff the last entry is non-zero the current panel is completed and one advance is scheduled, otherwise nothing changes |
| Wizard.App.OnRadioMultiClick | app.js:194-203 | iff the last radio group has a checked input, the current panel is completed, `completed` is recounted and one advance is scheduled; otherwise no advance is scheduled and nothing changes |

## Left out

- DOM work is not modelled: jQuery selection, CSS class changes, `.text()`/`.empty()` writes and event binding. The progress counters' display is left out too. These are presentation only.
- `console.log` output is not modelled; it is logging only.
- The `document.onkeydown` debug handler is not modelled; it is debugging glue.
- The 500 ms `setTimeout` delay is not modelled. The deferred step is `App.ForwardFire`. The caller decides when it runs relative to other events, and so when a second advance races the first.
- Reading the DOM at start-up is not modelled. `App.constructor` takes the panel attributes and the input records as sequences.
- Element values and attributes (`val()`, `attr(...)`) are not read from the DOM. They are parameters, so `OnTextSingleBlur` receives the id of the panel's first input.
- Wizard.App.constructor: it recounts `currentNumPanels` once after all panels exist, not after each push. The final value is the same; only the intermediate progress text differs.
- Wizard.App.DoValidate: it requires that the rule name is not `isNumeric`. That rule delegates to jQuery's `$.isNumeric`, which is not part of this model. `OnTextSingleBlur` and `OnTextMultiBlur` carry the same requirement.
- Validation.RuleNamed: it gives no rule for `isNumeric`, which the source's table does define; that rule delegates to jQuery's `$.isNumeric` and is not modelled. Names inherited from `Object.prototype` (such as "toString") are also treated as missing. The same holds for `Callbacks.CallbackNamed` and `App.Get`.
- Validation.Test: JavaScript's `length` counts UTF-16 code units. The model counts characters.
- Wizard.App.Get: it distinguishes only undefined, strings, numbers and functions, which is all that `setIsPresent`'s strict comparison with an attribute needs.
- Counting.LastNonZero: in the source `pass` is a per-panel variable kept between events. The model starts each scan from `false`. The two differ only on an empty scan, which cannot happen, because the event comes from one of the scanned elements.
- Which handler a panel's inputs are bound to (`data-advance`) is chosen by the caller. Each handler is its own method.
