# ngx-infniswiss core, modelled in Dafny

This project models the parts of the ngx-infniswiss Angular libraries that hold real
logic:

- the phone-number text editing of the fill service and of the two older phone-input
  components: cleaning, formatting, keeping the caret in place and deciding whether to
  rewrite the field;
- the reference-counting `ComponentLoader`;
- the component load-state machine (`ComponentObserverState`, `ComponentStateManager`);
- the logger's `{i}` message templating;
- the small conversion helpers `convertToString`, `toString2` and `convertToArray`.

Each core source file has its own module:

| module | file |
|---|---|
| `PhoneFillService` | `phone_fill_service.dfy` |
| `PhoneInputComponent` | `phone_input_component.dfy` |
| `MatPhoneInput` | `mat_phone_input.dfy` |
| `ComponentLoading` | `component_loader.dfy` |
| `ObserverState` | `component_observer_state.dfy` |
| `StateManager` | `component_state_manager.dfy` |
| `AppLogging` | `app_logger.dfy` |
| `StringConversion` | `convert_to_string.dfy` |
| `ArrayConversion` | `convert_to_array.dfy` |

Three shared modules support them:

- `Wrappers` holds `Option`.
- `JsValues` holds the JavaScript values the helpers receive, and `Number#toString` for integers.
- `PhoneText` holds the character classes, JavaScript `trim()` and `clearInvalidCharacters`.
  That function is identical in the fill service and in the ngx-infniswiswiss component.
  `PhoneText` also holds the text-field record and the shared `getInputSelection`.

How the source becomes Dafny:

- A text input is a record: its value and two optional selection offsets.
  `None` stands for an offset the element does not report.
- libphonenumber's `formatIncompletePhoneNumber` is a function parameter that may fail.
  `None` means it threw.
- The services' pure computations are functions.
- Their loops are methods, proved against those functions.
- Objects whose fields change are classes: `ComponentLoader`, `ComponentStateManager` and both phone-input components.

## Model

| member | source | states |
|---|---|---|
| PhoneText.IsFormattingCharacter | projects/ngx-infniswiswiss-components/src/lib/phone-input/phone-input.component.ts:370-377 | true exactly for `)`, `(`, `-` and the space; it is the one definition behind this copy and the identical ones at phone-input-fill.service.ts:157-164 and ngx-mat-components phone-input.component.ts:233-239; none of these is a digit, `#`, `*` or `+`, so formatting and the kept number never share a character |
| PhoneText.ClearInvalidCharacters | projects/ngx-infniswiswiss-components/src/lib/phone-input/phone-input-fill.service.ts:61-66 | the result starts with `+` iff the value does; every other character is a digit, `#` or `*`; it keeps all of the value's digits, `#` and `*` in order; it holds no formatting character |
| PhoneText.ClearInvalidCharactersIdempotent | projects/ngx-infniswiswiss-components/src/lib/phone-input/phone-input.component.ts:363-368 | cleaning an already cleaned value gives the same value |
| PhoneText.Keep | projects/ngx-infniswiswiss-components/src/lib/phone-input/phone-input-fill.service.ts:63-65 | `match(/…/g).join('')` for a one-character pattern keeps only matching characters and never lengthens the text |
| PhoneText.KeepIdempotent | projects/ngx-mat-components/src/lib/phone-input/phone-input.component.ts:203-208 | filtering with the same character class twice equals filtering once |
| PhoneText.KeepConcat | projects/ngx-infniswiswiss-components/src/lib/phone-input/phone-input-fill.service.ts:63-65 | filtering distributes over concatenation |
| PhoneText.TrimShape | projects/ngx-infniswiswiss-components/src/lib/phone-input/phone-input-fill.service.ts:39 | `trim()` returns a middle slice without whitespace at either end, and only whitespace is cut off around it |
| PhoneText.TrimClearedText | projects/ngx-infniswiswiss-components/src/lib/phone-input/phone-input-fill.service.ts:36-39 | for text with `#`/`*`, trimming the cleaned text (prefix cut off) leaves it unchanged |
| PhoneText.FormattingCountStep | projects/ngx-infniswiswiss-components/src/lib/phone-input/phone-input-fill.service.ts:109-117 | the number of formatting characters below index i+1 grows by one exactly at a formatting character |
| PhoneText.GetInputSelection | projects/ngx-infniswiswiss-components/src/lib/phone-input/phone-input-fill.service.ts:123-129 | both ends are read from `selectionStart`, so the selection is always collapsed (same at phone-input.component.ts:467-472); it is missing exactly when `selectionStart` is |
| PhoneText.CharAt | projects/ngx-infniswiswiss-components/src/lib/phone-input/phone-input.component.ts:430-431 | indexing a string yields the character `s[i]` exactly inside its bounds, `undefined` outside |
| PhoneFillService.FormattedText | projects/ngx-infniswiswiss-components/src/lib/phone-input/phone-input-fill.service.ts:33-42 | with `#` or `*` the formatter is bypassed and the cleaned text is shown; a throwing formatter leaves the whole pure number including the prefix; otherwise the formatter's text minus the prefix length, trimmed |
| PhoneFillService.FormatPhoneNumber | projects/ngx-infniswiswiss-components/src/lib/phone-input/phone-input-fill.service.ts:24-48 | without a country code the value passes through as both fields; an input with nothing to keep yields `{'', ''}`; otherwise `number` is prefix + cleaned text and `numberFormatted` is FormattedText; it never fails |
| PhoneFillService.PureOffsetCountsContent | projects/ngx-infniswiswiss-components/src/lib/phone-input/phone-input-fill.service.ts:109-117 | the caret minus the formatting characters in front of it equals the number of content characters in front of it, and lies in `[0, caret]` |
| PhoneFillService.GetCursorPositionWithoutFormatting | projects/ngx-infniswiswiss-components/src/lib/phone-input/phone-input-fill.service.ts:103-120 | a missing selection passes through; otherwise the collapsed caret minus the formatting characters below it, which stays collapsed and within `[0, caret]` |
| PhoneFillService.ProjectedIsFirstPositionAfterContent | projects/ngx-infniswiswiss-components/src/lib/phone-input/phone-input-fill.service.ts:74-84 | within the content, the forward pass moves the caret to the least position of the new text with exactly that many content characters before it, which is not just after a formatting character |
| PhoneFillService.ProjectedPastContent | projects/ngx-infniswiswiss-components/src/lib/phone-input/phone-input-fill.service.ts:74-84 | past the content, the forward pass adds every formatting character of the new text |
| PhoneFillService.MoveDirection | projects/ngx-infniswiswiss-components/src/lib/phone-input/phone-input-fill.service.ts:87-89 | the direction is -1 iff the last key was `Backspace` or empty, +1 otherwise |
| PhoneFillService.RunLengthIsMaximalRun | projects/ngx-infniswiswiss-components/src/lib/phone-input/phone-input-fill.service.ts:90-97 | the skip covers a block of formatting characters that is maximal: the next position in the walking direction is outside the text or a content character |
| PhoneFillService.PredictCursorPositionInValue | projects/ngx-infniswiswiss-components/src/lib/phone-input/phone-input-fill.service.ts:68-101 | the two loops compute exactly PredictedCaret: re-projection onto the new text, then the skip over the formatting run at `max(end-1, 0)` |
| PhoneFillService.PredictedCaretCollapsed | projects/ngx-infniswiswiss-components/src/lib/phone-input/phone-input-fill.service.ts:71-73 | a missing selection is returned as missing; otherwise the prediction is collapsed |
| PhoneFillService.TypingAtFrontSkipsFormatting | projects/ngx-infniswiswiss-components/src/lib/phone-input/phone-input-fill.service.ts:86-97 | on any key but Backspace with the caret in front of all content, the caret skips the run of formatting characters the new text starts with |
| PhoneFillService.TypingStaysAfterContent | projects/ngx-infniswiswiss-components/src/lib/phone-input/phone-input-fill.service.ts:74-97 | on any key but Backspace with the caret behind the p-th content character, the caret lands right behind the p-th content character of the new text, in front of the formatting that follows it |
| PhoneFillService.BackspaceAtStartGoesNegative | projects/ngx-infniswiswiss-components/src/lib/phone-input/phone-input-fill.service.ts:90-97 | Backspace at content offset 0 before a leading formatting character gives the caret -1, which `setInputValue` then passes on |
| PhoneFillService.SetInputValue | projects/ngx-infniswiswiss-components/src/lib/phone-input/phone-input-fill.service.ts:131-145 | the value is always written; a selection only when both ends are known; each end is kept when within the new length and becomes the new length when past it |
| PhoneFillService.SetFormattingAndUpdateInput | projects/ngx-infniswiswiss-components/src/lib/phone-input/phone-input-fill.service.ts:50-59 | the field receives the formatted text and the predicted caret; the result is FormatPhoneNumber's value; the written selection is collapsed |
| PhoneInputComponent.FirstIndexOf | projects/ngx-infniswiswiss-components/src/lib/phone-input/phone-input.component.ts:441-449 | the result is the first index holding the character, or none when the text has no such character |
| PhoneInputComponent.AlignOfPrefix | projects/ngx-infniswiswiss-components/src/lib/phone-input/phone-input.component.ts:429-434 | when the new text starts with the old text in front of the caret (lockstep match), the caret stays where it was |
| PhoneInputComponent.AlignKeepsUnchangedCaret | projects/ngx-infniswiswiss-components/src/lib/phone-input/phone-input.component.ts:429-434 | an unchanged text in front of the caret keeps the caret |
| PhoneInputComponent.AlignAfterInsertedFormatting | projects/ngx-infniswiswiss-components/src/lib/phone-input/phone-input.component.ts:423-465 | when the formatter only inserted formatting characters, the alignment walk puts the caret where the fill service's re-projection does |
| PhoneInputComponent.ResetCaretCountsCharacterAtCaret | projects/ngx-infniswiswiss-components/src/lib/phone-input/phone-input.component.ts:410-418 | the inclusive `>=` also counts a formatting character right at the caret: the reset caret is one less than the content offset exactly then |
| PhoneInputComponent.ResetCaretAtLeadingFormatting | projects/ngx-infniswiswiss-components/src/lib/phone-input/phone-input.component.ts:410-418 | with the caret at 0 before a leading formatting character, the reset caret is -1 |
| PhoneInputComponent.AlignStepFound | projects/ngx-infniswiswiss-components/src/lib/phone-input/phone-input.component.ts:437-455 | a character next found at j advances the alignment by the skipped positions plus one, and the walk resumes at j+1 |
| PhoneInputComponent.AlignStepMissing | projects/ngx-infniswiswiss-components/src/lib/phone-input/phone-input.component.ts:456-459 | a character absent from the rest of the new text is skipped by the alignment |
| PhoneInputComponent.WalkFound | projects/ngx-infniswiswiss-components/src/lib/phone-input/phone-input.component.ts:437-455 | a found character keeps the walk invariant with the caret moved right by the skipped positions |
| PhoneInputComponent.WalkMissing | projects/ngx-infniswiswiss-components/src/lib/phone-input/phone-input.component.ts:456-459 | a missing character keeps the walk invariant with the caret moved left by exactly one |
| PhoneInputComponent.WalkExhausted | projects/ngx-infniswiswiss-components/src/lib/phone-input/phone-input.component.ts:435 | once the new text is used up, old characters are passed over without moving the caret |
| PhoneInputComponent.WalkDone | projects/ngx-infniswiswiss-components/src/lib/phone-input/phone-input.component.ts:461-464 | at the end of the walk the caret clamped to the new text is the alignment |
| PhoneInputComponent.PhoneInput.constructor | projects/ngx-infniswiswiss-components/src/lib/phone-input/phone-input.component.ts:163 | the component starts with an empty value and the given field and country code |
| PhoneInputComponent.PhoneInput.SetValue | projects/ngx-infniswiswiss-components/src/lib/phone-input/phone-input.component.ts:168-173 | only a string different from the current number is taken, as the number with its formatting; anything else, or a throwing formatter, leaves the value |
| PhoneInputComponent.PhoneInput.SetInputValue | projects/ngx-infniswiswiss-components/src/lib/phone-input/phone-input.component.ts:475-480 | writes the text and both selection ends clamped to its length |
| PhoneInputComponent.PhoneInput.ResetInputFormatting | projects/ngx-infniswiswiss-components/src/lib/phone-input/phone-input.component.ts:406-421 | writes the number, with the collapsed caret moved left by the formatting characters at indices `<=` the caret, clamped |
| PhoneInputComponent.PhoneInput.SetValueAndRememberCursorPosition | projects/ngx-infniswiswiss-components/src/lib/phone-input/phone-input.component.ts:423-465 | writes the new text with a collapsed caret within it, at the greedy alignment of the old text in front of the caret with the new text |
| PhoneInputComponent.PhoneInput.WalkCaret | projects/ngx-infniswiswiss-components/src/lib/phone-input/phone-input.component.ts:424-462 | the loop's caret, clamped to the new text, is the alignment; a caret at or below 0 is not moved |
| PhoneInputComponent.PhoneInput.WalkOneCharacter | projects/ngx-infniswiswiss-components/src/lib/phone-input/phone-input.component.ts:430-461 | one round keeps the selection collapsed and the walk invariant |
| PhoneInputComponent.PhoneInput.SearchForward | projects/ngx-infniswiswiss-components/src/lib/phone-input/phone-input.component.ts:437-449 | stops at the first occurrence at or after the start, or the end; the caret moves right by the skipped positions; the selection stays collapsed |
| PhoneInputComponent.PhoneInput.TryToFillWithFormattedValue | projects/ngx-infniswiswiss-components/src/lib/phone-input/phone-input.component.ts:379-404 | the number is the cleaned text; with `#`/`*` the number is shown with a collapsed caret by alignment; a formatted text that lost all formatting is reset with the reset caret; otherwise the formatted text is shown with a collapsed caret by alignment |
| MatPhoneInput.LeaveOnlyPhoneChars | projects/ngx-mat-components/src/lib/phone-input/phone-input.component.ts:203-208 | the result holds only `+`, `*`, `#` and digits and is never longer than the value |
| MatPhoneInput.LeaveOnlyPhoneCharsPointwise | projects/ngx-mat-components/src/lib/phone-input/phone-input.component.ts:203-208 | the cleaning distributes over concatenation and keeps a single character exactly when it is a `+`, `*`, `#` or digit, so every such character is kept in order at any position |
| MatPhoneInput.PlusKeptAfterFront | projects/ngx-mat-components/src/lib/phone-input/phone-input.component.ts:203-208 | a `+` after the first character is kept, where the other phone inputs' `clearInvalidCharacters` drops it |
| MatPhoneInput.LeaveOnlyPhoneCharsIdempotent | projects/ngx-mat-components/src/lib/phone-input/phone-input.component.ts:203-208 | cleaning twice is cleaning once; text of phone characters only is kept |
| MatPhoneInput.RemoveExtraCharactersShape | projects/ngx-mat-components/src/lib/phone-input/phone-input.component.ts:210-215 | the result holds only phone and formatting characters and neither starts nor ends with a space; it is the value's phone and formatting characters, in order, with only spaces cut off in front and behind |
| MatPhoneInput.LastBad | projects/ngx-mat-components/src/lib/phone-input/phone-input.component.ts:247-274 | the highest position below the bound that differs in a non-formatting character, or none |
| MatPhoneInput.DiffStrings | projects/ngx-mat-components/src/lib/phone-input/phone-input.component.ts:242-286 | the descending scan returns Diff: it stops at the highest non-formatting difference, collecting the differing characters above it in descending order |
| MatPhoneInput.DiffCharsAreFormatting | projects/ngx-mat-components/src/lib/phone-input/phone-input.component.ts:256-278 | where no position differs in a non-formatting character, every collected character is a formatting character |
| MatPhoneInput.DiffOnlyFormatting | projects/ngx-mat-components/src/lib/phone-input/phone-input.component.ts:242-286 | `onlyFormattingCharactersFound` holds iff no position differs in a non-formatting character, and then both lists hold only formatting characters |
| MatPhoneInput.DiffOfEqual | projects/ngx-mat-components/src/lib/phone-input/phone-input.component.ts:242-286 | comparing a text with itself finds only formatting differences and none at all |
| MatPhoneInput.IsFormattedValueDifferentIff | projects/ngx-mat-components/src/lib/phone-input/phone-input.component.ts:217-231 | different iff some position differs in a non-formatting character, or the right side does not have exactly one differing character while some character differs |
| MatPhoneInput.SameTextIsNotDifferent | projects/ngx-mat-components/src/lib/phone-input/phone-input.component.ts:217-224 | a text is never different from itself |
| MatPhoneInput.RewriteText | projects/ngx-mat-components/src/lib/phone-input/phone-input.component.ts:175-179 | the formatted text when it differs from the cleaned text, else exactly the cleaned text when that differs from the raw text, else nothing |
| MatPhoneInput.CleanFormattedTextIsLeftAlone | projects/ngx-mat-components/src/lib/phone-input/phone-input.component.ts:175-179 | clean text returned unchanged by the formatter is not rewritten |
| MatPhoneInput.NextInputText | projects/ngx-mat-components/src/lib/phone-input/phone-input.component.ts:175-179 | the field text after the decision, in each of the three cases |
| MatPhoneInput.MatPhoneInput.constructor | projects/ngx-mat-components/src/lib/phone-input/phone-input.component.ts:89 | the input starts with an empty value and the given field text and country code |
| MatPhoneInput.MatPhoneInput.HandleInputChange | projects/ngx-mat-components/src/lib/phone-input/phone-input.component.ts:168-182 | the number is the phone characters of the field; the formatted cleaned text is stored and the field rewritten as NextInputText decides; a throwing formatter leaves the display text and the field |
| ComponentLoading.SumCountsUpdate | projects/ngx-infniswiswiss-components/src/lib/state-management/component-loader.ts:9-11 | replacing one entry changes the sum of counts by the difference of the counts |
| ComponentLoading.BlockingIdsUpdate | projects/ngx-infniswiswiss-components/src/lib/state-management/component-loader.ts:9-11 | replacing one entry changes the number of blocking entries only at that id |
| ComponentLoading.MarkLoadingStep | projects/ngx-infniswiswiss-components/src/lib/state-management/component-loader.ts:31-43 | creates a missing entry; its count and `loadersCount` grow by one; a blocking request on a non-blocking entry blocks it and counts it once; other entries are unchanged |
| ComponentLoading.MarkNotLoadingAsWritten | projects/ngx-infniswiswiss-components/src/lib/state-management/component-loader.ts:45-59 | as the code reads: an unknown id changes nothing; otherwise both counts drop by one and the entry is released when it blocked and its count reaches zero, or on `unblockNow` whether it blocked or not, with `isBlockedCount` decremented on each release |
| ComponentLoading.MarkNotLoadingStep | projects/ngx-infniswiswiss-components/src/lib/state-management/component-loader.ts:45-59 | an unknown id changes nothing; otherwise both counts drop by one and the block is released, once, when the count reaches zero or on `unblockNow`, only from an entry that blocks |
| ComponentLoading.DetachStep | projects/ngx-infniswiswiss-components/src/lib/state-management/component-loader.ts:61-75 | an unknown id changes nothing; otherwise the entry's whole count leaves `loadersCount`, its block is released once and the entry becomes `{0, false}` |
| ComponentLoading.EmptyTableCounted | projects/ngx-infniswiswiss-components/src/lib/state-management/component-loader.ts:7-15 | the initial table satisfies the counting invariant and publishes not loading, not blocked |
| ComponentLoading.MarkLoadingKeepsCounted | projects/ngx-infniswiswiss-components/src/lib/state-management/component-loader.ts:31-43 | `markLoading` keeps `loadersCount` the sum of counts and `isBlockedCount` the number of blocking entries |
| ComponentLoading.MarkNotLoadingKeepsCounted | projects/ngx-infniswiswiss-components/src/lib/state-management/component-loader.ts:45-59 | the corrected `markNotLoading` keeps the counting invariant |
| ComponentLoading.DetachKeepsCounted | projects/ngx-infniswiswiss-components/src/lib/state-management/component-loader.ts:61-75 | `detachLoader` keeps the counting invariant |
| ComponentLoading.BlockedIffSomeEntryBlocks | projects/ngx-infniswiswiss-components/src/lib/state-management/component-loader.ts:21-23 | under the invariant, the screen is blocked iff some entry blocks |
| ComponentLoading.MarkNotLoadingAsWrittenLosesBlock | projects/ngx-infniswiswiss-components/src/lib/state-management/component-loader.ts:54-57 | as written, `markLoading a; markNotLoading a, true` leaves `isBlockedCount` at -1, and a later blocking `markLoading b` does not block the screen |
| ComponentLoading.OverReleaseHidesLoader | projects/ngx-infniswiswiss-components/src/lib/state-management/component-loader.ts:45-50 | an observation, not a Findings row: an extra `markNotLoading` drives a count below zero, so a later `markLoading` leaves the loader not loading; the source does not promise to guard unmatched releases |
| ComponentLoading.ScenarioMarkLoading | projects/ngx-infniswiswiss-components/src/lib/state-management/component-loader.spec.ts:20-31 | one load makes the loader busy; a blocking one also blocks |
| ComponentLoading.ScenarioNotLoadingThenLoading | projects/ngx-infniswiswiss-components/src/lib/state-management/component-loader.spec.ts:35-41 | `markNotLoading` before any `markLoading` is harmless |
| ComponentLoading.ScenarioNotLoadingLoadingNotLoading | projects/ngx-infniswiswiss-components/src/lib/state-management/component-loader.spec.ts:43-50 | notLoading, loading, notLoading ends not loading |
| ComponentLoading.ScenarioOneOfTwoLoading | projects/ngx-infniswiswiss-components/src/lib/state-management/component-loader.spec.ts:52-59 | releasing one of two loaders keeps the loader busy |
| ComponentLoading.ScenarioTwoBlockingLoaders | projects/ngx-infniswiswiss-components/src/lib/state-management/component-loader.spec.ts:61-80 | releasing one of two blocking loaders keeps both flags; releasing both clears them |
| ComponentLoading.ComponentLoader.IsLoading | projects/ngx-infniswiswiss-components/src/lib/state-management/component-loader.ts:17-19 | in a valid loader, loading iff the counts of all entries sum to more than zero |
| ComponentLoading.ComponentLoader.IsBlocked | projects/ngx-infniswiswiss-components/src/lib/state-management/component-loader.ts:21-23 | in a valid loader, blocked iff some entry blocks the screen |
| ComponentLoading.ComponentLoader.constructor | projects/ngx-infniswiswiss-components/src/lib/state-management/component-loader.ts:7-15 | empty table, published state not loading and not blocked, invariant holds |
| ComponentLoading.ComponentLoader.NotifyLoaderChange | projects/ngx-infniswiswiss-components/src/lib/state-management/component-loader.ts:77-88 | publishes, exactly when a flag changed, the current flags |
| ComponentLoading.ComponentLoader.MarkLoading | projects/ngx-infniswiswiss-components/src/lib/state-management/component-loader.ts:31-43 | the table becomes MarkLoadingStep of the old one; publishes iff the flags changed; keeps the invariant |
| ComponentLoading.ComponentLoader.MarkNotLoading | projects/ngx-infniswiswiss-components/src/lib/state-management/component-loader.ts:45-59 | the table becomes MarkNotLoadingStep of the old one; publishes iff the flags changed; keeps the invariant |
| ComponentLoading.ComponentLoader.DetachLoader | projects/ngx-infniswiswiss-components/src/lib/state-management/component-loader.ts:61-75 | the table becomes DetachStep of the old one; publishes iff the flags changed; keeps the invariant |
| ObserverState.ExactlyOneOfLoadingOkError | projects/ngx-infniswiswiss-components/src/lib/state-management/component-observer-state.ts:33-47 | every state is exactly one of loading, ok and error |
| ObserverState.InitialLoadingIsLoading | projects/ngx-infniswiswiss-components/src/lib/state-management/component-observer-state.ts:21-35 | initial loading is loading and not ok-or-transition; a non-initial load is `loading` or `data-transition` |
| ObserverState.OkOrDataTransitionSplit | projects/ngx-infniswiswiss-components/src/lib/state-management/component-observer-state.ts:37-43 | ok-or-transition is ok or a data-transition load, and never an error |
| StateManager.IsGlobalLoaderEnabled | projects/ngx-infniswiswiss-components/src/lib/state-management/component-state-manager.ts:99-101 | on unless `options.loader.disableGlobalLoader` is set |
| StateManager.GetBlockState | projects/ngx-infniswiswiss-components/src/lib/state-management/component-state-manager.ts:103-105 | `blockScreen` when given, false by default |
| StateManager.InitialObserver | projects/ngx-infniswiswiss-components/src/lib/state-management/component-state-manager.ts:68-73 | the first state is initial loading with the sentinel data and inputs and no error |
| StateManager.ComponentStateManager.constructor | projects/ngx-infniswiswiss-components/src/lib/state-management/component-state-manager.ts:31-34 | both remembered slots start at the sentinel, the observer at the initial state, nothing published |
| StateManager.ComponentStateManager.GetComponentLoadState | projects/ngx-infniswiswiss-components/src/lib/state-management/component-state-manager.ts:177-194 | `loading` while inputs or data are still the sentinel; afterwards `loading` iff the event is a reload, else `data-transition` |
| StateManager.ComponentStateManager.RequestNewDataEvent | projects/ngx-infniswiswiss-components/src/lib/state-management/component-state-manager.ts:124-133 | a refresh or reload is dropped iff the inputs are the sentinel; otherwise it carries the current inputs |
| StateManager.ComponentStateManager.DispatchIntermediateState | projects/ngx-infniswiswiss-components/src/lib/state-management/component-state-manager.ts:161-175 | `loading` publishes null data and inputs; `data-transition` republishes the active ones; no error; one state appended |
| StateManager.ComponentStateManager.SetDataLoadedState | projects/ngx-infniswiswiss-components/src/lib/state-management/component-state-manager.ts:196-211 | records the inputs and data and publishes `ok` without error; afterwards an ok state is active iff the inputs are not the sentinel |
| StateManager.ComponentStateManager.SetDataLoadErrorState | projects/ngx-infniswiswiss-components/src/lib/state-management/component-state-manager.ts:213-235 | records the inputs and a null data; a TypeError is rethrown before anything is published; any other error is published as `error` |
| StateManager.ComponentStateManager.HandleEvent | projects/ngx-infniswiswiss-components/src/lib/state-management/component-state-manager.ts:135-159 | publishes the intermediate state only after the initial load, then the data or error state, in that order; the last published state becomes the active observer, and a TypeError leaves the intermediate state (or the old observer) active |
| StateManager.ComponentStateManager.ErrorThenRefresh | projects/ngx-infniswiswiss-components/src/lib/state-management/component-state-manager.ts:161-238 | after a failed load, the next refresh publishes a data transition, which is `isOkOrDataTransition`, carrying `null` data and the failed inputs |
| StateManager.ComponentStateManager.UpdateGlobalLoader | projects/ngx-infniswiswiss-components/src/lib/state-management/component-state-manager.ts:241-249 | a loading state applies `markLoading`, any other `markNotLoading`, with the configured block flag |
| StateManager.ComponentStateManager.CleanupState | projects/ngx-infniswiswiss-components/src/lib/state-management/component-state-manager.ts:107-112 | detaches the component's loader iff the global loader is on |
| AppLogging.FormatUnknownObject | projects/ngx-infniswiswiss-components/src/lib/logging/app-logger.service.ts:69-78 | `null` gives "null", `undefined` gives "undefined", a string itself, arrays and objects their `JSON.stringify` text |
| AppLogging.FormatPrimitiveIsToString | projects/ngx-infniswiswiss-components/src/lib/logging/app-logger.service.ts:79-81 | strings, numbers and booleans are formatted by their own `toString()` |
| AppLogging.FormatAll | projects/ngx-infniswiswiss-components/src/lib/logging/app-logger.service.ts:100 | each element is formatted in place |
| AppLogging.GetMessageAsString | projects/ngx-infniswiswiss-components/src/lib/logging/app-logger.service.ts:94-105 | a string as it is, an array as its formatted elements joined by `endl()`, anything else formatted |
| AppLogging.StringArrayMessage | projects/ngx-infniswiswiss-components/src/lib/logging/app-logger.service.ts:99-102 | an array of strings becomes those strings, one per line |
| AppLogging.ApplyParamsStep | projects/ngx-infniswiswiss-components/src/lib/logging/app-logger.service.ts:62-64 | each round replaces the next placeholder with the next formatted parameter |
| AppLogging.ParseString | projects/ngx-infniswiswiss-components/src/lib/logging/app-logger.service.ts:56-67 | the loop replaces `{0}`, `{1}`, … in increasing order with the formatted parameters; with no parameters the message text is returned |
| AppLogging.SingleParameter | projects/ngx-infniswiswiss-components/src/lib/logging/app-logger.service.ts:58 | a single non-array parameter is a one-element list: only `{0}` is replaced |
| AppLogging.ReplaceAllSkipsText | projects/ngx-infniswiswiss-components/src/lib/logging/app-logger.service.ts:63 | text without `{` holds no match of a placeholder and is kept by the global replace |
| AppLogging.PlaceholderMatch | projects/ngx-infniswiswiss-components/src/lib/logging/app-logger.service.ts:63 | the pattern `{i}` matches at a placeholder `{k}` only when k == i |
| AppLogging.ReplacePiece | projects/ngx-infniswiswiss-components/src/lib/logging/app-logger.service.ts:63 | replacing `{i}` fills the piece that is `{i}` and keeps text and other placeholders |
| AppLogging.ReplaceFillsOneHole | projects/ngx-infniswiswiss-components/src/lib/logging/app-logger.service.ts:62-64 | one round fills exactly the placeholder `{i}` of the template |
| AppLogging.ApplyParamsFills | projects/ngx-infniswiswiss-components/src/lib/logging/app-logger.service.ts:62-64 | after n rounds the placeholders below n are filled and no others |
| AppLogging.ParseStringRenders | projects/ngx-infniswiswiss-components/src/lib/logging/app-logger.service.ts:56-67 | when no parameter text contains `{`, the result is the template with `{k}` filled for each k below the number of parameters and every higher placeholder untouched |
| AppLogging.ContextString | projects/ngx-infniswiswiss-components/src/lib/logging/app-logger.service.ts:46 | a single space iff the context is absent or an empty name; otherwise " Context: ", the name (or the class name), and ", " |
| AppLogging.LogLine | projects/ngx-infniswiswiss-components/src/lib/logging/app-logger.service.ts:46-47 | the line is the session prefix and a comma, then exactly ContextString of the context, then the method, a colon and the message |
| AppLogging.LogMessage | projects/ngx-infniswiswiss-components/src/lib/logging/app-logger.service.ts:41-54 | the logged text is LogLine of the parsed message |
| JsValues.NatToDecimal | projects/ngx-infniswiswiss-components/src/lib/logging/app-logger.service.ts:63 | `i.toString()` is a non-empty digit string without leading zeros |
| JsValues.DecimalRoundTrip | projects/ngx-infniswiswiss-components/src/lib/logging/app-logger.service.ts:63 | reading back the decimal text of a number gives the number |
| JsValues.IntToDecimal | projects/ngx-infniswiswiss-components/src/lib/util/convert-to-string.ts:2 | an integer's `toString()` is digits, behind a `-` when negative |
| StringConversion.ConvertToString | projects/ngx-infniswiswiss-components/src/lib/util/convert-to-string.ts:1-3 | the default for null and undefined, a string itself, a number its decimal text |
| StringConversion.ToString2 | projects/ngx-infniswiswiss-components/src/lib/util/convert-to-string.ts:5-8 | a string form shorter than two characters gets one leading `0`; longer ones are unchanged |
| StringConversion.ToString2OfNullish | projects/ngx-infniswiswiss-components/src/lib/util/convert-to-string.ts:5-8 | null and undefined pad to "0" |
| StringConversion.ToString2TwoDigits | projects/ngx-infniswiswiss-components/src/lib/util/convert-to-string.ts:5-8 | 0..99 come out as exactly two digits that read back as the number |
| ArrayConversion.ConvertToArray | projects/ngx-infniswiswiss-components/src/lib/util/convert-to-array.ts:1-11 | an array as it is, a present scalar as a one-element list, null or undefined as the default |
| ArrayConversion.ConvertToArrayIdempotent | projects/ngx-infniswiswiss-components/src/lib/util/convert-to-array.ts:2-4 | converting the result again changes nothing |
| ArrayConversion.ConvertToArrayEmpty | projects/ngx-infniswiswiss-components/src/lib/util/convert-to-array.ts:1-11 | the result is empty iff the input is an empty array, null or undefined |

## Left out

- The Android path of the fill service's `setInputValue` (`runOutsideAngular`, `setTimeout`) is not modelled: it is scheduling around the same clamped write. The `console.log` calls are left out too.
- Browser behaviour for a negative caret is not modelled; such a caret is passed on as computed.
- `isInitialized` (util/is-initialized.ts) is not part of this model. A selection offset is either present or missing (`None`).
  - The fill service's `Math.min`/`Math.max` over a missing offset is modelled as a missing selection.
  - The component reads a missing offset as 0 (`Math.min(null, null)` is 0).
- libphonenumber is a parameter. Its country rules are not modelled, and neither is the shape of its output.
- The RxJS wiring of `ComponentStateManager` is modelled one event at a time by `HandleEvent`, with `makeState`'s outcome as a parameter. Not modelled:
  - `merge`, `switchMap` cancellation, `publishReplay`, `refCount` and the reference-counted cleanup trigger;
  - `eventId` (`generateUuid`);
  - the `refresh()`/`reload()` subjects;
  - the `appLogger` debug calls.
- The logger's side is not modelled:
  - the `setTimeout` scheduling and `console[method]` output;
  - the session id, which is a parameter;
  - `JSON.stringify`, which is the `stringify` parameter;
  - the `Error` branch (name, message and stack) and functions' `toString()`, both folded into `stringify` under the `Obj` value.
- Strings are sequences of Unicode scalar values. JavaScript's `length`, indices, `substring` and the browser's `selectionStart`/`selectionEnd` count UTF-16 code units, so text with a character outside the Basic Multilingual Plane (a pasted emoji) has different lengths, offsets and carets (`PureOffset`, `PredictedCaret`, the alignment walk, `Diff` indices, `ToString2`'s length test) and is not modelled.
- Numbers are integers; floating point, `NaN` and exponent notation in `toString()` are not modelled.
- `ToJsString` covers `Obj` values through the text carried by the value.
- Replacement strings containing `$` patterns are inserted literally. JavaScript would interpret `$&` and similar.
- The Angular component plumbing is not modelled: focus, `ControlValueAccessor`, `stateChanges`, `onTouched`/`onChangeFn` and `ngControl`.
- Utility files other than the two conversion helpers are not part of this model.
- The ngx-mat-components `value` setter (phone-input.component.ts:95-97) and `writeValue` are not part of this model.
- PhoneInputComponent.PhoneInput.SetValueAndRememberCursorPosition: the caret is stated through the alignment only when it lies within the old text, or at or below 0. For a caret beyond the old text's end, the contract states only that the caret is collapsed and within the new text.
- PhoneInputComponent.PhoneInput.TryToFillWithFormattedValue: a formatter that throws is a `thrown` result after the number is set. The exception itself is not modelled.
- MatPhoneInput.MatPhoneInput.HandleInputChange: `onTouched` and `onChangeFn(number)` are not modelled.
- Ids that name `Object.prototype` members (`toString`, `constructor`, `valueOf`, `hasOwnProperty`, `__proto__`, …) are not modelled. The table is a map in which every id not yet marked is absent. The source's `loaders` is a plain `{}` (component-loader.ts:9-11), so `!this.loaders[id]` (:32, :46, :62) finds an inherited truthy value there. For example, `markNotLoading('toString')` on a new loader drives `loadersCount` to -1, and `detachLoader('toString')` makes it `NaN`. So the statement that an unknown id changes nothing (`MarkNotLoadingStep`, `DetachStep`) holds only for ids that are not `Object.prototype` members.
- ComponentLoading.ComponentLoader.MarkNotLoading follows the corrected rule; the code as written is `MarkNotLoadingAsWritten` (see Findings).
- StateManager.ComponentStateManager.UpdateGlobalLoader goes through `MarkNotLoading` and so follows the corrected rule too; the state manager model therefore does not show the defect of the Findings row, although the source reaches it (see that row).

## Findings

| source | as written | input that shows it | evidently intended | confidence | as-written member | corrected member |
|---|---|---|---|---|---|---|
| projects/ngx-infniswiswiss-components/src/lib/state-management/component-loader.ts:54-57 | `else if (unblockNow)` clears the block and decrements `isBlockedCount` even when the entry does not block | `markLoading('a')`, `markNotLoading('a', true)`: `isBlockedCount` is -1; a later `markLoading('b', true)` leaves `isBlocked` false although `b` blocks; the state manager reaches it with `blockScreen: true` and two subscribers of `state$`, since the `tap` of component-state-manager.ts:90-92 then calls `markLoading(id, true)` twice and `markNotLoading(id, true)` twice (component-state-manager.ts:241-249) | release the block only from an entry that blocks (`else if (unblockNow && blocks)`), so `isBlockedCount` stays the number of blocking entries | not executed | ComponentLoading.MarkNotLoadingAsWrittenLosesBlock | ComponentLoading.MarkNotLoadingKeepsCounted |
