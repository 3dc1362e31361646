# MinecraftScriptDialogue in Dafny

This project models the dialogue library of the Minecraft guide sample,
`scripts/util/MinecraftScriptDialogue/`. It covers:

- the base `ScriptDialogue.open`: option merge, camera lock around the display, busy-retry loop,
  and mapping of the final response to a canceled, rejected or successful dialogue response;
- the three immutable dialogue builders (dual button, multi button, input);
- the `TRANSLATE` helper.

The host is an oracle, a `Host` value:

- `show(k)`: what the k-th display of the form returns or throws;
- `isValid(k)`: what `player.isValid()` says after the k-th wait;
- `runCommand(c)`: whether a command throws;
- `callback(id, name)`: what a button callback resolves to or throws.

`Show` and `Open` are methods. The retry loop is modelled as a `while` loop, and `open`'s
`try`/`finally` as straight-line code. Both record an event trace: commands run, form displays,
waits, callback invocations. Their postconditions are stated through ghost views of that trace
(`Commands`, `CountShows`, `CountWaits`, `Invocations`). The builders, `getShowable` and
`processResponse` are functions on datatypes.

Modules and files:

- `wrappers.dfy` (`Wrappers`): `Option` for `undefined`, `Result` for "returns or throws".
- `utils.dfy` (`Utils`): `Translate` and the `RawMessage` fields it builds.
- `script_dialogue.dfy` (`ScriptDialogue`): options, responses, errors, host, trace, `Show`, `Open`.
- `dual_button.dfy` (`DualButtonScriptDialogue`), `multi_button.dfy` (`MultiButtonScriptDialogue`),
  `input_dialogue.dfy` (`InputScriptDialogue`): one per variant. Each variant's `Open` passes its
  `getShowable` result and its `processResponse` to `ScriptDialogue.Open`.

Behaviour of the code that the model keeps, although it may be surprising:

- The options are merged with `{...defaults, ...options}`. A field the caller passes explicitly
  as `undefined` therefore overrides the default with `undefined`; it does not fall back to it.
  `Field.Undefined` models this. With `lockPlayerCamera: undefined` no lock happens. With
  `busyRetriesCount: undefined` no retry happens, since `i < undefined` is false.
- A command that throws while locking the camera is outside the inner `catch`. `open` then throws
  (`OpenOutcome.Raised`) after the unlock has run. An unlock that throws replaces the outcome.
- A dropdown always reads `options[defaultValueIndex].value` first, even when a form value is
  present. An out-of-range default index therefore makes every response a `TypeError`, which
  becomes a rejected response.
- A multi button selection that is undefined or out of range reads `.callback` of `undefined`.
  The result is a `TypeError`, which becomes a rejected response.

## Model

| member | source | states |
|---|---|---|
| ScriptDialogue.ResolveShowDialogueOptions | scripts/util/MinecraftScriptDialogue/ScriptDialogue.ts:134-139 | the player is carried through; an omitted field takes its default (lock true, 5 retries, 5 ticks, lines 16-20), a given field wins, a field given as undefined stays undefined |
| ScriptDialogue.ResolveIsIdempotent | scripts/util/MinecraftScriptDialogue/ScriptDialogue.ts:134-139 | merging again the options a merge produced gives the same options |
| ScriptDialogue.Budget | scripts/util/MinecraftScriptDialogue/ScriptDialogue.ts:111 | the retry test `i < busyRetriesCount` holds exactly for the i below the budget; undefined or non-positive counts allow none |
| ScriptDialogue.ShownBody | scripts/util/MinecraftScriptDialogue/DualButtonScriptDialogue.ts:101-103 | the form receives the body if and only if it is truthy (set and not the empty string), and then unchanged |
| ScriptDialogue.Rejected | scripts/util/MinecraftScriptDialogue/ScriptDialogue.ts:92-97 | a caught error becomes a rejected response holding the error; it has a reason if and only if the error is a FormRejectError, and then that error's reason |
| ScriptDialogue.PressButton | scripts/util/MinecraftScriptDialogue/DualButtonScriptDialogue.ts:113-117 | without a callback the response is the name and undefined, with no invocation; with one, the callback is invoked exactly once with the name, and its value or its error decides the result (the same step as `MultiButtonScriptDialogue.ts:147-151`) |
| ScriptDialogue.LockRun | scripts/util/MinecraftScriptDialogue/ScriptDialogue.ts:124-127 | with the flag set, the lock runs camera disabled and then, exactly when that did not throw, movement disabled; its error is the first command's, else the second's; without the flag nothing runs |
| ScriptDialogue.UnlockRun | scripts/util/MinecraftScriptDialogue/ScriptDialogue.ts:129-132 | with the flag set, the unlock runs camera enabled and then, exactly when that did not throw, movement enabled; its error is the first command's, else the second's; without the flag nothing runs |
| ScriptDialogue.Finish | scripts/util/MinecraftScriptDialogue/ScriptDialogue.ts:99-103 | `open` returns the inner response when no lock or unlock command threw (always so without the lock flag); an unlock error is raised in preference to a lock error, and a lock error is raised when the unlock succeeded |
| ScriptDialogue.Show | scripts/util/MinecraftScriptDialogue/ScriptDialogue.ts:106-122 | the index of the last display is within the retry budget; every earlier display was busy with budget left and a valid player after the wait; the last one was not; its response is returned unchanged; the trace is one display and wait per retry, then the last display, then a wait if it was busy with budget left |
| ScriptDialogue.Attempt | scripts/util/MinecraftScriptDialogue/ScriptDialogue.ts:84-98 | a throwing `getShowable` gives a rejected response and an empty trace; otherwise the trace is exactly the retry loop's displays and waits, in order, followed by the callbacks the final response invoked; the displays follow the retry rule, a canceled final response gives a canceled response with its reason and no callback, a thrown error gives a rejected response, and otherwise `processResponse` decides; no command runs and every wait lasts `busyRetriesTick` |
| ScriptDialogue.Open | scripts/util/MinecraftScriptDialogue/ScriptDialogue.ts:76-104 | the commands of `open` are the lock's followed by the unlock's; the trace is the lock commands, then the inner `try`'s events, then the unlock commands; the outcome is as `Finish` states; a throwing lock leaves the inner part empty and `open` throws; otherwise the inner part is exactly as `Attempt` states |
| ScriptDialogue.UnlockedExactlyOnce | scripts/util/MinecraftScriptDialogue/ScriptDialogue.ts:79-103 | with the lock flag, the first command disables the camera and the camera is re-enabled exactly once, whatever the variant or the host does; without the flag no command runs |
| ScriptDialogue.BusyTwiceThenClosed | scripts/util/MinecraftScriptDialogue/ScriptDialogue.ts:106-122 | with two retries allowed, a player busy twice who then closes the form sees three displays and two waits, in the order display, wait, display, wait, display between the lock and the unlock, and the response is canceled with reason UserClosed |
| Utils.Translate | scripts/util/MinecraftScriptDialogue/Utils.ts:25-34 | `translate` is the key; a string parameter starts the `with` list, followed by the rest in order (length 1 + rest); a RawMessage parameter becomes `with` unchanged; no parameter leaves `with` undefined |
| Utils.TranslateIgnoresRestForMessage | scripts/util/MinecraftScriptDialogue/Utils.ts:32 | with a RawMessage parameter the further arguments make no difference |
| Utils.TranslateKeepsArgumentOrder | scripts/util/MinecraftScriptDialogue/Utils.ts:32 | with a string parameter, argument k of the rest is entry k + 1 of `with` |
| DualButtonScriptDialogue.New | scripts/util/MinecraftScriptDialogue/DualButtonScriptDialogue.ts:43-53 | the new dialogue has no body and the given title, top and bottom button |
| DualButtonScriptDialogue.SetBody | scripts/util/MinecraftScriptDialogue/DualButtonScriptDialogue.ts:94-96 | only the body is replaced; the title and both buttons are kept |
| DualButtonScriptDialogue.GetShowable | scripts/util/MinecraftScriptDialogue/DualButtonScriptDialogue.ts:98-109 | the form has the title, the body exactly when it is truthy, `button1` the bottom button's text and `button2` the top button's text |
| DualButtonScriptDialogue.SelectedButton | scripts/util/MinecraftScriptDialogue/DualButtonScriptDialogue.ts:112 | selection 0 picks the bottom button; any other selection, undefined included, picks the top button |
| DualButtonScriptDialogue.ProcessResponse | scripts/util/MinecraftScriptDialogue/DualButtonScriptDialogue.ts:111-118 | a successful response names the selected button; that button's callback, and no other, is invoked once with its name when present, and its value or error becomes the result; without a callback the response carries undefined |
| DualButtonScriptDialogue.SelectionMatchesDisplay | scripts/util/MinecraftScriptDialogue/DualButtonScriptDialogue.ts:105-112 | selection 0 names the button displayed as `button1`, selection 1 the one displayed as `button2` |
| DualButtonScriptDialogue.SetBodiesKeepsResponses | scripts/util/MinecraftScriptDialogue/DualButtonScriptDialogue.ts:94-117 | after any number of `setBody` calls the title and buttons are unchanged, and every response is processed exactly as before |
| DualButtonScriptDialogue.Open | scripts/util/MinecraftScriptDialogue/DualButtonScriptDialogue.ts:98-118 | `open` over the dual button form and response processing, with everything `ScriptDialogue.Open` states |
| DualButtonScriptDialogue.ClosedIsCanceled | scripts/util/MinecraftScriptDialogue/ScriptDialogue.ts:87-89 | a player closing the form gives a canceled response with reason UserClosed after one display, and no callback runs |
| MultiButtonScriptDialogue.New | scripts/util/MinecraftScriptDialogue/MultiButtonScriptDialogue.ts:20-22 | a new dialogue has the title, no body and no buttons |
| MultiButtonScriptDialogue.SetBody | scripts/util/MinecraftScriptDialogue/MultiButtonScriptDialogue.ts:82-84 | only the body is replaced; title and buttons are kept |
| MultiButtonScriptDialogue.AddButton | scripts/util/MinecraftScriptDialogue/MultiButtonScriptDialogue.ts:92-107 | the buttons are the old list followed by exactly one new button with the given name, text, icon and callback; title and body are kept |
| MultiButtonScriptDialogue.AddButtons | scripts/util/MinecraftScriptDialogue/MultiButtonScriptDialogue.ts:113-120 | the buttons are the old list followed by the new ones in order; title and body are kept |
| MultiButtonScriptDialogue.AddButtonsIsAddEach | scripts/util/MinecraftScriptDialogue/MultiButtonScriptDialogue.ts:92-120 | adding a list of buttons at once equals adding them one by one in order |
| MultiButtonScriptDialogue.GetShowable | scripts/util/MinecraftScriptDialogue/MultiButtonScriptDialogue.ts:122-140 | it throws MissingButtonsException if and only if there are no buttons; otherwise the form has the title, the body when truthy, and one button per stored button, in order, with its text and icon |
| MultiButtonScriptDialogue.ProcessResponse | scripts/util/MinecraftScriptDialogue/MultiButtonScriptDialogue.ts:142-152 | an undefined or out-of-range selection is a TypeError with no callback; otherwise a successful response names the button at that index, and its callback, when present, is invoked once with the name and decides the result |
| MultiButtonScriptDialogue.AddButtonKeepsSelections | scripts/util/MinecraftScriptDialogue/MultiButtonScriptDialogue.ts:92-107 | after adding a button, every earlier index selects as before and the next index presses the new button |
| MultiButtonScriptDialogue.SelectionMatchesDisplay | scripts/util/MinecraftScriptDialogue/MultiButtonScriptDialogue.ts:135-151 | a valid selection names the button whose text the form displays at that position |
| MultiButtonScriptDialogue.Open | scripts/util/MinecraftScriptDialogue/MultiButtonScriptDialogue.ts:122-152 | `open` over the multi button form and response processing, with everything `ScriptDialogue.Open` states |
| MultiButtonScriptDialogue.NoButtonsIsRejected | scripts/util/MinecraftScriptDialogue/MultiButtonScriptDialogue.ts:123-125 | without buttons nothing is shown and the response is rejected without reason with MissingButtonsException; it is returned unless an unlock command throws |
| MultiButtonScriptDialogue.ExitSelected | scripts/util/MinecraftScriptDialogue/MultiButtonScriptDialogue.ts:142-151 | a dialogue with the single button "exit" and body "hello", selected at the first display, responds with "exit" and an undefined callback result |
| InputScriptDialogue.InputDropdown | scripts/util/MinecraftScriptDialogue/InputScriptDialogue.ts:32-34 | a new dropdown has no options and default index 0 |
| InputScriptDialogue.InputSlider | scripts/util/MinecraftScriptDialogue/InputScriptDialogue.ts:239-251 | a slider keeps its bounds and step; its default is the given one, or the minimum when none is given |
| InputScriptDialogue.InputText | scripts/util/MinecraftScriptDialogue/InputScriptDialogue.ts:271-274 | a text field keeps its placeholder; its default is the given one, or the empty string |
| InputScriptDialogue.InputToggle | scripts/util/MinecraftScriptDialogue/InputScriptDialogue.ts:289-291 | a toggle's default is true exactly when true is given |
| InputScriptDialogue.AddOption | scripts/util/MinecraftScriptDialogue/InputScriptDialogue.ts:204-211 | the options are the old ones followed by exactly one new option; name, label and default index are kept |
| InputScriptDialogue.SetDefaultValueIndex | scripts/util/MinecraftScriptDialogue/InputScriptDialogue.ts:195-197 | the options, name and label are kept; the default index is replaced |
| InputScriptDialogue.New | scripts/util/MinecraftScriptDialogue/InputScriptDialogue.ts:21-23 | a new dialogue has the title and no elements |
| InputScriptDialogue.AddElement | scripts/util/MinecraftScriptDialogue/InputScriptDialogue.ts:324-326 | the elements are the old list followed by exactly one new element; the title is kept |
| InputScriptDialogue.AddElements | scripts/util/MinecraftScriptDialogue/InputScriptDialogue.ts:337-339 | the elements are the old list followed by the new ones in order |
| InputScriptDialogue.AddElementsIsAddEach | scripts/util/MinecraftScriptDialogue/InputScriptDialogue.ts:324-339 | adding a list of elements at once equals adding them one by one in order |
| InputScriptDialogue.ControlOf | scripts/util/MinecraftScriptDialogue/InputScriptDialogue.ts:350-364 | each kind of element is displayed as its own kind of control with its label and settings; an element of the base class is not displayed |
| InputScriptDialogue.Labels | scripts/util/MinecraftScriptDialogue/InputScriptDialogue.ts:354 | a dropdown displays its options' labels, one per option, in order |
| InputScriptDialogue.Controls | scripts/util/MinecraftScriptDialogue/InputScriptDialogue.ts:350-364 | there are at most as many controls as elements; one element gives its control, or none when it is bare; when every element is displayable, control i is element i's control |
| InputScriptDialogue.ControlsAppend | scripts/util/MinecraftScriptDialogue/InputScriptDialogue.ts:350-364 | the controls of two lists one after the other are the controls of the first followed by those of the second |
| InputScriptDialogue.ControlAt | scripts/util/MinecraftScriptDialogue/InputScriptDialogue.ts:350-364 | every displayed element's control is in the form, right after the controls of the elements before it, so the displayed elements keep their order whatever bare elements are present |
| InputScriptDialogue.GetShowable | scripts/util/MinecraftScriptDialogue/InputScriptDialogue.ts:341-367 | it throws MissingElementsError if and only if there are no elements; otherwise the form has the title and the elements' controls, as `Controls` states |
| InputScriptDialogue.AddElementAppendsControl | scripts/util/MinecraftScriptDialogue/InputScriptDialogue.ts:324-367 | after `addElement` the form can be built, and its controls are the old ones followed by the new element's control, if it has one |
| InputScriptDialogue.FormValueAt | scripts/util/MinecraftScriptDialogue/InputScriptDialogue.ts:373-378 | absent form values, or a position past their end, read as undefined; otherwise the form value at that position |
| InputScriptDialogue.ElementValue | scripts/util/MinecraftScriptDialogue/InputScriptDialogue.ts:375-394 | a dropdown succeeds if and only if its default index and the defined form value (a number) both index an option, and then yields that option's value; other displayed elements yield the defined form value unchanged, else their default; a base-class element yields 0; every error is a TypeError |
| InputScriptDialogue.DefaultValue | scripts/util/MinecraftScriptDialogue/InputScriptDialogue.ts:380-390 | without a form value a dropdown yields the option at its default index, or a TypeError when there is none; slider, text field and toggle yield their defaults |
| InputScriptDialogue.Entries | scripts/util/MinecraftScriptDialogue/InputScriptDialogue.ts:375-399 | the `map` succeeds if and only if every element's value does, and then has one entry per element, in order, with its name and value; any error is a TypeError |
| InputScriptDialogue.Assign | scripts/util/MinecraftScriptDialogue/InputScriptDialogue.ts:401 | the keys are exactly the entries' names, and each name maps to the value of the last entry with that name |
| InputScriptDialogue.ProcessResponse | scripts/util/MinecraftScriptDialogue/InputScriptDialogue.ts:369-402 | the response succeeds if and only if every element yields a value; its keys are exactly the element names, and each name holds the value of the last element with that name; failures are TypeErrors; no callback runs |
| InputScriptDialogue.AbsentValuesAreDefaults | scripts/util/MinecraftScriptDialogue/InputScriptDialogue.ts:373-390 | without form values every element yields its default, and the response succeeds exactly when every default exists |
| InputScriptDialogue.DropdownDefaultAndSelection | scripts/util/MinecraftScriptDialogue/InputScriptDialogue.ts:380-384 | a dropdown with three options and default index 1 yields the second option's value without a form value, and the third's with form value 2 |
| InputScriptDialogue.Open | scripts/util/MinecraftScriptDialogue/InputScriptDialogue.ts:341-402 | `open` over the modal form and response processing, with everything `ScriptDialogue.Open` states |
| InputScriptDialogue.NoElementsIsRejected | scripts/util/MinecraftScriptDialogue/InputScriptDialogue.ts:342-344 | without elements nothing is shown and the response is rejected without reason with MissingElementsError; it is returned unless an unlock command throws |

The compiled bundle `scripts/util/MinecraftScriptDialogue.js` holds the same logic and is not
modelled a second time. Its parts match the members above:

- the defaults and merge (`MinecraftScriptDialogue.js:53-57`, `126-131`): `ScriptDialogue.ResolveShowDialogueOptions`;
- `open` (`MinecraftScriptDialogue.js:73-101`): `ScriptDialogue.Open`, with the same lock, `try`/`catch`, cancel check and `finally` unlock;
- the retry loop (`MinecraftScriptDialogue.js:102-117`): `ScriptDialogue.Show`;
- the dual button `processResponse` (`MinecraftScriptDialogue.js:277-284`): `DualButtonScriptDialogue.ProcessResponse`;
- the multi button builders and guard (`MinecraftScriptDialogue.js:333-357`): `MultiButtonScriptDialogue.AddButton`, `AddButtons` and `GetShowable`;
- the input `processResponse` (`MinecraftScriptDialogue.js:677-702`): `InputScriptDialogue.ProcessResponse`.

## Left out

- `asyncWait` / `system.runTimeout`: a host scheduler. A wait is a `Wait(ticks)` event.
- The form objects of `@minecraft/server-ui`: their contents are datatypes (`MessageForm`,
  `ActionForm`, `ModalForm`). Their `show` is the `Host.show` oracle, indexed by display.
- `player.runCommand` command text: the commands are `InputPermission` values.
  `player.isValid()` is the `Host.isValid` oracle, indexed by wait. The player is only its name.
- The `instanceof FormRejectError` test and the `e &&` test: errors are the closed `Error`
  datatype. A thrown falsy value (such as `throw undefined`) is not modelled.
- Button callbacks: their bodies are the `Host.callback` oracle. Their results are integers, not
  a generic type.
- Interleaving of concurrent `open` calls: each `open` is modelled as one sequential run.
- JavaScript numbers are integers here: no fractional values, NaN or infinities in options,
  slider settings, selections or form values.
- InputScriptDialogue.ElementValue: a dropdown form value that is not a number is a TypeError.
  JavaScript would also index the options with a numeric string.
- InputScriptDialogue.ProcessResponse: the result is a map, so the key order of the JavaScript
  object is not modelled. Neither are names such as `__proto__` that `Object.assign` treats
  specially.
- `lockPlayerCamera` values that are truthy but not booleans: the field is a boolean or undefined.
- The type-level parameters of the builders (the unions of button and element names): names are
  strings.
- RawMessage fields other than `text`, `translate` and `with` (`rawtext`, `score`).
- Object identity (`d.addButton(...) !== d`): dialogues are values, so no operation can change
  the receiver.
- `scripts/util/MinecraftScriptDialogue.d.ts` and the barrel `scripts/util/MinecraftScriptDialogue.ts`:
  declarations and re-exports, without logic.
- The sample scripts (`show-dialogue-on-item-use`, `give-a-single-item`, `give-a-single-book`,
  `main`): event and property glue and configuration data.
