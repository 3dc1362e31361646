/**
 * The multi button dialogue (`MultiButtonScriptDialogue.ts`): a title, an optional body and an
 * append-only list of buttons, shown as an action form; the selection indexes the list.
 */
module MultiButtonScriptDialogue {
  import opened Wrappers
  import opened ScriptDialogue

  /** `MultiButton`: name, displayed text, optional icon and optional callback. */
  datatype MultiButton = MultiButton(name: string, text: DialogueString, iconPath: Option<string>,
                                     callback: Option<CallbackId>)

  /** The immutable state of a `MultiButtonDialogue`. */
  datatype Dialogue = Dialogue(title: DialogueString, body: Option<DialogueString>, buttons: seq<MultiButton>)

  /** One `formData.button(text, iconPath)` call. */
  datatype FormButton = FormButton(text: DialogueString, iconPath: Option<string>)

  /** What `getShowable` hands to the action form. */
  datatype ActionForm = ActionForm(title: DialogueString, body: Option<DialogueString>, buttons: seq<FormButton>)

  /** `multiButtonScriptDialogue`: no body and no buttons yet. */
  function New(title: DialogueString): (d: Dialogue)
    ensures d.title == title && d.body.None? && d.buttons == []
  {
    Dialogue(title, None, [])
  }

  /** `setBody`: only the body is replaced. */
  function SetBody(d: Dialogue, body: DialogueString): (r: Dialogue)
    ensures r.body == Some(body)
    ensures r.title == d.title && r.buttons == d.buttons
  {
    d.(body := Some(body))
  }

  /** `addButton`: the old buttons followed by exactly one new button. */
  function AddButton(d: Dialogue, name: string, text: DialogueString, iconPath: Option<string>,
                     callback: Option<CallbackId>): (r: Dialogue)
    ensures r.title == d.title && r.body == d.body
    ensures |r.buttons| == |d.buttons| + 1 && r.buttons[..|d.buttons|] == d.buttons
    ensures r.buttons[|d.buttons|] == MultiButton(name, text, iconPath, callback)
  {
    d.(buttons := d.buttons + [MultiButton(name, text, iconPath, callback)])
  }

  /** `addButtons`: the old buttons followed by the new ones, in order. */
  function AddButtons(d: Dialogue, buttons: seq<MultiButton>): (r: Dialogue)
    ensures r.title == d.title && r.body == d.body
    ensures |r.buttons| == |d.buttons| + |buttons|
    ensures r.buttons[..|d.buttons|] == d.buttons && r.buttons[|d.buttons|..] == buttons
  {
    d.(buttons := d.buttons + buttons)
  }

  /** `addButton` once per button, in order. */
  function AddEach(d: Dialogue, buttons: seq<MultiButton>): Dialogue
    decreases |buttons|
  {
    if buttons == [] then d
    else
      var b := buttons[0];
      AddEach(AddButton(d, b.name, b.text, b.iconPath, b.callback), buttons[1..])
  }

  /** Adding a list of buttons at once is adding them one at a time. */
  lemma {:induction false} AddButtonsIsAddEach(d: Dialogue, buttons: seq<MultiButton>)
    ensures AddButtons(d, buttons) == AddEach(d, buttons)
    decreases |buttons|
  {
    if buttons != [] {
      var b := buttons[0];
      var d' := AddButton(d, b.name, b.text, b.iconPath, b.callback);
      AddButtonsIsAddEach(d', buttons[1..]);
      assert d'.buttons + buttons[1..] == d.buttons + buttons;
    }
  }

  /** `getShowable`: throws `MissingButtonsException` without buttons, else one form button per button. */
  function GetShowable(d: Dialogue): (r: Result<ActionForm, Error>)
    ensures r.Failure? <==> d.buttons == []
    ensures r.Failure? ==> r.error == MissingButtonsException
    ensures r.Success? ==> r.value.title == d.title && r.value.body == ShownBody(d.body)
    ensures r.Success? ==> |r.value.buttons| == |d.buttons|
    ensures r.Success? ==> forall i | 0 <= i < |d.buttons| ::
              r.value.buttons[i] == FormButton(d.buttons[i].text, d.buttons[i].iconPath)
  {
    if d.buttons == [] then Failure(MissingButtonsException)
    else
      Success(ActionForm(d.title, ShownBody(d.body),
                         seq(|d.buttons|, i requires 0 <= i < |d.buttons| => FormButton(d.buttons[i].text, d.buttons[i].iconPath))))
  }

  /** Whether a selection indexes a button. */
  predicate Selects(d: Dialogue, selection: Option<int>) {
    selection.Some? && 0 <= selection.value < |d.buttons|
  }

  /**
   * `processResponse`: the button at the selected index is pressed; an undefined or out of range
   * selection reads a property of `undefined`, a `TypeError`.
   */
  function ProcessResponse(d: Dialogue, response: FormResponse,
                           call: (CallbackId, string) -> Result<Option<CallbackValue>, Error>): (p: Processed<ButtonDialogueResponse>)
    ensures !Selects(d, response.selection) ==> p == Processed(Failure(TypeError), [])
    ensures Selects(d, response.selection) ==>
              var b := d.buttons[response.selection.value];
              && (p.result.Success? ==> p.result.value.selected == b.name)
              && p.invocations == (if b.callback.Some? then [Invocation(b.callback.value, b.name)] else [])
              && (b.callback.None? ==> p.result == Success(ButtonDialogueResponse(b.name, None)))
              && (b.callback.Some? && call(b.callback.value, b.name).Failure? ==>
                    p.result == Failure(call(b.callback.value, b.name).error))
              && (b.callback.Some? && call(b.callback.value, b.name).Success? ==>
                    p.result == Success(ButtonDialogueResponse(b.name, call(b.callback.value, b.name).value)))
  {
    if Selects(d, response.selection) then
      var b := d.buttons[response.selection.value];
      PressButton(b.name, b.callback, call)
    else
      Processed(Failure(TypeError), [])
  }

  /** `processResponse` with the buttons' callbacks as the host runs them. */
  function Process(d: Dialogue, host: Host): FormResponse -> Processed<ButtonDialogueResponse> {
    r => ProcessResponse(d, r, host.callback)
  }

  /** Adding a button keeps what every earlier index selects and gives the new button the next index. */
  lemma AddButtonKeepsSelections(d: Dialogue, name: string, text: DialogueString, iconPath: Option<string>,
                                 callback: Option<CallbackId>, response: FormResponse,
                                 call: (CallbackId, string) -> Result<Option<CallbackValue>, Error>)
    ensures var r := AddButton(d, name, text, iconPath, callback);
            && (Selects(d, response.selection) ==> ProcessResponse(r, response, call) == ProcessResponse(d, response, call))
            && (response.selection == Some(|d.buttons|) ==>
                  ProcessResponse(r, response, call) == PressButton(name, callback, call))
  {
    var r := AddButton(d, name, text, iconPath, callback);
    if Selects(d, response.selection) {
      assert r.buttons[response.selection.value] == d.buttons[response.selection.value];
    }
  }

  /** The selected button is the one displayed at the selected position. */
  lemma SelectionMatchesDisplay(d: Dialogue, response: FormResponse,
                                call: (CallbackId, string) -> Result<Option<CallbackValue>, Error>)
    requires Selects(d, response.selection)
    ensures var i := response.selection.value;
            var p := ProcessResponse(d, response, call);
            && GetShowable(d).Success?
            && GetShowable(d).value.buttons[i].text == d.buttons[i].text
            && (p.result.Success? ==> p.result.value.selected == d.buttons[i].name)
  {
  }

  /** `open` on a multi button dialogue. */
  method Open(d: Dialogue, options: ShowDialogueOptions, host: Host)
    returns (outcome: OpenOutcome<ButtonDialogueResponse>, trace: seq<Event>, attempt: DialogueResponse<ButtonDialogueResponse>)
    ensures Opened(ResolveShowDialogueOptions(options), GetShowable(d), Process(d, host), host, outcome, trace, attempt)
  {
    outcome, trace, attempt := ScriptDialogue.Open(options, GetShowable(d), Process(d, host), host);
  }

  /**
   * Without buttons, `open` displays nothing and settles on a rejected response without reason
   * whose error is `MissingButtonsException`; it is returned unless an unlock command throws.
   */
  lemma NoButtonsIsRejected(d: Dialogue, o: ResolvedOptions, host: Host, outcome: OpenOutcome<ButtonDialogueResponse>,
                            trace: seq<Event>, attempt: DialogueResponse<ButtonDialogueResponse>)
    requires Opened(o, GetShowable(d), Process(d, host), host, outcome, trace, attempt)
    requires d.buttons == [] && !LockFailed(o, host)
    ensures CountShows(trace) == 0 && Invocations(trace) == []
    ensures attempt == DialogueRejectedResponse(None, MissingButtonsException)
    ensures UnlockRun(o, host).error.None? ==> outcome == Resolved(attempt)
  {
  }

  /**
   * A single "exit" button without callback and the body "hello", selected on the first
   * display: the response names "exit" and carries no callback result.
   */
  lemma ExitSelected(title: DialogueString, text: DialogueString, o: ResolvedOptions, host: Host,
                     outcome: OpenOutcome<ButtonDialogueResponse>, trace: seq<Event>,
                     attempt: DialogueResponse<ButtonDialogueResponse>)
    requires var d := SetBody(AddButton(New(title), "exit", text, None, None), Literal("hello"));
             Opened(o, GetShowable(d), Process(d, host), host, outcome, trace, attempt)
    requires !LockFailed(o, host)
    requires host.show(0) == Success(FormResponse(false, None, Some(0), None))
    ensures CountShows(trace) == 1 && Invocations(trace) == []
    ensures attempt == Succeeded(ButtonDialogueResponse("exit", None))
  {
    var d := SetBody(AddButton(New(title), "exit", text, None, None), Literal("hello"));
    assert !Retries(host, o, 0);
    assert Selects(d, Some(0));
  }
}
