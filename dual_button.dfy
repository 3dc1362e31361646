/**
 * The dual button dialogue (`DualButtonScriptDialogue.ts`): a title, an optional body and two
 * fixed buttons, shown as a message form whose first button is the bottom one.
 */
module DualButtonScriptDialogue {
  import opened Wrappers
  import opened ScriptDialogue

  /** `DualButton`: the name the response records, the displayed text and an optional callback. */
  datatype DualButton = DualButton(name: string, text: DialogueString, callback: Option<CallbackId>)

  /** The immutable state of a `DualButtonScriptDialogue`. */
  datatype Dialogue = Dialogue(title: DialogueString, body: Option<DialogueString>,
                               topButton: DualButton, bottomButton: DualButton)

  /** What `getShowable` hands to the message form: `button1` is at the bottom, `button2` at the top. */
  datatype MessageForm = MessageForm(title: DialogueString, body: Option<DialogueString>,
                                     button1: DialogueString, button2: DialogueString)

  /** `dualButtonScriptDialogue`: a dialogue without a body. */
  function New(title: DialogueString, topButton: DualButton, bottomButton: DualButton): (d: Dialogue)
    ensures d.body.None?
    ensures d.title == title && d.topButton == topButton && d.bottomButton == bottomButton
  {
    Dialogue(title, None, topButton, bottomButton)
  }

  /** `setBody`: a new dialogue in which only the body is replaced. */
  function SetBody(d: Dialogue, body: DialogueString): (r: Dialogue)
    ensures r.body == Some(body)
    ensures r.title == d.title && r.topButton == d.topButton && r.bottomButton == d.bottomButton
  {
    d.(body := Some(body))
  }

  /** `getShowable`: the title, the body only when truthy, then the bottom and the top button's text. */
  function GetShowable(d: Dialogue): (f: MessageForm)
    ensures f.title == d.title
    ensures f.body.Some? <==> IsTruthy(d.body)
    ensures f.body.Some? ==> f.body == d.body
    ensures f.button1 == d.bottomButton.text && f.button2 == d.topButton.text
  {
    MessageForm(d.title, ShownBody(d.body), d.bottomButton.text, d.topButton.text)
  }

  /** The button a selection picks: 0 is the bottom button, anything else (undefined too) the top one. */
  function SelectedButton(d: Dialogue, selection: Option<int>): (b: DualButton)
    ensures selection == Some(0) ==> b == d.bottomButton
    ensures selection != Some(0) ==> b == d.topButton
  {
    if selection == Some(0) then d.bottomButton else d.topButton
  }

  /** `processResponse`: press the selected button. */
  function ProcessResponse(d: Dialogue, response: FormResponse,
                           call: (CallbackId, string) -> Result<Option<CallbackValue>, Error>): (p: Processed<ButtonDialogueResponse>)
    ensures var b := SelectedButton(d, response.selection);
            && (p.result.Success? ==> p.result.value.selected == b.name)
            && (b.callback.None? ==> p.result == Success(ButtonDialogueResponse(b.name, None)) && p.invocations == [])
            && (b.callback.Some? ==> p.invocations == [Invocation(b.callback.value, b.name)])
            && (b.callback.Some? && call(b.callback.value, b.name).Failure? ==>
                  p.result == Failure(call(b.callback.value, b.name).error))
            && (b.callback.Some? && call(b.callback.value, b.name).Success? ==>
                  p.result == Success(ButtonDialogueResponse(b.name, call(b.callback.value, b.name).value)))
  {
    var b := SelectedButton(d, response.selection);
    PressButton(b.name, b.callback, call)
  }

  /** `processResponse` with the buttons' callbacks as the host runs them. */
  function Process(d: Dialogue, host: Host): FormResponse -> Processed<ButtonDialogueResponse> {
    r => ProcessResponse(d, r, host.callback)
  }

  /**
   * The name in the response is the one of the button displayed at the selected position:
   * selection 0 is the form's `button1`, selection 1 its `button2`.
   */
  lemma SelectionMatchesDisplay(d: Dialogue, response: FormResponse,
                                call: (CallbackId, string) -> Result<Option<CallbackValue>, Error>)
    requires response.selection == Some(0) || response.selection == Some(1)
    ensures var p := ProcessResponse(d, response, call);
            var chosen := if response.selection == Some(0) then d.bottomButton else d.topButton;
            && (response.selection == Some(0) ==> GetShowable(d).button1 == chosen.text)
            && (response.selection == Some(1) ==> GetShowable(d).button2 == chosen.text)
            && (p.result.Success? ==> p.result.value.selected == chosen.name)
  {
  }

  /** A sequence of bodies set one after the other. */
  function SetBodies(d: Dialogue, bodies: seq<DialogueString>): Dialogue
    decreases |bodies|
  {
    if bodies == [] then d else SetBodies(SetBody(d, bodies[0]), bodies[1..])
  }

  /** However many `setBody` calls came before, the buttons, and so every response, are unchanged. */
  lemma {:induction false} SetBodiesKeepsResponses(d: Dialogue, bodies: seq<DialogueString>, response: FormResponse,
                                                   call: (CallbackId, string) -> Result<Option<CallbackValue>, Error>)
    ensures SetBodies(d, bodies).title == d.title
    ensures SetBodies(d, bodies).topButton == d.topButton && SetBodies(d, bodies).bottomButton == d.bottomButton
    ensures ProcessResponse(SetBodies(d, bodies), response, call) == ProcessResponse(d, response, call)
    decreases |bodies|
  {
    if bodies != [] {
      SetBodiesKeepsResponses(SetBody(d, bodies[0]), bodies[1..], response, call);
    }
  }

  /** `open` on a dual button dialogue: its form can always be built. */
  method Open(d: Dialogue, options: ShowDialogueOptions, host: Host)
    returns (outcome: OpenOutcome<ButtonDialogueResponse>, trace: seq<Event>, attempt: DialogueResponse<ButtonDialogueResponse>)
    ensures Opened(ResolveShowDialogueOptions(options), Success(GetShowable(d)), Process(d, host), host, outcome, trace, attempt)
  {
    outcome, trace, attempt := ScriptDialogue.Open(options, Success(GetShowable(d)), Process(d, host), host);
  }

  /** A player closing the form: the response is canceled with that reason and no callback runs. */
  lemma ClosedIsCanceled(d: Dialogue, o: ResolvedOptions, host: Host, outcome: OpenOutcome<ButtonDialogueResponse>,
                         trace: seq<Event>, attempt: DialogueResponse<ButtonDialogueResponse>)
    requires Opened(o, Success(GetShowable(d)), Process(d, host), host, outcome, trace, attempt)
    requires !LockFailed(o, host)
    requires host.show(0) == Success(FormResponse(true, Some(UserClosed), None, None))
    ensures CountShows(trace) == 1 && Invocations(trace) == []
    ensures attempt == DialogueCanceledResponse(Some(UserClosed))
  {
    assert !Retries(host, o, 0);
  }
}
