/**
 * The input dialogue (`InputScriptDialogue.ts`): a title and an append-only list of input
 * elements, shown as a modal form; the form values become a map from element names to values.
 */
module InputScriptDialogue {
  import opened Wrappers
  import opened ScriptDialogue

  // ---------------------------------------------------------------------------------------------
  // Elements

  /** `InputDropdownOption`: a displayed caption (the source's `label`) and the value it stands for. */
  datatype DropdownOption = DropdownOption(caption: DialogueString, value: InputValue)

  /**
   * The input elements, a closed union in place of the `instanceof` tests. `Bare` is an instance
   * of the base class `InputElement` itself: it is not displayed and its value is always 0.
   */
  datatype InputElement =
    | Dropdown(name: string, caption: DialogueString, options: seq<DropdownOption>, defaultValueIndex: int)
    | Slider(name: string, caption: DialogueString, minimumValue: int, maximumValue: int, valueStep: int,
             defaultValue: int)
    | TextField(name: string, caption: DialogueString, placeholderText: DialogueString, defaultText: string)
    | Toggle(name: string, caption: DialogueString, defaultOn: bool)
    | Bare(name: string, caption: DialogueString)

  /** `inputDropdown`: a dropdown without options whose default index is 0. */
  function InputDropdown(name: string, caption: DialogueString): (e: InputElement)
    ensures e.Dropdown? && e.name == name && e.caption == caption
    ensures e.options == [] && e.defaultValueIndex == 0
  {
    Dropdown(name, caption, [], 0)
  }

  /** `inputSlider`: the default value is the minimum unless one is given. */
  function InputSlider(name: string, caption: DialogueString, minimumValue: int, maximumValue: int, valueStep: int,
                       defaultValue: Option<int>): (e: InputElement)
    ensures e.Slider? && e.name == name && e.caption == caption
    ensures e.minimumValue == minimumValue && e.maximumValue == maximumValue && e.valueStep == valueStep
    ensures defaultValue.None? ==> e.defaultValue == minimumValue
    ensures defaultValue.Some? ==> e.defaultValue == defaultValue.value
  {
    Slider(name, caption, minimumValue, maximumValue, valueStep, defaultValue.GetOr(minimumValue))
  }

  /** `inputText`: the default value is the empty string unless one is given. */
  function InputText(name: string, caption: DialogueString, placeholderText: DialogueString,
                     defaultValue: Option<string>): (e: InputElement)
    ensures e.TextField? && e.name == name && e.caption == caption && e.placeholderText == placeholderText
    ensures defaultValue.None? ==> e.defaultText == ""
    ensures defaultValue.Some? ==> e.defaultText == defaultValue.value
  {
    TextField(name, caption, placeholderText, defaultValue.GetOr(""))
  }

  /** `inputToggle`: the default value is `!!defaultValue`, false when none is given. */
  function InputToggle(name: string, caption: DialogueString, defaultValue: Option<bool>): (e: InputElement)
    ensures e.Toggle? && e.name == name && e.caption == caption
    ensures e.defaultOn <==> defaultValue == Some(true)
  {
    Toggle(name, caption, defaultValue.GetOr(false))
  }

  /** `InputDropdown.addOption`: one more option at the end; the default index is kept. */
  function AddOption(e: InputElement, caption: DialogueString, value: InputValue): (r: InputElement)
    requires e.Dropdown?
    ensures r.Dropdown? && r.name == e.name && r.caption == e.caption && r.defaultValueIndex == e.defaultValueIndex
    ensures |r.options| == |e.options| + 1 && r.options[..|e.options|] == e.options
    ensures r.options[|e.options|] == DropdownOption(caption, value)
  {
    e.(options := e.options + [DropdownOption(caption, value)])
  }

  /** `InputDropdown.setDefaultValueIndex`: the options are kept, the index replaced. */
  function SetDefaultValueIndex(e: InputElement, defaultValueIndex: int): (r: InputElement)
    requires e.Dropdown?
    ensures r.Dropdown? && r.name == e.name && r.caption == e.caption && r.options == e.options
    ensures r.defaultValueIndex == defaultValueIndex
  {
    e.(defaultValueIndex := defaultValueIndex)
  }

  // ---------------------------------------------------------------------------------------------
  // The dialogue

  /** The immutable state of an `InputScriptDialogue`. */
  datatype Dialogue = Dialogue(title: DialogueString, elements: seq<InputElement>)

  /** `inputScriptDialogue`: no elements yet. */
  function New(title: DialogueString): (d: Dialogue)
    ensures d.title == title && d.elements == []
  {
    Dialogue(title, [])
  }

  /** `addElement`: the old elements followed by exactly one new element. */
  function AddElement(d: Dialogue, element: InputElement): (r: Dialogue)
    ensures r.title == d.title
    ensures |r.elements| == |d.elements| + 1 && r.elements[..|d.elements|] == d.elements
    ensures r.elements[|d.elements|] == element
  {
    d.(elements := d.elements + [element])
  }

  /** `addElements`: the old elements followed by the new ones, in order. */
  function AddElements(d: Dialogue, elements: seq<InputElement>): (r: Dialogue)
    ensures r.title == d.title
    ensures |r.elements| == |d.elements| + |elements|
    ensures r.elements[..|d.elements|] == d.elements && r.elements[|d.elements|..] == elements
  {
    d.(elements := d.elements + elements)
  }

  /** `addElement` once per element, in order. */
  function AddEach(d: Dialogue, elements: seq<InputElement>): Dialogue
    decreases |elements|
  {
    if elements == [] then d else AddEach(AddElement(d, elements[0]), elements[1..])
  }

  /** Adding a list of elements at once is adding them one at a time. */
  lemma {:induction false} AddElementsIsAddEach(d: Dialogue, elements: seq<InputElement>)
    ensures AddElements(d, elements) == AddEach(d, elements)
    decreases |elements|
  {
    if elements != [] {
      var d' := AddElement(d, elements[0]);
      AddElementsIsAddEach(d', elements[1..]);
      assert d'.elements + elements[1..] == d.elements + elements;
    }
  }

  // ---------------------------------------------------------------------------------------------
  // The form

  /** One control of a modal form. */
  datatype Control =
    | DropdownControl(caption: DialogueString, optionLabels: seq<DialogueString>, defaultValueIndex: int)
    | SliderControl(caption: DialogueString, minimumValue: int, maximumValue: int, valueStep: int, defaultValue: int)
    | TextFieldControl(caption: DialogueString, placeholderText: DialogueString, defaultText: string)
    | ToggleControl(caption: DialogueString, defaultOn: bool)

  /** What `getShowable` hands to the modal form. */
  datatype ModalForm = ModalForm(title: DialogueString, controls: seq<Control>)

  /** The control an element is displayed as; a bare element has none. */
  function ControlOf(e: InputElement): (c: Option<Control>)
    ensures c.None? <==> e.Bare?
    ensures e.Dropdown? ==> c == Some(DropdownControl(e.caption, Labels(e.options), e.defaultValueIndex))
    ensures e.Slider? ==>
              c == Some(SliderControl(e.caption, e.minimumValue, e.maximumValue, e.valueStep, e.defaultValue))
    ensures e.TextField? ==> c == Some(TextFieldControl(e.caption, e.placeholderText, e.defaultText))
    ensures e.Toggle? ==> c == Some(ToggleControl(e.caption, e.defaultOn))
  {
    match e
    case Dropdown(_, caption, options, index) => Some(DropdownControl(caption, Labels(options), index))
    case Slider(_, caption, min, max, step, default) => Some(SliderControl(caption, min, max, step, default))
    case TextField(_, caption, placeholder, default) => Some(TextFieldControl(caption, placeholder, default))
    case Toggle(_, caption, default) => Some(ToggleControl(caption, default))
    case Bare(_, _) => None
  }

  /** `options.map((o) => o.caption)`. */
  function Labels(options: seq<DropdownOption>): (ls: seq<DialogueString>)
    ensures |ls| == |options| && forall i | 0 <= i < |options| :: ls[i] == options[i].caption
  {
    seq(|options|, i requires 0 <= i < |options| => options[i].caption)
  }

  /** Whether every element is displayed. */
  predicate AllDisplayed(elements: seq<InputElement>) {
    forall i | 0 <= i < |elements| :: !elements[i].Bare?
  }

  /** The `forEach` of `getShowable`: the controls of the elements, in order. */
  function Controls(elements: seq<InputElement>): (cs: seq<Control>)
    ensures |cs| <= |elements|
    ensures AllDisplayed(elements) ==>
              |cs| == |elements| && forall i | 0 <= i < |elements| :: Some(cs[i]) == ControlOf(elements[i])
    ensures |elements| == 1 ==> cs == (if elements[0].Bare? then [] else [ControlOf(elements[0]).value])
    decreases |elements|
  {
    if elements == [] then []
    else
      var rest := Controls(elements[1..]);
      match ControlOf(elements[0])
      case Some(c) => [c] + rest
      case None => rest
  }

  /** The controls of two lists of elements one after the other are those of each, in order. */
  lemma {:induction false} ControlsAppend(a: seq<InputElement>, b: seq<InputElement>)
    ensures Controls(a + b) == Controls(a) + Controls(b)
    decreases |a|
  {
    if a != [] {
      assert (a + b)[0] == a[0];
      assert (a + b)[1..] == a[1..] + b;
      ControlsAppend(a[1..], b);
    } else {
      assert a + b == b;
    }
  }

  /**
   * Every displayed element has its control in the form, right after the controls of the
   * elements before it; so bare elements are skipped and the others keep their order.
   */
  lemma ControlAt(elements: seq<InputElement>, i: nat)
    requires i < |elements| && !elements[i].Bare?
    ensures var k := |Controls(elements[..i])|;
            k < |Controls(elements)| && Controls(elements)[k] == ControlOf(elements[i]).value
  {
    assert elements == elements[..i] + [elements[i]] + elements[i + 1..];
    ControlsAppend(elements[..i], [elements[i]]);
    ControlsAppend(elements[..i] + [elements[i]], elements[i + 1..]);
  }

  /** `getShowable`: throws `MissingElementsError` without elements, else the title and the controls. */
  function GetShowable(d: Dialogue): (r: Result<ModalForm, Error>)
    ensures r.Failure? <==> d.elements == []
    ensures r.Failure? ==> r.error == MissingElementsError
    ensures r.Success? ==> r.value.title == d.title && r.value.controls == Controls(d.elements)
    ensures r.Success? && AllDisplayed(d.elements) ==>
              |r.value.controls| == |d.elements|
              && forall i | 0 <= i < |d.elements| :: Some(r.value.controls[i]) == ControlOf(d.elements[i])
  {
    if d.elements == [] then Failure(MissingElementsError) else Success(ModalForm(d.title, Controls(d.elements)))
  }

  /** Adding an element to a dialogue appends that element's control, if any, to its form. */
  lemma AddElementAppendsControl(d: Dialogue, e: InputElement)
    ensures var r := GetShowable(AddElement(d, e));
            && r.Success? && r.value.title == d.title
            && r.value.controls == Controls(d.elements) + (if e.Bare? then [] else [ControlOf(e).value])
  {
    ControlsAppend(d.elements, [e]);
  }

  // ---------------------------------------------------------------------------------------------
  // Reading the response

  /** `formValues[index]`, where absent form values are a list of `undefined`. */
  function FormValueAt(response: FormResponse, i: nat): (v: Option<InputValue>)
    ensures response.formValues.None? ==> v.None?
    ensures response.formValues.Some? && i < |response.formValues.value| ==> v == response.formValues.value[i]
    ensures response.formValues.Some? && i >= |response.formValues.value| ==> v.None?
  {
    if response.formValues.Some? && i < |response.formValues.value| then response.formValues.value[i] else None
  }

  /** Whether `options[index]` is an option (and not `undefined`). */
  predicate HasOption(e: InputElement, index: int)
    requires e.Dropdown?
  {
    0 <= index < |e.options|
  }

  /**
   * One step of the `map` of `processResponse`. A dropdown first reads the default option, then
   * the option the form value indexes: reading `.value` of `undefined` throws. The other
   * displayed elements take the form value as it is, or their default.
   */
  function ElementValue(e: InputElement, formValue: Option<InputValue>): (r: Result<InputValue, Error>)
    ensures r.Failure? ==> r.error == TypeError
    ensures e.Dropdown? ==>
              (r.Success? <==> HasOption(e, e.defaultValueIndex)
                               && (formValue.Some? ==> formValue.value.Num? && HasOption(e, formValue.value.n)))
    ensures e.Dropdown? && r.Success? && formValue.None? ==> r.value == e.options[e.defaultValueIndex].value
    ensures e.Dropdown? && r.Success? && formValue.Some? ==> r.value == e.options[formValue.value.n].value
    ensures !e.Dropdown? && !e.Bare? && formValue.Some? ==> r == Success(formValue.value)
    ensures e.Slider? && formValue.None? ==> r == Success(Num(e.defaultValue))
    ensures e.TextField? && formValue.None? ==> r == Success(Str(e.defaultText))
    ensures e.Toggle? && formValue.None? ==> r == Success(Bool(e.defaultOn))
    ensures e.Bare? ==> r == Success(Num(0))
  {
    match e
    case Dropdown(_, _, options, index) =>
      if !(0 <= index < |options|) then Failure(TypeError)
      else if formValue.None? then Success(options[index].value)
      else if formValue.value.Num? && 0 <= formValue.value.n < |options| then Success(options[formValue.value.n].value)
      else Failure(TypeError)
    case Slider(_, _, _, _, _, default) => Success(formValue.GetOr(Num(default)))
    case TextField(_, _, _, default) => Success(formValue.GetOr(Str(default)))
    case Toggle(_, _, default) => Success(formValue.GetOr(Bool(default)))
    case Bare(_, _) => Success(Num(0))
  }

  /** The value an element yields when the form gives none for it. */
  function DefaultValue(e: InputElement): (r: Result<InputValue, Error>)
    ensures e.Dropdown? ==>
              r == (if HasOption(e, e.defaultValueIndex) then Success(e.options[e.defaultValueIndex].value)
                    else Failure(TypeError))
    ensures e.Slider? ==> r == Success(Num(e.defaultValue))
    ensures e.TextField? ==> r == Success(Str(e.defaultText))
    ensures e.Toggle? ==> r == Success(Bool(e.defaultOn))
    ensures e.Bare? ==> r == Success(Num(0))
  {
    ElementValue(e, None)
  }

  /** One `{[name]: value}` object of the `map`. */
  datatype Entry = Entry(name: string, value: InputValue)

  /** The form values lined up with `n` elements. */
  function FormValuesFor(response: FormResponse, n: nat): (fvs: seq<Option<InputValue>>)
    ensures |fvs| == n && forall i | 0 <= i < n :: fvs[i] == FormValueAt(response, i)
  {
    seq(n, i requires 0 <= i < n => FormValueAt(response, i))
  }

  /** The `map` of `processResponse`: one entry per element, or the error of the first element that throws. */
  function Entries(elements: seq<InputElement>, formValues: seq<Option<InputValue>>): (r: Result<seq<Entry>, Error>)
    requires |formValues| == |elements|
    ensures r.Success? <==> forall i | 0 <= i < |elements| :: ElementValue(elements[i], formValues[i]).Success?
    ensures r.Failure? ==> r.error == TypeError
    ensures r.Success? ==>
              |r.value| == |elements|
              && forall i | 0 <= i < |elements| ::
                   r.value[i] == Entry(elements[i].name, ElementValue(elements[i], formValues[i]).value)
    decreases |elements|
  {
    if elements == [] then Success([])
    else
      var v := ElementValue(elements[0], formValues[0]);
      if v.Failure? then Failure(v.error)
      else
        var rest := Entries(elements[1..], formValues[1..]);
        if rest.Failure? then Failure(rest.error)
        else Success([Entry(elements[0].name, v.value)] + rest.value)
  }

  /** No later name in the list is the same as name `i`. */
  predicate LastWithName(names: seq<string>, i: nat)
    requires i < |names|
  {
    forall j | i < j < |names| :: names[j] != names[i]
  }

  /** The names of some entries, in order. */
  function EntryNames(entries: seq<Entry>): (ns: seq<string>)
    ensures |ns| == |entries| && forall i | 0 <= i < |entries| :: ns[i] == entries[i].name
  {
    seq(|entries|, i requires 0 <= i < |entries| => entries[i].name)
  }

  /** The names of some elements, in order. */
  function ElementNames(elements: seq<InputElement>): (ns: seq<string>)
    ensures |ns| == |elements| && forall i | 0 <= i < |elements| :: ns[i] == elements[i].name
  {
    seq(|elements|, i requires 0 <= i < |elements| => elements[i].name)
  }

  /**
   * `Object.assign({}, ...values)`: every name becomes a key, and a later entry with a name
   * overwrites an earlier one.
   */
  function Assign(entries: seq<Entry>): (m: map<string, InputValue>)
    ensures m.Keys == set i | 0 <= i < |entries| :: entries[i].name
    ensures forall i | 0 <= i < |entries| && LastWithName(EntryNames(entries), i) :: m[entries[i].name] == entries[i].value
    decreases |entries|
  {
    if entries == [] then map[]
    else
      var init := entries[..|entries| - 1];
      var last := entries[|entries| - 1];
      AssignStep(entries, Assign(init));
      Assign(init)[last.name := last.value]
  }

  /** One more entry on top of an assignment of the entries before it. */
  lemma AssignStep(entries: seq<Entry>, m: map<string, InputValue>)
    requires entries != []
    requires var init := entries[..|entries| - 1];
             && m.Keys == (set i | 0 <= i < |init| :: init[i].name)
             && forall i | 0 <= i < |init| && LastWithName(EntryNames(init), i) :: m[init[i].name] == init[i].value
    ensures var last := entries[|entries| - 1];
            var m' := m[last.name := last.value];
            && m'.Keys == (set i | 0 <= i < |entries| :: entries[i].name)
            && forall i | 0 <= i < |entries| && LastWithName(EntryNames(entries), i) :: m'[entries[i].name] == entries[i].value
  {
    var init := entries[..|entries| - 1];
    var last := entries[|entries| - 1];
    var m' := m[last.name := last.value];
    assert forall i | 0 <= i < |init| :: init[i] == entries[i];
    var names := set i | 0 <= i < |entries| :: entries[i].name;
    var initNames := set i | 0 <= i < |init| :: init[i].name;
    assert names == initNames + {last.name} by {
      forall x | x in names
        ensures x in initNames + {last.name}
      {
        var i :| 0 <= i < |entries| && entries[i].name == x;
        if i < |init| {
          assert init[i].name == x;
        }
      }
    }
    forall i | 0 <= i < |entries| && LastWithName(EntryNames(entries), i)
      ensures m'[entries[i].name] == entries[i].value
    {
      if i < |init| {
        assert LastWithName(EntryNames(init), i);
      }
    }
  }

  /** `InputScriptDialogueResponse`: the values by element name. */
  datatype InputResponse = InputResponse(values: map<string, InputValue>)

  /**
   * `processResponse`: every element's value, by name, the last element with a name winning;
   * a dropdown that reads a missing option makes the whole response a `TypeError`.
   */
  function ProcessResponse(d: Dialogue, response: FormResponse): (p: Processed<InputResponse>)
    ensures p.invocations == []
    ensures p.result.Success? <==>
              forall i | 0 <= i < |d.elements| :: ElementValue(d.elements[i], FormValueAt(response, i)).Success?
    ensures p.result.Failure? ==> p.result.error == TypeError
    ensures p.result.Success? ==> p.result.value.values.Keys == set i | 0 <= i < |d.elements| :: d.elements[i].name
    ensures p.result.Success? ==>
              forall i | 0 <= i < |d.elements| && LastWithName(ElementNames(d.elements), i) ::
                p.result.value.values[d.elements[i].name] == ElementValue(d.elements[i], FormValueAt(response, i)).value
  {
    var fvs := FormValuesFor(response, |d.elements|);
    match Entries(d.elements, fvs)
    case Failure(e) => Processed(Failure(e), [])
    case Success(entries) =>
      assert forall i | 0 <= i < |d.elements| :: entries[i].name == d.elements[i].name;
      assert EntryNames(entries) == ElementNames(d.elements);
      Processed(Success(InputResponse(Assign(entries))), [])
  }

  /** `processResponse` without callbacks, as `open` receives it. */
  function Process(d: Dialogue): FormResponse -> Processed<InputResponse> {
    r => ProcessResponse(d, r)
  }

  /** Without form values, every element yields its default value. */
  lemma AbsentValuesAreDefaults(d: Dialogue, response: FormResponse)
    requires response.formValues.None?
    ensures var p := ProcessResponse(d, response);
            && (p.result.Success? <==> forall i | 0 <= i < |d.elements| :: DefaultValue(d.elements[i]).Success?)
            && (p.result.Success? ==>
                  forall i | 0 <= i < |d.elements| && LastWithName(ElementNames(d.elements), i) ::
                    p.result.value.values[d.elements[i].name] == DefaultValue(d.elements[i]).value)
  {
    assert forall i: nat :: FormValueAt(response, i) == None;
  }

  /**
   * A dropdown with three options and default index 1: without a form value it yields the
   * second option's value, with the form value 2 the third option's value.
   */
  lemma DropdownDefaultAndSelection(name: string, caption: DialogueString, title: DialogueString,
                                    a: DropdownOption, b: DropdownOption, c: DropdownOption)
    ensures var e := SetDefaultValueIndex(
                       AddOption(AddOption(AddOption(InputDropdown(name, caption), a.caption, a.value), b.caption, b.value),
                                 c.caption, c.value), 1);
            var d := AddElement(New(title), e);
            && ProcessResponse(d, FormResponse(false, None, None, None)).result == Success(InputResponse(map[name := b.value]))
            && ProcessResponse(d, FormResponse(false, None, None, Some([Some(Num(2))]))).result
               == Success(InputResponse(map[name := c.value]))
  {
    var e := SetDefaultValueIndex(
               AddOption(AddOption(AddOption(InputDropdown(name, caption), a.caption, a.value), b.caption, b.value),
                         c.caption, c.value), 1);
    assert e.options == [a, b, c];
    var d := AddElement(New(title), e);
    assert d.elements == [e];
    assert LastWithName(ElementNames(d.elements), 0);
  }

  /** `open` on an input dialogue. */
  method Open(d: Dialogue, options: ShowDialogueOptions, host: Host)
    returns (outcome: OpenOutcome<InputResponse>, trace: seq<Event>, attempt: DialogueResponse<InputResponse>)
    ensures Opened(ResolveShowDialogueOptions(options), GetShowable(d), Process(d), host, outcome, trace, attempt)
  {
    outcome, trace, attempt := ScriptDialogue.Open(options, GetShowable(d), Process(d), host);
  }

  /**
   * Without elements, `open` displays nothing and settles on a rejected response without reason
   * whose error is `MissingElementsError`.
   */
  lemma NoElementsIsRejected(d: Dialogue, o: ResolvedOptions, host: Host, outcome: OpenOutcome<InputResponse>,
                             trace: seq<Event>, attempt: DialogueResponse<InputResponse>)
    requires Opened(o, GetShowable(d), Process(d), host, outcome, trace, attempt)
    requires d.elements == [] && !LockFailed(o, host)
    ensures CountShows(trace) == 0 && Invocations(trace) == []
    ensures attempt == DialogueRejectedResponse(None, MissingElementsError)
    ensures UnlockRun(o, host).error.None? ==> outcome == Resolved(attempt)
  {
  }
}
