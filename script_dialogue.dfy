/**
 * The base of every script dialogue (`ScriptDialogue.ts`): the options of `open`, the unified
 * responses, the busy-retry loop `show` and the orchestration `open`, which brackets the display
 * in a camera lock and turns every failure into a rejected response.
 *
 * The host (the form's `show`, `player.isValid()`, `player.runCommand` and the buttons' callbacks)
 * is an oracle: a `Host` value says what each call returns or throws. Side effects are recorded
 * in an event trace.
 */
module ScriptDialogue {
  import opened Wrappers
  import Utils

  // ---------------------------------------------------------------------------------------------
  // Displayed text

  /** Displayed text: a plain string or a RawMessage used for translations. */
  datatype DialogueString = Literal(text: string) | Raw(message: Utils.RawMessage)

  /** JavaScript truthiness of an optional text: `undefined` and `''` are falsy, any object is truthy. */
  predicate IsTruthy(s: Option<DialogueString>) {
    s.Some? && (s.value.Raw? || s.value.text != "")
  }

  /** What a form receives for an optional body: the body when it is truthy, otherwise nothing. */
  function ShownBody(body: Option<DialogueString>): (r: Option<DialogueString>)
    ensures r.Some? <==> IsTruthy(body)
    ensures r.Some? ==> r == body
  {
    if IsTruthy(body) then body else None
  }

  // ---------------------------------------------------------------------------------------------
  // Options

  /** The player a dialogue is shown to; only the name enters the lock commands. */
  datatype Player = Player(name: string)

  /**
   * A field of the options object a caller passes: left out, present with the value `undefined`,
   * or present with a value.
   */
  datatype Field<T> = Omitted | Undefined | Given(value: T)

  /** `ShowDialogueOptions`: the player and three optional fields. */
  datatype ShowDialogueOptions = ShowDialogueOptions(
    player: Player,
    lockPlayerCamera: Field<bool>,
    busyRetriesCount: Field<int>,
    busyRetriesTick: Field<int>)

  /** `ResolvedShowDialogueOptions`; `None` is a field that holds `undefined`. */
  datatype ResolvedOptions = ResolvedOptions(
    player: Player,
    lockPlayerCamera: Option<bool>,
    busyRetriesCount: Option<int>,
    busyRetriesTick: Option<int>)

  const DefaultLockPlayerCamera: bool := true
  const DefaultBusyRetriesCount: int := 5
  const DefaultBusyRetriesTick: int := 5

  /** One field of `{...defaults, ...options}`: a field present in `options` wins, even as `undefined`. */
  function Spread<T>(default: T, f: Field<T>): Option<T> {
    match f
    case Omitted => Some(default)
    case Undefined => None
    case Given(v) => Some(v)
  }

  /** `resolveShowDialogueOptions`: the caller's options spread over the frozen defaults. */
  function ResolveShowDialogueOptions(options: ShowDialogueOptions): (r: ResolvedOptions)
    ensures r.player == options.player
    ensures options.lockPlayerCamera.Omitted? ==> r.lockPlayerCamera == Some(true)
    ensures options.busyRetriesCount.Omitted? ==> r.busyRetriesCount == Some(5)
    ensures options.busyRetriesTick.Omitted? ==> r.busyRetriesTick == Some(5)
    ensures options.lockPlayerCamera.Given? ==> r.lockPlayerCamera == Some(options.lockPlayerCamera.value)
    ensures options.busyRetriesCount.Given? ==> r.busyRetriesCount == Some(options.busyRetriesCount.value)
    ensures options.busyRetriesTick.Given? ==> r.busyRetriesTick == Some(options.busyRetriesTick.value)
    ensures options.lockPlayerCamera.Undefined? ==> r.lockPlayerCamera == None
    ensures options.busyRetriesCount.Undefined? ==> r.busyRetriesCount == None
    ensures options.busyRetriesTick.Undefined? ==> r.busyRetriesTick == None
  {
    ResolvedOptions(
      options.player,
      Spread(DefaultLockPlayerCamera, options.lockPlayerCamera),
      Spread(DefaultBusyRetriesCount, options.busyRetriesCount),
      Spread(DefaultBusyRetriesTick, options.busyRetriesTick))
  }

  /** The options object whose fields are exactly those of a resolved one. */
  function AsGiven<T>(o: Option<T>): Field<T> {
    match o
    case Some(v) => Given(v)
    case None => Undefined
  }

  /** Resolving again the options that resolution produced changes nothing. */
  lemma ResolveIsIdempotent(options: ShowDialogueOptions)
    ensures var r := ResolveShowDialogueOptions(options);
            ResolveShowDialogueOptions(ShowDialogueOptions(
              r.player, AsGiven(r.lockPlayerCamera), AsGiven(r.busyRetriesCount), AsGiven(r.busyRetriesTick))) == r
  {
  }

  /** The camera is locked only when the resolved flag is truthy (`true`, not `undefined`). */
  predicate Locks(o: ResolvedOptions) {
    o.lockPlayerCamera == Some(true)
  }

  /** `i < options.busyRetriesCount`; a comparison with `undefined` is false. */
  predicate BudgetLeft(count: Option<int>, i: nat) {
    count.Some? && i < count.value
  }

  /** The number of retries the budget allows. */
  function Budget(count: Option<int>): (b: nat)
    ensures forall i: nat :: BudgetLeft(count, i) <==> i < b
  {
    if count.Some? && count.value > 0 then count.value else 0
  }

  // ---------------------------------------------------------------------------------------------
  // Raw form responses, errors and dialogue responses

  /** `FormCancelationReason`. */
  datatype CancelationReason = UserBusy | UserClosed

  /** `FormRejectReason`. */
  datatype RejectReason = MalformedResponse | PlayerQuit | ServerShutdown

  /** A value a modal form returns for one of its controls. */
  datatype InputValue = Str(s: string) | Num(n: int) | Bool(b: bool)

  /** The raw response of any of the three forms (`FormResponse` and its subtypes). */
  datatype FormResponse = FormResponse(
    canceled: bool,
    cancelationReason: Option<CancelationReason>,
    selection: Option<int>,
    formValues: Option<seq<Option<InputValue>>>)

  /** The errors that can be thrown during `open`. */
  datatype Error =
    | FormRejectError(reason: RejectReason)  // thrown by the host's form `show`
    | MissingButtonsException                 // thrown by a multi button `getShowable`
    | MissingElementsError                    // thrown by an input `getShowable`
    | TypeError                               // a property read on `undefined`
    | HostError(id: nat)                      // any other error, from the host or a callback

  /** The result user callbacks resolve to; `None` is `undefined`. */
  type CallbackValue = int

  /** Identifies a user callback attached to a button. */
  type CallbackId = nat

  /** The unified response of `open`. */
  datatype DialogueResponse<T> =
    | DialogueCanceledResponse(reason: Option<CancelationReason>)
    | DialogueRejectedResponse(rejectReason: Option<RejectReason>, exception: Error)
    | Succeeded(value: T)  // the variant's own response

  /** `ButtonDialogueResponse`: the selected button's name and what its callback resolved to. */
  datatype ButtonDialogueResponse = ButtonDialogueResponse(selected: string, callback: Option<CallbackValue>)

  /**
   * Pressing a button in a variant's `processResponse`: the button's callback, when it has one,
   * is awaited once with the button's name, and what it resolves to (or throws) decides the
   * result; without a callback the response carries `undefined`.
   */
  function PressButton(name: string, callback: Option<CallbackId>,
                       call: (CallbackId, string) -> Result<Option<CallbackValue>, Error>): (p: Processed<ButtonDialogueResponse>)
    ensures callback.None? ==> p == Processed(Success(ButtonDialogueResponse(name, None)), [])
    ensures callback.Some? ==> p.invocations == [Invocation(callback.value, name)]
    ensures callback.Some? && call(callback.value, name).Success? ==>
              p.result == Success(ButtonDialogueResponse(name, call(callback.value, name).value))
    ensures callback.Some? && call(callback.value, name).Failure? ==>
              p.result == Failure(call(callback.value, name).error)
  {
    match callback
    case None => Processed(Success(ButtonDialogueResponse(name, None)), [])
    case Some(id) =>
      var r := call(id, name);
      Processed(if r.Success? then Success(ButtonDialogueResponse(name, r.value)) else Failure(r.error),
                [Invocation(id, name)])
  }

  /** The `catch` of `open`: a `FormRejectError` keeps its reason, any other error has none. */
  function Rejected<T>(e: Error): (r: DialogueResponse<T>)
    ensures r.DialogueRejectedResponse? && r.exception == e
    ensures r.rejectReason.Some? <==> e.FormRejectError?
    ensures e.FormRejectError? ==> r.rejectReason == Some(e.reason)
  {
    if e.FormRejectError? then DialogueRejectedResponse(Some(e.reason), e)
    else DialogueRejectedResponse(None, e)
  }

  // ---------------------------------------------------------------------------------------------
  // Host and trace

  datatype Permission = Camera | Movement

  /** `inputpermission set "<player>" <permission> <enabled|disabled>`. */
  datatype Command = InputPermission(player: string, permission: Permission, enabled: bool)

  /** One call of a button callback, with the name it was given. */
  datatype Invocation = Invocation(callback: CallbackId, selected: string)

  /** The observable effects of `open`, in order. */
  datatype Event =
    | RunCommand(command: Command)
    | ShowForm
    | Wait(ticks: Option<int>)
    | Invoke(invocation: Invocation)

  /**
   * The host as an oracle: what the k-th call of the form's `show` yields, what `isValid()`
   * returns after the k-th wait, whether a command throws, and what a callback yields.
   */
  datatype Host = Host(
    show: nat -> Result<FormResponse, Error>,
    isValid: nat -> bool,
    runCommand: Command -> Option<Error>,
    callback: (CallbackId, string) -> Result<Option<CallbackValue>, Error>)

  /** What a variant's `processResponse` produces, with the callbacks it invoked. */
  datatype Processed<T> = Processed(result: Result<T, Error>, invocations: seq<Invocation>)

  /** The commands in a trace, in order. */
  ghost function Commands(t: seq<Event>): seq<Command> {
    if t == [] then []
    else Commands(t[..|t| - 1]) + (if t[|t| - 1].RunCommand? then [t[|t| - 1].command] else [])
  }

  /** The callback invocations in a trace, in order. */
  ghost function Invocations(t: seq<Event>): seq<Invocation> {
    if t == [] then []
    else Invocations(t[..|t| - 1]) + (if t[|t| - 1].Invoke? then [t[|t| - 1].invocation] else [])
  }

  /** The number of form displays in a trace. */
  ghost function CountShows(t: seq<Event>): nat {
    if t == [] then 0 else CountShows(t[..|t| - 1]) + (if t[|t| - 1].ShowForm? then 1 else 0)
  }

  /** The number of waits in a trace. */
  ghost function CountWaits(t: seq<Event>): nat {
    if t == [] then 0 else CountWaits(t[..|t| - 1]) + (if t[|t| - 1].Wait? then 1 else 0)
  }

  /** The four views of a trace distribute over concatenation. */
  lemma {:induction false} TraceAppend(a: seq<Event>, b: seq<Event>)
    ensures Commands(a + b) == Commands(a) + Commands(b)
    ensures Invocations(a + b) == Invocations(a) + Invocations(b)
    ensures CountShows(a + b) == CountShows(a) + CountShows(b)
    ensures CountWaits(a + b) == CountWaits(a) + CountWaits(b)
    decreases |b|
  {
    if b == [] {
      assert a + b == a;
    } else {
      var b' := b[..|b| - 1];
      TraceAppend(a, b');
      assert (a + b)[..|a + b| - 1] == a + b';
      assert (a + b)[|a + b| - 1] == b[|b| - 1];
    }
  }

  /** The trace of running some commands. */
  function Runs(cs: seq<Command>): (t: seq<Event>)
    ensures |t| == |cs|
    ensures forall i | 0 <= i < |cs| :: t[i] == RunCommand(cs[i])
  {
    if cs == [] then [] else Runs(cs[..|cs| - 1]) + [RunCommand(cs[|cs| - 1])]
  }

  /** The trace of some callback invocations. */
  function Invokes(calls: seq<Invocation>): (t: seq<Event>)
    ensures |t| == |calls|
    ensures forall i | 0 <= i < |calls| :: t[i] == Invoke(calls[i])
  {
    if calls == [] then [] else Invokes(calls[..|calls| - 1]) + [Invoke(calls[|calls| - 1])]
  }

  lemma {:induction false} RunsViews(cs: seq<Command>)
    ensures Commands(Runs(cs)) == cs && Invocations(Runs(cs)) == []
    ensures CountShows(Runs(cs)) == 0 && CountWaits(Runs(cs)) == 0
    decreases |cs|
  {
    if cs != [] {
      var t := Runs(cs);
      RunsViews(cs[..|cs| - 1]);
      assert t[..|t| - 1] == Runs(cs[..|cs| - 1]);
      assert cs[..|cs| - 1] + [cs[|cs| - 1]] == cs;
    }
  }

  lemma {:induction false} InvokesViews(calls: seq<Invocation>)
    ensures Invocations(Invokes(calls)) == calls && Commands(Invokes(calls)) == []
    ensures CountShows(Invokes(calls)) == 0 && CountWaits(Invokes(calls)) == 0
    decreases |calls|
  {
    if calls != [] {
      var t := Invokes(calls);
      InvokesViews(calls[..|calls| - 1]);
      assert t[..|t| - 1] == Invokes(calls[..|calls| - 1]);
      assert calls[..|calls| - 1] + [calls[|calls| - 1]] == calls;
    }
  }

  /** Running two commands in sequence: the second runs only if the first did not throw. */
  datatype CommandRun = CommandRun(ran: seq<Command>, error: Option<Error>)

  function RunPair(host: Host, first: Command, second: Command): (r: CommandRun)
    ensures r.ran == (if host.runCommand(first).Some? then [first] else [first, second])
    ensures r.error == (if host.runCommand(first).Some? then host.runCommand(first) else host.runCommand(second))
  {
    match host.runCommand(first)
    case Some(e) => CommandRun([first], Some(e))
    case None => CommandRun([first, second], host.runCommand(second))
  }

  /**
   * The `lockPlayerCamera` step of `open`: with the flag set, camera disabled and then
   * movement disabled; without it, nothing.
   */
  function LockRun(o: ResolvedOptions, host: Host): (r: CommandRun)
    ensures !Locks(o) ==> r == CommandRun([], None)
    ensures Locks(o) ==> 1 <= |r.ran| <= 2 && r.ran[0] == InputPermission(o.player.name, Camera, false)
    ensures Locks(o) && |r.ran| == 2 ==> r.ran[1] == InputPermission(o.player.name, Movement, false)
    ensures var c, m := InputPermission(o.player.name, Camera, false), InputPermission(o.player.name, Movement, false);
            Locks(o) ==> && (|r.ran| == 2 <==> host.runCommand(c).None?)
                         && r.error == (if host.runCommand(c).Some? then host.runCommand(c) else host.runCommand(m))
  {
    if Locks(o) then RunPair(host, InputPermission(o.player.name, Camera, false), InputPermission(o.player.name, Movement, false))
    else CommandRun([], None)
  }

  /**
   * The `unlockPlayerCamera` step in the `finally` of `open`: with the flag set, camera enabled
   * and then movement enabled; without it, nothing.
   */
  function UnlockRun(o: ResolvedOptions, host: Host): (r: CommandRun)
    ensures !Locks(o) ==> r == CommandRun([], None)
    ensures Locks(o) ==> 1 <= |r.ran| <= 2 && r.ran[0] == InputPermission(o.player.name, Camera, true)
    ensures Locks(o) && |r.ran| == 2 ==> r.ran[1] == InputPermission(o.player.name, Movement, true)
    ensures var c, m := InputPermission(o.player.name, Camera, true), InputPermission(o.player.name, Movement, true);
            Locks(o) ==> && (|r.ran| == 2 <==> host.runCommand(c).None?)
                         && r.error == (if host.runCommand(c).Some? then host.runCommand(c) else host.runCommand(m))
  {
    if Locks(o) then RunPair(host, InputPermission(o.player.name, Camera, true), InputPermission(o.player.name, Movement, true))
    else CommandRun([], None)
  }

  /** The lock was attempted and threw. */
  predicate LockFailed(o: ResolvedOptions, host: Host) {
    LockRun(o, host).error.Some?
  }

  /** The outcome of `open`: a resolved promise, or a rejected one (an error from a lock command). */
  datatype OpenOutcome<T> = Resolved(response: DialogueResponse<T>) | Raised(error: Error)

  /**
   * The `finally` of `open`: an unlock that throws replaces the outcome, and a lock that threw
   * propagates; otherwise the inner response is returned.
   */
  function Finish<T>(o: ResolvedOptions, host: Host, response: DialogueResponse<T>): (r: OpenOutcome<T>)
    ensures !Locks(o) ==> r == Resolved(response)
    ensures r.Raised? <==> LockRun(o, host).error.Some? || UnlockRun(o, host).error.Some?
    ensures LockRun(o, host).error.None? && UnlockRun(o, host).error.None? ==> r == Resolved(response)
    ensures UnlockRun(o, host).error.Some? ==> r == Raised(UnlockRun(o, host).error.value)
    ensures UnlockRun(o, host).error.None? && LockRun(o, host).error.Some? ==> r == Raised(LockRun(o, host).error.value)
  {
    if UnlockRun(o, host).error.Some? then Raised(UnlockRun(o, host).error.value)
    else if LockRun(o, host).error.Some? then Raised(LockRun(o, host).error.value)
    else Resolved(response)
  }

  /** The views of a trace made of commands around a middle part without commands. */
  lemma Bracket(l: seq<Command>, m: seq<Event>, u: seq<Command>, ticks: Option<int>)
    requires Commands(m) == [] && WaitsLast(m, ticks)
    ensures var t := Runs(l) + m + Runs(u);
            && Commands(t) == l + u
            && CountShows(t) == CountShows(m) && CountWaits(t) == CountWaits(m)
            && Invocations(t) == Invocations(m)
            && |l| + |u| <= |t| && t[..|l|] == Runs(l) && t[|t| - |u|..] == Runs(u)
            && WaitsLast(t, ticks)
  {
    BracketCounts(l, m, u);
    BracketSlices(Runs(l), m, Runs(u), ticks);
  }

  lemma BracketCounts(l: seq<Command>, m: seq<Event>, u: seq<Command>)
    requires Commands(m) == []
    ensures var t := Runs(l) + m + Runs(u);
            && Commands(t) == l + u
            && CountShows(t) == CountShows(m) && CountWaits(t) == CountWaits(m)
            && Invocations(t) == Invocations(m)
  {
    var rl, ru := Runs(l), Runs(u);
    var t := rl + m + ru;
    BracketViews(rl, m, ru);
    RunsViews(l);
    RunsViews(u);
    assert Commands(t) == l + [] + u;
    assert l + [] + u == l + u;
    assert Invocations(t) == [] + Invocations(m) + [];
    assert [] + Invocations(m) + [] == Invocations(m);
  }

  lemma BracketViews(a: seq<Event>, m: seq<Event>, c: seq<Event>)
    ensures Commands(a + m + c) == Commands(a) + Commands(m) + Commands(c)
    ensures CountShows(a + m + c) == CountShows(a) + CountShows(m) + CountShows(c)
    ensures CountWaits(a + m + c) == CountWaits(a) + CountWaits(m) + CountWaits(c)
    ensures Invocations(a + m + c) == Invocations(a) + Invocations(m) + Invocations(c)
  {
    TraceAppend(a, m);
    TraceAppend(a + m, c);
  }

  lemma BracketSlices(a: seq<Event>, m: seq<Event>, c: seq<Event>, ticks: Option<int>)
    requires forall j | 0 <= j < |a| :: !a[j].Wait?
    requires forall j | 0 <= j < |c| :: !c[j].Wait?
    requires WaitsLast(m, ticks)
    ensures var t := a + m + c;
            && t[..|a|] == a && t[|t| - |c|..] == c && WaitsLast(t, ticks)
  {
    var t := a + m + c;
    assert t[..|a|] == a;
    assert t[|t| - |c|..] == c;
    forall j | 0 <= j < |t| && t[j].Wait?
      ensures t[j].ticks == ticks
    {
      if |a| <= j < |a| + |m| {
        assert t[j] == m[j - |a|];
      }
    }
  }

  // ---------------------------------------------------------------------------------------------
  // The busy-retry loop

  /** A response canceled because the player was busy. */
  predicate BusyCanceled(r: Result<FormResponse, Error>) {
    r.Success? && r.value.canceled && r.value.cancelationReason == Some(UserBusy)
  }

  /** After the k-th display, `show` waits (busy and budget left). */
  predicate Waits(host: Host, o: ResolvedOptions, k: nat) {
    BusyCanceled(host.show(k)) && BudgetLeft(o.busyRetriesCount, k)
  }

  /** After the k-th display, `show` waits and then displays again (the player is still valid). */
  predicate Retries(host: Host, o: ResolvedOptions, k: nat) {
    Waits(host, o, k) && host.isValid(k)
  }

  /** `k` rounds of a display followed by a wait. */
  function Rounds(k: nat, ticks: Option<int>): seq<Event> {
    if k == 0 then [] else Rounds(k - 1, ticks) + [ShowForm, Wait(ticks)]
  }

  /** Every wait in a trace lasts `ticks`. */
  ghost predicate WaitsLast(t: seq<Event>, ticks: Option<int>) {
    forall j | 0 <= j < |t| && t[j].Wait? :: t[j].ticks == ticks
  }

  lemma {:induction false} RoundsViews(k: nat, ticks: Option<int>)
    ensures var t := Rounds(k, ticks);
            && CountShows(t) == k && CountWaits(t) == k
            && Commands(t) == [] && Invocations(t) == [] && WaitsLast(t, ticks)
  {
    if k > 0 {
      var pair := [ShowForm, Wait(ticks)];
      RoundsViews(k - 1, ticks);
      TraceAppend(Rounds(k - 1, ticks), pair);
      assert pair[..1] == [ShowForm] && [ShowForm][..0] == [];
      assert CountShows(pair) == 1 && CountWaits(pair) == 1;
      assert Commands(pair) == [] && Invocations(pair) == [];
    }
  }

  /** The displays and waits of one run of the retry loop ending with display `last`. */
  function ShowTrace(host: Host, o: ResolvedOptions, last: nat): seq<Event> {
    Rounds(last, o.busyRetriesTick) + [ShowForm] + (if Waits(host, o, last) then [Wait(o.busyRetriesTick)] else [])
  }

  /**
   * The retry loop took `n` displays and `waits` waits: it displayed again exactly while
   * `Retries` held, within the budget, and waited once per retry taken.
   */
  ghost predicate RetriedAsAllowed(host: Host, o: ResolvedOptions, n: nat, waits: nat) {
    && 1 <= n <= Budget(o.busyRetriesCount) + 1
    && (forall k | 0 <= k < n - 1 :: Retries(host, o, k))
    && !Retries(host, o, n - 1)
    && waits == (if Waits(host, o, n - 1) then n else n - 1)
  }

  lemma ShowTraceViews(host: Host, o: ResolvedOptions, last: nat)
    ensures var t := ShowTrace(host, o, last);
            && CountShows(t) == last + 1
            && CountWaits(t) == (if Waits(host, o, last) then last + 1 else last)
            && Commands(t) == [] && Invocations(t) == [] && WaitsLast(t, o.busyRetriesTick)
  {
    var tail := [ShowForm] + (if Waits(host, o, last) then [Wait(o.busyRetriesTick)] else []);
    RoundsViews(last, o.busyRetriesTick);
    TraceAppend(Rounds(last, o.busyRetriesTick), tail);
    assert tail[..1] == [ShowForm];
    assert Rounds(last, o.busyRetriesTick) + [ShowForm] + (if Waits(host, o, last) then [Wait(o.busyRetriesTick)] else [])
        == Rounds(last, o.busyRetriesTick) + tail;
  }

  /**
   * `show`: display the form, and display it again after a wait of `busyRetriesTick` ticks
   * while the player is busy, the budget is not spent and the player is still valid.
   * `last` is the index of the final display, whose outcome is returned as it is.
   */
  method Show(host: Host, o: ResolvedOptions) returns (response: Result<FormResponse, Error>, last: nat, trace: seq<Event>)
    ensures last <= Budget(o.busyRetriesCount)
    ensures forall k | 0 <= k < last :: Retries(host, o, k)
    ensures !Retries(host, o, last)
    ensures response == host.show(last)
    ensures trace == ShowTrace(host, o, last)
  {
    var i: nat := 0;
    trace := [];
    while true
      invariant i <= Budget(o.busyRetriesCount)
      invariant forall k | 0 <= k < i :: Retries(host, o, k)
      invariant trace == Rounds(i, o.busyRetriesTick)
      decreases Budget(o.busyRetriesCount) - i
    {
      var r := host.show(i);
      trace := trace + [ShowForm];
      if r.Success? && r.value.canceled && r.value.cancelationReason == Some(UserBusy) {
        if o.busyRetriesCount.Some? && i < o.busyRetriesCount.value {
          trace := trace + [Wait(o.busyRetriesTick)];
          var valid := host.isValid(i);
          if valid {
            i := i + 1;
            continue;
          }
          return r, i, trace;
        }
      }
      return r, i, trace;
    }
  }

  // ---------------------------------------------------------------------------------------------
  // open

  /** How the final display decides the response, and which callbacks are invoked for it. */
  ghost predicate Concludes<T>(final: Result<FormResponse, Error>, process: FormResponse -> Processed<T>,
                               response: DialogueResponse<T>, invoked: seq<Invocation>) {
    && (final.Failure? ==> invoked == [] && response == Rejected(final.error))
    && (final.Success? && final.value.canceled ==>
          invoked == [] && response == DialogueCanceledResponse(final.value.cancelationReason))
    && (final.Success? && !final.value.canceled ==>
          && invoked == process(final.value).invocations
          && response == (var p := process(final.value);
                          if p.result.Success? then Succeeded(p.result.value) else Rejected(p.result.error)))
  }

  /**
   * The inner `try` of `open`, read off a trace: a `getShowable` that threw is rejected with
   * nothing shown; otherwise the retry loop ran as allowed, its final display decides, and the
   * trace is the displays and waits of the loop followed by the callbacks that response invoked.
   */
  ghost predicate Attempted<T, F>(o: ResolvedOptions, showable: Result<F, Error>, process: FormResponse -> Processed<T>,
                                  host: Host, response: DialogueResponse<T>, t: seq<Event>) {
    && (showable.Failure? ==> t == [] && response == Rejected(showable.error))
    && (showable.Success? ==>
          && RetriedAsAllowed(host, o, CountShows(t), CountWaits(t))
          && Concludes(host.show(CountShows(t) - 1), process, response, Invocations(t))
          && t == ShowTrace(host, o, CountShows(t) - 1) + Invokes(Invocations(t)))
  }

  /** The inner `try` of `open`: `getShowable`, `show`, then the cancel check or `processResponse`. */
  method Attempt<T, F>(o: ResolvedOptions, showable: Result<F, Error>, process: FormResponse -> Processed<T>, host: Host)
    returns (response: DialogueResponse<T>, trace: seq<Event>)
    ensures Attempted(o, showable, process, host, response, trace)
    ensures Commands(trace) == [] && WaitsLast(trace, o.busyRetriesTick)
  {
    if showable.Failure? {
      return Rejected(showable.error), [];
    }
    var final, last, shown := Show(host, o);
    var invoked: seq<Invocation> := [];
    if final.Failure? {
      response := Rejected(final.error);
    } else if final.value.canceled {
      response := DialogueCanceledResponse(final.value.cancelationReason);
    } else {
      var p := process(final.value);
      invoked := p.invocations;
      response := if p.result.Success? then Succeeded(p.result.value) else Rejected(p.result.error);
    }
    trace := shown + Invokes(invoked);
    AttemptedFromParts(o, showable, process, host, last, response, invoked);
  }

  /** A run of the retry loop ending with display `last`, followed by the callbacks it led to. */
  lemma AttemptedFromParts<T, F>(o: ResolvedOptions, showable: Result<F, Error>, process: FormResponse -> Processed<T>,
                                 host: Host, last: nat, response: DialogueResponse<T>, invoked: seq<Invocation>)
    requires showable.Success?
    requires last <= Budget(o.busyRetriesCount) && !Retries(host, o, last)
    requires forall k | 0 <= k < last :: Retries(host, o, k)
    requires Concludes(host.show(last), process, response, invoked)
    ensures var t := ShowTrace(host, o, last) + Invokes(invoked);
            && Attempted(o, showable, process, host, response, t)
            && Commands(t) == [] && WaitsLast(t, o.busyRetriesTick)
  {
    var shown := ShowTrace(host, o, last);
    var t := shown + Invokes(invoked);
    ShowTraceViews(host, o, last);
    InvokesViews(invoked);
    TraceAppend(shown, Invokes(invoked));
    assert CountShows(t) == last + 1 && Invocations(t) == invoked;
    assert RetriedAsAllowed(host, o, CountShows(t), CountWaits(t));
    WaitsLastBeforeInvokes(shown, invoked, o.busyRetriesTick);
  }

  /** Callback invocations add no wait to a trace. */
  lemma WaitsLastBeforeInvokes(a: seq<Event>, invoked: seq<Invocation>, ticks: Option<int>)
    requires WaitsLast(a, ticks)
    ensures WaitsLast(a + Invokes(invoked), ticks)
  {
    var t := a + Invokes(invoked);
    forall j | 0 <= j < |t| && t[j].Wait?
      ensures t[j].ticks == ticks
    {
      if j < |a| {
        assert t[j] == a[j];
      }
    }
  }

  /** The events of a trace of `open` between its lock commands and its unlock commands. */
  function InnerTrace(o: ResolvedOptions, host: Host, trace: seq<Event>): seq<Event>
    requires |LockRun(o, host).ran| + |UnlockRun(o, host).ran| <= |trace|
  {
    trace[|LockRun(o, host).ran|..|trace| - |UnlockRun(o, host).ran|]
  }

  /**
   * What one call of `open` did, read off its outcome and trace; `attempt` is what the inner
   * `try` produced. The trace is the lock commands, the inner `try` and the unlock commands,
   * issued in pairs under the same flag; a lock that throws is not caught, so the inner `try`
   * does nothing and `open` throws once the unlock has run.
   */
  ghost predicate Opened<T, F>(o: ResolvedOptions, showable: Result<F, Error>, process: FormResponse -> Processed<T>,
                               host: Host, outcome: OpenOutcome<T>, trace: seq<Event>, attempt: DialogueResponse<T>) {
    var lock, unlock := LockRun(o, host).ran, UnlockRun(o, host).ran;
    && |lock| + |unlock| <= |trace|
    && (var inner := InnerTrace(o, host, trace);
        && trace == Runs(lock) + inner + Runs(unlock)
        && Commands(trace) == lock + unlock
        && CountShows(trace) == CountShows(inner) && CountWaits(trace) == CountWaits(inner)
        && Invocations(trace) == Invocations(inner)
        && outcome == Finish(o, host, attempt)
        && (LockFailed(o, host) ==> inner == [] && outcome.Raised?)
        && (!LockFailed(o, host) ==> Attempted(o, showable, process, host, attempt, inner))
        && WaitsLast(trace, o.busyRetriesTick))
  }

  /**
   * `open`, written once for all variants: `showable` is what the variant's `getShowable`
   * produced (or threw), `process` its `processResponse`. It resolves the options, locks the
   * camera if asked, runs the inner `try` and unlocks in the `finally`. When the lock throws,
   * the inner `try` is not entered and `attempt` is a placeholder that `Opened` leaves free.
   */
  method Open<T, F>(options: ShowDialogueOptions, showable: Result<F, Error>,
                    process: FormResponse -> Processed<T>, host: Host)
    returns (outcome: OpenOutcome<T>, trace: seq<Event>, attempt: DialogueResponse<T>)
    ensures Opened(ResolveShowDialogueOptions(options), showable, process, host, outcome, trace, attempt)
  {
    var o := ResolveShowDialogueOptions(options);
    var lockRun := LockRun(o, host);

    // The inner `try`, entered only when the lock did not throw.
    var middle: seq<Event> := [];
    var response: DialogueResponse<T> := DialogueCanceledResponse(None);
    if lockRun.error.None? {
      response, middle := Attempt(o, showable, process, host);
    }
    attempt := response;

    // The `finally`.
    var unlockRun := UnlockRun(o, host);
    outcome := if unlockRun.error.Some? then Raised(unlockRun.error.value)
               else if lockRun.error.Some? then Raised(lockRun.error.value)
               else Resolved(response);
    trace := Runs(lockRun.ran) + middle + Runs(unlockRun.ran);
    OpenedFromParts(o, showable, process, host, response, middle);
  }

  /** The trace of `open` is the lock, the inner `try` and the unlock, in that order. */
  lemma OpenedFromParts<T, F>(o: ResolvedOptions, showable: Result<F, Error>, process: FormResponse -> Processed<T>,
                              host: Host, response: DialogueResponse<T>, middle: seq<Event>)
    requires Commands(middle) == [] && WaitsLast(middle, o.busyRetriesTick)
    requires LockFailed(o, host) ==> middle == []
    requires !LockFailed(o, host) ==> Attempted(o, showable, process, host, response, middle)
    ensures Opened(o, showable, process, host, Finish(o, host, response),
                   Runs(LockRun(o, host).ran) + middle + Runs(UnlockRun(o, host).ran), response)
  {
    var l, u := LockRun(o, host).ran, UnlockRun(o, host).ran;
    var trace := Runs(l) + middle + Runs(u);
    Bracket(l, middle, u, o.busyRetriesTick);
    var inner := InnerTrace(o, host, trace);
    assert inner == middle;
    assert trace == Runs(l) + inner + Runs(u);
    assert LockFailed(o, host) ==> inner == [] && Finish(o, host, response).Raised?;
    assert !LockFailed(o, host) ==> Attempted(o, showable, process, host, response, inner);
  }

  // ---------------------------------------------------------------------------------------------
  // Consequences of `open`

  /** The occurrences of a command in a sequence of commands. */
  function Occurrences(cs: seq<Command>, c: Command): nat {
    multiset(cs)[c]
  }

  /**
   * With the camera lock on, `open` re-enables the camera exactly once and does it after the
   * lock, whatever the variant or the host does; with it off, no command runs at all.
   */
  lemma UnlockedExactlyOnce<T, F>(o: ResolvedOptions, showable: Result<F, Error>, process: FormResponse -> Processed<T>,
                                  host: Host, outcome: OpenOutcome<T>, trace: seq<Event>, attempt: DialogueResponse<T>)
    requires Opened(o, showable, process, host, outcome, trace, attempt)
    ensures Locks(o) ==> Occurrences(Commands(trace), InputPermission(o.player.name, Camera, true)) == 1
    ensures Locks(o) ==> Commands(trace)[0] == InputPermission(o.player.name, Camera, false)
    ensures !Locks(o) ==> Commands(trace) == []
  {
    assert Commands(trace) == LockRun(o, host).ran + UnlockRun(o, host).ran;
    PairedCommands(o, host);
  }

  /** The commands of the lock step followed by those of the unlock step. */
  lemma PairedCommands(o: ResolvedOptions, host: Host)
    ensures var cs := LockRun(o, host).ran + UnlockRun(o, host).ran;
            && (Locks(o) ==> Occurrences(cs, InputPermission(o.player.name, Camera, true)) == 1)
            && (Locks(o) ==> cs[0] == InputPermission(o.player.name, Camera, false))
            && (!Locks(o) ==> cs == [])
  {
    if Locks(o) {
      var lock, unlock := LockRun(o, host).ran, UnlockRun(o, host).ran;
      var enable := InputPermission(o.player.name, Camera, true);
      assert multiset(lock)[enable] == 0 by {
        if |lock| == 1 {
          assert lock == [lock[0]];
        } else {
          assert lock == [lock[0], lock[1]];
        }
      }
      assert multiset(unlock)[enable] == 1 by {
        if |unlock| == 1 {
          assert unlock == [enable];
        } else {
          assert unlock == [enable, InputPermission(o.player.name, Movement, true)];
        }
      }
      assert multiset(lock + unlock) == multiset(lock) + multiset(unlock);
    }
  }

  /**
   * A player busy on the first two displays who closes the third, with two retries allowed
   * and a player that stays valid: the form is displayed three times with two waits, and the
   * third response decides.
   */
  lemma BusyTwiceThenClosed<T, F>(o: ResolvedOptions, showable: Result<F, Error>, process: FormResponse -> Processed<T>,
                                  host: Host, outcome: OpenOutcome<T>, trace: seq<Event>, attempt: DialogueResponse<T>)
    requires Opened(o, showable, process, host, outcome, trace, attempt)
    requires o.busyRetriesCount == Some(2) && showable.Success? && !LockFailed(o, host)
    requires forall k: nat :: host.isValid(k)
    requires host.show(0) == host.show(1) == Success(FormResponse(true, Some(UserBusy), None, None))
    requires host.show(2) == Success(FormResponse(true, Some(UserClosed), None, None))
    ensures CountShows(trace) == 3 && CountWaits(trace) == 2 && Invocations(trace) == []
    ensures var w := Wait(o.busyRetriesTick);
            InnerTrace(o, host, trace) == [ShowForm, w, ShowForm, w, ShowForm]
    ensures attempt == DialogueCanceledResponse(Some(UserClosed))
  {
    BusyTwiceThenClosedInner(o, showable, process, host, attempt, InnerTrace(o, host, trace));
  }

  /** `BusyTwiceThenClosed` for the inner `try` alone. */
  lemma BusyTwiceThenClosedInner<T, F>(o: ResolvedOptions, showable: Result<F, Error>, process: FormResponse -> Processed<T>,
                                       host: Host, attempt: DialogueResponse<T>, inner: seq<Event>)
    requires Attempted(o, showable, process, host, attempt, inner)
    requires o.busyRetriesCount == Some(2) && showable.Success?
    requires forall k: nat :: host.isValid(k)
    requires host.show(0) == host.show(1) == Success(FormResponse(true, Some(UserBusy), None, None))
    requires host.show(2) == Success(FormResponse(true, Some(UserClosed), None, None))
    ensures CountShows(inner) == 3 && CountWaits(inner) == 2 && Invocations(inner) == []
    ensures var w := Wait(o.busyRetriesTick);
            inner == [ShowForm, w, ShowForm, w, ShowForm]
    ensures attempt == DialogueCanceledResponse(Some(UserClosed))
  {
    var n := CountShows(inner);
    assert Retries(host, o, 0) && Retries(host, o, 1);
    assert n != 1 && n != 2;
    var w := Wait(o.busyRetriesTick);
    assert !Waits(host, o, 2);
    assert Rounds(2, o.busyRetriesTick) == [ShowForm, w, ShowForm, w] by {
      assert Rounds(1, o.busyRetriesTick) == [ShowForm, w];
    }
    assert inner == ShowTrace(host, o, 2) + Invokes([]);
  }
}
