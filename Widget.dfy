/**
 * The widget object: its retry timer, its once-only validation gate and its
 * status log, driven by discovery passes, timer ticks and textbox events.
 *
 * The pure functions below say what each operation does to a `WidgetState`;
 * the methods of class `App` are proved to have exactly that effect on the
 * object's fields, and the lemmas state what the functions guarantee.
 */
module Widget {
  import opened Wrappers
  import opened Dom
  import opened Discovery
  import opened WidgetValues

  // ---------------------------------------------------------------------
  // Status log
  // ---------------------------------------------------------------------

  datatype Severity = Success | Error | Warning | Info

  /** The messages the widget reports, by kind (the wording is display only). */
  datatype Message =
    | IframeMissing
    | IframeFound
    | ParentInaccessible(reason: string)
    | SandboxHint
    | WillRetry
    | Retrying
    | RetryStopped
    | OrderRejected
    | FoundInput(tag: string, ident: string)
    | NoInputFound
    | FoundButton(tag: string, ident: string)
    | NoButtonFound
    | HandlerAttached

  /** One entry of the `status` container (its timestamp prefix is not modelled). */
  datatype StatusEntry = StatusEntry(severity: Severity, message: Message)

  function LowerChar(c: char): char {
    if 'A' <= c <= 'Z' then (c as int + 32) as char else c
  }

  /** `toLowerCase()` on the ASCII tag names the DOM reports. */
  function Lower(s: string): string {
    if |s| == 0 then "" else [LowerChar(s[0])] + Lower(s[1..])
  }

  /** `element.id || element.name || '(no id)'`: an empty string counts as absent. */
  function Label(e: Element): (r: string)
    ensures r != ""
    ensures r == e.id || r == e.name || r == "(no id)"
    ensures e.id != "" ==> r == e.id
    ensures e.id == "" && e.name != "" ==> r == e.name
  {
    if e.id != "" then e.id else if e.name != "" then e.name else "(no id)"
  }

  /** `toLowerCase` keeps the length and lowers each character on its own. */
  lemma {:induction false} LowerPointwise(s: string)
    ensures |Lower(s)| == |s|
    ensures forall i :: 0 <= i < |s| ==> Lower(s)[i] == LowerChar(s[i])
    ensures forall i :: 0 <= i < |s| ==> !('A' <= Lower(s)[i] <= 'Z')
  {
    if |s| > 0 {
      LowerPointwise(s[1..]);
      assert forall i :: 0 < i < |s| ==> Lower(s)[i] == Lower(s[1..])[i - 1];
    }
  }

  function FoundInputEntry(t: ElementRef): StatusEntry {
    StatusEntry(Success, FoundInput(Lower(t.element.tagName), Label(t.element)))
  }

  function FoundButtonEntry(b: ElementRef): StatusEntry {
    StatusEntry(Success, FoundButton(Lower(b.element.tagName), Label(b.element)))
  }

  // ---------------------------------------------------------------------
  // State
  // ---------------------------------------------------------------------

  type TimerId = nat

  /** The period of the retry interval, in milliseconds. */
  const RetryPeriodMs: nat := 1000

  datatype EventName = InputEvent | ChangeEvent

  /** An event listener attached to the host element at `target`. */
  datatype Listener = Listener(event: EventName, target: Path)

  /** The three properties the gate writes on the host's button. */
  datatype ButtonStyle = ButtonStyle(disabled: bool, opacity: string, cursor: string)

  /**
   * The widget's fixed inputs: the resolved configuration, the regular
   * expression engine's `test` (pattern, value), and whether the widget's own
   * document has a `status` element.
   */
  datatype Config = Config(values: Values, matches: (string, string) -> bool, hasStatusElement: bool)

  /**
   * Everything a pass, a tick or an event can change: the widget's fields,
   * the host-page state that the widget writes (button styles by element,
   * attached listeners, the bound textbox's live value) and the window's
   * table of live intervals (handle to period).
   */
  datatype WidgetState = WidgetState(
    status: seq<StatusEntry>,
    textboxElement: Option<ElementRef>,
    buttonElement: Option<ElementRef>,
    retryIntervalId: Option<TimerId>,
    isInitialized: bool,
    textboxValue: string,
    buttonStyles: map<Path, ButtonStyle>,
    listeners: seq<Listener>,
    liveTimers: map<TimerId, nat>,
    nextTimerId: TimerId)

  /** The state right after the fields are initialised, before the first pass. */
  function Initial(): WidgetState {
    WidgetState([], None, None, None, false, "", map[], [], map[], 1)
  }

  /**
   * The invariant kept by every operation: at most one live interval, and it
   * is the one `retryIntervalId` holds, and every live handle is below the
   * next one the window will hand out; listeners are attached exactly when
   * the gate is initialised, one pair only; an initialised gate has both
   * elements bound; without a status element nothing is ever logged.
   */
  predicate Inv(cfg: Config, s: WidgetState) {
    (s.retryIntervalId.None? ==> s.liveTimers == map[])
    && (s.retryIntervalId.Some? ==> s.liveTimers == map[s.retryIntervalId.value := RetryPeriodMs])
    && (forall k :: k in s.liveTimers ==> k < s.nextTimerId)
    && |s.listeners| == (if s.isInitialized then 2 else 0)
    && (s.isInitialized ==> s.textboxElement.Some? && s.buttonElement.Some?)
    && (!cfg.hasStatusElement ==> s.status == [])
  }

  lemma InitialInv(cfg: Config)
    ensures Inv(cfg, Initial())
  {
  }

  // ---------------------------------------------------------------------
  // Operations, as functions of the state
  // ---------------------------------------------------------------------

  /** `showStatus`: replace the log by one entry, or append one; nothing without a status element. */
  function ShowOn(cfg: Config, s: WidgetState, e: StatusEntry, append: bool): WidgetState {
    s.(status := Logged(cfg, s.status, e, append))
  }

  function Logged(cfg: Config, log: seq<StatusEntry>, e: StatusEntry, append: bool): seq<StatusEntry> {
    if !cfg.hasStatusElement then log
    else if append then log + [e] else [e]
  }

  /** `startRetryInterval`: a no-op while an interval is live; otherwise log, then register one. */
  function StartRetry(cfg: Config, s: WidgetState): WidgetState {
    if s.retryIntervalId.Some? then s
    else
      var s1 := ShowOn(cfg, s, StatusEntry(Info, WillRetry), true);
      s1.(retryIntervalId := Some(s.nextTimerId),
          liveTimers := s.liveTimers[s.nextTimerId := RetryPeriodMs],
          nextTimerId := s.nextTimerId + 1)
  }

  /** `stopRetryInterval`: a no-op while idle; otherwise clear the interval, forget it, log. */
  function StopRetry(cfg: Config, s: WidgetState): WidgetState {
    if s.retryIntervalId.None? then s
    else
      var s1 := s.(liveTimers := s.liveTimers - {s.retryIntervalId.value}, retryIntervalId := None);
      ShowOn(cfg, s1, StatusEntry(Success, RetryStopped), true)
  }

  /** The button's state for a validity: enabled and fully opaque, or disabled and dimmed. */
  function GateStyle(valid: bool): (b: ButtonStyle)
    ensures b.disabled == !valid
    ensures b.opacity == (if valid then "1" else "0.5")
    ensures b.cursor == (if valid then "pointer" else "not-allowed")
  {
    if valid then ButtonStyle(false, "1", "pointer") else ButtonStyle(true, "0.5", "not-allowed")
  }

  /** `validateAndUpdateButton`: re-test the bound textbox's value and style the bound button. */
  function Validate(cfg: Config, s: WidgetState): WidgetState {
    if s.textboxElement.None? || s.buttonElement.None? then s
    else
      var valid := cfg.matches(cfg.values.validationPattern, s.textboxValue);
      s.(buttonStyles := s.buttonStyles[s.buttonElement.value.path := GateStyle(valid)])
  }

  function GateListeners(target: Path): seq<Listener> {
    [Listener(InputEvent, target), Listener(ChangeEvent, target)]
  }

  /** `setupTextboxValidation`: validate once, attach the two listeners, log. */
  function Setup(cfg: Config, s: WidgetState): WidgetState {
    if s.textboxElement.None? || s.buttonElement.None? then s
    else
      var s1 := Validate(cfg, s);
      var s2 := s1.(listeners := s1.listeners + GateListeners(s.textboxElement.value.path));
      ShowOn(cfg, s2, StatusEntry(Success, HandlerAttached), true)
  }

  /** The entries `findElementsBeforeIframe` appends for each verdict. */
  function DiscoveryLog(r: PassResult, initialized: bool): seq<StatusEntry> {
    match r
    case OrderingViolation => [StatusEntry(Error, OrderRejected)]
    case NoTextbox => [StatusEntry(Error, NoInputFound)]
    case NoButton(t) => [FoundInputEntry(t), StatusEntry(Error, NoButtonFound)]
    case Found(t, b) =>
      [FoundInputEntry(t), FoundButtonEntry(b)]
      + (if initialized then [] else [StatusEntry(Success, HandlerAttached)])
    case _ => []
  }

  /** The entries the retry scheduler appends after a pass that did not hit an access error. */
  function RetryLog(r: PassResult, polling: bool): seq<StatusEntry> {
    if r.Found? then (if polling then [StatusEntry(Success, RetryStopped)] else [])
    else (if polling then [] else [StatusEntry(Info, WillRetry)])
  }

  /**
   * The whole log after a pass. Every branch of `findParentElements` starts
   * with a replacing entry, so what was there before never survives.
   */
  function PassLog(r: PassResult, polling: bool, initialized: bool): seq<StatusEntry> {
    match r
    case AccessDenied(reason) =>
      [StatusEntry(Error, ParentInaccessible(reason)), StatusEntry(Warning, SandboxHint)]
    case IframeNotFound => [StatusEntry(Error, IframeMissing)] + RetryLog(r, polling)
    case _ => [StatusEntry(Success, IframeFound)] + DiscoveryLog(r, initialized) + RetryLog(r, polling)
  }

  /**
   * The effect of `findElementsBeforeIframe` with verdict `r`: the textbox is
   * bound unless the textbox was missing or the order was wrong, the button
   * only on success, and the gate installed on the first success.
   */
  function AfterDiscover(cfg: Config, s: WidgetState, r: PassResult): WidgetState {
    var bindTextbox := r.NoButton? || r.Found?;
    var install := r.Found? && !s.isInitialized;
    s.(status := if cfg.hasStatusElement then s.status + DiscoveryLog(r, s.isInitialized) else s.status,
       textboxElement := if bindTextbox then Some(r.textbox) else s.textboxElement,
       textboxValue := if bindTextbox then r.textbox.element.value else s.textboxValue,
       buttonElement := if r.Found? then Some(r.button) else s.buttonElement,
       isInitialized := s.isInitialized || r.Found?,
       listeners := if install then s.listeners + GateListeners(r.textbox.path) else s.listeners,
       buttonStyles :=
         if install
         then s.buttonStyles[r.button.path :=
                GateStyle(cfg.matches(cfg.values.validationPattern, r.textbox.element.value))]
         else s.buttonStyles)
  }

  function BindTextbox(s: WidgetState, t: ElementRef): WidgetState {
    s.(textboxElement := Some(t), textboxValue := t.element.value)
  }

  /**
   * `findElementsBeforeIframe` after the verdict `r`, step by step as the
   * code runs; `DiscoverStepsEffect` proves it equal to `AfterDiscover`.
   */
  function DiscoverSteps(cfg: Config, s: WidgetState, r: PassResult): WidgetState {
    match r
    case OrderingViolation => ShowOn(cfg, s, StatusEntry(Error, OrderRejected), true)
    case NoTextbox => ShowOn(cfg, s, StatusEntry(Error, NoInputFound), true)
    case NoButton(t) =>
      var s1 := ShowOn(cfg, BindTextbox(s, t), FoundInputEntry(t), true);
      ShowOn(cfg, s1, StatusEntry(Error, NoButtonFound), true)
    case Found(t, b) =>
      var s1 := ShowOn(cfg, BindTextbox(s, t), FoundInputEntry(t), true);
      var s2 := ShowOn(cfg, s1.(buttonElement := Some(b)), FoundButtonEntry(b), true);
      if s2.isInitialized then s2 else Setup(cfg, s2.(isInitialized := true))
    case _ => s
  }

  /** `findParentElements`, step by step; `PassStepsEffect` proves it equal to `AfterPass`. */
  function PassSteps(cfg: Config, s: WidgetState, r: PassResult): WidgetState {
    if r.AccessDenied? then
      var s1 := ShowOn(cfg, s, StatusEntry(Error, ParentInaccessible(r.reason)), false);
      ShowOn(cfg, s1, StatusEntry(Warning, SandboxHint), true)
    else if r.IframeNotFound? then StartRetry(cfg, ShowOn(cfg, s, StatusEntry(Error, IframeMissing), false))
    else
      var s1 := AfterDiscover(cfg, ShowOn(cfg, s, StatusEntry(Success, IframeFound), false), r);
      if r.Found? then StopRetry(cfg, s1) else StartRetry(cfg, s1)
  }

  /** Running the code's steps has the effect stated declaratively by `AfterDiscover`. */
  lemma DiscoverStepsEffect(cfg: Config, s: WidgetState, r: PassResult)
    ensures DiscoverSteps(cfg, s, r) == AfterDiscover(cfg, s, r)
  {
  }

  /** Running the code's steps has the effect stated declaratively by `AfterPass`. */
  lemma PassStepsEffect(cfg: Config, s: WidgetState, r: PassResult)
    ensures PassSteps(cfg, s, r) == AfterPass(cfg, s, r)
  {
    if !r.AccessDenied? && !r.IframeNotFound? {
      var s1 := AfterDiscover(cfg, ShowOn(cfg, s, StatusEntry(Success, IframeFound), false), r);
      var log := if cfg.hasStatusElement then [StatusEntry(Success, IframeFound)] + DiscoveryLog(r, s.isInitialized) else s.status;
      assert s1 == AfterDiscover(cfg, s, r).(status := log);
      if r.Found? {
        assert PassSteps(cfg, s, r) == StopRetry(cfg, s1);
      } else {
        assert PassSteps(cfg, s, r) == StartRetry(cfg, s1);
      }
    }
  }

  /**
   * The effect of one pass of `findParentElements` with outcome `r`: an
   * access error only rewrites the log; otherwise the discovery effect, and
   * the retry interval stopped on success and started (unless already live)
   * on every other outcome.
   */
  function AfterPass(cfg: Config, s: WidgetState, r: PassResult): WidgetState {
    var polling := s.retryIntervalId.Some?;
    var log := if cfg.hasStatusElement then PassLog(r, polling, s.isInitialized) else s.status;
    if r.AccessDenied? then s.(status := log)
    else
      var d := if r.IframeNotFound? then s else AfterDiscover(cfg, s, r);
      d.(status := log,
         retryIntervalId :=
           if r.Found? then None else if polling then s.retryIntervalId else Some(s.nextTimerId),
         liveTimers :=
           if r.Found? then (if polling then s.liveTimers - {s.retryIntervalId.value} else s.liveTimers)
           else if polling then s.liveTimers
           else s.liveTimers[s.nextTimerId := RetryPeriodMs],
         nextTimerId := if !r.Found? && !polling then s.nextTimerId + 1 else s.nextTimerId)
  }

  /**
   * An `event` on the host element at `target` after the user set its value
   * to `value`: the bound textbox's live value follows the edit, and a gate
   * listener for that event re-validates.
   */
  function AfterEvent(cfg: Config, s: WidgetState, event: EventName, target: Path, value: string): WidgetState {
    var s1 :=
      if s.textboxElement.Some? && s.textboxElement.value.path == target
      then s.(textboxValue := value) else s;
    if Listener(event, target) in s.listeners then Validate(cfg, s1) else s1
  }

  /** A sequence of passes, one after another. */
  function Run(cfg: Config, s: WidgetState, rs: seq<PassResult>): WidgetState
    decreases |rs|
  {
    if |rs| == 0 then s else Run(cfg, AfterPass(cfg, s, rs[0]), rs[1..])
  }

  /** The index of the first successful pass, if any. */
  function FirstSuccess(rs: seq<PassResult>): (r: Option<nat>)
    ensures r.Some? ==> r.value < |rs| && rs[r.value].Found?
    ensures r.Some? ==> forall j :: 0 <= j < r.value ==> !rs[j].Found?
    ensures r.None? ==> forall j :: 0 <= j < |rs| ==> !rs[j].Found?
  {
    if |rs| == 0 then None
    else if rs[0].Found? then Some(0)
    else match FirstSuccess(rs[1..])
      case None => None
      case Some(k) => Some(k + 1)
  }

  // ---------------------------------------------------------------------
  // What the operations guarantee
  // ---------------------------------------------------------------------

  /** A live interval is the only one, and it fires every second. */
  lemma AtMostOneTimer(cfg: Config, s: WidgetState)
    requires Inv(cfg, s)
    ensures |s.liveTimers| <= 1
    ensures s.retryIntervalId.Some? ==>
      (s.liveTimers.Keys == {s.retryIntervalId.value} && s.liveTimers[s.retryIntervalId.value] == RetryPeriodMs)
  {
    if s.retryIntervalId.Some? {
      assert s.liveTimers.Keys == {s.retryIntervalId.value};
    }
  }

  /** Starting while polling, or stopping while idle, changes nothing; both are idempotent. */
  lemma RetrySchedulerIdempotent(cfg: Config, s: WidgetState)
    ensures s.retryIntervalId.Some? ==> StartRetry(cfg, s) == s
    ensures s.retryIntervalId.None? ==> StopRetry(cfg, s) == s
    ensures StartRetry(cfg, StartRetry(cfg, s)) == StartRetry(cfg, s)
    ensures StopRetry(cfg, StopRetry(cfg, s)) == StopRetry(cfg, s)
  {
  }

  /** Start and stop keep the invariant: never two live intervals. */
  lemma RetrySchedulerKeepsInv(cfg: Config, s: WidgetState)
    requires Inv(cfg, s)
    ensures Inv(cfg, StartRetry(cfg, s)) && StartRetry(cfg, s).retryIntervalId.Some?
    ensures Inv(cfg, StopRetry(cfg, s)) && StopRetry(cfg, s).liveTimers == map[]
  {
    if s.retryIntervalId.Some? {
      var id := s.retryIntervalId.value;
      assert s.liveTimers - {id} == map[];
    }
  }

  /**
   * The gate writes `disabled = !test(value)` and the matching opacity and
   * cursor on the bound button and on no other; without both references it
   * changes nothing; running it twice is the same as running it once.
   */
  lemma ValidateGate(cfg: Config, s: WidgetState)
    ensures s.textboxElement.None? || s.buttonElement.None? ==> Validate(cfg, s) == s
    ensures s.textboxElement.Some? && s.buttonElement.Some? ==>
      var b := s.buttonElement.value.path;
      var valid := cfg.matches(cfg.values.validationPattern, s.textboxValue);
      b in Validate(cfg, s).buttonStyles && Validate(cfg, s).buttonStyles[b].disabled == !valid
      && Validate(cfg, s).buttonStyles[b].opacity == (if valid then "1" else "0.5")
      && Validate(cfg, s).buttonStyles[b].cursor == (if valid then "pointer" else "not-allowed")
      && Validate(cfg, s) == s.(buttonStyles := Validate(cfg, s).buttonStyles)
    ensures s.textboxElement.Some? && s.buttonElement.Some? ==>
      Validate(cfg, s).buttonStyles == s.buttonStyles[s.buttonElement.value.path :=
        GateStyle(cfg.matches(cfg.values.validationPattern, s.textboxValue))]
    ensures Validate(cfg, Validate(cfg, s)) == Validate(cfg, s)
  {
  }

  /**
   * What `findElementsBeforeIframe` leaves bound for each verdict: an ordering
   * violation or a missing textbox binds nothing, a missing button binds the
   * textbox only, a success binds both and the gate is initialised.
   */
  lemma DiscoverBindings(cfg: Config, s: WidgetState, r: PassResult)
    requires r.OrderingViolation? || r.NoTextbox? || r.NoButton? || r.Found?
    ensures var t := AfterDiscover(cfg, s, r);
      (r.OrderingViolation? || r.NoTextbox? ==>
         t.textboxElement == s.textboxElement && t.buttonElement == s.buttonElement
         && t.isInitialized == s.isInitialized)
      && (r.NoButton? ==>
            t.textboxElement == Some(r.textbox) && t.buttonElement == s.buttonElement
            && t.isInitialized == s.isInitialized)
      && (r.Found? ==>
            t.textboxElement == Some(r.textbox) && t.buttonElement == Some(r.button) && t.isInitialized)
      && (s.isInitialized ==> t.listeners == s.listeners && t.buttonStyles == s.buttonStyles)
  {
  }

  /** A pass keeps the invariant, whatever its outcome. */
  lemma PassKeepsInv(cfg: Config, s: WidgetState, r: PassResult)
    requires Inv(cfg, s)
    ensures Inv(cfg, AfterPass(cfg, s, r))
  {
    if s.retryIntervalId.Some? {
      assert s.liveTimers - {s.retryIntervalId.value} == map[];
    }
  }

  /**
   * The retry state a pass leaves behind: none after a success, exactly one
   * live one-second interval after a retryable outcome (the same one if it
   * was already polling), and the previous state after an access error.
   */
  lemma PassRetryState(cfg: Config, s: WidgetState, r: PassResult)
    requires Inv(cfg, s)
    ensures var t := AfterPass(cfg, s, r);
      (r.Found? ==> t.retryIntervalId.None? && t.liveTimers == map[])
      && (Retryable(r) ==> t.retryIntervalId.Some? && t.liveTimers == map[t.retryIntervalId.value := RetryPeriodMs])
      && (Retryable(r) && s.retryIntervalId.Some? ==> t.retryIntervalId == s.retryIntervalId)
      && (r.AccessDenied? ==> t.retryIntervalId == s.retryIntervalId && t.liveTimers == s.liveTimers)
  {
    PassKeepsInv(cfg, s, r);
  }

  /**
   * The first pass after construction: it polls afterwards exactly when its
   * outcome is retryable; an access error leaves no timer at all, and the
   * log then ends with the sandbox hint.
   */
  lemma FirstPassFromConstruction(cfg: Config, r: PassResult)
    ensures var t := AfterPass(cfg, Initial(), r);
      (t.retryIntervalId.Some? <==> Retryable(r))
      && (r.AccessDenied? ==>
            (t.liveTimers == map[]
             && (cfg.hasStatusElement ==> t.status[|t.status| - 1] == StatusEntry(Warning, SandboxHint))))
  {
  }

  /**
   * After a success there is no live interval, so no timer tick can start
   * another pass: success is final.
   */
  lemma SuccessIsFinal(cfg: Config, s: WidgetState, r: PassResult)
    requires Inv(cfg, s) && r.Found?
    ensures AfterPass(cfg, s, r).liveTimers == map[]
    ensures AfterPass(cfg, s, r).isInitialized
  {
    PassRetryState(cfg, s, r);
  }

  /** A sequence of passes keeps the invariant. */
  lemma {:induction false} RunKeepsInv(cfg: Config, s: WidgetState, rs: seq<PassResult>)
    requires Inv(cfg, s)
    ensures Inv(cfg, Run(cfg, s, rs))
    ensures |Run(cfg, s, rs).liveTimers| <= 1
    decreases |rs|
  {
    if |rs| == 0 {
      AtMostOneTimer(cfg, s);
    } else {
      PassKeepsInv(cfg, s, rs[0]);
      RunKeepsInv(cfg, AfterPass(cfg, s, rs[0]), rs[1..]);
    }
  }

  /** Once initialised, further passes never reinstall listeners or clear the flag. */
  lemma {:induction false} InitializedStays(cfg: Config, s: WidgetState, rs: seq<PassResult>)
    requires s.isInitialized
    ensures Run(cfg, s, rs).isInitialized
    ensures Run(cfg, s, rs).listeners == s.listeners
    decreases |rs|
  {
    if |rs| > 0 {
      InitializedStays(cfg, AfterPass(cfg, s, rs[0]), rs[1..]);
    }
  }

  /**
   * Over any sequence of passes from an uninitialised widget, the gate is
   * installed exactly when some pass succeeds, once, on the textbox the
   * first successful pass found.
   */
  lemma {:induction false} InstalledOnFirstSuccess(cfg: Config, s: WidgetState, rs: seq<PassResult>)
    requires Inv(cfg, s) && !s.isInitialized
    ensures var f := FirstSuccess(rs);
      Run(cfg, s, rs).isInitialized == f.Some?
      && Run(cfg, s, rs).listeners == (if f.Some? then GateListeners(rs[f.value].textbox.path) else [])
    decreases |rs|
  {
    if |rs| > 0 {
      var t := AfterPass(cfg, s, rs[0]);
      PassKeepsInv(cfg, s, rs[0]);
      if rs[0].Found? {
        InitializedStays(cfg, t, rs[1..]);
      } else {
        InstalledOnFirstSuccess(cfg, t, rs[1..]);
        var f := FirstSuccess(rs[1..]);
        if f.Some? {
          assert rs[1..][f.value] == rs[f.value + 1];
          FirstSuccessShift(rs);
        } else {
          FirstSuccessShift(rs);
        }
      }
    }
  }

  lemma FirstSuccessShift(rs: seq<PassResult>)
    requires |rs| > 0 && !rs[0].Found?
    ensures FirstSuccess(rs) == (match FirstSuccess(rs[1..]) case None => None case Some(k) => Some(k + 1))
  {
  }

  /**
   * The interval callback's own "retrying" entry never survives it: the pass
   * it starts always begins by replacing the log.
   */
  lemma TickOverwritesRetrying(cfg: Config, s: WidgetState, r: PassResult)
    requires cfg.hasStatusElement
    ensures var t := AfterPass(cfg, ShowOn(cfg, s, StatusEntry(Info, Retrying), true), r);
      forall e :: e in t.status ==> e.message != Retrying
  {
    var s1 := ShowOn(cfg, s, StatusEntry(Info, Retrying), true);
    assert AfterPass(cfg, s1, r).status == PassLog(r, s.retryIntervalId.Some?, s.isInitialized);
    PassLogHasNoRetrying(r, s.retryIntervalId.Some?, s.isInitialized);
  }

  lemma PassLogHasNoRetrying(r: PassResult, polling: bool, initialized: bool)
    ensures forall e :: e in PassLog(r, polling, initialized) ==> e.message != Retrying
  {
    assert forall e :: e in RetryLog(r, polling) ==> e.message != Retrying;
    assert forall e :: e in DiscoveryLog(r, initialized) ==> e.message != Retrying;
  }

  /**
   * An input or change event on the bound textbox, once the gate is
   * installed on it, leaves the button disabled exactly when the new value
   * fails the pattern.
   */
  lemma EventRevalidates(cfg: Config, s: WidgetState, event: EventName, value: string)
    requires Inv(cfg, s) && s.isInitialized
    requires s.listeners == GateListeners(s.textboxElement.value.path)
    ensures var t := AfterEvent(cfg, s, event, s.textboxElement.value.path, value);
      var b := s.buttonElement.value.path;
      t.textboxValue == value && b in t.buttonStyles
      && t.buttonStyles[b] == GateStyle(cfg.matches(cfg.values.validationPattern, value))
  {
    var target := s.textboxElement.value.path;
    assert Listener(event, target) in s.listeners by {
      if event == InputEvent { assert s.listeners[0] == Listener(event, target); }
      else { assert s.listeners[1] == Listener(event, target); }
    }
  }

  /** Events on elements without a gate listener change no button. */
  lemma EventWithoutListener(cfg: Config, s: WidgetState, event: EventName, target: Path, value: string)
    requires Listener(event, target) !in s.listeners
    ensures AfterEvent(cfg, s, event, target, value).buttonStyles == s.buttonStyles
  {
  }

  /**
   * The default rule on a bound textbox and button, when the engine's `test`
   * for the default pattern is the one written out in `DefaultPatternTest`:
   * "ABC-123-DEF" enables the button, "xyz" disables and dims it.
   */
  lemma DefaultGateExamples(cfg: Config, s: WidgetState)
    requires cfg.values == ValuesDefault
    requires forall v :: cfg.matches(ValuesDefault.validationPattern, v) == DefaultPatternTest(v)
    requires s.textboxElement.Some? && s.buttonElement.Some?
    ensures Validate(cfg, s.(textboxValue := "ABC-123-DEF")).buttonStyles[s.buttonElement.value.path]
      == ButtonStyle(false, "1", "pointer")
    ensures Validate(cfg, s.(textboxValue := "xyz")).buttonStyles[s.buttonElement.value.path]
      == ButtonStyle(true, "0.5", "not-allowed")
  {
    DefaultPatternExamples();
  }

  // ---------------------------------------------------------------------
  // The widget object
  // ---------------------------------------------------------------------

  class App {
    const values: Values
    /** The regular expression engine: `new RegExp(pattern).test(value)`. */
    const matches: (string, string) -> bool
    /** Whether `document.getElementById("status")` found an element. */
    const hasStatusElement: bool

    var status: seq<StatusEntry>
    var textboxElement: Option<ElementRef>
    var buttonElement: Option<ElementRef>
    var retryIntervalId: Option<TimerId>
    var isInitialized: bool

    // Host-page and browser state the widget reads and writes.
    var textboxValue: string
    var buttonStyles: map<Path, ButtonStyle>
    var listeners: seq<Listener>
    var liveTimers: map<TimerId, nat>
    var nextTimerId: TimerId

    function Cfg(): Config {
      Config(values, matches, hasStatusElement)
    }

    function State(): WidgetState
      reads this
    {
      WidgetState(status, textboxElement, buttonElement, retryIntervalId, isInitialized,
                  textboxValue, buttonStyles, listeners, liveTimers, nextTimerId)
    }

    ghost predicate Valid()
      reads this
    {
      Inv(Cfg(), State())
    }

    /** Construction runs one discovery pass against the parent document as it is then. */
    constructor (values: Values, matches: (string, string) -> bool, hasStatusElement: bool,
                 access: ParentAccess, self: WindowId)
      ensures Valid()
      ensures Cfg() == Config(values, matches, hasStatusElement)
      ensures State() == AfterPass(Cfg(), Initial(), Pass(access, self))
    {
      this.values := values;
      this.matches := matches;
      this.hasStatusElement := hasStatusElement;
      status := [];
      textboxElement, buttonElement := None, None;
      retryIntervalId := None;
      isInitialized := false;
      textboxValue := "";
      buttonStyles := map[];
      listeners := [];
      liveTimers := map[];
      nextTimerId := 1;
      new;
      InitialInv(Cfg());
      PassKeepsInv(Cfg(), State(), Pass(access, self));
      FindParentElements(access, self);
    }

    method ShowStatus(severity: Severity, message: Message, append: bool)
      modifies this`status
      ensures status == Logged(Cfg(), old(status), StatusEntry(severity, message), append)
    {
      if !hasStatusElement {
        return;
      }
      var entry := StatusEntry(severity, message);
      if append {
        status := status + [entry];
      } else {
        status := [];
        status := status + [entry];
      }
    }

    /** `window.setInterval(callback, periodMs)`: the browser registers a fresh interval. */
    method SetInterval(periodMs: nat) returns (id: TimerId)
      modifies this`liveTimers, this`nextTimerId
      ensures id == old(nextTimerId) && nextTimerId == old(nextTimerId) + 1
      ensures liveTimers == old(liveTimers)[id := periodMs]
    {
      id := nextTimerId;
      liveTimers := liveTimers[id := periodMs];
      nextTimerId := nextTimerId + 1;
    }

    /** `window.clearInterval(id)`. */
    method ClearInterval(id: TimerId)
      modifies this`liveTimers
      ensures liveTimers == old(liveTimers) - {id}
    {
      liveTimers := liveTimers - {id};
    }

    method StartRetryInterval()
      modifies this`status, this`retryIntervalId, this`liveTimers, this`nextTimerId
      ensures State() == StartRetry(Cfg(), old(State()))
    {
      if retryIntervalId.Some? {
        return;
      }
      ShowStatus(Info, WillRetry, true);
      var id := SetInterval(RetryPeriodMs);
      retryIntervalId := Some(id);
    }

    method StopRetryInterval()
      modifies this`status, this`retryIntervalId, this`liveTimers
      ensures State() == StopRetry(Cfg(), old(State()))
    {
      if retryIntervalId.Some? {
        ClearInterval(retryIntervalId.value);
        retryIntervalId := None;
        ShowStatus(Success, RetryStopped, true);
      }
    }

    method ValidateAndUpdateButton()
      modifies this`buttonStyles
      ensures State() == Validate(Cfg(), old(State()))
    {
      if textboxElement.None? || buttonElement.None? {
        return;
      }
      var value := textboxValue;
      var isValid := matches(values.validationPattern, value);
      var b := buttonElement.value.path;
      var style := ButtonStyle(!isValid, "", "");
      if isValid {
        style := style.(opacity := "1", cursor := "pointer");
      } else {
        style := style.(opacity := "0.5", cursor := "not-allowed");
      }
      buttonStyles := buttonStyles[b := style];
    }

    method SetupTextboxValidation()
      modifies this`buttonStyles, this`listeners, this`status
      ensures State() == Setup(Cfg(), old(State()))
    {
      if textboxElement.None? || buttonElement.None? {
        return;
      }
      ValidateAndUpdateButton();
      var target := textboxElement.value.path;
      listeners := listeners + [Listener(InputEvent, target)];
      listeners := listeners + [Listener(ChangeEvent, target)];
      ShowStatus(Success, HandlerAttached, true);
    }

    method FindElementsBeforeIframe(doc: Document, iframe: Path) returns (found: bool)
      requires ValidPath(doc.root, iframe)
      modifies this`status, this`textboxElement, this`textboxValue, this`buttonElement,
               this`isInitialized, this`buttonStyles, this`listeners
      ensures found == Discover(doc, iframe).Found?
      ensures State() == AfterDiscover(Cfg(), old(State()), Discover(doc, iframe))
    {
      var elementsBeforeIframe := CollectCandidates(doc, iframe);
      var foundTextbox, foundButton := Classify(elementsBeforeIframe);
      DiscoverStepsEffect(Cfg(), State(), Verdict(elementsBeforeIframe, foundTextbox, foundButton));
      found := AdoptVerdict(elementsBeforeIframe, foundTextbox, foundButton);
    }

    /**
     * The second half of `findElementsBeforeIframe`: given the candidates and
     * the indices of the first textbox and first button among them, reject
     * the order or bind what was found, and install the gate once.
     */
    method AdoptVerdict(elementsBeforeIframe: seq<ElementRef>, foundTextbox: Option<nat>, foundButton: Option<nat>)
      returns (found: bool)
      requires foundTextbox.Some? ==> foundTextbox.value < |elementsBeforeIframe|
      requires foundButton.Some? ==> foundButton.value < |elementsBeforeIframe|
      modifies this`status, this`textboxElement, this`textboxValue, this`buttonElement,
               this`isInitialized, this`buttonStyles, this`listeners
      ensures found == Verdict(elementsBeforeIframe, foundTextbox, foundButton).Found?
      ensures State() == DiscoverSteps(Cfg(), old(State()), Verdict(elementsBeforeIframe, foundTextbox, foundButton))
    {
      if foundTextbox.Some? && foundButton.Some? && foundTextbox.value > foundButton.value {
        ShowStatus(Error, OrderRejected, true);
        found := false;
      } else if foundTextbox.None? {
        ShowStatus(Error, NoInputFound, true);
        found := false;
      } else {
        var t := elementsBeforeIframe[foundTextbox.value];
        textboxElement := Some(t);
        textboxValue := t.element.value;
        ShowStatus(Success, FoundInput(Lower(t.element.tagName), Label(t.element)), true);
        if foundButton.None? {
          ShowStatus(Error, NoButtonFound, true);
          found := false;
        } else {
          var b := elementsBeforeIframe[foundButton.value];
          buttonElement := Some(b);
          ShowStatus(Success, FoundButton(Lower(b.element.tagName), Label(b.element)), true);
          if !isInitialized {
            isInitialized := true;
            SetupTextboxValidation();
          }
          found := true;
        }
      }
    }

    method FindParentElements(access: ParentAccess, self: WindowId)
      modifies this`status, this`textboxElement, this`textboxValue, this`buttonElement,
               this`isInitialized, this`buttonStyles, this`listeners,
               this`retryIntervalId, this`liveTimers, this`nextTimerId
      ensures State() == AfterPass(Cfg(), old(State()), Pass(access, self))
    {
      ghost var r := Pass(access, self);
      ghost var s0 := State();
      match access {
        case Denied(reason) =>
          ShowStatus(Error, ParentInaccessible(reason), false);
          ShowStatus(Warning, SandboxHint, true);
        case Granted(parentDoc) =>
          var iframes := Iframes(parentDoc);
          var ourIframe := LocateIframe(iframes, self);
          if ourIframe.None? {
            ShowStatus(Error, IframeMissing, false);
            StartRetryInterval();
          } else {
            ShowStatus(Success, IframeFound, false);
            var found := FindElementsBeforeIframe(parentDoc, ourIframe.value.path);
            if !found {
              StartRetryInterval();
            } else {
              StopRetryInterval();
            }
          }
      }
      PassStepsEffect(Cfg(), s0, r);
    }

    /** The interval's callback: log that it retries, then run a pass. */
    method Tick(id: TimerId, access: ParentAccess, self: WindowId)
      requires Valid() && id in liveTimers
      modifies this`status, this`textboxElement, this`textboxValue, this`buttonElement,
               this`isInitialized, this`buttonStyles, this`listeners,
               this`retryIntervalId, this`liveTimers, this`nextTimerId
      ensures Valid()
      ensures State() == AfterPass(Cfg(), ShowOn(Cfg(), old(State()), StatusEntry(Info, Retrying), true), Pass(access, self))
    {
      ShowStatus(Info, Retrying, true);
      PassKeepsInv(Cfg(), State(), Pass(access, self));
      FindParentElements(access, self);
    }

    /** The browser's dispatch of `event` at `target` after the user set its value. */
    method DispatchEvent(event: EventName, target: Path, value: string)
      requires Valid()
      modifies this`textboxValue, this`buttonStyles
      ensures Valid()
      ensures State() == AfterEvent(Cfg(), old(State()), event, target, value)
    {
      if textboxElement.Some? && textboxElement.value.path == target {
        textboxValue := value;
      }
      if Listener(event, target) in listeners {
        ValidateAndUpdateButton();
      }
    }
  }
}
