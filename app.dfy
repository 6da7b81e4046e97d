/**
 * The application glue (moduls/app.py): `readUART` applies a RESPONSE to the
 * first signal with the same index and turns a STATUS message into a log
 * line; `guiCallback` turns a GUI action into one WRITE_REQUEST.
 *
 * The GUI is reduced to two logs (what `writeLog` and `updateData` are
 * called with, and what goes to the error logger).  The action enumeration
 * and the commutation lookup are defined outside the files modelled here:
 * `GuiAction` lists the cases the callback distinguishes, and the value
 * `CommutationsType[value]` is passed in as a number.  The message a call
 * of `readUART` handles is a parameter.
 */
module App {
  import opened Wrappers
  import opened UartDefines
  import opened ModelsUartDefines
  import opened ModelsDataClasses
  import DataClasses
  import UartHelper

  // ---------------------------------------------------------------------
  // readUART

  /** The first position from `i` on whose signal has index `index`, or -1. */
  function FirstMatchFrom(cfgs: seq<ModelsSignalConfig>, index: int, i: nat): (k: int)
    decreases |cfgs| - i
    ensures k == -1 || (i <= k < |cfgs| && cfgs[k].index == index)
  {
    if i >= |cfgs| then -1
    else if cfgs[i].index == index then i
    else FirstMatchFrom(cfgs, index, i + 1)
  }

  /** The signal `for signal in uartSignals: if signal.index == message.index: ... break` stops at. */
  function FirstMatch(cfgs: seq<ModelsSignalConfig>, index: int): (k: int)
    ensures k == -1 || (0 <= k < |cfgs| && cfgs[k].index == index)
  {
    FirstMatchFrom(cfgs, index, 0)
  }

  lemma {:induction false} FirstMatchFromIsFirst(cfgs: seq<ModelsSignalConfig>, index: int, i: nat)
    decreases |cfgs| - i
    ensures FirstMatchFrom(cfgs, index, i) == -1 <==> forall j :: i <= j < |cfgs| ==> cfgs[j].index != index
    ensures forall j :: i <= j < |cfgs| && j < FirstMatchFrom(cfgs, index, i) ==> cfgs[j].index != index
  {
    if i < |cfgs| && cfgs[i].index != index {
      FirstMatchFromIsFirst(cfgs, index, i + 1);
    }
  }

  /** The loop stops at the first signal with the message's index, and finds none exactly when there is none. */
  lemma FirstMatchIsFirst(cfgs: seq<ModelsSignalConfig>, index: int)
    ensures FirstMatch(cfgs, index) == -1 <==> forall j :: 0 <= j < |cfgs| ==> cfgs[j].index != index
    ensures forall j :: 0 <= j < FirstMatch(cfgs, index) ==> cfgs[j].index != index
  {
    FirstMatchFromIsFirst(cfgs, index, 0);
  }

  /**
   * The value a RESPONSE gives a signal: signed and scaled when negative
   * values are allowed (this wins over `isRaw`), else the unsigned payload
   * as it is for a raw signal, else unsigned and scaled.
   */
  function ResponseValue(cfg: ModelsSignalConfig, m: Message): (r: real)
    ensures !cfg.allowNegative && cfg.isRaw ==> 0.0 <= r < 65536.0
    ensures !cfg.allowNegative && cfg.factor == 1.0 && cfg.offset == 0.0 ==> r == m.PayloadUnsigned() as real
  {
    if cfg.allowNegative then Reading(m.PayloadSigned(), cfg.factor, cfg.offset)
    else if cfg.isRaw then m.PayloadUnsigned() as real
    else Reading(m.PayloadUnsigned(), cfg.factor, cfg.offset)
  }

  /** A payload read through the signal's scale: `raw * factor + offset`. */
  function Reading(raw: int, factor: real, offset: real): real
  {
    raw as real * factor + offset
  }

  /** Two readings through the same non-zero factor differ by the factor times the difference of the payloads. */
  lemma ReadingsDiffer(a: int, b: int, factor: real, offset: real)
    requires factor != 0.0
    ensures Reading(a, factor, offset) - Reading(b, factor, offset) == (a - b) as real * factor
    ensures Reading(a, factor, offset) == Reading(b, factor, offset) <==> a == b
  {
    var d := (a - b) as real;
    assert a as real * factor - b as real * factor == d * factor;
    if a != b {
      assert d != 0.0;
      assert d * factor != 0.0;
    }
  }

  /**
   * The signed and the unsigned reading of a scaled signal agree exactly
   * when the payload's top bit is clear: allowing negative values changes
   * only payloads from 0x8000 on, and lowers each of them by 65536 steps.
   */
  lemma {:induction false} SignedReadingDiffersOnlyAboveTopBit(cfg: ModelsSignalConfig, m: Message)
    requires !cfg.isRaw && cfg.factor != 0.0
    ensures var signed := ResponseValue(cfg.(allowNegative := true), m);
      var unsigned := ResponseValue(cfg.(allowNegative := false), m);
      (signed == unsigned <==> m.PayloadUnsigned() < 0x8000)
      && (m.PayloadUnsigned() >= 0x8000 ==> unsigned - signed == 65536.0 * cfg.factor)
  {
    var u := m.PayloadUnsigned();
    var s := m.PayloadSigned();
    assert s == if u >= 0x8000 then u - 0x10000 else u;
    ReadingsDiffer(u, s, cfg.factor, cfg.offset);
  }

  /** What `readUART` logs for a STATUS message; None is the "unknown index" branch. */
  datatype StatusEvent = McuStatusOk | McuStatusReady | McuStatusSystemError(code: int) | McuStatusError(code: int)

  function StatusEventOf(m: Message): (e: Option<StatusEvent>)
    ensures e.Some? && (e.value.McuStatusSystemError? || e.value.McuStatusError?) ==> e.value.code == m.PayloadSigned()
    ensures e.Some? ==> -0x8000 <= m.PayloadSigned() < 0x8000
  {
    if m.index == StatusOk then Some(McuStatusOk)
    else if m.index == StatusReady then Some(McuStatusReady)
    else if m.index == StatusSystemError then Some(McuStatusSystemError(m.PayloadSigned()))
    else if m.index == StatusError then Some(McuStatusError(m.PayloadSigned()))
    else None
  }

  /**
   * The status table covers the older MSG_INDEX_STATUS exactly: every status
   * the older codec accepts is logged, and the error codes carry the signed
   * payload.
   */
  lemma StatusTableCoversModelsStatuses(m: Message)
    ensures StatusEventOf(m).Some? <==> m.index in ModelsTables.status
    ensures StatusEventOf(m) == Some(McuStatusSystemError(m.PayloadSigned())) <==> m.index == StatusSystemError
    ensures StatusEventOf(m) == Some(McuStatusError(m.PayloadSigned())) <==> m.index == StatusError
  {
  }

  /** The statuses only the newer codec knows (REMOTE_READY and the STOP codes) fall to "unknown index". */
  lemma {:induction false} NewerStatusesAreUnknown(m: Message)
    requires m.index in MainTables.status && m.index !in ModelsTables.status
    ensures StatusEventOf(m).None?
    ensures m.index == StatusRemoteReady || StopEmergency <= m.index <= StopSystemError
  {
    StatusTableCoversModelsStatuses(m);
  }

  /** One entry handed to the GUI. */
  datatype GuiEntry = TxMessage(m: Message) | RxStatus(e: StatusEvent) | DataUpdate

  /** One entry handed to the error logger. */
  datatype ErrorEntry = UnknownActionError | UnknownIndexError(index: int)

  /** The signal a `readUART` call updates, or -1. */
  function MatchedSignal(cfgs: seq<ModelsSignalConfig>, message: Option<Message>): (k: int)
    ensures k == -1 || (0 <= k < |cfgs| && message.Some? && message.value.msgType == Response && cfgs[k].index == message.value.index)
  {
    if message.Some? && message.value.msgType == Response then FirstMatch(cfgs, message.value.index) else -1
  }

  /** What `readUART` hands the GUI: one data update per RESPONSE, matched or not, and one line per known status. */
  function GuiEntriesOf(message: Option<Message>): (r: seq<GuiEntry>)
    ensures |r| + |ErrorsOf(message)| == if message.Some? && message.value.msgType in {Response, StatusMessage} then 1 else 0
  {
    if message.None? then []
    else if message.value.msgType == Response then [DataUpdate]
    else if message.value.msgType == StatusMessage && StatusEventOf(message.value).Some? then [RxStatus(StatusEventOf(message.value).value)]
    else []
  }

  /** What `readUART` reports as an error: a STATUS message whose index is not in the table. */
  function ErrorsOf(message: Option<Message>): (r: seq<ErrorEntry>)
    ensures r != [] ==> message.Some? && message.value.msgType == StatusMessage && message.value.index !in ModelsTables.status
    ensures r != [] ==> r == [UnknownIndexError(message.value.index)]
  {
    if message.Some? && message.value.msgType == StatusMessage && StatusEventOf(message.value).None?
    then [UnknownIndexError(message.value.index)]
    else []
  }

  /**
   * The catalog routes every RESPONSE whose index the older codec knows to
   * its own signal, and a RESPONSE for VALUE_REMOTE_PWM (0x10, known only to
   * the newer codec) to none.
   */
  lemma {:induction false} CatalogRoutesResponses(m: Message)
    requires m.msgType == Response
    ensures m.index in ModelsTables.param ==> var k := MatchedSignal(ModelsCatalog(), Some(m));
      k >= 0 && ModelsCatalog()[k].index == m.index
    ensures m.index == ValueRemotePwm ==> MatchedSignal(ModelsCatalog(), Some(m)) == -1
  {
    ModelsCatalogIndicesAreAPermutation();
    FirstMatchIsFirst(ModelsCatalog(), m.index);
    if m.index == ValueRemotePwm {
      assert m.index !in ModelsTables.param;
    }
  }

  /** Neither log mentions a RESPONSE beyond the bare data update, and a message of the request types is ignored. */
  lemma {:induction false} RequestsAreIgnored(m: Message)
    requires m.msgType == WriteRequest || m.msgType == ReadRequest
    ensures GuiEntriesOf(Some(m)) == [] && ErrorsOf(Some(m)) == [] && MatchedSignal(ModelsCatalog(), Some(m)) == -1
  {
  }

  // ---------------------------------------------------------------------
  // guiCallback

  /** The cases of `guiCallback`'s `match`; `OtherAction` stands for anything else. */
  datatype GuiAction = SetPwm | SetCommutation | SetStart | SetControlMode | SetRpm
                     | SetPValue | SetIValue | SetDValue | OtherAction

  /** `int(value * 1000)`: the fixed-point form in which the controller gains are sent. */
  function Milli(value: real): real
  {
    DataClasses.Trunc(value * 1000.0) as real
  }

  /** What a known action sends: the index, whether the payload is signed, and the number packed. */
  datatype Request = Request(index: int, signed: bool, number: real)

  function RequestFor(action: GuiAction, value: real, commutation: real): (r: Option<Request>)
    ensures r.Some? <==> action != OtherAction
    ensures r.Some? ==> r.value.index in ModelsTables.param && ActionOfIndex(r.value.index) == Some(action)
  {
    match action
    case SetPwm => Some(Request(ValuePwm, false, value))
    case SetCommutation => Some(Request(ValueCommutation, false, commutation))
    case SetStart => Some(Request(ValueEnable, true, value))
    case SetControlMode => Some(Request(ValueControleMethod, false, value))
    case SetRpm => Some(Request(ValueRpm, true, value))
    case SetPValue => Some(Request(ValuePwmP, true, Milli(value)))
    case SetIValue => Some(Request(ValuePwmI, true, Milli(value)))
    case SetDValue => Some(Request(ValuePwmD, true, Milli(value)))
    case OtherAction => None
  }

  /** The action a WRITE_REQUEST's index comes from: the table read backwards. */
  function ActionOfIndex(index: int): Option<GuiAction>
  {
    if index == ValuePwm then Some(SetPwm)
    else if index == ValueCommutation then Some(SetCommutation)
    else if index == ValueEnable then Some(SetStart)
    else if index == ValueControleMethod then Some(SetControlMode)
    else if index == ValueRpm then Some(SetRpm)
    else if index == ValuePwmP then Some(SetPValue)
    else if index == ValuePwmI then Some(SetIValue)
    else if index == ValuePwmD then Some(SetDValue)
    else None
  }

  /** How a `guiCallback` call ends: the unknown-action branch, a payload `struct` refuses, or one message. */
  datatype CallbackOutcome = Ignored | PackFailed | Sent(message: Message)

  function CallbackOutcomeOf(action: GuiAction, value: real, commutation: real): (o: CallbackOutcome)
    ensures o.Ignored? <==> action == OtherAction
    ensures o.Sent? ==> o.message.msgType == WriteRequest && o.message.isValide && |o.message.rawPayload| == 2
    ensures o.Sent? ==> RequestFor(action, value, commutation).Some? && o.message.index == RequestFor(action, value, commutation).value.index
  {
    match RequestFor(action, value, commutation)
    case None => Ignored
    case Some(r) =>
      match PackNumber(r.number, r.signed)
      case None => PackFailed
      case Some(p) => Sent(Message(WriteRequest, r.index, p, true))
  }

  /**
   * Every known action sends one WRITE_REQUEST whose index names that action
   * and only it, and which the older codec accepts.
   */
  lemma {:induction false} CallbackIndexRoundTrip(action: GuiAction, value: real, commutation: real, prior: Message)
    requires CallbackOutcomeOf(action, value, commutation).Sent?
    ensures var d := DecodeMessage(ModelsTables, prior, EncodeMessage(CallbackOutcomeOf(action, value, commutation).message));
      d.msgType == WriteRequest && ActionOfIndex(d.index) == Some(action) && d.isValide == prior.isValide
  {
    var r := RequestFor(action, value, commutation).value;
    assert 0 <= r.index < 0x10 && ActionOfIndex(r.index) == Some(action);
    RequestRoundTrip(r, prior);
  }

  /**
   * The device decodes from the message the number the action sent:
   * unsigned for PWM, commutation and control mode, signed for START and
   * RPM, signed `int(value*1000)` for the gains.
   */
  lemma {:induction false} CallbackPayloadRoundTrip(action: GuiAction, value: real, commutation: real, prior: Message)
    requires CallbackOutcomeOf(action, value, commutation).Sent?
    ensures var d := DecodeMessage(ModelsTables, prior, EncodeMessage(CallbackOutcomeOf(action, value, commutation).message));
      ((action == SetPwm || action == SetControlMode) ==> d.PayloadUnsigned() as real == value)
      && (action == SetCommutation ==> d.PayloadUnsigned() as real == commutation)
      && ((action == SetStart || action == SetRpm) ==> d.PayloadSigned() as real == value)
      && ((action == SetPValue || action == SetIValue || action == SetDValue) ==> d.PayloadSigned() as real == Milli(value))
  {
    var r := RequestFor(action, value, commutation).value;
    assert 0 <= r.index < 0x10;
    RequestRoundTrip(r, prior);
  }

  /** A packable request travels intact: the device decodes its index and, read with the request's signedness, its number. */
  lemma {:induction false} RequestRoundTrip(r: Request, prior: Message)
    requires 0 <= r.index < 0x10 && PackNumber(r.number, r.signed).Some?
    ensures var m := Message(WriteRequest, r.index, PackNumber(r.number, r.signed).value, true);
      var d := DecodeMessage(ModelsTables, prior, EncodeMessage(m));
      d.msgType == WriteRequest && d.index == r.index && d.isValide == prior.isValide
      && (if r.signed then d.PayloadSigned() else d.PayloadUnsigned()) as real == r.number
  {
    var m := Message(WriteRequest, r.index, PackNumber(r.number, r.signed).value, true);
    ModelsRoundTrip(m, prior);
  }

  /** A known action sends exactly when `struct` can pack its number; any other action never sends. */
  lemma {:induction false} CallbackSendsWhenPackable(action: GuiAction, value: real, commutation: real)
    ensures action == OtherAction <==> CallbackOutcomeOf(action, value, commutation).Ignored?
    ensures action != OtherAction ==> var r := RequestFor(action, value, commutation).value;
      (CallbackOutcomeOf(action, value, commutation).Sent? <==>
        r.number == r.number.Floor as real
        && if r.signed then -0x8000 <= r.number.Floor < 0x8000 else 0 <= r.number.Floor < 0x10000)
  {
    if action != OtherAction {
      var r := RequestFor(action, value, commutation).value;
      if r.number == r.number.Floor as real {
        assert WholeNumber(r.number) == Some(r.number.Floor);
      }
    }
  }

  /** The `SystemData` fields `guiCallback` keeps as targets. */
  datatype Targets = Targets(targetPwm: real, commutation: real, enable: real, controleMethod: real,
                             targetRpm: real, pwmP: real, pwmI: real, pwmD: real)

  /** The target field an action owns; OtherAction owns none. */
  function Target(t: Targets, action: GuiAction): Option<real>
  {
    match action
    case SetPwm => Some(t.targetPwm)
    case SetCommutation => Some(t.commutation)
    case SetStart => Some(t.enable)
    case SetControlMode => Some(t.controleMethod)
    case SetRpm => Some(t.targetRpm)
    case SetPValue => Some(t.pwmP)
    case SetIValue => Some(t.pwmI)
    case SetDValue => Some(t.pwmD)
    case OtherAction => None
  }

  /** The target an action records once its message is built. */
  function Retargeted(t: Targets, action: GuiAction, value: real, commutation: real): (u: Targets)
    ensures forall b :: b != action ==> Target(u, b) == Target(t, b)
  {
    match action
    case SetPwm => t.(targetPwm := value)
    case SetCommutation => t.(commutation := commutation)
    case SetStart => t.(enable := value)
    case SetControlMode => t.(controleMethod := value)
    case SetRpm => t.(targetRpm := value)
    case SetPValue => t.(pwmP := Milli(value))
    case SetIValue => t.(pwmI := Milli(value))
    case SetDValue => t.(pwmD := Milli(value))
    case OtherAction => t
  }

  /**
   * An action records, in the target field it owns, the very number its
   * message carries, leaves the fields of every other action as they were,
   * and recording it again changes nothing.
   */
  lemma {:induction false} TargetIsWhatIsSent(t: Targets, action: GuiAction, value: real, commutation: real)
    requires RequestFor(action, value, commutation).Some?
    ensures var u := Retargeted(t, action, value, commutation);
      Target(u, action) == Some(RequestFor(action, value, commutation).value.number)
      && (forall b :: b != action ==> Target(u, b) == Target(t, b))
      && Retargeted(u, action, value, commutation) == u
  {
  }

  /** The App object, reduced to the state its two handlers touch. */
  class App {
    const uart: UartHelper.UartHelper
    const signals: seq<ModelsSignal>
    var targets: Targets
    var guiLog: seq<GuiEntry>
    var errorLog: seq<ErrorEntry>

    constructor (uart: UartHelper.UartHelper)
      ensures this.uart == uart && ModelsConfigsOf(signals) == ModelsCatalog() && ModelsDistinct(signals)
      ensures forall i :: 0 <= i < |signals| ==> fresh(signals[i]) && signals[i].value == 0.0
      ensures targets == Targets(0.0, 0.0, 0.0, 0.0, 0.0, 0.0, 0.0, 0.0) && guiLog == [] && errorLog == []
    {
      this.uart := uart;
      var ss := NewModelsSignals(ModelsCatalog());
      signals := ss;
      targets := Targets(0.0, 0.0, 0.0, 0.0, 0.0, 0.0, 0.0, 0.0);
      guiLog := [];
      errorLog := [];
    }

    /** The loop over the signals for a RESPONSE `m`, at clock reading `now`. */
    method ApplyResponse(m: Message, now: int)
      requires ModelsDistinct(signals)
      modifies signals
      ensures var k := FirstMatch(ModelsConfigsOf(signals), m.index);
        ValuesOf(signals) == (if k >= 0 then old(ValuesOf(signals))[k := ResponseValue(signals[k].cfg, m)] else old(ValuesOf(signals)))
        && ReceivedOf(signals) == (if k >= 0 then old(ReceivedOf(signals))[k := now] else old(ReceivedOf(signals)))
    {
      ghost var cfgs := ModelsConfigsOf(signals);
      var i := 0;
      while i < |signals|
        invariant 0 <= i <= |signals|
        invariant FirstMatchFrom(cfgs, m.index, i) == FirstMatch(cfgs, m.index)
        invariant ValuesOf(signals) == old(ValuesOf(signals)) && ReceivedOf(signals) == old(ReceivedOf(signals))
      {
        var signal := signals[i];
        if signal.cfg.index == m.index {
          ApplyTo(i, m, now);
          return;
        }
        i := i + 1;
      }
    }

    /** The matching signal's update: its value by the payload's reading, then its reception time. */
    method ApplyTo(i: int, m: Message, now: int)
      requires ModelsDistinct(signals) && 0 <= i < |signals|
      modifies signals[i]
      ensures ValuesOf(signals) == old(ValuesOf(signals))[i := ResponseValue(signals[i].cfg, m)]
      ensures ReceivedOf(signals) == old(ReceivedOf(signals))[i := now]
    {
      ghost var values := old(ValuesOf(signals))[i := ResponseValue(signals[i].cfg, m)];
      ghost var received := old(ReceivedOf(signals))[i := now];
      label before:
      SetFromResponse(signals[i], m, now);
      forall j | 0 <= j < |signals|
        ensures signals[j].value == values[j] && signals[j].lastReceived == received[j]
      {
        if j != i {
          assert signals[j].value == old@before(signals[j].value);
          assert signals[j].lastReceived == old@before(signals[j].lastReceived);
        }
      }
      assert ValuesOf(signals) == values;
      assert ReceivedOf(signals) == received;
    }

    /** The body of the loop at the matching signal. */
    static method SetFromResponse(signal: ModelsSignal, m: Message, now: int)
      modifies signal
      ensures signal.value == ResponseValue(signal.cfg, m) && signal.lastReceived == now
    {
      if signal.cfg.allowNegative {
        signal.value := Reading(m.PayloadSigned(), signal.cfg.factor, signal.cfg.offset);
      } else if signal.cfg.isRaw {
        signal.value := m.PayloadUnsigned() as real;
      } else {
        signal.value := Reading(m.PayloadUnsigned(), signal.cfg.factor, signal.cfg.offset);
      }
      signal.lastReceived := now;
    }

    /** `readUART` for the message `getMessage` returned (None for an empty queue), at clock reading `now`. */
    method ReadUart(message: Option<Message>, now: int)
      requires ModelsDistinct(signals)
      modifies signals, this`guiLog, this`errorLog
      ensures var k := MatchedSignal(ModelsConfigsOf(signals), message);
        ValuesOf(signals) == (if k >= 0 then old(ValuesOf(signals))[k := ResponseValue(signals[k].cfg, message.value)] else old(ValuesOf(signals)))
        && ReceivedOf(signals) == (if k >= 0 then old(ReceivedOf(signals))[k := now] else old(ReceivedOf(signals)))
      ensures guiLog == old(guiLog) + GuiEntriesOf(message)
      ensures errorLog == old(errorLog) + ErrorsOf(message)
    {
      if message.None? {
        return;
      }
      var m := message.value;
      if m.msgType == Response {
        ApplyResponse(m, now);
        guiLog := guiLog + [DataUpdate];
      }
      if m.msgType == StatusMessage {
        if m.index == StatusOk {
          guiLog := guiLog + [RxStatus(McuStatusOk)];
        } else if m.index == StatusReady {
          guiLog := guiLog + [RxStatus(McuStatusReady)];
        } else if m.index == StatusSystemError {
          guiLog := guiLog + [RxStatus(McuStatusSystemError(m.PayloadSigned()))];
        } else if m.index == StatusError {
          guiLog := guiLog + [RxStatus(McuStatusError(m.PayloadSigned()))];
        } else {
          errorLog := errorLog + [UnknownIndexError(m.index)];
          return;
        }
      }
    }

    /** One case of `guiCallback`: the type and index, then the payload `struct` may refuse. */
    static method Prepare(message: UartMessage, index: int, signed: bool, number: real) returns (ok: bool)
      modifies message
      ensures ok == PackNumber(number, signed).Some?
      ensures ok ==> message.View() == Message(WriteRequest, index, PackNumber(number, signed).value, old(message.isValide))
    {
      message.msgType, message.index := WriteRequest, index;
      if signed {
        ok := message.SetPayloadSigned(number);
      } else {
        ok := message.SetPayloadUnsigned(number);
      }
    }

    /**
     * `guiCallback(action, value)`; `commutation` is `CommutationsType[value]`.
     * The message is logged and handed to `send`, which drops it on a closed port.
     */
    method GuiCallback(action: GuiAction, value: real, commutation: real) returns (outcome: CallbackOutcome)
      modifies this`targets, this`guiLog, this`errorLog, uart`written
      ensures outcome == CallbackOutcomeOf(action, value, commutation)
      ensures targets == if outcome.Sent? then Retargeted(old(targets), action, value, commutation) else old(targets)
      ensures guiLog == old(guiLog) + if outcome.Sent? then [TxMessage(outcome.message)] else []
      ensures errorLog == old(errorLog) + if outcome.Ignored? then [UnknownActionError] else []
      ensures uart.written == old(uart.written) + if outcome.Sent? && uart.portOpen then [outcome.message] else []
    {
      var message := new UartMessage(ModelsTables, Response, 0, 0);
      outcome := Dispatch(action, value, commutation, message);
      if !outcome.Sent? {
        return;
      }
      guiLog := guiLog + [TxMessage(message.View())];
      uart.Send(message);
    }

    /** The `match` of `guiCallback`, filling in the freshly built `message`. */
    method Dispatch(action: GuiAction, value: real, commutation: real, message: UartMessage) returns (outcome: CallbackOutcome)
      requires message.isValide
      modifies message, this`targets, this`errorLog
      ensures outcome == CallbackOutcomeOf(action, value, commutation)
      ensures outcome.Sent? ==> message.View() == outcome.message
      ensures targets == if outcome.Sent? then Retargeted(old(targets), action, value, commutation) else old(targets)
      ensures errorLog == old(errorLog) + if outcome.Ignored? then [UnknownActionError] else []
    {
      var ok := true;
      match action {
      case SetPwm =>
        ok := Prepare(message, ValuePwm, false, value);
        if ok { targets := targets.(targetPwm := value); }
      case SetCommutation =>
        ok := Prepare(message, ValueCommutation, false, commutation);
        if ok { targets := targets.(commutation := commutation); }
      case SetStart =>
        ok := Prepare(message, ValueEnable, true, value);
        if ok { targets := targets.(enable := value); }
      case SetControlMode =>
        ok := Prepare(message, ValueControleMethod, false, value);
        if ok { targets := targets.(controleMethod := value); }
      case SetRpm =>
        ok := Prepare(message, ValueRpm, true, value);
        if ok { targets := targets.(targetRpm := value); }
      case SetPValue =>
        ok := Prepare(message, ValuePwmP, true, Milli(value));
        if ok { targets := targets.(pwmP := Milli(value)); }
      case SetIValue =>
        ok := Prepare(message, ValuePwmI, true, Milli(value));
        if ok { targets := targets.(pwmI := Milli(value)); }
      case SetDValue =>
        ok := Prepare(message, ValuePwmD, true, Milli(value));
        if ok { targets := targets.(pwmD := Milli(value)); }
      case OtherAction =>
        errorLog := errorLog + [UnknownActionError];
        return Ignored;
      }
      if !ok {
        return PackFailed;
      }
      outcome := Sent(message.View());
    }
  }
}
