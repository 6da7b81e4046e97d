/**
 * The signal registry (moduls/dataClasses.py): a `Signal` per named value,
 * with fixed scaling and scheduling settings and a small per-signal state
 * machine (`write`, `update`, `retransmit`, `getRaw`), and the fixed catalog
 * of 17 signals in declaration order.
 *
 * Each operation is specified by a function over a `SignalState` snapshot;
 * the methods of `Signal` change the object's fields exactly as that function
 * says.
 */
module DataClasses {
  import opened Wrappers
  import opened UartDefines

  /** The fields of a Signale that no operation changes. */
  datatype SignalConfig = SignalConfig(
    name: string, unite: string, index: int,
    factor: real, offset: real,
    allowNegative: bool, isRaw: bool,
    cycleTime: int, cyclic: bool,
    isPersistent: bool, noRetransmit: bool)

  /** The fields that `write`, `update`, `retransmit` and the scheduler change. */
  datatype SignalState = SignalState(
    value: real, newValue: Option<real>, valueWritten: bool,
    lastReceived: int, lastTransmitted: int)

  const InitialTimes: int := 0

  /** A pending write always has a value to send (`getRaw` would fail on None). */
  predicate PendingHasValue(st: SignalState)
  {
    st.valueWritten ==> st.newValue.Some?
  }

  /** `write(v)`: remember `v` as the pending write if it differs from `value`. */
  function Written(cfg: SignalConfig, st: SignalState, v: real): (r: SignalState)
    ensures v == st.value ==> r == st
    ensures v != st.value ==> r == st.(value := r.value, newValue := Some(v), valueWritten := true)
    ensures v != st.value ==> r.value == if cfg.isPersistent then v else st.value
    ensures PendingHasValue(st) ==> PendingHasValue(r)
  {
    if v != st.value then
      st.(value := if cfg.isPersistent then v else st.value, newValue := Some(v), valueWritten := true)
    else st
  }

  /** The engineering value of a wire value: unscaled for raw signals. */
  function Scaled(cfg: SignalConfig, raw: int): real
  {
    if cfg.isRaw then raw as real else raw as real * cfg.factor + cfg.offset
  }

  /**
   * `update(raw)` at clock reading `now`.  The skip test compares the wire
   * value with the stored engineering value, as the source does.
   */
  function Updated(cfg: SignalConfig, st: SignalState, raw: int, now: int): (r: SignalState)
    ensures r == st.(value := r.value, lastReceived := now)
    ensures r.value != st.value ==> raw as real != st.value && !st.valueWritten && r.value == Scaled(cfg, raw)
    ensures raw as real != st.value && !st.valueWritten ==> r.value == Scaled(cfg, raw)
    ensures PendingHasValue(st) ==> PendingHasValue(r)
  {
    var value := if raw as real != st.value && !st.valueWritten then Scaled(cfg, raw) else st.value;
    st.(value := value, lastReceived := now)
  }

  /** `retransmit`: re-arm the last write unless the signal opts out; `isPersistent` is not consulted. */
  function Retransmitted(cfg: SignalConfig, st: SignalState): (r: SignalState)
    ensures r == st.(valueWritten := r.valueWritten)
    ensures r.valueWritten == (st.valueWritten || (st.newValue.Some? && !cfg.noRetransmit))
    ensures PendingHasValue(st) ==> PendingHasValue(r)
  {
    if st.newValue.Some? && !cfg.noRetransmit then st.(valueWritten := true) else st
  }

  /** Python's `int(x)` on a float: truncation toward zero. */
  function Trunc(x: real): (n: int)
    ensures 0.0 <= x ==> n as real <= x < n as real + 1.0
    ensures x < 0.0 ==> n as real - 1.0 < x <= n as real
  {
    if 0.0 <= x then x.Floor else -((-x).Floor)
  }

  /** `getRaw` of a pending value `nv`: the wire value the scheduler sends. */
  function RawOf(cfg: SignalConfig, nv: real): (r: real)
    requires cfg.factor != 0.0
    ensures cfg.isRaw ==> r == nv
    ensures !cfg.isRaw ==> r == r.Floor as real
    ensures !cfg.isRaw && 0.0 <= (nv - cfg.offset) / cfg.factor ==> 0.0 <= r <= (nv - cfg.offset) / cfg.factor < r + 1.0
    ensures !cfg.isRaw && (nv - cfg.offset) / cfg.factor < 0.0 ==> r - 1.0 < (nv - cfg.offset) / cfg.factor <= r <= 0.0
  {
    if cfg.isRaw then nv else Trunc((nv - cfg.offset) / cfg.factor) as real
  }

  /** `getRaw` undoes the scaling `update` applies, for every wire value. */
  lemma {:induction false} RawOfInvertsScaled(cfg: SignalConfig, raw: int)
    requires cfg.factor != 0.0
    ensures RawOf(cfg, Scaled(cfg, raw)) == raw as real
  {
    if !cfg.isRaw {
      var x := raw as real * cfg.factor + cfg.offset;
      assert x - cfg.offset == raw as real * cfg.factor;
      assert (raw as real * cfg.factor) / cfg.factor == raw as real;
      assert (x - cfg.offset) / cfg.factor == raw as real;
      assert Scaled(cfg, raw) == x;
      assert Trunc(raw as real) == raw;
      assert RawOf(cfg, x) == Trunc((x - cfg.offset) / cfg.factor) as real;
    }
  }

  /** While a write is pending, `update` keeps the value `write` left. */
  lemma {:induction false} PendingWriteWinsOverUpdate(cfg: SignalConfig, st: SignalState, v: real, raw: int, now: int)
    requires v != st.value
    ensures Updated(cfg, Written(cfg, st, v), raw, now).value == Written(cfg, st, v).value
    ensures Updated(cfg, Written(cfg, st, v), raw, now).newValue == Some(v)
  {
  }

  /** Once the pending write is cleared, `update` applies again. */
  lemma {:induction false} UpdateAppliesWhenIdle(cfg: SignalConfig, st: SignalState, raw: int, now: int)
    requires !st.valueWritten && raw as real != st.value
    ensures Updated(cfg, st, raw, now).value == Scaled(cfg, raw)
  {
  }

  /** A signal object: `cfg` holds the dataclass fields no operation changes. */
  class Signal {
    const cfg: SignalConfig
    var value: real
    var newValue: Option<real>
    var valueWritten: bool
    var lastReceived: int
    var lastTransmitted: int

    function State(): SignalState
      reads this
    {
      SignalState(value, newValue, valueWritten, lastReceived, lastTransmitted)
    }

    constructor (cfg: SignalConfig, value: real)
      ensures this.cfg == cfg
      ensures State() == SignalState(value, None, false, InitialTimes, InitialTimes)
    {
      this.cfg := cfg;
      this.value := value;
      newValue := None;
      valueWritten := false;
      lastReceived := InitialTimes;
      lastTransmitted := InitialTimes;
    }

    method Write(v: real)
      modifies this
      ensures State() == Written(cfg, old(State()), v)
    {
      if v != value {
        if cfg.isPersistent {
          value := v;
        }
        newValue := Some(v);
        valueWritten := true;
      }
    }

    method Update(raw: int, now: int)
      modifies this
      ensures State() == Updated(cfg, old(State()), raw, now)
    {
      if raw as real != value && !valueWritten {
        if cfg.isRaw {
          value := raw as real;
        } else {
          value := raw as real * cfg.factor + cfg.offset;
        }
      }
      lastReceived := now;
    }

    method Retransmit()
      modifies this
      ensures State() == Retransmitted(cfg, old(State()))
    {
      if newValue.Some? && !cfg.noRetransmit {
        valueWritten := true;
      }
    }

    /** `getRaw`: the pending value as the device counts it, a whole number unless the signal is raw. */
    function GetRaw(): (r: real)
      reads this
      requires newValue.Some? && cfg.factor != 0.0
      ensures cfg.isRaw ==> r == newValue.value
      ensures !cfg.isRaw ==> r == r.Floor as real
    {
      RawOf(cfg, newValue.value)
    }

    /** `__eq__`: a signal equals whatever its index equals. */
    predicate Equals(x: int)
    {
      cfg.index == x
    }
  }

  function Config(name: string, unite: string, index: int, factor: real,
                  allowNegative: bool, isRaw: bool, cycleTime: int, cyclic: bool,
                  isPersistent: bool, noRetransmit: bool): SignalConfig
  {
    SignalConfig(name, unite, index, factor, 0.0, allowNegative, isRaw, cycleTime, cyclic, isPersistent, noRetransmit)
  }

  /** The indices of the catalog, in declaration order. */
  const CatalogIndices: seq<int> := [4, 0, 1, 2, 3, 5, 6, 7, 8, 9, 10, 11, 12, 13, 14, 15, 16]

  /**
   * UARTSignals.__init__: the 17 signals in declaration order, which is also
   * the order `__iter__` yields them in.  All offsets are zero.
   */
  function Catalog(): (c: seq<SignalConfig>)
    ensures |c| == 17
    ensures forall i :: 0 <= i < |c| ==> c[i].factor != 0.0 && c[i].offset == 0.0
  {
    [ Config("Bat Voltage", "V", ValueBatVoltage, 0.01, false, false, 30000, true, false, true),
      Config("Current 0", "A", ValueCurrent0, 0.001, true, false, 1000, true, false, false),
      Config("Current A", "A", ValueCurrentA, 0.001, true, false, 1000, true, false, false),
      Config("Current B", "A", ValueCurrentB, 0.001, true, false, 1000, true, false, false),
      Config("Current C", "A", ValueCurrentC, 0.001, true, false, 1000, true, false, false),
      Config("Motor Temp", "\U{B0}C", ValueTempMotor, 0.1, false, false, 30000, true, false, true),
      Config("Inverter Temp", "\U{B0}C", ValueTempInverter, 0.1, false, false, 30000, true, true, false),
      Config("RPM", "1/min", ValueRpm, 1.0, false, false, 500, true, false, false),
      Config("PWM", "%", ValuePwm, 1.0, false, false, 500, true, false, false),
      Config("Control Method", "", ValueControleMethod, 1.0, false, true, 10000, false, true, false),
      Config("Commutation", "", ValueCommutation, 1.0, false, true, 1000, false, true, false),
      Config("Swish Freq", "Hz", ValueSwishFreq, 1.0, false, true, 1000, false, true, false),
      Config("Enable", "", ValueEnable, 1.0, false, true, 1000, false, true, true),
      Config("PWM P", "", ValuePwmP, 0.001, false, false, 1000, false, true, false),
      Config("PWM I", "", ValuePwmI, 0.001, false, false, 1000, false, true, false),
      Config("PWM D", "", ValuePwmD, 0.001, false, false, 1000, false, true, false),
      Config("Remote PWM", "%", ValueRemotePwm, 1.0, true, false, 1000, true, true, true) ]
  }

  /** The catalog's indices, in declaration order. */
  lemma CatalogIndexList()
    ensures forall i :: 0 <= i < |Catalog()| ==> Catalog()[i].index == CatalogIndices[i]
  {
    var c := Catalog();
    assert seq(|c|, i requires 0 <= i < |c| => c[i].index) == CatalogIndices;
  }

  /** Where parameter index `x` sits in the catalog: index 4 comes first, the others in order. */
  function CatalogPosition(x: int): int
  {
    if x == 4 then 0 else if x < 4 then x + 1 else x
  }

  /** `CatalogPosition` inverts `CatalogIndices` in both directions. */
  lemma CatalogPositionInverts()
    ensures forall i :: 0 <= i < |CatalogIndices| ==> CatalogPosition(CatalogIndices[i]) == i
    ensures forall x :: 0 <= x <= 0x10 ==> CatalogIndices[CatalogPosition(x)] == x
  {
  }

  /** Every parameter index 0x00..0x10 names exactly one catalog signal. */
  lemma {:induction false} CatalogIndicesAreAPermutation()
    ensures forall i, j :: 0 <= i < j < |Catalog()| ==> Catalog()[i].index != Catalog()[j].index
    ensures forall x :: x in MainTables.param <==> exists i :: 0 <= i < |Catalog()| && Catalog()[i].index == x
  {
    var c := Catalog();
    CatalogIndexList();
    CatalogPositionInverts();
    forall i, j | 0 <= i < j < |c| ensures c[i].index != c[j].index {
      assert CatalogPosition(c[i].index) == i && CatalogPosition(c[j].index) == j;
    }
    forall x | x in MainTables.param ensures exists i :: 0 <= i < |c| && c[i].index == x {
      assert c[CatalogPosition(x)].index == x;
    }
    forall i | 0 <= i < |c| ensures c[i].index in MainTables.param {
      assert 0 <= CatalogIndices[i] <= 0x10;
    }
  }

  /** Iteration order: Bat Voltage first, Remote PWM last. */
  lemma CatalogEnds()
    ensures Catalog()[0].name == "Bat Voltage" && Catalog()[16].name == "Remote PWM"
  {
  }

  /** Which signals opt out of `retransmit`: Bat Voltage, Motor Temp, Enable and Remote PWM. */
  lemma {:induction false} CatalogNoRetransmit()
    ensures forall i :: 0 <= i < |Catalog()| ==>
      (Catalog()[i].noRetransmit <==> Catalog()[i].name in {"Bat Voltage", "Motor Temp", "Enable", "Remote PWM"})
  {
    var c := Catalog();
    forall i | 0 <= i < |c|
      ensures c[i].noRetransmit <==> c[i].name in {"Bat Voltage", "Motor Temp", "Enable", "Remote PWM"}
    {
      assert c[i].noRetransmit <==> i in {0, 5, 12, 16};
    }
  }

  /** Distinct objects: updating one signal never touches another. */
  ghost predicate Distinct(ss: seq<Signal>)
  {
    forall i, j :: 0 <= i < j < |ss| ==> ss[i] != ss[j]
  }

  function ConfigsOf(ss: seq<Signal>): (r: seq<SignalConfig>)
    ensures |r| == |ss| && forall i :: 0 <= i < |ss| ==> r[i] == ss[i].cfg
  {
    seq(|ss|, i requires 0 <= i < |ss| => ss[i].cfg)
  }

  function StatesOf(ss: seq<Signal>): (r: seq<SignalState>)
    reads ss
    ensures |r| == |ss| && forall i :: 0 <= i < |ss| ==> r[i] == ss[i].State()
  {
    seq(|ss|, i requires 0 <= i < |ss| reads ss => ss[i].State())
  }

  /** What the scheduler relies on: distinct objects, non-zero factors, pending writes with values. */
  ghost predicate TableValid(ss: seq<Signal>)
    reads ss
  {
    Distinct(ss) && forall i :: 0 <= i < |ss| ==> ss[i].cfg.factor != 0.0 && PendingHasValue(ss[i].State())
  }

  /** One fresh `Signale` per configuration, in order, each with value 0 and nothing pending. */
  method NewSignals(cfgs: seq<SignalConfig>) returns (ss: seq<Signal>)
    ensures ConfigsOf(ss) == cfgs && Distinct(ss)
    ensures forall i :: 0 <= i < |ss| ==> fresh(ss[i])
    ensures forall i :: 0 <= i < |ss| ==> ss[i].State() == SignalState(0.0, None, false, InitialTimes, InitialTimes)
  {
    ss := [];
    var k := 0;
    while k < |cfgs|
      invariant 0 <= k <= |cfgs| && |ss| == k
      invariant forall i :: 0 <= i < k ==> fresh(ss[i]) && ss[i].cfg == cfgs[i]
      invariant forall i :: 0 <= i < k ==> ss[i].State() == SignalState(0.0, None, false, InitialTimes, InitialTimes)
      invariant Distinct(ss)
    {
      var s := new Signal(cfgs[k], 0.0);
      ss := ss + [s];
      k := k + 1;
    }
  }

  /** The UARTSignals object. */
  class UartSignals {
    const signals: seq<Signal>

    constructor ()
      ensures ConfigsOf(signals) == Catalog()
      ensures forall i :: 0 <= i < |signals| ==> fresh(signals[i])
      ensures forall i :: 0 <= i < |signals| ==> signals[i].State() == SignalState(0.0, None, false, InitialTimes, InitialTimes)
      ensures TableValid(signals)
    {
      var ss := NewSignals(Catalog());
      signals := ss;
    }
  }
}
