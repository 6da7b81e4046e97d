/**
 * The older signal registry (moduls/models/dataClasses.py), the one the
 * application module is written against.  Its `Signale` has no state
 * machine: the application assigns `value` and `lastReceived` directly.
 * Its catalog has 16 signals (no Remote PWM) and no persistence or
 * retransmission flags.
 */
module ModelsDataClasses {
  import opened UartDefines
  import opened ModelsUartDefines

  /** The dataclass fields of a models `Signale` that nothing assigns after construction. */
  datatype ModelsSignalConfig = ModelsSignalConfig(
    name: string, unite: string, index: int,
    factor: real, offset: real,
    allowNegative: bool, isRaw: bool,
    cycleTime: int, cyclic: bool)

  /** A models `Signale` object: the application writes `value` and `lastReceived`. */
  class ModelsSignal {
    const cfg: ModelsSignalConfig
    var value: real
    var lastReceived: int

    constructor (cfg: ModelsSignalConfig, value: real)
      ensures this.cfg == cfg && this.value == value && lastReceived == 0
    {
      this.cfg := cfg;
      this.value := value;
      lastReceived := 0;
    }

    /** `__eq__`: a signal equals whatever its index equals. */
    predicate Equals(x: int)
    {
      cfg.index == x
    }
  }

  function ModelsConfig(name: string, unite: string, index: int, factor: real, allowNegative: bool,
                        isRaw: bool, cycleTime: int, cyclic: bool): ModelsSignalConfig
  {
    ModelsSignalConfig(name, unite, index, factor, 0.0, allowNegative, isRaw, cycleTime, cyclic)
  }

  /** The indices of the models catalog, in declaration order. */
  const ModelsCatalogIndices: seq<int> := [4, 0, 1, 2, 3, 5, 6, 7, 8, 9, 10, 11, 12, 13, 14, 15]

  /**
   * UARTSignals.__init__ of the older registry: 16 signals in declaration
   * order, which `__iter__` follows.  Every offset is zero.
   */
  function ModelsCatalog(): (c: seq<ModelsSignalConfig>)
    ensures |c| == 16
    ensures forall i :: 0 <= i < |c| ==> c[i].offset == 0.0
  {
    [ ModelsConfig("Bat Voltage", "V", ValueBatVoltage, 0.01, false, false, 30000, true),
      ModelsConfig("Current 0", "A", ValueCurrent0, 0.001, true, false, 1000, true),
      ModelsConfig("Current A", "A", ValueCurrentA, 0.001, true, false, 1000, true),
      ModelsConfig("Current B", "A", ValueCurrentB, 0.001, true, false, 1000, true),
      ModelsConfig("Current C", "A", ValueCurrentC, 0.001, true, false, 1000, true),
      ModelsConfig("Motor Temp", "\U{B0}C", ValueTempMotor, 0.1, false, false, 30000, true),
      ModelsConfig("Inverter Temp", "\U{B0}C", ValueTempInverter, 0.1, false, false, 30000, true),
      ModelsConfig("RPM", "1/min", ValueRpm, 1.0, true, false, 1000, true),
      ModelsConfig("PWM", "%", ValuePwm, 1.0, false, false, 1000, true),
      ModelsConfig("Control Method", "", ValueControleMethod, 1.0, false, true, 1000, false),
      ModelsConfig("Commutation", "", ValueCommutation, 1.0, false, true, 1000, false),
      ModelsConfig("Swish Freq", "Hz", ValueSwishFreq, 1.0, false, true, 1000, false),
      ModelsConfig("Enable", "", ValueEnable, 1.0, false, true, 1000, false),
      ModelsConfig("PWM P", "", ValuePwmP, 1.0, false, false, 1000, false),
      ModelsConfig("PWM I", "", ValuePwmI, 1.0, false, false, 1000, false),
      ModelsConfig("PWM D", "", ValuePwmD, 1.0, false, false, 1000, false) ]
  }

  lemma ModelsCatalogIndexList()
    ensures forall i :: 0 <= i < |ModelsCatalog()| ==> ModelsCatalog()[i].index == ModelsCatalogIndices[i]
  {
    var c := ModelsCatalog();
    assert seq(|c|, i requires 0 <= i < |c| => c[i].index) == ModelsCatalogIndices;
  }

  /** Where parameter index `x` sits in the models catalog: index 4 first, the others in order. */
  function ModelsCatalogPosition(x: int): int
  {
    if x == 4 then 0 else if x < 4 then x + 1 else x
  }

  lemma ModelsCatalogPositionInverts()
    ensures forall i :: 0 <= i < |ModelsCatalogIndices| ==> ModelsCatalogPosition(ModelsCatalogIndices[i]) == i
    ensures forall x :: 0 <= x < 0x10 ==> ModelsCatalogIndices[ModelsCatalogPosition(x)] == x
  {
  }

  /** Every index of the older MSG_INDEX_PARAM (0x00..0x0F) names exactly one signal of the models catalog. */
  lemma {:induction false} ModelsCatalogIndicesAreAPermutation()
    ensures forall i, j :: 0 <= i < j < |ModelsCatalog()| ==> ModelsCatalog()[i].index != ModelsCatalog()[j].index
    ensures forall x :: x in ModelsTables.param <==> exists i :: 0 <= i < |ModelsCatalog()| && ModelsCatalog()[i].index == x
  {
    var c := ModelsCatalog();
    ModelsCatalogIndexList();
    ModelsCatalogPositionInverts();
    forall i, j | 0 <= i < j < |c| ensures c[i].index != c[j].index {
      assert ModelsCatalogPosition(c[i].index) == i && ModelsCatalogPosition(c[j].index) == j;
    }
    forall x | x in ModelsTables.param ensures exists i :: 0 <= i < |c| && c[i].index == x {
      assert c[ModelsCatalogPosition(x)].index == x;
    }
    forall i | 0 <= i < |c| ensures c[i].index in ModelsTables.param {
      assert 0 <= ModelsCatalogIndices[i] < 0x10;
    }
  }

  function ModelsConfigsOf(ss: seq<ModelsSignal>): (r: seq<ModelsSignalConfig>)
    ensures |r| == |ss| && forall i :: 0 <= i < |ss| ==> r[i] == ss[i].cfg
  {
    seq(|ss|, i requires 0 <= i < |ss| => ss[i].cfg)
  }

  /** The values the signals hold. */
  function ValuesOf(ss: seq<ModelsSignal>): (r: seq<real>)
    reads ss
    ensures |r| == |ss| && forall i :: 0 <= i < |ss| ==> r[i] == ss[i].value
  {
    seq(|ss|, i requires 0 <= i < |ss| reads ss => ss[i].value)
  }

  /** When each signal last received a value. */
  function ReceivedOf(ss: seq<ModelsSignal>): (r: seq<int>)
    reads ss
    ensures |r| == |ss| && forall i :: 0 <= i < |ss| ==> r[i] == ss[i].lastReceived
  {
    seq(|ss|, i requires 0 <= i < |ss| reads ss => ss[i].lastReceived)
  }

  ghost predicate ModelsDistinct(ss: seq<ModelsSignal>)
  {
    forall i, j :: 0 <= i < j < |ss| ==> ss[i] != ss[j]
  }

  /** One fresh models `Signale` per configuration, in order, each with value 0. */
  method NewModelsSignals(cfgs: seq<ModelsSignalConfig>) returns (ss: seq<ModelsSignal>)
    ensures ModelsConfigsOf(ss) == cfgs && ModelsDistinct(ss)
    ensures forall i :: 0 <= i < |ss| ==> fresh(ss[i]) && ss[i].value == 0.0 && ss[i].lastReceived == 0
  {
    ss := [];
    var k := 0;
    while k < |cfgs|
      invariant 0 <= k <= |cfgs| && |ss| == k
      invariant forall i :: 0 <= i < k ==> fresh(ss[i]) && ss[i].cfg == cfgs[i]
      invariant forall i :: 0 <= i < k ==> ss[i].value == 0.0 && ss[i].lastReceived == 0
      invariant ModelsDistinct(ss)
    {
      var s := new ModelsSignal(cfgs[k], 0.0);
      ss := ss + [s];
      k := k + 1;
    }
  }
}
