/**
 * Message and frame codec of the inverter's serial protocol (moduls/uartDefines.py).
 *
 * A message is three bytes: an id byte `(type << 6) | (index & 0x3F)` and a
 * big-endian 16-bit payload. A frame wraps it in seven bytes:
 * `0x3A | message | XOR of the message bytes | 0x3B | 0x0A`.
 *
 * The repository carries this codec twice, in moduls/uartDefines.py and in
 * moduls/models/uartDefines.py; the two differ only in their index
 * enumerations, so the codec here is written once over an `IndexTables`
 * value and each file contributes its own tables.
 */
module UartDefines {
  import opened Wrappers

  type byte = bv8

  /** MSG_Type: the two high bits of the id byte. */
  datatype MsgType = Response | StatusMessage | WriteRequest | ReadRequest {
    function Value(): (v: nat)
      ensures v < 4
      ensures v == 1 <==> this == StatusMessage
    {
      match this
      case Response => 0
      case StatusMessage => 1
      case WriteRequest => 2
      case ReadRequest => 3
    }
  }

  /** `MSG_Type(v)`: every 2-bit value names a type, so this never fails. */
  function MsgTypeOf(v: nat): (t: MsgType)
    requires v < 4
    ensures t.Value() == v
  {
    if v == 0 then Response
    else if v == 1 then StatusMessage
    else if v == 2 then WriteRequest
    else ReadRequest
  }

  /** The members of MSG_INDEX_PARAM and of MSG_INDEX_STATUS, by value. */
  datatype IndexTables = IndexTables(param: set<int>, status: set<int>)

  // MSG_INDEX_PARAM of moduls/uartDefines.py
  const ValueCurrent0: int := 0x00
  const ValueCurrentA: int := 0x01
  const ValueCurrentB: int := 0x02
  const ValueCurrentC: int := 0x03
  const ValueBatVoltage: int := 0x04
  const ValueTempMotor: int := 0x05
  const ValueTempInverter: int := 0x06
  const ValueRpm: int := 0x07
  const ValuePwm: int := 0x08
  const ValueControleMethod: int := 0x09
  const ValueCommutation: int := 0x0A
  const ValueSwishFreq: int := 0x0B
  const ValueEnable: int := 0x0C
  const ValuePwmP: int := 0x0D
  const ValuePwmI: int := 0x0E
  const ValuePwmD: int := 0x0F
  const ValueRemotePwm: int := 0x10

  // MSG_INDEX_STATUS of moduls/uartDefines.py
  const StatusOk: int := 0x00
  const StatusReady: int := 0x01
  const StatusRemoteReady: int := 0x02
  const StopEmergency: int := 0x10
  const StopOverTemp: int := 0x11
  const StopOverCurrent: int := 0x12
  const StopOverVoltage: int := 0x13
  const StopUnderVoltage: int := 0x14
  const StopSystemError: int := 0x15
  const StatusSystemError: int := 0x3E
  const StatusError: int := 0x3F

  const MainTables: IndexTables :=
    IndexTables(
      set i: int | 0x00 <= i <= 0x10,
      {StatusOk, StatusReady, StatusRemoteReady, StopEmergency, StopOverTemp, StopOverCurrent,
       StopOverVoltage, StopUnderVoltage, StopSystemError, StatusSystemError, StatusError})

  /** Whether `decode` resolves `index` against the enumeration its type selects. */
  predicate IndexKnown(tables: IndexTables, t: MsgType, index: int)
  {
    if t == StatusMessage then index in tables.status else index in tables.param
  }

  // ---------------------------------------------------------------------
  // Payload: `_rawPayload` is `b''` until a setter or `decode` stores two bytes.

  type RawPayload = p: seq<byte> | |p| == 0 || |p| == 2

  /** The byte whose value is `n`, built by counting up from zero. */
  function ToByte(n: nat): (b: byte)
    requires n < 256
    ensures b as int == n
  {
    if n == 0 then 0 else ToByte(n - 1) + 1
  }

  /** getPayloadUnsigned: struct '>H', or 0 for the empty payload. */
  function UnpackUnsigned(p: RawPayload): (v: int)
    ensures 0 <= v < 0x10000
    ensures |p| == 0 ==> v == 0
    ensures |p| == 2 ==> v == (p[0] as int) * 256 + p[1] as int
  {
    if |p| == 0 then 0 else (p[0] as int) * 256 + p[1] as int
  }

  /** getPayloadSigned: struct '>h' reads the same two bytes in two's complement. */
  function UnpackSigned(p: RawPayload): (v: int)
    ensures -0x8000 <= v < 0x8000
    ensures v % 0x10000 == UnpackUnsigned(p)
    ensures |p| == 0 ==> v == 0
  {
    var u := UnpackUnsigned(p);
    if u >= 0x8000 then u - 0x10000 else u
  }

  /** setPayloadUnsigned: struct '>H' raises for a value outside 0..65535 (None here). */
  function PackUnsigned(v: int): (r: Option<RawPayload>)
    ensures r.Some? <==> 0 <= v < 0x10000
    ensures r.Some? ==> |r.value| == 2 && UnpackUnsigned(r.value) == v
  {
    if 0 <= v < 0x10000 then
      Some([ToByte(v / 256), ToByte(v % 256)])
    else None
  }

  /** setPayloadSigned: struct '>h' raises for a value outside -32768..32767. */
  function PackSigned(v: int): (r: Option<RawPayload>)
    ensures r.Some? <==> -0x8000 <= v < 0x8000
    ensures r.Some? ==> |r.value| == 2 && UnpackSigned(r.value) == v
    ensures r.Some? ==> UnpackUnsigned(r.value) == v % 0x10000
  {
    if -0x8000 <= v < 0x8000 then PackUnsigned(v % 0x10000) else None
  }

  /**
   * Python hands the setters an int or a float; struct refuses a float.  The
   * model's numbers are reals, and a whole real stands for a Python int.
   */
  function WholeNumber(x: real): (r: Option<int>)
    ensures r.Some? <==> x == x.Floor as real
    ensures r.Some? ==> r.value as real == x
  {
    if x == x.Floor as real then Some(x.Floor) else None
  }

  function PackNumber(x: real, signed: bool): (r: Option<RawPayload>)
    ensures r.Some? ==> |r.value| == 2 && x == x.Floor as real
    ensures r.Some? && signed ==> UnpackSigned(r.value) as real == x
    ensures r.Some? && !signed ==> UnpackUnsigned(r.value) as real == x
    ensures x == x.Floor as real && (if signed then -0x8000 <= x.Floor < 0x8000 else 0 <= x.Floor < 0x10000) ==> r.Some?
  {
    match WholeNumber(x)
    case None => None
    case Some(n) => if signed then PackSigned(n) else PackUnsigned(n)
  }

  /** struct '2s' packs the empty payload as two zero bytes. */
  function PayloadBytes(p: RawPayload): (b: seq<byte>)
    ensures |b| == 2
    ensures UnpackUnsigned(b) == UnpackUnsigned(p) && UnpackSigned(b) == UnpackSigned(p)
    ensures |p| == 0 ==> b == [0, 0]
  {
    if |p| == 0 then [0, 0] else p
  }

  // ---------------------------------------------------------------------
  // Id byte

  /** `(type << 6) | (index & 0x3F)`; Python's `&` with 0x3F is the remainder mod 64. */
  function IdByte(t: MsgType, index: int): (id: byte)
    ensures id as int == t.Value() * 64 + index % 64
  {
    ToByte(t.Value() * 64 + index % 64)
  }

  /** `MSG_Type(id >> 6)` */
  function TypeOfId(id: byte): (t: MsgType)
    ensures t.Value() == id as int / 64
  {
    MsgTypeOf(id as int / 64)
  }

  /** `id & 0x3F` */
  function IndexOfId(id: byte): (i: int)
    ensures 0 <= i < 64 && i == id as int % 64
  {
    id as int % 64
  }

  lemma {:induction false} IdByteSplits(t: MsgType, index: int)
    ensures TypeOfId(IdByte(t, index)) == t
    ensures IndexOfId(IdByte(t, index)) == index % 64
  {
    var id := IdByte(t, index);
    assert id as int / 64 == t.Value();
    var u := TypeOfId(id);
    assert u.Value() == t.Value();
    match t
    case Response =>
    case StatusMessage =>
    case WriteRequest =>
    case ReadRequest =>
  }

  // ---------------------------------------------------------------------
  // Message values (a snapshot of a UART_Message, as `deepcopy` takes it)

  datatype Message = Message(msgType: MsgType, index: int, rawPayload: RawPayload, isValide: bool) {
    function PayloadSigned(): int { UnpackSigned(rawPayload) }
    function PayloadUnsigned(): int { UnpackUnsigned(rawPayload) }
  }

  type MessageBytes = s: seq<byte> | |s| == 3 witness [0, 0, 0]

  /** UART_Message.encode: the id byte, then the payload high byte first. */
  function EncodeMessage(m: Message): (b: MessageBytes)
    ensures b[0] as int == m.msgType.Value() * 64 + m.index % 64
    ensures (b[1] as int) * 256 + b[2] as int == m.PayloadUnsigned()
    ensures UnpackSigned(b[1..]) == m.PayloadSigned()
  {
    [IdByte(m.msgType, m.index)] + PayloadBytes(m.rawPayload)
  }

  /**
   * UART_Message.decode applied to a message in state `m`.  An index outside
   * the enumeration raises inside the `try`, so `index` keeps its old value
   * and `isValide` is cleared; nothing ever sets `isValide` back.
   */
  function DecodeMessage(tables: IndexTables, m: Message, data: MessageBytes): (r: Message)
    ensures r.msgType == TypeOfId(data[0]) && r.rawPayload == data[1..]
    ensures r.isValide == (m.isValide && IndexKnown(tables, r.msgType, IndexOfId(data[0])))
    ensures r.index == if IndexKnown(tables, r.msgType, IndexOfId(data[0])) then IndexOfId(data[0]) else m.index
  {
    var t := TypeOfId(data[0]);
    var i := IndexOfId(data[0]);
    if IndexKnown(tables, t, i) then Message(t, i, data[1..], m.isValide)
    else Message(t, m.index, data[1..], false)
  }

  /** The message a constructor call `UART_Message(type, index, payload)` builds. */
  function NewMessage(t: MsgType, index: int, payload: int): (m: Message)
    requires -0x8000 <= payload < 0x8000
    ensures m.isValide && m.PayloadSigned() == payload
    ensures payload == 0 ==> m.rawPayload == []
  {
    Message(t, index, if payload == 0 then [] else PackSigned(payload).value, true)
  }

  /**
   * Round trip: decoding what `encode` produced recovers the type, the index
   * and the signed payload when the index belongs to its enumeration, and
   * leaves the validity flag as it was.
   */
  lemma {:induction false} MessageRoundTrip(tables: IndexTables, m: Message, prior: Message)
    requires 0 <= m.index < 64 && IndexKnown(tables, m.msgType, m.index)
    ensures DecodeMessage(tables, prior, EncodeMessage(m)).msgType == m.msgType
    ensures DecodeMessage(tables, prior, EncodeMessage(m)).index == m.index
    ensures DecodeMessage(tables, prior, EncodeMessage(m)).PayloadSigned() == m.PayloadSigned()
    ensures DecodeMessage(tables, prior, EncodeMessage(m)).PayloadUnsigned() == m.PayloadUnsigned()
    ensures DecodeMessage(tables, prior, EncodeMessage(m)).isValide == prior.isValide
  {
    var b := EncodeMessage(m);
    IdByteSplits(m.msgType, m.index);
    assert b[0] == IdByte(m.msgType, m.index);
    var p := PayloadBytes(m.rawPayload);
    assert b[1..] == p;
    var d := DecodeMessage(tables, prior, b);
    assert d.msgType == m.msgType && IndexOfId(b[0]) == m.index;
    assert d.rawPayload == p;
  }

  /** The same round trip for the values a caller passes to `UART_Message(type, index, payload)`. */
  lemma {:induction false} ConstructedRoundTrip(tables: IndexTables, t: MsgType, index: int, payload: int, prior: Message)
    requires 0 <= index < 64 && IndexKnown(tables, t, index)
    requires -0x8000 <= payload < 0x8000
    ensures var d := DecodeMessage(tables, prior, EncodeMessage(NewMessage(t, index, payload)));
      d.msgType == t && d.index == index && d.PayloadSigned() == payload && d.isValide == prior.isValide
  {
    MessageRoundTrip(tables, NewMessage(t, index, payload), prior);
  }

  /** An index outside its enumeration makes `decode` clear the flag for good. */
  lemma {:induction false} DecodeClearsOnUnknownIndex(tables: IndexTables, m: Message, data: MessageBytes)
    requires !IndexKnown(tables, TypeOfId(data[0]), IndexOfId(data[0]))
    ensures !DecodeMessage(tables, m, data).isValide
    ensures forall more: MessageBytes :: !DecodeMessage(tables, DecodeMessage(tables, m, data), more).isValide
  {
  }

  /** A UART_Message object; `decode` and the payload setters change it in place. */
  class UartMessage {
    const tables: IndexTables
    var msgType: MsgType
    var index: int
    var rawPayload: RawPayload
    var isValide: bool

    function View(): Message
      reads this
    {
      Message(msgType, index, rawPayload, isValide)
    }

    /** `UART_Message(type, index, payload)`: a zero payload leaves `b''`. */
    constructor (tables: IndexTables, t: MsgType, index: int, payload: int)
      requires -0x8000 <= payload < 0x8000
      ensures this.tables == tables && View() == NewMessage(t, index, payload)
    {
      this.tables := tables;
      msgType := t;
      this.index := index;
      rawPayload := if payload == 0 then [] else PackSigned(payload).value;
      isValide := true;
    }

    method SetPayloadUnsigned(v: real) returns (ok: bool)
      modifies this
      ensures ok == PackNumber(v, false).Some?
      ensures View() == if ok then old(View()).(rawPayload := PackNumber(v, false).value) else old(View())
    {
      var p := PackNumber(v, false);
      ok := p.Some?;
      if ok {
        rawPayload := p.value;
      }
    }

    method SetPayloadSigned(v: real) returns (ok: bool)
      modifies this
      ensures ok == PackNumber(v, true).Some?
      ensures View() == if ok then old(View()).(rawPayload := PackNumber(v, true).value) else old(View())
    {
      var p := PackNumber(v, true);
      ok := p.Some?;
      if ok {
        rawPayload := p.value;
      }
    }

    method Decode(data: MessageBytes)
      modifies this
      ensures View() == DecodeMessage(tables, old(View()), data)
    {
      var t := TypeOfId(data[0]);
      var i := IndexOfId(data[0]);
      msgType := t;
      rawPayload := data[1..];
      if IndexKnown(tables, t, i) {
        index := i;
      } else {
        isValide := false;
      }
    }

    function Encode(): (b: MessageBytes)
      reads this
      ensures TypeOfId(b[0]) == View().msgType && IndexOfId(b[0]) == View().index % 64
      ensures UnpackUnsigned(b[1..]) == View().PayloadUnsigned() && UnpackSigned(b[1..]) == View().PayloadSigned()
    {
      IdByteSplits(View().msgType, View().index);
      EncodeMessage(View())
    }
  }

  // ---------------------------------------------------------------------
  // Frames

  const StartByte: byte := 0x3A
  const EndByte: byte := 0x3B
  const EolByte: byte := 0x0A
  const FrameSize: nat := 7

  /** The running XOR that `_crc8` computes, folded from the left. */
  function XorAll(s: seq<byte>): byte
  {
    if |s| == 0 then 0 else XorAll(s[..|s| - 1]) ^ s[|s| - 1]
  }

  lemma {:induction false} XorAllOfThree(s: seq<byte>)
    requires |s| == 3
    ensures XorAll(s) == s[0] ^ s[1] ^ s[2]
  {
    assert s[..2][..1] == s[..1];
    assert s[..1][..0] == [];
    assert XorAll(s[..1]) == s[0];
    assert XorAll(s[..2]) == s[0] ^ s[1];
  }

  /** `_crc8`: the accumulator loop over the bytes. */
  method Crc8(data: seq<byte>) returns (crc: byte)
    ensures crc == XorAll(data)
  {
    crc := 0;
    var i := 0;
    while i < |data|
      invariant 0 <= i <= |data|
      invariant crc == XorAll(data[..i])
    {
      assert data[..i + 1][..i] == data[..i];
      crc := crc ^ data[i];
      i := i + 1;
    }
    assert data[..|data|] == data;
  }

  /** What `isValide` checks of a decoded 7-byte window, apart from the message flag. */
  predicate WindowPasses(w: seq<byte>)
    requires |w| == FrameSize
  {
    w[0] == StartByte && w[5] == EndByte && w[4] == XorAll(w[1..4])
  }

  /** The bytes `encode` writes for a frame whose fields were all left at None. */
  function EncodeFrame(raw: MessageBytes): (f: seq<byte>)
    ensures |f| == FrameSize && f[1..4] == raw
    ensures f[0] == StartByte && f[4] == raw[0] ^ raw[1] ^ raw[2] && f[5] == EndByte && f[6] == EolByte
    ensures WindowPasses(f)
  {
    XorAllOfThree(raw);
    [StartByte] + raw + [XorAll(raw), EndByte, EolByte]
  }

  /** Flipping any one bit of the three message bytes or the checksum byte is detected. */
  lemma {:induction false} SingleBitFlipDetected(f: seq<byte>, j: int, k: nat)
    requires |f| == FrameSize && WindowPasses(f)
    requires 1 <= j <= 4 && k < 8
    ensures var g := f[j := f[j] ^ ((1 as bv8) << k)]; |g| == FrameSize && !WindowPasses(g)
  {
    var g := f[j := f[j] ^ ((1 as bv8) << k)];
    XorAllOfThree(f[1..4]);
    XorAllOfThree(g[1..4]);
    assert (1 as bv8) << k != 0;
  }

  /** The checksum's known weakness: the same bit flipped in two message bytes goes unseen. */
  lemma {:induction false} DoubleBitFlipUndetected(f: seq<byte>, mask: byte)
    requires |f| == FrameSize && WindowPasses(f)
    ensures var g := f[1 := f[1] ^ mask][2 := f[2] ^ mask]; |g| == FrameSize && WindowPasses(g)
  {
    var g := f[1 := f[1] ^ mask][2 := f[2] ^ mask];
    XorAllOfThree(f[1..4]);
    XorAllOfThree(g[1..4]);
    assert g[1..4] == [f[1] ^ mask, f[2] ^ mask, f[3]];
    assert (f[1] ^ mask) ^ (f[2] ^ mask) == f[1] ^ f[2];
  }

  /**
   * A UART_Message_Frame object.  `message` is the class attribute
   * `UART_Message()` unless a caller assigns its own, so every frame built
   * without an assignment shares one message object.
   */
  class MessageFrame {
    var startByte: Option<byte>
    var messageRaw: Option<MessageBytes>
    var crc: Option<byte>
    var endByte: Option<byte>
    var eol: Option<byte>
    var newMessage: bool
    var message: UartMessage

    constructor (message: UartMessage)
      ensures this.message == message && !newMessage
      ensures startByte == None && messageRaw == None && crc == None && endByte == None && eol == None
    {
      this.message := message;
      startByte, messageRaw, crc, endByte, eol := None, None, None, None, None;
      newMessage := false;
    }

    /** `decode`: unpack the seven bytes positionally and decode the embedded message. */
    method Decode(data: seq<byte>)
      requires |data| == FrameSize
      modifies this, message
      ensures message == old(message) && newMessage
      ensures startByte == Some(data[0]) && messageRaw == Some(data[1..4]) && crc == Some(data[4])
      ensures endByte == Some(data[5]) && eol == Some(data[6])
      ensures message.View() == DecodeMessage(message.tables, old(message.View()), data[1..4])
    {
      startByte, messageRaw, crc, endByte, eol := Some(data[0]), Some(data[1..4]), Some(data[4]), Some(data[5]), Some(data[6]);
      message.Decode(data[1..4]);
      newMessage := true;
    }

    /** `encode`: fill only the fields that are None, always recompute the checksum. */
    method Encode() returns (b: seq<byte>)
      modifies this
      ensures message == old(message) && newMessage == old(newMessage)
      ensures startByte == Some(if old(startByte).Some? then old(startByte).value else StartByte)
      ensures endByte == Some(if old(endByte).Some? then old(endByte).value else EndByte)
      ensures eol == Some(if old(eol).Some? then old(eol).value else EolByte)
      ensures messageRaw == Some(if old(messageRaw).Some? then old(messageRaw).value else message.Encode())
      ensures crc == Some(XorAll(messageRaw.value))
      ensures b == [startByte.value] + messageRaw.value + [crc.value, endByte.value, eol.value]
      ensures old(startByte) == None && old(endByte) == None && old(eol) == None && old(messageRaw) == None
        ==> b == EncodeFrame(message.Encode())
    {
      var s := if startByte.None? then StartByte else startByte.value;
      var e := if endByte.None? then EndByte else endByte.value;
      var l := if eol.None? then EolByte else eol.value;
      var raw := if messageRaw.None? then message.Encode() else messageRaw.value;
      var c := Crc8(raw);
      startByte, endByte, eol, messageRaw, crc := Some(s), Some(e), Some(l), Some(raw), Some(c);
      b := [s] + raw + [c, e, l];
    }

    /**
     * `isValide`: start and end markers, the checksum over `message_raw`, and
     * the embedded message's flag.  The EOL byte is not looked at.
     */
    method IsValide() returns (ok: bool)
      requires messageRaw.Some?
      ensures ok == (messageRaw.Some? && startByte == Some(StartByte) && endByte == Some(EndByte)
                     && crc == Some(XorAll(messageRaw.value)) && message.isValide)
    {
      var c := Crc8(messageRaw.value);
      ok := startByte == Some(StartByte) && endByte == Some(EndByte) && crc == Some(c) && message.isValide;
    }

    /** `isAvailable`: report a new valid message once. */
    method IsAvailable() returns (ok: bool)
      requires messageRaw.Some?
      modifies this
      ensures ok == (old(newMessage) && messageRaw.Some? && startByte == Some(StartByte) && endByte == Some(EndByte)
                     && crc == Some(XorAll(messageRaw.value)) && message.isValide)
      ensures newMessage == (old(newMessage) && !ok)
      ensures startByte == old(startByte) && messageRaw == old(messageRaw) && crc == old(crc)
      ensures endByte == old(endByte) && eol == old(eol) && message == old(message)
    {
      var valid := IsValide();
      if valid && newMessage {
        newMessage := false;
        ok := true;
      } else {
        ok := false;
      }
    }
  }

  /** After `decode`, `isValide` is exactly the window checks and the message's flag. */
  lemma {:induction false} DecodedFrameValidity(tables: IndexTables, prior: Message, w: seq<byte>)
    requires |w| == FrameSize
    ensures var m := DecodeMessage(tables, prior, w[1..4]);
      (Some(w[0]) == Some(StartByte) && Some(w[5]) == Some(EndByte) && Some(w[4]) == Some(XorAll(w[1..4])) && m.isValide)
      <==> (WindowPasses(w) && prior.isValide && IndexKnown(tables, TypeOfId(w[1]), IndexOfId(w[1])))
  {
  }

  /** Every frame that `encode` builds from a valid message passes `isValide` once decoded. */
  lemma {:induction false} EncodedFrameIsValid(tables: IndexTables, m: Message, prior: Message)
    requires 0 <= m.index < 64 && IndexKnown(tables, m.msgType, m.index) && prior.isValide
    ensures var f := EncodeFrame(EncodeMessage(m));
      WindowPasses(f) && DecodeMessage(tables, prior, f[1..4]).isValide
  {
    var f := EncodeFrame(EncodeMessage(m));
    assert f[1..4] == EncodeMessage(m);
    MessageRoundTrip(tables, m, prior);
  }

  /** CyclicSend: a message with an interval in milliseconds; clocks are in nanoseconds. */
  class CyclicSend {
    const message: Message
    const interval: int
    var lastSend: int

    constructor (message: Message, interval: int)
      ensures this.message == message && this.interval == interval && lastSend == 0
    {
      this.message := message;
      this.interval := interval;
      lastSend := 0;
    }

    /**
     * `isTime`, with its two clock readings passed in: `now` is the one the
     * interval is tested against, `later` the second one, taken after the
     * test, that is stored when the interval has passed.
     */
    method IsTime(now: int, later: int) returns (due: bool)
      modifies this
      ensures due == (now - old(lastSend) >= interval * 1000000)
      ensures lastSend == if due then later else old(lastSend)
    {
      if now - lastSend >= interval * 1000000 {
        lastSend := later;
        due := true;
      } else {
        due := false;
      }
    }
  }
}
