/**
 * The transport helper (moduls/uartHelper.py) without its threads and its
 * serial device: one pass of the receiver's frame-extraction loop, one tick
 * of the cyclic scheduler, the message queue, `send` behind a port-open
 * flag, the read-request sweep and `connect`.
 *
 * The serial port is a boolean `portOpen` and the list `written` of the
 * messages whose frames were handed to `ser.write`; clock readings are
 * parameters.
 */
module UartHelper {
  import opened Wrappers
  import opened UartDefines
  import opened DataClasses

  // ---------------------------------------------------------------------
  // Frame extraction

  /** The first start byte at or after position `i`, or -1. */
  function FindStartFrom(buf: seq<byte>, i: nat): (k: int)
    decreases |buf| - i
    ensures k == -1 || i <= k < |buf|
    ensures k >= 0 ==> buf[k] == StartByte
  {
    if i >= |buf| then -1
    else if buf[i] == StartByte then i
    else FindStartFrom(buf, i + 1)
  }

  /** `bytearray.find(0x3A)`: the first start byte, or -1. */
  function FindStart(buf: seq<byte>): (k: int)
    ensures -1 <= k < |buf|
    ensures k >= 0 ==> buf[k] == StartByte
  {
    FindStartFrom(buf, 0)
  }

  lemma {:induction false} FindStartFromIsFirst(buf: seq<byte>, i: nat)
    decreases |buf| - i
    ensures FindStartFrom(buf, i) == -1 <==> forall j :: i <= j < |buf| ==> buf[j] != StartByte
    ensures FindStartFrom(buf, i) >= 0 ==> forall j :: i <= j < FindStartFrom(buf, i) ==> buf[j] != StartByte
  {
    if i < |buf| && buf[i] != StartByte {
      FindStartFromIsFirst(buf, i + 1);
    }
  }

  /** `find` returns the first start byte, and -1 exactly when there is none. */
  lemma FindStartIsFirst(buf: seq<byte>)
    ensures FindStart(buf) == -1 <==> forall j :: 0 <= j < |buf| ==> buf[j] != StartByte
    ensures FindStart(buf) >= 0 ==> forall j :: 0 <= j < FindStart(buf) ==> buf[j] != StartByte
  {
    FindStartFromIsFirst(buf, 0);
  }

  /** The three situations in which the pass stops and keeps its buffer. */
  predicate Stuck(buf: seq<byte>)
  {
    |buf| < FrameSize || FindStart(buf) == -1 || FindStart(buf) + FrameSize > |buf|
  }

  /** `a` is what is left of `b` once some prefix has been dropped. */
  predicate IsSuffix(a: seq<byte>, b: seq<byte>)
  {
    |a| <= |b| && a == b[|b| - |a|..]
  }

  lemma SuffixOfDrop(a: seq<byte>, b: seq<byte>, k: int)
    requires 0 <= k <= |b| && IsSuffix(a, b[k..])
    ensures IsSuffix(a, b)
  {
    assert b[k..][|b[k..]| - |a|..] == b[|b| - |a|..];
  }

  /** What decoding a 7-byte window does to the shared message: its three message bytes are decoded. */
  function DecodeWindow(tables: IndexTables, shared: Message, w: seq<byte>): Message
    requires |w| == FrameSize
  {
    DecodeMessage(tables, shared, w[1..4])
  }

  datatype PassResult = PassResult(rest: seq<byte>, messages: seq<Message>, shared: Message)
  {
    /** This pass with the messages `queued` emitted in front of it. */
    function After(queued: seq<Message>): PassResult
    {
      PassResult(rest, queued + messages, shared)
    }
  }

  lemma AfterAfter(r: PassResult, a: seq<Message>, b: seq<Message>)
    ensures r.After(b).After(a) == r.After(a + b)
  {
    assert a + (b + r.messages) == (a + b) + r.messages;
  }

  /**
   * The inner `while` of `_read_from_port` as written.  One message object,
   * `shared`, decodes every candidate window; a window is accepted when its
   * markers and checksum are right and that object's `isValide` is still set.
   */
  function ScanAsWritten(tables: IndexTables, buf: seq<byte>, shared: Message): (r: PassResult)
    decreases |buf|
    ensures Stuck(r.rest) && |r.rest| <= |buf|
  {
    if Stuck(buf) then PassResult(buf, [], shared)
    else
      var s := FindStart(buf);
      var w := buf[s..s + FrameSize];
      var m := DecodeWindow(tables, shared, w);
      if WindowPasses(w) && m.isValide then
        var r := ScanAsWritten(tables, buf[s + FrameSize..], m);
        PassResult(r.rest, [m] + r.messages, r.shared)
      else
        ScanAsWritten(tables, buf[s + 1..], m)
  }

  /** What a window carries when it is accepted on its own merits. */
  predicate WindowAccepted(tables: IndexTables, w: seq<byte>)
    requires |w| == FrameSize
  {
    WindowPasses(w) && IndexKnown(tables, TypeOfId(w[1]), IndexOfId(w[1]))
  }

  function WindowMessage(w: seq<byte>): (m: Message)
    requires |w| == FrameSize
  {
    Message(TypeOfId(w[1]), IndexOfId(w[1]), w[2..4], true)
  }

  datatype Scanned = Scanned(rest: seq<byte>, messages: seq<Message>)

  /**
   * The extraction pass as evidently intended: each window is judged by its
   * own markers, checksum and index, whatever earlier windows held.
   */
  function Scan(tables: IndexTables, buf: seq<byte>): (r: Scanned)
    decreases |buf|
    ensures Stuck(r.rest) && |r.rest| <= |buf|
  {
    if Stuck(buf) then Scanned(buf, [])
    else
      var s := FindStart(buf);
      var w := buf[s..s + FrameSize];
      if WindowAccepted(tables, w) then
        var r := Scan(tables, buf[s + FrameSize..]);
        Scanned(r.rest, [WindowMessage(w)] + r.messages)
      else
        Scan(tables, buf[s + 1..])
  }

  /**
   * The as-written pass stops only where the loop does, queues only messages
   * whose flag is set, and never sets the shared flag once it is clear.
   */
  lemma {:induction false} ScanAsWrittenProperties(tables: IndexTables, buf: seq<byte>, shared: Message)
    decreases |buf|
    ensures var r := ScanAsWritten(tables, buf, shared);
      Stuck(r.rest)
      && (forall k :: 0 <= k < |r.messages| ==> r.messages[k].isValide)
      && (r.shared.isValide ==> shared.isValide)
      && (!shared.isValide ==> r.messages == [])
  {
    if !Stuck(buf) {
      var s := FindStart(buf);
      var w := buf[s..s + FrameSize];
      var m := DecodeWindow(tables, shared, w);
      if WindowPasses(w) && m.isValide {
        ScanAsWrittenProperties(tables, buf[s + FrameSize..], m);
      } else {
        ScanAsWrittenProperties(tables, buf[s + 1..], m);
      }
    }
  }

  /** The intended pass stops only where the loop does and delivers only messages with enumerated indices. */
  lemma {:induction false} ScanProperties(tables: IndexTables, buf: seq<byte>)
    decreases |buf|
    ensures var r := Scan(tables, buf);
      Stuck(r.rest)
      && forall k :: 0 <= k < |r.messages| ==> r.messages[k].isValide && IndexKnown(tables, r.messages[k].msgType, r.messages[k].index)
  {
    if !Stuck(buf) {
      var s := FindStart(buf);
      var w := buf[s..s + FrameSize];
      if WindowAccepted(tables, w) {
        ScanProperties(tables, buf[s + FrameSize..]);
      } else {
        ScanProperties(tables, buf[s + 1..]);
      }
    }
  }

  /** One step of the intended pass on a buffer that holds a complete candidate. */
  lemma ScanStep(tables: IndexTables, buf: seq<byte>)
    requires !Stuck(buf)
    ensures var s := FindStart(buf);
      var w := buf[s..s + FrameSize];
      Scan(tables, buf) == if WindowAccepted(tables, w) then
        var r := Scan(tables, buf[s + FrameSize..]); Scanned(r.rest, [WindowMessage(w)] + r.messages)
      else Scan(tables, buf[s + 1..])
  {
  }

  /** Where the loop stops, the as-written pass keeps its buffer and emits nothing. */
  lemma ScanAsWrittenStops(tables: IndexTables, buf: seq<byte>, shared: Message)
    requires Stuck(buf)
    ensures ScanAsWritten(tables, buf, shared) == PassResult(buf, [], shared)
  {
  }

  /** A step of the as-written pass that accepts the window at the first start byte. */
  lemma ScanAsWrittenAccepts(tables: IndexTables, buf: seq<byte>, shared: Message)
    requires !Stuck(buf)
    requires var s := FindStart(buf); var w := buf[s..s + FrameSize];
      WindowPasses(w) && DecodeWindow(tables, shared, w).isValide
    ensures var s := FindStart(buf); var w := buf[s..s + FrameSize];
      var m := DecodeWindow(tables, shared, w);
      var r := ScanAsWritten(tables, buf[s + FrameSize..], m);
      ScanAsWritten(tables, buf, shared) == PassResult(r.rest, [m] + r.messages, r.shared)
  {
  }

  /** A step of the as-written pass that rejects the window and moves one byte past its start. */
  lemma ScanAsWrittenRejects(tables: IndexTables, buf: seq<byte>, shared: Message)
    requires !Stuck(buf)
    requires var s := FindStart(buf); var w := buf[s..s + FrameSize];
      !(WindowPasses(w) && DecodeWindow(tables, shared, w).isValide)
    ensures var s := FindStart(buf); var w := buf[s..s + FrameSize];
      ScanAsWritten(tables, buf, shared) == ScanAsWritten(tables, buf[s + 1..], DecodeWindow(tables, shared, w))
  {
  }

  /** What a pass leaves behind is the unread end of its buffer. */
  lemma {:induction false} ScanRestIsSuffix(tables: IndexTables, buf: seq<byte>)
    ensures IsSuffix(Scan(tables, buf).rest, buf)
  {
    if !Stuck(buf) {
      var s := FindStart(buf);
      if WindowAccepted(tables, buf[s..s + FrameSize]) {
        ScanRestIsSuffix(tables, buf[s + FrameSize..]);
        SuffixOfDrop(Scan(tables, buf).rest, buf, s + FrameSize);
      } else {
        ScanRestIsSuffix(tables, buf[s + 1..]);
        SuffixOfDrop(Scan(tables, buf).rest, buf, s + 1);
      }
    }
  }

  lemma {:induction false} ScanAsWrittenRestIsSuffix(tables: IndexTables, buf: seq<byte>, shared: Message)
    ensures IsSuffix(ScanAsWritten(tables, buf, shared).rest, buf)
  {
    if !Stuck(buf) {
      var s := FindStart(buf);
      var w := buf[s..s + FrameSize];
      var m := DecodeWindow(tables, shared, w);
      if WindowPasses(w) && m.isValide {
        ScanAsWrittenRestIsSuffix(tables, buf[s + FrameSize..], m);
        SuffixOfDrop(ScanAsWritten(tables, buf, shared).rest, buf, s + FrameSize);
      } else {
        ScanAsWrittenRestIsSuffix(tables, buf[s + 1..], m);
        SuffixOfDrop(ScanAsWritten(tables, buf, shared).rest, buf, s + 1);
      }
    }
  }

  lemma {:induction false} FindStartFromAfterGarbage(g: seq<byte>, b: seq<byte>, i: nat)
    requires i <= |g|
    requires forall j :: i <= j < |g| ==> g[j] != StartByte
    decreases |g| - i
    ensures FindStartFrom(g + b, i) == if FindStart(b) == -1 then -1 else |g| + FindStart(b)
  {
    if i < |g| {
      FindStartFromAfterGarbage(g, b, i + 1);
    } else {
      FindStartFromShifted(g, b, 0);
    }
  }

  lemma {:induction false} FindStartFromShifted(g: seq<byte>, b: seq<byte>, i: nat)
    decreases |b| - i
    ensures FindStartFrom(g + b, |g| + i) == if FindStartFrom(b, i) == -1 then -1 else |g| + FindStartFrom(b, i)
  {
    if i < |b| && b[i] != StartByte {
      FindStartFromShifted(g, b, i + 1);
    }
  }

  /** Bytes without a start byte in front of a buffer only shift where `find` looks. */
  lemma FindStartAfterGarbage(g: seq<byte>, b: seq<byte>)
    requires forall j :: 0 <= j < |g| ==> g[j] != StartByte
    ensures FindStart(g + b) == if FindStart(b) == -1 then -1 else |g| + FindStart(b)
  {
    FindStartFromAfterGarbage(g, b, 0);
  }

  lemma DropPrefix(g: seq<byte>, b: seq<byte>, k: int)
    requires 0 <= k <= |b|
    ensures (g + b)[|g| + k..] == b[k..]
  {
  }

  /** Whatever precedes the first start byte is skipped. */
  lemma ScanFromFirstStart(tables: IndexTables, buf: seq<byte>)
    requires !Stuck(buf)
    ensures Scan(tables, buf) == Scan(tables, buf[FindStart(buf)..])
  {
    var s := FindStart(buf);
    var b := buf[s..];
    assert FindStart(b) == 0;
    assert b[0..FrameSize] == buf[s..s + FrameSize];
    assert b[FrameSize..] == buf[s + FrameSize..];
    assert b[1..] == buf[s + 1..];
    ScanStep(tables, buf);
    ScanStep(tables, b);
  }

  /** Two buffers that agree from their first start byte on are scanned alike. */
  lemma ScanSameFromStart(tables: IndexTables, x: seq<byte>, y: seq<byte>)
    requires !Stuck(x) && !Stuck(y) && x[FindStart(x)..] == y[FindStart(y)..]
    ensures Scan(tables, x) == Scan(tables, y)
  {
    ScanFromFirstStart(tables, x);
    ScanFromFirstStart(tables, y);
  }

  /** Garbage without a start byte in front of a complete candidate costs nothing. */
  lemma {:induction false} ScanSkipsLeadingGarbage(tables: IndexTables, g: seq<byte>, b: seq<byte>)
    requires forall j :: 0 <= j < |g| ==> g[j] != StartByte
    requires !Stuck(b)
    ensures Scan(tables, g + b) == Scan(tables, b)
  {
    FindStartAfterGarbage(g, b);
    var s := FindStart(b);
    assert !Stuck(g + b);
    DropPrefix(g, b, s);
    ScanSameFromStart(tables, g + b, b);
  }

  /** The as-written pass also skips whatever precedes the first start byte. */
  lemma ScanAsWrittenFromFirstStart(tables: IndexTables, buf: seq<byte>, shared: Message)
    requires !Stuck(buf)
    ensures ScanAsWritten(tables, buf, shared) == ScanAsWritten(tables, buf[FindStart(buf)..], shared)
  {
    var s := FindStart(buf);
    var b := buf[s..];
    assert FindStart(b) == 0;
    assert b[0..FrameSize] == buf[s..s + FrameSize];
    assert b[FrameSize..] == buf[s + FrameSize..];
    assert b[1..] == buf[s + 1..];
  }

  /** Two buffers that agree from their first start byte on are scanned alike as written too. */
  lemma ScanAsWrittenSameFromStart(tables: IndexTables, x: seq<byte>, y: seq<byte>, shared: Message)
    requires !Stuck(x) && !Stuck(y) && x[FindStart(x)..] == y[FindStart(y)..]
    ensures ScanAsWritten(tables, x, shared) == ScanAsWritten(tables, y, shared)
  {
    ScanAsWrittenFromFirstStart(tables, x, shared);
    ScanAsWrittenFromFirstStart(tables, y, shared);
  }

  /** Garbage without a start byte in front of a complete candidate costs the as-written pass nothing either. */
  lemma {:induction false} ScanAsWrittenSkipsLeadingGarbage(tables: IndexTables, g: seq<byte>, b: seq<byte>, shared: Message)
    requires forall j :: 0 <= j < |g| ==> g[j] != StartByte
    requires !Stuck(b)
    ensures ScanAsWritten(tables, g + b, shared) == ScanAsWritten(tables, b, shared)
  {
    FindStartAfterGarbage(g, b);
    var s := FindStart(b);
    assert !Stuck(g + b);
    DropPrefix(g, b, s);
    ScanAsWrittenSameFromStart(tables, g + b, b, shared);
  }

  /** A window that fails is given up one byte past its start byte, and nothing is emitted for it. */
  lemma {:induction false} ScanResyncsByOneByte(tables: IndexTables, b: seq<byte>)
    requires !Stuck(b)
    requires !WindowAccepted(tables, b[FindStart(b)..FindStart(b) + FrameSize])
    ensures Scan(tables, b) == Scan(tables, b[FindStart(b) + 1..])
  {
  }

  /** Consecutive encoded frames with enumerated indices come out as their messages, in stream order. */
  function Stream(frames: seq<MessageBytes>): (s: seq<byte>)
    ensures |s| == FrameSize * |frames|
  {
    if |frames| == 0 then [] else EncodeFrame(frames[0]) + Stream(frames[1..])
  }

  function MessageOf(raw: MessageBytes): Message
  {
    Message(TypeOfId(raw[0]), IndexOfId(raw[0]), raw[1..], true)
  }

  /** An encoded frame in front of a buffer comes out first, then whatever the buffer yields. */
  lemma ScanFrameThen(tables: IndexTables, raw: MessageBytes, tail: seq<byte>)
    requires IndexKnown(tables, TypeOfId(raw[0]), IndexOfId(raw[0]))
    ensures var r := Scan(tables, tail);
      Scan(tables, EncodeFrame(raw) + tail) == Scanned(r.rest, [MessageOf(raw)] + r.messages)
  {
    var f := EncodeFrame(raw);
    var b := f + tail;
    assert b[0] == StartByte;
    assert FindStart(b) == 0;
    assert b[0..FrameSize] == f;
    assert b[FrameSize..] == tail;
    assert WindowAccepted(tables, f);
    assert WindowMessage(f) == MessageOf(raw);
    ScanStep(tables, b);
  }

  /** The same for the as-written pass while the shared flag is set; the frame's message becomes the shared one. */
  lemma ScanAsWrittenFrameThen(tables: IndexTables, raw: MessageBytes, tail: seq<byte>, shared: Message)
    requires IndexKnown(tables, TypeOfId(raw[0]), IndexOfId(raw[0])) && shared.isValide
    ensures var r := ScanAsWritten(tables, tail, MessageOf(raw));
      ScanAsWritten(tables, EncodeFrame(raw) + tail, shared) == PassResult(r.rest, [MessageOf(raw)] + r.messages, r.shared)
  {
    var f := EncodeFrame(raw);
    var b := f + tail;
    assert b[0] == StartByte;
    assert FindStart(b) == 0;
    assert b[0..FrameSize] == f;
    assert b[FrameSize..] == tail;
    assert DecodeWindow(tables, shared, f) == MessageOf(raw);
    ScanAsWrittenAccepts(tables, b, shared);
  }

  /** The messages the frames of a stream carry, in order. */
  function MessagesOf(frames: seq<MessageBytes>): (ms: seq<Message>)
    ensures |ms| == |frames| && forall k :: 0 <= k < |frames| ==> ms[k] == MessageOf(frames[k])
  {
    if |frames| == 0 then [] else [MessageOf(frames[0])] + MessagesOf(frames[1..])
  }

  lemma {:induction false} ScanOfStream(tables: IndexTables, frames: seq<MessageBytes>)
    requires forall k :: 0 <= k < |frames| ==> IndexKnown(tables, TypeOfId(frames[k][0]), IndexOfId(frames[k][0]))
    ensures Scan(tables, Stream(frames)) == Scanned([], MessagesOf(frames))
  {
    if |frames| == 0 {
      assert Stuck(Stream(frames));
    } else {
      ScanFrameThen(tables, frames[0], Stream(frames[1..]));
      ScanOfStream(tables, frames[1..]);
    }
  }

  /** The as-written pass agrees on such a stream as long as the shared flag is still set. */
  lemma {:induction false} ScanAsWrittenOfStream(tables: IndexTables, frames: seq<MessageBytes>, shared: Message)
    requires forall k :: 0 <= k < |frames| ==> IndexKnown(tables, TypeOfId(frames[k][0]), IndexOfId(frames[k][0]))
    requires shared.isValide
    ensures ScanAsWritten(tables, Stream(frames), shared).rest == []
    ensures ScanAsWritten(tables, Stream(frames), shared).messages == Scan(tables, Stream(frames)).messages
  {
    if |frames| > 0 {
      ScanFrameThen(tables, frames[0], Stream(frames[1..]));
      ScanAsWrittenFrameThen(tables, frames[0], Stream(frames[1..]), shared);
      ScanAsWrittenOfStream(tables, frames[1..], MessageOf(frames[0]));
    } else {
      assert Stuck(Stream(frames));
    }
  }

  /**
   * One corrupted frame whose body holds no start byte, followed by a good
   * frame: exactly the good frame's message comes out, and no byte is left.
   */
  lemma {:induction false} CorruptedThenValidFrame(tables: IndexTables, bad: seq<byte>, raw: MessageBytes)
    requires |bad| == FrameSize && bad[0] == StartByte && !WindowAccepted(tables, bad)
    requires forall j :: 1 <= j < |bad| ==> bad[j] != StartByte
    requires IndexKnown(tables, TypeOfId(raw[0]), IndexOfId(raw[0]))
    ensures Scan(tables, bad + EncodeFrame(raw)) == Scanned([], [MessageOf(raw)])
  {
    var f := EncodeFrame(raw);
    var b := bad + f;
    assert FindStart(b) == 0;
    assert b[0..FrameSize] == bad;
    ScanResyncsByOneByte(tables, b);
    DropPrefix([bad[0]], bad[1..] + f, 0);
    assert [bad[0]] + (bad[1..] + f) == b;
    assert FindStart(f) == 0;
    ScanSkipsLeadingGarbage(tables, bad[1..], f);
    ScanFrameThen(tables, raw, []);
    assert f + [] == f;
  }

  /**
   * The same as written, while the shared flag is set, for a corrupted frame
   * whose id byte carries an enumerated index (so decoding it keeps the flag):
   * the good frame's message comes out and becomes the shared message.
   */
  lemma {:induction false} CorruptedThenValidFrameAsWritten(tables: IndexTables, bad: seq<byte>, raw: MessageBytes, shared: Message)
    requires |bad| == FrameSize && bad[0] == StartByte && !WindowPasses(bad)
    requires IndexKnown(tables, TypeOfId(bad[1]), IndexOfId(bad[1]))
    requires forall j :: 1 <= j < |bad| ==> bad[j] != StartByte
    requires IndexKnown(tables, TypeOfId(raw[0]), IndexOfId(raw[0]))
    requires shared.isValide
    ensures ScanAsWritten(tables, bad + EncodeFrame(raw), shared) == PassResult([], [MessageOf(raw)], MessageOf(raw))
  {
    var f := EncodeFrame(raw);
    var b := bad + f;
    assert FindStart(b) == 0;
    assert b[0..FrameSize] == bad;
    var m := DecodeWindow(tables, shared, bad);
    assert m.isValide;
    ScanAsWrittenRejects(tables, b, shared);
    assert b[1..] == bad[1..] + f;
    assert FindStart(f) == 0;
    ScanAsWrittenSkipsLeadingGarbage(tables, bad[1..], f, m);
    ScanAsWrittenFrameThen(tables, raw, [], m);
    assert f + [] == f;
  }

  /** The frame of a READ_REQUEST for VALUE_RPM with an empty payload. */
  function RpmReadRequest(): (raw: MessageBytes)
    ensures TypeOfId(raw[0]) == ReadRequest && IndexOfId(raw[0]) == ValueRpm && raw[1..] == [0, 0]
  {
    IdByteSplits(ReadRequest, ValueRpm);
    EncodeMessage(NewMessage(ReadRequest, ValueRpm, 0))
  }

  /**
   * A READ_REQUEST for VALUE_RPM behind one stray byte comes back out, alone
   * and intact, whatever the stray byte is; a stray start byte opens a window
   * that fails its end marker and is given up one byte later.
   */
  lemma {:induction false} StrayByteThenRpmReadRequest(tables: IndexTables, stray: byte)
    requires ValueRpm in tables.param
    ensures Scan(tables, [stray] + EncodeFrame(RpmReadRequest())) == Scanned([], [Message(ReadRequest, ValueRpm, [0, 0], true)])
  {
    var raw := RpmReadRequest();
    var f := EncodeFrame(raw);
    var b := [stray] + f;
    assert FindStart(f) == 0;
    if stray == StartByte {
      assert FindStart(b) == 0;
      assert b[0..FrameSize][5] == f[4] != EndByte;
      ScanResyncsByOneByte(tables, b);
      assert b[1..] == f + [];
    } else {
      ScanSkipsLeadingGarbage(tables, [stray], f);
      assert f == f + [];
    }
    ScanFrameThen(tables, raw, []);
  }

  /** The frame with its start byte given up fails every later window: six bytes are too few. */
  lemma RejectedFrameLeavesTail(tables: IndexTables, raw: MessageBytes, shared: Message)
    requires !shared.isValide
    ensures var f := EncodeFrame(raw);
      ScanAsWritten(tables, f, shared) == PassResult(f[1..], [], DecodeWindow(tables, shared, f))
  {
    var f := EncodeFrame(raw);
    assert FindStart(f) == 0;
    assert f[0..FrameSize] == f;
    ScanAsWrittenRejects(tables, f, shared);
    assert Stuck(f[1..]);
  }

  /**
   * The same as written.  The RPM request comes out exactly when the shared
   * flag is set on entry and the stray byte, if it is a start byte, does not
   * decode (as the id byte 0x3A) to an index outside the tables; otherwise
   * the flag is clear when the real frame is judged, nothing is delivered and
   * its last six bytes stay in the buffer.
   */
  lemma {:induction false} StrayByteThenRpmReadRequestAsWritten(tables: IndexTables, stray: byte, shared: Message)
    requires ValueRpm in tables.param
    ensures var f := EncodeFrame(RpmReadRequest());
      var r := ScanAsWritten(tables, [stray] + f, shared);
      var delivered := shared.isValide && (stray != StartByte || IndexKnown(tables, TypeOfId(StartByte), IndexOfId(StartByte)));
      r.rest == (if delivered then [] else f[1..])
      && r.messages == (if delivered then [Message(ReadRequest, ValueRpm, [0, 0], true)] else [])
  {
    var raw := RpmReadRequest();
    var f := EncodeFrame(raw);
    var b := [stray] + f;
    assert FindStart(f) == 0;
    assert f == f + [];
    var m := shared;
    if stray == StartByte {
      assert FindStart(b) == 0;
      assert b[0..FrameSize][5] == f[4] != EndByte;
      m := DecodeWindow(tables, shared, b[0..FrameSize]);
      assert b[0..FrameSize][1..4] == [StartByte, f[1], f[2]];
      assert m.isValide == (shared.isValide && IndexKnown(tables, TypeOfId(StartByte), IndexOfId(StartByte)));
      ScanAsWrittenRejects(tables, b, shared);
      assert b[1..] == f;
    } else {
      ScanAsWrittenSkipsLeadingGarbage(tables, [stray], f, shared);
    }
    if m.isValide {
      ScanAsWrittenFrameThen(tables, raw, [], m);
      assert MessageOf(raw) == Message(ReadRequest, ValueRpm, [0, 0], true);
    } else {
      RejectedFrameLeavesTail(tables, raw, m);
    }
  }

  /**
   * A second witness of the lost frame: one stray start byte in front of an
   * RPM READ_REQUEST.  The as-written pass decodes the stray byte as the id
   * byte 0x3A, an unknown index, and delivers nothing; the intended pass
   * delivers the request.
   */
  lemma StrayStartBytePoisonsReceiver(tables: IndexTables, shared: Message)
    requires ValueRpm in tables.param && !IndexKnown(tables, TypeOfId(StartByte), IndexOfId(StartByte))
    ensures var buf := [StartByte] + EncodeFrame(RpmReadRequest());
      ScanAsWritten(tables, buf, shared).messages == [] && Scan(tables, buf).messages == [Message(ReadRequest, ValueRpm, [0, 0], true)]
  {
    StrayByteThenRpmReadRequestAsWritten(tables, StartByte, shared);
    StrayByteThenRpmReadRequest(tables, StartByte);
  }

  /**
   * Why the corrupted frame must hold no start byte past its first: a
   * corrupted frame made of a start byte and the first six bytes of an RPM
   * READ_REQUEST frame.  Resyncing by one byte lands on a window that passes
   * (the end-of-line byte is not checked), so an RPM request that was never
   * sent comes out, and the good frame that follows is lost.
   */
  lemma {:induction false} InnerStartByteSpoofsFrame(tables: IndexTables, raw: MessageBytes)
    requires ValueRpm in tables.param
    ensures var bad := [StartByte] + EncodeFrame(RpmReadRequest())[..FrameSize - 1];
      var f := EncodeFrame(raw);
      |bad| == FrameSize && bad[0] == StartByte && !WindowAccepted(tables, bad)
      && Scan(tables, bad + f) == Scanned(f[1..], [Message(ReadRequest, ValueRpm, [0, 0], true)])
  {
    var g := EncodeFrame(RpmReadRequest());
    var bad := [StartByte] + g[..FrameSize - 1];
    var f := EncodeFrame(raw);
    var b := bad + f;
    assert FindStart(b) == 0;
    assert b[0..FrameSize] == bad;
    assert bad[5] == g[4] != EndByte;
    ScanResyncsByOneByte(tables, b);
    var c := b[1..];
    assert c[0..FrameSize] == g[..FrameSize - 1] + [f[0]];
    assert FindStart(c) == 0;
    var w := c[0..FrameSize];
    assert w[1..4] == g[1..4] && w[4] == g[4] && w[5] == g[5];
    assert WindowAccepted(tables, w);
    assert WindowMessage(w) == Message(ReadRequest, ValueRpm, [0, 0], true);
    ScanStep(tables, c);
    assert c[FrameSize..] == f[1..];
    assert Stuck(f[1..]);
  }

  /**
   * The counterexample: seven noise bytes that start with 0x3A and carry the
   * unknown RESPONSE index 0x3F, then a correct frame.  As written the correct
   * frame is lost; the intended pass delivers it.
   */
  lemma {:induction false} NoiseWindowPoisonsReceiver(tables: IndexTables, raw: MessageBytes, shared: Message)
    requires 0x3F !in tables.param
    requires IndexKnown(tables, TypeOfId(raw[0]), IndexOfId(raw[0]))
    requires shared.isValide
    ensures var buf := [StartByte, 0x3F, 0, 0, 0, 0, 0] + EncodeFrame(raw);
      ScanAsWritten(tables, buf, shared).messages == [] && Scan(tables, buf).messages == [MessageOf(raw)]
  {
    var noise: seq<byte> := [StartByte, 0x3F, 0, 0, 0, 0, 0];
    var f := EncodeFrame(raw);
    var buf := noise + f;
    assert FindStart(buf) == 0;
    assert buf[0..FrameSize] == noise;
    var m := DecodeWindow(tables, shared, noise);
    assert TypeOfId(noise[1]) == Response && IndexOfId(noise[1]) == 0x3F;
    assert !m.isValide;
    ScanAsWrittenRejects(tables, buf, shared);
    ScanAsWrittenProperties(tables, buf[1..], m);
    CorruptedThenValidFrame(tables, noise, raw);
  }

  // ---------------------------------------------------------------------
  // Scheduler tick

  /** What one signal does in one tick of `_send_cyclic`. */
  datatype TickOutcome = TickOutcome(state: SignalState, sent: Option<Message>, failed: bool)

  const NsPerMs: int := 1000000

  /**
   * What `setPayloadSigned(signal.getRaw())` stores for a pending write:
   * the raw value as a signed 16-bit payload, or None where `struct` raises
   * (a value that is not whole or does not fit).
   */
  function WritePayload(cfg: SignalConfig, st: SignalState): (p: Option<RawPayload>)
    requires cfg.factor != 0.0 && st.newValue.Some?
    ensures p.Some? ==> |p.value| == 2 && UnpackSigned(p.value) as real == RawOf(cfg, st.newValue.value)
    ensures p.None? <==> !(RawOf(cfg, st.newValue.value) == RawOf(cfg, st.newValue.value).Floor as real
                          && -0x8000 <= RawOf(cfg, st.newValue.value).Floor < 0x8000)
  {
    PackNumber(RawOf(cfg, st.newValue.value), true)
  }

  /** Whether a cyclic signal's period has strictly expired at `now`. */
  predicate Due(cfg: SignalConfig, st: SignalState, now: int)
  {
    cfg.cyclic && st.lastTransmitted + cfg.cycleTime * NsPerMs < now
  }

  /**
   * One signal's turn, given the payload its pending write packs to: a
   * pending write sends a WRITE_REQUEST and clears the write; otherwise a due
   * cyclic signal sends a READ_REQUEST.  A write whose payload cannot be
   * packed ends the tick before anything is changed.
   */
  function TickOne(cfg: SignalConfig, st: SignalState, pay: Option<RawPayload>, now: int): (o: TickOutcome)
    ensures PendingHasValue(st) ==> PendingHasValue(o.state)
  {
    if st.valueWritten then
      if pay.None? then TickOutcome(st, None, true)
      else TickOutcome(st.(valueWritten := false, lastTransmitted := now), Some(Message(WriteRequest, cfg.index, pay.value, true)), false)
    else if Due(cfg, st, now) then
      TickOutcome(st.(lastTransmitted := now), Some(Message(ReadRequest, cfg.index, [], true)), false)
    else
      TickOutcome(st, None, false)
  }

  ghost predicate Schedulable(cfgs: seq<SignalConfig>, sts: seq<SignalState>)
  {
    |cfgs| == |sts| && forall i :: 0 <= i < |cfgs| ==> cfgs[i].factor != 0.0 && PendingHasValue(sts[i])
  }

  /** The payload each signal's pending write packs to, None where there is no pending write. */
  function Payloads(cfgs: seq<SignalConfig>, sts: seq<SignalState>): (ps: seq<Option<RawPayload>>)
    requires Schedulable(cfgs, sts)
    ensures |ps| == |sts|
    ensures forall i :: 0 <= i < |sts| ==> ps[i] == if sts[i].valueWritten then WritePayload(cfgs[i], sts[i]) else None
  {
    seq(|sts|, i requires 0 <= i < |sts| => if sts[i].valueWritten then WritePayload(cfgs[i], sts[i]) else None)
  }

  datatype TickResult = TickResult(states: seq<SignalState>, sent: seq<Option<Message>>, frames: seq<Message>, failed: bool)

  /**
   * The first `n` iterations of `_send_cyclic`'s loop over the table:
   * `sent[i]` is what signal `i` sent, so no signal sends twice.  A failure
   * at signal `k` stops the tick there and leaves signal `k` and every later
   * signal untouched.
   */
  function TickUpTo(cfgs: seq<SignalConfig>, sts: seq<SignalState>, pays: seq<Option<RawPayload>>, now: int, n: nat): (r: TickResult)
    requires |cfgs| == |sts| == |pays| && n <= |cfgs|
    ensures |r.states| == |sts| && |r.sent| <= n
    ensures r.failed <==> |r.sent| < n
    ensures forall j :: |r.sent| <= j < |sts| ==> r.states[j] == sts[j]
  {
    if n == 0 then TickResult(sts, [], [], false)
    else
      var r := TickUpTo(cfgs, sts, pays, now, n - 1);
      if r.failed then r
      else
        var o := TickOne(cfgs[n - 1], sts[n - 1], pays[n - 1], now);
        if o.failed then r.(failed := true)
        else TickResult(r.states[n - 1 := o.state], r.sent + [o.sent], r.frames + FrameOf(o.sent), false)
  }

  /** A whole tick over the table. */
  function TickSpec(cfgs: seq<SignalConfig>, sts: seq<SignalState>, now: int): (r: TickResult)
    requires Schedulable(cfgs, sts)
    ensures |r.states| == |sts| && |r.sent| <= |sts|
    ensures r.failed <==> |r.sent| < |sts|
    ensures forall j :: |r.sent| <= j < |sts| ==> r.states[j] == sts[j]
  {
    TickUpTo(cfgs, sts, Payloads(cfgs, sts), now, |cfgs|)
  }

  /** Once a tick has failed, the later signals change nothing. */
  lemma {:induction false} TickStaysFailed(cfgs: seq<SignalConfig>, sts: seq<SignalState>, pays: seq<Option<RawPayload>>, now: int, n: nat, m: nat)
    requires |cfgs| == |sts| == |pays| && n <= m <= |cfgs|
    requires TickUpTo(cfgs, sts, pays, now, n).failed
    ensures TickUpTo(cfgs, sts, pays, now, m) == TickUpTo(cfgs, sts, pays, now, n)
  {
    if m > n {
      TickStaysFailed(cfgs, sts, pays, now, n, m - 1);
    }
  }

  /** Position `i` after `n` iterations: that signal's own outcome, or the failure that stopped the tick. */
  lemma {:induction false} TickUpToAt(cfgs: seq<SignalConfig>, sts: seq<SignalState>, pays: seq<Option<RawPayload>>, now: int, n: nat, i: int)
    requires |cfgs| == |sts| == |pays| && n <= |cfgs| && 0 <= i < n
    ensures var r := TickUpTo(cfgs, sts, pays, now, n);
      var o := TickOne(cfgs[i], sts[i], pays[i], now);
      (i < |r.sent| ==> !o.failed && r.states[i] == o.state && r.sent[i] == o.sent)
      && (i == |r.sent| ==> o.failed)
  {
    if i < n - 1 {
      TickUpToAt(cfgs, sts, pays, now, n - 1, i);
    }
  }

  /** A pending write is what its signal sends, even when a cyclic read is due: the raw value as a WRITE_REQUEST. */
  lemma {:induction false} WritePreemptsCyclicRead(cfgs: seq<SignalConfig>, sts: seq<SignalState>, now: int, i: int)
    requires Schedulable(cfgs, sts) && 0 <= i < |sts| && sts[i].valueWritten
    requires i < |TickSpec(cfgs, sts, now).sent|
    ensures var r := TickSpec(cfgs, sts, now);
      r.sent[i].Some? && r.sent[i].value.msgType == WriteRequest && r.sent[i].value.index == cfgs[i].index
      && r.sent[i].value.PayloadSigned() as real == RawOf(cfgs[i], sts[i].newValue.value)
      && r.states[i] == sts[i].(valueWritten := false, lastTransmitted := now)
  {
    TickUpToAt(cfgs, sts, Payloads(cfgs, sts), now, |cfgs|, i);
  }

  /** Without a pending write, a signal sends a READ_REQUEST exactly when its period has expired. */
  lemma {:induction false} CyclicReadWhenDue(cfgs: seq<SignalConfig>, sts: seq<SignalState>, now: int, i: int)
    requires Schedulable(cfgs, sts) && 0 <= i < |sts| && !sts[i].valueWritten
    requires i < |TickSpec(cfgs, sts, now).sent|
    ensures var r := TickSpec(cfgs, sts, now);
      (Due(cfgs[i], sts[i], now) ==>
        r.sent[i] == Some(Message(ReadRequest, cfgs[i].index, [], true)) && r.states[i] == sts[i].(lastTransmitted := now))
      && (!Due(cfgs[i], sts[i], now) ==> r.sent[i] == None && r.states[i] == sts[i])
  {
    TickUpToAt(cfgs, sts, Payloads(cfgs, sts), now, |cfgs|, i);
  }

  /**
   * A tick fails exactly at the first signal whose pending write does not
   * pack into a signed 16-bit payload; the signals before it have had their turn.
   */
  lemma {:induction false} TickFailsAtFirstUnpackableWrite(cfgs: seq<SignalConfig>, sts: seq<SignalState>, now: int)
    requires Schedulable(cfgs, sts)
    ensures var r := TickSpec(cfgs, sts, now);
      (r.failed ==> sts[|r.sent|].valueWritten && WritePayload(cfgs[|r.sent|], sts[|r.sent|]).None?)
      && forall j :: 0 <= j < |r.sent| ==> !(sts[j].valueWritten && WritePayload(cfgs[j], sts[j]).None?)
  {
    var pays := Payloads(cfgs, sts);
    var r := TickSpec(cfgs, sts, now);
    if r.failed {
      TickUpToAt(cfgs, sts, pays, now, |cfgs|, |r.sent|);
    }
    forall j | 0 <= j < |r.sent|
      ensures !(sts[j].valueWritten && WritePayload(cfgs[j], sts[j]).None?)
    {
      TickUpToAt(cfgs, sts, pays, now, |cfgs|, j);
    }
  }

  /** The message `send` writes for what one signal sent. */
  function FrameOf(sent: Option<Message>): (f: seq<Message>)
    ensures |f| == if sent.Some? then 1 else 0
  {
    if sent.Some? then [sent.value] else []
  }

  /** What `_updateSignals` sends: a READ_REQUEST with an empty payload per signal, in catalog order. */
  function SweepMessages(cfgs: seq<SignalConfig>): (ms: seq<Message>)
    ensures |ms| == |cfgs|
    ensures forall i :: 0 <= i < |cfgs| ==> ms[i] == Message(ReadRequest, cfgs[i].index, [], true)
  {
    seq(|cfgs|, i requires 0 <= i < |cfgs| => Message(ReadRequest, cfgs[i].index, [], true))
  }

  /**
   * A sweep's effect on the signal states: signal `i`'s `lastTransmitted` is
   * the clock reading `nows[i]` taken just before its request went out, and
   * nothing else changes.
   */
  function Stamped(sts: seq<SignalState>, nows: seq<int>): (r: seq<SignalState>)
    requires |nows| == |sts|
    ensures |r| == |sts| && forall i :: 0 <= i < |sts| ==> r[i] == sts[i].(lastTransmitted := nows[i])
  {
    seq(|sts|, i requires 0 <= i < |sts| => sts[i].(lastTransmitted := nows[i]))
  }

  /** Clock readings taken one after the other with a sleep between them. */
  predicate Ascending(nows: seq<int>)
  {
    forall i, j :: 0 <= i < j < |nows| ==> nows[i] < nows[j]
  }

  /** A later sweep overwrites every stamp of an earlier one: only its own readings remain. */
  lemma {:induction false} LaterSweepOverwrites(sts: seq<SignalState>, first: seq<int>, second: seq<int>)
    requires |first| == |second| == |sts|
    ensures Stamped(Stamped(sts, first), second) == Stamped(sts, second)
  {
    var a := Stamped(Stamped(sts, first), second);
    var b := Stamped(sts, second);
    assert |a| == |b|;
    forall i | 0 <= i < |a| ensures a[i] == b[i] {
      assert Stamped(sts, first)[i] == sts[i].(lastTransmitted := first[i]);
    }
  }

  /** After a sweep, a cyclic signal next falls due one period after its own reading, whatever came before. */
  lemma SweepDefersCyclicRead(cfgs: seq<SignalConfig>, sts: seq<SignalState>, nows: seq<int>, i: int, now: int)
    requires |cfgs| == |sts| == |nows| && 0 <= i < |sts|
    ensures Due(cfgs[i], Stamped(sts, nows)[i], now) <==> cfgs[i].cyclic && nows[i] + cfgs[i].cycleTime * NsPerMs < now
  {
  }

  /**
   * Because the sweep reads the clock once per signal, in catalog order, a
   * signal swept earlier falls due no later than one swept after it with a
   * period at least as long.
   */
  lemma {:induction false} SweepStaggersDeadlines(cfgs: seq<SignalConfig>, sts: seq<SignalState>, nows: seq<int>,
                                                  i: int, j: int, now: int)
    requires |cfgs| == |sts| == |nows| && Ascending(nows) && 0 <= i < j < |sts|
    requires cfgs[i].cyclic && cfgs[i].cycleTime <= cfgs[j].cycleTime
    requires Due(cfgs[j], Stamped(sts, nows)[j], now)
    ensures Due(cfgs[i], Stamped(sts, nows)[i], now)
  {
    var r := Stamped(sts, nows);
    assert r[i].lastTransmitted == nows[i] && r[j].lastTransmitted == nows[j];
    assert nows[i] < nows[j];
    assert cfgs[i].cycleTime * NsPerMs <= cfgs[j].cycleTime * NsPerMs;
  }

  /** One more iteration of the tick, when the previous ones have not failed. */
  lemma TickUpToStep(cfgs: seq<SignalConfig>, sts: seq<SignalState>, pays: seq<Option<RawPayload>>, now: int, n: nat)
    requires |cfgs| == |sts| == |pays| && n < |cfgs|
    requires !TickUpTo(cfgs, sts, pays, now, n).failed
    ensures var r := TickUpTo(cfgs, sts, pays, now, n);
      var o := TickOne(cfgs[n], sts[n], pays[n], now);
      TickUpTo(cfgs, sts, pays, now, n + 1)
      == if o.failed then r.(failed := true) else TickResult(r.states[n := o.state], r.sent + [o.sent], r.frames + FrameOf(o.sent), false)
  {
  }

  /** The UartHelper object, reduced to the state the core touches. */
  class UartHelper {
    const tables: IndexTables
    const signals: seq<Signal>
    /** The class attribute `UART_Message_Frame.message`, shared by every frame that does not get its own. */
    const sharedMessage: UartMessage
    var portOpen: bool
    var messageStack: seq<Message>
    var written: seq<Message>

    ghost predicate Valid()
      reads signals
    {
      TableValid(signals) && sharedMessage.tables == tables
    }

    constructor (uartSignals: UartSignals)
      requires TableValid(uartSignals.signals)
      ensures Valid() && tables == MainTables && signals == uartSignals.signals && fresh(sharedMessage)
      ensures sharedMessage.View() == NewMessage(Response, 0, 0)
      ensures !portOpen && messageStack == [] && written == []
    {
      tables := MainTables;
      signals := uartSignals.signals;
      sharedMessage := new UartMessage(MainTables, Response, 0, 0);
      portOpen := false;
      messageStack := [];
      written := [];
    }

    /** `send`: a no-op on a closed port, else one encoded frame per message. */
    method Send(message: UartMessage)
      modifies this`written
      ensures written == old(written) + if portOpen then [message.View()] else []
    {
      if !portOpen {
        return;
      }
      written := written + [message.View()];
    }

    /** `getMessage`: pop the oldest queued message, or None. */
    method GetMessage() returns (m: Option<Message>)
      modifies this`messageStack
      ensures old(messageStack) == [] ==> m == None && messageStack == []
      ensures old(messageStack) != [] ==> m == Some(old(messageStack)[0]) && messageStack == old(messageStack)[1..]
    {
      if messageStack != [] {
        m := Some(messageStack[0]);
        messageStack := messageStack[1..];
      } else {
        m := None;
      }
    }

    /**
     * One iteration of the inner loop of `_read_from_port`, on a buffer that
     * holds a complete candidate window at its first start byte `s`: what
     * the whole pass will have emitted stays `queued` followed by the pass
     * over what is left.
     */
    method ReadWindow(frame: MessageFrame, rest: seq<byte>, s: int, ghost whole: PassResult,
                      ghost base: seq<Message>, ghost queued: seq<Message>)
      returns (next: seq<byte>, ghost queued': seq<Message>)
      requires frame.message == sharedMessage
      requires !Stuck(rest) && s == FindStart(rest)
      requires whole == ScanAsWritten(sharedMessage.tables, rest, sharedMessage.View()).After(queued)
      requires messageStack == base + queued
      modifies frame, sharedMessage, this`messageStack
      ensures frame.message == sharedMessage && |next| < |rest|
      ensures whole == ScanAsWritten(sharedMessage.tables, next, sharedMessage.View()).After(queued')
      ensures messageStack == base + queued'
    {
      var e := s + FrameSize;
      var w := rest[s..e];
      ghost var cur := sharedMessage.View();
      frame.Decode(w);
      ghost var m := DecodeWindow(sharedMessage.tables, cur, w);
      assert sharedMessage.View() == m;
      var ok := frame.IsValide();
      if ok {
        ScanAsWrittenAccepts(sharedMessage.tables, rest, cur);
        messageStack := messageStack + [sharedMessage.View()];
        next := rest[e..];
        AfterAfter(ScanAsWritten(sharedMessage.tables, next, m), queued, [m]);
        queued' := queued + [m];
      } else {
        ScanAsWrittenRejects(sharedMessage.tables, rest, cur);
        next := rest[s + 1..];
        queued' := queued;
      }
    }

    /**
     * One run of the inner loop of `_read_from_port` over the buffer the
     * thread keeps; messages are queued as copies of the shared message.
     */
    method ReadPass(buffer: seq<byte>) returns (rest: seq<byte>)
      modifies this`messageStack, sharedMessage
      ensures var r := ScanAsWritten(sharedMessage.tables, buffer, old(sharedMessage.View()));
        rest == r.rest && messageStack == old(messageStack) + r.messages && sharedMessage.View() == r.shared
    {
      var frame := new MessageFrame(sharedMessage);
      rest := buffer;
      ghost var queued: seq<Message> := [];
      ghost var whole := ScanAsWritten(sharedMessage.tables, buffer, sharedMessage.View());
      assert whole.After([]) == whole;
      while |rest| >= FrameSize
        invariant frame.message == sharedMessage && fresh(frame)
        invariant messageStack == old(messageStack) + queued
        invariant whole == ScanAsWritten(sharedMessage.tables, rest, sharedMessage.View()).After(queued)
        decreases |rest|
      {
        var s := FindStart(rest);
        if s == -1 || s + FrameSize > |rest| {
          break;
        }
        rest, queued := ReadWindow(frame, rest, s, whole, old(messageStack), queued);
      }
      ScanAsWrittenStops(sharedMessage.tables, rest, sharedMessage.View());
    }

    /** The body of `_send_cyclic`'s loop for one signal. */
    method TickSignal(s: Signal, ghost pay: Option<RawPayload>, now: int) returns (failed: bool)
      requires s.cfg.factor != 0.0 && PendingHasValue(s.State())
      requires pay == if s.valueWritten then WritePayload(s.cfg, s.State()) else None
      modifies s, this`written
      ensures var o := TickOne(s.cfg, old(s.State()), pay, now);
        s.State() == o.state && failed == o.failed
        && written == old(written) + (if portOpen then FrameOf(o.sent) else [])
    {
      failed := false;
      if s.valueWritten {
        var raw := s.GetRaw();
        var msg := new UartMessage(tables, WriteRequest, s.cfg.index, 0);
        var ok := msg.SetPayloadSigned(raw);
        if !ok {
          return true;
        }
        s.valueWritten := false;
        s.lastTransmitted := now;
        Send(msg);
      } else if s.cfg.cyclic && s.lastTransmitted + s.cfg.cycleTime * NsPerMs < now {
        var msg := new UartMessage(tables, ReadRequest, s.cfg.index, 0);
        s.lastTransmitted := now;
        Send(msg);
      }
    }

    /**
     * What holds between iterations of `_send_cyclic`'s loop: the first `i`
     * signals have been ticked as the specification says and the others are
     * untouched.
     */
    ghost predicate TickProgress(now: int, cfgs: seq<SignalConfig>, s0: seq<SignalState>,
                                 pays: seq<Option<RawPayload>>, i: int, acc: TickResult, base: seq<Message>)
      reads this, signals
    {
      0 <= i <= |signals| && cfgs == ConfigsOf(signals) && Schedulable(cfgs, s0) && pays == Payloads(cfgs, s0)
      && acc == TickUpTo(cfgs, s0, pays, now, i)
      && StatesOf(signals) == acc.states && (forall j :: i <= j < |signals| ==> acc.states[j] == s0[j])
      && TableValid(signals) && written == base + (if portOpen then acc.frames else [])
    }

    /** One iteration of `_send_cyclic`'s loop, stated against the tick specification. */
    method TickStep(i: int, now: int, ghost cfgs: seq<SignalConfig>, ghost s0: seq<SignalState>,
                    ghost pays: seq<Option<RawPayload>>, ghost acc: TickResult, ghost base: seq<Message>)
      returns (failed: bool, ghost next: TickResult)
      requires i < |signals| && TickProgress(now, cfgs, s0, pays, i, acc, base) && !acc.failed
      modifies signals[i], this`written
      ensures TickProgress(now, cfgs, s0, pays, i + 1, next, base) && failed == next.failed
    {
      ghost var o := TickOne(cfgs[i], s0[i], pays[i], now);
      ghost var states := acc.states[i := o.state];
      assert acc.states[i] == s0[i];
      label before:
      failed := TickSignal(signals[i], pays[i], now);
      forall j | 0 <= j < |signals|
        ensures signals[j].State() == states[j] && PendingHasValue(signals[j].State())
      {
        if j != i {
          assert signals[j].State() == old@before(signals[j].State());
        }
      }
      TickUpToStep(cfgs, s0, pays, now, i);
      next := if failed then acc.(failed := true)
        else TickResult(states, acc.sent + [o.sent], acc.frames + FrameOf(o.sent), false);
      assert StatesOf(signals) == next.states;
    }

    /** Once every signal has had its turn, or one has failed, the tick is the specified one. */
    lemma TickFinished(now: int, cfgs: seq<SignalConfig>, s0: seq<SignalState>,
                       pays: seq<Option<RawPayload>>, i: int, acc: TickResult, base: seq<Message>)
      requires TickProgress(now, cfgs, s0, pays, i, acc, base) && (i == |signals| || acc.failed)
      ensures var r := TickSpec(cfgs, s0, now);
        StatesOf(signals) == r.states && acc.failed == r.failed
        && written == base + (if portOpen then r.frames else []) && TableValid(signals)
    {
      if acc.failed {
        TickStaysFailed(cfgs, s0, pays, now, i, |cfgs|);
      }
    }

    /** One tick of `_send_cyclic` at clock reading `now`; `failed` is the exception that ends the thread. */
    method SendCyclicTick(now: int) returns (failed: bool)
      requires Valid()
      modifies signals, this`written
      ensures Valid()
      ensures var r := TickSpec(ConfigsOf(signals), old(StatesOf(signals)), now);
        StatesOf(signals) == r.states && failed == r.failed
        && written == old(written) + (if portOpen then r.frames else [])
    {
      ghost var cfgs := ConfigsOf(signals);
      ghost var s0 := StatesOf(signals);
      ghost var pays := Payloads(cfgs, s0);
      ghost var acc := TickUpTo(cfgs, s0, pays, now, 0);
      failed := false;
      var i := 0;
      while i < |signals| && !failed
        invariant TickProgress(now, cfgs, s0, pays, i, acc, old(written)) && failed == acc.failed
      {
        failed, acc := TickStep(i, now, cfgs, s0, pays, acc, old(written));
        i := i + 1;
      }
      TickFinished(now, cfgs, s0, pays, i, acc, old(written));
    }

    /**
     * `_updateSignals`: a READ_REQUEST for every signal, in catalog order, if
     * the port is open; `nows[i]` is the clock reading taken for signal `i`.
     */
    method UpdateSignals(nows: seq<int>)
      requires Distinct(signals) && |nows| == |signals|
      modifies signals, this`written
      ensures StatesOf(signals) == if portOpen then Stamped(old(StatesOf(signals)), nows) else old(StatesOf(signals))
      ensures written == old(written) + if portOpen then SweepMessages(ConfigsOf(signals)) else []
      ensures old(TableValid(signals)) ==> TableValid(signals)
    {
      ghost var s0 := StatesOf(signals);
      if !portOpen {
        assert written == old(written) + [];
        return;
      }
      var i := 0;
      while i < |signals|
        invariant 0 <= i <= |signals|
        invariant forall j :: 0 <= j < |signals| ==> signals[j].State() == if j < i then s0[j].(lastTransmitted := nows[j]) else s0[j]
        invariant written == old(written) + SweepMessages(ConfigsOf(signals))[..i]
      {
        RequestRead(signals[i], nows[i]);
        i := i + 1;
      }
      assert SweepMessages(ConfigsOf(signals))[..i] == SweepMessages(ConfigsOf(signals));
      assert StatesOf(signals) == Stamped(s0, nows);
    }

    /** One iteration of `_updateSignals`' loop: stamp the signal and send a READ_REQUEST for it. */
    method RequestRead(s: Signal, now: int)
      requires portOpen
      modifies s, this`written
      ensures s.State() == old(s.State()).(lastTransmitted := now)
      ensures written == old(written) + [Message(ReadRequest, s.cfg.index, [], true)]
    {
      var msg := new UartMessage(tables, ReadRequest, s.cfg.index, 0);
      s.lastTransmitted := now;
      Send(msg);
    }

    /**
     * The sweeps `connect` makes once the port is open: the extra one at the
     * readings `early` when `updateSignals` is set, then the unconditional
     * one at the readings `nows`, whose stamps are the ones that remain.
     */
    method SweepAfterOpen(updateSignals: bool, early: seq<int>, nows: seq<int>)
      requires Valid() && portOpen && |early| == |signals| && |nows| == |signals|
      modifies signals, this`written
      ensures Valid()
      ensures StatesOf(signals) == Stamped(old(StatesOf(signals)), nows)
      ensures written == old(written) + (if updateSignals then SweepMessages(ConfigsOf(signals)) else []) + SweepMessages(ConfigsOf(signals))
    {
      ghost var s0 := StatesOf(signals);
      ghost var sweep := SweepMessages(ConfigsOf(signals));
      if updateSignals {
        UpdateSignals(early);
        LaterSweepOverwrites(s0, early, nows);
      }
      UpdateSignals(nows);
      assert written == old(written) + (if updateSignals then sweep else []) + sweep;
    }

    /**
     * `connect`: refuse an open port, open it (`opens` is whether the device
     * opened), then sweep once, or twice when `updateSignals` is set; `early`
     * and `nows` are the clock readings of the two sweeps.
     */
    method Connect(opens: bool, updateSignals: bool, early: seq<int>, nows: seq<int>) returns (ok: bool)
      requires Valid() && |early| == |signals| && |nows| == |signals|
      modifies signals, this`written, this`portOpen
      ensures Valid()
      ensures ok == (!old(portOpen) && opens)
      ensures portOpen == (old(portOpen) || opens)
      ensures !ok ==> StatesOf(signals) == old(StatesOf(signals)) && written == old(written)
      ensures ok ==> StatesOf(signals) == Stamped(old(StatesOf(signals)), nows)
      ensures ok ==>
        written == old(written) + (if updateSignals then SweepMessages(ConfigsOf(signals)) else []) + SweepMessages(ConfigsOf(signals))
    {
      if portOpen {
        return false;
      }
      portOpen := opens;
      if !portOpen {
        return false;
      }
      SweepAfterOpen(updateSignals, early, nows);
      ok := true;
    }
  }
}
