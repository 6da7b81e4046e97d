/**
 * The older copy of the codec (moduls/models/uartDefines.py).  Its classes are
 * the same as those of moduls/uartDefines.py; only the enumerations are
 * smaller: parameters 0x00..0x0F, status codes 0x00, 0x01, 0x3E and 0x3F.
 */
module ModelsUartDefines {
  import opened UartDefines

  const ModelsTables: IndexTables :=
    IndexTables(
      set i: int | 0x00 <= i <= 0x0F,
      {StatusOk, StatusReady, StatusSystemError, StatusError})

  /** Which indices this variant's `decode` accepts, for data and for status messages. */
  lemma {:induction false} ModelsIndexKnown(t: MsgType, index: int)
    ensures t != StatusMessage ==> (IndexKnown(ModelsTables, t, index) <==> 0x00 <= index < 0x10)
    ensures t == StatusMessage ==> (IndexKnown(ModelsTables, t, index) <==> index in {0x00, 0x01, 0x3E, 0x3F})
  {
  }

  /** A data message with index 0x10 or above decodes as invalid, whatever its payload. */
  lemma {:induction false} ModelsRejectsHighParamIndex(prior: Message, data: MessageBytes)
    requires TypeOfId(data[0]) != StatusMessage && IndexOfId(data[0]) >= 0x10
    ensures !DecodeMessage(ModelsTables, prior, data).isValide
    ensures DecodeMessage(ModelsTables, prior, data).index == prior.index
  {
    ModelsIndexKnown(TypeOfId(data[0]), IndexOfId(data[0]));
  }

  /** Round trip for enumeration members of this variant. */
  lemma {:induction false} ModelsRoundTrip(m: Message, prior: Message)
    requires 0 <= m.index < 64
    requires if m.msgType == StatusMessage then m.index in {0x00, 0x01, 0x3E, 0x3F} else m.index < 0x10
    ensures var d := DecodeMessage(ModelsTables, prior, EncodeMessage(m));
      d.msgType == m.msgType && d.index == m.index && d.PayloadSigned() == m.PayloadSigned()
      && d.PayloadUnsigned() == m.PayloadUnsigned() && d.isValide == prior.isValide
  {
    ModelsIndexKnown(m.msgType, m.index);
    MessageRoundTrip(ModelsTables, m, prior);
  }

  /** The older tables are a subset of the main ones: whatever they accept, the main codec accepts too. */
  lemma {:induction false} ModelsTablesWithinMain(t: MsgType, index: int)
    requires IndexKnown(ModelsTables, t, index)
    ensures IndexKnown(MainTables, t, index)
  {
    ModelsIndexKnown(t, index);
  }
}
