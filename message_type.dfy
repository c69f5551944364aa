/** The `MessageType` enumeration, whose underlying type is uint16_t. */
module MessageTypes {
  import opened Bytes
  import Wrappers

  /** The four named enumerators, numbered from 0 in declaration order. */
  datatype MessageType = None | ScreenCapture | MachineInfo | ServerShutdown

  /** The uint16_t value of an enumerator. */
  function ToU16(t: MessageType): (v: u16)
    ensures v <= 3
    ensures t == None <==> v == 0
  {
    match t
    case None => 0
    case ScreenCapture => 1
    case MachineInfo => 2
    case ServerShutdown => 3
  }

  /** None is 0 and the others follow by successive numbering. */
  lemma EnumeratorValues()
    ensures ToU16(None) == 0 && ToU16(ScreenCapture) == 1
    ensures ToU16(MachineInfo) == 2 && ToU16(ServerShutdown) == 3
  {
  }

  /** The enumerator a uint16_t value names, if any: values above 3 name none. */
  function FromU16(v: u16): (t: Wrappers.Option<MessageType>)
    ensures t.Some? <==> v <= 3
    ensures t.Some? ==> ToU16(t.value) == v
  {
    if v == 0 then Wrappers.Some(None)
    else if v == 1 then Wrappers.Some(ScreenCapture)
    else if v == 2 then Wrappers.Some(MachineInfo)
    else if v == 3 then Wrappers.Some(ServerShutdown)
    else Wrappers.None
  }

  /** tag -> uint16_t -> tag is the identity on the named values. */
  lemma ToU16RoundTrip(t: MessageType)
    ensures FromU16(ToU16(t)) == Wrappers.Some(t)
  {
  }

  /** The four enumerators have pairwise distinct values. */
  lemma ToU16Injective(s: MessageType, t: MessageType)
    requires ToU16(s) == ToU16(t)
    ensures s == t
  {
    ToU16RoundTrip(s);
    ToU16RoundTrip(t);
  }
}
