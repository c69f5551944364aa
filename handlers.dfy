/**
 * Message dispatch: `process_message` routes a received tag to a handler, and
 * each handler answers with at most one `write` on the client.
 */
module Handlers {
  import opened Bytes
  import opened Wrappers
  import opened Errors
  import MessageTypes
  import opened Bmp
  import opened Graphics

  /** A narrow `std::string`: every character is one byte. */
  type NarrowString = s: string | forall i :: 0 <= i < |s| ==> s[i] as int < 256

  /** The string's characters reinterpreted as `std::byte`s. */
  function NameBytes(s: NarrowString): (r: seq<byte>)
    ensures |r| == |s|
    ensures forall i :: 0 <= i < |s| ==> r[i] as int == s[i] as int
  {
    seq(|s|, i requires 0 <= i < |s| => s[i] as int as byte)
  }

  /** One call of `TcpClient::write(type, bytes)`. */
  datatype WriteCall = WriteCall(msgType: MessageTypes.MessageType, bytes: seq<byte>)

  /**
   * The client as the handlers use it. The body of `TcpClient::write` is not
   * part of this model, so the client is a sink recording each call in order.
   */
  class Outbox {
    var log: seq<WriteCall>

    constructor ()
      ensures log == []
    {
      log := [];
    }

    method Write(msgType: MessageTypes.MessageType, bytes: seq<byte>)
      modifies this
      ensures log == old(log) + [WriteCall(msgType, bytes)]
    {
      log := log + [WriteCall(msgType, bytes)];
    }
  }

  /** What the collaborators of the handlers yield: the host name lookup and the screen grab. */
  datatype Host = Host(computerName: Result<NarrowString, ErrorCode>, desktop: Desktop)

  predicate HostFits(host: Host)
  {
    DesktopFits(host.desktop)
  }

  /** What handling one message does: the writes made, and an error that escapes, if any. */
  datatype Response = Response(writes: seq<WriteCall>, escaped: Option<ErrorCode>)

  /** Which branch of the switch in `process_message` a tag takes. */
  datatype Route = ToMachineInfo | ToScreenCapture | Unrecognized

  function RouteOf(tag: u16): (r: Route)
    ensures r == ToMachineInfo <==> tag == MessageTypes.ToU16(MessageTypes.MachineInfo)
    ensures r == ToScreenCapture <==> tag == MessageTypes.ToU16(MessageTypes.ScreenCapture)
    ensures r == Unrecognized <==> tag != 1 && tag != 2
  {
    var named := MessageTypes.FromU16(tag);
    if named == Some(MessageTypes.MachineInfo) then ToMachineInfo
    else if named == Some(MessageTypes.ScreenCapture) then ToScreenCapture
    else Unrecognized
  }

  /**
   * `get_machine_info`: the machine name as one MachineInfo write; a failed
   * lookup (a Win32Error) is caught, so nothing is written and nothing escapes.
   */
  function MachineInfoResponse(computerName: Result<NarrowString, ErrorCode>): (r: Response)
    ensures r.escaped.None?
    ensures computerName.Failure? ==> r.writes == []
    ensures computerName.Success? ==>
      |r.writes| == 1 && r.writes[0].msgType == MessageTypes.MachineInfo
      && |r.writes[0].bytes| == |computerName.value|
      && forall i :: 0 <= i < |computerName.value| ==>
           r.writes[0].bytes[i] as int == computerName.value[i] as int
  {
    match computerName
    case Failure(_) => Response([], Option.None)
    case Success(name) => Response([WriteCall(MessageTypes.MachineInfo, NameBytes(name))], Option.None)
  }

  /**
   * `capture_screen`: the BMP bytes of `to_vector` as one ScreenCapture
   * write; the errors of Graphics are not caught, so they escape and nothing
   * is written.
   */
  function ScreenCaptureResponse(d: Desktop): (r: Response)
    requires DesktopFits(d)
    ensures r.escaped.Some? <==> r.writes == []
    ensures r.writes != [] ==>
      && Image(d.bitmapObject, d.scan).Success?
      && r.writes == [WriteCall(MessageTypes.ScreenCapture, Image(d.bitmapObject, d.scan).value)]
  {
    if d.devices.Some? then Response([], d.devices)
    else if d.capture.Some? then Response([], d.capture)
    else
      match Image(d.bitmapObject, d.scan)
      case Failure(e) => Response([], Some(e))
      case Success(bytes) => Response([WriteCall(MessageTypes.ScreenCapture, bytes)], Option.None)
  }

  /** `process_message`; the received payload plays no part. */
  function Respond(tag: u16, host: Host): (r: Response)
    requires HostFits(host)
    ensures |r.writes| <= 1
    ensures r.escaped.Some? ==> r.writes == []
  {
    match RouteOf(tag)
    case ToMachineInfo => MachineInfoResponse(host.computerName)
    case ToScreenCapture => ScreenCaptureResponse(host.desktop)
    case Unrecognized => Response([], Option.None)
  }

  /** Each tag runs its own handler and nothing else; any other tag only logs. */
  lemma RespondByTag(tag: u16, host: Host)
    requires HostFits(host)
    ensures tag == 2 ==> Respond(tag, host) == MachineInfoResponse(host.computerName)
    ensures tag == 1 ==> Respond(tag, host) == ScreenCaptureResponse(host.desktop)
    ensures tag != 1 && tag != 2 ==> Respond(tag, host) == Response([], Option.None)
  {
  }

  /** With every collaborator succeeding, a ScreenCapture request is answered with a BMP file. */
  lemma ScreenCaptureSendsBmp(d: Desktop)
    requires DesktopFits(d)
    requires d.devices.None? && d.capture.None? && d.bitmapObject.Success? && d.scan.Success?
    ensures var r := ScreenCaptureResponse(d);
      && r.escaped.None? && |r.writes| == 1
      && var info := CreateBitmapInfo(d.bitmapObject).value;
      && |r.writes[0].bytes| == FileHeaderFor(info).bfSize
      && ParseFileHeader(r.writes[0].bytes[..FILE_HEADER_SIZE]) == FileHeaderFor(info)
      && ParseInfoHeader(r.writes[0].bytes[FILE_HEADER_SIZE..FILE_HEADER_SIZE + INFO_HEADER_SIZE]) == info
  {
    ImageLayout(d.bitmapObject, d.scan);
  }

  /** A failing collaborator of the screen grab: its error escapes and nothing is written. */
  lemma ScreenCaptureFailureEscapes(d: Desktop)
    requires DesktopFits(d)
    requires d.devices.Some? || d.capture.Some? || d.bitmapObject.Failure? || d.scan.Failure?
    ensures ScreenCaptureResponse(d).writes == []
    ensures ScreenCaptureResponse(d).escaped ==
      if d.devices.Some? then d.devices
      else if d.capture.Some? then d.capture
      else if d.bitmapObject.Failure? then Some(d.bitmapObject.error)
      else Some(d.scan.error)
  {
    ImageLayout(d.bitmapObject, d.scan);
  }

  /** `process_message` on the client. */
  method ProcessMessage(client: Outbox, tag: u16, data: seq<byte>, host: Host)
    returns (escaped: Option<ErrorCode>)
    requires HostFits(host)
    modifies client
    ensures client.log == old(client.log) + Respond(tag, host).writes
    ensures escaped == Respond(tag, host).escaped
  {
    var route := RouteOf(tag);
    match route
    case ToMachineInfo =>
      GetMachineInfo(client, host.computerName);
      escaped := Option.None;
    case ToScreenCapture =>
      escaped := CaptureScreen(client, host.desktop);
    case Unrecognized =>
      // only logs "Unrecognized message type received"
      escaped := Option.None;
  }

  /** `get_machine_info` on the client. */
  method GetMachineInfo(client: Outbox, computerName: Result<NarrowString, ErrorCode>)
    modifies client
    ensures client.log == old(client.log) + MachineInfoResponse(computerName).writes
  {
    if computerName.Failure? {
      // logs the error's code and message, then returns
      return;
    }
    var buffer := NameBytes(computerName.value);
    client.Write(MessageTypes.MachineInfo, buffer);
  }

  /** `capture_screen` on the client. */
  method CaptureScreen(client: Outbox, d: Desktop) returns (escaped: Option<ErrorCode>)
    requires DesktopFits(d)
    modifies client
    ensures client.log == old(client.log) + ScreenCaptureResponse(d).writes
    ensures escaped == ScreenCaptureResponse(d).escaped
  {
    if d.devices.Some? {
      return d.devices;
    }
    if d.capture.Some? {
      return d.capture;
    }
    var bitmap := ToVector(d.bitmapObject, d.scan);
    if bitmap.Failure? {
      return Some(bitmap.error);
    }
    client.Write(MessageTypes.ScreenCapture, bitmap.value);
    escaped := Option.None;
  }
}
