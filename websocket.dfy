/**
 * The framed web-socket session (`kvm_ws`, src/websocket.rs): every frame the
 * hub delivers goes to the client as one binary message, and every inbound
 * binary message is routed by its first byte, 0x01 to the keyboard and 0x02 to
 * the mouse, with the tag stripped. HID errors are only logged.
 */
module WebSocket {
  import opened Bytes
  import opened Hid
  import opened Sessions

  const KeyboardTag: byte := 0x01
  const MouseTag: byte := 0x02

  datatype Message = Text(text: string) | Binary(data: seq<byte>) | Ping(payload: seq<byte>) | Pong(payload: seq<byte>) | Close

  /** The inbound routing of one binary message. */
  function Route(data: seq<byte>): (c: HidCall)
    ensures c.KeyboardCall? <==> |data| > 0 && data[0] == KeyboardTag
    ensures c.MouseCall? <==> |data| > 0 && data[0] == MouseTag
    ensures c != NoCall ==> c.report == data[1..]
  {
    if data == [] then NoCall
    else if data[0] == KeyboardTag then KeyboardCall(data[1..])
    else if data[0] == MouseTag then MouseCall(data[1..])
    else NoCall
  }

  /** How a client frames a HID report for this endpoint: the tag of its sink, then the report. */
  function Frame(call: HidCall): (data: seq<byte>)
    requires call != NoCall
    ensures |data| == 1 + |call.report| && data[1..] == call.report
  {
    [if call.KeyboardCall? then KeyboardTag else MouseTag] + call.report
  }

  /** Routing undoes framing: the payload reaches its sink unchanged. */
  lemma RouteFrame(call: HidCall)
    requires call != NoCall
    ensures Route(Frame(call)) == call
  {
  }

  /** What one turn of the `select!` loop in `kvm_ws` sees. */
  datatype WsEvent =
    | FrameReady(frame: seq<byte>, sendSucceeds: bool) // the hub delivered a frame; whether sending it succeeds
    | HubError                                           // `rx.recv()` failed: channel closed or this receiver lagged
    | Received(message: Message)                         // `socket.recv()` returned a message
    | StreamEnd                                          // `socket.recv()` returned None
    | ReceiveError                                       // `socket.recv()` returned an error

  /** The events after which the loop breaks. */
  predicate EndsSession(e: WsEvent)
  {
    match e
    case FrameReady(_, ok) => !ok
    case HubError => true
    case Received(m) => m.Close?
    case StreamEnd => true
    case ReceiveError => true
  }

  /** The HID call an event leads to. */
  function CallFor(e: WsEvent): HidCall
  {
    if e.Received? && e.message.Binary? then Route(e.message.data) else NoCall
  }

  /** A turn and a session of this loop: what is written to the client is a sequence of binary messages. */
  type WsTurn = Turn<seq<byte>>
  type WsSession = Session<seq<byte>>

  function WsStep(files: DeviceFiles, keyboardDevice: string, mouseDevice: string, e: WsEvent): (t: WsTurn)
    ensures t.continues <==> !EndsSession(e)
    ensures t.files == ApplyCall(files, keyboardDevice, mouseDevice, CallFor(e))
    ensures t.sent == if e.FrameReady? && e.sendSucceeds then [e.frame] else []
  {
    match e
    case FrameReady(frame, ok) =>
      if ok then Turn(true, [frame], files) else Turn(false, [], files)
    case HubError => Turn(false, [], files)
    case Received(message) =>
      (match message
       case Binary(data) => Turn(true, [], ApplyCall(files, keyboardDevice, mouseDevice, Route(data)))
       case Close => Turn(false, [], files)
       case _ => Turn(true, [], files))
    case StreamEnd => Turn(false, [], files)
    case ReceiveError => Turn(false, [], files)
  }

  /**
   * A binary message tagged 0x01 whose payload is a full report makes exactly
   * one keyboard write, of the payload untouched, and nothing else; the session
   * goes on. If the keyboard device is absent nothing is written and the
   * session still goes on.
   */
  lemma KeyboardMessage(files: DeviceFiles, keyboardDevice: string, mouseDevice: string, data: seq<byte>)
    requires |data| >= 1 + KeyboardReportMin && data[0] == KeyboardTag
    requires keyboardDevice != mouseDevice
    ensures var t := WsStep(files, keyboardDevice, mouseDevice, Received(Binary(data)));
      && t.continues && t.sent == []
      && Log(t.files, mouseDevice) == Log(files, mouseDevice)
      && (keyboardDevice in files ==> Log(t.files, keyboardDevice) == Log(files, keyboardDevice) + [data[1..]])
      && (keyboardDevice !in files ==> t.files == files)
  {
    WriteAppendsWholeReport(files, keyboardDevice, mouseDevice, data[1..], KeyboardReportMin);
  }

  /** The same for tag 0x02 and the mouse. */
  lemma MouseMessage(files: DeviceFiles, keyboardDevice: string, mouseDevice: string, data: seq<byte>)
    requires |data| >= 1 + MouseReportMin && data[0] == MouseTag
    requires keyboardDevice != mouseDevice
    ensures var t := WsStep(files, keyboardDevice, mouseDevice, Received(Binary(data)));
      && t.continues && t.sent == []
      && Log(t.files, keyboardDevice) == Log(files, keyboardDevice)
      && (mouseDevice in files ==> Log(t.files, mouseDevice) == Log(files, mouseDevice) + [data[1..]])
      && (mouseDevice !in files ==> t.files == files)
  {
    WriteAppendsWholeReport(files, mouseDevice, keyboardDevice, data[1..], MouseReportMin);
  }

  /**
   * An empty binary message, an unknown tag, or a payload too short for its
   * sink changes no device file, and the session goes on.
   */
  lemma IgnoredMessage(files: DeviceFiles, keyboardDevice: string, mouseDevice: string, data: seq<byte>)
    requires || data == []
             || data[0] !in {KeyboardTag, MouseTag}
             || (data[0] == KeyboardTag && |data| < 1 + KeyboardReportMin)
             || (data[0] == MouseTag && |data| < 1 + MouseReportMin)
    ensures WsStep(files, keyboardDevice, mouseDevice, Received(Binary(data))) == Turn(true, [], files)
  {
  }

  /** The 9-byte message `[0x01, 0x00, 0x00, 0x04, 0, 0, 0, 0, 0]` writes the key report for 'a' to the keyboard once. */
  lemma KeyboardExample(files: DeviceFiles, keyboardDevice: string, mouseDevice: string)
    requires keyboardDevice in files && keyboardDevice != mouseDevice
    ensures var t := WsStep(files, keyboardDevice, mouseDevice, Received(Binary([0x01, 0x00, 0x00, 0x04, 0x00, 0x00, 0x00, 0x00, 0x00])));
      && Log(t.files, keyboardDevice) == Log(files, keyboardDevice) + [[0x00, 0x00, 0x04, 0x00, 0x00, 0x00, 0x00, 0x00]]
      && Log(t.files, mouseDevice) == Log(files, mouseDevice)
  {
    var data: seq<byte> := [0x01, 0x00, 0x00, 0x04, 0x00, 0x00, 0x00, 0x00, 0x00];
    assert data[1..] == [0x00, 0x00, 0x04, 0x00, 0x00, 0x00, 0x00, 0x00];
    KeyboardMessage(files, keyboardDevice, mouseDevice, data);
  }

  function WsRun(files: DeviceFiles, keyboardDevice: string, mouseDevice: string, events: seq<WsEvent>): (s: WsSession)
    ensures s.handled <= |events|
    decreases |events|
  {
    if events == [] then Session([], 0, files)
    else
      var t := WsStep(files, keyboardDevice, mouseDevice, events[0]);
      if !t.continues then Session(t.sent, 1, t.files)
      else
        var rest := WsRun(t.files, keyboardDevice, mouseDevice, events[1..]);
        Session(t.sent + rest.sent, 1 + rest.handled, rest.files)
  }

  /** The frames delivered and sent among some events, in order. */
  function FramesSent(events: seq<WsEvent>): seq<seq<byte>>
  {
    if events == [] then []
    else
      (if events[0].FrameReady? && events[0].sendSucceeds then [events[0].frame] else [])
      + FramesSent(events[1..])
  }

  /** The reports that reach the keyboard among some events (payloads of 0x01 messages of at least 8 bytes). */
  function KeyboardReports(events: seq<WsEvent>): seq<seq<byte>>
  {
    if events == [] then []
    else
      var c := CallFor(events[0]);
      (if c.KeyboardCall? && |c.report| >= KeyboardReportMin then [c.report] else [])
      + KeyboardReports(events[1..])
  }

  /** The reports that reach the mouse among some events (payloads of 0x02 messages of at least 4 bytes). */
  function MouseReports(events: seq<WsEvent>): seq<seq<byte>>
  {
    if events == [] then []
    else
      var c := CallFor(events[0]);
      (if c.MouseCall? && |c.report| >= MouseReportMin then [c.report] else [])
      + MouseReports(events[1..])
  }

  /**
   * The session handles events up to and including the first that ends it
   * (all of them if none does); it sends exactly the frames delivered among
   * those, each as one message with the same bytes.
   */
  lemma {:induction false} WsRunEndsAtFirstEnd(files: DeviceFiles, keyboardDevice: string, mouseDevice: string, events: seq<WsEvent>)
    ensures var s := WsRun(files, keyboardDevice, mouseDevice, events);
      && (forall i :: 0 <= i < s.handled - 1 ==> !EndsSession(events[i]))
      && (s.handled < |events| ==> 0 < s.handled && EndsSession(events[s.handled - 1]))
      && (events != [] ==> 0 < s.handled)
      && s.sent == FramesSent(events[..s.handled])
    decreases |events|
  {
    if events != [] {
      var t := WsStep(files, keyboardDevice, mouseDevice, events[0]);
      var s := WsRun(files, keyboardDevice, mouseDevice, events);
      if !t.continues {
        assert events[..1] == [events[0]] && events[..1][1..] == [];
      } else {
        WsRunEndsAtFirstEnd(t.files, keyboardDevice, mouseDevice, events[1..]);
        var rest := WsRun(t.files, keyboardDevice, mouseDevice, events[1..]);
        assert events[..s.handled][1..] == events[1..][..rest.handled];
      }
    }
  }

  /** One turn appends to each device exactly the reports the event carries for it. */
  lemma StepWrites(files: DeviceFiles, keyboardDevice: string, mouseDevice: string, e: WsEvent)
    requires keyboardDevice in files && mouseDevice in files && keyboardDevice != mouseDevice
    ensures var t := WsStep(files, keyboardDevice, mouseDevice, e);
      && t.files[keyboardDevice] == files[keyboardDevice] + KeyboardReports([e])
      && t.files[mouseDevice] == files[mouseDevice] + MouseReports([e])
  {
    assert [e][1..] == [];
  }

  /** The reports among the first n events are those of the first event, then those among the next n - 1. */
  lemma ReportsOfPrefix(events: seq<WsEvent>, n: nat)
    requires 0 < n <= |events|
    ensures KeyboardReports(events[..n]) == KeyboardReports([events[0]]) + KeyboardReports(events[1..][..n - 1])
    ensures MouseReports(events[..n]) == MouseReports([events[0]]) + MouseReports(events[1..][..n - 1])
  {
    assert events[..n][0] == events[0] && events[..n][1..] == events[1..][..n - 1];
    assert [events[0]][1..] == [];
  }

  /**
   * With both devices present and distinct, over a whole session the keyboard
   * receives exactly the tagged keyboard reports among the handled events, in
   * order and untruncated, and the mouse exactly the tagged mouse reports.
   */
  lemma {:induction false} WsRunWrites(files: DeviceFiles, keyboardDevice: string, mouseDevice: string, events: seq<WsEvent>)
    requires keyboardDevice in files && mouseDevice in files && keyboardDevice != mouseDevice
    ensures var s := WsRun(files, keyboardDevice, mouseDevice, events);
      && s.files.Keys == files.Keys
      && s.files[keyboardDevice] == files[keyboardDevice] + KeyboardReports(events[..s.handled])
      && s.files[mouseDevice] == files[mouseDevice] + MouseReports(events[..s.handled])
    decreases |events|
  {
    if events == [] {
      assert events[..0] == [];
    } else {
      var t := WsStep(files, keyboardDevice, mouseDevice, events[0]);
      StepWrites(files, keyboardDevice, mouseDevice, events[0]);
      if !t.continues {
        ReportsOfPrefix(events, 1);
        assert events[1..][..0] == [];
      } else {
        var rest := WsRun(t.files, keyboardDevice, mouseDevice, events[1..]);
        var done := events[1..][..rest.handled];
        assert WsRun(files, keyboardDevice, mouseDevice, events) == Session(t.sent + rest.sent, 1 + rest.handled, rest.files);
        WsRunWrites(t.files, keyboardDevice, mouseDevice, events[1..]);
        assert rest.files[keyboardDevice] == files[keyboardDevice] + KeyboardReports(events[..1 + rest.handled]) by {
          ReportsOfPrefix(events, 1 + rest.handled);
          AppendAssoc(files[keyboardDevice], KeyboardReports([events[0]]), KeyboardReports(done));
        }
        assert rest.files[mouseDevice] == files[mouseDevice] + MouseReports(events[..1 + rest.handled]) by {
          ReportsOfPrefix(events, 1 + rest.handled);
          AppendAssoc(files[mouseDevice], MouseReports([events[0]]), MouseReports(done));
        }
      }
    }
  }

  /** The first turn of a run, and the run of the rest after it. */
  lemma WsRunFirst(files: DeviceFiles, keyboardDevice: string, mouseDevice: string, events: seq<WsEvent>)
    requires events != []
    ensures var t := WsStep(files, keyboardDevice, mouseDevice, events[0]);
      var rest := WsRun(t.files, keyboardDevice, mouseDevice, events[1..]);
      WsRun(files, keyboardDevice, mouseDevice, events)
        == if t.continues then Session(t.sent + rest.sent, 1 + rest.handled, rest.files)
           else Session(t.sent, 1, t.files)
  {
  }

  /** A handled turn in the implementation: the same outcome as WsStep. */
  method HandleWsEvent(hid: HidManager, e: WsEvent) returns (continues: bool, sent: seq<seq<byte>>)
    modifies hid.host
    ensures Turn(continues, sent, hid.host.files) == WsStep(old(hid.host.files), hid.keyboardDevice, hid.mouseDevice, e)
  {
    sent := [];
    continues := true;
    match e
    case FrameReady(frame, ok) =>
      if ok {
        sent := [frame];
      } else {
        continues := false;
      }
    case HubError =>
      continues := false;
    case Received(message) =>
      match message {
        case Binary(data) =>
          if data != [] {
            if data[0] == KeyboardTag {
              var _ := hid.SendKeyboardInput(data[1..]);
            } else if data[0] == MouseTag {
              var _ := hid.SendMouseInput(data[1..]);
            }
          }
        case Close =>
          continues := false;
        case _ =>
      }
    case StreamEnd =>
      continues := false;
    case ReceiveError =>
      continues := false;
  }

  /** `kvm_ws`'s loop over events, stopping at the first that ends the session. */
  method KvmWs(hid: HidManager, events: seq<WsEvent>) returns (sent: seq<seq<byte>>, handled: nat)
    modifies hid.host
    ensures Session(sent, handled, hid.host.files) == WsRun(old(hid.host.files), hid.keyboardDevice, hid.mouseDevice, events)
  {
    sent, handled := [], 0;
    while handled < |events|
      invariant handled <= |events|
      invariant var rest := WsRun(hid.host.files, hid.keyboardDevice, hid.mouseDevice, events[handled..]);
        WsRun(old(hid.host.files), hid.keyboardDevice, hid.mouseDevice, events)
          == Session(sent + rest.sent, handled + rest.handled, rest.files)
    {
      ghost var before := hid.host.files;
      ghost var tail := events[handled..];
      ghost var now := WsRun(before, hid.keyboardDevice, hid.mouseDevice, tail);
      var continues, out := HandleWsEvent(hid, events[handled]);
      ghost var rest := WsRun(hid.host.files, hid.keyboardDevice, hid.mouseDevice, events[handled + 1..]);
      assert now == if continues then Session(out + rest.sent, 1 + rest.handled, rest.files)
                    else Session(out, 1, hid.host.files) by {
        assert tail[0] == events[handled] && tail[1..] == events[handled + 1..];
        WsRunFirst(before, hid.keyboardDevice, hid.mouseDevice, tail);
      }
      Splice(WsRun(old(hid.host.files), hid.keyboardDevice, hid.mouseDevice, events), sent, handled, now, continues, out, hid.host.files, rest);
      sent, handled := sent + out, handled + 1;
      if !continues {
        break;
      }
    }
  }
}
