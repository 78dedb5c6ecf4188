/**
 * The VNC session after the handshake (src/vnc.rs): `process_vnc_message`
 * decodes one chunk read from the client and makes at most one HID call, and
 * `handle_vnc_session` loops over frame and read events until one of them
 * ends the session.
 *
 * Each `read` chunk is treated as one message, as the server does; how TCP
 * splits or joins messages into chunks is outside the model.
 */
module VncServer {
  import opened Bytes
  import opened Rfb
  import opened KeyMap
  import opened Hid
  import opened Sessions

  /** A chunk from the client as `process_vnc_message` sees it. */
  datatype ClientMessage =
    | Empty
    | SetPixelFormat                 // type 0, only logged
    | SetEncodings                   // type 2, only logged
    | FramebufferUpdateRequest       // type 3, only logged
    | ClientCutText                  // type 6, only logged
    | KeyEvent(down: bool, key: u32) // type 4, at least 8 bytes
    | PointerEvent(buttonMask: byte, x: u16, y: u16) // type 5, at least 6 bytes
    | ShortKeyEvent                  // type 4, fewer than 8 bytes: ignored
    | ShortPointerEvent              // type 5, fewer than 6 bytes: ignored
    | Unknown(messageType: byte)     // any other type, only logged

  /** The decoding step of `process_vnc_message`. */
  function DecodeClientMessage(data: seq<byte>): (m: ClientMessage)
    ensures m == Empty <==> data == []
    ensures m.KeyEvent? <==> |data| >= 8 && data[0] == 4
    ensures m.PointerEvent? <==> |data| >= 6 && data[0] == 5
    ensures m.KeyEvent? ==> m.down == (data[1] != 0) && m.key == FromBe(data[4..8])
    ensures m.PointerEvent? ==> m.buttonMask == data[1] && m.x == FromBe(data[2..4]) && m.y == FromBe(data[4..6])
  {
    if data == [] then Empty
    else
      match data[0]
      case 0 => SetPixelFormat
      case 2 => SetEncodings
      case 3 => FramebufferUpdateRequest
      case 4 =>
        if |data| >= 8 then
          assert data[4..8] == [data[4], data[5], data[6], data[7]];
          FourBytes(data[4], data[5], data[6], data[7]);
          KeyEvent(data[1] != 0, U32At(data, 4))
        else ShortKeyEvent
      case 5 =>
        if |data| >= 6 then
          assert data[2..4] == [data[2], data[3]] && data[4..6] == [data[4], data[5]];
          TwoBytes(data[2], data[3]);
          TwoBytes(data[4], data[5]);
          PointerEvent(data[1], U16At(data, 2), U16At(data, 4))
        else ShortPointerEvent
      case 6 => ClientCutText
      case _ => Unknown(data[0])
  }

  /** A KeyEvent as a client encodes it decodes to the same event, whatever follows it in the chunk. */
  lemma KeyEventRoundTrip(down: bool, key: u32, rest: seq<byte>)
    ensures DecodeClientMessage(EncodeKeyEvent(down, key) + rest) == KeyEvent(down, key)
  {
    var b := EncodeKeyEvent(down, key) + rest;
    Be32Encodes(key);
    assert b[4..8] == Be32(key);
  }

  /** A PointerEvent as a client encodes it decodes to the same event, whatever follows it in the chunk. */
  lemma PointerEventRoundTrip(buttonMask: byte, x: u16, y: u16, rest: seq<byte>)
    ensures DecodeClientMessage(EncodePointerEvent(buttonMask, x, y) + rest) == PointerEvent(buttonMask, x, y)
  {
    var b := EncodePointerEvent(buttonMask, x, y) + rest;
    Be16Encodes(x);
    Be16Encodes(y);
    assert b[2..4] == Be16(x) && b[4..6] == Be16(y);
  }

  /** The one HID call a decoded message leads to, if any. */
  function HidCallFor(m: ClientMessage): (c: HidCall)
    ensures c.KeyboardCall? ==> m.KeyEvent? && VncKeyToHid(m.key, m.down) == Some(c.report)
    ensures c.MouseCall? ==> m.PointerEvent? && c.report == VncPointerToHid(m.buttonMask, m.x, m.y)
  {
    match m
    case KeyEvent(down, key) =>
      (match VncKeyToHid(key, down)
       case None => NoCall
       case Some(report) => KeyboardCall(report))
    case PointerEvent(buttonMask, x, y) => MouseCall(VncPointerToHid(buttonMask, x, y))
    case _ => NoCall
  }

  /** The HID call `process_vnc_message` makes for a chunk. */
  function VncHidCall(data: seq<byte>): HidCall
  {
    HidCallFor(DecodeClientMessage(data))
  }

  /**
   * A chunk leads to no HID call exactly when it is empty, has a type other
   * than 4 and 5, is a KeyEvent shorter than 8 bytes or with a keysym outside
   * the table, or is a PointerEvent shorter than 6 bytes. Keyboard reports are
   * 8 bytes and mouse reports 4, so the HID length guards always pass.
   */
  lemma WhenHidIsCalled(data: seq<byte>)
    ensures VncHidCall(data) == NoCall <==>
      || data == []
      || data[0] !in {4, 5}
      || (data[0] == 4 && (|data| < 8 || KeysymToUsage(FromBe(data[4..8])).None?))
      || (data[0] == 5 && |data| < 6)
    ensures VncHidCall(data).KeyboardCall? ==> |VncHidCall(data).report| == KeyboardReportMin
    ensures VncHidCall(data).MouseCall? ==> |VncHidCall(data).report| == MouseReportMin
  {
  }

  /** `process_vnc_message`: decode the chunk, make at most one HID call, ignore its result, never fail. */
  method ProcessVncMessage(hid: HidManager, data: seq<byte>) returns (ok: bool)
    modifies hid.host
    ensures ok
    ensures hid.host.files == ApplyCall(old(hid.host.files), hid.keyboardDevice, hid.mouseDevice, VncHidCall(data))
  {
    ok := true;
    if data == [] {
      return;
    }
    match data[0]
    case 4 =>
      if |data| >= 8 {
        var down := data[1] != 0;
        var key := U32At(data, 4);
        var report := VncKeyToHid(key, down);
        if report.Some? {
          var _ := hid.SendKeyboardInput(report.value);
        }
      }
    case 5 =>
      if |data| >= 6 {
        var report := VncPointerToHid(data[1], U16At(data, 2), U16At(data, 4));
        var _ := hid.SendMouseInput(report);
      }
    case _ =>
  }

  // ---------------------------------------------------------------- the session loop

  /** What one turn of the `select!` loop in `handle_vnc_session` sees. */
  datatype VncEvent =
    | FrameReady(frame: seq<byte>, sendSucceeds: bool) // the hub delivered a frame; whether writing the update succeeds
    | HubError                                           // `rx.recv()` failed: channel closed or this receiver lagged
    | ReadChunk(chunk: seq<byte>)                        // `stream.read` returned these bytes (none: the peer closed)
    | ReadError

  /** The events after which the loop breaks. */
  predicate EndsSession(e: VncEvent)
  {
    match e
    case FrameReady(_, ok) => !ok
    case HubError => true
    case ReadChunk(chunk) => chunk == []
    case ReadError => true
  }

  /** The HID call an event leads to: only a non-empty chunk read from the client makes one. */
  function VncCallFor(e: VncEvent): HidCall
  {
    if e.ReadChunk? then VncHidCall(e.chunk) else NoCall
  }

  /** A turn and a session of this loop: what is written to the client is a byte stream. */
  type VncTurn = Turn<byte>
  type VncSession = Session<byte>

  function VncStep(files: DeviceFiles, keyboardDevice: string, mouseDevice: string, e: VncEvent): (t: VncTurn)
    ensures t.continues <==> !EndsSession(e)
    ensures !e.ReadChunk? ==> t.files == files
    ensures e.ReadChunk? ==> t.sent == []
    ensures t.files == ApplyCall(files, keyboardDevice, mouseDevice, VncCallFor(e))
    ensures e.FrameReady? && e.sendSucceeds ==> t.sent == UpdateHeader() + e.frame
  {
    match e
    case FrameReady(frame, ok) =>
      if ok then Turn(true, UpdateHeader() + frame, files) else Turn(false, [], files)
    case HubError => Turn(false, [], files)
    case ReadChunk(chunk) =>
      if chunk == [] then Turn(false, [], files)
      else Turn(true, [], ApplyCall(files, keyboardDevice, mouseDevice, VncHidCall(chunk)))
    case ReadError => Turn(false, [], files)
  }

  function VncRun(files: DeviceFiles, keyboardDevice: string, mouseDevice: string, events: seq<VncEvent>): (s: VncSession)
    ensures s.handled <= |events|
    decreases |events|
  {
    if events == [] then Session([], 0, files)
    else
      var t := VncStep(files, keyboardDevice, mouseDevice, events[0]);
      if !t.continues then Session(t.sent, 1, t.files)
      else
        var rest := VncRun(t.files, keyboardDevice, mouseDevice, events[1..]);
        Session(t.sent + rest.sent, 1 + rest.handled, rest.files)
  }

  /**
   * SetPixelFormat, SetEncodings, FramebufferUpdateRequest, ClientCutText and
   * unknown types are only logged: the session goes on, nothing is sent and no
   * device file changes, so repeating one of them changes nothing either.
   */
  lemma LoggedOnlyMessages(files: DeviceFiles, keyboardDevice: string, mouseDevice: string, chunk: seq<byte>)
    requires chunk != [] && chunk[0] !in {4, 5}
    ensures VncStep(files, keyboardDevice, mouseDevice, ReadChunk(chunk)) == Turn(true, [], files)
  {
  }

  /** The updates sent for the frames among some events. */
  function UpdatesFor(events: seq<VncEvent>): seq<byte>
  {
    if events == [] then []
    else
      var e := events[0];
      (if e.FrameReady? && e.sendSucceeds then UpdateHeader() + e.frame else [])
      + UpdatesFor(events[1..])
  }

  /**
   * The session handles events up to and including the first that ends it
   * (all of them if none does), and what it sends is one FramebufferUpdate per
   * frame delivered among those, in order.
   */
  lemma {:induction false} VncRunEndsAtFirstEnd(files: DeviceFiles, keyboardDevice: string, mouseDevice: string, events: seq<VncEvent>)
    ensures var s := VncRun(files, keyboardDevice, mouseDevice, events);
      && (forall i :: 0 <= i < s.handled - 1 ==> !EndsSession(events[i]))
      && (s.handled < |events| ==> 0 < s.handled && EndsSession(events[s.handled - 1]))
      && (events != [] ==> 0 < s.handled)
      && s.sent == UpdatesFor(events[..s.handled])
    decreases |events|
  {
    if events != [] {
      var t := VncStep(files, keyboardDevice, mouseDevice, events[0]);
      var s := VncRun(files, keyboardDevice, mouseDevice, events);
      if !t.continues {
        assert events[..1] == [events[0]] && events[..1][1..] == [];
      } else {
        VncRunEndsAtFirstEnd(t.files, keyboardDevice, mouseDevice, events[1..]);
        var rest := VncRun(t.files, keyboardDevice, mouseDevice, events[1..]);
        assert events[..s.handled][1..] == events[1..][..rest.handled];
      }
    }
  }

  /** The reports that reach the keyboard among some events: `VncKeyToHid`'s report for each mapped KeyEvent read. */
  function KeyboardReports(events: seq<VncEvent>): seq<seq<byte>>
  {
    if events == [] then []
    else
      var c := VncCallFor(events[0]);
      (if c.KeyboardCall? then [c.report] else []) + KeyboardReports(events[1..])
  }

  /** The reports that reach the mouse among some events: `VncPointerToHid`'s report for each PointerEvent read. */
  function MouseReports(events: seq<VncEvent>): seq<seq<byte>>
  {
    if events == [] then []
    else
      var c := VncCallFor(events[0]);
      (if c.MouseCall? then [c.report] else []) + MouseReports(events[1..])
  }

  /** One turn appends to each device exactly the report the event carries for it; the HID length guards always pass. */
  lemma StepWrites(files: DeviceFiles, keyboardDevice: string, mouseDevice: string, e: VncEvent)
    requires keyboardDevice in files && mouseDevice in files && keyboardDevice != mouseDevice
    ensures var t := VncStep(files, keyboardDevice, mouseDevice, e);
      && t.files[keyboardDevice] == files[keyboardDevice] + KeyboardReports([e])
      && t.files[mouseDevice] == files[mouseDevice] + MouseReports([e])
  {
    assert [e][1..] == [];
    if e.ReadChunk? {
      WhenHidIsCalled(e.chunk);
    }
  }

  /** The reports among the first n events are those of the first event, then those among the next n - 1. */
  lemma ReportsOfPrefix(events: seq<VncEvent>, n: nat)
    requires 0 < n <= |events|
    ensures KeyboardReports(events[..n]) == KeyboardReports([events[0]]) + KeyboardReports(events[1..][..n - 1])
    ensures MouseReports(events[..n]) == MouseReports([events[0]]) + MouseReports(events[1..][..n - 1])
  {
    assert events[..n][0] == events[0] && events[..n][1..] == events[1..][..n - 1];
    assert [events[0]][1..] == [];
  }

  /**
   * With both devices present and distinct, over a whole session the keyboard
   * receives exactly the reports of the mapped KeyEvents among the handled
   * events, in order, and the mouse exactly those of the PointerEvents; no
   * other device file changes.
   */
  lemma {:induction false} VncRunWrites(files: DeviceFiles, keyboardDevice: string, mouseDevice: string, events: seq<VncEvent>)
    requires keyboardDevice in files && mouseDevice in files && keyboardDevice != mouseDevice
    ensures var s := VncRun(files, keyboardDevice, mouseDevice, events);
      && s.files.Keys == files.Keys
      && s.files[keyboardDevice] == files[keyboardDevice] + KeyboardReports(events[..s.handled])
      && s.files[mouseDevice] == files[mouseDevice] + MouseReports(events[..s.handled])
      && (forall p :: p in files && p != keyboardDevice && p != mouseDevice ==> s.files[p] == files[p])
    decreases |events|
  {
    if events == [] {
      assert events[..0] == [];
    } else {
      var t := VncStep(files, keyboardDevice, mouseDevice, events[0]);
      StepWrites(files, keyboardDevice, mouseDevice, events[0]);
      if !t.continues {
        ReportsOfPrefix(events, 1);
        assert events[1..][..0] == [];
      } else {
        var rest := VncRun(t.files, keyboardDevice, mouseDevice, events[1..]);
        var done := events[1..][..rest.handled];
        assert VncRun(files, keyboardDevice, mouseDevice, events) == Session(t.sent + rest.sent, 1 + rest.handled, rest.files);
        VncRunWrites(t.files, keyboardDevice, mouseDevice, events[1..]);
        assert rest.files[keyboardDevice] == files[keyboardDevice] + KeyboardReports(events[..1 + rest.handled]) by {
          ReportsOfPrefix(events, 1 + rest.handled);
          AppendAssoc(files[keyboardDevice], KeyboardReports([events[0]]), KeyboardReports(done));
        }
        assert rest.files[mouseDevice] == files[mouseDevice] + MouseReports(events[..1 + rest.handled]) by {
          ReportsOfPrefix(events, 1 + rest.handled);
          AppendAssoc(files[mouseDevice], MouseReports([events[0]]), MouseReports(done));
        }
      }
    }
  }

  /** The first turn of a run, and the run of the rest after it. */
  lemma VncRunFirst(files: DeviceFiles, keyboardDevice: string, mouseDevice: string, events: seq<VncEvent>)
    requires events != []
    ensures var t := VncStep(files, keyboardDevice, mouseDevice, events[0]);
      var rest := VncRun(t.files, keyboardDevice, mouseDevice, events[1..]);
      VncRun(files, keyboardDevice, mouseDevice, events)
        == if t.continues then Session(t.sent + rest.sent, 1 + rest.handled, rest.files)
           else Session(t.sent, 1, t.files)
  {
  }

  /** A handled turn in the implementation: the same outcome as VncStep. */
  method HandleVncEvent(hid: HidManager, e: VncEvent) returns (continues: bool, sent: seq<byte>)
    modifies hid.host
    ensures Turn(continues, sent, hid.host.files) == VncStep(old(hid.host.files), hid.keyboardDevice, hid.mouseDevice, e)
  {
    sent := [];
    match e
    case FrameReady(frame, ok) =>
      var update := FramebufferUpdateMessage(frame);
      continues := ok;
      if ok {
        sent := update;
      }
    case HubError =>
      continues := false;
    case ReadChunk(chunk) =>
      if chunk == [] {
        continues := false;
      } else {
        var _ := ProcessVncMessage(hid, chunk);
        continues := true;
      }
    case ReadError =>
      continues := false;
  }

  /** `handle_vnc_session`: the loop over events, stopping at the first that ends the session. */
  method HandleVncSession(hid: HidManager, events: seq<VncEvent>) returns (sent: seq<byte>, handled: nat)
    modifies hid.host
    ensures Session(sent, handled, hid.host.files) == VncRun(old(hid.host.files), hid.keyboardDevice, hid.mouseDevice, events)
  {
    sent, handled := [], 0;
    while handled < |events|
      invariant handled <= |events|
      invariant var rest := VncRun(hid.host.files, hid.keyboardDevice, hid.mouseDevice, events[handled..]);
        VncRun(old(hid.host.files), hid.keyboardDevice, hid.mouseDevice, events)
          == Session(sent + rest.sent, handled + rest.handled, rest.files)
    {
      ghost var before := hid.host.files;
      ghost var tail := events[handled..];
      ghost var now := VncRun(before, hid.keyboardDevice, hid.mouseDevice, tail);
      var continues, out := HandleVncEvent(hid, events[handled]);
      ghost var rest := VncRun(hid.host.files, hid.keyboardDevice, hid.mouseDevice, events[handled + 1..]);
      assert now == if continues then Session(out + rest.sent, 1 + rest.handled, rest.files)
                    else Session(out, 1, hid.host.files) by {
        assert tail[0] == events[handled] && tail[1..] == events[handled + 1..];
        VncRunFirst(before, hid.keyboardDevice, hid.mouseDevice, tail);
      }
      Splice(VncRun(old(hid.host.files), hid.keyboardDevice, hid.mouseDevice, events), sent, handled, now, continues, out, hid.host.files, rest);
      sent, handled := sent + out, handled + 1;
      if !continues {
        break;
      }
    }
  }
}
