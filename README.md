# rkvm input and protocol core, modelled in Dafny

This project models the byte-level core of rkvm, a KVM-over-IP server for
OpenBMC. It covers the part that sits between the network and the USB HID
gadget devices:

- the RFB (VNC) server's wire messages: ServerInit with its PIXEL_FORMAT
  block, and the FramebufferUpdate header for one Raw rectangle (sections
  7.3.2, 7.4, 7.6.1 and 7.7.1 of RFC 6143);
- the fixed RFB handshake (section 7.1 of RFC 6143), as a state machine over
  the bytes the client sends;
- `process_vnc_message`, which decodes KeyEvent and PointerEvent (sections
  7.5.4 and 7.5.5 of RFC 6143), and the VNC session loop around it;
- the translators from X11 keysyms to USB HID boot keyboard reports, and from
  RFB pointer events to boot mouse reports;
- the web-socket session: frames out as binary messages, and inbound binary
  messages routed to a HID device by their first byte;
- `HidManager`, the sink that checks a report's length and writes it whole to
  a device file.

Modules, one concern each:

| file | module | models |
|---|---|---|
| bytes.dfy | `Bytes` | bytes, u16/u32, big-endian `to_be_bytes`/`from_be_bytes` |
| hid.dfy | `Hid` | `src/hid.rs`: device files, `HidManager` |
| rfb.dfy | `Rfb` | ServerInit, PIXEL_FORMAT, FramebufferUpdate, client event layouts |
| keymap.dfy | `KeyMap` | `vnc_key_to_hid`, `vnc_pointer_to_hid`, boot report layouts |
| rfb_handshake.dfy | `RfbHandshake` | the handshake part of `handle_vnc_client` |
| vnc_server.dfy | `VncServer` | `process_vnc_message`, `handle_vnc_session` |
| websocket.dfy | `WebSocket` | the session loop and routing in `kvm_ws` |
| sessions.dfy | `Sessions` | the turn and session records both loops share |

How the environment is represented:

- The host's device files form a map from path to the list of writes each
  file has received. `HidManager` holds its two paths as constants and shares
  one `DeviceTable` object, the operating system, with its clones. Opening a
  path for writing, without `create`, fails exactly when the path is absent.
- Each session loop (`select!` over the frame hub and the socket) is a loop
  over a given sequence of events. A frame event carries whether sending it
  succeeds. The broadcast channel's "closed" and "lagged" errors are one
  event, because the code treats them the same way: it ends the session.
- Every encoder has a decoder, written the way a client or a HID host reads
  the bytes. The server's builders are checked against the encoders, and
  round-trip lemmas tie each encoder to its decoder.

The model follows the code where it departs from what the protocol or the
design intend:

- The client's version string is read and never checked.
- Only one security type, None, is offered. Any other choice closes the
  connection.
- SetPixelFormat, SetEncodings, FramebufferUpdateRequest and ClientCutText
  are only logged. Nothing enforces Raw in SetEncodings.
- A KeyEvent shorter than 8 bytes, or a PointerEvent shorter than 6 bytes, is
  silently ignored and does not close the connection.
- Home and Right both map to usage 0x4f.
- Digits are offset from 0x27, so '1' to '5' share their usages with Return,
  Escape, BackSpace, Tab and Space (`KeyMap.SharedUsages` characterises every
  shared usage, and `KeyMap.SharedUsageValues` names each one).
- RFB mask bits 0 to 2 (left, middle, right) are copied into HID boot buttons 1
  to 3 unchanged, and no movement is reported.
- A broadcast receiver that lags ends the session.

## Model

| member | source | states |
|---|---|---|
| `Bytes.FromBeToBe` | src/vnc.rs:89-92 | reading a big-endian encoding back gives the encoded value, for any width |
| `Bytes.ToBeFromBe` | src/vnc.rs:184-197 | re-encoding a decoded big-endian byte string at its own width gives the same bytes |
| `Bytes.TwoBytes` | src/vnc.rs:196-197 | `u16::from_be_bytes([hi, lo])` is hi * 256 + lo |
| `Bytes.FourBytes` | src/vnc.rs:184 | `u32::from_be_bytes` of four bytes is their base-256 value, most significant first |
| `Rfb.Be16Encodes` | src/vnc.rs:89-92 | the two bytes written for a u16 are its big-endian encoding and decode back to it |
| `Rfb.Be32Encodes` | src/vnc.rs:109 | the four bytes written for a u32 are its big-endian encoding and decode back to it |
| `Rfb.PixelFormatRoundTrip` | src/vnc.rs:94-105 | every pixel format a client decodes from the 16-byte block is the format encoded |
| `Rfb.KvmPixelFormatBytes` | src/vnc.rs:94-105 | the block is exactly 32, 24, 0, 1, 0,255, 0,255, 0,255, 16, 8, 0 and three padding zeros, and decodes to 32 bpp, depth 24, little-endian, true colour, 4 bytes per pixel |
| `Rfb.ServerInitRoundTrip` | src/vnc.rs:86-113 | a ServerInit (width, height, format, length-prefixed name) decodes back to itself |
| `Rfb.DesktopNameText` | src/vnc.rs:108 | the desktop name bytes are the ASCII text "KVM-RS" |
| `Rfb.KvmServerInitBytes` | src/vnc.rs:86-113 | the server's ServerInit is 0x07,0x80 (1920), 0x04,0x38 (1080), the pixel format, name length 0,0,0,6, then "KVM-RS" |
| `Rfb.CreateServerInit` | src/vnc.rs:86-113 | the field-by-field builder yields exactly the RFC encoding of the server's ServerInit, 30 bytes, which a client decodes to 1920 x 1080, the fixed format and the name |
| `Rfb.RawUpdateRoundTrip` | src/vnc.rs:222-236 | a one-rectangle Raw update whose pixel data has width * height * bytes-per-pixel bytes decodes back to its rectangle and pixels |
| `Rfb.FullScreenHeader` | src/vnc.rs:222-233 | the update for a frame is the fixed 16 bytes 0,0, 0,1, 0,0, 0,0, 0x07,0x80, 0x04,0x38, 0,0,0,0 followed by the frame |
| `Rfb.FramebufferUpdateHeader` | src/vnc.rs:222-233 | the header is exactly 16 bytes: type 0, padding 0, count 1, x 0, y 0, width 1920, height 1080, encoding 0 (Raw) |
| `Rfb.FramebufferUpdateMessage` | src/vnc.rs:216-240 | the bytes written for a frame are that header followed by the frame, unchanged |
| `Rfb.CapturedFrameFitsUpdate` | src/vnc.rs:229-236 | with the advertised 4 bytes per pixel, the update sent for a frame decodes to the full-screen Raw rectangle and the frame exactly when the frame has the 1920 * 1080 * 4 bytes of a captured frame (the capture buffer at src/display.rs:21), and is malformed otherwise |
| `RfbHandshake.ProtocolVersionText` | src/vnc.rs:53 | the version bytes sent are the text "RFB 003.008\n" |
| `RfbHandshake.Step` | src/vnc.rs:53-78 | each handshake step moves strictly closer to the end, only appends to what was sent and never adds client bytes |
| `RfbHandshake.StepConsumes` | src/vnc.rs:55-74 | a step only reads client bytes from the front: what is left unread is a suffix of what was |
| `RfbHandshake.RunConsumes` | src/vnc.rs:53-78 | the same for the whole handshake |
| `RfbHandshake.Run` | src/vnc.rs:53-78 | the handshake always finishes, running or closed, and output only grows |
| `RfbHandshake.HandshakeIsExpected` | src/vnc.rs:53-78 | the state machine's outcome on any client input equals a case-by-case reference: each early end of stream, rejection of a non-None choice, or success |
| `RfbHandshake.HandshakeSucceeds` | src/vnc.rs:60-78 | the handshake succeeds if and only if the client sends at least 14 bytes and byte 12 is 1; then the output is "RFB 003.008\n", [1,1], [0,0,0,0], then the ServerInit, and the rest of the input is left for the session |
| `RfbHandshake.RejectedSecurityChoice` | src/vnc.rs:61-67 | a security choice other than 1 closes with that error, after only the version and [1,1] were sent |
| `RfbHandshake.VersionAndClientInitIgnored` | src/vnc.rs:55-74 | inputs that differ only in the 12 version bytes and the ClientInit byte give the same outcome and output |
| `RfbHandshake.SentIsPrefixOfTranscript` | src/vnc.rs:53-78 | whatever the client sends, the server's output is a prefix of the full success transcript |
| `KeyMap.KeysymToUsage` | src/vnc.rs:245-260 | a keysym has a usage exactly when it is one of the ten named keys, a letter or a digit; usages lie in 0x04..0x52 |
| `KeyMap.LetterUsage` | src/vnc.rs:256-257 | the upper- and lower-case keysyms of a letter give the same usage, keysym - base + 4, in 0x04..0x1d |
| `KeyMap.DigitUsage` | src/vnc.rs:258 | digit keysyms 0x30..0x39 give 0x27..0x30 |
| `KeyMap.SharedUsages` | src/vnc.rs:245-259 | two different mapped keysyms share a usage if and only if they are the two cases of a letter, Home and Right, or '1'..'5' with Return, Escape, BackSpace, Tab and Space |
| `KeyMap.SharedUsageValues` | src/vnc.rs:250-258 | Home and Right both give 0x4f, and '1' to '5' give the usages 0x28 to 0x2c of Return, Escape, BackSpace, Tab and Space |
| `KeyMap.KeyboardReportRoundTrip` | src/vnc.rs:262-266 | a boot keyboard report of a modifier byte and up to six held non-zero usages is read back as the same state |
| `KeyMap.VncKeyToHid` | src/vnc.rs:242-267 | a report exists exactly for mapped keysyms and is 8 bytes; on press byte 2 is the usage and every other byte 0, on release all 8 bytes are 0 |
| `KeyMap.KeyReportMeaning` | src/vnc.rs:262-266 | read as a boot report, a press holds exactly the key's usage with no modifiers and a release holds no key |
| `Bytes.LowThreeBits` | src/vnc.rs:271 | `mask & 0x07` is the mask modulo 8 |
| `KeyMap.VncPointerToHid` | src/vnc.rs:269-279 | the report is [mask & 7, 0, 0, 0]: 4 bytes, first byte at most 7 |
| `KeyMap.PointerReportMeaning` | src/vnc.rs:269-279 | read as a boot mouse report, buttons 1 to 3 are mask bits 0 to 2, and dx, dy and wheel are 0 |
| `KeyMap.PointerIgnoresPosition` | src/vnc.rs:269-278 | the report does not depend on x or y |
| `Hid.WriteReport` | src/hid.rs:21-45 | a report shorter than the minimum is refused and an absent device fails to open, both leaving every file unchanged; otherwise the whole report is appended to that device's file and no other file changes |
| `Hid.WriteAppendsWholeReport` | src/hid.rs:29-37 | a write grows the target's log by the whole report when it succeeds, and never touches another device's log |
| `Hid.HidManager.constructor` | src/hid.rs:13-18 | `new` fixes the two device paths; they are constants and never change |
| `Hid.HidManager.Clone` | src/hid.rs:6 | a clone has the same paths and writes to the same host files |
| `Hid.HidManager.SendKeyboardInput` | src/hid.rs:21-45 | fewer than 8 bytes: an error and no file changes; else, if the device opens, the whole input is appended to the keyboard log only; an absent device gives an error and no write |
| `Hid.HidManager.SendMouseInput` | src/hid.rs:48-72 | the same with a 4-byte minimum and the mouse device |
| `VncServer.DecodeClientMessage` | src/vnc.rs:167-211 | empty input decodes as empty; a KeyEvent needs at least 8 bytes and a PointerEvent at least 6; down is byte 1 != 0, key the big-endian u32 of bytes 4..8, x and y the big-endian u16s of bytes 2..4 and 4..6 |
| `VncServer.KeyEventRoundTrip` | src/vnc.rs:181-184 | a KeyEvent as a client encodes it decodes to the same down flag and keysym, whatever follows in the chunk |
| `VncServer.PointerEventRoundTrip` | src/vnc.rs:193-197 | a PointerEvent as a client encodes it decodes to the same mask, x and y |
| `VncServer.HidCallFor` | src/vnc.rs:188-202 | a keyboard call carries the translator's report for the event's key, a mouse call the pointer translator's report |
| `VncServer.WhenHidIsCalled` | src/vnc.rs:167-213 | no HID call is made if and only if the chunk is empty, of a type other than 4 and 5, a short or unmapped KeyEvent, or a short PointerEvent; reports made are 8 and 4 bytes |
| `VncServer.ProcessVncMessage` | src/vnc.rs:162-214 | never fails; the device files afterwards are those of the one HID call the decoded chunk asks for, its error ignored |
| `VncServer.LoggedOnlyMessages` | src/vnc.rs:172-180 | a chunk of any type other than 4 or 5 sends nothing, changes no device file and keeps the session going |
| `VncServer.VncStep` | src/vnc.rs:126-156 | a turn ends the session exactly on a failed update write, a hub error, a read of 0 bytes or a read error; a delivered frame is written as one full-screen Raw FramebufferUpdate; the device files change exactly by the HID call `process_vnc_message` makes for a read chunk, and reads send nothing |
| `VncServer.VncRunEndsAtFirstEnd` | src/vnc.rs:125-157 | the session handles events up to and including the first that ends it, and sends one FramebufferUpdate per delivered frame among those, in order |
| `VncServer.VncRunWrites` | src/vnc.rs:125-157 | with both devices present and distinct, over a whole session the keyboard receives exactly the `vnc_key_to_hid` reports of the mapped KeyEvents among the handled events, in order, the mouse exactly the `vnc_pointer_to_hid` reports of the PointerEvents, and no other device file changes |
| `VncServer.HandleVncEvent` | src/vnc.rs:126-156 | one turn of the loop has exactly the outcome of `VncStep` |
| `VncServer.HandleVncSession` | src/vnc.rs:115-160 | the loop's output, event count and final device files are those of `VncRun` |
| `WebSocket.Route` | src/websocket.rs:42-57 | tag 0x01 goes to the keyboard and tag 0x02 to the mouse, with the tag stripped and the payload unchanged; empty messages and other tags go nowhere |
| `WebSocket.RouteFrame` | src/websocket.rs:43-50 | routing a tagged report gives back the report, for its own sink |
| `WebSocket.WsStep` | src/websocket.rs:23-67 | a turn ends the session exactly on a failed send, a hub error (closed or lagged), a Close, end of stream or a receive error; a delivered frame is sent as one message with the same bytes; device files change only by the routed call |
| `WebSocket.KeyboardMessage` | src/websocket.rs:44-47 | a tag-0x01 message with a full report makes exactly one keyboard write of the payload and no mouse write; if the device is absent nothing is written; the session goes on |
| `WebSocket.MouseMessage` | src/websocket.rs:49-52 | a tag-0x02 message with a full report makes exactly one mouse write of the payload and no keyboard write; the session goes on |
| `WebSocket.IgnoredMessage` | src/websocket.rs:42-56 | an empty message, an unknown tag or a payload too short for its sink changes nothing and the session goes on |
| `WebSocket.KeyboardExample` | src/websocket.rs:44-45 | the 9-byte message 01 00 00 04 00 00 00 00 00 writes 00 00 04 00 00 00 00 00 to the keyboard once and nothing to the mouse |
| `WebSocket.WsRunEndsAtFirstEnd` | src/websocket.rs:22-69 | the session handles events up to and including the first that ends it, and sends exactly the delivered frames among those, each as one message |
| `WebSocket.WsRunWrites` | src/websocket.rs:39-59 | with both devices present and distinct, the keyboard receives exactly the tag-0x01 reports of 8 or more bytes among the handled events, in order and untruncated, and the mouse the tag-0x02 reports of 4 or more bytes |
| `WebSocket.HandleWsEvent` | src/websocket.rs:23-67 | one turn of the loop has exactly the outcome of `WsStep` |
| `WebSocket.KvmWs` | src/websocket.rs:18-70 | the loop's sent messages, event count and final device files are those of `WsRun` |

## Left out

- src/display.rs: the frame hub wraps tokio's broadcast channel, which is
  library code, around a file read loop and a 33 ms sleep. Its effect on a
  session is the stream of frame and hub-error events the loops take as
  input.
- src/main.rs and src/args.rs: startup, DBus, routing and command-line
  parsing. The TLS variant `VncHandler::new_with_tls` that src/main.rs calls
  is not part of this model; no such code exists in src/vnc.rs.
- `start_vnc_server` and the axum upgrade: accepting connections and spawning
  tasks is network I/O.
- Concurrency: `tokio::spawn` and the order in which `select!` picks ready
  branches. The loops take one given order of events.
- Stream framing: each `read` of up to 1024 bytes is decoded as one message,
  as the code does. How TCP splits or joins messages, and the hand-over of
  bytes left unread after the handshake into the session's first read, are
  not modelled.
- Hid.HidManager.SendKeyboardInput: `write_all` or `flush` failing after a
  successful open is not modelled; a device that opens takes the whole write.
- Hid.HidManager.SendMouseInput: the same.
- RfbHandshake.Step: socket write failures are not modelled; every write
  completes.
- VncServer.VncStep: a failed update write is modelled as sending nothing,
  not as a partial write.
- Logging (`println!`, `eprintln!`) has no effect in the model.
