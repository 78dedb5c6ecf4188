/**
 * RFB (Remote Framebuffer, RFC 6143) wire formats used by the VNC server in
 * src/vnc.rs: the PIXEL_FORMAT structure (section 7.4), the ServerInit message
 * (section 7.3.2), the FramebufferUpdate message with a Raw rectangle
 * (sections 7.6.1 and 7.7.1), and the KeyEvent and PointerEvent client
 * messages (sections 7.5.4 and 7.5.5). Each has an encoder and a decoder,
 * related by round-trip lemmas; the server's own byte builders are checked
 * against these encoders.
 */
module Rfb {
  import opened Bytes

  /** The ASCII bytes of a string literal such as `b"KVM-RS"`. */
  function Ascii(s: string): (r: seq<byte>)
    requires forall i :: 0 <= i < |s| ==> s[i] < 128 as char
    ensures |r| == |s|
    ensures forall i :: 0 <= i < |s| ==> r[i] == s[i] as int
  {
    seq(|s|, i requires 0 <= i < |s| => s[i] as int)
  }

  /** The big-endian u16 at offset i. */
  function U16At(b: seq<byte>, i: nat): (v: u16)
    requires i + 2 <= |b|
    ensures v == b[i] as int * 256 + b[i + 1]
  {
    assert b[i..i + 2] == [b[i], b[i + 1]];
    TwoBytes(b[i], b[i + 1]);
    FromBe(b[i..i + 2])
  }

  /** The big-endian u32 at offset i. */
  function U32At(b: seq<byte>, i: nat): (v: u32)
    requires i + 4 <= |b|
    ensures v == ((b[i] as int * 256 + b[i + 1]) * 256 + b[i + 2]) * 256 + b[i + 3]
  {
    assert b[i..i + 4] == [b[i], b[i + 1], b[i + 2], b[i + 3]];
    FourBytes(b[i], b[i + 1], b[i + 2], b[i + 3]);
    FromBe(b[i..i + 4])
  }

  /** `v.to_be_bytes()` for a u16: high byte, then low byte. */
  function Be16(v: u16): (r: seq<byte>)
    ensures |r| == 2
  {
    [v / 256, v % 256]
  }

  /** `v.to_be_bytes()` for a u32: four bytes, most significant first. */
  function Be32(v: u32): (r: seq<byte>)
    ensures |r| == 4
  {
    var q1 := v / 256;
    var q2 := q1 / 256;
    [q2 / 256, q2 % 256, q1 % 256, v % 256]
  }

  /** Be16 is the two-byte big-endian encoding, and reading it back gives v. */
  lemma Be16Encodes(v: u16)
    ensures Be16(v) == ToBe(v, 2) && U16At(Be16(v), 0) == v
  {
    assert ToBe(v, 2) == ToBe(v / 256, 1) + [v % 256];
    assert ToBe(v / 256, 1) == ToBe(v / 256 / 256, 0) + [v / 256 % 256];
  }

  /** Be32 is the four-byte big-endian encoding, and reading it back gives v. */
  lemma Be32Encodes(v: u32)
    ensures Be32(v) == ToBe(v, 4) && U32At(Be32(v), 0) == v
  {
    var q1 := v / 256;
    var q2 := q1 / 256;
    var q3 := q2 / 256;
    assert ToBe(v, 4) == ToBe(q1, 3) + [v % 256];
    assert ToBe(q1, 3) == ToBe(q2, 2) + [q1 % 256];
    assert ToBe(q2, 2) == ToBe(q3, 1) + [q2 % 256];
    assert ToBe(q3, 1) == ToBe(q3 / 256, 0) + [q3 % 256];
  }

  /** Wherever Be16(v) sits in a byte string, reading a u16 there gives v. */
  lemma U16AtBe16(b: seq<byte>, i: nat, v: u16)
    requires i + 2 <= |b| && b[i..i + 2] == Be16(v)
    ensures U16At(b, i) == v
  {
    Be16Encodes(v);
    assert b[i] == Be16(v)[0] && b[i + 1] == Be16(v)[1];
  }

  /** Wherever Be32(v) sits in a byte string, reading a u32 there gives v. */
  lemma U32AtBe32(b: seq<byte>, i: nat, v: u32)
    requires i + 4 <= |b| && b[i..i + 4] == Be32(v)
    ensures U32At(b, i) == v
  {
    Be32Encodes(v);
    assert b[i] == Be32(v)[0] && b[i + 1] == Be32(v)[1] && b[i + 2] == Be32(v)[2] && b[i + 3] == Be32(v)[3];
  }

  // ---------------------------------------------------------------- PIXEL_FORMAT

  datatype PixelFormat = PixelFormat(
    bitsPerPixel: byte, depth: byte, bigEndian: bool, trueColour: bool,
    redMax: u16, greenMax: u16, blueMax: u16,
    redShift: byte, greenShift: byte, blueShift: byte)

  function Flag(b: bool): byte
  {
    if b then 1 else 0
  }

  /** The 16-byte PIXEL_FORMAT structure, ending in three padding bytes. */
  function EncodePixelFormat(pf: PixelFormat): (r: seq<byte>)
    ensures |r| == 16
  {
    [pf.bitsPerPixel, pf.depth, Flag(pf.bigEndian), Flag(pf.trueColour)]
    + Be16(pf.redMax) + Be16(pf.greenMax) + Be16(pf.blueMax)
    + [pf.redShift, pf.greenShift, pf.blueShift]
    + [0, 0, 0]
  }

  /** Reads a PIXEL_FORMAT; any non-zero flag byte means true. */
  function DecodePixelFormat(b: seq<byte>): (r: Option<PixelFormat>)
    ensures r.Some? <==> |b| == 16
  {
    if |b| != 16 then None
    else Some(PixelFormat(b[0], b[1], b[2] != 0, b[3] != 0,
                          U16At(b, 4), U16At(b, 6), U16At(b, 8),
                          b[10], b[11], b[12]))
  }

  lemma PixelFormatRoundTrip(pf: PixelFormat)
    ensures DecodePixelFormat(EncodePixelFormat(pf)) == Some(pf)
  {
    var b := EncodePixelFormat(pf);
    assert b[4..6] == Be16(pf.redMax);
    assert b[6..8] == Be16(pf.greenMax);
    assert b[8..10] == Be16(pf.blueMax);
    U16AtBe16(b, 4, pf.redMax);
    U16AtBe16(b, 6, pf.greenMax);
    U16AtBe16(b, 8, pf.blueMax);
    assert b[0] == pf.bitsPerPixel && b[1] == pf.depth && b[2] == Flag(pf.bigEndian) && b[3] == Flag(pf.trueColour);
    assert b[10] == pf.redShift && b[11] == pf.greenShift && b[12] == pf.blueShift;
  }

  /** The server's fixed format: 32 bpp, depth 24, little-endian, true colour, 8 bits per channel at shifts 16/8/0. */
  const KvmPixelFormat: PixelFormat := PixelFormat(32, 24, false, true, 255, 255, 255, 16, 8, 0)

  /** Bytes one pixel occupies on the wire. */
  function BytesPerPixel(pf: PixelFormat): nat
  {
    pf.bitsPerPixel / 8
  }

  // ---------------------------------------------------------------- ServerInit

  /** The framebuffer geometry the server advertises and sends. */
  const FramebufferWidth: u16 := 1920
  const FramebufferHeight: u16 := 1080

  datatype ServerInit = ServerInit(width: u16, height: u16, format: PixelFormat, name: seq<byte>)

  /** Width, height, the pixel format, then the desktop name prefixed by its u32 length. */
  function EncodeServerInit(s: ServerInit): (r: seq<byte>)
    requires |s.name| < 0x1_0000_0000
    ensures |r| == 24 + |s.name|
  {
    Be16(s.width) + Be16(s.height) + EncodePixelFormat(s.format) + Be32(|s.name|) + s.name
  }

  /** Reads a whole ServerInit message; the name length must account for every remaining byte. */
  function DecodeServerInit(b: seq<byte>): (r: Option<ServerInit>)
    ensures r.Some? ==> |b| == 24 + |r.value.name|
  {
    if |b| < 24 || U32At(b, 20) != |b| - 24 then None
    else
      match DecodePixelFormat(b[4..20])
      case None => None
      case Some(pf) => Some(ServerInit(U16At(b, 0), U16At(b, 2), pf, b[24..]))
  }

  lemma ServerInitRoundTrip(s: ServerInit)
    requires |s.name| < 0x1_0000_0000
    ensures DecodeServerInit(EncodeServerInit(s)) == Some(s)
  {
    var b := EncodeServerInit(s);
    assert b[0..2] == Be16(s.width);
    assert b[2..4] == Be16(s.height);
    assert b[4..20] == EncodePixelFormat(s.format);
    assert b[20..24] == Be32(|s.name|);
    assert b[24..] == s.name;
    U16AtBe16(b, 0, s.width);
    U16AtBe16(b, 2, s.height);
    U32AtBe32(b, 20, |s.name|);
    PixelFormatRoundTrip(s.format);
  }

  /** `b"KVM-RS"`, the desktop name. */
  function DesktopName(): (r: seq<byte>)
    ensures |r| == 6
  {
    [0x4B, 0x56, 0x4D, 0x2D, 0x52, 0x53]
  }

  lemma DesktopNameText()
    ensures DesktopName() == Ascii("KVM-RS")
  {
  }

  /** The ServerInit this server sends. */
  function KvmServerInit(): ServerInit
  {
    ServerInit(FramebufferWidth, FramebufferHeight, KvmPixelFormat, DesktopName())
  }

  /** The fixed format's 16 bytes, and a client reads them back as that format. */
  lemma KvmPixelFormatBytes()
    ensures EncodePixelFormat(KvmPixelFormat) == [32, 24, 0, 1, 0, 255, 0, 255, 0, 255, 16, 8, 0, 0, 0, 0]
    ensures DecodePixelFormat(EncodePixelFormat(KvmPixelFormat)) == Some(KvmPixelFormat)
    ensures BytesPerPixel(KvmPixelFormat) == 4
  {
    PixelFormatRoundTrip(KvmPixelFormat);
  }

  /** The 30 bytes of the server's ServerInit, written out. */
  function ServerInitMessage(): (r: seq<byte>)
    ensures |r| == 30
  {
    [0x07, 0x80, 0x04, 0x38, 32, 24, 0, 1, 0, 255, 0, 255, 0, 255, 16, 8, 0, 0, 0, 0, 0, 0, 0, 6] + DesktopName()
  }

  /**
   * The server's ServerInit is exactly those bytes: 1920 and 1080 big-endian,
   * the fixed pixel format, the name length 6, then the name.
   */
  lemma KvmServerInitBytes()
    ensures EncodeServerInit(KvmServerInit()) == ServerInitMessage()
  {
    KvmPixelFormatBytes();
  }

  /**
   * `create_server_init`: builds the ServerInit message field by field. It is
   * the RFC encoding of the server's ServerInit, which a client decodes back into
   * 1920 x 1080, the fixed pixel format and the name "KVM-RS".
   */
  method CreateServerInit() returns (init: seq<byte>)
    ensures init == EncodeServerInit(KvmServerInit()) == ServerInitMessage()
    ensures DecodeServerInit(init) == Some(KvmServerInit())
  {
    init := [];
    init := init + Be16(1920);
    assert init == [0x07, 0x80];
    init := init + Be16(1080);
    assert init == [0x07, 0x80, 0x04, 0x38];
    init := init + [32];
    init := init + [24];
    init := init + [0];
    init := init + [1];
    assert init == [0x07, 0x80, 0x04, 0x38, 32, 24, 0, 1];
    init := init + Be16(255);
    init := init + Be16(255);
    init := init + Be16(255);
    assert init == [0x07, 0x80, 0x04, 0x38, 32, 24, 0, 1, 0, 255, 0, 255, 0, 255];
    init := init + [16];
    init := init + [8];
    init := init + [0];
    init := init + [0, 0, 0];
    assert init == [0x07, 0x80, 0x04, 0x38, 32, 24, 0, 1, 0, 255, 0, 255, 0, 255, 16, 8, 0, 0, 0, 0];
    var name := DesktopName();
    init := init + Be32(|name|);
    assert init == [0x07, 0x80, 0x04, 0x38, 32, 24, 0, 1, 0, 255, 0, 255, 0, 255, 16, 8, 0, 0, 0, 0, 0, 0, 0, 6];
    init := init + name;
    KvmServerInitBytes();
    ServerInitRoundTrip(KvmServerInit());
  }



  // ---------------------------------------------------------------- FramebufferUpdate

  const RawEncoding: u32 := 0

  datatype Rectangle = Rectangle(x: u16, y: u16, width: u16, height: u16, encoding: u32)

  /** The one rectangle every update carries: the whole framebuffer, Raw-encoded. */
  const FullScreen: Rectangle := Rectangle(0, 0, FramebufferWidth, FramebufferHeight, RawEncoding)

  /** Size of one captured frame (the capture buffer is 1920 x 1080 RGBA, src/display.rs). */
  const CaptureFrameBytes: nat := 1920 * 1080 * 4

  function EncodeRectangleHeader(rect: Rectangle): (r: seq<byte>)
    ensures |r| == 12
  {
    Be16(rect.x) + Be16(rect.y) + Be16(rect.width) + Be16(rect.height) + Be32(rect.encoding)
  }

  /** A FramebufferUpdate with one rectangle: type 0, padding, count 1, the rectangle header, then its pixels. */
  function EncodeFramebufferUpdate(rect: Rectangle, pixels: seq<byte>): (r: seq<byte>)
    ensures |r| == 16 + |pixels| && r[16..] == pixels
  {
    [0, 0] + Be16(1) + EncodeRectangleHeader(rect) + pixels
  }

  datatype RawUpdate = RawUpdate(rect: Rectangle, pixels: seq<byte>)

  /** Bytes of Raw pixel data a rectangle carries (section 7.7.1 of RFC 6143). */
  function RawLength(rect: Rectangle, bytesPerPixel: nat): nat
  {
    rect.width * rect.height * bytesPerPixel
  }

  /**
   * How a client reads a whole FramebufferUpdate of one Raw rectangle: the
   * pixel data must be exactly width * height * bytesPerPixel bytes.
   */
  function DecodeRawUpdate(b: seq<byte>, bytesPerPixel: nat): (r: Option<RawUpdate>)
    ensures r.Some? ==> r.value.rect.encoding == RawEncoding
    ensures r.Some? ==> |r.value.pixels| == RawLength(r.value.rect, bytesPerPixel)
  {
    if |b| < 16 || b[0] != 0 || U16At(b, 2) != 1 then None
    else
      var rect := Rectangle(U16At(b, 4), U16At(b, 6), U16At(b, 8), U16At(b, 10), U32At(b, 12));
      if rect.encoding != RawEncoding || |b| - 16 != RawLength(rect, bytesPerPixel) then None
      else Some(RawUpdate(rect, b[16..]))
  }

  lemma RawUpdateRoundTrip(rect: Rectangle, pixels: seq<byte>, bytesPerPixel: nat)
    requires rect.encoding == RawEncoding
    requires |pixels| == RawLength(rect, bytesPerPixel)
    ensures DecodeRawUpdate(EncodeFramebufferUpdate(rect, pixels), bytesPerPixel) == Some(RawUpdate(rect, pixels))
  {
    var b := EncodeFramebufferUpdate(rect, pixels);
    assert b[2..4] == Be16(1);
    assert b[4..6] == Be16(rect.x);
    assert b[6..8] == Be16(rect.y);
    assert b[8..10] == Be16(rect.width);
    assert b[10..12] == Be16(rect.height);
    assert b[12..16] == Be32(rect.encoding);
    U16AtBe16(b, 2, 1);
    U16AtBe16(b, 4, rect.x);
    U16AtBe16(b, 6, rect.y);
    U16AtBe16(b, 8, rect.width);
    U16AtBe16(b, 10, rect.height);
    U32AtBe32(b, 12, rect.encoding);
    assert b[16..] == pixels;
  }

  /** The 16 header bytes of every update this server sends, written out. */
  function UpdateHeader(): (r: seq<byte>)
    ensures |r| == 16
  {
    [0, 0, 0, 1, 0, 0, 0, 0, 0x07, 0x80, 0x04, 0x38, 0, 0, 0, 0]
  }

  /**
   * Those bytes are the update header for the full-screen Raw rectangle:
   * type 0, padding 0, one rectangle at (0, 0) of 1920 x 1080, encoding 0.
   */
  lemma FullScreenHeader(frame: seq<byte>)
    ensures EncodeFramebufferUpdate(FullScreen, frame) == UpdateHeader() + frame
  {
    assert EncodeRectangleHeader(FullScreen) == [0, 0, 0, 0, 0x07, 0x80, 0x04, 0x38, 0, 0, 0, 0];
  }

  /** The header `send_framebuffer_update` builds before the frame bytes. */
  method FramebufferUpdateHeader() returns (update: seq<byte>)
    ensures update == UpdateHeader() == EncodeFramebufferUpdate(FullScreen, [])
  {
    update := [];
    update := update + [0];
    update := update + [0];
    update := update + Be16(1);
    update := update + Be16(0);
    update := update + Be16(0);
    assert update == [0, 0, 0, 1, 0, 0, 0, 0];
    update := update + Be16(1920);
    update := update + Be16(1080);
    update := update + Be32(0);
    assert update == UpdateHeader();
    FullScreenHeader([]);
  }

  /** `send_framebuffer_update`: the header, then the frame bytes unchanged. */
  method FramebufferUpdateMessage(frame: seq<byte>) returns (update: seq<byte>)
    ensures update == UpdateHeader() + frame == EncodeFramebufferUpdate(FullScreen, frame)
    ensures update[16..] == frame
  {
    var header := FramebufferUpdateHeader();
    update := header + frame;
    FullScreenHeader(frame);
  }

  /**
   * The update sent for a frame, read with the advertised pixel format,
   * reproduces the frame exactly when the frame has the size of a captured
   * frame, and is malformed for every other frame size.
   */
  lemma CapturedFrameFitsUpdate(frame: seq<byte>)
    ensures var decoded := DecodeRawUpdate(UpdateHeader() + frame, BytesPerPixel(KvmServerInit().format));
      && (|frame| == CaptureFrameBytes ==> decoded == Some(RawUpdate(FullScreen, frame)))
      && (|frame| != CaptureFrameBytes ==> decoded == None)
  {
    FullScreenHeader(frame);
    assert BytesPerPixel(KvmPixelFormat) == 4;
    assert RawLength(FullScreen, 4) == CaptureFrameBytes;
    if |frame| == CaptureFrameBytes {
      RawUpdateRoundTrip(FullScreen, frame, 4);
    } else {
      var b := UpdateHeader() + frame;
      assert b[8..10] == [0x07, 0x80] && b[10..12] == [0x04, 0x38];
    }
  }

  // ---------------------------------------------------------------- client input messages

  /** A KeyEvent as a client sends it: type 4, down-flag, two padding bytes, the keysym. */
  function EncodeKeyEvent(down: bool, key: u32): (r: seq<byte>)
    ensures |r| == 8 && r[0] == 4
  {
    [4, Flag(down), 0, 0] + Be32(key)
  }

  /** A PointerEvent as a client sends it: type 5, button mask, x, y. */
  function EncodePointerEvent(buttonMask: byte, x: u16, y: u16): (r: seq<byte>)
    ensures |r| == 6 && r[0] == 5
  {
    [5, buttonMask] + Be16(x) + Be16(y)
  }
}
