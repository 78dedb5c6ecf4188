/**
 * The input translators of the VNC server (src/vnc.rs): X11 keysyms to USB
 * HID Keyboard/Keypad usages in an 8-byte boot keyboard report, and RFB
 * pointer events to a 4-byte boot mouse report. The boot report layouts (HID
 * 1.11, appendix B) are given as decoders, against which the translators'
 * outputs are read.
 */
module KeyMap {
  import opened Bytes

  // X11 keysyms with an entry of their own in the table (section 7.5.4 of RFC 6143 uses X11 keysyms).
  const KeyBackSpace: u32 := 0xff08
  const KeyTab: u32 := 0xff09
  const KeyReturn: u32 := 0xff0d
  const KeyEscape: u32 := 0xff1b
  const KeyHome: u32 := 0xff50
  const KeyLeft: u32 := 0xff51
  const KeyUp: u32 := 0xff52
  const KeyRight: u32 := 0xff53
  const KeyDown: u32 := 0xff54
  const KeySpace: u32 := 0x0020

  predicate IsUpper(key: u32) { 0x41 <= key <= 0x5a }
  predicate IsLower(key: u32) { 0x61 <= key <= 0x7a }
  predicate IsDigit(key: u32) { 0x30 <= key <= 0x39 }

  /** The keysyms with a named table entry. */
  predicate IsNamedKey(key: u32)
  {
    key in {KeyBackSpace, KeyTab, KeyReturn, KeyEscape, KeyHome, KeyLeft, KeyUp, KeyRight, KeyDown, KeySpace}
  }

  /** The usage `vnc_key_to_hid` picks for a keysym, or None for a keysym outside its table. */
  function KeysymToUsage(key: u32): (u: Option<byte>)
    ensures u.Some? <==> IsNamedKey(key) || IsUpper(key) || IsLower(key) || IsDigit(key)
    ensures u.Some? ==> 0x04 <= u.value <= 0x52
  {
    match key
    case 0xff08 => Some(0x2a)
    case 0xff09 => Some(0x2b)
    case 0xff0d => Some(0x28)
    case 0xff1b => Some(0x29)
    case 0xff50 => Some(0x4f)
    case 0xff51 => Some(0x50)
    case 0xff52 => Some(0x52)
    case 0xff53 => Some(0x4f)
    case 0xff54 => Some(0x51)
    case 0x0020 => Some(0x2c)
    case _ =>
      if IsUpper(key) then Some(key - 0x41 + 0x04)
      else if IsLower(key) then Some(key - 0x61 + 0x04)
      else if IsDigit(key) then Some(key - 0x30 + 0x27)
      else None
  }

  /** Upper and lower case of a letter give the same usage, the letter's offset from 0x04 (0x04 to 0x1d). */
  lemma LetterUsage(key: u32)
    requires IsUpper(key)
    ensures KeysymToUsage(key) == KeysymToUsage(key + 0x20) == Some(key - 0x41 + 0x04)
    ensures 0x04 <= key - 0x41 + 0x04 <= 0x1d
  {
  }

  /** Digits are offset from 0x27: '0' gives 0x27, '1' gives 0x28, up to '9' giving 0x30. */
  lemma DigitUsage(key: u32)
    requires IsDigit(key)
    ensures KeysymToUsage(key) == Some(key - 0x30 + 0x27)
    ensures 0x27 <= key - 0x30 + 0x27 <= 0x30
  {
  }

  /**
   * Exactly which keysyms share a usage: the two cases of a letter, Home with
   * Right (both 0x4f), and, because digits are offset from 0x27, the digits
   * '1' to '5' with Return, Escape, BackSpace, Tab and Space (0x28 to 0x2c).
   * Pairs are listed with the smaller keysym first; each listed pair does
   * share its usage, and no other pair of mapped keysyms does.
   */
  lemma SharedUsages(k1: u32, k2: u32)
    requires k1 < k2
    requires KeysymToUsage(k1).Some?
    ensures KeysymToUsage(k1) == KeysymToUsage(k2) <==>
            || (IsUpper(k1) && k2 == k1 + 0x20)
            || (k1 == KeyHome && k2 == KeyRight)
            || (k1 == 0x31 && k2 == KeyReturn)
            || (k1 == 0x32 && k2 == KeyEscape)
            || (k1 == 0x33 && k2 == KeyBackSpace)
            || (k1 == 0x34 && k2 == KeyTab)
            || (k1 == KeySpace && k2 == 0x35)
  {
    if KeysymToUsage(k1) == KeysymToUsage(k2) {
      var u := KeysymToUsage(k1).value;
      if IsUpper(k1) || IsLower(k1) {
        assert u <= 0x1d;
        assert IsUpper(k2) || IsLower(k2);
      } else if IsDigit(k1) {
        assert 0x27 <= u <= 0x30;
        assert !IsUpper(k2) && !IsLower(k2);
      } else {
        assert IsNamedKey(k1);
        assert !IsUpper(k2) && !IsLower(k2);
      }
    }
  }

  /** The shared usages named one by one: Home and Right, and '1' to '5' with Return, Escape, BackSpace, Tab and Space. */
  lemma SharedUsageValues()
    ensures KeysymToUsage(KeyHome) == KeysymToUsage(KeyRight) == Some(0x4f)
    ensures KeysymToUsage(0x31) == KeysymToUsage(KeyReturn) == Some(0x28)
    ensures KeysymToUsage(0x32) == KeysymToUsage(KeyEscape) == Some(0x29)
    ensures KeysymToUsage(0x33) == KeysymToUsage(KeyBackSpace) == Some(0x2a)
    ensures KeysymToUsage(0x34) == KeysymToUsage(KeyTab) == Some(0x2b)
    ensures KeysymToUsage(KeySpace) == KeysymToUsage(0x35) == Some(0x2c)
  {
  }

  // ---------------------------------------------------------------- boot keyboard report

  /** A boot keyboard report read as its modifier byte and the usages held, in slot order. */
  datatype KeyboardState = KeyboardState(modifiers: byte, pressed: seq<byte>)

  /** The non-zero entries of a sequence of key slots, in order (0 marks an empty slot). */
  function Held(slots: seq<byte>): (r: seq<byte>)
    ensures |r| <= |slots|
    ensures forall i :: 0 <= i < |r| ==> r[i] != 0
  {
    if slots == [] then []
    else if slots[0] == 0 then Held(slots[1..])
    else [slots[0]] + Held(slots[1..])
  }

  /** Reads an 8-byte boot keyboard report: modifiers, a reserved byte, six key slots. */
  function DecodeKeyboardReport(report: seq<byte>): (r: Option<KeyboardState>)
    ensures r.Some? <==> |report| == 8
  {
    if |report| != 8 then None else Some(KeyboardState(report[0], Held(report[2..8])))
  }

  function Zeros(n: nat): (r: seq<byte>)
    ensures |r| == n && forall i :: 0 <= i < n ==> r[i] == 0
  {
    if n == 0 then [] else [0] + Zeros(n - 1)
  }

  /** Writes a boot keyboard report for at most six held usages, empty slots at the end. */
  function EncodeKeyboardReport(k: KeyboardState): (r: seq<byte>)
    requires |k.pressed| <= 6
    ensures |r| == 8
  {
    [k.modifiers, 0] + k.pressed + Zeros(6 - |k.pressed|)
  }

  lemma {:induction false} HeldOfKeysThenZeros(keys: seq<byte>, n: nat)
    requires forall i :: 0 <= i < |keys| ==> keys[i] != 0
    ensures Held(keys + Zeros(n)) == keys
  {
    if keys == [] {
      assert keys + Zeros(n) == Zeros(n);
      if n > 0 {
        assert Zeros(n)[1..] == Zeros(n - 1) == [] + Zeros(n - 1);
        HeldOfKeysThenZeros([], n - 1);
      }
    } else {
      assert (keys + Zeros(n))[1..] == keys[1..] + Zeros(n);
      HeldOfKeysThenZeros(keys[1..], n);
    }
  }

  /** Any keyboard state with at most six held, non-zero usages survives encoding. */
  lemma KeyboardReportRoundTrip(k: KeyboardState)
    requires |k.pressed| <= 6
    requires forall i :: 0 <= i < |k.pressed| ==> k.pressed[i] != 0
    ensures DecodeKeyboardReport(EncodeKeyboardReport(k)) == Some(k)
  {
    var r := EncodeKeyboardReport(k);
    assert r[2..8] == k.pressed + Zeros(6 - |k.pressed|);
    HeldOfKeysThenZeros(k.pressed, 6 - |k.pressed|);
  }

  /** `vnc_key_to_hid`: on press the usage alone in the first key slot, on release an all-zero report. */
  function VncKeyToHid(key: u32, down: bool): (r: Option<seq<byte>>)
    ensures r.Some? <==> KeysymToUsage(key).Some?
    ensures r.Some? ==> |r.value| == 8
    ensures r.Some? && !down ==> forall i :: 0 <= i < 8 ==> r.value[i] == 0
    ensures r.Some? && down ==> r.value[2] == KeysymToUsage(key).value
                                && forall i :: 0 <= i < 8 && i != 2 ==> r.value[i] == 0
  {
    match KeysymToUsage(key)
    case None => None
    case Some(usage) =>
      if down then Some([0, 0, usage, 0, 0, 0, 0, 0])
      else Some([0, 0, 0, 0, 0, 0, 0, 0])
  }

  /** Read as a boot report, a press holds exactly the key's usage with no modifier, and a release holds nothing. */
  lemma KeyReportMeaning(key: u32, down: bool)
    requires KeysymToUsage(key).Some?
    ensures down ==> VncKeyToHid(key, true).value == EncodeKeyboardReport(KeyboardState(0, [KeysymToUsage(key).value]))
    ensures DecodeKeyboardReport(VncKeyToHid(key, down).value)
         == Some(KeyboardState(0, if down then [KeysymToUsage(key).value] else []))
  {
    var u := KeysymToUsage(key).value;
    if down {
      assert VncKeyToHid(key, true).value == EncodeKeyboardReport(KeyboardState(0, [u]));
      KeyboardReportRoundTrip(KeyboardState(0, [u]));
    } else {
      assert VncKeyToHid(key, false).value == EncodeKeyboardReport(KeyboardState(0, []));
      KeyboardReportRoundTrip(KeyboardState(0, []));
    }
  }

  // ---------------------------------------------------------------- boot mouse report

  /** Bit i of a byte. */
  function Bit(b: byte, i: nat): bool
    requires i < 8
  {
    (b / Pow2(i)) % 2 == 1
  }

  function Pow2(i: nat): (r: nat)
    ensures r >= 1
  {
    if i == 0 then 1 else 2 * Pow2(i - 1)
  }

  /** A byte read as a two's-complement i8. */
  function AsI8(b: byte): (v: int)
    ensures -128 <= v < 128
  {
    if b < 128 then b else b - 256
  }

  /** A boot mouse report read as its buttons 1 to 3 and its signed movements. */
  datatype MouseState = MouseState(button1: bool, button2: bool, button3: bool, dx: int, dy: int, wheel: int)

  /** Reads a 4-byte boot mouse report: button bits, then dx, dy and wheel as i8. */
  function DecodeMouseReport(report: seq<byte>): (r: Option<MouseState>)
    ensures r.Some? <==> |report| == 4
  {
    if |report| != 4 then None
    else Some(MouseState(Bit(report[0], 0), Bit(report[0], 1), Bit(report[0], 2),
                         AsI8(report[1]), AsI8(report[2]), AsI8(report[3])))
  }

  /** Bits 0 to 2 of a byte survive taking it modulo 8. */
  lemma LowBitsAgree(m: byte)
    ensures Bit(m % 8, 0) == Bit(m, 0) && Bit(m % 8, 1) == Bit(m, 1) && Bit(m % 8, 2) == Bit(m, 2)
  {
    assert Pow2(0) == 1 && Pow2(1) == 2 && Pow2(2) == 4;
    var q := m / 8;
    var r := m % 8;
    assert m == 8 * q + r;
    assert m / 2 == 4 * q + r / 2;
    assert m / 4 == 2 * q + r / 4;
  }

  /** `vnc_pointer_to_hid`: the low three bits of the button mask, no movement, no wheel. */
  function VncPointerToHid(buttonMask: byte, x: u16, y: u16): (r: seq<byte>)
    ensures |r| == 4 && r[0] == buttonMask % 8 && r[0] <= 7
    ensures r[1] == 0 && r[2] == 0 && r[3] == 0
  {
    LowThreeBits(buttonMask);
    [BitAnd(buttonMask, 0x07), 0, 0, 0]
  }

  /**
   * Read as a boot report, HID buttons 1, 2 and 3 are RFB mask bits 0, 1 and 2
   * (RFB's left, middle and right), with no movement; higher mask bits (the
   * RFB wheel buttons) and the position are dropped.
   */
  lemma PointerReportMeaning(buttonMask: byte, x: u16, y: u16)
    ensures DecodeMouseReport(VncPointerToHid(buttonMask, x, y))
         == Some(MouseState(Bit(buttonMask, 0), Bit(buttonMask, 1), Bit(buttonMask, 2), 0, 0, 0))
  {
    LowBitsAgree(buttonMask);
  }

  /** The report does not depend on the pointer position. */
  lemma PointerIgnoresPosition(buttonMask: byte, x1: u16, y1: u16, x2: u16, y2: u16)
    ensures VncPointerToHid(buttonMask, x1, y1) == VncPointerToHid(buttonMask, x2, y2)
  {
  }
}
