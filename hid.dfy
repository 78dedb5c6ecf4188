/**
 * The HID gadget sink (src/hid.rs): a manager that knows the keyboard and
 * mouse device paths and writes whole reports to them, after a length guard.
 *
 * The host's device files are modelled as a map from path to the sequence of
 * writes each file has received. Opening a path for writing (without `create`)
 * fails exactly when the path is not in the map.
 */
module Hid {
  import opened Bytes

  /** Shortest report `send_keyboard_input` accepts (a boot keyboard report). */
  const KeyboardReportMin: nat := 8
  /** Shortest report `send_mouse_input` accepts (a boot mouse report). */
  const MouseReportMin: nat := 4

  /** Present device files, each with the writes it has received, oldest first. */
  type DeviceFiles = map<string, seq<seq<byte>>>

  datatype HidError = ReportTooShort(length: nat, minimum: nat) | OpenFailed(path: string)
  datatype HidResult = Ok | Err(error: HidError)

  /** Result of one write attempt and the device files afterwards. */
  datatype Write = Write(result: HidResult, files: DeviceFiles)

  /**
   * One guarded report write: refuse a report shorter than `minimum`, then open
   * `path` and write all of `data` to it as one write.
   */
  function WriteReport(files: DeviceFiles, path: string, data: seq<byte>, minimum: nat): (w: Write)
    ensures w.files.Keys == files.Keys
    ensures w.result == Ok <==> minimum <= |data| && path in files
    ensures |data| < minimum ==> w.result == Err(ReportTooShort(|data|, minimum))
    ensures minimum <= |data| && path !in files ==> w.result == Err(OpenFailed(path))
    ensures w.result.Err? ==> w.files == files
    ensures w.result == Ok ==> w.files[path] == files[path] + [data]
    ensures forall p :: p in files && p != path ==> w.files[p] == files[p]
  {
    if |data| < minimum then Write(Err(ReportTooShort(|data|, minimum)), files)
    else if path !in files then Write(Err(OpenFailed(path)), files)
    else Write(Ok, files[path := files[path] + [data]])
  }

  /** The writes a device file has received so far (none when it is absent). */
  function Log(files: DeviceFiles, path: string): seq<seq<byte>>
  {
    if path in files then files[path] else []
  }

  /** What a successful write adds to a log: the whole report, one entry, untruncated. */
  lemma WriteAppendsWholeReport(files: DeviceFiles, path: string, other: string, data: seq<byte>, minimum: nat)
    requires path != other
    ensures var w := WriteReport(files, path, data, minimum);
      && Log(w.files, other) == Log(files, other)
      && (w.result == Ok ==> Log(w.files, path) == Log(files, path) + [data])
      && (w.result != Ok ==> Log(w.files, path) == Log(files, path))
  {
  }

  /** A request to one of the two HID sinks, as the protocol front ends issue them. */
  datatype HidCall = NoCall | KeyboardCall(report: seq<byte>) | MouseCall(report: seq<byte>)

  /** The device files after a call, its result discarded (both front ends only log HID errors). */
  function ApplyCall(files: DeviceFiles, keyboardDevice: string, mouseDevice: string, call: HidCall): (f: DeviceFiles)
    ensures f.Keys == files.Keys
  {
    match call
    case NoCall => files
    case KeyboardCall(report) => WriteReport(files, keyboardDevice, report, KeyboardReportMin).files
    case MouseCall(report) => WriteReport(files, mouseDevice, report, MouseReportMin).files
  }

  /** The host's device files, shared by every HidManager (the operating system). */
  class DeviceTable {
    var files: DeviceFiles

    constructor (files: DeviceFiles)
      ensures this.files == files
    {
      this.files := files;
    }
  }

  /** `HidManager`: two fixed device paths; clones write to the same files. */
  class HidManager {
    const keyboardDevice: string
    const mouseDevice: string
    const host: DeviceTable

    /** `HidManager::new`: the paths are fixed here and never change (they are constants). */
    constructor (keyboardDevice: string, mouseDevice: string, host: DeviceTable)
      ensures this.keyboardDevice == keyboardDevice && this.mouseDevice == mouseDevice
      ensures this.host == host
    {
      this.keyboardDevice := keyboardDevice;
      this.mouseDevice := mouseDevice;
      this.host := host;
    }

    /** `#[derive(Clone)]`: a new manager for the same two devices on the same host. */
    method Clone() returns (c: HidManager)
      ensures fresh(c)
      ensures c.keyboardDevice == keyboardDevice && c.mouseDevice == mouseDevice && c.host == host
    {
      c := new HidManager(keyboardDevice, mouseDevice, host);
    }

    function KeyboardLog(): seq<seq<byte>>
      reads host
    {
      Log(host.files, keyboardDevice)
    }

    function MouseLog(): seq<seq<byte>>
      reads host
    {
      Log(host.files, mouseDevice)
    }

    /** `send_keyboard_input`: at least 8 bytes, written whole to the keyboard device. */
    method SendKeyboardInput(data: seq<byte>) returns (r: HidResult)
      modifies host
      ensures Write(r, host.files) == WriteReport(old(host.files), keyboardDevice, data, KeyboardReportMin)
      ensures |data| < KeyboardReportMin ==> r == Err(ReportTooShort(|data|, KeyboardReportMin)) && host.files == old(host.files)
      ensures keyboardDevice != mouseDevice ==> MouseLog() == old(MouseLog())
      ensures r == Ok ==> KeyboardLog() == old(KeyboardLog()) + [data]
    {
      if |data| < KeyboardReportMin {
        return Err(ReportTooShort(|data|, KeyboardReportMin));
      }
      if keyboardDevice !in host.files {
        return Err(OpenFailed(keyboardDevice));
      }
      host.files := host.files[keyboardDevice := host.files[keyboardDevice] + [data]];
      r := Ok;
    }

    /** `send_mouse_input`: at least 4 bytes, written whole to the mouse device. */
    method SendMouseInput(data: seq<byte>) returns (r: HidResult)
      modifies host
      ensures Write(r, host.files) == WriteReport(old(host.files), mouseDevice, data, MouseReportMin)
      ensures |data| < MouseReportMin ==> r == Err(ReportTooShort(|data|, MouseReportMin)) && host.files == old(host.files)
      ensures keyboardDevice != mouseDevice ==> KeyboardLog() == old(KeyboardLog())
      ensures r == Ok ==> MouseLog() == old(MouseLog()) + [data]
    {
      if |data| < MouseReportMin {
        return Err(ReportTooShort(|data|, MouseReportMin));
      }
      if mouseDevice !in host.files {
        return Err(OpenFailed(mouseDevice));
      }
      host.files := host.files[mouseDevice := host.files[mouseDevice] + [data]];
      r := Ok;
    }
  }
}
