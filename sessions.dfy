/**
 * What the two session loops (src/vnc.rs and src/websocket.rs) have in
 * common: a turn of the loop and a whole session, over the kind of output the
 * front end writes to its client (raw bytes for VNC, messages for the web
 * socket), and the splicing of one turn into the rest of a run that both loop
 * proofs use.
 */
module Sessions {
  import opened Hid

  /** One turn: whether the loop goes on, what was written to the client, and the device files after. */
  datatype Turn<T> = Turn(continues: bool, sent: seq<T>, files: DeviceFiles)

  /** A whole session: everything written, how many events were handled, and the device files at the end. */
  datatype Session<T> = Session(sent: seq<T>, handled: nat, files: DeviceFiles)

  lemma AppendAssoc<T>(a: seq<T>, b: seq<T>, c: seq<T>)
    ensures (a + b) + c == a + (b + c)
  {
  }

  /** Splicing one turn into a run: what was sent so far, the turn's output, and the rest. */
  lemma Splice<T>(total: Session<T>, sent: seq<T>, handled: nat, now: Session<T>, continues: bool, out: seq<T>,
                  after: DeviceFiles, rest: Session<T>)
    requires total == Session(sent + now.sent, handled + now.handled, now.files)
    requires now == if continues then Session(out + rest.sent, 1 + rest.handled, rest.files) else Session(out, 1, after)
    ensures continues ==> total == Session((sent + out) + rest.sent, (handled + 1) + rest.handled, rest.files)
    ensures !continues ==> total == Session(sent + out, handled + 1, after)
  {
    if continues {
      AppendAssoc(sent, out, rest.sent);
    }
  }
}
