/**
 * The fixed RFB handshake `handle_vnc_client` runs before the session
 * (src/vnc.rs), following section 7.1 of RFC 6143, as a state machine over
 * the client's bytes: the server sends its version, reads 12 version bytes,
 * offers one security type (None), reads the client's choice, sends
 * SecurityResult OK, reads the one-byte ClientInit, and sends ServerInit.
 *
 * A read that finds too few bytes is `read_exact` failing at end of stream.
 * Socket write failures are not modelled: every write completes.
 */
module RfbHandshake {
  import opened Bytes
  import opened Rfb

  /** The version string the server sends. */
  function ProtocolVersion(): (r: seq<byte>)
    ensures |r| == 12
  {
    [0x52, 0x46, 0x42, 0x20, 0x30, 0x30, 0x33, 0x2E, 0x30, 0x30, 0x38, 0x0A]
  }

  lemma ProtocolVersionText()
    ensures ProtocolVersion() == Ascii("RFB 003.008\n")
  {
  }

  /** One security type offered: 1 (None). */
  const SecurityTypes: seq<byte> := [1, 1]
  const SecurityNone: byte := 1
  /** SecurityResult: u32 0, OK. */
  const SecurityResultOk: seq<byte> := [0, 0, 0, 0]

  datatype HandshakeError =
    | EndOfStream                       // a `read_exact` found too few bytes
    | UnsupportedSecurity(choice: byte) // the client chose a type other than None

  datatype Phase =
    | Start
    | AwaitVersion
    | AwaitSecurityChoice
    | AwaitClientInit
    | Running
    | Closed(error: HandshakeError)

  /** A connection: its phase, the client bytes not yet read, and every byte sent so far. */
  datatype Conn = Conn(phase: Phase, unread: seq<byte>, sent: seq<byte>)

  predicate Finished(p: Phase)
  {
    p.Running? || p.Closed?
  }

  /** Steps left before the handshake finishes. */
  function StepsLeft(p: Phase): nat
  {
    match p
    case Start => 4
    case AwaitVersion => 3
    case AwaitSecurityChoice => 2
    case AwaitClientInit => 1
    case _ => 0
  }

  /** One write-and/or-read step of `handle_vnc_client`. */
  function Step(c: Conn): (d: Conn)
    requires !Finished(c.phase)
    ensures StepsLeft(d.phase) < StepsLeft(c.phase)
    ensures c.sent <= d.sent && |d.unread| <= |c.unread|
  {
    match c.phase
    case Start =>
      Conn(AwaitVersion, c.unread, c.sent + ProtocolVersion())
    case AwaitVersion =>
      // the 12 version bytes are read and never checked
      if |c.unread| < 12 then Conn(Closed(EndOfStream), c.unread, c.sent)
      else Conn(AwaitSecurityChoice, c.unread[12..], c.sent + SecurityTypes)
    case AwaitSecurityChoice =>
      if |c.unread| < 1 then Conn(Closed(EndOfStream), c.unread, c.sent)
      else if c.unread[0] != SecurityNone then Conn(Closed(UnsupportedSecurity(c.unread[0])), c.unread[1..], c.sent)
      else Conn(AwaitClientInit, c.unread[1..], c.sent + SecurityResultOk)
    case AwaitClientInit =>
      // the shared flag is read and never used
      if |c.unread| < 1 then Conn(Closed(EndOfStream), c.unread, c.sent)
      else Conn(Running, c.unread[1..], c.sent + ServerInitMessage())
  }

  /** Steps until the handshake has finished, one way or the other. */
  function Run(c: Conn): (d: Conn)
    ensures Finished(d.phase)
    ensures c.sent <= d.sent
    decreases StepsLeft(c.phase)
  {
    if Finished(c.phase) then c else Run(Step(c))
  }

  /** `s` is what is left of `t` after reading some bytes from its front. */
  predicate SuffixOf(s: seq<byte>, t: seq<byte>)
  {
    |s| <= |t| && s == t[|t| - |s|..]
  }

  /** A step only reads client bytes from the front: what is left unread is a suffix of what was. */
  lemma StepConsumes(c: Conn)
    requires !Finished(c.phase)
    ensures SuffixOf(Step(c).unread, c.unread)
  {
    var u := c.unread;
    if c.phase.AwaitVersion? && |u| >= 12 {
      assert Step(c).unread == u[12..];
    } else if (c.phase.AwaitSecurityChoice? || c.phase.AwaitClientInit?) && |u| >= 1 {
      assert Step(c).unread == u[1..];
    } else {
      assert Step(c).unread == u;
      assert u[|u| - |u|..] == u;
    }
  }

  /** So does the whole handshake. */
  lemma {:induction false} RunConsumes(c: Conn)
    ensures SuffixOf(Run(c).unread, c.unread)
    decreases StepsLeft(c.phase)
  {
    if !Finished(c.phase) {
      var d := Step(c);
      StepConsumes(c);
      RunConsumes(d);
      var e := Run(d);
      assert c.unread[|c.unread| - |d.unread|..][|d.unread| - |e.unread|..] == c.unread[|c.unread| - |e.unread|..];
    }
  }

  /** The handshake on the whole of what the client sends. */
  function Handshake(input: seq<byte>): Conn
  {
    Run(Conn(Start, input, []))
  }

  /** Everything the server sends in a handshake that succeeds. */
  function Transcript(): seq<byte>
  {
    ProtocolVersion() + SecurityTypes + SecurityResultOk + ServerInitMessage()
  }

  /**
   * What the handshake does with each client input, case by case: the cost of
   * each early end of stream, the rejection of any security type other than
   * None, and success.
   */
  function Expected(input: seq<byte>): Conn
  {
    if |input| < 12 then Conn(Closed(EndOfStream), input, ProtocolVersion())
    else if |input| == 12 then Conn(Closed(EndOfStream), [], ProtocolVersion() + SecurityTypes)
    else if input[12] != SecurityNone then
      Conn(Closed(UnsupportedSecurity(input[12])), input[13..], ProtocolVersion() + SecurityTypes)
    else if |input| == 13 then Conn(Closed(EndOfStream), [], ProtocolVersion() + SecurityTypes + SecurityResultOk)
    else Conn(Running, input[14..], Transcript())
  }

  /** The state machine run on the client's bytes is the case-by-case outcome. */
  lemma HandshakeIsExpected(input: seq<byte>)
    ensures Handshake(input) == Expected(input)
  {
    var pv := ProtocolVersion();
    var c1 := Step(Conn(Start, input, []));
    assert c1 == Conn(AwaitVersion, input, pv);
    assert Handshake(input) == Run(c1);
    if |input| < 12 {
      assert Run(c1) == Step(c1);
    } else {
      var c2 := Step(c1);
      assert c2 == Conn(AwaitSecurityChoice, input[12..], pv + SecurityTypes);
      assert Run(c1) == Run(c2);
      if |input| == 12 {
        assert Run(c2) == Step(c2);
      } else if input[12] != SecurityNone {
        assert c2.unread[0] == input[12];
        assert Run(c2) == Step(c2);
        assert input[12..][1..] == input[13..];
      } else {
        var c3 := Step(c2);
        assert c3 == Conn(AwaitClientInit, input[13..], pv + SecurityTypes + SecurityResultOk) by {
          assert input[12..][1..] == input[13..];
        }
        assert Run(c2) == Run(c3) == Step(c3);
        if |input| > 13 {
          assert Step(c3) == Conn(Running, input[14..], Transcript()) by {
            assert input[13..][1..] == input[14..];
          }
        }
      }
    }
  }

  /**
   * The handshake succeeds exactly when the client sends at least 14 bytes and
   * its 13th byte chooses None; then the server has sent version, security list,
   * SecurityResult and ServerInit, and the bytes after the ClientInit are left
   * for the session.
   */
  lemma HandshakeSucceeds(input: seq<byte>)
    ensures var c := Handshake(input);
      && (c.phase == Running <==> |input| >= 14 && input[12] == SecurityNone)
      && (c.phase == Running ==> c.sent == Transcript() && c.unread == input[14..])
  {
    HandshakeIsExpected(input);
  }

  /**
   * A client that chooses any security type other than None gets an error, and
   * nothing beyond the version and the security list has been sent.
   */
  lemma RejectedSecurityChoice(input: seq<byte>)
    requires |input| >= 13 && input[12] != SecurityNone
    ensures Handshake(input).phase == Closed(UnsupportedSecurity(input[12]))
    ensures Handshake(input).sent == ProtocolVersion() + SecurityTypes
  {
    HandshakeIsExpected(input);
  }

  /**
   * The client's version bytes and its ClientInit byte are never looked at: any
   * two inputs that differ only there lead to the same outcome, the same output
   * and, on success, the same bytes left for the session.
   */
  lemma VersionAndClientInitIgnored(input1: seq<byte>, input2: seq<byte>)
    requires |input1| == |input2|
    requires forall i :: 12 <= i < |input1| && i != 13 ==> input1[i] == input2[i]
    ensures Handshake(input1).phase == Handshake(input2).phase
    ensures Handshake(input1).sent == Handshake(input2).sent
    ensures Handshake(input1).phase == Running ==> Handshake(input1).unread == Handshake(input2).unread
  {
    HandshakeIsExpected(input1);
    HandshakeIsExpected(input2);
    if |input1| > 14 {
      assert input1[14..] == input2[14..];
    }
    if |input1| > 12 {
      assert input1[12] == input2[12];
    }
  }

  /** Whatever the client does, the server's output is a prefix of the success transcript. */
  lemma SentIsPrefixOfTranscript(input: seq<byte>)
    ensures Handshake(input).sent <= Transcript()
  {
    HandshakeIsExpected(input);
  }
}
