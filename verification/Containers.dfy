/** Command containers (src/ptp_container.c:36-118). */
module Containers {
  import opened Codes
  import opened Bytes
  import opened Transmit
  import opened Reassembly

  datatype Command = Command(code: nat, tid: nat, params: seq<nat>)

  // _hdlr_get_param_cmd_container: a parameter that was not sent reads as 0.
  function Param(c: Command, i: nat): nat {
    if i < |c.params| then c.params[i] else 0
  }

  // _hdlr_validate_cmd_container
  predicate IsCommand(buf: seq<Byte>) {
    HEADER <= |buf| <= CMD_CONTAINER_SIZE && LenOf(buf) == |buf| && TypeOf(buf) == CMD_BLK
  }

  // _hdlr_copy_cmd_container_unknown_params
  function Decode(buf: seq<Byte>): Command
    requires IsCommand(buf)
  {
    Command(CodeOf(buf), TidOf(buf), Words(buf[HEADER..]))
  }

  // A command as a host sends it
  function Encode(c: Command): (s: seq<Byte>) {
    LE(HEADER + 4 * |c.params|, 4) + LE(CMD_BLK, 2) + LE(c.code, 2) + LE(c.tid, 4) + WordBytes(c.params)
  }

  /** A command of at most five parameters is recognised and read back as sent. */
  lemma CommandRoundTrip(c: Command)
    requires c.code < 0x1_0000 && c.tid < 0x1_0000_0000 && |c.params| <= 5
    requires forall i :: 0 <= i < |c.params| ==> c.params[i] < 0x1_0000_0000
    ensures IsCommand(Encode(c)) && Decode(Encode(c)) == c
  {
    hide LE, FromLE, WordBytes, Words, Pow256;
    var s := Encode(c);
    var n := HEADER + 4 * |c.params|;
    assert s[0..4] == LE(n, 4) && s[4..6] == LE(CMD_BLK, 2) && s[6..8] == LE(c.code, 2) && s[8..12] == LE(c.tid, 4);
    assert s[HEADER..] == WordBytes(c.params);
    Powers();
    LERoundTrip(n, 4);
    LERoundTrip(CMD_BLK, 2);
    LERoundTrip(c.code, 2);
    LERoundTrip(c.tid, 4);
    WordsBack(c.params);
  }

  /** Exactly these bytes are a command: 12 to 36 of them, led by their own number and the command type. */
  lemma CommandBytes(buf: seq<Byte>)
    ensures IsCommand(buf) <==> 12 <= |buf| <= 36 && buf[..6] == [|buf|, 0, 0, 0, 1, 0]
  {
    hide FromLE;
    if 12 <= |buf| <= 36 {
      Fields(buf[0..4]);
      Fields(buf[4..6]);
      assert buf[..6] == [buf[0], buf[1], buf[2], buf[3], buf[4], buf[5]];
    }
  }

  /** A command of whole parameters is what encoding the command read from it gives. */
  lemma EncodeDecode(buf: seq<Byte>)
    requires IsCommand(buf) && |buf| % 4 == 0
    ensures Encode(Decode(buf)) == buf
  {
    hide LE, FromLE, WordBytes, Words;
    var c := Decode(buf);
    WordAt(buf[HEADER..], 0);
    FromLERoundTrip(buf[0..4]);
    FromLERoundTrip(buf[4..6]);
    FromLERoundTrip(buf[6..8]);
    FromLERoundTrip(buf[8..12]);
    BytesBack(buf[HEADER..]);
    assert HEADER + 4 * |c.params| == |buf|;
    assert buf == buf[0..4] + buf[4..6] + buf[6..8] + buf[8..12] + buf[HEADER..];
  }

  /** Where a command lies in its bytes: a parameter that was not sent is 0. */
  lemma CommandFields(buf: seq<Byte>, i: nat)
    requires IsCommand(buf)
    ensures Decode(buf).code == FromLE(buf[6..8]) && Decode(buf).tid == FromLE(buf[8..12])
    ensures Param(Decode(buf), i) ==
      if 4 * i + 16 <= |buf| then FromLE(buf[12 + 4 * i..16 + 4 * i]) else 0
  {
    hide FromLE, Words;
    WordAt(buf[HEADER..], i);
    if 4 * i + 16 <= |buf| {
      assert buf[HEADER..][4 * i..4 * i + 4] == buf[12 + 4 * i..16 + 4 * i];
    }
  }

  /** No data container is taken for a command, whatever it holds. */
  lemma DataIsNoCommand(code: nat, tid: nat, payload: seq<Byte>)
    ensures !IsCommand(Header(code, tid, |payload|) + payload)
  {
    hide LE, FromLE, Pow256;
    var s := Header(code, tid, |payload|) + payload;
    assert s[4..6] == LE(DATA_BLK, 2);
    Powers();
    LERoundTrip(DATA_BLK, 2);
  }
}
