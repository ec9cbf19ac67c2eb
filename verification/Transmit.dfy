/**
 Outgoing data: the chunking loops of the transport (src/transport/mtp_transport.c:174-259), the
 header of a data container (src/ptp_container.c:133-158) and the read-and-send loop of GetObject
 (src/mtp_cmd_handler.c:445-530).
 */
module Transmit {
  import opened Codes
  import opened Bytes

  // The message queue to the USB thread.
  class TxQueue {
    var packets: seq<seq<Byte>>
    ghost var faults: nat  // sends that failed and cancels that were seen

    constructor ()
      ensures packets == [] && faults == 0
    {
      packets, faults := [], 0;
    }
  }

  function Concat(ps: seq<seq<Byte>>): seq<Byte> {
    if ps == [] then [] else Concat(ps[..|ps| - 1]) + ps[|ps| - 1]
  }

  // Every packet holds between one byte and a full chunk.
  ghost predicate Sized(ps: seq<seq<Byte>>, chunk: nat) {
    forall i :: 0 <= i < |ps| ==> 1 <= |ps[i]| <= chunk
  }

  lemma ConcatSnoc(ps: seq<seq<Byte>>, p: seq<Byte>)
    ensures Concat(ps + [p]) == Concat(ps) + p
  {
    assert (ps + [p])[..|ps|] == ps;
  }

  lemma {:induction false} ConcatJoin(a: seq<seq<Byte>>, b: seq<seq<Byte>>)
    ensures Concat(a + b) == Concat(a) + Concat(b)
  {
    if b == [] {
      assert a + b == a;
    } else {
      var n := |b| - 1;
      ConcatJoin(a, b[..n]);
      assert (a + b)[..|a + b| - 1] == a + b[..n];
    }
  }

  // _util_msgq_send
  method Enqueue(q: TxQueue, p: seq<Byte>) returns (ok: bool)
    modifies q
    ensures q.packets == old(q.packets) + (if ok then [p] else [])
    ensures q.faults == old(q.faults) + (if ok then 0 else 1)
  {
    ok := *;
    if ok {
      q.packets := q.packets + [p];
    } else {
      q.faults := q.faults + 1;
    }
  }

  /** _transport_send_bulk_pkt_to_tx_mq: full chunks, then a remainder of at least one byte */
  method SendBulk(q: TxQueue, buf: seq<Byte>, chunk: nat) returns (sent: nat, ghost ps: seq<seq<Byte>>)
    requires chunk > 0
    modifies q
    ensures q.packets == old(q.packets) + ps && Sized(ps, chunk)
    ensures Concat(ps) <= buf
    ensures sent == 0 || (sent == |buf| && Concat(ps) == buf)
    ensures q.faults >= old(q.faults)
    ensures sent == 0 <==> buf == [] || q.faults > old(q.faults)
    ensures buf != [] && sent == 0 ==> Concat(ps) != buf
  {
    hide Concat;
    ps := [];
    NoPackets();
    if buf == [] {
      return 0, ps;
    }
    var len := |buf|;
    sent := 0;
    while len > chunk
      invariant sent + len == |buf| && len > 0
      invariant q.packets == old(q.packets) + ps && Sized(ps, chunk) && Concat(ps) == buf[..sent]
      invariant q.faults == old(q.faults)
    {
      var p := buf[sent..sent + chunk];
      var ok := Enqueue(q, p);
      if !ok {
        return 0, ps;
      }
      ConcatSnoc(ps, p);
      ps := ps + [p];
      len := len - chunk;
      sent := sent + chunk;
    }
    var p := buf[sent..sent + len];
    var ok := Enqueue(q, p);
    if !ok {
      return 0, ps;
    }
    ConcatSnoc(ps, p);
    ps := ps + [p];
    sent := sent + len;
    assert buf[..sent] == buf;
  }

  /** _transport_send_pkt_to_tx_mq: packets of a chunk until nothing is left */
  method SendPacket(q: TxQueue, buf: seq<Byte>, chunk: nat) returns (sent: nat, ghost ps: seq<seq<Byte>>)
    requires chunk > 0
    modifies q
    ensures q.packets == old(q.packets) + ps && Sized(ps, chunk)
    ensures Concat(ps) <= buf
    ensures sent == 0 || (sent == |buf| && Concat(ps) == buf)
    ensures q.faults >= old(q.faults)
    ensures sent == 0 <==> buf == [] || q.faults > old(q.faults)
  {
    hide Concat;
    ps := [];
    NoPackets();
    if buf == [] {
      return 0, ps;
    }
    var len := |buf|;
    while len > 0
      invariant 0 <= len <= |buf|
      invariant q.packets == old(q.packets) + ps && Sized(ps, chunk) && Concat(ps) == buf[..|buf| - len]
      invariant q.faults == old(q.faults)
    {
      var n := if len < chunk then len else chunk;
      var p := buf[|buf| - len..|buf| - len + n];
      var ok := Enqueue(q, p);
      if !ok {
        return 0, ps;
      }
      ConcatSnoc(ps, p);
      ps := ps + [p];
      len := len - n;
    }
    sent := |buf|;
    assert buf[..|buf| - len] == buf;
  }

  lemma NoPackets()
    ensures Concat([]) == []
  {
  }

  // _hdlr_alloc_buf_data_container: the length field saturates.
  function Header(code: nat, tid: nat, payload: nat): (h: seq<Byte>)
    ensures |h| == HEADER
  {
    LE(if payload + HEADER > U32_MAX then U32_MAX else payload + HEADER, 4) + LE(DATA_BLK, 2) + LE(code, 2) + LE(tid, 4)
  }

  lemma HeaderLength(code: nat, tid: nat, payload: nat)
    ensures FromLE(Header(code, tid, payload)[..4]) == if payload + HEADER > U32_MAX then U32_MAX else payload + HEADER
  {
    hide LE, FromLE;
    var n := if payload + HEADER > U32_MAX then U32_MAX else payload + HEADER;
    assert Header(code, tid, payload)[..4] == LE(n, 4);
    Powers();
    LERoundTrip(n, 4);
  }

  // fread at a position
  function ReadAt(file: seq<Byte>, pos: nat, k: nat): (s: seq<Byte>)
    requires pos <= |file|
    ensures |s| <= k
  {
    file[pos..if pos + k < |file| then pos + k else |file|]
  }

  /**
   The data phase of GetObject, from the opened file on. `size` is the recorded size of the object.
   For a non-empty file of the recorded size, what is queued is a prefix of header and content,
   all of it exactly when the answer is OK, which it is when every send succeeds.
   */
  method SendFile(q: TxQueue, code: nat, tid: nat, size: nat, file: seq<Byte>, readSize: nat, chunk: nat)
    returns (response: nat, ghost ps: seq<seq<Byte>>)
    requires readSize > HEADER && chunk > 0
    modifies q
    ensures response == OK || response == INCOMPLETE_TRANSFER
    ensures q.packets == old(q.packets) + ps && Sized(ps, chunk)
    ensures file == [] ==> response == INCOMPLETE_TRANSFER && ps == []
    ensures q.faults >= old(q.faults)
    ensures file != [] && |file| == size ==>
      var stream := Header(code, tid, size) + file;
      Concat(ps) <= stream && (response == OK <==> Concat(ps) == stream)
        && (response == OK <==> q.faults == old(q.faults))
  {
    hide Concat, Header, Sized;
    ps := [];
    NoPackets();
    SizedNone(chunk);
    ghost var good := file != [] && |file| == size;
    ghost var stream := Header(code, tid, size) + file;
    var total := size + HEADER;
    var packetLen := if total < readSize then size else readSize - HEADER;
    var data := ReadAt(file, 0, packetLen);
    if |data| == 0 {
      return INCOMPLETE_TRANSFER, ps;
    }
    var first := Header(code, tid, size) + data + seq(packetLen - |data|, _ => 0);
    var ok;
    ok, ps := SendPart(q, first, chunk);
    assert good ==> first == stream[..|first|];
    if !ok {
      return INCOMPLETE_TRANSFER, ps;
    }
    var sent, pos := HEADER + |data|, |data|;
    while sent < total
      invariant pos <= |file| && sent == HEADER + pos
      invariant q.packets == old(q.packets) + ps && Sized(ps, chunk) && q.faults == old(q.faults)
      invariant file != [] && (good ==> Concat(ps) == stream[..sent])
      decreases total - sent
    {
      var part := ReadAt(file, pos, readSize);
      if |part| == 0 {
        return INCOMPLETE_TRANSFER, ps;
      }
      ghost var more;
      ok, more := SendPart(q, part, chunk);
      Longer(ps, more, stream, sent, part, chunk, good);
      ps := ps + more;
      if !ok {
        return INCOMPLETE_TRANSFER, ps;
      }
      sent := sent + |part|;
      pos := pos + |part|;
    }
    response := OK;
  }

  lemma SizedNone(chunk: nat)
    ensures Sized([], chunk)
  {
  }

  // A further part of the stream continues what was queued.
  lemma Longer(ps: seq<seq<Byte>>, more: seq<seq<Byte>>, stream: seq<Byte>, sent: nat, part: seq<Byte>, chunk: nat,
               good: bool)
    requires Sized(ps, chunk) && Sized(more, chunk) && Concat(more) <= part
    requires good ==> sent + |part| <= |stream| && Concat(ps) == stream[..sent] && part == stream[sent..sent + |part|]
    ensures Sized(ps + more, chunk)
    ensures good ==>
      && Concat(ps + more) <= stream
      && (Concat(more) == part ==> Concat(ps + more) == stream[..sent + |part|])
    ensures good && Concat(more) != part ==> Concat(ps + more) != stream
  {
    hide Concat;
    ConcatJoin(ps, more);
  }

  // One poll for a cancel, then one send.
  method SendPart(q: TxQueue, part: seq<Byte>, chunk: nat) returns (ok: bool, ghost ps: seq<seq<Byte>>)
    requires chunk > 0 && part != []
    modifies q
    ensures q.packets == old(q.packets) + ps && Sized(ps, chunk) && Concat(ps) <= part
    ensures ok ==> Concat(ps) == part && q.faults == old(q.faults)
    ensures !ok ==> q.faults > old(q.faults)
    ensures !ok ==> Concat(ps) != part
  {
    ps := [];
    var cancelled: bool := *;
    if cancelled {
      q.faults := q.faults + 1;
      return false, ps;
    }
    var sent;
    sent, ps := SendBulk(q, part, chunk);
    ok := sent == |part|;
  }
}
