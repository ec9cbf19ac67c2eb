/**
 Incoming data: the temporary file a data phase is collected in (src/mtp_cmd_handler.c:1434-1551,
 src/transport/mtp_transport.c:62-139) and the containers read back from it (src/ptp_container.c:185-286).
 */
module Reassembly {
  import opened Codes
  import opened Bytes
  import opened Transmit

  function U32(n: int): nat {
    n % 0x1_0000_0000
  }

  // Fields of a container header
  function LenOf(h: seq<Byte>): nat requires |h| >= HEADER { FromLE(h[0..4]) }
  function TypeOf(h: seq<Byte>): nat requires |h| >= HEADER { FromLE(h[4..6]) }
  function CodeOf(h: seq<Byte>): nat requires |h| >= HEADER { FromLE(h[6..8]) }
  function TidOf(h: seq<Byte>): nat requires |h| >= HEADER { FromLE(h[8..12]) }

  lemma HeaderFields(code: nat, tid: nat, payload: nat)
    requires code < 0x1_0000 && tid < 0x1_0000_0000
    ensures var h := Header(code, tid, payload);
      && LenOf(h) == (if payload + HEADER > U32_MAX then U32_MAX else payload + HEADER)
      && TypeOf(h) == DATA_BLK && CodeOf(h) == code && TidOf(h) == tid
      && FromLE(h[4..6]) == 2 && FromLE(h[6..8]) == code && FromLE(h[8..12]) == tid
  {
    hide LE, FromLE, Pow256;
    var h := Header(code, tid, payload);
    HeaderLength(code, tid, payload);
    Powers();
    assert h[0..4] == h[..4] && h[4..6] == LE(DATA_BLK, 2) && h[6..8] == LE(code, 2) && h[8..12] == LE(tid, 4);
    LERoundTrip(DATA_BLK, 2);
    LERoundTrip(code, 2);
    LERoundTrip(tid, 4);
  }

  class TempFile {
    var headerBuf: seq<Byte>      // header of the data container
    var dataSize: nat             // bytes held back in the buffer
    var dataCount: nat            // packets of the data phase so far
    var fileSize: nat             // payload length announced by the header, 32 bits
    var sizeRemaining: nat        // payload bytes received so far, 32 bits
    var isOpen: bool
    var disk: seq<Byte>           // contents of the temporary file
    const buffer: array<Byte>

    ghost var received: seq<Byte> // payload bytes received so far
    ghost var lost: bool          // some write to the temporary file fell short
    ghost var faults: nat         // failed creations, short writes and failed reads, ever

    constructor (writeFileSize: nat)
      ensures Idle() && fresh(buffer) && buffer.Length == writeFileSize && dataCount == 0 && disk == []
    {
      headerBuf := seq(HEADER, _ => 0);
      dataSize, dataCount, fileSize, sizeRemaining, isOpen, disk := 0, 0, 0, 0, false, [];
      buffer := new Byte[writeFileSize](_ => 0);
      received, lost, faults := [], false, 0;
    }

    ghost predicate Idle()
      reads this
    {
      |headerBuf| == HEADER
    }

    // Between two packets of a data phase
    ghost predicate Collecting()
      reads this, buffer
    {
      && |headerBuf| == HEADER && isOpen && dataSize <= buffer.Length
      && (!lost ==> disk + buffer[..dataSize] == received)
      && fileSize == U32(LenOf(headerBuf) - HEADER) && sizeRemaining == U32(|received|)
    }

    // After the last packet
    ghost predicate Collected()
      reads this
    {
      |headerBuf| == HEADER && !isOpen && (!lost ==> disk == received)
    }

    // _util_file_write: a short write is reported in the log and otherwise ignored
    method Write(bytes: seq<Byte>)
      modifies this`disk, this`lost, this`faults
      ensures disk == old(disk) + bytes || lost
      ensures old(lost) ==> lost
      ensures faults >= old(faults) && (faults == old(faults) ==> lost == old(lost))
    {
      var k: int := *;
      if 0 <= k < |bytes| {
        disk := disk + bytes[..k];
        lost, faults := true, faults + 1;
      } else {
        disk := disk + bytes;
      }
    }

    /** __receive_temp_file_first_packet. `created` is false when the temporary file cannot be
        created, which also ends the data phase. */
    method FirstPacket(data: seq<Byte>) returns (created: bool, done: bool)
      requires Idle() && dataCount == 0 && HEADER <= |data| && |data| - HEADER <= buffer.Length
      modifies this, buffer
      ensures !created ==> done && headerBuf == old(headerBuf) && dataCount == 0 && Idle()
      ensures created ==> headerBuf == data[..HEADER] && received == data[HEADER..] && LenOf(headerBuf) == LenOf(data)
      ensures created ==> (done <==> |data| - HEADER == U32(LenOf(data) - HEADER))
      ensures created ==> if done then Collected() && dataCount == 0 else Collecting() && dataCount == 1
      ensures faults >= old(faults) && (faults == old(faults) ==> created && !lost)
    {
      hide FromLE, LE;
      created := *;
      if !created {
        isOpen, faults := false, faults + 1;
        return false, true;
      }
      isOpen, disk, lost := true, [], false;
      headerBuf := data[..HEADER];
      assert headerBuf[0..4] == data[0..4];
      fileSize := U32(LenOf(data) - HEADER);
      received := data[HEADER..];
      var n := |data| - HEADER;
      if n == fileSize {
        Write(data[HEADER..]);
        dataSize := 0;
        isOpen := false;
        done := true;
      } else {
        dataCount := dataCount + 1;
        sizeRemaining := U32(n);
        Put(buffer, 0, data[HEADER..]);
        dataSize := n;
        assert buffer[..dataSize] == received;
        done := false;
      }
    }

    // Move the held-back bytes to the file.
    method Flush()
      requires dataSize <= buffer.Length
      modifies this`disk, this`lost, this`dataSize, this`faults
      ensures dataSize == 0 && (old(lost) ==> lost)
      ensures faults >= old(faults) && (faults == old(faults) ==> lost == old(lost))
      ensures lost || disk == old(disk) + old(buffer[..dataSize])
    {
      Write(buffer[..dataSize]);
      dataSize := 0;
    }

    /** __receive_temp_file_next_packets */
    method NextPacket(data: seq<Byte>, rxSize: nat) returns (done: bool)
      requires Collecting() && dataCount > 0 && |data| <= buffer.Length
      modifies this, buffer
      ensures headerBuf == old(headerBuf) && received == old(received) + data
      ensures done <==> |data| < rxSize || U32(|received|) == U32(LenOf(headerBuf) - HEADER)
      ensures if done then Collected() && dataCount == 0 else Collecting() && dataCount == old(dataCount) + 1
      ensures faults >= old(faults) && (faults == old(faults) ==> lost == old(lost))
    {
      hide FromLE, LE, LenOf;
      dataCount := dataCount + 1;
      WrapAdd(|received|, |data|);
      received := received + data;
      sizeRemaining := U32(sizeRemaining + |data|);
      Hold(data);
      done := |data| < rxSize || sizeRemaining == fileSize;
      if done {
        Flush();
        isOpen := false;
        dataCount := 0;
      }
    }

    // Buffer the bytes of a packet, after making room for them.
    method Hold(data: seq<Byte>)
      requires dataSize <= buffer.Length && |data| <= buffer.Length
      modifies this`disk, this`lost, this`dataSize, this`faults, buffer
      ensures dataSize <= buffer.Length && (old(lost) ==> lost)
      ensures faults >= old(faults) && (faults == old(faults) ==> lost == old(lost))
      ensures lost || disk + buffer[..dataSize] == old(disk + buffer[..dataSize]) + data
    {
      ghost var was := disk + buffer[..dataSize];
      if dataSize + |data| > buffer.Length {
        Flush();
      }
      assert lost || disk + buffer[..dataSize] == was;
      ghost var kept := buffer[..dataSize];
      Put(buffer, dataSize, data);
      dataSize := dataSize + |data|;
      assert buffer[..dataSize] == kept + data;
      assert disk + (kept + data) == disk + kept + data;
    }

    /**
     _hdlr_rcv_data_container with room for `max` payload bytes. On success the payload is the
     whole temporary file, and its header is the expected one with the length of that file.
     */
    method ReceiveData(max: nat, code: nat, tid: nat) returns (ok: bool, readable: bool, payload: seq<Byte>)
      requires |headerBuf| == HEADER
      modifies this`disk, this`dataSize, this`dataCount, this`faults
      ensures faults == old(faults) + if readable then 0 else 1
      ensures readable ==> payload == old(disk)[..if |old(disk)| <= max + 4 then |old(disk)| else max + 4]
      ensures ok <==> readable && Expected(headerBuf, code, tid) && LenOf(headerBuf) == HEADER + |payload|
      ensures dataCount == 0 || (!readable && dataCount == old(dataCount))
    {
      hide FromLE;
      ok, payload := false, [];
      readable := *;
      if !readable {
        faults := faults + 1;
        return;
      }
      payload := if |disk| <= max + 4 then disk else disk[..max + 4];
      disk, dataSize, dataCount := [], 0, 0;
      ok := LenOf(headerBuf) == HEADER + |payload| && Expected(headerBuf, code, tid);
    }

    /** _hdlr_rcv_file_in_data_container: the length must be that of the file, unless it is 4 GiB or more */
    method ReceiveFile(code: nat, tid: nat) returns (ok: bool, found: bool)
      requires |headerBuf| == HEADER
      modifies this`dataSize, this`dataCount, this`fileSize, this`isOpen, this`faults
      ensures faults == old(faults) + if found then 0 else 1
      ensures ok <==> found && Expected(headerBuf, code, tid) && FileAccepted(headerBuf, disk)
      ensures dataCount == 0 || (!found && dataCount == old(dataCount))
    {
      hide FromLE;
      ok := false;
      found := *;
      if !found {
        faults := faults + 1;
        return;
      }
      var bytes := HEADER + |disk|;
      dataSize, dataCount, fileSize, isOpen := 0, 0, 0, false;
      ok := !(LenOf(headerBuf) != bytes && bytes < FILE_4GB) && Expected(headerBuf, code, tid);
    }
  }

  // The header of the data phase of a command
  predicate Expected(h: seq<Byte>, code: nat, tid: nat)
    requires |h| >= HEADER
  {
    TypeOf(h) == DATA_BLK && CodeOf(h) == code && TidOf(h) == tid
  }

  predicate FileAccepted(h: seq<Byte>, disk: seq<Byte>)
    requires |h| >= HEADER
  {
    LenOf(h) == HEADER + |disk| || HEADER + |disk| >= FILE_4GB
  }

  /** What makes a header the one that belongs to a command's data, in terms of its bytes */
  lemma ExpectedBytes(h: seq<Byte>, code: nat, tid: nat, disk: seq<Byte>)
    requires |h| == HEADER
    ensures Expected(h, code, tid) <==>
      h[4..6] == [2, 0] && FromLE(h[6..8]) == code && FromLE(h[8..12]) == tid
    ensures FileAccepted(h, disk) <==> 12 + |disk| >= 0x1_0000_0000 || FromLE(h[..4]) == 12 + |disk|
  {
    hide FromLE;
    Fields(h[4..6]);
    assert h[4..6] == [h[4], h[5]] && h[0..4] == h[..4];
  }

  /** The header that a host puts before a payload of any size is accepted with that payload. */
  lemma HostHeaderAccepted(code: nat, tid: nat, payload: seq<Byte>)
    requires code < 0x1_0000 && tid < 0x1_0000_0000
    ensures Expected(Header(code, tid, |payload|), code, tid) && FileAccepted(Header(code, tid, |payload|), payload)
  {
    hide Header, LenOf, TypeOf, CodeOf, TidOf;
    HeaderFields(code, tid, |payload|);
  }

  lemma WrapIs(x: int, q: int, r: int)
    requires x == q * 0x1_0000_0000 + r && 0 <= r < 0x1_0000_0000
    ensures U32(x) == r
  {
  }

  lemma WrapAdd(a: nat, b: nat)
    ensures U32(U32(a) + b) == U32(a + b)
  {
    var s := U32(a) + b;
    WrapIs(a + b, a / 0x1_0000_0000 + s / 0x1_0000_0000, U32(s));
  }

  // ---- A whole transfer ----

  // The n-th packet of a host that sends full packets and then a remainder
  function PacketAt(stream: seq<Byte>, pos: nat, rx: nat): seq<Byte>
    requires pos <= |stream|
  {
    stream[pos..if pos + rx < |stream| then pos + rx else |stream|]
  }

  // A host ends a transfer whose header is saturated with a short packet, empty if need be.
  predicate Saturated(payload: nat) {
    payload + HEADER > U32_MAX
  }

  /**
   Reassembly end to end. For every payload and packet size, fed to an idle file as full packets
   and a remainder, every packet before the last leaves the file collecting, the last one ends
   the data phase, and, unless a write fell short, the file then holds exactly the payload.
   */
  method ReceiveTransfer(t: TempFile, code: nat, tid: nat, payload: seq<Byte>, rx: nat) returns (created: bool)
    requires t.Idle() && t.dataCount == 0 && HEADER <= rx <= t.buffer.Length && rx < 0x8000_0000
    requires Saturated(|payload|) ==> rx % 2 == 0
    modifies t, t.buffer
    ensures created ==> t.Collected() && t.received == payload && t.dataCount == 0
    ensures created && !t.lost ==> t.disk == payload
    ensures t.faults >= old(t.faults) && (t.faults == old(t.faults) ==> created && !t.lost)
    ensures created ==> t.headerBuf == Header(code, tid, |payload|)
  {
    hide FromLE, LE, Header, U32, LenOf, At, PacketAt;
    var stream := Header(code, tid, |payload|) + payload;
    var p := PacketAt(stream, 0, rx);
    FirstOf(code, tid, payload, rx);
    HeaderLength(code, tid, |payload|);
    var done;
    created, done := t.FirstPacket(p);
    if !created {
      return;
    }
    FirstStep(|payload|, |p|, rx);
    var pos := |p|;
    while !done
      invariant At(|stream|, pos, |p|, rx) && (done <==> Last(|stream|, pos, |p|, rx)) && HEADER <= pos <= |stream|
      invariant t.headerBuf == Header(code, tid, |payload|) && t.received == stream[HEADER..pos]
      invariant if done then t.Collected() && t.dataCount == 0 else t.Collecting() && t.dataCount > 0
      invariant t.faults >= old(t.faults) && (t.faults == old(t.faults) ==> !t.lost)
      decreases |stream| - pos, if done then 0 else 1
    {
      ghost var q := |p|;
      p := PacketAt(stream, pos, rx);
      PacketJoins(stream, pos, rx);
      NextStep(|payload|, pos, q, rx, |p|);
      pos := pos + |p|;
      done := t.NextPacket(p, rx);
    }
    WholePayload(code, tid, payload);
  }

  /**
   A dataset from the host to the handler: when nothing fails on the disk, what the handler is
   given is what the host sent, for every payload within the handler's limit and every packet size.
   */
  method ReceiveDataset(t: TempFile, code: nat, tid: nat, payload: seq<Byte>, rx: nat, max: nat)
    returns (ok: bool, dataset: seq<Byte>, created: bool, readable: bool)
    requires t.Idle() && t.dataCount == 0 && HEADER <= rx <= t.buffer.Length && rx < 0x8000_0000
    requires code < 0x1_0000 && tid < 0x1_0000_0000 && |payload| <= max + 4 && max < 0x8000_0000
    modifies t, t.buffer
    ensures created && readable && !t.lost ==> ok && dataset == payload
    ensures ok ==> created && readable
    ensures !created ==> !readable
    ensures t.faults >= old(t.faults) && (t.faults == old(t.faults) ==> ok && dataset == payload)
  {
    hide FromLE, LE, Header, LenOf, TypeOf, CodeOf, TidOf;
    ok, dataset, readable := false, [], false;
    created := ReceiveTransfer(t, code, tid, payload, rx);
    if !created {
      return;
    }
    HeaderFields(code, tid, |payload|);
    ok, readable, dataset := t.ReceiveData(max, code, tid);
    assert payload[..|payload|] == payload;
  }

  // Whether the packet of length n that ends at pos is the host's last one.
  predicate Last(len: nat, pos: nat, n: nat, rx: nat) {
    pos == len && (n < rx || len <= U32_MAX)
  }

  // Where a transfer of `len` bytes stands after a packet of n bytes that ends at pos.
  ghost predicate At(len: nat, pos: nat, n: nat, rx: nat) {
    && HEADER <= pos <= len && n <= rx && n <= pos && (pos < len ==> n == rx)
    && (rx % 2 == 0 && (pos < len || n == rx) ==> pos % 2 == 0)
    && Multiple(pos - n, rx) && (n == 0 ==> len > U32_MAX)
  }

  ghost predicate Multiple(x: int, m: nat) {
    m > 0 && x % m == 0
  }

  function Announce(n: nat): nat {
    U32((if n + HEADER > U32_MAX then U32_MAX else n + HEADER) - HEADER)
  }

  lemma FirstStep(n: nat, p: nat, rx: nat)
    requires HEADER <= rx < 0x8000_0000 && p == if rx < n + HEADER then rx else n + HEADER
    ensures At(n + HEADER, p, p, rx)
    ensures p - HEADER == Announce(n) <==> Last(n + HEADER, p, p, rx)
  {
    FirstIsLast(n, p, rx);
    ModIs(0, rx, 0, 0);
  }

  lemma NextStep(n: nat, pos: nat, q: nat, rx: nat, p: nat)
    requires 0 < rx && At(n + HEADER, pos, q, rx) && !Last(n + HEADER, pos, q, rx)
    requires p == if pos + rx < n + HEADER then rx else n + HEADER - pos
    requires Saturated(n) ==> rx % 2 == 0
    ensures At(n + HEADER, pos + p, p, rx) && (p > 0 || Last(n + HEADER, pos + p, p, rx))
    ensures p < rx || U32(pos + p - HEADER) == Announce(n) <==> Last(n + HEADER, pos + p, p, rx)
  {
    hide U32, Multiple;
    AllReceived(n, pos + p, p, rx);
    OneMultipleOn(pos - q, rx);
  }

  lemma OneMultipleOn(x: int, m: nat)
    requires Multiple(x, m)
    ensures Multiple(x + m, m)
  {
    var k := x / m;
    MulAdd(m, k, 1);
    ModIs(x + m, m, k + 1, 0);
  }

  lemma ModIs(x: int, m: nat, q: int, r: nat)
    requires m > 0 && x == m * q + r && r < m
    ensures x % m == r
  {
    var d := x / m - q;
    MulAdd(m, x / m, -q);
    assert m * d == r - x % m;
    MulAdd(m, d - 1, 1);
    MulAdd(m, d + 1, -1);
    assert (d >= 1 ==> m * (d - 1) >= 0) && (d <= -1 ==> m * (d + 1) <= 0);
  }

  // The last packet of a host that sends full packets and a remainder
  function LastPacket(stream: seq<Byte>, rx: nat): seq<Byte>
    requires rx > 0 && |stream| > 0
  {
    stream[|stream| - LastLength(|stream|, rx)..]
  }

  function LastLength(len: nat, rx: nat): (n: nat)
    requires rx > 0 && len > 0
    ensures n <= len
  {
    if len % rx != 0 then len % rx else if len > U32_MAX then 0 else rx
  }

  // What precedes the last of several packets fills at least one.
  lemma LastOfSeveral(len: nat, rx: nat)
    requires 0 < rx < len
    ensures LastLength(len, rx) + rx <= len
  {
    var q := len / rx;
    assert len == rx * q + len % rx;
    assert q <= 0 ==> rx * q <= 0;
    if q == 1 {
      assert rx * q == rx;
    } else {
      MulAdd(rx, q - 2, 2);
      assert rx * (q - 2) >= 0;
    }
  }

  lemma LastIs(len: nat, pos: nat, n: nat, rx: nat)
    requires 0 < rx && At(len, pos, n, rx) && Last(len, pos, n, rx)
    ensures len > 0 && pos == len && n == LastLength(len, rx)
  {
    var k := (len - n) / rx;
    assert len - n == rx * k;
    if n < rx {
      ModIs(len, rx, k, n);
    } else {
      MulAdd(rx, k, 1);
      ModIs(len, rx, k + 1, 0);
    }
  }

  // The packet p ends at pos.
  ghost predicate Ends(stream: seq<Byte>, pos: nat, p: seq<Byte>) {
    |p| <= pos <= |stream| && p == stream[pos - |p|..pos]
  }

  lemma PacketLasts(stream: seq<Byte>, pos: nat, rx: nat)
    requires pos <= |stream|
    ensures Ends(stream, pos + |PacketAt(stream, pos, rx)|, PacketAt(stream, pos, rx))
  {
  }

  // The packet that completes a transfer is the host's last one.
  lemma LastEnds(stream: seq<Byte>, pos: nat, p: seq<Byte>, rx: nat)
    requires rx > 0 && Ends(stream, pos, p) && At(|stream|, pos, |p|, rx) && Last(|stream|, pos, |p|, rx)
    ensures |stream| > 0 && pos == |stream| && p == LastPacket(stream, rx)
  {
    hide At, Last;
    LastIs(|stream|, pos, |p|, rx);
  }

  lemma PacketJoins(stream: seq<Byte>, pos: nat, rx: nat)
    requires HEADER <= pos <= |stream|
    ensures var p := PacketAt(stream, pos, rx);
      && |p| == (if pos + rx < |stream| then rx else |stream| - pos)
      && stream[HEADER..pos] + p == stream[HEADER..pos + |p|] && p == stream[pos..pos + |p|]
  {
  }

  // The test for the last packet of a data phase, of n bytes
  predicate Complete(n: nat, first: bool, header: seq<Byte>, received: nat, rx: nat)
    requires |header| >= HEADER
  {
    var announced := U32(LenOf(header) - HEADER);
    if first then received == announced else n < rx || U32(received) == announced
  }

  // Where a transfer stands: after the packet p that ends at pos, with the payload received so far
  ghost predicate Moving(stream: seq<Byte>, pos: nat, p: seq<Byte>, rx: nat, received: seq<Byte>) {
    && HEADER <= pos <= |stream| && 0 < rx && At(|stream|, pos, |p|, rx) && Ends(stream, pos, p)
    && received == stream[HEADER..pos]
  }

  lemma MovingFirst(code: nat, tid: nat, payload: seq<Byte>, rx: nat)
    requires HEADER <= rx < 0x8000_0000
    ensures var h := Header(code, tid, |payload|);
      var p := PacketAt(h + payload, 0, rx);
      && HEADER <= |p| <= rx && |p| <= |h + payload| && p[..HEADER] == h
      && Moving(h + payload, |p|, p, rx, p[HEADER..])
      && (Complete(|p|, true, h, |p[HEADER..]|, rx) <==> Last(|h + payload|, |p|, |p|, rx))
  {
    hide Header, U32, LenOf, FromLE, At, Last, PacketAt, Ends;
    FirstOf(code, tid, payload, rx);
    HeaderLength(code, tid, |payload|);
    var h := Header(code, tid, |payload|);
    var p := PacketAt(h + payload, 0, rx);
    FirstStep(|payload|, |p|, rx);
    PacketLasts(h + payload, 0, rx);
  }

  lemma MovingNext(code: nat, tid: nat, payload: seq<Byte>, pos: nat, q: seq<Byte>, rx: nat, received: seq<Byte>)
    requires var stream := Header(code, tid, |payload|) + payload;
      Moving(stream, pos, q, rx, received) && !Last(|stream|, pos, |q|, rx)
    requires Saturated(|payload|) ==> rx % 2 == 0
    ensures var h := Header(code, tid, |payload|);
      var p := PacketAt(h + payload, pos, rx);
      && |p| <= rx && pos + |p| <= |h + payload| && Moving(h + payload, pos + |p|, p, rx, received + p)
      && (Complete(|p|, false, h, |received + p|, rx) <==> Last(|h + payload|, pos + |p|, |p|, rx))
      && (|p| > 0 || Last(|h + payload|, pos + |p|, |p|, rx))
  {
    hide Header, U32, LenOf, FromLE, At, Last;
    var h := Header(code, tid, |payload|);
    HeaderLength(code, tid, |payload|);
    assert LenOf(h) == FromLE(h[..4]) by {
      FirstOf(code, tid, payload, HEADER);
    }
    PacketJoins(h + payload, pos, rx);
    PacketLasts(h + payload, pos, rx);
    NextStep(|payload|, pos, |q|, rx, |PacketAt(h + payload, pos, rx)|);
  }

  lemma MovingLast(code: nat, tid: nat, payload: seq<Byte>, pos: nat, p: seq<Byte>, rx: nat, received: seq<Byte>)
    requires var stream := Header(code, tid, |payload|) + payload;
      Moving(stream, pos, p, rx, received) && Last(|stream|, pos, |p|, rx)
    ensures rx > 0 && p == LastPacket(Header(code, tid, |payload|) + payload, rx) && received == payload
  {
    hide Header, At, Last, LastPacket;
    LastEnds(Header(code, tid, |payload|) + payload, pos, p, rx);
    WholePayload(code, tid, payload);
  }

  lemma WholePayload(code: nat, tid: nat, payload: seq<Byte>)
    ensures var stream := Header(code, tid, |payload|) + payload;
      |stream| == |payload| + HEADER && stream[HEADER..|stream|] == payload
  {
    hide Header;
  }

  lemma FirstOf(code: nat, tid: nat, payload: seq<Byte>, rx: nat)
    requires HEADER <= rx
    ensures var h := Header(code, tid, |payload|);
      var p := PacketAt(h + payload, 0, rx);
      && HEADER <= |p| <= rx && |p| == (if rx < |payload| + HEADER then rx else |payload| + HEADER)
      && p[..HEADER] == h && LenOf(p) == FromLE(h[..4]) && p[HEADER..] == (h + payload)[HEADER..|p|]
      && LenOf(h) == FromLE(h[..4])
  {
    hide Header, FromLE;
    var h := Header(code, tid, |payload|);
    var p := PacketAt(h + payload, 0, rx);
    assert p[0..4] == h[..4] == h[0..4];
  }

  lemma Announced(n: nat)
    ensures U32((if n + HEADER > U32_MAX then U32_MAX else n + HEADER) - HEADER)
            == if Saturated(n) then 0xFFFF_FFF3 else n
  {
  }

  lemma FirstIsLast(n: nat, p: nat, rx: nat)
    requires HEADER <= p <= rx < 0x8000_0000 && p == if rx < n + HEADER then rx else n + HEADER
    ensures p - HEADER == U32((if n + HEADER > U32_MAX then U32_MAX else n + HEADER) - HEADER) <==>
              Last(n + HEADER, p, p, rx)
  {
    Announced(n);
  }

  // The test for the last packet is right: it never fires early, even after the counter wraps.
  lemma AllReceived(n: nat, pos: nat, p: nat, rx: nat)
    requires HEADER <= pos <= n + HEADER && p <= rx && (pos < n + HEADER ==> p == rx)
    requires Saturated(n) ==> (p == rx ==> pos % 2 == 0)
    ensures (p < rx || U32(pos - HEADER) == U32((if n + HEADER > U32_MAX then U32_MAX else n + HEADER) - HEADER))
            <==> Last(n + HEADER, pos, p, rx)
  {
    Announced(n);
    if Saturated(n) && p == rx {
      EvenNeverFires(pos);
    }
  }

  lemma EvenNeverFires(pos: nat)
    requires pos >= HEADER && pos % 2 == 0
    ensures U32(pos - HEADER) != 0xFFFF_FFF3
  {
    var q, r := (pos - HEADER) / 0x1_0000_0000, U32(pos - HEADER);
    assert pos - HEADER == q * 0x1_0000_0000 + r;
    assert r == 0xFFFF_FFF3 ==> pos == 2 * (q * 0x8000_0000 + 0x7FFF_FFFF) + 1;
  }

  // ---- Packet sizes for which a saturated transfer can end early ----

  function Pow2(n: nat): nat {
    if n == 0 then 1 else 2 * Pow2(n - 1)
  }

  lemma PowerOf32()
    ensures Pow2(32) == 0x1_0000_0000
  {
    EightMore(0);
    EightMore(8);
    EightMore(16);
    EightMore(24);
  }

  lemma EightMore(n: nat)
    ensures Pow2(n + 8) == 256 * Pow2(n)
  {
    assert Pow2(n + 2) == 4 * Pow2(n);
    assert Pow2(n + 4) == 4 * Pow2(n + 2);
    assert Pow2(n + 6) == 4 * Pow2(n + 4);
  }

  lemma MulAdd(m: int, a: int, b: int)
    ensures m * (a + b) == m * a + m * b && (a + b) * m == a * m + b * m
  {
  }

  // From a multiple of m to a multiple of 2 * m, when the quotient is odd.
  lemma OddStep(rx: nat, m: nat, k: nat, q: nat)
    requires k * rx + 1 == m * q && rx % 2 == 1 && q % 2 == 1
    ensures (k + m) * rx + 1 == (2 * m) * ((q + rx) / 2)
  {
    var h := (q + rx) / 2;
    assert 2 * h == q + rx;
    calc {
      (k + m) * rx + 1;
      { MulAdd(rx, k, m); }
      k * rx + m * rx + 1;
      m * q + m * rx;
      { MulAdd(m, q, rx); }
      m * (q + rx);
      m * (2 * h);
      (2 * m) * h;
    }
  }

  // Some multiple of an odd number lies one below a multiple of any power of two.
  lemma {:induction false} OddHitsMinusOne(rx: nat, n: nat) returns (k: nat, q: nat)
    requires rx % 2 == 1
    ensures k > 0 && k * rx + 1 == Pow2(n) * q
    decreases n
  {
    if n == 0 {
      k, q := 1, rx + 1;
    } else {
      k, q := OddHitsMinusOne(rx, n - 1);
      var m := Pow2(n - 1);
      if q % 2 == 0 {
        assert m * q == (2 * m) * (q / 2);
        q := q / 2;
      } else {
        OddStep(rx, m, k, q);
        k, q := k + m, (q + rx) / 2;
      }
    }
  }

  /**
   A run of full packets under a saturated header can make the wrapped byte counter equal the
   announced length, and so end the transfer early, if and only if the packet size is odd.
   */
  lemma EarlyEndIffOdd(rx: nat)
    requires rx >= HEADER
    ensures (exists k :: k > 0 && FiresAfter(k, rx)) <==> rx % 2 == 1
  {
    hide U32, Pow2;
    if rx % 2 == 1 {
      var k, q := OddHitsMinusOne(rx, 32);
      PowerOf32();
      MulAdd(rx, k - 1, 1);
      assert (k - 1) * rx >= 0;
      var p := k * rx;
      assert p - HEADER == (q - 1) * 0x1_0000_0000 + 0xFFFF_FFF3;
      WrapIs(p - HEADER, q - 1, 0xFFFF_FFF3);
      assert FiresAfter(k, rx);
    } else {
      forall k | k > 0 && FiresAfter(k, rx) ensures false {
        EvenProduct(k, rx);
        EvenNeverFires(k * rx);
      }
    }
  }

  ghost predicate FiresAfter(k: int, rx: nat) {
    k * rx >= HEADER && U32(k * rx - HEADER) == 0xFFFF_FFF3
  }

  lemma EvenProduct(k: int, rx: nat)
    requires rx % 2 == 0
    ensures k * rx % 2 == 0
  {
    assert k * rx == 2 * (k * (rx / 2));
  }
}
