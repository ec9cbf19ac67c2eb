/** What a host does with the device: open a session, upload an object and fetch it again. */
module Host {
  import opened Codes
  import opened Bytes
  import opened ObjectTable
  import opened Options
  import opened Reassembly
  import opened Transmit
  import opened Containers
  import opened ObjectEntry
  import opened Outcomes
  import opened Responder
  import opened Paths
  import PtpString
  import opened Agreement
  import Rename
  import ObjectInfo

  // A command that fits its container and the packets of the device
  ghost predicate Sendable(c: Command, readUsbSize: nat) {
    && c.code < 0x1_0000 && c.tid < 0x1_0000_0000 && |c.params| <= 5 && HEADER + 4 * |c.params| <= readUsbSize
    && forall i :: 0 <= i < |c.params| ==> c.params[i] < 0x1_0000_0000
  }

  // The payload takes several packets, and the last one, of n bytes, is a command by its first six
  // bytes; it would be executed.
  ghost predicate Mistakable(payload: seq<Byte>, rx: nat)
    requires rx > 0
  {
    && HEADER + |payload| > rx
    && var n := LastLength(HEADER + |payload|, rx);
    && HEADER <= n <= 36 && n <= |payload| && payload[|payload| - n..][..6] == [n, 0, 0, 0, 1, 0]
  }

  /** Exactly the mistakable payloads end in a packet that reads as a command. */
  lemma LastReads(c: Command, payload: seq<Byte>, rx: nat)
    requires HEADER <= rx < 0x8000_0000
    ensures IsCommand(LastPacket(Header(c.code, c.tid, |payload|) + payload, rx)) <==> Mistakable(payload, rx)
  {
    hide Header, IsCommand, LastLength;
    var stream := Header(c.code, c.tid, |payload|) + payload;
    var n := LastLength(|stream|, rx);
    if |stream| > rx {
      LastOfSeveral(|stream|, rx);
      assert LastPacket(stream, rx) == payload[|payload| - n..];
      CommandBytes(payload[|payload| - n..]);
    } else {
      OnePacket(|stream|, rx);
      assert LastPacket(stream, rx) == stream;
      DataIsNoCommand(c.code, c.tid, payload);
    }
  }

  lemma OnePacket(len: nat, rx: nat)
    requires 0 < len <= rx < 0x8000_0000
    ensures LastLength(len, rx) == len
  {
    if len == rx {
      ModIs(len, rx, 1, 0);
    } else {
      ModIs(len, rx, 0, len);
    }
  }

  /** A command without a data-out phase, sent to an idle device: it has its outcome. */
  method Send(d: Device, c: Command, w: World)
    requires d.Valid() && d.phase.Idle? && WorldOk(w, d.store.root) && Sendable(c, d.readUsbSize) && !IsDataOut(c.code)
    modifies d, d.store, d.temp, d.temp.buffer, d.tx
    ensures d.Valid() && d.sessionId == SessionAfter(old(d.sessionId), c)
    ensures Served(old(d.Now()), d.Now(), old(d.sessionId), c, w, d.Setup())
  {
    hide Device.Valid, WorldOk, IsCommand, Decode, Encode, Handled, Served, SessionAfter, Complete;
    CommandRoundTrip(c);
    EncodedLength(c);
    var kept, ran;
    ghost var file;
    ghost var a, session := d.Now(), d.sessionId;
    kept, ran, file := d.Packet(Encode(c), w);
    HandledServes(a, d.Now(), session, d.sessionId, c, d.temp.headerBuf, file, w, d.Setup());
  }

  lemma EncodedLength(c: Command)
    ensures |Encode(c)| == HEADER + 4 * |c.params|
  {
    hide LE, WordBytes;
  }

  /** OpenSession with transaction id 0 opens a session on every idle device that has none. */
  method Connect(d: Device, id: nat, w: World)
    requires d.Valid() && d.phase.Idle? && d.sessionId == 0 && WorldOk(w, d.store.root)
    requires 0 < id < 0x1_0000_0000 && d.readUsbSize >= HEADER + 4
    modifies d, d.store, d.temp, d.temp.buffer, d.tx
    ensures d.Valid() && d.phase.Idle? && d.sessionId == id
    ensures d.responses == old(d.responses) + [Response(OK, 0, [])]
  {
    hide Device.Valid, WorldOk, DeviceInfoServed;
    var c := Command(OPEN_SESSION, 0, [id]);
    Send(d, c, w);
  }

  /**
   A data-out command and its payload, sent to an idle device in session. Unless the temporary file
   fails, or the last packet reads as a command, the command is judged on exactly the payload.
   */
  method SendWithData(d: Device, c: Command, payload: seq<Byte>, w: World)
    requires d.Valid() && d.phase.Idle? && d.sessionId != 0 && WorldOk(w, d.store.root)
    requires Sendable(c, d.readUsbSize) && c.code in {0x100C, 0x100D, 0x9804, 0x95C2}
    requires d.readUsbSize < 0x8000_0000 && (Saturated(|payload|) ==> d.readUsbSize % 2 == 0)
    modifies d, d.store, d.temp, d.temp.buffer, d.tx
    ensures d.Valid() && d.temp.faults >= old(d.temp.faults)
    ensures d.temp.faults == old(d.temp.faults) && !Mistakable(payload, d.readUsbSize) ==>
      && d.sessionId == old(d.sessionId) && OneAnswer(old(d.Now()), d.Now(), c)
      && Judged(old(d.Now()).(phase := DataOut), d.Now(), Header(c.code, c.tid, |payload|), c, payload, w, d.Setup())
  {
    hide Device.Valid, WorldOk, IsCommand, Decode, Encode, Header, Judged, Handled, Complete, LastPacket, Mistakable;
    CommandRoundTrip(c);
    EncodedLength(c);
    ghost var a, session := d.Now(), d.sessionId;
    var kept, ran;
    ghost var file;
    kept, ran, file := d.Packet(Encode(c), w);
    HandledMeans(a, d.Now(), session, d.sessionId, c, d.temp.headerBuf, file, w, d.Setup());
    ghost var b, faults := d.Now(), d.temp.faults;
    var last;
    kept, last, file := SendPayload(d, c.code, c.tid, payload, w);
    if d.temp.faults == old(d.temp.faults) && !Mistakable(payload, d.readUsbSize) {
      LastReads(c, payload, d.readUsbSize);
      HandledJudges(b, d.Now(), session, d.sessionId, c, d.temp.headerBuf, payload, w, d.Setup());
    }
  }

  /**
   An upload to an idle device in session. When the disk does not fail, neither last packet reads as a
   command, and the dataset is one that the store can take and does not name a folder, the object
   that the dataset describes is afterwards the last of the store, with the next handle, the content
   lies at its path, and nothing else about the list has changed.
   */
  method SendObject(d: Device, info: Command, dataset: seq<Byte>, send: Command, content: seq<Byte>, w: World)
    requires d.Valid() && d.phase.Idle? && d.sessionId != 0 && WorldOk(w, d.store.root)
    requires Sendable(info, d.readUsbSize) && info.code == SEND_OBJECT_INFO && Param(info, 2) == 0
    requires Sendable(send, d.readUsbSize) && send.code == SEND_OBJECT && !Extra(send, 0)
    requires |dataset| <= MAX_OBJECT_INFO + 4
    requires d.readUsbSize < 0x8000_0000 && (Saturated(|content|) ==> d.readUsbSize % 2 == 0)
    modifies d, d.store, d.temp, d.temp.buffer, d.tx
    ensures d.Valid()
    ensures && d.temp.faults == old(d.temp.faults) && d.store.faults == old(d.store.faults)
            && !Mistakable(dataset, d.readUsbSize) && !Mistakable(content, d.readUsbSize)
            && InfoOf(dataset).fmt != FMT_ASSOCIATION && Takes(old(d.Now()), info, dataset, w, d.Setup()) ==>
      Uploaded(old(d.Now()), d.Now(), info, dataset, content, d.Setup())
  {
    hide Device.Valid, WorldOk, Takes, Judged, Uploaded, Mistakable, InfoOf;
    ghost var a, started := d.Now(), d.temp.faults;
    SendWithData(d, info, dataset, w);
    ghost var b := d.Now();
    ghost var good := d.temp.faults == started && !Mistakable(dataset, d.readUsbSize);
    if good {
      Waits(a, b, info, dataset, w, d.Setup());
    }
    if !d.phase.Idle? || d.sessionId == 0 {
      return;
    }
    SendWithData(d, send, content, w);
    if good && d.temp.faults == started && !Mistakable(content, d.readUsbSize) {
      Lands(a, b, d.Now(), info, dataset, send, content, w, d.Setup());
    }
  }

  // The object that the dataset describes is the last of the store, and the content lies at its path.
  ghost predicate Uploaded(a: State, b: State, info: Command, dataset: seq<Byte>, content: seq<Byte>, k: Config) {
    && b.objs != []
    && var o := b.objs[|b.objs| - 1];
    && Described(o, dataset, Param(info, 1), a.objs, k.root, k.utf8) && LiesIn(o, Param(info, 1), a.objs, k.root)
    && o.handle == a.next
    && b.objs == AddRef(a.objs, o.parent, o.handle) + [o] && b.history == a.history + [o.handle] && b.pending == None
    && o.path in b.written && b.written[o.path] == content
  }

  // The object of the dataset waits.
  ghost predicate Parked(a: State, b: State, info: Command, dataset: seq<Byte>, k: Config) {
    && b.phase.Idle? && b.objs == a.objs && b.history == a.history && b.pending.Some?
    && Described(b.pending.value, dataset, Param(info, 1), a.objs, k.root, k.utf8)
    && LiesIn(b.pending.value, Param(info, 1), a.objs, k.root)
    && b.pending.value.handle == a.next
  }

  // A taken dataset that does not name a folder leaves its object waiting, unless the disk failed.
  lemma Waits(a: State, b: State, c: Command, dataset: seq<Byte>, w: World, k: Config)
    requires c.code == SEND_OBJECT_INFO && c.tid < 0x1_0000_0000 && Param(c, 2) == 0 && |dataset| <= MAX_OBJECT_INFO + 4
    requires Judged(a.(phase := DataOut), b, Header(c.code, c.tid, |dataset|), c, dataset, w, k)
    ensures b.faults >= a.faults
    ensures b.faults == a.faults && Takes(a, c, dataset, w, k) && InfoOf(dataset).fmt != FMT_ASSOCIATION ==>
      Parked(a, b, c, dataset, k)
  {
    hide Header, Acceptable, LenOf, TypeOf, CodeOf, TidOf, InfoOf, AddRef, ObjectInfo.Framed, GoodParent, Place,
         LiesIn, Verdict;
    HeaderFields(c.code, c.tid, |dataset|);
  }

  // Any content is accepted with the header that belongs to it, and so the waiting object is listed.
  lemma Lands(a: State, b: State, z: State, info: Command, dataset: seq<Byte>, c: Command, content: seq<Byte>,
              w: World, k: Config)
    requires c.code == SEND_OBJECT && c.tid < 0x1_0000_0000 && !Extra(c, 0)
    requires Judged(b.(phase := DataOut), z, Header(c.code, c.tid, |content|), c, content, w, k)
    ensures z.faults >= b.faults
    ensures z.faults == b.faults && Parked(a, b, info, dataset, k) ==> Uploaded(a, z, info, dataset, content, k)
  {
    hide Header, Expected, FileAccepted, AddRef, Described, LiesIn;
    HostHeaderAccepted(c.code, c.tid, content);
  }

  /**
   Renaming the object that lies at dir/base to a plain name. When nothing fails and the last packet
   is no command, it is answered once; with OK exactly when the object can be renamed so. Then the
   object lies at dir/name, with everything below it where the paths agreed, unless nothing but
   letter case was to change; without OK nothing changes.
   */
  method SetName(d: Device, o: Obj, dir: string, base: string, c: Command, name: string, w: World)
    requires d.Valid() && d.phase.Idle? && d.sessionId != 0 && WorldOk(w, d.store.root) && Sendable(c, d.readUsbSize)
    requires c.code == SET_OBJECT_PROP_VALUE && Param(c, 1) == 0xDC07 && Param(c, 2) == 0 && w.setting.Settable?
    requires o in d.store.objs && Param(c, 0) == o.handle && Splits(o.path, dir, base) && |o.path| <= MAX_PATH
    requires 0 < |name| < PtpString.MAX_CHARS && |dir| + 1 + |name| <= MAX_PATH
    requires forall i :: 0 <= i < |name| ==> 0 < name[i] as int < 128
    requires d.readUsbSize < 0x8000_0000
    modifies d, d.store, d.temp, d.temp.buffer, d.tx
    ensures d.Valid()
    ensures && d.temp.faults == old(d.temp.faults) && d.store.faults == old(d.store.faults)
            && !Mistakable(PtpString.Encode(Terminated(name)), d.readUsbSize) ==>
      && |d.responses| == |old(d.responses)| + 1
      && NameSet(old(d.Now()), d.Now(), o, dir, name, d.store.root, d.responses[|old(d.responses)|])
  {
    hide Device.Valid, WorldOk, Judged, Mistakable, PtpString.Encode, NameSet, Splits, Find;
    var payload := PtpString.Encode(Terminated(name));
    ghost var a := d.Now();
    TheObject(d, o);
    PtpString.RawBack(Terminated(name));
    SendWithData(d, c, payload, w);
    if d.temp.faults == old(d.temp.faults) && !Mistakable(payload, d.readUsbSize) {
      NameIsSet(a, d.Now(), o, dir, base, c, name, w, d.Setup());
    }
  }

  // What a rename of o, which lies in dir, has done and answered
  ghost predicate NameSet(a: State, b: State, o: Obj, dir: string, name: string, root: string, r: Response) {
    var path := dir + "/" + name;
    && (r.code == OK <==> Rename.Renames(a.objs, o, root, name, a.next))
    && (r.code != OK || SameIgnoringCase(o.path, path) ==> b.objs == a.objs)
    && (r.code == OK && !SameIgnoringCase(o.path, path) ==>
          && Listed(b.objs, o.handle) && Find(b.objs, o.handle).path == path
          && (PathsOk(a.objs) ==> Rename.MovedTree(b.objs, a.objs, o.handle, o.path, path)))
  }

  lemma NameIsSet(a: State, b: State, o: Obj, dir: string, base: string, c: Command, name: string, w: World, k: Config)
    requires c.code == SET_OBJECT_PROP_VALUE && c.tid < 0x1_0000_0000 && w.setting.Settable?
    requires Param(c, 1) == 0xDC07 && Param(c, 2) == 0
    requires Listed(a.objs, o.handle) && Find(a.objs, o.handle) == o && Param(c, 0) == o.handle
    requires Splits(o.path, dir, base) && |o.path| <= MAX_PATH && |dir| + 1 + |name| <= MAX_PATH
    requires 0 < |name| < PtpString.MAX_CHARS && forall i :: 0 <= i < |name| ==> 0 < name[i] as int < 128
    requires var data := PtpString.Encode(Terminated(name));
      && PtpString.RawString(data) == Terminated(name) && OneAnswer(a, b, c)
      && Judged(a.(phase := DataOut), b, Header(c.code, c.tid, |data|), c, data, w, k)
    ensures b.faults >= a.faults
    ensures b.faults == a.faults ==>
      && |b.responses| == |a.responses| + 1 && NameSet(a, b, o, dir, name, k.root, b.responses[|a.responses|])
  {
    hide Header, LenOf, TypeOf, CodeOf, TidOf, PtpString.Encode, Splits, Find, Rename.Renames, Rename.Passes,
         RenamedBy, Rename.MovedTree, PathsOk, Agrees, Rename.Target, SameIgnoringCase, Extension, PtpString.RawString;
    var data := PtpString.Encode(Terminated(name));
    HeaderFields(c.code, c.tid, |data|);
    CharsWide(Terminated(name), |name|);
    assert Narrow(Chars(Terminated(name))) == name;
    Rename.TargetIs(k.root, o.path, dir, base, name);
  }

  /**
   Fetching an object: when the disk returns what lies at its path, that has the recorded size and
   is not empty, and neither disk nor sends fail, header and content go out whole and the answer is OK.
   */
  method Fetch(d: Device, o: Obj, c: Command, w: World)
    requires d.Valid() && d.phase.Idle? && d.sessionId != 0 && WorldOk(w, d.store.root) && Sendable(c, d.readUsbSize)
    requires c.code == GET_OBJECT && !Extra(c, 1) && o in d.store.objs && Param(c, 0) == o.handle
    requires o.path in d.written && w.file == d.written[o.path] && |w.file| == o.size > 0
    modifies d, d.store, d.temp, d.temp.buffer, d.tx
    ensures d.Valid()
    ensures d.store.faults == old(d.store.faults) && d.tx.faults == old(d.tx.faults) ==>
      && d.responses == old(d.responses) + [Response(OK, c.tid, [])]
      && SentOut(old(d.tx.packets), d.tx.packets, c, old(d.written)[o.path], d.writeUsbSize)
  {
    hide Device.Valid, WorldOk, Find, SentOut;
    TheObject(d, o);
    Send(d, c, w);
  }

  lemma TheObject(d: Device, o: Obj)
    requires d.Valid() && o in d.store.objs
    ensures Listed(d.store.objs, o.handle) && Find(d.store.objs, o.handle) == o
  {
    d.CoreParts();
  }
}
