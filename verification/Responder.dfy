/**
 The packet-driven command machine (src/mtp_cmd_handler.c) over the one store of the device: the
 device phase, the session, the saved command, the data phase and the object that waits between
 SendObjectInfo and SendObject.
 */
module Responder {
  import opened Codes
  import opened Bytes
  import opened ObjectTable
  import opened ObjectStore
  import opened Leftovers
  import opened Enumeration
  import opened Reassembly
  import opened Transmit
  import opened Containers
  import opened Paths
  import opened Agreement
  import opened PendingObject
  import opened Options
  import opened ObjectEntry
  import opened PtpString
  import opened Outcomes
  import FsEvents
  import Rename
  import ObjectInfo
  import PropDesc
  import PtpArray
  import Walk

  // A command that was executed: its answer, if any, the session before and after it, and whether it
  // changed anything about the objects
  datatype Step = Step(cmd: Command, answer: Option<Response>, session: nat, session': nat, touched: bool)

  // An answer has the id of its command, without a session nothing is touched, and the session follows
  // exactly from the command: none is opened or closed but by a command for it that is answered OK.
  ghost predicate Safe(s: Step) {
    && (s.answer.Some? ==> s.answer.value.tid == s.cmd.tid)
    && (s.session == 0 ==> !s.touched) && s.session' == SessionAfter(s.session, s.cmd)
    && SessionLaw(s.session, s.session', s.cmd, s.answer == Some(Response(OK, s.cmd.tid, [])))
  }

  // What the responder has done so far: the answers are those to the executed commands, in order,
  // every command got at most one, and every command was safe.
  ghost predicate Orderly(steps: seq<Step>, responses: seq<Response>) {
    responses == AnswersTo(steps) && forall s :: s in steps ==> Safe(s)
  }

  function AnswersTo(steps: seq<Step>): seq<Response> {
    if steps == [] then []
    else
      var last := steps[|steps| - 1];
      AnswersTo(steps[..|steps| - 1]) + (if last.answer.Some? then [last.answer.value] else [])
  }

  class Device {
    const store: Store
    const temp: TempFile
    const tx: TxQueue
    const readUsbSize: nat
    const readFileSize: nat
    const writeUsbSize: nat
    const utf8: Conversion               // from UTF-16, beyond plain characters
    const utf16: string -> seq<Wchar>    // to UTF-16

    var phase: Phase
    var sessionId: nat
    var savedCmd: seq<Byte>
    var cmd: Command
    var pendingValid: bool
    var pending: Option<Obj>
    var responses: seq<Response>

    ghost var steps: seq<Step>                  // the commands executed so far
    ghost var reported: seq<Obj>                // the objects whose handles SendObjectInfo answered
    ghost var landed: seq<Obj>                  // those of them that were listed
    ghost var written: map<string, seq<Byte>>   // the files that SendObject moved to their paths

    // A device whose disk has the given capacity
    constructor (root: string, capacity: nat, readUsbSize: nat, readFileSize: nat, writeUsbSize: nat,
                 writeFileSize: nat, utf8: Conversion, utf16: string -> seq<Wchar>)
      requires root != "" && root[0] == '/'
      requires HEADER <= readUsbSize <= writeFileSize && readFileSize > HEADER && writeUsbSize > 0
      ensures Valid() && sessionId == 0 && store.objs == [] && responses == [] && steps == [] && pending == None
      ensures !store.readOnly && store.freeSpace == store.capacity == capacity && phase.Idle?
      ensures fresh(store) && fresh(temp) && fresh(temp.buffer) && fresh(tx)
    {
      store := new Store(root, capacity);
      temp := new TempFile(writeFileSize);
      tx := new TxQueue();
      this.readUsbSize, this.readFileSize, this.writeUsbSize := readUsbSize, readFileSize, writeUsbSize;
      this.utf8, this.utf16 := utf8, utf16;
      phase, sessionId, savedCmd, cmd := Idle, 0, [], Command(0, 0, []);
      pendingValid, pending, responses, steps, reported, landed, written := false, None, [], [], [], [], map[];
    }

    // What holds at every moment
    ghost predicate Core()
      reads this`pendingValid, this`pending, this`reported, this`landed
      reads store`objs, store`next, store`entered, store`history
    {
      && store.Valid()
      && store.root != "" && store.root[0] == '/'
      && HEADER <= readUsbSize <= temp.buffer.Length && readFileSize > HEADER && writeUsbSize > 0
      && (pendingValid <==> pending.Some?)
      && (pending.Some? ==> Waiting(pending.value, store.objs, store.next, store.entered))
      && Ledger(reported, landed, pending, store.next, store.entered)
    }

    lemma CoreParts()
      requires Core()
      ensures store.Valid() && store.root != "" && store.root[0] == '/' && Distinct(store.objs)
      ensures HEADER <= readUsbSize <= temp.buffer.Length && readFileSize > HEADER && writeUsbSize > 0
      ensures pendingValid <==> pending.Some?
      ensures pending.Some? ==> Waiting(pending.value, store.objs, store.next, store.entered)
      ensures Ledger(reported, landed, pending, store.next, store.entered)
    {
      hide Scan;
    }

    lemma CoreWhole()
      requires store.Valid() && store.root != "" && store.root[0] == '/'
      requires HEADER <= readUsbSize <= temp.buffer.Length && readFileSize > HEADER && writeUsbSize > 0
      requires pendingValid <==> pending.Some?
      requires pending.Some? ==> Waiting(pending.value, store.objs, store.next, store.entered)
      requires Ledger(reported, landed, pending, store.next, store.entered)
      ensures Core()
    {
    }

    // What holds between packets besides
    ghost predicate Valid()
      reads this, store, temp, temp.buffer
    {
      && Core() && |temp.headerBuf| == HEADER
      && (phase.Idle? || phase.DataOut? || phase.NotReady?)
      && (phase.DataOut? ==> sessionId != 0 && IsCommand(savedCmd) && IsDataOut(Decode(savedCmd).code))
      && (phase.DataOut? && temp.dataCount > 0 ==> temp.Collecting())
      && Orderly(steps, responses)
    }

    ghost function Now(): State
      reads this, store, tx
    {
      State(phase, responses, tx.packets, tx.faults, pending, reported, landed, written,
            store.objs, store.next, store.entered, store.history,
            store.readOnly, store.freeSpace, store.capacity, store.faults, store.broken, store.cut)
    }

    ghost function Setup(): Config {
      Config(store.root, utf8, utf16, writeUsbSize)
    }

    twostate predicate Quiet()
      reads this, store, tx
    {
      QuietStep(old(Now()), Now())
    }

    // _cmd_hdlr_send_response
    method Respond(code: nat, params: seq<nat>)
      modifies this`phase, this`responses
      ensures phase.Idle? && responses == old(responses) + [Response(code, cmd.tid, params)]
    {
      responses := responses + [Response(code, cmd.tid, params)];
      phase := Idle;
    }

    /** A data-in phase: the whole container goes out and the answer is OK, or a send failed and there is no answer. */
    method SendData(payload: seq<Byte>, params: seq<nat>)
      requires writeUsbSize > 0
      modifies this`phase, this`responses, tx
      ensures DataSent(old(Now()), Now(), cmd, payload, params, writeUsbSize) && tx.faults >= old(tx.faults)
    {
      hide Sized, Concat, Header;
      phase := DataIn;
      var sent;
      ghost var ps;
      sent, ps := SendPacket(tx, Header(cmd.code, cmd.tid, |payload|) + payload, writeUsbSize);
      if sent == HEADER + |payload| {
        assert tx.packets[|old(tx.packets)|..] == ps;
        Respond(OK, params);
      } else {
        phase := NotReady;
      }
    }

    // A data-in phase with a dataset that is not modelled and whose packing may fail
    method SendDataset()
      requires writeUsbSize > 0
      modifies this`phase, this`responses, tx
      ensures SomeDataset(old(Now()), Now(), cmd) && tx.faults >= old(tx.faults)
    {
      hide SentOut;
      var packed := *;
      var payload: seq<Byte> := *;
      if packed {
        SendData(payload, []);
      } else {
        Respond(GEN_ERROR, []);
      }
    }

    method OpenSession()
      modifies this`phase, this`responses, this`sessionId
      ensures sessionId == if cmd.code == OPEN_SESSION then SessionAfter(old(sessionId), cmd) else sessionId
      ensures cmd.code == OPEN_SESSION ==> PlainReply(old(Now()), Now(), old(sessionId), cmd)
    {
      if Extra(cmd, 1) {
        Respond(PARAM_NOT_SUPPORTED, []);
        return;
      }
      var id := Param(cmd, 0);
      if id == 0 || cmd.tid != 0 {
        Respond(INVALID_PARAM, []);
        return;
      }
      if sessionId != 0 {
        Respond(SESSION_ALREADY_OPENED, [sessionId]);
      } else {
        sessionId := id;
        Respond(OK, []);
      }
    }

    method CloseSession()
      modifies this`phase, this`responses, this`sessionId
      ensures if Extra(cmd, 0) then sessionId == old(sessionId) else sessionId == 0
      ensures Replied(old(Now()), Now(), cmd,
                      if Extra(cmd, 0) then PARAM_NOT_SUPPORTED else if old(sessionId) != 0 then OK
                        else SESSION_NOT_OPEN, [])
    {
      if Extra(cmd, 0) {
        Respond(PARAM_NOT_SUPPORTED, []);
      } else if sessionId != 0 {
        sessionId := 0;
        Respond(OK, []);
      } else {
        Respond(SESSION_NOT_OPEN, []);
      }
    }

    // ---- Commands that only read ----

    method GetDeviceInfo()
      requires writeUsbSize > 0
      modifies this`phase, this`responses, tx
      ensures DeviceInfoServed(old(Now()), Now(), cmd, sessionId) && tx.faults >= old(tx.faults)
    {
      if Extra(cmd, 0) || (sessionId == 0 && cmd.tid != 0) {
        Respond(PARAM_NOT_SUPPORTED, []);
      } else {
        SendDataset();
      }
    }

    /** GetStorageIDs sends the one store, and answers even when its data phase fails. */
    method GetStorageIds()
      requires writeUsbSize > 0
      modifies this`phase, this`responses, tx
      ensures StorageIdsServed(old(Now()), Now(), cmd, writeUsbSize) && tx.faults >= old(tx.faults)
    {
      hide Sized, Concat, Header, PtpArray.Packed;
      if Extra(cmd, 0) {
        Respond(PARAM_NOT_SUPPORTED, []);
        return;
      }
      phase := DataIn;
      var payload := PtpArray.Packed([STORE_ID]);
      var sent;
      ghost var ps;
      sent, ps := SendPacket(tx, Header(cmd.code, cmd.tid, |payload|) + payload, writeUsbSize);
      if sent != HEADER + |payload| {
        phase := NotReady;
      } else {
        assert tx.packets[|old(tx.packets)|..] == ps;
      }
      Respond(if sent == HEADER + |payload| then OK else GEN_ERROR, []);
    }

    // _entity_update_store_info_run_time, when the disk can tell
    method Refresh(w: World)
      modifies store`freeSpace, store`capacity
      ensures store.freeSpace == (if w.space.Some? then w.space.value.free else old(store.freeSpace))
      ensures store.capacity == (if w.space.Some? then w.space.value.capacity else old(store.capacity))
    {
      if w.space.Some? {
        store.freeSpace, store.capacity := w.space.value.free, w.space.value.capacity;
      }
    }

    /** GetStorageInfo takes the space on the disk anew. */
    method GetStorageInfo(w: World)
      requires writeUsbSize > 0
      modifies this`phase, this`responses, tx, store`freeSpace, store`capacity
      ensures StorageInfoServed(old(Now()), Now(), cmd, w) && tx.faults >= old(tx.faults)
    {
      if Extra(cmd, 1) {
        Respond(PARAM_NOT_SUPPORTED, []);
      } else if Param(cmd, 0) != STORE_ID {
        Respond(INVALID_STORE_ID, []);
      } else {
        Refresh(w);
        SendDataset();
      }
    }

    /**
     GetObjectInfo sends the ObjectInfo dataset of the object, under the last part of its path and
     with its times. When the times cannot be read for the size, an empty dataset goes out with OK.
     */
    method GetObjectInfo(w: World)
      requires writeUsbSize > 0 && Distinct(store.objs) && |w.created| <= MAX_CHARS && |w.modified| <= MAX_CHARS
      modifies this`phase, this`responses, tx, store`faults
      ensures ObjectInfoServed(old(Now()), Now(), cmd, w, Setup())
      ensures tx.faults >= old(tx.faults) && store.faults >= old(store.faults)
    {
      hide SentOut, ObjectInfo.Dataset, InfoDataset, Find;
      if Extra(cmd, 1) {
        Respond(PARAM_NOT_SUPPORTED, []);
        return;
      }
      var at := Lookup(store.objs, Param(cmd, 0));
      if at == -1 {
        Respond(INVALID_OBJ_HANDLE, []);
        return;
      }
      var o := store.objs[at];
      OneByHandle(store.objs, o);
      var base := GetFileName(o.path);
      var name := Copy(Chars(utf16(base)));
      var thumb: nat, assoc: nat :| thumb < 0x1_0000_0000 && assoc < 0x1_0000;  // not part of the model's object
      var info := ObjectInfo.Info(STORE_ID, o.fmt, o.prot, o.size, thumb, o.parent, assoc);
      var sized, packed := *, *;  // whether the file's times can be read, each time
      if !sized {
        store.faults := store.faults + 1;
        SendData([], []);
      } else if !packed {
        store.faults := store.faults + 1;
        Respond(GEN_ERROR, []);
      } else {
        var data := ObjectInfo.Dataset(info, name, w.created, w.modified);
        IsInfo(o, base, name, thumb, assoc, w, data);
        SendData(data, []);
      }
    }

    lemma IsInfo(o: Obj, base: string, name: seq<Wchar>, thumb: nat, assoc: nat, w: World, data: seq<Byte>)
      requires '/' !in base && ('/' !in o.path ==> base == o.path)
      requires '/' in o.path ==> exists dir :: Splits(o.path, dir, base)
      requires name == Carried(Chars(utf16(base))) && |w.created| <= MAX_CHARS && |w.modified| <= MAX_CHARS
      requires data == ObjectInfo.Dataset(ObjectInfo.Info(STORE_ID, o.fmt, o.prot, o.size, thumb, o.parent, assoc),
                 name,
                                          w.created, w.modified)
      ensures InfoDataset(o, w, utf16, data)
    {
      hide Splits, Carried, ObjectInfo.Dataset;
      assert NamedAs(o.path, name, utf16);
    }

    /** GetObjectPropDesc sends the descriptor of the property table, in exactly its announced size. */
    method GetObjectPropDesc(w: World)
      requires writeUsbSize > 0 && (w.desc.Some? ==> PropDesc.Ok(w.desc.value))
      modifies this`phase, this`responses, tx
      ensures PropDescServed(old(Now()), Now(), cmd, w, writeUsbSize) && tx.faults >= old(tx.faults)
    {
      hide SentOut, PropDesc.Ok, PropDesc.Dataset, PropDesc.Size, PropDesc.Exact;
      if Param(cmd, 2) != 0 {
        Respond(PARAM_NOT_SUPPORTED, []);
        return;
      }
      if w.desc.None? {
        Respond(PROP_NOT_SUPPORTED, []);
        return;
      }
      DescSize(w.desc.value);
      var buf := new Byte[PropDesc.Size(w.desc.value)](_ => 0);
      var n := PropDesc.Pack(w.desc.value, buf);
      assert buf[..n] == buf[..];
      var payload := buf[..];
      SendData(payload, []);
    }

    lemma DescSize(d: PropDesc.Desc)
      ensures PropDesc.Size(d) > 0
    {
    }

    method GetInterdepPropDesc()
      requires writeUsbSize > 0
      modifies this`phase, this`responses, tx
      ensures InterdepServed(old(Now()), Now(), cmd) && tx.faults >= old(tx.faults)
    {
      if Extra(cmd, 1) {
        Respond(PARAM_NOT_SUPPORTED, []);
      } else if Param(cmd, 0) == 0 || Param(cmd, 0) == ALL {
        Respond(INVALID_CODE_FORMAT, []);
      } else {
        SendDataset();
      }
    }

    /** GetPartialObject (src/mtp_cmd_handler.c:868-946): bytes of the file from the offset are sent and
        announced, and none beyond the recorded end of an object that the offset lies in. */
    method GetPartialObject(w: World)
      requires writeUsbSize > 0 && Distinct(store.objs)
      modifies this`phase, this`responses, tx, store`faults
      ensures PartialServed(old(Now()), Now(), cmd, w, writeUsbSize)
      ensures tx.faults >= old(tx.faults) && store.faults >= old(store.faults)
    {
      hide SentOut, Find;
      var at := Lookup(store.objs, Param(cmd, 0));
      if at == -1 {
        Respond(INVALID_OBJ_HANDLE, []);
        return;
      }
      OneByHandle(store.objs, store.objs[at]);
      var offset, n := Param(cmd, 1), PartLength(cmd, store.objs[at].size);
      var readable := *;
      if !readable {
        store.faults := store.faults + 1;
      }
      if readable && (n == 0 || offset + n <= |w.file|) {
        SendData(if n == 0 then [] else w.file[offset..offset + n], [n]);
      } else {
        Respond(GEN_ERROR, []);
      }
    }

    /** GetObject (src/mtp_cmd_handler.c:404-530). The answer comes after the data phase, whatever became
        of it; a readable file of the recorded size is answered OK exactly when header and file went out whole. */
    method GetObject(w: World)
      requires readFileSize > HEADER && writeUsbSize > 0 && Distinct(store.objs)
      modifies this`phase, this`responses, tx, store`faults
      ensures ObjectServed(old(Now()), Now(), cmd, w, writeUsbSize)
      ensures tx.faults >= old(tx.faults) && store.faults >= old(store.faults)
    {
      hide Sized, Concat, Header, Find;
      if Extra(cmd, 1) {
        Respond(PARAM_NOT_SUPPORTED, []);
        return;
      }
      var at := Lookup(store.objs, Param(cmd, 0));
      if at == -1 {
        Respond(INVALID_OBJ_HANDLE, []);
        return;
      }
      OneByHandle(store.objs, store.objs[at]);
      phase := DataIn;
      var readable, denied := *, *;
      if !readable {
        store.faults := store.faults + 1;
        phase := NotReady;
        Respond(if denied then ACCESS_DENIED else GEN_ERROR, []);
        return;
      }
      var size := store.objs[at].size;
      var response;
      ghost var ps;
      response, ps := SendFile(tx, cmd.code, cmd.tid, size, w.file, readFileSize, writeUsbSize);
      assert tx.packets[|old(tx.packets)|..] == ps;
      if response != OK {
        phase := NotReady;
      }
      Respond(response, []);
    }

    // ResetDevice takes no parameters.
    method ResetDevice()
      modifies this`phase, this`responses
      ensures Replied(old(Now()), Now(), cmd, if Extra(cmd, 0) then PARAM_NOT_SUPPORTED else OK, [])
    {
      if Extra(cmd, 0) {
        Respond(PARAM_NOT_SUPPORTED, []);
      } else {
        Respond(OK, []);
      }
    }

    /** PowerDown answers and then clears the whole handler, session and waiting object included. */
    method PowerDown()
      requires Core()
      modifies this`phase, this`responses, this`sessionId, this`pending, this`pendingValid, this`cmd
      ensures Core() && Replied(old(Now()), Now(), old(cmd), if Extra(old(cmd), 0) then PARAM_NOT_SUPPORTED else OK, [])
      ensures if Extra(old(cmd), 0) then Quiet() && sessionId == old(sessionId) else sessionId == 0 && pending == None
    {
      hide Inv, Waiting, Ledger;
      if Extra(cmd, 0) {
        Respond(PARAM_NOT_SUPPORTED, []);
        return;
      }
      Respond(OK, []);
      LedgerDropped(reported, landed, pending, store.next, store.entered);
      cmd, sessionId, pending, pendingValid := Command(0, 0, []), 0, None, false;
    }

    // ---- Commands that change the objects ----

    /** DeleteObject (src/mtp_cmd_handler.c:782-833, src/entity/mtp_device.c:474-524) */
    method DeleteObject() returns (ghost gone: seq<nat>)
      requires Core() && cmd.code == DELETE_OBJECT
      modifies this`phase, this`responses
      modifies store`objs, store`log, store`purged, store`faults, store`broken, store`emptied, store`cut
      ensures Core() && DeleteServed(old(Now()), Now(), cmd) && store.faults >= old(store.faults)
      ensures DeletedBy(cmd, old(store.objs), gone)
      ensures store.objs == Prune(old(store.objs), Elems(gone)) && store.log == old(store.log) + gone
    {
      hide Prune, Elems, Core, DeletedBy, DeleteServed, Listed;
      gone := [];
      ghost var a := Now();
      NoneDeleted(cmd, store.objs);
      var h, format := Param(cmd, 0), Param(cmd, 1);
      var refusal := 0;
      if Param(cmd, 2) != 0 {
        refusal := PARAM_NOT_SUPPORTED;
      } else if format != FORMAT_NOTUSED && h != ALL {
        refusal := INVALID_OBJ_FMTCODE;
      } else if h != ALL {
        var at := Lookup(store.objs, h);
        if at == -1 {
          refusal := INVALID_OBJ_HANDLE;
        }
      }
      if refusal != 0 {
        Respond(refusal, []);
        NotDeleted(a, Now(), cmd, refusal);
      } else {
        var response;
        response, gone := Delete(h, format);
        Respond(response, []);
        DeletedNow(a, Now(), cmd, response);
      }
    }

    // _device_delete_object, for a listed handle or all of them
    method Delete(h: nat, format: nat) returns (response: nat, ghost gone: seq<nat>)
      requires Core() && h == Param(cmd, 0) && format == Param(cmd, 1)
      requires h != ALL ==> Listed(store.objs, h) && format == FORMAT_NOTUSED
      modifies store`objs, store`log, store`purged, store`faults, store`broken, store`emptied, store`cut
      ensures Core() && store.faults >= old(store.faults) && DeletedBy(cmd, old(store.objs), gone)
      ensures store.objs == Prune(old(store.objs), Elems(gone)) && store.log == old(store.log) + gone
      ensures DeleteAnswer(old(store.objs), store.objs, old(store.faults), store.faults, store.broken, store.cut,
                           store.readOnly, h, format, response)
    {
      hide Inv, Removal, Prune, Elems, Waiting, Ledger, InBranch, Under, NoDup, AllMatch, Unhindered, Core, Listed,
           Held, LeftForReason, DeleteAllAnswer, DeleteOneAnswer, AllFolders, NoneAdmitted, Admitted;
      CoreParts();
      NothingGone(store.objs, h);
      if h == ALL {
        response, gone := DeleteAll(store, format);
        ghost var inner := response;
        if response !in {STORE_READONLY, PARTIAL_DELETION, OBJ_WRITEPROTECTED, ACCESS_DENIED} {
          response := OK;
        }
        if !store.cut && !store.readOnly {
          AllAnswered(old(store.objs), gone, format, store.faults > old(store.faults), store.broken, inner, response);
        }
      } else {
        ghost var inner;
        response, gone, inner := DeleteHandle(store, h);
        GoneUnlisted(old(store.objs), gone, h);
        if !store.readOnly {
          OneAnswered(old(store.objs), gone, store.broken, h, response, inner);
          if !store.cut {
            LeftOver(old(store.objs), gone, store.broken, h);
          }
        }
      }
      if pending.Some? {
        WaitingPruned(pending.value, old(store.objs), Elems(gone), store.next, store.entered);
      }
      CoreWhole();
    }

    // The first listing of an empty store
    method FillFromDisk(opens: bool, entries: seq<Entry>)
      requires Core() && WellNamed(store.root, entries) && store.objs == []
      modifies store`objs, store`next, store`entered, store`history, store`cut
      ensures Core() && old(store.history) <= store.history && PathsOk(store.objs) && store.faults >= old(store.faults)
      ensures !store.cut ==> Bare(store.objs) == Flat(store.root, ROOT, old(store.next), if opens then entries else [])
    {
      hide Inv, Waiting, Ledger, NoDup, Elems, Grown, EnteredUpTo, WellNamed, Flat, Bare, Walk.Listing, Walk.Rooted,
           PathsOk, DistinctNames, DistinctPaths, Shows, Holds;
      FillEmptyStore(store, opens, entries);
      FilledBooks(old(store.next), old(store.entered), store.entered, store.next);
      LedgerKept(reported, landed, pending, old(store.next), old(store.entered), store.next, store.entered);
      if pending.Some? {
        WaitingFilled(pending.value, store.objs, old(store.next), old(store.entered), store.next, store.entered);
      }
    }

    /**
     GetObjectHandles (src/mtp_cmd_handler.c:286-352, src/mtp_cmd_handler_util.c:811-864). Asking
     for the whole store or its top folder first fills an empty list from the disk. All stores may
     be asked for these two only.
     */
    method GetObjectHandles(w: World)
      requires Core() && WellNamed(store.root, w.entries)
      modifies this`phase, this`responses, tx
      modifies store`objs, store`next, store`entered, store`history, store`cut
      ensures Core() && old(store.history) <= store.history && HandlesServed(old(Now()), Now(), cmd, w, Setup())
      ensures tx.faults >= old(tx.faults) && store.faults >= old(store.faults)
      ensures store.objs != old(store.objs) ==> PathsOk(store.objs)
      ensures old(store.objs) != [] || Param(cmd, 2) !in {ROOT, ALL} ==> Quiet()
    {
      hide Inv, Waiting, Ledger, NoDup, Elems, WellNamed, Flat, Bare, Walk.ByFormat, Walk.ScanFormat, SentOut,
           PtpArray.Packed, PathsOk, Core, Store.Valid, HandlesServed, DataSent;
      CoreParts();
      ghost var a := Now();
      var parent := Param(cmd, 2);
      if parent == ALL || parent == ROOT {
        if store.objs == [] {
          FillFromDisk(w.opens, w.entries);
        }
      }
      CoreParts();
      SendHandles(a, w);
    }

    // The answer, once the store is filled
    method SendHandles(ghost a: State, w: World)
      requires writeUsbSize > 0
      requires a.responses == responses && a.packets == tx.packets && a.sendFaults == tx.faults
      requires if a.objs == [] && Param(cmd, 2) in {ROOT, ALL} then
                 !store.cut ==>
                   Bare(store.objs) == Flat(store.root, ROOT, a.next, if w.opens then w.entries else [])
               else
                 store.objs == a.objs
      modifies this`phase, this`responses, tx
      ensures HandlesServed(a, Now(), cmd, w, Setup()) && tx.faults >= old(tx.faults)
    {
      hide Flat, Bare, Walk.ByFormat, Walk.ScanFormat, PtpArray.Packed, HandlesServed, DataSent;
      var format, parent := Param(cmd, 1), Param(cmd, 2);
      ghost var m := Now();
      if !StoreAsked(cmd) {
        Respond(INVALID_STORE_ID, []);
      } else {
        var handles;
        if parent == ROOT {
          handles := Walk.ObjectsOfFormat(store.objs, format);
        } else {
          handles := Walk.ChildrenOfFormat(store.objs, if parent == ALL then ROOT else parent, format);
        }
        SendData(PtpArray.Packed(handles), []);
      }
      HandlesSent(a, m, Now(), cmd, w, Setup());
    }

    /**
     SendObjectInfo, once its data phase is over (src/mtp_cmd_handler.c:594-723). Its answer OK
     reports the handle of a new object: a folder that is listed at once, or an object that waits.
     */
    method SendObjectInfo(w: World)
      requires Core() && |temp.headerBuf| == HEADER && phase.DataOut?
      modifies this`phase, this`responses, this`pending, this`pendingValid, this`reported, this`landed
      modifies store`objs, store`next, store`entered, store`history, store`freeSpace, store`capacity, store`faults
      modifies temp`disk, temp`dataSize, temp`dataCount, temp`faults
      ensures Core() && OneAnswer(old(Now()), Now(), cmd)
      ensures Informed(old(Now()), Now(), temp.headerBuf, cmd, old(temp.disk), w, Setup())
              && temp.faults >= old(temp.faults)
    {
      hide Inv, Waiting, Ledger, NoDup, Elems, AddRef, Described, Expected, LenOf, Acceptable, Core;
      if Param(cmd, 2) != 0 {
        Respond(PARAM_NOT_SUPPORTED, []);
        return;
      }
      phase := DataOut;
      var ok, readable, payload := temp.ReceiveData(MAX_OBJECT_INFO, cmd.code, cmd.tid);
      if !ok {
        store.faults := store.faults + if readable then 0 else 1;
        phase := NotReady;
        return;
      }
      assert payload == Taken(old(temp.disk), MAX_OBJECT_INFO);
      TakeInfo(payload, w);
    }

    // Make the object that a received dataset describes, in place of one that may have waited.
    method TakeInfo(payload: seq<Byte>, w: World)
      requires Core() && |payload| <= MAX_OBJECT_INFO + 4 && Param(cmd, 2) == 0
      modifies this`phase, this`responses, this`pending, this`pendingValid, this`reported, this`landed
      modifies store`objs, store`next, store`entered, store`history, store`freeSpace, store`capacity, store`faults
      ensures Core() && OneAnswer(old(Now()), Now(), cmd) && phase.Idle? && store.faults >= old(store.faults)
      ensures reported == old(reported) ==>
        && store.objs == old(store.objs) && store.history == old(store.history) && landed == old(landed)
          && pending == None
        && Replied(old(Now()), Now(), cmd,
                   InfoRefusal(old(Now()), store.faults > old(store.faults), cmd, payload, w, Setup()), [])
      ensures reported != old(reported) ==>
        && reported != [] && Reserved(old(Now()), Now(), cmd, reported[|reported| - 1], payload, Setup())
        && Takes(old(Now()), cmd, payload, w, Setup())
        && SpaceTaken(RoomFor(old(Now()), w).free, store.freeSpace, reported[|reported| - 1])
      ensures Takes(old(Now()), cmd, payload, w, Setup()) && store.faults == old(store.faults) ==>
        reported != old(reported)
    {
      hide Inv, Waiting, Ledger, NoDup, Elems, AddRef, Described, Takes;
      var code, made := MakeEntry(payload, w);
      if made.None? {
        Respond(code, []);
        return;
      }
      var o := made.value;
      Book(o, old(store.objs), old(store.next), old(store.entered));
      Respond(OK, [STORE_ID, if Param(cmd, 1) != ROOT then Param(cmd, 1) else ALL, o.handle]);
    }

    // ... up to the account of it
    method MakeEntry(payload: seq<Byte>, w: World) returns (code: nat, made: Option<Obj>)
      requires Core() && |payload| <= MAX_OBJECT_INFO + 4 && Param(cmd, 2) == 0
      modifies this`pending, this`pendingValid
      modifies store`objs, store`next, store`entered, store`history, store`freeSpace, store`capacity, store`faults
      ensures store.Valid() && pending == None && !pendingValid && store.faults >= old(store.faults)
      ensures Inv(old(store.objs), old(store.next), old(store.entered))
      ensures Ledger(reported, landed, None, old(store.next), old(store.entered))
      ensures code == OK <==> made.Some?
      ensures code == InfoRefusal(old(Now()), store.faults > old(store.faults), cmd, payload, w, Setup()) || made.Some?
      ensures made.None? ==> Core() && store.objs == old(store.objs) && store.history == old(store.history)
      ensures made.Some? ==> Takes(old(Now()), cmd, payload, w, Setup())
      ensures Takes(old(Now()), cmd, payload, w, Setup()) && store.faults == old(store.faults) ==> made.Some?
      ensures made.Some? ==>
        && Described(made.value, payload, Param(cmd, 1), old(store.objs), store.root, utf8)
        && LiesIn(made.value, Param(cmd, 1), old(store.objs), store.root)
        && Entered(old(Now()), Now(), made.value)
        && SpaceTaken(RoomFor(old(Now()), w).free, store.freeSpace, made.value)
    {
      hide Inv, Waiting, Ledger, NoDup, Elems, AddRef, Described, Acceptable, Takes, Place, GoodParent, InfoOf,
           ObjectInfo.Framed, Verdict, InfoRefusal, RoomFor, LiesIn, PathsOk, Agrees, Core;
      ghost var a := Now();
      DropWaiting(w);
      CoreParts();
      var storeId := if Param(cmd, 0) == 0 then STORE_ID else Param(cmd, 0);
      code, made := Construct(store, storeId, Param(cmd, 1), utf8, payload);
      EntryJudged(a, store.faults > old(store.faults), cmd, payload, w, Setup(), storeId, code);
      if made.None? {
        LedgerKept(reported, landed, None, old(store.next), old(store.entered), store.next, store.entered);
        CoreWhole();
      }
    }

    // A waiting object gives way; then the space on the disk is taken anew.
    method DropWaiting(w: World)
      requires Core()
      modifies this`pending, this`pendingValid, store`freeSpace, store`capacity
      ensures Core() && pending == None && !pendingValid && RoomIn(store) == RoomFor(old(Now()), w)
      ensures Inv(store.objs, store.next, store.entered)
      ensures Ledger(reported, landed, None, store.next, store.entered)
    {
      hide Inv, Waiting, Ledger, NoDup, Elems, RoomFor;
      ghost var a := Now();
      LedgerDropped(reported, landed, pending, store.next, store.entered);
      if pendingValid {
        Refresh(w);
      }
      TakesRoom(a, w, RoomIn(store));
      pending, pendingValid := None, false;
    }

    // Record a new object, which waits unless it is a folder.
    method Book(o: Obj, ghost objs: seq<Obj>, ghost next: nat, ghost entered: set<nat>)
      requires pending == None && !pendingValid && Inv(objs, next, entered) && o.handle == next
               && store.next == next + 1
      requires Ledger(reported, landed, None, next, entered)
      requires store.entered == if o.fmt == FMT_ASSOCIATION then entered + {o.handle} else entered
      modifies this`pending, this`pendingValid, this`reported, this`landed
      ensures Ledger(reported, landed, pending, store.next, store.entered) && (pendingValid <==> pending.Some?)
      ensures reported == old(reported) + [o]
      ensures if o.fmt == FMT_ASSOCIATION
              then pending == None && landed == old(landed) + [o]
              else pending == Some(o) && landed == old(landed)
    {
      hide Inv, Ledger;
      InvAbove(objs, next, entered);
      LedgerReported(reported, landed, o, next, entered);
      reported := reported + [o];
      if o.fmt == FMT_ASSOCIATION {
        LedgerLanded(reported, landed, o, store.next, entered);
        landed := landed + [o];
      } else {
        pending, pendingValid := Some(o), true;
      }
    }

    /**
     SendObject, once its data phase is over (src/mtp_cmd_handler.c:725-780). The object of the
     latest SendObjectInfo is listed, or nothing is; a data phase whose length does not match,
     below 4 GiB, is answered GEN_ERROR and leaves the waiting object waiting.
     */
    method SendObject()
      requires Core() && |temp.headerBuf| == HEADER && phase.DataOut?
      modifies this`phase, this`responses, this`pending, this`pendingValid, this`landed
      modifies store`objs, store`entered, store`history, store`faults
      modifies this`written, temp`dataSize, temp`dataCount, temp`fileSize, temp`isOpen, temp`faults
      ensures Core() && OneAnswer(old(Now()), Now(), cmd) && phase.Idle?
      ensures Delivered(old(Now()), Now(), temp.headerBuf, cmd, temp.disk) && temp.faults >= old(temp.faults)
    {
      hide Inv, Waiting, Ledger, NoDup, Elems, Expected, FileAccepted, Delivered, AddRef, Core, LenOf, TypeOf, CodeOf,
           TidOf, Store.Valid;
      ghost var a, header := Now(), temp.headerBuf;
      if Extra(cmd, 0) {
        phase := NotReady;
        Respond(INVALID_PARAM, []);
        NotDelivered(a, Now(), header, cmd, temp.disk, INVALID_PARAM);
        return;
      }
      phase := DataOut;
      var ok, found := temp.ReceiveFile(cmd.code, cmd.tid);
      if !ok {
        store.faults := store.faults + if found then 0 else 1;
        phase := Idle;
        Respond(GEN_ERROR, []);
        NotDelivered(a, Now(), header, cmd, temp.disk, GEN_ERROR);
        return;
      }
      var response := WriteFile();
      Respond(response, []);
      UsedUp(a, Now(), header, cmd, temp.disk, response);
    }

    /** _hutil_write_file_data: move the temporary file to its place and list the waiting object,
        which happens exactly when there is one and the disk does not fail. It is used up either way. */
    method WriteFile() returns (response: nat)
      requires Core()
      modifies store`objs, store`entered, store`history, store`faults
      modifies this`landed, this`pending, this`pendingValid, this`written
      ensures Core() && response in {OK, GEN_ERROR, STORE_FULL} && pending == None
      ensures response == OK <==> old(pending).Some? && store.faults == old(store.faults)
      ensures store.faults >= old(store.faults) && (response == STORE_FULL ==> old(pending).Some?)
      ensures response == OK ==>
        && old(reported) != [] && old(pending).value == old(reported)[|old(reported)| - 1]
        && Gained(old(Now()), Now(), old(pending).value)
          && written == old(written)[old(pending).value.path := temp.disk]
      ensures response != OK ==>
        store.objs == old(store.objs) && store.history == old(store.history) && landed == old(landed)
          && written == old(written)
    {
      hide Inv, Ledger, NoDup, Elems, AddRef;
      LedgerDropped(reported, landed, pending, store.next, store.entered);
      if pending.None? {
        return GEN_ERROR;
      }
      var there, moved := *, *;
      if !there || !moved {
        store.faults := store.faults + 1;
        pending, pendingValid := None, false;
        return if there then STORE_FULL else GEN_ERROR;
      }
      var p := pending.value;
      LastReported(reported, landed, p, store.next, store.entered);
      AddObject(store, p);
      LedgerLanded(reported, landed, p, store.next, old(store.entered));
      landed, pending, pendingValid, written := landed + [p], None, false, written[p.path := temp.disk];
      response := OK;
    }

    /** SetObjectPropValue, once its data phase is over (src/mtp_cmd_handler.c:532-592,
        src/mtp_cmd_handler_util.c:1231-1345) */
    method SetObjectPropValue(w: World)
      requires Core() && |temp.headerBuf| == HEADER && phase.DataOut?
      modifies this`phase, this`responses, store`objs, store`faults, temp`disk, temp`dataSize, temp`dataCount,
          temp`faults
      ensures Core() && OneAnswer(old(Now()), Now(), cmd) && phase.Idle? && temp.faults >= old(temp.faults)
      ensures Renamed(old(Now()), Now(), temp.headerBuf, cmd, old(temp.disk), w, Setup())
    {
      hide Inv, Waiting, Ledger, NoDup, Elems, Expected, LenOf, Renamed, Updated, Core;
      ghost var a, header, file := Now(), temp.headerBuf, temp.disk;
      if Param(cmd, 2) != 0 {
        Respond(PARAM_NOT_SUPPORTED, []);
        NotRenamed(a, Now(), header, cmd, file, w, Setup(), PARAM_NOT_SUPPORTED);
        return;
      }
      phase := DataOut;
      var ok, readable, payload := temp.ReceiveData(MAX_PROP_DATA, cmd.code, cmd.tid);
      if !ok {
        store.faults := store.faults + if readable then 0 else 1;
        phase := Idle;
        Respond(INVALID_PROP_VALUE, []);
        NotRenamed(a, Now(), header, cmd, file, w, Setup(), INVALID_PROP_VALUE);
        return;
      }
      assert payload == Taken(file, MAX_PROP_DATA);
      var response := UpdateProperty(payload, w);
      Respond(response, []);
      RenamedNow(a, Now(), header, cmd, file, w, Setup(), response);
    }

    // _hutil_update_object_property
    method UpdateProperty(payload: seq<Byte>, w: World) returns (response: nat)
      requires Core()
      modifies store`objs, store`faults
      ensures Core() && store.faults >= old(store.faults)
      ensures Updated(old(store.objs), store.objs, store.next, store.faults > old(store.faults), cmd, payload, w,
                Setup(), response)
    {
      hide Inv, Waiting, Ledger, NoDup, Elems, RenamedBy, RenamedTo;
      Unrenamed(cmd, store.objs);
      var h, property := Param(cmd, 0), Param(cmd, 1);
      var at := Lookup(store.objs, h);
      if at == -1 {
        return INVALID_OBJ_HANDLE;
      }
      var open := Rename.IsFileOpened();
      if open {
        store.faults := store.faults + 1;
        NotNow(store.objs, store.next, h, payload, Setup());
        return GEN_ERROR;
      }
      if !w.setting.Settable? {
        return if w.setting.UnknownProperty? then PROP_NOT_SUPPORTED else ACCESS_DENIED;
      }
      if property != PROP_FILE_NAME {
        return OK;
      }
      response := RenameTo(payload);
    }

    // Rename the object to the string that the payload holds. The branches of the rewriting that
    // truncate a path or free an object, which are not modelled, are never reached.
    method RenameTo(payload: seq<Byte>) returns (code: nat)
      requires Core() && Listed(store.objs, Param(cmd, 0))
      modifies store`objs, store`faults
      ensures Core() && RenamedBy(cmd, old(store.objs), store.objs) && store.faults >= old(store.faults)
      ensures code in {OK, GEN_ERROR, ACCESS_DENIED, INVALID_PROP_VALUE}
      ensures store.faults > old(store.faults) ==> code in {GEN_ERROR, ACCESS_DENIED}
      ensures code != OK ==> store.objs == old(store.objs)
      ensures RenamedTo(old(store.objs), store.objs, store.next, store.faults > old(store.faults), Param(cmd, 0),
                        payload, Setup(), code)
    {
      hide Inv, Waiting, Ledger, NoDup, Elems, PathsOk, Agrees, Rename.MovedTree, InBranch, Parsed, Rename.SamePlaces,
           Rename.Answers, Rename.RenamedAs, Rename.Renames, Rename.Passes, Find, RawString, Utf8, Rename.Target;
      var name: string := *;
      if 3 <= |payload| <= 131072 {
        var slack := Slack(511);
        var wide, n := ParseRaw(payload + slack, 0, |payload|);
        RawAlone(payload, slack);
        name := Utf8(utf8, wide);
      }
      var err, truncated;
      err, truncated := Rename.RenameObject(store, Param(cmd, 0), name);
      assert !truncated;
      code := ErrorCode(err);
      if pending.Some? {
        WaitingMoved(pending.value, store.objs, old(store.objs), store.next, store.entered);
      }
    }

    // ---- The command machine ----

    // The commands whose data phase is over
    method RunDataOut(w: World)
      requires Core() && |temp.headerBuf| == HEADER && phase.DataOut? && IsDataOut(cmd.code) && sessionId != 0
      modifies this`phase, this`responses, this`pending, this`pendingValid, this`reported, this`landed, this`written
      modifies store, temp`disk, temp`dataSize, temp`dataCount, temp`fileSize, temp`isOpen, temp`faults
      ensures Core() && temp.faults >= old(temp.faults)
      ensures Handled(old(Now()), Now(), sessionId, sessionId, cmd, temp.headerBuf, old(temp.disk), w, Setup())
    {
      hide Inv, Waiting, Ledger, NoDup, Elems, Informed, Delivered, Renamed, Effect, Core, Handled, Framing, Excused,
           OneAnswer;
      ghost var a, h, file := Now(), temp.headerBuf, temp.disk;
      if cmd.code == SEND_OBJECT_INFO {
        SendObjectInfo(w);
        InformedEffect(a, Now(), h, cmd, file, w, Setup());
        InformedExcused(a, Now(), h, cmd, file, w, Setup());
      } else if cmd.code == SEND_OBJECT {
        SendObject();
        DeliveredEffect(a, Now(), h, cmd, file);
      } else if cmd.code == SET_OBJECT_PROP_VALUE {
        SetObjectPropValue(w);
        RenamedEffect(a, Now(), h, cmd, file, w, Setup());
      } else {
        phase := DataIn;
        Respond(OK, []);
        NoEffect(a, Now(), cmd);
        RepliedOnce(a, Now(), cmd, OK, []);
      }
      IdleExcused(a, Now(), cmd, h, file);
      HandledData(a, Now(), sessionId, cmd, h, file, w, Setup());
    }

    // The commands that leave the objects and the session alone
    method RunPlain(w: World)
      requires Core() && WorldOk(w, store.root) && sessionId != 0
      requires !IsDataOut(cmd.code) && cmd.code !in {GET_DEVICE_INFO, OPEN_SESSION, CLOSE_SESSION, POWER_DOWN}
      requires cmd.code !in {GET_OBJECT_HANDLES, DELETE_OBJECT}
      modifies this`phase, this`responses, tx, store`freeSpace, store`capacity, store`faults
      ensures Core() && Served(old(Now()), Now(), sessionId, cmd, w, Setup())
    {
      hide Inv, Waiting, Ledger, NoDup, Elems, SentOut, WellNamed, PropDesc.Ok, SomeDataset, StorageIdsServed,
           StorageInfoServed, InterdepServed, ObjectInfoServed, PropDescServed, PartialServed, ObjectServed, Core,
           Store.Valid, Distinct;
      CoreParts();
      var code := cmd.code;
      if code == GET_STORAGE_IDS {
        GetStorageIds();
      } else if code == GET_STORAGE_INFO {
        GetStorageInfo(w);
      } else if code == GET_OBJECT_INFO {
        GetObjectInfo(w);
      } else if code == GET_OBJECT {
        GetObject(w);
      } else if code == ANDROID_GET_PARTIAL || code == GET_PARTIAL_OBJECT {
        GetPartialObject(w);
      } else if code == RESET_DEVICE {
        ResetDevice();
      } else if code == GET_OBJECT_PROP_DESC {
        GetObjectPropDesc(w);
      } else if code == GET_INTERDEP_PROP_DESC {
        GetInterdepPropDesc();
      } else if code == VENDOR_OP1 {
        Respond(GEN_ERROR, []);
      } else if code == ANDROID_BEGIN_EDIT || code == ANDROID_END_EDIT {
        Respond(OK, []);
      } else {
        Respond(OP_NOT_SUPPORTED, []);
      }
    }

    // The commands that need a session
    method RunInSession(w: World)
      requires Core() && |temp.headerBuf| == HEADER && sessionId != 0 && (phase.Idle? || phase.DataOut?)
               && WorldOk(w, store.root)
      requires cmd.code !in {GET_DEVICE_INFO, OPEN_SESSION}
      modifies this`phase, this`responses, this`sessionId, this`cmd
      modifies this`pending, this`pendingValid, this`reported, this`landed, this`written
      modifies store, temp`disk, temp`dataSize, temp`dataCount, temp`fileSize, temp`isOpen, temp`faults, tx
      ensures Core() && temp.faults >= old(temp.faults) && (phase.DataOut? ==> temp.dataCount == old(temp.dataCount))
      ensures Handled(old(Now()), Now(), old(sessionId), sessionId, old(cmd), temp.headerBuf, old(temp.disk), w,
                Setup())
    {
      hide Inv, Waiting, Ledger, NoDup, Elems, Judged, Excused, Effect, WorldOk, PathsOk, DeletedBy, Prune, Core,
           Served, Handled;
      ghost var a, c, file := Now(), cmd, temp.disk;
      if IsDataOut(cmd.code) {
        if phase.Idle? {
          phase := DataOut;
          HandledDeferred(a, Now(), sessionId, c, temp.headerBuf, file, w, Setup());
        } else {
          RunDataOut(w);
        }
      } else if cmd.code == GET_OBJECT_HANDLES || cmd.code == DELETE_OBJECT {
        RunOnObjects(w);
        HandledPlain(a, Now(), sessionId, sessionId, c, temp.headerBuf, file, w, Setup());
      } else if cmd.code == CLOSE_SESSION || cmd.code == POWER_DOWN {
        EndSession(w);
        HandledPlain(a, Now(), old(sessionId), sessionId, c, temp.headerBuf, file, w, Setup());
      } else {
        RunPlain(w);
        NoEffect(a, Now(), c);
        HandledPlain(a, Now(), sessionId, sessionId, c, temp.headerBuf, file, w, Setup());
      }
      HandledMeans(a, Now(), old(sessionId), sessionId, c, temp.headerBuf, file, w, Setup());
    }

    // The commands that list and delete objects
    method RunOnObjects(w: World)
      requires Core() && WorldOk(w, store.root) && sessionId != 0 && cmd.code in {GET_OBJECT_HANDLES, DELETE_OBJECT}
      modifies this`phase, this`responses, tx, store
      ensures Core() && old(store.history) <= store.history
      ensures Served(old(Now()), Now(), sessionId, cmd, w, Setup()) && Effect(old(Now()), Now(), cmd)
    {
      hide Inv, Waiting, Ledger, NoDup, Elems, Effect, WorldOk, HandlesServed, DeleteServed, PathsOk, DeletedBy, Prune,
           Core;
      ghost var a := Now();
      if cmd.code == GET_OBJECT_HANDLES {
        NamedEntries(w, store.root);
        GetObjectHandles(w);
        FilledEffect(a, Now(), cmd);
      } else {
        ghost var gone := DeleteObject();
        DeletedEffect(a, Now(), cmd, gone);
      }
    }

    // The commands that end the session
    method EndSession(ghost w: World)
      requires Core() && sessionId != 0 && cmd.code in {CLOSE_SESSION, POWER_DOWN}
      modifies this`phase, this`responses, this`sessionId, this`pending, this`pendingValid, this`cmd
      ensures Core() && sessionId == SessionAfter(old(sessionId), old(cmd))
      ensures Served(old(Now()), Now(), old(sessionId), old(cmd), w, Setup()) && Effect(old(Now()), Now(), old(cmd))
    {
      hide Inv, Waiting, Ledger, NoDup, Elems, Effect, Core;
      ghost var a, c := Now(), cmd;
      if cmd.code == CLOSE_SESSION {
        CloseSession();
      } else {
        PowerDown();
      }
      LostEffect(a, Now(), c);
    }

    /**
     __process_commands: a data-out command of an idle device in session is put off until its data has
     arrived; any other command has its outcome, with one answer that carries its transaction id, or
     none when its data phase failed.
     */
    method Process(c: Command, w: World)
      requires Core() && |temp.headerBuf| == HEADER && Orderly(steps, responses) && WorldOk(w, store.root)
      requires phase.Idle? || (phase.DataOut? && sessionId != 0)
      modifies this`phase, this`responses, this`sessionId, this`cmd, this`steps
      modifies this`pending, this`pendingValid, this`reported, this`landed, this`written
      modifies store, temp`disk, temp`dataSize, temp`dataCount, temp`fileSize, temp`isOpen, temp`faults, tx
      ensures Core() && Orderly(steps, responses) && temp.faults >= old(temp.faults)
      ensures |steps| == |old(steps)| + 1 && old(steps) <= steps && steps[|old(steps)|].cmd == c
      ensures phase.DataOut? ==> temp.dataCount == old(temp.dataCount)
      ensures Handled(old(Now()), Now(), old(sessionId), sessionId, c, temp.headerBuf, old(temp.disk), w, Setup())
    {
      hide Inv, Waiting, Ledger, NoDup, Elems, WorldOk, Orderly, Handled, Core, QuietStep;
      ghost var a, session, file := Now(), sessionId, temp.disk;
      Execute(c, w);
      HandledMeans(a, Now(), session, sessionId, c, temp.headerBuf, file, w, Setup());
      ghost var answer := if responses == a.responses then None else Some(responses[|responses| - 1]);
      ghost var s := Step(c, answer, session, sessionId, !QuietStep(a, Now()));
      Answered(a, Now(), c, s);
      StepTaken(steps, a.responses, s, responses);
      steps := steps + [s];
    }

    method Execute(c: Command, w: World)
      requires Core() && |temp.headerBuf| == HEADER && WorldOk(w, store.root)
      requires phase.Idle? || (phase.DataOut? && sessionId != 0)
      modifies this`phase, this`responses, this`sessionId, this`cmd
      modifies this`pending, this`pendingValid, this`reported, this`landed, this`written
      modifies store, temp`disk, temp`dataSize, temp`dataCount, temp`fileSize, temp`isOpen, temp`faults, tx
      ensures Core() && temp.faults >= old(temp.faults) && (phase.DataOut? ==> temp.dataCount == old(temp.dataCount))
      ensures Handled(old(Now()), Now(), old(sessionId), sessionId, c, temp.headerBuf, old(temp.disk), w, Setup())
    {
      hide Inv, Waiting, Ledger, NoDup, Elems, WorldOk, Handled, Core;
      cmd := c;
      if c.code == GET_DEVICE_INFO || c.code == OPEN_SESSION || sessionId == 0 {
        RunAnyway(w);
        HandledPlain(old(Now()), Now(), old(sessionId), sessionId, c, temp.headerBuf, temp.disk, w, Setup());
        HandledMeans(old(Now()), Now(), old(sessionId), sessionId, c, temp.headerBuf, temp.disk, w, Setup());
      } else {
        RunInSession(w);
      }
    }

    // The commands that need no session, and the refusal of the others
    method RunAnyway(w: World)
      requires Core() && (cmd.code == GET_DEVICE_INFO || cmd.code == OPEN_SESSION || sessionId == 0)
      modifies this`phase, this`responses, this`sessionId, tx
      ensures Core() && sessionId == SessionAfter(old(sessionId), cmd) && Quiet()
      ensures Served(old(Now()), Now(), old(sessionId), cmd, w, Setup()) && Effect(old(Now()), Now(), cmd)
    {
      hide Inv, Waiting, Ledger, NoDup, Elems, Effect, Core, Served, Store.Valid;
      ghost var a, session := Now(), sessionId;
      CoreParts();
      if cmd.code == GET_DEVICE_INFO {
        GetDeviceInfo();
      } else if cmd.code == OPEN_SESSION {
        OpenSession();
      } else {
        Respond(SESSION_NOT_OPEN, []);
        NoSession(a, Now(), cmd);
      }
      NoEffect(a, Now(), cmd);
      ServedAnyway(a, Now(), session, cmd, w, Setup());
    }

    /**
     __finish_receiving_file_packets. The command to execute is the last packet when that reads as
     one, else the saved one; that neither does never happens. (The packet methods of the temporary
     file have already cleared its packet counter.)
     */
    method Finish(data: seq<Byte>, w: World) returns (valid: bool)
      requires Core() && |temp.headerBuf| == HEADER && Orderly(steps, responses) && WorldOk(w, store.root)
      requires phase.DataOut? && sessionId != 0 && IsCommand(savedCmd)
      modifies this`phase, this`responses, this`sessionId, this`cmd, this`steps
      modifies this`pending, this`pendingValid, this`reported, this`landed, this`written
      modifies store, temp`disk, temp`dataSize, temp`dataCount, temp`fileSize, temp`isOpen, temp`faults, tx
      ensures valid && Core() && Orderly(steps, responses) && temp.faults >= old(temp.faults)
      ensures var c := if IsCommand(data) then Decode(data) else Decode(savedCmd);
        && |steps| == |old(steps)| + 1 && old(steps) <= steps && steps[|old(steps)|].cmd == c
        && Handled(old(Now()), Now(), old(sessionId), sessionId, c, temp.headerBuf, old(temp.disk), w, Setup())
    {
      hide Inv, Waiting, Ledger, NoDup, Elems, WorldOk, Orderly, IsCommand, Decode, Handled, Core;
      var buf := data;
      if !IsCommand(buf) {
        buf := savedCmd;
      }
      valid := IsCommand(buf);
      phase := if valid then phase else Idle;
      if valid {
        Process(Decode(buf), w);
      }
    }

    /**
     _receive_mq_data_cb: one packet from the host. A command may come when the device is idle;
     data goes to the temporary file until it is complete, and then its command is executed; a
     device that is not ready drops the packet and becomes idle. `kept` says that data is in the
     temporary file, `ran` that a command was executed, and `file` is what it found there.
     */
    method Packet(data: seq<Byte>, w: World) returns (kept: bool, ran: bool, ghost file: seq<Byte>)
      requires Valid() && |data| <= readUsbSize && WorldOk(w, store.root)
      requires phase.DataOut? && temp.dataCount == 0 ==> |data| >= HEADER
      modifies this, store, temp, temp.buffer, tx
      ensures Valid() && old(store.history) <= store.history && old(steps) <= steps
      ensures |steps| == |old(steps)| + (if ran then 1 else 0) && temp.faults >= old(temp.faults)
      ensures old(sessionId) == 0 ==> Quiet()
      // no command: the objects, the session and the answers stay as they are
      ensures !ran ==> Now() == old(Now()).(phase := phase) && sessionId == old(sessionId)
      ensures old(phase).NotReady? ==> phase.Idle? && !ran
      ensures old(phase).Idle? ==> if IsCommand(data) then ran else phase.NotReady? && !ran
      // a command: the right one, with its outcome
      ensures ran ==>
        && (IsCommand(data) || (old(phase).DataOut? && IsCommand(old(savedCmd))))
        && var c := if IsCommand(data) then Decode(data) else Decode(old(savedCmd));
        && steps[|old(steps)|].cmd == c
        && Handled(old(Now()), Now(), old(sessionId), sessionId, c, temp.headerBuf, file, w, Setup())
      ensures phase.DataOut? && old(phase).Idle? ==> savedCmd == data && temp.dataCount == 0
      // data
      ensures old(phase).DataOut? && kept ==>
        && temp.headerBuf == (if old(temp.dataCount) == 0 then data[..HEADER] else old(temp.headerBuf))
        && temp.received == (if old(temp.dataCount) == 0 then data[HEADER..] else old(temp.received) + data)
        && (ran <==> Complete(|data|, old(temp.dataCount) == 0, temp.headerBuf, |temp.received|, readUsbSize))
        && (!ran ==> phase.DataOut? && savedCmd == old(savedCmd) && temp.dataCount > 0)
        && (ran && !temp.lost ==> file == temp.received)
      ensures old(phase).DataOut? && !kept ==> old(temp.dataCount) == 0 && ran
      ensures old(phase).DataOut? && temp.faults == old(temp.faults) ==>
        kept && temp.lost == (old(temp.dataCount) > 0 && old(temp.lost))
    {
      hide Valid, WorldOk, IsCommand, Decode, Complete, Handled;
      kept, ran, file := false, false, temp.disk;
      if phase.Idle? {
        ran := IsCommand(data);
        if !ran {
          GoesNotReady();
          return;
        }
        CommandPacket(data, w);
        HandledMeans(old(Now()), Now(), old(sessionId), sessionId, Decode(data), temp.headerBuf, file, w, Setup());
      } else if phase.DataOut? {
        kept, ran, file := DataPacket(data, w);
        if ran {
          HandledMeans(old(Now()), Now(), old(sessionId), sessionId, if IsCommand(data) then Decode(data)
            else Decode(old(savedCmd)),
                       temp.headerBuf, file, w, Setup());
        }
      } else {
        GoesIdle();
      }
    }

    // A packet that is not a command makes an idle device not ready.
    method GoesNotReady()
      requires Valid() && phase.Idle?
      modifies this`phase
      ensures Valid() && phase.NotReady?
    {
      phase := NotReady;
    }

    // A device that is not ready drops one packet.
    method GoesIdle()
      requires Valid()
      modifies this`phase
      ensures Valid() && phase.Idle?
    {
      phase := Idle;
    }

    // A command of an idle device
    method CommandPacket(data: seq<Byte>, w: World)
      requires Valid() && phase.Idle? && IsCommand(data) && WorldOk(w, store.root)
      modifies this, store, temp`disk, temp`dataSize, temp`dataCount, temp`fileSize, temp`isOpen, temp`faults, tx
      ensures Valid() && temp.faults >= old(temp.faults)
      ensures |steps| == |old(steps)| + 1 && old(steps) <= steps && steps[|old(steps)|].cmd == Decode(data)
      ensures Handled(old(Now()), Now(), old(sessionId), sessionId, Decode(data), temp.headerBuf, old(temp.disk), w,
                Setup())
      ensures phase.DataOut? ==> savedCmd == data && temp.dataCount == 0
    {
      hide WorldOk, Orderly, IsCommand, Decode, Core, Handled, SessionAfter;
      ghost var a, session, file := Now(), sessionId, temp.disk;
      savedCmd, temp.dataCount := data, 0;
      Process(Decode(data), w);
      HandledMeans(a, Now(), session, sessionId, Decode(data), temp.headerBuf, file, w, Setup());
      SessionStays(session, Decode(data));
    }

    // A packet of a data phase
    method DataPacket(data: seq<Byte>, w: World) returns (kept: bool, ran: bool, ghost file: seq<Byte>)
      requires Valid() && phase.DataOut? && |data| <= readUsbSize && WorldOk(w, store.root)
      requires temp.dataCount == 0 ==> |data| >= HEADER
      modifies this, store, temp, temp.buffer, tx
      ensures Valid() && old(steps) <= steps && temp.faults >= old(temp.faults)
      ensures |steps| == |old(steps)| + (if ran then 1 else 0) && IsCommand(old(savedCmd))
      ensures temp.faults == old(temp.faults) ==> kept && temp.lost == (old(temp.dataCount) > 0 && old(temp.lost))
      ensures !ran ==> kept && Now() == old(Now()) && temp.dataCount > 0
      ensures !ran ==> savedCmd == old(savedCmd) && sessionId == old(sessionId)
      ensures |temp.headerBuf| == HEADER
      ensures kept ==>
        && temp.headerBuf == (if old(temp.dataCount) == 0 then data[..HEADER] else old(temp.headerBuf))
        && temp.received == (if old(temp.dataCount) == 0 then data[HEADER..] else old(temp.received) + data)
        && (ran <==> Complete(|data|, old(temp.dataCount) == 0, temp.headerBuf, |temp.received|, readUsbSize))
        && (ran && !temp.lost ==> file == temp.received)
      ensures !kept ==> old(temp.dataCount) == 0
      ensures ran ==>
        var c := if IsCommand(data) then Decode(data) else Decode(old(savedCmd));
        && steps[|old(steps)|].cmd == c
        && Handled(old(Now()), Now(), old(sessionId), sessionId, c, temp.headerBuf, file, w, Setup())
    {
      hide WorldOk, Orderly, IsCommand, Decode, LenOf, U32, Core, Handled, SessionAfter;
      CoreParts();
      file := temp.disk;
      if temp.dataCount == 0 {
        kept, ran := temp.FirstPacket(data);
      } else {
        ran := temp.NextPacket(data, readUsbSize);
        kept := true;
      }
      if ran {
        file := temp.disk;
        var valid := Finish(data, w);
        HandledMeans(old(Now()), Now(), old(sessionId), sessionId, if IsCommand(data) then Decode(data)
          else Decode(savedCmd),
                     temp.headerBuf, file, w, Setup());
      }
    }

    // A device reset between packets: the session ends.
    method Reset()
      requires Valid()
      modifies this`phase, this`sessionId
      ensures Valid() && Quiet() && phase.Idle? && sessionId == 0
    {
      phase, sessionId := Idle, 0;
    }

    // A cancelled transfer: the device is idle and the temporary file is closed and removed.
    method Cancel()
      requires Valid()
      modifies this`phase, temp`isOpen, temp`disk
      ensures Valid() && Quiet() && phase.Idle? && !temp.isOpen && responses == old(responses)
    {
      phase, temp.isOpen, temp.disk := Idle, false, [];
    }

    // An entry appeared in a watched folder.
    method Appeared(folder: string, name: string, stat: FsEvents.Stat)
      requires Valid() && name != "" && '/' !in name
      requires forall i :: FsEvents.FirstAt(store.objs, folder, i) ==> store.objs[i].fmt == FMT_ASSOCIATION
      modifies store`objs, store`next, store`entered, store`history
      ensures Valid() && old(store.history) <= store.history && (PathsOk(old(store.objs)) ==> PathsOk(store.objs))
    {
      hide Inv, Waiting, Ledger, NoDup, Elems, AddRef, Orderly, PathsOk;
      var added := FsEvents.ObjectAdded(store, folder, name, stat);
      if added {
        LedgerKept(reported, landed, pending, old(store.next), old(store.entered), store.next, store.entered);
        if pending.Some? {
          ghost var first, path := old(store.next), FsEvents.EventPath(folder, name);
          ghost var p :| store.objs == AddRef(old(store.objs), p, first) + [FsEvents.NewObject(first, p, path, stat)];
          WaitingAdded(pending.value, old(store.objs), FsEvents.NewObject(first, p, path, stat), first,
                       old(store.entered), store.next);
        }
      }
    }

    // An entry disappeared from a watched folder.
    method Disappeared(folder: string, name: string, isDir: bool)
      requires Valid() && name != ""
      modifies store`objs
      ensures Valid() && (PathsOk(old(store.objs)) ==> PathsOk(store.objs))
    {
      hide Inv, Waiting, Ledger, NoDup, Elems, Orderly, Prune, SweptAll, PathsOk;
      ghost var gone := FsEvents.ObjectDeleted(store, folder, name, isDir);
      if pending.Some? {
        WaitingPruned(pending.value, old(store.objs), Elems(gone), store.next, store.entered);
      }
    }
  }

  // What can happen to the device between two packets, and the packets themselves
  datatype Input =
    | Data(packet: seq<Byte>, world: World)
    | DeviceReset
    | CancelTransfer
    | Created(folder: string, name: string, stat: FsEvents.Stat)
    | Removed(folder: string, name: string, isDir: bool)

  // What the transport and the file system promise of an input
  ghost predicate Proper(i: Input, root: string, readUsbSize: nat) {
    match i
    case Data(packet, w) => |packet| <= readUsbSize && WorldOk(w, root)
    case Created(_, name, _) => name != "" && '/' !in name
    case Removed(_, name, _) => name != ""
    case _ => true
  }

  /**
   Every run of the device, whatever the host sends and whatever the file system answers: in every
   state between two inputs, and so at the end, the device is Valid. The run ends early, with
   `n` inputs consumed, only at a data phase that opens with less than a header, or at a report of
   an entry created inside something that is listed as a file.
   */
  method Run(d: Device, inputs: seq<Input>) returns (n: nat)
    requires d.Valid() && forall i :: i in inputs ==> Proper(i, d.store.root, d.readUsbSize)
    modifies d, d.store, d.temp, d.temp.buffer, d.tx
    ensures d.Valid() && n <= |inputs|
    ensures old(d.store.history) <= d.store.history && old(d.steps) <= d.steps && |d.steps| <= |old(d.steps)| + n
  {
    hide Device.Valid, WorldOk, Handled;
    n := 0;
    while n < |inputs|
      invariant n <= |inputs| && d.Valid()
      invariant old(d.store.history) <= d.store.history && old(d.steps) <= d.steps && |d.steps| <= |old(d.steps)| + n
    {
      assert inputs[n] in inputs;
      match inputs[n] {
        case Data(packet, w) =>
          if d.phase.DataOut? && d.temp.dataCount == 0 && |packet| < HEADER {
            return;
          }
          var kept, ran;
          ghost var file;
          kept, ran, file := d.Packet(packet, w);
        case DeviceReset => d.Reset();
        case CancelTransfer => d.Cancel();
        case Created(folder, name, stat) =>
          var at := LookupPath(d.store.objs, folder);
          if at != -1 && d.store.objs[at].fmt != FMT_ASSOCIATION {
            return;
          }
          d.Appeared(folder, name, stat);
        case Removed(folder, name, isDir) => d.Disappeared(folder, name, isDir);
      }
      n := n + 1;
    }
  }

  /**
   A whole data phase, from a device that waits for it to the command that it ends in. For every
   payload and packet size, sent as full packets and a remainder, no packet before the last executes
   anything, the last one executes the command, and, unless the disk fails, on exactly the payload:
   SendObjectInfo then reports the object that the payload describes, and SendObject lists the
   waiting object.
   */
  method SendPayload(d: Device, code: nat, tid: nat, payload: seq<Byte>, w: World)
    returns (kept: bool, last: seq<Byte>, ghost file: seq<Byte>)
    requires d.Valid() && d.phase.DataOut? && d.temp.dataCount == 0 && WorldOk(w, d.store.root)
    requires d.readUsbSize < 0x8000_0000 && (Saturated(|payload|) ==> d.readUsbSize % 2 == 0)
    requires code < 0x1_0000 && tid < 0x1_0000_0000
    modifies d, d.store, d.temp, d.temp.buffer, d.tx
    ensures d.Valid() && |d.steps| == |old(d.steps)| + 1 && old(d.steps) <= d.steps && IsCommand(old(d.savedCmd))
    ensures d.temp.faults >= old(d.temp.faults) && (d.temp.faults == old(d.temp.faults) ==> kept && !d.temp.lost)
    ensures var c := d.steps[|old(d.steps)|].cmd;
      && c == (if IsCommand(last) then Decode(last) else Decode(old(d.savedCmd)))
      && Handled(old(d.Now()), d.Now(), old(d.sessionId), d.sessionId, c, d.temp.headerBuf, file, w, d.Setup())
    ensures d.readUsbSize > 0 && (kept && !d.temp.lost ==> file == payload)
    ensures kept ==>
      && last == LastPacket(Header(code, tid, |payload|) + payload, d.readUsbSize)
      && d.temp.received == payload && d.temp.headerBuf == Header(code, tid, |payload|)
  {
    hide Header, PacketAt, Device.Valid, WorldOk, IsCommand, Decode, Handled, Last, LastPacket, Moving, Complete;
    var rx := d.readUsbSize;
    RoomForHeader(d);
    var stream := Header(code, tid, |payload|) + payload;
    var p := PacketAt(stream, 0, rx);
    MovingFirst(code, tid, payload, rx);
    var ran;
    kept, ran, file := d.DataPacket(p, w);
    last := p;
    if !kept {
      return;
    }
    var pos := |p|;
    while !ran
      invariant d.Valid() && kept && last == p && old(d.steps) <= d.steps && pos <= |stream|
      invariant |d.steps| == |old(d.steps)| + (if ran then 1 else 0)
      invariant d.temp.faults >= old(d.temp.faults) && (d.temp.faults == old(d.temp.faults) ==> !d.temp.lost)
      invariant Moving(stream, pos, p, rx, d.temp.received) && (ran <==> Last(|stream|, pos, |p|, rx))
      invariant d.temp.headerBuf == Header(code, tid, |payload|)
      invariant !ran ==> d.Now() == old(d.Now()) && d.temp.dataCount > 0 && d.savedCmd == old(d.savedCmd)
      invariant !ran ==> d.sessionId == old(d.sessionId)
      invariant ran ==>
        var c := if IsCommand(last) then Decode(last) else Decode(old(d.savedCmd));
        && d.steps[|old(d.steps)|].cmd == c && (!d.temp.lost ==> file == d.temp.received)
        && Handled(old(d.Now()), d.Now(), old(d.sessionId), d.sessionId, c, d.temp.headerBuf, file, w, d.Setup())
      decreases |stream| - pos, if ran then 0 else 1
    {
      MovingNext(code, tid, payload, pos, p, rx, d.temp.received);
      p := PacketAt(stream, pos, rx);
      pos := pos + |p|;
      kept, ran, file := d.DataPacket(p, w);
      last := p;
    }
    MovingLast(code, tid, payload, pos, p, rx, d.temp.received);
  }

  lemma SessionStays(session: nat, c: Command)
    ensures IsDataOut(c.code) ==> SessionAfter(session, c) == session
  {
  }

  lemma RoomForHeader(d: Device)
    requires d.Valid()
    ensures d.readUsbSize >= HEADER && (d.phase.DataOut? ==> d.sessionId != 0)
  {
  }

  // One more command keeps the account of answers in order.
  lemma StepTaken(steps: seq<Step>, responses: seq<Response>, s: Step, responses': seq<Response>)
    requires Orderly(steps, responses) && Safe(s)
    requires responses' == responses + if s.answer.Some? then [s.answer.value] else []
    ensures Orderly(steps + [s], responses')
  {
    hide Safe;
    assert (steps + [s])[..|steps|] == steps;
  }

  // The answer in the log is the one that was given.
  lemma Answered(a: State, b: State, c: Command, s: Step)
    requires OneAnswer(a, b, c) || b.responses == a.responses
    requires s.answer == if b.responses == a.responses then None else Some(b.responses[|b.responses| - 1])
    requires b.phase.DataOut? ==> b.responses == a.responses
    ensures b.responses == a.responses + if s.answer.Some? then [s.answer.value] else []
    ensures s.answer.Some? ==> s.answer.value.tid == c.tid
    ensures s.answer == Some(Response(OK, c.tid, [])) <==> Replied(a, b, c, OK, [])
  {
    if b.responses != a.responses {
      assert b.responses == b.responses[..|a.responses|] + [b.responses[|a.responses|]];
    }
  }

  function ErrorCode(e: Rename.Err): (code: nat)
    ensures code == OK <==> e.NoError?
  {
    match e
    case NoError => OK
    case General => GEN_ERROR
    case AccessDenied => ACCESS_DENIED
    case InvalidObjectHandle => INVALID_OBJ_HANDLE
    case InvalidPropFormat => INVALID_PROP_VALUE
  }

  lemma LastReported(reported: seq<Obj>, landed: seq<Obj>, p: Obj, next: nat, entered: set<nat>)
    requires Ledger(reported, landed, Some(p), next, entered)
    ensures reported != [] && reported[|reported| - 1] == p
  {
  }

  lemma InvAbove(objs: seq<Obj>, next: nat, entered: set<nat>)
    requires Inv(objs, next, entered)
    ensures next > ROOT && next !in entered
  {
  }

  lemma FilledBooks(next: nat, entered: set<nat>, entered': set<nat>, next': nat)
    requires EnteredUpTo(entered', entered, next, next')
    ensures next <= next' && entered <= entered' && forall h :: h in entered' && h !in entered ==> h >= next
  {
  }
}
