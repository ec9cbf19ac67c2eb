/**
 What the commands do, as relations between the state of the device before and after them. The
 command machine in Responder is proved against these.
 */
module Outcomes {
  import opened Codes
  import opened Bytes
  import opened ObjectTable
  import opened ObjectStore
  import opened Leftovers
  import opened Enumeration
  import opened Reassembly
  import opened Transmit
  import opened Containers
  import opened Paths
  import opened Agreement
  import opened PendingObject
  import opened Options
  import opened ObjectEntry
  import opened PtpString
  import Rename
  import ObjectInfo
  import PropDesc
  import PtpArray
  import Walk

  datatype Phase = NotReady | Idle | DataIn | DataOut

  datatype Response = Response(code: nat, tid: nat, params: seq<nat>)

  // What the disk reports of its space
  datatype Space = Space(free: nat, capacity: nat)

  datatype Setting = Settable | ReadOnlyProperty | UnknownProperty

  // What a command may find outside of the responder: the entries of the disk, if its
  // top folder opens, the content of the
  // file it reads with its times, the space on the disk, if it can be told, the property table's
  // entry for the property it asks for, if there is one, and what the table answers to setting it
  datatype World = World(opens: bool, entries: seq<Entry>, file: seq<Byte>, created: seq<Wchar>, modified: seq<Wchar>,
                         space: Option<Space>, desc: Option<PropDesc.Desc>, setting: Setting)

  ghost predicate WorldOk(w: World, root: string) {
    && WellNamed(root, w.entries) && |w.created| <= MAX_CHARS && |w.modified| <= MAX_CHARS
    && (w.desc.Some? ==> PropDesc.Ok(w.desc.value))
  }

  // What never changes about a device: the top folder, the conversions from and to UTF-16, and the
  // size of an outgoing packet
  datatype Config = Config(root: string, utf8: Conversion, utf16: string -> seq<Wchar>, chunk: nat)

  // What the commands are about: phase, answers, the queue to the host, the waiting object with the
  // accounts, the files that SendObject put on the disk, and the store
  datatype State = State(phase: Phase, responses: seq<Response>, packets: seq<seq<Byte>>, sendFaults: nat,
                         pending: Option<Obj>, reported: seq<Obj>, landed: seq<Obj>, written: map<string, seq<Byte>>,
                         objs: seq<Obj>, next: nat, entered: set<nat>, history: seq<nat>,
                         readOnly: bool, free: nat, capacity: nat, faults: nat, broken: set<nat>, cut: bool)

  // Property codes that SetObjectPropValue tells apart
  const PROP_FILE_NAME: nat := 0xDC07

  // A parameter from the k-th on is used that the command does not take.
  predicate Extra(c: Command, k: nat) {
    (k == 0 && Param(c, 0) != 0) || (k <= 1 && Param(c, 1) != 0) || Param(c, 2) != 0
  }

  /** A parameter is one too many exactly when it is among the first three, from the k-th on, and not 0. */
  lemma ExtraIs(c: Command, k: nat)
    requires k <= 2
    ensures Extra(c, k) <==> exists i :: k <= i < 3 && i < |c.params| && c.params[i] != 0
  {
    if Extra(c, k) {
      var i := if k == 0 && Param(c, 0) != 0 then 0 else if k <= 1 && Param(c, 1) != 0 then 1 else 2;
      assert k <= i < 3 && i < |c.params| && c.params[i] != 0;
    }
  }

  predicate IsDataOut(code: nat) {
    code in {SEND_OBJECT_INFO, SEND_OBJECT, SET_OBJECT_PROP_VALUE, ANDROID_SEND_PARTIAL}
  }

  // ---- Sessions and answers ----

  // The session after a command
  function SessionAfter(session: nat, c: Command): nat {
    if session == 0 then
      if c.code == OPEN_SESSION && !Extra(c, 1) && c.tid == 0 then Param(c, 0) else 0
    else
      if c.code in {CLOSE_SESSION, POWER_DOWN} && !Extra(c, 0) then 0 else session
  }

  // A session is opened by an OpenSession without a transaction id that is answered OK, and gets the
  // id it asks for; it is closed by a CloseSession or a PowerDown that is answered OK; nothing else
  // changes it. `ok` says that the command was answered OK.
  ghost predicate SessionLaw(session: nat, session': nat, c: Command, ok: bool) {
    && (session == 0 && session' != 0 ==> c.code == OPEN_SESSION && c.tid == 0 && session' == Param(c, 0) && ok)
    && (session != 0 && session' != session ==> session' == 0 && c.code in {CLOSE_SESSION, POWER_DOWN} && ok)
    && (ok && c.code == OPEN_SESSION ==> session == 0 && session' == Param(c, 0) && session' != 0)
    && (ok && c.code in {CLOSE_SESSION, POWER_DOWN} ==> session != 0 && session' == 0)
  }

  // Exactly this answer was given, and the device is idle.
  ghost predicate Replied(a: State, b: State, c: Command, code: nat, params: seq<nat>) {
    b.phase.Idle? && b.responses == a.responses + [Response(code, c.tid, params)]
  }

  // No answer was given, since the data could not be sent.
  ghost predicate Broken(a: State, b: State) {
    b.phase.NotReady? && b.responses == a.responses && b.sendFaults > a.sendFaults
  }

  // Exactly a data container with this payload was queued, in packets of at least one byte.
  ghost predicate SentOut(was: seq<seq<Byte>>, now: seq<seq<Byte>>, c: Command, payload: seq<Byte>, chunk: nat) {
    && |was| <= |now| && now[..|was|] == was
    && var ps := now[|was|..];
    && Sized(ps, chunk) && Concat(ps) == Header(c.code, c.tid, |payload|) + payload
  }

  // A data-in phase: the container goes out whole and the answer is OK, unless a send fails.
  ghost predicate DataSent(a: State, b: State, c: Command, payload: seq<Byte>, params: seq<nat>, chunk: nat) {
    if b.sendFaults == a.sendFaults
      then Replied(a, b, c, OK, params) && SentOut(a.packets, b.packets, c, payload, chunk)
    else Broken(a, b)
  }

  // The answer to a command that never sends data.
  ghost predicate PlainReply(a: State, b: State, session: nat, c: Command) {
    && (c.code == OPEN_SESSION ==>
          if Extra(c, 1) then Replied(a, b, c, PARAM_NOT_SUPPORTED, [])
          else if Param(c, 0) == 0 || c.tid != 0 then Replied(a, b, c, INVALID_PARAM, [])
          else if session != 0 then Replied(a, b, c, SESSION_ALREADY_OPENED, [session])
          else Replied(a, b, c, OK, []))
    && (c.code !in {OPEN_SESSION, GET_DEVICE_INFO} && session == 0 ==> Replied(a, b, c, SESSION_NOT_OPEN, []))
    && (c.code in {CLOSE_SESSION, POWER_DOWN, RESET_DEVICE} && session != 0 ==>
          Replied(a, b, c, if Extra(c, 0) then PARAM_NOT_SUPPORTED else OK, []))
    && (c.code == POWER_DOWN && session != 0 && !Extra(c, 0) ==> b.pending == None)
    && (c.code == VENDOR_OP1 && session != 0 ==> Replied(a, b, c, GEN_ERROR, []))
    && (c.code in {ANDROID_BEGIN_EDIT, ANDROID_END_EDIT} && session != 0 ==> Replied(a, b, c, OK, []))
    && (!Known(c.code) && session != 0 ==> Replied(a, b, c, OP_NOT_SUPPORTED, []))
  }

  predicate Known(code: nat) {
    || IsDataOut(code)
    || code in {GET_DEVICE_INFO, OPEN_SESSION, CLOSE_SESSION, GET_STORAGE_IDS, GET_STORAGE_INFO, GET_OBJECT_HANDLES,
                GET_OBJECT_INFO, GET_OBJECT, DELETE_OBJECT, RESET_DEVICE, POWER_DOWN, GET_PARTIAL_OBJECT}
    || code in {VENDOR_OP1, ANDROID_GET_PARTIAL, ANDROID_BEGIN_EDIT, ANDROID_END_EDIT, GET_OBJECT_PROP_DESC,
                GET_INTERDEP_PROP_DESC}
  }

  // ---- Commands that read ----

  // A command whose dataset is not modelled, once it is not refused
  ghost predicate SomeDataset(a: State, b: State, c: Command) {
    Replied(a, b, c, GEN_ERROR, []) || Replied(a, b, c, OK, []) || Broken(a, b)
  }

  ghost predicate DeviceInfoServed(a: State, b: State, c: Command, session: nat) {
    if Extra(c, 0) || (session == 0 && c.tid != 0) then Replied(a, b, c, PARAM_NOT_SUPPORTED, [])
      else SomeDataset(a, b, c)
  }

  ghost predicate StorageIdsServed(a: State, b: State, c: Command, chunk: nat) {
    if Extra(c, 0) then Replied(a, b, c, PARAM_NOT_SUPPORTED, [])
    else if b.sendFaults == a.sendFaults then
      Replied(a, b, c, OK, []) && SentOut(a.packets, b.packets, c, PtpArray.Packed([STORE_ID]), chunk)
    else Replied(a, b, c, GEN_ERROR, [])
  }

  ghost predicate StorageInfoServed(a: State, b: State, c: Command, w: World) {
    if Extra(c, 1) then Replied(a, b, c, PARAM_NOT_SUPPORTED, [])
    else if Param(c, 0) != STORE_ID then Replied(a, b, c, INVALID_STORE_ID, [])
    else
      && SomeDataset(a, b, c)
      && Space(b.free, b.capacity) == if w.space.Some? then w.space.value else Space(a.free, a.capacity)
  }

  ghost predicate InterdepServed(a: State, b: State, c: Command) {
    if Extra(c, 1) then Replied(a, b, c, PARAM_NOT_SUPPORTED, [])
    else if Param(c, 0) in {0, ALL} then Replied(a, b, c, INVALID_CODE_FORMAT, [])
    else SomeDataset(a, b, c)
  }

  // The handles that GetObjectHandles reports
  function HandlesFor(c: Command, objs: seq<Obj>): seq<nat> {
    var parent := Param(c, 2);
    if parent == ROOT then Walk.ByFormat(objs, Param(c, 1))
    else Walk.ScanFormat(objs, if parent == ALL then ROOT else parent, Param(c, 1))
  }

  // An object that GetObjectHandles asks for: parent 0 means the whole list, where format 0xFFFFFFFF
  // means all but folders, and parent 0xFFFFFFFF the top folder; format 0 means any.
  ghost predicate AskedFor(c: Command, o: Obj) {
    var format, parent := Param(c, 1), Param(c, 2);
    if parent == 0 then format == 0 || format == o.fmt || (format == 0xFFFF_FFFF && o.fmt != FMT_ASSOCIATION)
    else (format == 0 || format == o.fmt) && o.parent == if parent == 0xFFFF_FFFF then 0 else parent
  }

  /** GetObjectHandles reports exactly the objects it is asked for, each once, in the order of the list. */
  lemma HandlesShown(c: Command, objs: seq<Obj>) returns (at: seq<nat>)
    requires Distinct(objs)
    ensures forall x :: x in HandlesFor(c, objs) <==> exists o :: o in objs && o.handle == x && AskedFor(c, o)
    ensures NoDup(HandlesFor(c, objs)) && Walk.Picks(objs, at, HandlesFor(c, objs))
  {
    hide Walk.ByFormat, Walk.ScanFormat, NoDup, Distinct;
    var format, parent := Param(c, 1), Param(c, 2);
    if parent == ROOT {
      Walk.ByFormatMembers(objs, format);
      at := Walk.ByFormatOrder(objs, format);
      forall o: Obj ensures Walk.Wanted(o.fmt, format) <==> AskedFor(c, o) { }
    } else {
      var p := if parent == ALL then ROOT else parent;
      Walk.ScanFormatMembers(objs, p, format);
      at := Walk.ScanFormatOrder(objs, p, format);
      forall x
        ensures Walk.HasChild(objs, p, format, x) <==> exists o :: o in objs && o.handle == x && AskedFor(c, o)
      {
      }
    }
  }

  // All stores may be asked for the whole list or the top folder only.
  predicate StoreAsked(c: Command) {
    Param(c, 0) == STORE_ID || (Param(c, 0) == ALL && Param(c, 2) in {ROOT, ALL})
  }

  ghost predicate HandlesServed(a: State, b: State, c: Command, w: World, k: Config) {
    && (if Param(c, 0) == STORE_ID || (Param(c, 0) == ALL && Param(c, 2) in {ROOT, ALL})
        then DataSent(a, b, c, PtpArray.Packed(HandlesFor(c, b.objs)), [], k.chunk)
        else Replied(a, b, c, INVALID_STORE_ID, []))
    && (if a.objs == [] && Param(c, 2) in {ROOT, ALL} then
          !b.cut ==> Bare(b.objs) == Flat(k.root, ROOT, a.next, if w.opens then w.entries else [])
        else
          b.objs == a.objs)
  }

  // The name under which an object is reported
  ghost predicate NamedAs(path: string, name: seq<Wchar>, utf16: string -> seq<Wchar>) {
    exists base :: name == Carried(Chars(utf16(base))) && '/' !in base
      && (if '/' in path then exists dir :: Splits(path, dir, base) else base == path)
  }

  // The dataset of an object; thumbnail size and association type are not part of the model's object.
  ghost predicate InfoDataset(o: Obj, w: World, utf16: string -> seq<Wchar>, data: seq<Byte>) {
    exists name, thumb: nat, assoc: nat ::
      && |name| <= MAX_CHARS && |w.created| <= MAX_CHARS && |w.modified| <= MAX_CHARS && NamedAs(o.path, name, utf16)
      && data == ObjectInfo.Dataset(ObjectInfo.Info(STORE_ID, o.fmt, o.prot, o.size, thumb, o.parent, assoc), name,
                                    w.created, w.modified)
  }

  // When the times of the file cannot be read, an empty dataset goes out, or the answer is GEN_ERROR.
  ghost predicate ObjectInfoServed(a: State, b: State, c: Command, w: World, k: Config) {
    if Extra(c, 1) then Replied(a, b, c, PARAM_NOT_SUPPORTED, [])
    else if !Listed(a.objs, Param(c, 0)) then Replied(a, b, c, INVALID_OBJ_HANDLE, [])
    else if b.faults == a.faults then
      exists data :: InfoDataset(Find(a.objs, Param(c, 0)), w, k.utf16, data) && DataSent(a, b, c, data, [], k.chunk)
    else Replied(a, b, c, GEN_ERROR, []) || DataSent(a, b, c, [], [], k.chunk)
  }

  ghost predicate PropDescServed(a: State, b: State, c: Command, w: World, chunk: nat) {
    if Param(c, 2) != 0 then Replied(a, b, c, PARAM_NOT_SUPPORTED, [])
    else if w.desc.None? then Replied(a, b, c, PROP_NOT_SUPPORTED, [])
    else exists data ::
      && |data| == PropDesc.Size(w.desc.value) && DataSent(a, b, c, data, [], chunk)
      && (PropDesc.Ok(w.desc.value) && PropDesc.Exact(w.desc.value) ==> data == PropDesc.Dataset(w.desc.value))
  }

  // How many bytes GetPartialObject reads. The difference is unsigned: an offset beyond the end
  // leaves the request as it is.
  function PartLength(c: Command, size: nat): (n: nat)
    ensures n <= Param(c, 2) && (Param(c, 1) <= size ==> Param(c, 1) + n <= size)
    ensures n == Param(c, 2) || Param(c, 1) + n == size
  {
    if Param(c, 1) <= size && Param(c, 2) > size - Param(c, 1) then size - Param(c, 1) else Param(c, 2)
  }

  ghost predicate PartialServed(a: State, b: State, c: Command, w: World, chunk: nat) {
    if !Listed(a.objs, Param(c, 0)) then Replied(a, b, c, INVALID_OBJ_HANDLE, [])
    else
      var n, offset := PartLength(c, Find(a.objs, Param(c, 0)).size), Param(c, 1);
      if b.faults == a.faults && (n == 0 || offset + n <= |w.file|)
      then DataSent(a, b, c, if n == 0 then [] else w.file[offset..offset + n], [n], chunk)
      else Replied(a, b, c, GEN_ERROR, [])
  }

  // GetObject answers after its data phase, whatever became of it. What is queued is a prefix of header
  // and file, for a file of the recorded size.
  ghost predicate ObjectServed(a: State, b: State, c: Command, w: World, chunk: nat) {
    if Extra(c, 1) then Replied(a, b, c, PARAM_NOT_SUPPORTED, [])
    else if !Listed(a.objs, Param(c, 0)) then Replied(a, b, c, INVALID_OBJ_HANDLE, [])
    else if b.faults > a.faults then Replied(a, b, c, ACCESS_DENIED, []) || Replied(a, b, c, GEN_ERROR, [])
    else if w.file == [] then Replied(a, b, c, INCOMPLETE_TRANSFER, [])
    else if Find(a.objs, Param(c, 0)).size == |w.file| then
      if b.sendFaults == a.sendFaults then Replied(a, b, c, OK, []) && SentOut(a.packets, b.packets, c, w.file, chunk)
      else Replied(a, b, c, INCOMPLETE_TRANSFER, [])
    else Replied(a, b, c, OK, []) || Replied(a, b, c, INCOMPLETE_TRANSFER, [])
  }

  // ---- DeleteObject ----

  // The removal is one that DeleteObject stands for: within the subtree of its target, or, for all
  // handles, of objects that its format admits.
  ghost predicate DeletedBy(c: Command, before: seq<Obj>, gone: seq<nat>) {
    && Removal(before, gone)
    && if Param(c, 0) == ALL then AllMatch(before, gone, Param(c, 1))
       else forall x :: x in gone ==> x == Param(c, 0) || Under(before, Param(c, 0), x)
  }

  // What stands in the way of DeleteObject before anything is looked at, or 0
  ghost function Refusal(a: State, c: Command): nat {
    if Param(c, 2) != 0 then PARAM_NOT_SUPPORTED
    else if Param(c, 1) != FORMAT_NOTUSED && Param(c, 0) != ALL then INVALID_OBJ_FMTCODE
    else if Param(c, 0) != ALL && !Listed(a.objs, Param(c, 0)) then INVALID_OBJ_HANDLE
    else 0
  }

  // None but folders have gone.
  ghost predicate FoldersGone(before: seq<Obj>, after: seq<Obj>) {
    forall o :: o in before && !Listed(after, o.handle) ==> o.fmt == FMT_ASSOCIATION
  }

  // Every object that is left where the deletion was to go is left for a reason: it or something
  // below it is kept by format or protection, or could not be removed from the disk.
  ghost predicate LeftForReason(before: seq<Obj>, after: seq<Obj>, h: nat, format: nat, broken: set<nat>) {
    forall o :: o in after && (h == ALL || InBranch(before, h, o.handle)) ==> Held(before, o.handle, format, broken)
  }

  // The answer to a deletion of the listed handle h. OK is also the answer when h itself could not be
  // removed from the disk for another reason than a missing permission.
  ghost predicate DeleteOneAnswer(before: seq<Obj>, after: seq<Obj>, broken: set<nat>, h: nat, code: nat) {
    && (code == OK ==> !Listed(after, h) || h in broken)
    && (code == PARTIAL_DELETION ==> Listed(after, h))
    && (code == OBJ_WRITEPROTECTED ==> after == before)
    && (code == ACCESS_DENIED ==> after == before && h in broken)
    && (Listed(after, h) && h !in broken && after != before ==> code == PARTIAL_DELETION)
  }

  // The answer to a deletion of all objects of a format. It does not tell whether empty folders went.
  ghost predicate DeleteAllAnswer(before: seq<Obj>, after: seq<Obj>, failed: bool, format: nat, code: nat) {
    && (code in {OBJ_WRITEPROTECTED, ACCESS_DENIED} ==> FoldersGone(before, after))
    && (code == OK && !failed ==> NoneAdmitted(after, format) || FoldersGone(before, after))
  }

  // The answer to a deletion of a listed handle or of all, what is left, and that everything goes when
  // nothing stands in its way
  ghost predicate DeleteAnswer(before: seq<Obj>, after: seq<Obj>, faults: nat, faults': nat, broken: set<nat>,
                               cut: bool, readOnly: bool, h: nat, format: nat, code: nat)
  {
    if readOnly then code == STORE_READONLY && after == before
    else
      && code in {OK, PARTIAL_DELETION, OBJ_WRITEPROTECTED, ACCESS_DENIED}
      && (Unhindered(before, format, faults, faults', cut) ==>
            code == OK && if h == ALL then after == [] else !Listed(after, h))
      && (faults' == faults ==> broken == {})
      && (!cut ==> LeftForReason(before, after, h, format, broken))
      && (if h == ALL then !cut ==> DeleteAllAnswer(before, after, faults' > faults, format, code)
          else DeleteOneAnswer(before, after, broken, h, code))
  }

  // The outcome of DeleteObject
  ghost predicate DeleteServed(a: State, b: State, c: Command) {
    && |b.responses| == |a.responses| + 1
    && var code := b.responses[|a.responses|].code;
    && Replied(a, b, c, code, [])
    && (if Refusal(a, c) != 0 then code == Refusal(a, c) && b.objs == a.objs
        else DeleteAnswer(a.objs, b.objs, a.faults, b.faults, b.broken, b.cut, a.readOnly, Param(c, 0), Param(c, 1),
                          code))
  }

  // ---- All commands without a data-out phase ----

  /** The outcome of a command that the host sends no data with. */
  ghost predicate Served(a: State, b: State, session: nat, c: Command, w: World, k: Config) {
    && b.sendFaults >= a.sendFaults && b.faults >= a.faults
    && PlainReply(a, b, session, c)
    && (c.code == GET_DEVICE_INFO ==> DeviceInfoServed(a, b, c, session))
    && (session != 0 ==>
          && (c.code == GET_STORAGE_IDS ==> StorageIdsServed(a, b, c, k.chunk))
          && (c.code == GET_STORAGE_INFO ==> StorageInfoServed(a, b, c, w))
          && (c.code == GET_INTERDEP_PROP_DESC ==> InterdepServed(a, b, c))
          && (c.code == GET_OBJECT_HANDLES ==> HandlesServed(a, b, c, w, k))
          && (c.code == GET_OBJECT_INFO ==> ObjectInfoServed(a, b, c, w, k))
          && (c.code == GET_OBJECT_PROP_DESC ==> PropDescServed(a, b, c, w, k.chunk))
          && (c.code in {GET_PARTIAL_OBJECT, ANDROID_GET_PARTIAL} ==> PartialServed(a, b, c, w, k.chunk))
          && (c.code == GET_OBJECT ==> ObjectServed(a, b, c, w, k.chunk))
          && (c.code == DELETE_OBJECT ==> DeleteServed(a, b, c)))
  }

  // ---- SendObjectInfo, SendObject and SetObjectPropValue ----

  // Nothing about the objects has changed.
  ghost predicate QuietStep(a: State, b: State) {
    && b.objs == a.objs && b.next == a.next && b.entered == a.entered && b.history == a.history
    && b.pending == a.pending && b.reported == a.reported && b.landed == a.landed && b.written == a.written
  }

  // What a handler reads of its data: no more than its buffer holds
  function Taken(disk: seq<Byte>, max: nat): seq<Byte> {
    if |disk| <= max + 4 then disk else disk[..max + 4]
  }

  // The header belongs to the command and to the data.
  predicate Framing(header: seq<Byte>, c: Command, data: seq<Byte>) {
    |header| == HEADER && Expected(header, c.code, c.tid) && LenOf(header) == HEADER + |data|
  }

  // What decides about a dataset. The space on the disk is looked at when an object was waiting, and
  // else the recorded space counts.
  ghost function RoomFor(a: State, w: World): Room {
    var space := if a.pending.Some? && w.space.Some? then w.space.value else Space(a.free, a.capacity);
    Room(a.objs, a.next, a.readOnly, space.free, space.capacity)
  }

  // The command names this store, or none.
  ghost predicate NamesStore(c: Command) {
    Param(c, 0) == 0 || Param(c, 0) == STORE_ID
  }

  // The dataset is one that the command may take.
  ghost predicate Takes(a: State, c: Command, dataset: seq<Byte>, w: World, k: Config) {
    Acceptable(RoomFor(a, w), k.root, NamesStore(c), Param(c, 1), dataset, k.utf8)
  }

  // A new object of the given dataset has been reported, and is listed if it is a folder.
  ghost predicate Reserved(a: State, b: State, c: Command, o: Obj, dataset: seq<Byte>, k: Config) {
    && b.reported == a.reported + [o] && o.handle == a.next && b.next == a.next + 1
    && Described(o, dataset, Param(c, 1), a.objs, k.root, k.utf8) && LiesIn(o, Param(c, 1), a.objs, k.root)
    && Replied(a, b, c, OK, [STORE_ID, if Param(c, 1) != ROOT then Param(c, 1) else ALL, o.handle])
    && if o.fmt == FMT_ASSOCIATION then Gained(a, b, o) && b.pending == None
       else b.objs == a.objs && b.history == a.history && b.landed == a.landed && b.pending == Some(o)
  }

  // The recorded space is less by the size of the object, unless it is a folder.
  ghost predicate SpaceTaken(free: nat, free': nat, o: Obj) {
    free' + (if o.fmt == FMT_ASSOCIATION then 0 else o.size) == free
  }

  // The answer to a SendObjectInfo that reports no object; `failed` says that the disk failed.
  ghost function InfoRefusal(a: State, failed: bool, c: Command, dataset: seq<Byte>, w: World, k: Config): nat {
    if Param(c, 2) != 0 then PARAM_NOT_SUPPORTED
    else if failed then GEN_ERROR
    else Verdict(RoomFor(a, w), k.root, NamesStore(c), Param(c, 1), dataset, k.utf8)
  }

  // One more object is listed, after all others.
  ghost predicate Gained(a: State, b: State, o: Obj) {
    && b.landed == a.landed + [o] && b.history == a.history + [o.handle]
    && b.objs == AddRef(a.objs, o.parent, o.handle) + [o]
  }

  /**
   The outcome of SendObjectInfo on the bytes `file` under `header`. Nothing is reported and
   nothing listed; or the object that the dataset describes is. The latter happens exactly for the
   header that belongs to the data and a dataset that can be taken, unless the disk fails. Only a
   wrong header or unreadable data leave the device not ready, without an answer.
   */
  ghost predicate Informed(a: State, b: State, header: seq<Byte>, c: Command, file: seq<Byte>, w: World, k: Config) {
    && var data := Taken(file, MAX_OBJECT_INFO);
    && var wanted := Param(c, 2) == 0 && Framing(header, c, data) && Takes(a, c, data, w, k);
    && b.faults >= a.faults
    && (if b.reported == a.reported then
          && b.objs == a.objs && b.history == a.history && b.landed == a.landed
          && (b.pending == a.pending || b.pending == None)
          && (b.phase.NotReady? || Replied(a, b, c, InfoRefusal(a, b.faults > a.faults, c, data, w, k), []))
        else
          && b.reported != [] && Reserved(a, b, c, b.reported[|b.reported| - 1], data, k)
          && SpaceTaken(RoomFor(a, w).free, b.free, b.reported[|b.reported| - 1]))
    && (b.reported != a.reported ==> wanted)
    && (wanted && b.faults == a.faults ==> b.reported != a.reported)
    && (b.phase.NotReady? ==> Param(c, 2) == 0 && (b.faults > a.faults || !Framing(header, c, data)))
    && (Param(c, 2) == 0 && !Framing(header, c, data) ==> b.phase.NotReady?)
  }

  /**
   The outcome of SendObject on the bytes `file` under `header`. It answers OK exactly when it has
   listed the waiting object, from an accepted file that now lies at its path, and does so unless
   the disk fails; otherwise nothing is listed. A file that is not accepted changes nothing at all
   and is answered GEN_ERROR.
   */
  ghost predicate Delivered(a: State, b: State, header: seq<Byte>, c: Command, file: seq<Byte>) {
    && |header| == HEADER && b.responses != []
    && var accepted := Expected(header, c.code, c.tid) && FileAccepted(header, file);
    && var code := b.responses[|b.responses| - 1].code;
    && b.faults >= a.faults && b.phase.Idle?
    && (code == INVALID_PARAM <==> Extra(c, 0))
    && (if code == OK then
          && accepted && a.pending.Some? && b.pending == None
          && a.reported != [] && a.pending.value == a.reported[|a.reported| - 1] && Gained(a, b, a.pending.value)
          && b.written == a.written[a.pending.value.path := file]
        else
          b.objs == a.objs && b.history == a.history && b.landed == a.landed && b.written == a.written)
    && (!accepted ==> QuietStep(a, b) && code in {GEN_ERROR, INVALID_PARAM})
    && (!Extra(c, 0) && accepted && (b.faults == a.faults || code == STORE_FULL) ==> b.pending == None)
    && code in {OK, GEN_ERROR, STORE_FULL, INVALID_PARAM}
    && (code == STORE_FULL ==> accepted && a.pending.Some? && b.faults > a.faults)
    && (!Extra(c, 0) && b.faults == a.faults ==> (code == OK <==> accepted && a.pending.Some?))
  }

  // Only paths differ, and only in the branch of the object that SetObjectPropValue names.
  ghost predicate RenamedBy(c: Command, before: seq<Obj>, after: seq<Obj>) {
    && Rename.SamePlaces(after, before)
    && forall i :: 0 <= i < |after| && after[i].path != before[i].path ==>
         InBranch(before, Param(c, 0), after[i].handle)
  }

  // What setting the file name to the string in `data` did; `failed` says that the disk failed.
  ghost predicate RenamedTo(before: seq<Obj>, after: seq<Obj>, next: nat, failed: bool, h: nat, data: seq<Byte>,
                            k: Config, code: nat)
  {
    && Listed(before, h)
    && (failed ==> code in {GEN_ERROR, ACCESS_DENIED})
    && (3 <= |data| <= 131072 ==>
          var o, name := Find(before, h), Utf8(k.utf8, RawString(data));
          && (code == OK ==> Rename.RenamedAs(after, before, o, k.root, name))
          && (!failed ==>
                Rename.Answers(before, o, k.root, name, next, code == OK, code == ACCESS_DENIED,
                               code == INVALID_PROP_VALUE, code == GEN_ERROR)))
  }

  // What _hutil_update_object_property did and answered; `failed` says that the disk failed.
  ghost predicate Updated(before: seq<Obj>, after: seq<Obj>, next: nat, failed: bool, c: Command, data: seq<Byte>,
                          w: World, k: Config, code: nat)
  {
    && RenamedBy(c, before, after)
    && (code != OK || Param(c, 1) != PROP_FILE_NAME ==> after == before)
    && (code == INVALID_OBJ_HANDLE <==> !Listed(before, Param(c, 0)))
    && (Listed(before, Param(c, 0)) ==>
          && (failed ==> code in {GEN_ERROR, ACCESS_DENIED})
          && (!failed && w.setting.UnknownProperty? ==> code == PROP_NOT_SUPPORTED)
          && (!failed && w.setting.ReadOnlyProperty? ==> code == ACCESS_DENIED)
          && (!failed && w.setting.Settable? && Param(c, 1) != PROP_FILE_NAME ==> code == OK)
          && (w.setting.Settable? && Param(c, 1) == PROP_FILE_NAME ==>
                RenamedTo(before, after, next, failed, Param(c, 0), data, k, code)))
  }

  /**
   The outcome of SetObjectPropValue on the bytes `file` under `header`. Only paths change, only in
   the branch of the object, and only when its file name is set with answer OK; then it has its new
   path. Each refusal has its own condition.
   */
  ghost predicate Renamed(a: State, b: State, header: seq<Byte>, c: Command, file: seq<Byte>, w: World, k: Config) {
    && b.responses != [] && b.faults >= a.faults && b.phase.Idle?
    && var code, data := b.responses[|b.responses| - 1].code, Taken(file, MAX_PROP_DATA);
    && RenamedBy(c, a.objs, b.objs)
    && (code != OK || Param(c, 1) != PROP_FILE_NAME ==> b.objs == a.objs)
    && (if Param(c, 2) != 0 then code == PARAM_NOT_SUPPORTED
        else if !Framing(header, c, data) then code == INVALID_PROP_VALUE
        else
          || (b.faults > a.faults && code == INVALID_PROP_VALUE)
          || Updated(a.objs, b.objs, a.next, b.faults > a.faults, c, data, w, k, code))
  }

  // The store after an object was made: listed if it is a folder, else ready to wait
  ghost predicate Entered(a: State, b: State, o: Obj) {
    && o.handle == a.next && b.next == a.next + 1
    && if o.fmt == FMT_ASSOCIATION then
         && b.objs == AddRef(a.objs, o.parent, o.handle) + [o] && b.history == a.history + [o.handle]
         && b.entered == a.entered + {o.handle}
       else
         && b.objs == a.objs && b.history == a.history && b.entered == a.entered
         && Waiting(o, b.objs, b.next, b.entered)
  }

  /** What the data-out commands make of the data they received. */
  ghost predicate Judged(a: State, b: State, header: seq<Byte>, c: Command, file: seq<Byte>, w: World, k: Config) {
    && (c.code == SEND_OBJECT_INFO ==> Informed(a, b, header, c, file, w, k))
    && (c.code == SEND_OBJECT ==> Delivered(a, b, header, c, file))
    && (c.code == SET_OBJECT_PROP_VALUE ==> Renamed(a, b, header, c, file, w, k))
    && (c.code == ANDROID_SEND_PARTIAL ==> Replied(a, b, c, OK, []))
  }

  // ---- What a command may do to the objects ----

  ghost predicate Effect(a: State, b: State, c: Command) {
    && (b.reported != a.reported ==> c.code == SEND_OBJECT_INFO)
    && (b.landed != a.landed ==> c.code in {SEND_OBJECT_INFO, SEND_OBJECT})
    && (b.pending != a.pending ==> c.code in {SEND_OBJECT_INFO, SEND_OBJECT, POWER_DOWN})
    && (b.written != a.written ==> c.code == SEND_OBJECT)
    && (b.history != a.history ==> c.code in {SEND_OBJECT_INFO, SEND_OBJECT, GET_OBJECT_HANDLES})
    && (b.objs != a.objs ==>
          || (c.code == DELETE_OBJECT
              && exists gone :: DeletedBy(c, a.objs, gone) && b.objs == Prune(a.objs, Elems(gone)))
          || (c.code == SET_OBJECT_PROP_VALUE && Param(c, 1) == PROP_FILE_NAME && RenamedBy(c, a.objs, b.objs))
          || (c.code == GET_OBJECT_HANDLES && Param(c, 2) in {ROOT, ALL} && a.objs == [] && PathsOk(b.objs))
          || (c.code in {SEND_OBJECT_INFO, SEND_OBJECT} && b.reported != []
              && Gained(a, b, b.reported[|b.reported| - 1])))
  }

  /**
   When a command stays unanswered: a send failed, or a SendObjectInfo got data that could not be
   read back or whose header is not the one that belongs to it.
   */
  ghost predicate Excused(a: State, b: State, c: Command, header: seq<Byte>, file: seq<Byte>) {
    b.phase.NotReady? ==>
      || b.sendFaults > a.sendFaults
      || (a.phase.DataOut? && c.code == SEND_OBJECT_INFO
          && (b.faults > a.faults || !Framing(header, c, Taken(file, MAX_OBJECT_INFO))))
  }

  lemma RepliedOnce(a: State, b: State, c: Command, code: nat, params: seq<nat>)
    requires Replied(a, b, c, code, params)
    ensures OneAnswer(a, b, c)
  {
  }

  lemma IdleExcused(a: State, b: State, c: Command, header: seq<Byte>, file: seq<Byte>)
    ensures b.phase.Idle? ==> Excused(a, b, c, header, file)
  {
  }

  lemma InformedExcused(a: State, b: State, header: seq<Byte>, c: Command, file: seq<Byte>, w: World, k: Config)
    requires Informed(a, b, header, c, file, w, k) && c.code == SEND_OBJECT_INFO && a.phase.DataOut?
    ensures Excused(a, b, c, header, file)
  {
    hide Reserved, Takes, Framing;
  }

  /** A command without a data-out phase is answered once, with its own id, unless a send failed. */
  lemma ServedCloses(a: State, b: State, session: nat, c: Command, w: World, k: Config, header: seq<Byte>,
                     file: seq<Byte>)
    requires Served(a, b, session, c, w, k) && (!IsDataOut(c.code) || session == 0)
    ensures OneAnswer(a, b, c)
    ensures Excused(a, b, c, header, file)
  {
    hide SentOut, Find, InfoDataset, PtpArray.Packed, HandlesFor, PropDesc.Ok, PropDesc.Size, PropDesc.Exact,
         PropDesc.Dataset, DeleteAnswer, Listed, Flat, Bare, PartLength;
  }

  lemma NoSession(a: State, b: State, c: Command)
    requires Replied(a, b, c, SESSION_NOT_OPEN, []) && c.code !in {OPEN_SESSION, GET_DEVICE_INFO}
    ensures PlainReply(a, b, 0, c)
  {
  }

  // The commands that are served whatever the session is
  lemma ServedAnyway(a: State, b: State, session: nat, c: Command, w: World, k: Config)
    requires b.sendFaults >= a.sendFaults && b.faults >= a.faults
    requires c.code == GET_DEVICE_INFO || c.code == OPEN_SESSION || session == 0
    requires if c.code == GET_DEVICE_INFO then DeviceInfoServed(a, b, c, session) else PlainReply(a, b, session, c)
    ensures Served(a, b, session, c, w, k)
  {
    hide DeviceInfoServed, Replied;
  }

  // ---- Any command ----

  // One answer with the id of the command and an idle device, or none and a device that is not ready
  ghost predicate OneAnswer(a: State, b: State, c: Command) {
    || (b.phase.Idle? && |b.responses| == |a.responses| + 1 && b.responses[..|a.responses|] == a.responses
        && b.responses[|a.responses|].tid == c.tid)
    || (b.phase.NotReady? && b.responses == a.responses)
  }

  /**
   The outcome of any command, executed on the bytes `file` under `header` when it has a data-out
   phase: a data-out command of an idle device in session is put off with nothing else changed; any
   other command gets one answer, or none when it is excused, and does to session and objects
   what it stands for.
   */
  ghost predicate Handled(a: State, b: State, session: nat, session': nat, c: Command, header: seq<Byte>,
                          file: seq<Byte>, w: World, k: Config)
  {
    && a.history <= b.history && Effect(a, b, c) && session' == SessionAfter(session, c)
    && (session == 0 ==> QuietStep(a, b))
    && (if a.phase.Idle? && IsDataOut(c.code) && session != 0 then b == a.(phase := DataOut)
        else OneAnswer(a, b, c) && Excused(a, b, c, header, file))
    && (if !IsDataOut(c.code) || session == 0 then Served(a, b, session, c, w, k)
        else a.phase.DataOut? ==> Judged(a, b, header, c, file, w, k))
  }

  lemma HandledDeferred(a: State, b: State, session: nat, c: Command, header: seq<Byte>, file: seq<Byte>, w: World,
                        k: Config)
    requires a.phase.Idle? && IsDataOut(c.code) && session != 0 && b == a.(phase := DataOut)
    ensures Handled(a, b, session, session, c, header, file, w, k)
  {
    hide Judged, Effect;
    NoEffect(a, b, c);
  }

  lemma HandledData(a: State, b: State, session: nat, c: Command, header: seq<Byte>, file: seq<Byte>, w: World,
                    k: Config)
    requires a.phase.DataOut? && IsDataOut(c.code) && session != 0 && a.history <= b.history
    requires Judged(a, b, header, c, file, w, k) && Effect(a, b, c) && OneAnswer(a, b, c)
             && Excused(a, b, c, header, file)
    ensures Handled(a, b, session, session, c, header, file, w, k)
  {
    hide Judged, Effect, Excused, OneAnswer;
  }

  lemma HandledPlain(a: State, b: State, session: nat, session': nat, c: Command, header: seq<Byte>, file: seq<Byte>,
                     w: World, k: Config)
    requires (!IsDataOut(c.code) || session == 0) && a.history <= b.history && Served(a, b, session, c, w, k)
    requires Effect(a, b, c) && session' == SessionAfter(session, c) && (session == 0 ==> QuietStep(a, b))
    ensures Handled(a, b, session, session', c, header, file, w, k)
  {
    hide Served, Effect, SessionAfter, Excused;
    ServedCloses(a, b, session, c, w, k, header, file);
  }

  lemma HandledSession(a: State, b: State, session: nat, session': nat, c: Command, header: seq<Byte>,
                       file: seq<Byte>, w: World, k: Config)
    requires Handled(a, b, session, session', c, header, file, w, k)
    ensures SessionLaw(session, session', c, Replied(a, b, c, OK, []))
  {
    hide Judged, Effect, Excused, OneAnswer, QuietStep, DeviceInfoServed, StorageIdsServed, StorageInfoServed,
         InterdepServed, HandlesServed, ObjectInfoServed, PropDescServed, PartialServed, ObjectServed, DeleteServed;
    forall code: nat, params: seq<nat> | Replied(a, b, c, code, params)
      ensures |b.responses| > |a.responses| && b.responses[|a.responses|] == Response(code, c.tid, params)
    {
    }
  }

  /** What every command keeps, whatever it is. */
  lemma HandledMeans(a: State, b: State, session: nat, session': nat, c: Command, header: seq<Byte>, file: seq<Byte>,
                     w: World, k: Config)
    requires Handled(a, b, session, session', c, header, file, w, k)
    ensures a.history <= b.history && session' == SessionAfter(session, c) && (session == 0 ==> QuietStep(a, b))
    ensures SessionLaw(session, session', c, Replied(a, b, c, OK, []))
    ensures b.pending != a.pending ==> c.code in {SEND_OBJECT_INFO, SEND_OBJECT, POWER_DOWN}
    ensures b.phase.DataOut? ==> a.phase.Idle? && IsDataOut(c.code) && session != 0
    ensures a.phase.Idle? && IsDataOut(c.code) && session != 0 ==> b == a.(phase := DataOut)
    ensures OneAnswer(a, b, c) || b.responses == a.responses
    ensures b.phase.Idle? || b.phase.NotReady? || b.phase.DataOut?
    ensures b.phase.NotReady? ==> b.sendFaults > a.sendFaults || (a.phase.DataOut? && c.code == SEND_OBJECT_INFO)
  {
    hide Judged, Served, SessionAfter, Framing, SessionLaw, DeletedBy, RenamedBy, PathsOk, Gained, Prune;
    HandledSession(a, b, session, session', c, header, file, w, k);
  }

  lemma HandledJudges(a: State, b: State, session: nat, session': nat, c: Command, header: seq<Byte>, file: seq<Byte>,
                      w: World, k: Config)
    requires Handled(a, b, session, session', c, header, file, w, k)
    requires a.phase.DataOut? && IsDataOut(c.code) && session != 0
    ensures Judged(a, b, header, c, file, w, k) && session' == session && OneAnswer(a, b, c)
  {
    hide Judged, Served, Effect, Excused, OneAnswer;
  }

  lemma HandledServes(a: State, b: State, session: nat, session': nat, c: Command, header: seq<Byte>, file: seq<Byte>,
                      w: World, k: Config)
    requires Handled(a, b, session, session', c, header, file, w, k) && !IsDataOut(c.code)
    ensures Served(a, b, session, c, w, k) && session' == SessionAfter(session, c)
  {
    hide Judged, Served, Effect, Excused, SessionAfter;
  }

  // Losing the waiting object does nothing to the objects.
  lemma LostEffect(a: State, b: State, c: Command)
    requires b.objs == a.objs && b.history == a.history && b.reported == a.reported && b.landed == a.landed
    requires b.written == a.written && (b.pending == a.pending || c.code == POWER_DOWN)
    ensures Effect(a, b, c)
  {
  }

  lemma FilledEffect(a: State, b: State, c: Command)
    requires c.code == GET_OBJECT_HANDLES && b.reported == a.reported && b.landed == a.landed
    requires b.pending == a.pending && b.written == a.written
    requires b.objs != a.objs ==> PathsOk(b.objs) && a.objs == [] && Param(c, 2) in {ROOT, ALL}
    ensures Effect(a, b, c)
  {
    hide PathsOk;
  }

  lemma NamedEntries(w: World, root: string)
    requires WorldOk(w, root)
    ensures WellNamed(root, w.entries)
  {
  }

  lemma NoEffect(a: State, b: State, c: Command)
    requires QuietStep(a, b)
    ensures Effect(a, b, c)
  {
  }

  lemma InformedEffect(a: State, b: State, header: seq<Byte>, c: Command, file: seq<Byte>, w: World, k: Config)
    requires Informed(a, b, header, c, file, w, k) && c.code == SEND_OBJECT_INFO && b.written == a.written
    ensures Effect(a, b, c) && a.history <= b.history
  {
    hide Described, AddRef, Takes, Framing;
  }

  lemma DeliveredEffect(a: State, b: State, header: seq<Byte>, c: Command, file: seq<Byte>)
    requires Delivered(a, b, header, c, file) && c.code == SEND_OBJECT && b.reported == a.reported
    ensures Effect(a, b, c) && a.history <= b.history
  {
    hide AddRef, Expected, FileAccepted;
  }

  lemma RenamedEffect(a: State, b: State, header: seq<Byte>, c: Command, file: seq<Byte>, w: World, k: Config)
    requires Renamed(a, b, header, c, file, w, k) && c.code == SET_OBJECT_PROP_VALUE
    requires b.reported == a.reported && b.landed == a.landed && b.history == a.history
    requires b.pending == a.pending && b.written == a.written
    ensures Effect(a, b, c)
  {
    hide RenamedBy, Framing, Updated, RenamedTo;
  }

  lemma DeletedEffect(a: State, b: State, c: Command, gone: seq<nat>)
    requires c.code == DELETE_OBJECT && DeletedBy(c, a.objs, gone) && b.objs == Prune(a.objs, Elems(gone))
    requires b.reported == a.reported && b.landed == a.landed && b.history == a.history
    requires b.pending == a.pending && b.written == a.written
    ensures Effect(a, b, c)
  {
    hide DeletedBy, Prune, Elems;
  }

  /**
   Agreement of paths and tree over one command. Only sending an object and renaming can end it:
   sending exactly when the new path does not fit under the parent, and renaming, by Renamed,
   exactly when the new path does not.
   */
  lemma StepAgreement(a: State, b: State, c: Command)
    requires Effect(a, b, c) && PathsOk(a.objs) && Inv(a.objs, a.next, a.entered)
    ensures c.code !in {SEND_OBJECT_INFO, SEND_OBJECT, SET_OBJECT_PROP_VALUE} ==> PathsOk(b.objs)
    ensures c.code in {SEND_OBJECT_INFO, SEND_OBJECT} && b.objs != a.objs && b.reported != [] ==>
      var o := b.reported[|b.reported| - 1];
      o.handle !in a.entered && ROOT < o.handle && o.parent < o.handle ==>
        (PathsOk(b.objs) <==> Agrees(a.objs, o.parent, o.path))
  {
    hide PathsOk, Inv, DeletedBy, Prune, Elems, RenamedBy, Agrees, AddRef;
    if b.objs != a.objs && c.code == DELETE_OBJECT {
      var gone :| DeletedBy(c, a.objs, gone) && b.objs == Prune(a.objs, Elems(gone));
      PrunedPaths(a.objs, Elems(gone));
    }
    if b.objs != a.objs && c.code in {SEND_OBJECT_INFO, SEND_OBJECT} {
      var o := b.reported[|b.reported| - 1];
      if o.handle !in a.entered && ROOT < o.handle && o.parent < o.handle {
        AddedPaths(a.objs, o, a.next, a.entered);
      }
    }
  }

  // ---- Steps of the proofs ----

  // What is no longer listed after a removal
  lemma GoneUnlisted(objs: seq<Obj>, gone: seq<nat>, h: nat)
    ensures Listed(Prune(objs, Elems(gone)), h) <==> Listed(objs, h) && h !in gone
  {
    hide Prune, Minus;
    PruneKeeps(objs, Elems(gone));
    if Listed(objs, h) && h !in gone {
      var o :| o in objs && o.handle == h;
      assert o.(children := Minus(o.children, Elems(gone))) in Prune(objs, Elems(gone));
    }
  }

  lemma OneAnswered(objs: seq<Obj>, gone: seq<nat>, broken: set<nat>, h: nat, code: nat, inner: nat)
    requires Listed(objs, h) && (h in gone <==> inner == OK) && (code == OK <==> inner == OK || inner == GEN_ERROR)
    requires inner == GEN_ERROR || code == ACCESS_DENIED ==> h in broken
    requires h !in gone && h !in broken && gone != [] ==> code == PARTIAL_DELETION
    requires code == PARTIAL_DELETION ==> h !in gone
    requires code in {OBJ_WRITEPROTECTED, ACCESS_DENIED} ==> Prune(objs, Elems(gone)) == objs
    ensures DeleteOneAnswer(objs, Prune(objs, Elems(gone)), broken, h, code)
  {
    hide Prune, Elems, Listed;
    GoneUnlisted(objs, gone, h);
    NothingGone(objs, h);
  }

  lemma LeftOver(objs: seq<Obj>, gone: seq<nat>, broken: set<nat>, h: nat)
    requires h != ALL && forall x :: InBranch(objs, h, x) && x !in gone ==> Held(objs, x, FORMAT_NOTUSED, broken)
    ensures LeftForReason(objs, Prune(objs, Elems(gone)), h, FORMAT_NOTUSED, broken)
  {
    hide Prune, Listed, InBranch, Held;
    PruneKeeps(objs, Elems(gone));
  }

  lemma AllAnswered(objs: seq<Obj>, gone: seq<nat>, format: nat, failed: bool, broken: set<nat>, inner: nat, code: nat)
    requires forall o :: o in Prune(objs, Elems(gone)) ==> Held(objs, o.handle, format, broken)
    requires code == if inner in {PARTIAL_DELETION, OBJ_WRITEPROTECTED, ACCESS_DENIED} then inner else OK
    requires inner !in {OK, PARTIAL_DELETION} ==> AllFolders(objs, gone)
    requires inner == OK && !failed ==> NoneAdmitted(Prune(objs, Elems(gone)), format) || AllFolders(objs, gone)
    ensures LeftForReason(objs, Prune(objs, Elems(gone)), ALL, format, broken)
    ensures DeleteAllAnswer(objs, Prune(objs, Elems(gone)), failed, format, code)
  {
    hide Prune, Elems, Held, NoneAdmitted, Listed;
    if AllFolders(objs, gone) {
      forall o | o in objs && !Listed(Prune(objs, Elems(gone)), o.handle) ensures o.fmt == FMT_ASSOCIATION {
        GoneUnlisted(objs, gone, o.handle);
        assert Listed(objs, o.handle) by {
          InList(objs, o);
        }
      }
    }
  }

  lemma InList(objs: seq<Obj>, o: Obj)
    requires o in objs
    ensures Listed(objs, o.handle)
  {
  }

  // The file is open on the device.
  lemma NotNow(objs: seq<Obj>, next: nat, h: nat, data: seq<Byte>, k: Config)
    requires Listed(objs, h)
    ensures RenamedTo(objs, objs, next, true, h, data, k, GEN_ERROR)
  {
  }

  lemma RenamedNow(a: State, b: State, header: seq<Byte>, c: Command, file: seq<Byte>, w: World, k: Config, code: nat)
    requires Replied(a, b, c, code, []) && b.faults >= a.faults
    requires Param(c, 2) == 0 && Framing(header, c, Taken(file, MAX_PROP_DATA))
    requires Updated(a.objs, b.objs, a.next, b.faults > a.faults, c, Taken(file, MAX_PROP_DATA), w, k, code)
    ensures Renamed(a, b, header, c, file, w, k)
  {
    hide RenamedBy, Framing, RenamedTo;
  }

  // A DeleteObject that is refused
  lemma NotDeleted(a: State, b: State, c: Command, code: nat)
    requires Replied(a, b, c, code, []) && b.objs == a.objs && code == Refusal(a, c) && code != 0
    ensures DeleteServed(a, b, c)
  {
    hide DeleteAnswer, Listed, Refusal;
  }

  lemma DeletedNow(a: State, b: State, c: Command, code: nat)
    requires Replied(a, b, c, code, []) && Refusal(a, c) == 0
    requires DeleteAnswer(a.objs, b.objs, a.faults, b.faults, b.broken, b.cut, a.readOnly, Param(c, 0), Param(c, 1),
                          code)
    ensures DeleteServed(a, b, c)
  {
    hide DeleteAnswer, Refusal;
  }

  lemma NoneDeleted(c: Command, objs: seq<Obj>)
    ensures DeletedBy(c, objs, []) && Prune(objs, Elems([])) == objs
  {
    NothingGone(objs, 0);
    SweptIsRemoval(objs, 0, []);
    NoneToMatch(objs, Param(c, 1));
  }

  // What the sending of the handles owes to the state after the store was filled
  lemma HandlesSent(a: State, m: State, b: State, c: Command, w: World, k: Config)
    requires m.responses == a.responses && m.packets == a.packets && m.sendFaults == a.sendFaults
    requires b.objs == m.objs && b.faults == m.faults && b.cut == m.cut
    requires if StoreAsked(c) then DataSent(m, b, c, PtpArray.Packed(HandlesFor(c, m.objs)), [], k.chunk)
             else Replied(m, b, c, INVALID_STORE_ID, [])
    requires if a.objs == [] && Param(c, 2) in {ROOT, ALL} then
               !m.cut ==> Bare(m.objs) == Flat(k.root, ROOT, a.next, if w.opens then w.entries else [])
             else
               m.objs == a.objs
    ensures HandlesServed(a, b, c, w, k)
  {
    hide SentOut, Flat, Bare, HandlesFor, PtpArray.Packed;
  }

  // A SetObjectPropValue that is refused for its parameters or its data
  lemma NotRenamed(a: State, b: State, header: seq<Byte>, c: Command, file: seq<Byte>, w: World, k: Config, code: nat)
    requires Replied(a, b, c, code, []) && b.objs == a.objs && b.faults >= a.faults
    requires if Param(c, 2) != 0 then code == PARAM_NOT_SUPPORTED
             else
               code == INVALID_PROP_VALUE && (b.faults > a.faults || !Framing(header, c, Taken(file, MAX_PROP_DATA)))
    ensures Renamed(a, b, header, c, file, w, k)
  {
    hide RenamedBy, Framing, Updated;
    Unrenamed(c, a.objs);
  }

  lemma Unrenamed(c: Command, objs: seq<Obj>)
    ensures RenamedBy(c, objs, objs)
  {
  }

  // A SendObject that is refused before anything happens
  lemma NotDelivered(a: State, b: State, header: seq<Byte>, c: Command, file: seq<Byte>, code: nat)
    requires |header| == HEADER && Replied(a, b, c, code, []) && QuietStep(a, b) && b.faults >= a.faults
    requires if Extra(c, 0) then code == INVALID_PARAM
             else
               && code == GEN_ERROR
               && (b.faults > a.faults || !(Expected(header, c.code, c.tid) && FileAccepted(header, file)))
    ensures Delivered(a, b, header, c, file)
  {
    hide Expected, FileAccepted, Gained;
  }

  // A SendObject whose file was accepted: the waiting object is used up, and listed unless the disk failed.
  lemma UsedUp(a: State, b: State, header: seq<Byte>, c: Command, file: seq<Byte>, code: nat)
    requires |header| == HEADER && Replied(a, b, c, code, [])
    requires Expected(header, c.code, c.tid) && FileAccepted(header, file) && !Extra(c, 0)
    requires b.pending == None && b.faults >= a.faults && code in {OK, GEN_ERROR, STORE_FULL}
    requires (code == OK <==> a.pending.Some? && b.faults == a.faults) && (code == STORE_FULL ==> a.pending.Some?)
    requires if code == OK then
               && a.reported != [] && a.pending.value == a.reported[|a.reported| - 1] && Gained(a, b, a.pending.value)
               && b.written == a.written[a.pending.value.path := file]
             else
               b.objs == a.objs && b.history == a.history && b.landed == a.landed && b.written == a.written
    ensures Delivered(a, b, header, c, file)
  {
    hide Expected, FileAccepted, Gained;
  }

  // What making an object answers to a SendObjectInfo
  lemma EntryJudged(a: State, failed: bool, c: Command, dataset: seq<Byte>, w: World, k: Config, storeId: nat,
                    code: nat)
    requires Param(c, 2) == 0 && storeId == if Param(c, 0) == 0 then STORE_ID else Param(c, 0)
    requires code == if failed then GEN_ERROR
                     else Verdict(RoomFor(a, w), k.root, storeId == STORE_ID, Param(c, 1), dataset, k.utf8)
    ensures code == OK ==> Takes(a, c, dataset, w, k)
    ensures !failed && Takes(a, c, dataset, w, k) ==> code == OK
    ensures code == InfoRefusal(a, failed, c, dataset, w, k)
  {
    hide Verdict, Acceptable, RoomFor;
    VerdictOk(RoomFor(a, w), k.root, NamesStore(c), Param(c, 1), dataset, k.utf8);
  }

  lemma TakesRoom(a: State, w: World, r: Room)
    requires r.objs == a.objs && r.next == a.next && r.readOnly == a.readOnly
    requires if a.pending.Some? && w.space.Some?
             then r.free == w.space.value.free && r.capacity == w.space.value.capacity
             else r.free == a.free && r.capacity == a.capacity
    ensures r == RoomFor(a, w)
  {
  }
}
