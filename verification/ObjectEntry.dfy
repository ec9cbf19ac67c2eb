/**
 Making an object from the dataset of SendObjectInfo (src/mtp_cmd_handler_util.c:101-320, 866-951).
 */
module ObjectEntry {
  import opened Codes
  import opened Bytes
  import opened ObjectTable
  import opened ObjectStore
  import opened Paths
  import opened Agreement
  import opened PendingObject
  import opened Options
  import ObjectInfo
  import opened PtpString

  // ---- Names ----

  // The characters before the first NUL
  function Chars(w: seq<Wchar>): (r: seq<Wchar>)
    ensures 0 !in r && r <= w
  {
    if w == [] || w[0] == 0 then [] else [w[0]] + Chars(w[1..])
  }

  predicate Ascii(w: seq<Wchar>) {
    forall i :: 0 <= i < |w| ==> w[i] < 128
  }

  function Narrow(w: seq<Wchar>): string
    requires Ascii(w)
  {
    seq(|w|, i requires 0 <= i < |w| => w[i] as char)
  }

  // The foreign conversion from UTF-16, which matters beyond plain characters only
  type Conversion = seq<Wchar> -> string

  // _util_utf16_to_utf8
  function Utf8(conv: Conversion, w: seq<Wchar>): string {
    if Ascii(Chars(w)) then Narrow(Chars(w)) else conv(Chars(w))
  }

  function Digits(n: nat): string {
    if n < 10 then [('0' as int + n) as char] else Digits(n / 10) + [('0' as int + n % 10) as char]
  }

  function Padded(s: string): string
    decreases 4 - |s|
  {
    if |s| >= 4 then s else Padded("0" + s)
  }

  // The file name that a dataset asks for, or one made from the handle
  function FileName(conv: Conversion, payload: seq<Byte>, handle: nat): string {
    var name := Utf8(conv, ObjectInfo.NameOf(payload));
    if name == "" then "Tmp_" + Padded(Digits(handle)) + ".dat" else name
  }

  // ---- What a dataset describes ----

  // An empty dataset leaves the record blank.
  function InfoOf(payload: seq<Byte>): ObjectInfo.Info {
    if |payload| < ObjectInfo.FIXED then ObjectInfo.BLANK else ObjectInfo.HeadParsed(payload)
  }

  // A parent parameter that means the top folder
  ghost predicate IsTop(param: nat) {
    param == 0 || param == 0xFFFF_FFFF
  }

  ghost predicate GoodParent(objs: seq<Obj>, param: nat) {
    IsTop(param) || (Listed(objs, param) && Find(objs, param).fmt == FMT_ASSOCIATION)
  }

  // The folder of a good parent
  ghost function Folder(objs: seq<Obj>, root: string, param: nat): string {
    if !IsTop(param) && Listed(objs, param) then Find(objs, param).path else root
  }

  ghost function Place(objs: seq<Obj>, root: string, param: nat, name: string): (bool, string) {
    CreatePath(root, Folder(objs, root, param), name)
  }

  // The object that the dataset describes, below the parent that the command's parameter names
  ghost predicate Described(o: Obj, payload: seq<Byte>, param: nat, objs: seq<Obj>, root: string, conv: Conversion) {
    && ObjectInfo.Framed(payload) && GoodParent(objs, param)
    && var info, (fits, path) := InfoOf(payload), Place(objs, root, param, FileName(conv, payload, o.handle));
    && var parent := if IsTop(param) then ROOT else param;
    && fits && o == Obj(o.handle, parent, info.fmt, NO_PROTECTION, info.fileSize, path, [])
  }

  // The object lies in the folder that the parameter names: by its parent handle and by its path.
  ghost predicate LiesIn(o: Obj, param: nat, objs: seq<Obj>, root: string) {
    if param in {ROOT, ALL} then o.parent == ROOT && root + "/" <= o.path
    else
      && o.parent == param && Listed(objs, param) && Find(objs, param).fmt == FMT_ASSOCIATION
      && Find(objs, param).path + "/" <= o.path
  }

  /** A described object lies in the folder that the command names. */
  lemma DescribedLies(o: Obj, payload: seq<Byte>, param: nat, objs: seq<Obj>, root: string, conv: Conversion)
    requires Described(o, payload, param, objs, root, conv)
    ensures LiesIn(o, param, objs, root) && |o.path| <= MAX_PATH
  {
    hide ObjectInfo.Framed, InfoOf, FileName, Find, CreatePath;
    var name := FileName(conv, payload, o.handle);
    Named(conv, payload, o.handle);
    InFolder(root, Folder(objs, root, param), name);
  }

  lemma Named(conv: Conversion, payload: seq<Byte>, handle: nat)
    ensures FileName(conv, payload, handle) != ""
  {
    hide Utf8, Digits, Padded, ObjectInfo.NameOf;
    assert "Tmp_" + Padded(Digits(handle)) + ".dat" != "";
  }

  lemma InFolder(root: string, dir: string, name: string)
    requires name != "" && CreatePath(root, dir, name).0
    ensures dir + "/" <= CreatePath(root, dir, name).1
  {
    assert dir + "/" <= dir + "/" + name;
  }

  // What of a store decides about a dataset
  datatype Room = Room(objs: seq<Obj>, next: nat, readOnly: bool, free: nat, capacity: nat)

  ghost function RoomIn(s: Store): Room
    reads s
  {
    Room(s.objs, s.next, s.readOnly, s.freeSpace, s.capacity)
  }

  // When the dataset is taken, on a disk that does not fail; `known` says that the store is this one.
  ghost predicate Acceptable(r: Room, root: string, known: bool, param: nat, payload: seq<Byte>, conv: Conversion) {
    && known && !r.readOnly && 0 < r.free <= r.capacity
    && ObjectInfo.Framed(payload) && GoodParent(r.objs, param) && InfoOf(payload).fileSize <= r.free
    && Place(r.objs, root, param, FileName(conv, payload, r.next)).0
  }

  // The answer to a dataset, on a disk that does not fail: the first thing that stands in its way
  ghost function Verdict(r: Room, root: string, known: bool, param: nat, payload: seq<Byte>, conv: Conversion): nat {
    if !known then INVALID_STORE_ID
    else if r.readOnly then STORE_READONLY
    else if r.free == 0 || r.free > r.capacity then STORE_FULL
    else if !ObjectInfo.Framed(payload) then INVALID_DATASET
    else if !GoodParent(r.objs, param) then if Listed(r.objs, param) then INVALID_PARENT else INVALID_OBJ_HANDLE
    else if r.free < InfoOf(payload).fileSize then STORE_FULL
    else if !Place(r.objs, root, param, FileName(conv, payload, r.next)).0 then GEN_ERROR
    else OK
  }

  lemma VerdictOk(r: Room, root: string, known: bool, param: nat, payload: seq<Byte>, conv: Conversion)
    ensures Verdict(r, root, known, param, payload, conv) == OK <==> Acceptable(r, root, known, param, payload, conv)
  {
    hide ObjectInfo.Framed, GoodParent, InfoOf, Place, FileName, Listed;
  }

  /** A host's dataset: the object has its format, its size in 32 bits and its name, in the parent's folder. */
  lemma PackedDescribes(o: Obj, i: ObjectInfo.Info, name: seq<Wchar>, created: seq<Wchar>, modified: seq<Wchar>,
                        param: nat, objs: seq<Obj>, root: string, conv: Conversion)
    requires ObjectInfo.InRange(i) && |name| <= MAX_CHARS && |created| <= MAX_CHARS && |modified| <= MAX_CHARS
    requires name != [] && name[|name| - 1] == 0 && Chars(name) != [] && Ascii(Chars(name))
    ensures Described(o, ObjectInfo.Dataset(i, name, created, modified), param, objs, root, conv) ==>
      && o.fmt == i.fmt && o.size == ObjectInfo.SizeField(i.fileSize)
      && var path := Folder(objs, root, param) + "/" + Narrow(Chars(name));
         |path| <= MAX_PATH ==> o.path == path
  {
    hide ObjectInfo.HeadParsed, ObjectInfo.NameOf, ObjectInfo.Dataset, ObjectInfo.Framed, Digits, Padded;
    ObjectInfo.NameRoundTrip(i, name, created, modified);
    assert |Narrow(Chars(name))| > 0;
  }

  // A plain name as a host packs it, with a NUL after it
  function Terminated(s: string): seq<Wchar>
    requires forall i :: 0 <= i < |s| ==> 0 < s[i] as int < 128
  {
    seq(|s|, i requires 0 <= i < |s| => s[i] as int) + [0]
  }

  /** A host that packs the name s gets an object of that name: folder, slash and s. */
  lemma PlainDescribes(o: Obj, i: ObjectInfo.Info, s: string, created: seq<Wchar>, modified: seq<Wchar>,
                       param: nat, objs: seq<Obj>, root: string, conv: Conversion)
    requires ObjectInfo.InRange(i) && 0 < |s| < MAX_CHARS && |created| <= MAX_CHARS && |modified| <= MAX_CHARS
    requires forall i :: 0 <= i < |s| ==> 0 < s[i] as int < 128
    requires Described(o, ObjectInfo.Dataset(i, Terminated(s), created, modified), param, objs, root, conv)
    ensures o.fmt == i.fmt && (i.fileSize < 0x1_0000_0000 ==> o.size == i.fileSize)
    ensures |Folder(objs, root, param)| + 1 + |s| <= MAX_PATH ==> o.path == Folder(objs, root, param) + "/" + s
  {
    hide ObjectInfo.Dataset, Described, Folder;
    CharsWide(Terminated(s), |s|);
    assert Narrow(Chars(Terminated(s))) == s;
    PackedDescribes(o, i, Terminated(s), created, modified, param, objs, root, conv);
  }

  lemma {:induction false} CharsWide(w: seq<Wchar>, n: nat)
    requires n < |w| && w[n] == 0 && 0 !in w[..n]
    ensures Chars(w) == w[..n]
    decreases n
  {
    if n > 0 {
      assert w[0] == w[..n][0];
      assert w[1..][..n - 1] == w[..n][1..];
      CharsWide(w[1..], n - 1);
      assert w[..n] == [w[0]] + w[1..][..n - 1];
    }
  }

  /** Within the length limit a described object fits under its listed parent if and only if its name has no slash. */
  lemma DescribedAgrees(o: Obj, payload: seq<Byte>, param: nat, objs: seq<Obj>, root: string, conv: Conversion)
    requires Distinct(objs) && param !in {ROOT, ALL}
    ensures var name := FileName(conv, payload, o.handle);
      Described(o, payload, param, objs, root, conv) && |Folder(objs, root, param) + "/" + name| <= MAX_PATH ==>
        (Agrees(objs, o.parent, o.path) <==> '/' !in name)
  {
    hide OneBelow, FileName, ObjectInfo.Framed, InfoOf;
    if Described(o, payload, param, objs, root, conv) {
      Extends(Folder(objs, root, param), FileName(conv, payload, o.handle));
      OneByHandle(objs, Find(objs, param));
    }
  }

  // ---- Taking a dataset ----

  // Bytes after the end of a received dataset
  method Slack(n: nat) returns (s: seq<Byte>)
    ensures |s| >= n
  {
    s := *;
    if |s| < n {
      s := seq(n, _ => 0);
    }
  }

  /** Parse the dataset, whatever bytes follow it: its fields and its name. */
  method ParseDataset(conv: Conversion, payload: seq<Byte>) returns (ok: bool, info: ObjectInfo.Info, name: string)
    requires |payload| <= 131072
    ensures ok <==> ObjectInfo.Framed(payload)
    ensures ok ==> info == InfoOf(payload) && name == Utf8(conv, ObjectInfo.NameOf(payload))
  {
    hide ObjectInfo.HeadParsed, ObjectInfo.Tail, ObjectInfo.Framed;
    var slack := Slack(ObjectInfo.ROOM);
    var used, wide;
    used, info, wide := ObjectInfo.Parse(payload + slack, |payload|);
    ok := used == |payload|;
    ObjectInfo.AcceptedAlone(payload, slack);
    if |payload| >= ObjectInfo.FIXED {
      ObjectInfo.HeadAlone(payload, slack);
      if ok {
        ObjectInfo.NameAlone(payload, slack);
      }
    }
    name := Utf8(conv, wide);
  }

  // The parent of a new object, looked up: the top folder or a listed one.
  method FindParent(s: Store, param: nat) returns (code: nat, parent: nat, dir: string)
    requires s.Valid()
    ensures code == OK || code == INVALID_OBJ_HANDLE || code == INVALID_PARENT
    ensures code == OK <==> GoodParent(s.objs, param)
    ensures code == INVALID_OBJ_HANDLE <==> !IsTop(param) && !Listed(s.objs, param)
    ensures code == OK ==> dir == Folder(s.objs, s.root, param) && parent == if IsTop(param) then ROOT else param
  {
    hide Scan, Find;
    dir := s.root;
    parent := if param == ALL then ROOT else param;
    if parent == ROOT {
      return OK, parent, dir;
    }
    var at := Lookup(s.objs, parent);
    if at == -1 {
      return INVALID_OBJ_HANDLE, parent, dir;
    }
    OneByHandle(s.objs, s.objs[at]);
    dir := s.objs[at].path;
    code := if s.objs[at].fmt != FMT_ASSOCIATION then INVALID_PARENT else OK;
  }

  lemma NewWaits(objs: seq<Obj>, o: Obj, param: nat, next: nat, entered: set<nat>)
    requires Inv(objs, next, entered) && GoodParent(objs, param) && o.parent == if IsTop(param) then ROOT else param
    requires o.handle == next && o.children == []
    ensures Inv(objs, next + 1, entered) && next !in entered && o.parent < next
    ensures o.parent == ROOT || o.parent in entered
    ensures forall q :: q in objs && q.handle == o.parent ==> q.fmt == FMT_ASSOCIATION
    ensures o.fmt != FMT_ASSOCIATION ==> Waiting(o, objs, next + 1, entered)
  {
    hide Scan;
  }

  // The list, the history and the space after an object was made
  twostate predicate Made(s: Store, o: Obj)
    reads s
  {
    && o.handle == old(s.next) && s.next == o.handle + 1 && o.handle !in old(s.entered)
    && if o.fmt == FMT_ASSOCIATION then
         && s.objs == AddRef(old(s.objs), o.parent, o.handle) + [o] && s.freeSpace == old(s.freeSpace)
         && s.entered == old(s.entered) + {o.handle} && s.history == old(s.history) + [o.handle]
       else
         && s.objs == old(s.objs) && s.entered == old(s.entered) && s.history == old(s.history)
         && s.freeSpace + o.size == old(s.freeSpace) && Waiting(o, s.objs, s.next, s.entered)
  }

  /**
   _hutil_construct_object_entry with _hutil_add_object_entry. A folder is created and listed at
   once; any other object only takes a handle and reserves its space. Unless a folder cannot be
   created, success is exactly Acceptable. Whatever goes wrong, the list stays as it was,
   although a handle may be used up.
   */
  method Construct(s: Store, storeId: nat, param: nat, conv: Conversion, payload: seq<Byte>)
    returns (code: nat, made: Option<Obj>)
    requires s.Valid() && |payload| <= MAX_OBJECT_INFO + 4
    modifies s`objs, s`next, s`entered, s`history, s`freeSpace, s`faults
    ensures s.Valid() && s.faults >= old(s.faults) && (code == OK <==> made.Some?)
    ensures code == if s.faults > old(s.faults) then GEN_ERROR
                    else Verdict(old(RoomIn(s)), s.root, storeId == STORE_ID, param, payload, conv)
    ensures code == OK ==> Acceptable(old(RoomIn(s)), s.root, storeId == STORE_ID, param, payload, conv)
    ensures s.faults == old(s.faults) ==>
      (Acceptable(old(RoomIn(s)), s.root, storeId == STORE_ID, param, payload, conv) ==> code == OK)
    ensures made.Some? ==> Made(s, made.value)
    ensures made.Some? ==> Described(made.value, payload, param, old(s.objs), s.root, conv)
    ensures made.Some? ==> LiesIn(made.value, param, old(s.objs), s.root)
    ensures made.Some? && made.value.fmt == FMT_ASSOCIATION && PathsOk(old(s.objs)) ==>
      (PathsOk(s.objs) <==> Agrees(old(s.objs), made.value.parent, made.value.path))
    ensures made.None? ==> s.objs == old(s.objs) && s.entered == old(s.entered) && s.history == old(s.history)
    ensures made.None? ==> old(s.next) <= s.next <= old(s.next) + 1 && s.freeSpace == old(s.freeSpace)
  {
    hide Inv, InfoOf, ObjectInfo.Framed, ObjectInfo.NameOf, CreatePath, Folder, GoodParent, AddRef, Elems, NoDup,
         Waiting, Find, Utf8, Padded, Digits, PathsOk, Agrees, LiesIn, IsTop, Acceptable, Listed;
    made := None;
    VerdictOk(RoomIn(s), s.root, storeId == STORE_ID, param, payload, conv);
    if storeId != STORE_ID {
      return INVALID_STORE_ID, made;
    }
    if s.readOnly {
      return STORE_READONLY, made;
    }
    if s.freeSpace == 0 || s.freeSpace > s.capacity {
      return STORE_FULL, made;
    }
    var ok, info, name := ParseDataset(conv, payload);
    if !ok {
      return INVALID_DATASET, made;
    }
    var parent, dir;
    code, parent, dir := FindParent(s, param);
    if code != OK {
      NoParent(s.objs, param);
      return;
    }
    if s.freeSpace < info.fileSize {
      return STORE_FULL, made;
    }
    if name == "" {
      name := "Tmp_" + Padded(Digits(s.next)) + ".dat";
    }
    var (fits, path) := CreatePath(s.root, dir, name);
    var o := Obj(s.next, parent, info.fmt, NO_PROTECTION, info.fileSize, path, []);
    NewWaits(s.objs, o, param, s.next, s.entered);
    s.next := s.next + 1;
    if !fits {
      return GEN_ERROR, made;
    }
    DescribedLies(o, payload, param, s.objs, s.root, conv);
    if o.fmt == FMT_ASSOCIATION {
      var created := *;
      if !created {
        s.faults := s.faults + 1;
        return GEN_ERROR, made;
      }
      if PathsOk(old(s.objs)) {
        AddedPaths(old(s.objs), o, old(s.next), old(s.entered));
      }
      AddObject(s, o);
    } else {
      s.freeSpace := s.freeSpace - o.size;
    }
    code, made := OK, Some(o);
  }

  lemma NoParent(objs: seq<Obj>, param: nat)
    requires !GoodParent(objs, param)
    ensures !IsTop(param)
  {
  }

  // ---- The name of an object without one ----

  // The number that a string of digits denotes
  ghost function Value(s: string): int {
    if s == "" then 0 else 10 * Value(s[..|s| - 1]) + (s[|s| - 1] as int - '0' as int)
  }

  ghost predicate Decimal(s: string) {
    s != "" && forall i :: 0 <= i < |s| ==> '0' <= s[i] <= '9'
  }

  /** A handle in decimal, padded with zeros to four digits */
  lemma {:induction false} DigitsValue(n: nat)
    ensures Decimal(Digits(n)) && Value(Digits(n)) == n && (|Digits(n)| > 1 ==> Digits(n)[0] != '0')
  {
    var d := Digits(n);
    if n < 10 {
      assert d[..0] == "";
    } else {
      DigitsValue(n / 10);
      assert d[..|d| - 1] == Digits(n / 10);
      assert n / 10 < 10 ==> Digits(n / 10) == [('0' as int + n / 10) as char];
    }
  }

  lemma {:induction false} PaddedIs(s: string)
    ensures |Padded(s)| == (if |s| < 4 then 4 else |s|) && Padded(s)[|Padded(s)| - |s|..] == s
    ensures forall i :: 0 <= i < |Padded(s)| - |s| ==> Padded(s)[i] == '0'
    decreases 4 - |s|
  {
    if |s| < 4 {
      PaddedIs("0" + s);
      var p := Padded(s);
      assert p[|p| - |s| - 1..] == "0" + s;
      assert p[|p| - |s| - 1] == ("0" + s)[0];
      assert p[|p| - |s|..] == p[|p| - |s| - 1..][1..];
    }
  }
}
