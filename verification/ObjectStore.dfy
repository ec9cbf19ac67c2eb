/**
 The store (src/entity/mtp_store.c) and the file-system event handler's part of it
 (src/mtp_inoti_handler.c): adding, looking up, recursive deletion and event-driven deletion.
 */
module ObjectStore {
  import opened Codes
  import opened ObjectTable
  import opened Leftovers

  class Store {
    var objs: seq<Obj>
    var next: nat        // the next object handle
    const root: string   // path of the store's top folder
    var readOnly: bool   // access capability PTP_STORAGEACCESS_R
    var freeSpace: nat
    var capacity: nat

    ghost var entered: set<nat>  // every handle ever listed
    ghost var history: seq<nat>  // those handles in the order they were listed
    ghost var log: seq<nat>      // handles whose file or folder was removed from the disk, in order
    ghost var purged: nat        // files removed from the disk that were never listed
    ghost var faults: nat        // file-system calls that failed
    ghost var broken: set<nat>   // objects of a deletion whose own removal from the disk failed
    ghost var emptied: set<nat>  // folders whose unlisted content was removed from the disk, or tried to
    ghost var cut: bool          // some poll saw a cancel or a disconnect

    // A new store is writable and counts the whole disk as free.
    constructor (root: string, capacity: nat)
      ensures Valid() && objs == [] && next == 1 && history == [] && log == [] && !cut && this.root == root
      ensures !readOnly && freeSpace == capacity == this.capacity
    {
      this.root := root;
      objs, next, readOnly, freeSpace, this.capacity := [], 1, false, capacity, capacity;
      entered, history, log, purged, faults, broken, emptied, cut := {}, [], [], 0, 0, {}, {}, false;
    }

    ghost predicate Valid()
      reads this`objs, this`next, this`entered, this`history
    {
      Inv(objs, next, entered) && entered == Elems(history) && NoDup(history)
    }
  }

  // ---- The environment ----

  // The disconnect and cancel flags belong to other threads: any poll may see either.
  method Disconnected(s: Store) returns (b: bool)
    modifies s`cut
    ensures s.cut == (old(s.cut) || b)
  {
    b := *;
    s.cut := s.cut || b;
  }

  // remove() or rmdir() of the object's path.
  method RemoveFromDisk(s: Store, h: nat) returns (ok: bool, denied: bool)
    modifies s`log, s`faults, s`broken
    ensures s.log == old(s.log) + (if ok then [h] else [])
    ensures s.faults == old(s.faults) + (if ok then 0 else 1)
    ensures s.broken == old(s.broken) + (if ok then {} else {h})
  {
    ok, denied := *, *;
    if ok {
      s.log := s.log + [h];
    } else {
      s.faults, s.broken := s.faults + 1, s.broken + {h};
    }
  }

  datatype Purge = PurgeDone | PurgeProtected | PurgeError | PurgeDenied

  // Recursive removal of whatever the folder h holds on the disk.
  method PurgeFolder(s: Store, h: nat) returns (r: Purge, deleted: nat, total: nat)
    modifies s`purged, s`faults, s`broken, s`emptied
    ensures deleted <= total
    ensures s.purged == old(s.purged) + deleted && s.emptied == old(s.emptied) + {h}
    ensures s.faults == old(s.faults) + (if r.PurgeError? || r.PurgeDenied? || deleted < total then 1 else 0)
    ensures s.broken == old(s.broken) + (if r.PurgeError? || r.PurgeDenied? || deleted < total then {h} else {})
  {
    r, deleted, total := *, *, *;
    if deleted > total {
      deleted := total;
    }
    s.purged, s.emptied := s.purged + deleted, s.emptied + {h};
    if r.PurgeError? || r.PurgeDenied? || deleted < total {
      s.faults, s.broken := s.faults + 1, s.broken + {h};
    }
  }

  // ---- Lookups and scans ----

  // Index of the first object with handle h, or -1.
  method Lookup(objs: seq<Obj>, h: nat) returns (i: int)
    ensures i == -1 <==> !Listed(objs, h)
    ensures i != -1 ==> 0 <= i < |objs| && objs[i].handle == h && objs[i] in objs
    ensures forall k :: 0 <= k < i ==> objs[k].handle != h
  {
    i := 0;
    while i < |objs|
      invariant 0 <= i <= |objs|
      invariant forall k :: 0 <= k < i ==> objs[k].handle != h
    {
      if objs[i].handle == h {
        return;
      }
      i := i + 1;
    }
    i := -1;
  }

  method ChildHandles(objs: seq<Obj>, p: nat) returns (kids: seq<nat>)
    ensures kids == if Listed(objs, p) then Scan(objs, p) else []
  {
    var k := Lookup(objs, p);
    if k == -1 {
      return [];
    }
    kids := [];
    var i := 0;
    while i < |objs|
      invariant 0 <= i <= |objs|
      invariant kids == Scan(objs[..i], p)
    {
      if objs[i].parent == p {
        kids := kids + [objs[i].handle];
      }
      assert objs[..i + 1][..i] == objs[..i];
      i := i + 1;
    }
    assert objs[..i] == objs;
  }

  // _util_delete_node: unlink the object with this handle.
  method DeleteNode(s: Store, h: nat)
    requires Distinct(s.objs)
    modifies s`objs
    ensures s.objs == Drop(old(s.objs), {h})
  {
    var i := Lookup(s.objs, h);
    if i != -1 {
      DropOne(s.objs, i);
      s.objs := s.objs[..i] + s.objs[i + 1..];
    } else {
      DropAbsent(s.objs, h);
    }
  }

  lemma {:induction false} DropAbsent(objs: seq<Obj>, h: nat)
    requires !Listed(objs, h)
    ensures Drop(objs, {h}) == objs
  {
    if objs != [] {
      assert objs == objs[..|objs| - 1] + [objs[|objs| - 1]];
      assert objs[|objs| - 1] in objs;
      DropAbsent(objs[..|objs| - 1], h);
    }
  }

  lemma {:induction false} DropOne(objs: seq<Obj>, i: nat)
    requires Distinct(objs) && i < |objs|
    ensures Drop(objs, {objs[i].handle}) == objs[..i] + objs[i + 1..]
  {
    hide Listed, Distinct;
    var n := |objs| - 1;
    var h, init := objs[i].handle, objs[..n];
    OthersDiffer(objs, i);
    if i == n {
      DropAbsent(init, h);
      assert objs[..i] + objs[i + 1..] == init;
    } else {
      DropOne(init, i);
      assert Drop(objs, {h}) == Drop(init, {h}) + [objs[n]];
      assert init[..i] == objs[..i] && init[i + 1..] + [objs[n]] == objs[i + 1..];
    }
  }

  lemma OthersDiffer(objs: seq<Obj>, i: nat)
    requires Distinct(objs) && i < |objs|
    ensures var n := |objs| - 1;
      Distinct(objs[..n]) && if i == n then !Listed(objs[..n], objs[i].handle) else objs[n].handle != objs[i].handle
  {
  }

  // Take h out of the child index of p, if p is listed.
  method RemoveReference(s: Store, p: nat, h: nat)
    requires Distinct(s.objs)
    requires forall o :: o in s.objs ==> NoDup(o.children)
    modifies s`objs
    ensures s.objs == DropRef(old(s.objs), p, h)
  {
    var i := Lookup(s.objs, p);
    if i != -1 {
      var kids := s.objs[i].children;
      var j := 0;
      while j < |kids| && kids[j] != h
        invariant 0 <= j <= |kids|
        invariant h !in kids[..j]
      {
        j := j + 1;
      }
      if j < |kids| {
        MinusOne(kids, j);
        s.objs := s.objs[i := s.objs[i].(children := kids[..j] + kids[j + 1..])];
      } else {
        assert kids == kids[..j];
        MinusNone(kids, {h});
      }
    }
    assert s.objs == DropRef(old(s.objs), p, h);
  }

  lemma {:induction false} MinusOne(s: seq<nat>, j: nat)
    requires NoDup(s) && j < |s|
    ensures Minus(s, {s[j]}) == s[..j] + s[j + 1..]
  {
    var init := s[..|s| - 1];
    if j == |s| - 1 {
      MinusNone(init, {s[j]});
    } else {
      MinusOne(init, j);
      assert init[..j] + init[j + 1..] + [s[|s| - 1]] == s[..j] + s[j + 1..];
    }
  }

  /** Append the object to the list and, when its parent is listed, to the parent's child index. */
  method AddObject(s: Store, o: Obj)
    requires s.Valid()
    requires o.handle !in s.entered && ROOT < o.handle < s.next && o.parent < o.handle
    requires o.parent == ROOT || o.parent in s.entered
    requires forall q :: q in s.objs && q.handle == o.parent ==> q.fmt == FMT_ASSOCIATION
    requires o.children == []
    modifies s`objs, s`entered, s`history
    ensures s.Valid()
    ensures s.objs == AddRef(old(s.objs), o.parent, o.handle) + [o]
    ensures s.entered == old(s.entered) + {o.handle} && s.history == old(s.history) + [o.handle]
  {
    hide Inv, Scan, AddRef, Elems, NoDup;
    AddInv(s.objs, o, s.next, s.entered);
    NewHandle(s.objs, o, s.next, s.entered);
    var par := -1;
    if o.parent != ROOT {
      par := Lookup(s.objs, o.parent);
    }
    Reference(s.objs, o, par);
    if par != -1 {
      if o.handle !in s.objs[par].children {
        s.objs := s.objs[par := s.objs[par].(children := s.objs[par].children + [o.handle])];
      }
    }
    s.objs := s.objs + [o];
    Entering(s.history, s.entered, o.handle);
    s.entered, s.history := s.entered + {o.handle}, s.history + [o.handle];
  }

  lemma NewHandle(objs: seq<Obj>, o: Obj, next: nat, entered: set<nat>)
    requires Inv(objs, next, entered) && o.handle !in entered
    ensures Distinct(objs) && forall q :: q in objs ==> q.handle != ROOT && o.handle !in q.children
  {
    hide Scan;
    forall q | q in objs ensures o.handle !in q.children {
      ScanMembers(objs, q.handle, o.handle);
    }
  }

  // Indexing the new object in its parent, if that is listed
  lemma Reference(objs: seq<Obj>, o: Obj, par: int)
    requires Distinct(objs) && forall q :: q in objs ==> q.handle != ROOT
    requires par == -1 <==> o.parent == ROOT || !Listed(objs, o.parent)
    requires par != -1 ==> 0 <= par < |objs| && objs[par].handle == o.parent
    ensures AddRef(objs, o.parent, o.handle)
         == if par == -1 then objs
            else objs[par := objs[par].(children := objs[par].children + [o.handle])]
  {
    assert forall i :: 0 <= i < |objs| ==> objs[i] in objs;
  }

  lemma Entering(history: seq<nat>, entered: set<nat>, h: nat)
    requires entered == Elems(history) && NoDup(history) && h !in entered
    ensures entered + {h} == Elems(history + [h]) && NoDup(history + [h])
  {
    NoDupJoin(history, [h]);
  }

  // ---- Recursive deletion ----

  predicate Matches(fmt: nat, format: nat) {
    (fmt == format || format == FORMAT_ALL || format == FORMAT_NOTUSED)
    && !(format == FORMAT_ALL && fmt == FMT_ASSOCIATION)
  }

  predicate Protected(o: Obj) {
    o.prot == READONLY || o.prot == READONLY_DATA
  }

  ghost predicate NoneProtected(objs: seq<Obj>) {
    forall o :: o in objs ==> !Protected(o)
  }

  lemma DropRefRoot(objs: seq<Obj>, h: nat)
    requires forall o :: o in objs ==> o.handle != ROOT
    ensures DropRef(objs, ROOT, h) == objs
  {
    assert forall i :: 0 <= i < |objs| ==> objs[i] in objs;
  }

  lemma UnprotectedPrune(objs: seq<Obj>, dead: set<nat>)
    ensures NoneProtected(objs) ==> NoneProtected(Prune(objs, dead))
  {
    PruneKeeps(objs, dead);
  }

  lemma PruneThen(objs: seq<Obj>, gone: seq<nat>, g: seq<nat>)
    ensures Prune(Prune(objs, Elems(gone)), Elems(g)) == Prune(objs, Elems(gone + g))
  {
    PruneTwice(objs, Elems(gone), Elems(g));
    assert Elems(gone + g) == Elems(gone) + Elems(g);
  }

  // Nothing stands in the way of deleting everything: no filter, no protection, no failure.
  ghost predicate Unhindered(objs: seq<Obj>, format: nat, faults: nat, faults': nat, cut: bool) {
    format == FORMAT_NOTUSED && faults' == faults && !cut && NoneProtected(objs)
  }

  lemma NothingHeld(objs: seq<Obj>, x: nat)
    requires NoneProtected(objs)
    ensures !Held(objs, x, FORMAT_NOTUSED, {})
  {
    hide InBranch;
  }

  /**
   _entity_remove_object_mtp_store. `gone` lists the descendants that left both the disk and the
   list, in the order they went. The object itself stays listed for the caller to unlink.
   */
  method RemoveObject(s: Store, h: nat, format: nat, atleast0: bool)
    returns (ret: bool, response: nat, atleast: bool, ghost gone: seq<nat>)
    requires s.Valid() && Listed(s.objs, h)
    modifies s`objs, s`log, s`purged, s`faults, s`broken, s`emptied, s`cut
    ensures ret <==> response == OK
    ensures response in {OK, PARTIAL_DELETION, UNDEFINED, GEN_ERROR, ACCESS_DENIED, OBJ_WRITEPROTECTED}
    // only descendants go, each after everything below it; on success all of them go
    ensures Swept(old(s.objs), h, gone)
    ensures ret ==> SweptAll(old(s.objs), h, gone)
    ensures AllMatch(old(s.objs), gone, format) && (ret ==> AllMatch(old(s.objs), [h], format))
    ensures Emptied(old(s.objs), gone, s.emptied) && (ret ==> Emptied(old(s.objs), [h], s.emptied))
    // the list afterwards
    ensures !ret ==> s.objs == Prune(old(s.objs), Elems(gone))
    ensures ret ==> s.objs == DropRef(Prune(old(s.objs), Elems(gone)), Find(old(s.objs), h).parent, h)
    // the disk and the list agree
    ensures s.log == old(s.log) + gone + (if ret then [h] else [])
    // what the outputs mean
    ensures atleast0 || gone != [] ==> atleast
    ensures atleast ==> atleast0 || gone != [] || ret || s.purged > old(s.purged)
    ensures response == PARTIAL_DELETION ==> atleast || s.cut
    ensures response == OBJ_WRITEPROTECTED ==> gone == []
    ensures response == UNDEFINED ==> gone == [] && format != FORMAT_NOTUSED
    ensures response in {GEN_ERROR, ACCESS_DENIED} ==> s.faults > old(s.faults) && h in s.broken
    ensures old(s.cut) ==> s.cut
    ensures s.faults >= old(s.faults) && s.purged >= old(s.purged)
    ensures ret && !atleast ==> Find(old(s.objs), h).fmt == FMT_ASSOCIATION
    // nothing is left that could have gone
    ensures old(s.broken) <= s.broken && (s.faults == old(s.faults) ==> s.broken == old(s.broken))
    ensures old(s.emptied) <= s.emptied
    ensures !s.cut ==> LeftBelow(old(s.objs), h, gone, format, s.broken)
    ensures !s.cut && !ret ==> Held(old(s.objs), h, format, s.broken)
    ensures response == UNDEFINED ==> !Admitted(Find(old(s.objs), h).fmt, format)
    decreases s.next - h, 2
  {
    hide Emptied, Inv, AllMatch, Scan, Swept, SweptAll, Prune, DropRef, Elems, Distinct, Ordered, FoldersOnly, NoDup,
         LeftBelow, Held, Under, BottomUp, Find;
    gone, atleast, ret := [], atleast0, false;
    NothingGone(s.objs, h);
    NoneToMatch(s.objs, format);
    EmptiedNone(s.objs, s.emptied);
    InvBasics(s.objs, s.next, s.entered);
    var stop := Disconnected(s);
    if stop {
      response := PARTIAL_DELETION;
      return;
    }
    var at := Lookup(s.objs, h);
    var o := s.objs[at];
    OneByHandle(s.objs, o);
    if !Matches(o.fmt, format) {
      response := UNDEFINED;
      LeftShut(s.objs, o, format, s.broken);
      KeptHeld(s.objs, o, format, s.broken);
      return;
    }
    var allDel := true;
    if o.fmt == FMT_ASSOCIATION {
      OneMatches(s.objs, o, format);
      response, allDel, atleast, gone := EmptyFolder(s, h, format, atleast);
      if response != OK {
        return;
      }
    } else {
      FileIsLeaf(s.objs, o);
      if Protected(o) {
        response := OBJ_WRITEPROTECTED;
        LeftLeaf(s.objs, h, format, s.broken);
        KeptHeld(s.objs, o, format, s.broken);
        return;
      }
      OneMatches(s.objs, o, format);
      var ok, denied := RemoveFromDisk(s, h);
      LeftLeaf(s.objs, h, format, s.broken);
      if !ok {
        BrokenHeld(s.objs, h, format, s.broken);
        response := if denied then ACCESS_DENIED else GEN_ERROR;
        return;
      }
      atleast := true;
    }
    if allDel {
      response, ret := OK, true;
      EmptiedOne(old(s.objs), o, s.emptied);
      SubtreeGone(old(s.objs), h, gone);
      PruneInv(old(s.objs), Elems(gone), s.next, s.entered);
      InvBasics(s.objs, s.next, s.entered);
      if o.parent != ROOT {
        RemoveReference(s, o.parent, h);
      } else {
        DropRefRoot(s.objs, h);
      }
    } else if atleast {
      response := PARTIAL_DELETION;
    } else {
      response := OBJ_WRITEPROTECTED;
    }
  }

  // A folder: its children go, or, when none is listed, whatever it holds on the disk; then it goes.
  // The answer OK lets the removal go on.
  method EmptyFolder(s: Store, h: nat, format: nat, atleast0: bool)
    returns (response: nat, allDel: bool, atleast: bool, ghost gone: seq<nat>)
    requires s.Valid() && Listed(s.objs, h)
    modifies s`objs, s`log, s`purged, s`faults, s`broken, s`emptied, s`cut
    ensures response in {OK, PARTIAL_DELETION, GEN_ERROR, ACCESS_DENIED}
    ensures Swept(old(s.objs), h, gone) && AllMatch(old(s.objs), gone, format)
    ensures Emptied(old(s.objs), gone, s.emptied)
    ensures response == OK && allDel ==> forall c :: c in Scan(old(s.objs), h) ==> c in gone
    ensures response == OK && allDel && Scan(old(s.objs), h) == [] ==> h in s.emptied
    ensures s.objs == Prune(old(s.objs), Elems(gone))
    ensures s.log == old(s.log) + gone + (if response == OK && allDel then [h] else [])
    ensures Books(atleast0, atleast, gone, old(s.purged), s.purged)
    ensures response == PARTIAL_DELETION ==> s.cut
    ensures response in {GEN_ERROR, ACCESS_DENIED} ==> s.faults > old(s.faults) && h in s.broken
    ensures Marks(old(s.cut), s.cut, old(s.faults), s.faults, old(s.broken), s.broken, old(s.emptied), s.emptied)
    ensures !s.cut ==> LeftBelow(old(s.objs), h, gone, format, s.broken)
    ensures !s.cut && !(response == OK && allDel) ==> Held(old(s.objs), h, format, s.broken)
    decreases s.next - h, 1
  {
    hide Emptied, Inv, AllMatch, Scan, Swept, Prune, Elems, NoDup, LeftBelow, Held, Under, BottomUp, NoneProtected,
         Find;
    response, allDel, atleast, gone := OK, true, atleast0, [];
    NothingGone(s.objs, h);
    NoneToMatch(s.objs, format);
    BelowNext(s.objs, s.next, s.entered, h);
    var kids := ChildHandles(s.objs, h);
    if kids != [] {
      var go;
      go, allDel, atleast, gone := RemoveChildren(s, h, kids, format, atleast);
      if !go {
        response := PARTIAL_DELETION;
        return;
      }
    } else {
      var purge, deleted, total := PurgeFolder(s, h);
      EmptiedNone(s.objs, s.emptied);
      LeftLeaf(s.objs, h, format, s.broken);
      if h in s.broken {
        BrokenHeld(s.objs, h, format, s.broken);
      }
      if purge.PurgeError? || purge.PurgeDenied? {
        response := if purge.PurgeDenied? then ACCESS_DENIED else GEN_ERROR;
        return;
      }
      if total != 0 && deleted == 0 {
        allDel := false;
      } else if deleted < total {
        atleast := true;
        allDel := false;
      }
    }
    if allDel {
      ghost var broken := s.broken;
      var ok, denied := RemoveFromDisk(s, h);
      if !s.cut {
        LeftMore(old(s.objs), h, gone, format, broken, s.broken);
      }
      if !ok {
        BrokenHeld(old(s.objs), h, format, s.broken);
        response := if denied then ACCESS_DENIED else GEN_ERROR;
      }
    }
  }

  lemma BelowNext(objs: seq<Obj>, next: nat, entered: set<nat>, h: nat)
    requires Inv(objs, next, entered) && Listed(objs, h)
    ensures h < next
  {
  }

  // The loop over the children of a folder. `go` is false when a disconnect ended it.
  method RemoveChildren(s: Store, h: nat, kids: seq<nat>, format: nat, atleast0: bool)
    returns (go: bool, allDel: bool, atleast: bool, ghost gone: seq<nat>)
    requires s.Valid() && kids == Scan(s.objs, h) && h < s.next
    modifies s`objs, s`log, s`purged, s`faults, s`broken, s`emptied, s`cut
    ensures Swept(old(s.objs), h, gone) && AllMatch(old(s.objs), gone, format)
    ensures Emptied(old(s.objs), gone, s.emptied)
    ensures go && allDel ==> forall c :: c in kids ==> c in gone
    ensures s.objs == Prune(old(s.objs), Elems(gone)) && s.log == old(s.log) + gone
    ensures Books(atleast0, atleast, gone, old(s.purged), s.purged)
    ensures !go ==> s.cut
    ensures Marks(old(s.cut), s.cut, old(s.faults), s.faults, old(s.broken), s.broken, old(s.emptied), s.emptied)
    // the children after one that could not go have had their turn
    ensures !s.cut ==> LeftBelow(old(s.objs), h, gone, format, s.broken)
    ensures !s.cut && !allDel ==> Held(old(s.objs), h, format, s.broken)
    decreases s.next - h, 0
  {
    hide Emptied, Inv, AllMatch, Scan, Swept, SweptAll, Survivors, Under, Prune, DropRef, Drop, Elems, Distinct,
         Ordered, NoneProtected, Find, NoDup, FoldersOnly, LeftBelow, Held, BottomUp, Admitted, Listed, InBranch, Link,
         SweepAt, LeftAt, Books, Marks;
    go, allDel, atleast, gone := true, true, atleast0, [];
    ghost var before := s.objs;
    InvBasics(before, s.next, s.entered);
    SweepStart(before, h, kids, format, s.broken, s.emptied);
    BooksStart(atleast0, s.purged, s.cut, s.faults, s.broken, s.emptied);
    var i := 0;
    while i < |kids|
      invariant 0 <= i <= |kids| && go
      invariant s.Valid() && SweepAt(before, h, kids, i, gone, format, allDel, s.objs, s.emptied)
      invariant s.log == old(s.log) + gone
      invariant Books(atleast0, atleast, gone, old(s.purged), s.purged)
      invariant Marks(old(s.cut), s.cut, old(s.faults), s.faults, old(s.broken), s.broken, old(s.emptied), s.emptied)
      invariant !s.cut ==> LeftAt(before, h, kids, i, gone, format, s.broken, allDel)
    {
      SweepNow(before, h, kids, i, gone, format, allDel, s.objs, s.emptied);
      var stop := Poll(s, old(s.cut), old(s.faults), old(s.broken), old(s.emptied));
      if stop {
        go := false;
        return;
      }
      var at := Lookup(s.objs, kids[i]);
      if at != -1 {
        KidAbove(before, h, kids, i);
        ghost var mid, broken, faults, purged, cut := s.objs, s.broken, s.faults, s.purged, s.cut;
        ghost var had, emptied := atleast, s.emptied;
        InvBasics(mid, s.next, s.entered);
        var r, resp;
        ghost var g, below;
        r, resp, atleast, g, below := Remove(s, kids[i], format, atleast);
        BooksThen(atleast0, had, gone, old(s.purged), purged, atleast || r, g, s.purged);
        MarksThen(old(s.cut), cut, old(s.faults), faults, old(s.broken), broken, old(s.emptied), emptied, s.cut,
                  s.faults, s.broken, s.emptied);
        Turn(before, h, kids, i, gone, mid, g, below, r, format, allDel, emptied, s.emptied);
        if !s.cut {
          TurnLeft(before, h, kids, i, gone, mid, g, below, r, format, broken, s.broken, allDel, emptied);
        }
        gone := gone + g;
        if r {
          atleast := true;
        } else {
          allDel := false;
          SweepNow(before, h, kids, i + 1, gone, format, allDel, s.objs, s.emptied);
          var stopped := Poll(s, old(s.cut), old(s.faults), old(s.broken), old(s.emptied));
          if stopped {
            go := false;
            return;
          }
        }
      } else {
        TurnMissing(before, h, kids, i, gone, format, allDel, s.objs, s.emptied);
        if !s.cut {
          LeftMissing(before, h, kids, i, gone, format, s.broken, allDel);
        }
      }
      i := i + 1;
    }
    SweepNow(before, h, kids, i, gone, format, allDel, s.objs, s.emptied);
    if !s.cut {
      LeftDone(before, h, gone, format, s.broken, allDel);
    }
  }

  // The state of the loop before the i-th turn
  ghost predicate SweepAt(before: seq<Obj>, h: nat, kids: seq<nat>, i: int, gone: seq<nat>, format: nat, allDel: bool,
                          now: seq<Obj>, emptied: set<nat>)
  {
    && 0 <= i <= |kids| && kids == Scan(before, h) && Ordered(before)
    && Swept(before, h, gone) && AllMatch(before, gone, format) && now == Prune(before, Elems(gone))
    && Emptied(before, gone, emptied)
    && (allDel ==> forall k :: 0 <= k < i ==> kids[k] in gone)
  }

  // Whether anything was deleted, as the answer will tell it
  ghost predicate Books(atleast0: bool, atleast: bool, gone: seq<nat>, purged0: nat, purged: nat) {
    && (atleast0 || gone != [] ==> atleast)
    && (atleast ==> atleast0 || gone != [] || purged > purged0) && purged >= purged0
  }

  lemma BooksStart(atleast: bool, purged: nat, cut: bool, faults: nat, broken: set<nat>, emptied: set<nat>)
    ensures Books(atleast, atleast, [], purged, purged)
    ensures Marks(cut, cut, faults, faults, broken, broken, emptied, emptied)
  {
  }

  lemma BooksThen(a0: bool, a1: bool, gone: seq<nat>, p0: nat, p1: nat, a2: bool, g: seq<nat>, p2: nat)
    requires Books(a0, a1, gone, p0, p1) && Books(a1, a2, g, p1, p2)
    ensures Books(a0, a2, gone + g, p0, p2)
  {
  }

  // Disconnects and failures add up; without a failure no removal is broken.
  ghost predicate Marks(cut0: bool, cut: bool, faults0: nat, faults: nat, broken0: set<nat>, broken: set<nat>,
                        emptied0: set<nat>, emptied: set<nat>)
  {
    && (cut0 ==> cut) && faults >= faults0 && broken0 <= broken && emptied0 <= emptied
    && (faults == faults0 ==> broken == broken0)
  }

  lemma MarksThen(c0: bool, c1: bool, f0: nat, f1: nat, b0: set<nat>, b1: set<nat>, e0: set<nat>, e1: set<nat>,
                  c2: bool, f2: nat, b2: set<nat>, e2: set<nat>)
    requires Marks(c0, c1, f0, f1, b0, b1, e0, e1) && Marks(c1, c2, f1, f2, b1, b2, e1, e2)
    ensures Marks(c0, c2, f0, f2, b0, b2, e0, e2) && b1 <= b2 && e1 <= e2 && (c1 ==> c2)
  {
  }

  // A poll in the middle of a deletion
  method Poll(s: Store, ghost cut0: bool, ghost faults0: nat, ghost broken0: set<nat>, ghost emptied0: set<nat>)
    returns (b: bool)
    requires Marks(cut0, s.cut, faults0, s.faults, broken0, s.broken, emptied0, s.emptied)
    modifies s`cut
    ensures s.cut == (old(s.cut) || b) && Marks(cut0, s.cut, faults0, s.faults, broken0, s.broken, emptied0, s.emptied)
  {
    b := Disconnected(s);
  }

  // ... and the account of what the turns have left
  ghost predicate LeftAt(before: seq<Obj>, h: nat, kids: seq<nat>, i: int, gone: seq<nat>, format: nat,
                         broken: set<nat>, allDel: bool)
  {
    && 0 <= i <= |kids| && LeftIn(before, h, kids, i, gone, format, broken)
    && (!allDel ==> Held(before, h, format, broken))
  }

  lemma SweepStart(objs: seq<Obj>, h: nat, kids: seq<nat>, format: nat, broken: set<nat>, emptied: set<nat>)
    requires kids == Scan(objs, h) && Ordered(objs)
    ensures SweepAt(objs, h, kids, 0, [], format, true, objs, emptied)
            && LeftAt(objs, h, kids, 0, [], format, broken, true)
  {
    hide Swept, AllMatch, Prune, Elems, Scan, Ordered, Held, Emptied;
    NothingGone(objs, h);
    NoneToMatch(objs, format);
    EmptiedNone(objs, emptied);
    LeftNone(objs, h, kids, [], format, broken);
  }

  lemma SweepNow(before: seq<Obj>, h: nat, kids: seq<nat>, i: int, gone: seq<nat>, format: nat, allDel: bool,
                 now: seq<Obj>, emptied: set<nat>)
    requires SweepAt(before, h, kids, i, gone, format, allDel, now, emptied)
    ensures Swept(before, h, gone) && AllMatch(before, gone, format) && now == Prune(before, Elems(gone))
    ensures Emptied(before, gone, emptied)
    ensures allDel && i == |kids| ==> forall c :: c in kids ==> c in gone
  {
    hide Swept, AllMatch, Prune, Elems, Scan, Ordered, Emptied;
  }

  lemma KidAbove(objs: seq<Obj>, h: nat, kids: seq<nat>, i: nat)
    requires i < |kids| && kids == Scan(objs, h) && Ordered(objs)
    ensures h < kids[i]
  {
    hide Scan, Ordered;
    ChildUnder(objs, h, kids[i]);
    UnderAbove(objs, h, kids[i]);
  }

  // Remove a listed object and unlink it when it went. `below` is what went below it, `gone` all that went.
  method Remove(s: Store, h: nat, format: nat, atleast0: bool)
    returns (ret: bool, response: nat, atleast: bool, ghost gone: seq<nat>, ghost below: seq<nat>)
    requires s.Valid() && Listed(s.objs, h)
    modifies s`objs, s`log, s`purged, s`faults, s`broken, s`emptied, s`cut
    ensures s.Valid()
    ensures ret <==> response == OK
    ensures response in {OK, PARTIAL_DELETION, UNDEFINED, GEN_ERROR, ACCESS_DENIED, OBJ_WRITEPROTECTED}
    ensures gone == below + (if ret then [h] else []) && h !in below
    ensures Swept(old(s.objs), h, below) && (ret ==> SweptAll(old(s.objs), h, below))
    ensures AllMatch(old(s.objs), gone, format) && Emptied(old(s.objs), gone, s.emptied)
    ensures s.objs == Prune(old(s.objs), Elems(gone)) && s.log == old(s.log) + gone
    ensures Books(atleast0, atleast || ret, gone, old(s.purged), s.purged)
    ensures response == PARTIAL_DELETION ==> atleast || s.cut
    ensures response == OBJ_WRITEPROTECTED ==> gone == []
    ensures response == UNDEFINED ==> gone == [] && format != FORMAT_NOTUSED
    ensures response in {GEN_ERROR, ACCESS_DENIED} ==> s.faults > old(s.faults) && h in s.broken
    ensures Marks(old(s.cut), s.cut, old(s.faults), s.faults, old(s.broken), s.broken, old(s.emptied), s.emptied)
    ensures !s.cut ==> LeftBelow(old(s.objs), h, below, format, s.broken)
    ensures !s.cut && !ret ==> Held(old(s.objs), h, format, s.broken)
    decreases s.next - h, 3
  {
    hide Emptied, Inv, AllMatch, Scan, Swept, SweptAll, Under, Prune, DropRef, Drop, Elems, Distinct, Ordered,
         NoneProtected, Find, NoDup, FoldersOnly, LeftBelow, Held, Admitted;
    InvBasics(s.objs, s.next, s.entered);
    ret, response, atleast, below := RemoveObject(s, h, format, atleast0);
    NotBelowItself(old(s.objs), h, below);
    gone := below;
    if ret {
      UnlinkAfter(old(s.objs), h, below, s.next, s.entered);
      DeleteNode(s, h);
      TopMatches(old(s.objs), below, h, format);
      EmptiedTop(old(s.objs), below, h, s.emptied);
      gone := below + [h];
    }
    PruneInv(old(s.objs), Elems(gone), s.next, s.entered);
  }

  // What the turn of one child adds to the sweep below h
  lemma Turn(before: seq<Obj>, h: nat, kids: seq<nat>, i: nat, gone: seq<nat>, mid: seq<Obj>, g: seq<nat>,
             below: seq<nat>, r: bool, format: nat, allDel: bool, emptied: set<nat>, more: set<nat>)
    requires i < |kids| && SweepAt(before, h, kids, i, gone, format, allDel, mid, emptied)
    requires Emptied(mid, g, more) && emptied <= more
    requires Listed(mid, kids[i]) && Ordered(mid) && g == below + (if r then [kids[i]] else [])
    requires Swept(mid, kids[i], below) && (r ==> SweptAll(mid, kids[i], below)) && AllMatch(mid, g, format)
    ensures SweepAt(before, h, kids, i + 1, gone + g, format, allDel && r, Prune(mid, Elems(g)), more)
  {
    hide Emptied, Swept, SweptAll, AllMatch, Prune, Elems, Under, Listed, Ordered, Survivors, Scan;
    ChildUnder(before, h, kids[i]);
    PruneSurvivors(before, Elems(gone));
    if r {
      SweptThenTop(before, h, gone, mid, kids[i], below);
    } else {
      assert g == below;
      SweptThen(before, h, gone, mid, kids[i], below);
    }
    MatchThen(before, gone, g, format);
    EmptiedThen(before, gone, g, emptied, more);
    PruneThen(before, gone, g);
  }

  // ... and to the account of what is left below it
  lemma TurnLeft(before: seq<Obj>, h: nat, kids: seq<nat>, i: nat, gone: seq<nat>, mid: seq<Obj>, g: seq<nat>,
                 below: seq<nat>, r: bool, format: nat, broken: set<nat>, more: set<nat>, allDel: bool,
                 emptied: set<nat>)
    requires i < |kids| && SweepAt(before, h, kids, i, gone, format, allDel, mid, emptied) && broken <= more
    requires g == below + (if r then [kids[i]] else [])
    requires LeftAt(before, h, kids, i, gone, format, broken, allDel)
    requires LeftBelow(mid, kids[i], below, format, more) && (!r ==> Held(mid, kids[i], format, more))
    ensures LeftAt(before, h, kids, i + 1, gone + g, format, more, allDel && r)
  {
    hide Prune, Elems, BottomUp, Under, LeftIn, Held, NoDup, Scan, AllMatch, Ordered, Emptied;
    ChildUnder(before, h, kids[i]);
    assert LeftBelow(mid, kids[i], g, format, more);
    LeftNext(before, h, kids, i, gone, g, format, broken, more);
    if !allDel {
      HeldMore(before, h, format, broken, more);
    } else if !r {
      HeldBefore(before, Elems(gone), kids[i], format, more);
      HeldAbove(before, h, kids[i], format, more);
    }
  }

  // The turn of a child that is no longer listed
  lemma TurnMissing(before: seq<Obj>, h: nat, kids: seq<nat>, i: nat, gone: seq<nat>, format: nat, allDel: bool,
                    now: seq<Obj>, emptied: set<nat>)
    requires i < |kids| && SweepAt(before, h, kids, i, gone, format, allDel, now, emptied) && !Listed(now, kids[i])
    ensures SweepAt(before, h, kids, i + 1, gone, format, allDel, now, emptied)
    ensures kids[i] in gone && BottomUp(before, gone)
  {
    hide Emptied, AllMatch, Prune, Elems, Listed, Ordered, Survivors, Scan, BottomUp, NoDup;
    PruneSurvivors(before, Elems(gone));
    MissingIsGone(before, gone, now, h, kids[i]);
  }

  lemma LeftMissing(before: seq<Obj>, h: nat, kids: seq<nat>, i: nat, gone: seq<nat>, format: nat, broken: set<nat>,
                    allDel: bool)
    requires i < |kids| && LeftAt(before, h, kids, i, gone, format, broken, allDel)
    requires BottomUp(before, gone) && kids[i] in gone
    ensures LeftAt(before, h, kids, i + 1, gone, format, broken, allDel)
  {
    hide LeftIn, Held, BottomUp;
    LeftGone(before, h, kids, i, gone, format, broken);
  }

  lemma LeftDone(before: seq<Obj>, h: nat, gone: seq<nat>, format: nat, broken: set<nat>, allDel: bool)
    requires LeftAt(before, h, Scan(before, h), |Scan(before, h)|, gone, format, broken, allDel)
    ensures LeftBelow(before, h, gone, format, broken) && (!allDel ==> Held(before, h, format, broken))
  {
    hide LeftIn, Held, Scan, LeftBelow;
    LeftAll(before, h, gone, format, broken);
  }

  lemma OneByHandle(objs: seq<Obj>, o: Obj)
    requires Distinct(objs) && o in objs
    ensures Listed(objs, o.handle) && Find(objs, o.handle) == o
  {
  }

  // ---- Deleting by handle ----

  /**
   _entity_delete_obj_mtp_store for one handle. The answer OK does not mean that the object is
   gone: a failed removal that was not refused for lack of permission also ends in OK. `inner` is
   what the removal itself answered, and tells the two apart.
   */
  method DeleteHandle(s: Store, h: nat) returns (response: nat, ghost gone: seq<nat>, ghost inner: nat)
    requires s.Valid()
    modifies s`objs, s`log, s`purged, s`faults, s`broken, s`emptied, s`cut
    ensures s.Valid()
    ensures Removal(old(s.objs), gone) && forall x :: x in gone ==> x == h || Under(old(s.objs), h, x)
    ensures AllMatch(old(s.objs), gone, FORMAT_NOTUSED) && Emptied(old(s.objs), gone, s.emptied)
    ensures s.objs == Prune(old(s.objs), Elems(gone)) && s.log == old(s.log) + gone
    ensures s.faults >= old(s.faults) && s.purged >= old(s.purged)
    ensures s.readOnly <==> response == STORE_READONLY
    ensures response in {OK, PARTIAL_DELETION, OBJ_WRITEPROTECTED, ACCESS_DENIED, STORE_READONLY}
    ensures response == PARTIAL_DELETION ==> h !in gone && (s.cut || gone != [] || s.purged > old(s.purged))
    ensures response in {OBJ_WRITEPROTECTED, ACCESS_DENIED, STORE_READONLY} ==> s.objs == old(s.objs)
    ensures Listed(old(s.objs), h) && !s.readOnly ==>
      && (h in gone <==> inner == OK) && (response == OK <==> inner == OK || inner == GEN_ERROR)
      && (inner == GEN_ERROR ==> s.faults > old(s.faults))
      && (inner == GEN_ERROR || response == ACCESS_DENIED ==> h in s.broken)
      && (h !in gone && h !in s.broken && gone != [] ==> response == PARTIAL_DELETION)
      && (h !in gone && h !in s.broken && gone == [] && s.purged == old(s.purged) && !s.cut ==>
            response == OBJ_WRITEPROTECTED)
    ensures Listed(old(s.objs), h) && !s.readOnly
            && Unhindered(old(s.objs), FORMAT_NOTUSED, old(s.faults), s.faults, s.cut)
            ==> response == OK && h in gone
    ensures s.faults == old(s.faults) ==> s.broken == {}
    ensures Listed(old(s.objs), h) && !s.readOnly && !s.cut ==>
      forall x :: InBranch(old(s.objs), h, x) && x !in gone ==> Held(old(s.objs), x, FORMAT_NOTUSED, s.broken)
  {
    hide Emptied, LeftBelow, Held, Inv, AllMatch, Scan, Swept, SweptAll, Under, Prune, DropRef, Drop, Elems, Distinct,
         Ordered, NoneProtected, Find, NoDup, FoldersOnly, Removal;
    s.cut, s.broken, s.emptied := false, {}, {};
    gone, inner := [], OK;
    NothingGone(s.objs, h);
    NoneToMatch(s.objs, FORMAT_NOTUSED);
    EmptiedNone(s.objs, s.emptied);
    SweptIsRemoval(s.objs, h, []);
    if s.readOnly {
      return STORE_READONLY, gone, inner;
    }
    var at := Lookup(s.objs, h);
    if at == -1 {
      return OK, gone, inner;
    }
    var ret, atleast;
    ghost var below;
    ret, response, atleast, gone, below := Remove(s, h, FORMAT_NOTUSED, false);
    inner := response;
    if !s.cut {
      LeftHeld(old(s.objs), h, below, s.broken);
    }
    if NoneProtected(old(s.objs)) {
      NothingHeld(old(s.objs), h);
    }
    InvBasics(old(s.objs), s.next, s.entered);
    SweptBelow(old(s.objs), h, below);
    SweptIsRemoval(old(s.objs), h, below);
    assert !ret ==> gone == below;
    var allDel := ret || response !in {PARTIAL_DELETION, OBJ_WRITEPROTECTED, ACCESS_DENIED};
    if allDel {
      response := OK;
    } else if atleast {
      response := PARTIAL_DELETION;
    }
  }

  lemma SweptBelow(objs: seq<Obj>, h: nat, gone: seq<nat>)
    requires Swept(objs, h, gone)
    ensures forall x :: x in gone ==> Under(objs, h, x)
  {
  }

  /** _entity_delete_obj_mtp_store for all handles: one walk along the list, which changes below it. */
  method DeleteAll(s: Store, format: nat) returns (response: nat, ghost gone: seq<nat>)
    requires s.Valid()
    modifies s`objs, s`log, s`purged, s`faults, s`broken, s`emptied, s`cut
    ensures s.Valid()
    ensures Removal(old(s.objs), gone) && AllMatch(old(s.objs), gone, format)
    ensures Emptied(old(s.objs), gone, s.emptied)
    ensures s.objs == Prune(old(s.objs), Elems(gone)) && s.log == old(s.log) + gone
    ensures s.faults >= old(s.faults) && s.purged >= old(s.purged)
    ensures s.readOnly <==> response == STORE_READONLY
    ensures s.readOnly ==> s.objs == old(s.objs)
    ensures !s.readOnly && Unhindered(old(s.objs), format, old(s.faults), s.faults, s.cut)
            ==> response == OK && s.objs == []
    // nothing is left that could have gone
    ensures s.faults == old(s.faults) ==> s.broken == {}
    ensures !s.readOnly && !s.cut ==> forall o :: o in s.objs ==> Held(old(s.objs), o.handle, format, s.broken)
    // what the answers mean; an empty folder goes without being counted
    ensures response == PARTIAL_DELETION ==> gone != [] || s.purged > old(s.purged) || s.cut
    ensures response in {OBJ_WRITEPROTECTED, ACCESS_DENIED} ==> AllFolders(old(s.objs), gone)
    ensures response in {UNDEFINED, GEN_ERROR} && !s.cut ==> AllFolders(old(s.objs), gone)
    ensures response in {OK, PARTIAL_DELETION, OBJ_WRITEPROTECTED, ACCESS_DENIED, STORE_READONLY, UNDEFINED, GEN_ERROR}
    ensures !s.readOnly && response == OK && !s.cut && s.faults == old(s.faults) ==>
      || NoneAdmitted(s.objs, format)
      || (gone != [] && AllFolders(old(s.objs), gone))
  {
    hide Emptied, LeftBelow, Held, AllFolders, Inv, AllMatch, Scan, Swept, SweptAll, Under, Prune, DropRef, Drop,
         Elems, Distinct, Ordered, NoneProtected, FromFirst, Admitted, Find, NoDup, FoldersOnly, Removal, Survivors;
    s.cut, s.broken, s.emptied := false, {}, {};
    gone := [];
    ghost var before := s.objs;
    NothingGone(before, 0);
    NoneToMatch(before, format);
    EmptiedNone(before, s.emptied);
    SweptIsRemoval(before, 0, []);
    if s.readOnly {
      return STORE_READONLY, gone;
    }
    var allDel, atleast, i := true, false, 0;
    response := OK;
    NoneFolders(before);
    while i < |s.objs|
      invariant 0 <= i <= |s.objs|
      invariant s.objs == Prune(before, Elems(gone)) && s.log == old(s.log) + gone
      invariant Inv(s.objs, s.next, s.entered) && Removal(before, gone) && AllMatch(before, gone, format)
      invariant s.faults >= old(s.faults) && s.purged >= old(s.purged)
      invariant Unhindered(before, format, old(s.faults), s.faults, s.cut) ==> i == 0 && allDel
      invariant response in {OK, PARTIAL_DELETION, UNDEFINED, GEN_ERROR, ACCESS_DENIED, OBJ_WRITEPROTECTED}
      invariant s.faults == old(s.faults) ==> s.broken == {}
      invariant !s.cut ==> WalkedHeld(before, s.objs, i, format, s.broken)
      invariant allDel && !s.cut && s.faults == old(s.faults) ==> WalkedOut(s.objs, i, format)
      invariant atleast ==> gone != [] || s.purged > old(s.purged)
      invariant !atleast ==> AllFolders(before, gone)
      invariant Emptied(before, gone, s.emptied)
      invariant response == PARTIAL_DELETION ==> atleast || s.cut
      invariant !allDel && response == OK ==> gone != []
      decreases |s.objs| - i
    {
      var stop := Disconnected(s);
      if stop {
        return GEN_ERROR, gone;
      }
      ghost var mid, i0, h, broken, was := s.objs, i, s.objs[i].handle, s.broken, gone;
      ghost var emptied := s.emptied;
      UnprotectedPrune(before, Elems(gone));
      var ret;
      ghost var g;
      ret, response, atleast, i, g := DeleteAt(s, i, format, atleast);
      PruneSurvivors(before, Elems(gone));
      if NoneProtected(before) {
        NothingHeld(mid, h);
      }
      RemovalThen(before, gone, mid, g);
      MatchThen(before, gone, g, format);
      EmptiedThen(before, gone, g, emptied, s.emptied);
      PruneThen(before, gone, g);
      gone := gone + g;
      if !s.cut {
        HeldWalk(before, Elems(was), mid, i0, s.objs, i, ret, format, broken, s.broken);
      }
      OutWalk(mid, i0, s.objs, i, ret, format);
      if !atleast {
        FoldersThen(before, was, g);
      }
      if response in {PARTIAL_DELETION, OBJ_WRITEPROTECTED, ACCESS_DENIED} {
        allDel := false;
      }
    }
    assert !s.cut ==> forall o :: o in s.objs ==> Held(before, o.handle, format, s.broken);
    if allDel {
      response := OK;
    } else if atleast {
      response := PARTIAL_DELETION;
    }
  }

  // All that the walk has passed is held.
  ghost predicate WalkedHeld(before: seq<Obj>, objs: seq<Obj>, i: int, format: nat, broken: set<nat>) {
    0 <= i <= |objs| && forall j :: 0 <= j < i ==> Held(before, objs[j].handle, format, broken)
  }

  // All that the walk has passed is of other formats.
  ghost predicate WalkedOut(objs: seq<Obj>, i: int, format: nat) {
    0 <= i <= |objs| && forall j :: 0 <= j < i ==> !Admitted(objs[j].fmt, format)
  }

  ghost predicate NoneAdmitted(objs: seq<Obj>, format: nat) {
    forall o :: o in objs ==> !Admitted(o.fmt, format)
  }

  ghost predicate AllFolders(objs: seq<Obj>, gone: seq<nat>) {
    forall o :: o in objs && o.handle in gone ==> o.fmt == FMT_ASSOCIATION
  }

  lemma NoneFolders(objs: seq<Obj>)
    ensures AllFolders(objs, [])
  {
  }

  lemma FoldersThen(objs: seq<Obj>, gone: seq<nat>, g: seq<nat>)
    requires AllFolders(objs, gone) && AllFolders(Prune(objs, Elems(gone)), g)
    ensures AllFolders(objs, gone + g)
  {
    PruneKeeps(objs, Elems(gone));
    forall o | o in objs && o.handle in gone + g ensures o.fmt == FMT_ASSOCIATION {
      if o.handle !in gone {
        assert o.(children := Minus(o.children, Elems(gone))) in Prune(objs, Elems(gone));
      }
    }
  }

  lemma HeldWalk(before: seq<Obj>, dead: set<nat>, mid: seq<Obj>, i: int, objs: seq<Obj>, i': int, ret: bool,
                 format: nat, broken: set<nat>, more: set<nat>)
    requires WalkedHeld(before, mid, i, format, broken) && FromFirst(objs, i', mid, if ret then i else i + 1)
             && broken <= more
    requires mid == Prune(before, dead) && (!ret ==> i < |mid| && Held(mid, mid[i].handle, format, more))
    ensures WalkedHeld(before, objs, i', format, more)
  {
    hide Held, Prune;
    forall j | 0 <= j < i' ensures Held(before, objs[j].handle, format, more) {
      assert AmongFirst(objs[j], mid, if ret then i else i + 1);
      var n :| 0 <= n < (if ret then i else i + 1) && SameKind(objs[j], mid[n]);
      if n < i {
        HeldMore(before, mid[n].handle, format, broken, more);
      } else {
        HeldBefore(before, dead, mid[i].handle, format, more);
      }
    }
  }

  lemma OutWalk(mid: seq<Obj>, i: int, objs: seq<Obj>, i': int, ret: bool, format: nat)
    requires FromFirst(objs, i', mid, if ret then i else i + 1)
    ensures WalkedOut(mid, i, format) && (!ret ==> !Admitted(mid[i].fmt, format)) ==> WalkedOut(objs, i', format)
  {
    hide Admitted;
    if WalkedOut(mid, i, format) && (!ret ==> !Admitted(mid[i].fmt, format)) {
      forall j | 0 <= j < i' ensures !Admitted(objs[j].fmt, format) {
        assert AmongFirst(objs[j], mid, if ret then i else i + 1);
        var n :| 0 <= n < (if ret then i else i + 1) && SameKind(objs[j], mid[n]);
      }
    }
  }

  // The turn of the object at position i; the walk goes on at i'.
  method DeleteAt(s: Store, i: nat, format: nat, atleast0: bool)
    returns (ret: bool, response: nat, atleast: bool, i': nat, ghost gone: seq<nat>)
    requires s.Valid() && i < |s.objs|
    modifies s`objs, s`log, s`purged, s`faults, s`broken, s`emptied, s`cut
    ensures s.Valid()
    ensures ret <==> response == OK
    ensures response in {OK, PARTIAL_DELETION, UNDEFINED, GEN_ERROR, ACCESS_DENIED, OBJ_WRITEPROTECTED}
    ensures Removal(old(s.objs), gone) && AllMatch(old(s.objs), gone, format) && (ret ==> gone != [])
    ensures Emptied(old(s.objs), gone, s.emptied)
    ensures s.objs == Prune(old(s.objs), Elems(gone)) && s.log == old(s.log) + gone
    ensures FromFirst(s.objs, i', old(s.objs), if ret then i else i + 1) && |s.objs| - i' < |old(s.objs)| - i
            && (ret ==> i' <= i)
    ensures i' <= |s.objs|
    ensures atleast0 ==> atleast
    ensures atleast ==> atleast0 || gone != [] || s.purged > old(s.purged)
    ensures !atleast ==> AllFolders(old(s.objs), gone)
    ensures response == PARTIAL_DELETION ==> atleast || s.cut
    ensures response == UNDEFINED ==> !Admitted(old(s.objs)[i].fmt, format)
    ensures response in {GEN_ERROR, ACCESS_DENIED} ==> s.faults > old(s.faults)
    ensures old(s.cut) ==> s.cut
    ensures s.faults >= old(s.faults) && s.purged >= old(s.purged)
    ensures old(s.broken) <= s.broken && (s.faults == old(s.faults) ==> s.broken == old(s.broken))
    ensures old(s.emptied) <= s.emptied
    ensures !s.cut && !ret ==> Held(old(s.objs), old(s.objs)[i].handle, format, s.broken)
  {
    hide Emptied, LeftBelow, Held, AllFolders, NoneAdmitted, Inv, AllMatch, Scan, Swept, SweptAll, Under, Prune,
         DropRef, Drop, Elems, Distinct, Ordered, NoneProtected, Find, NoDup, FoldersOnly, Removal, Survivors,
         FromFirst, Admitted;
    ghost var mid := s.objs;
    var h := s.objs[i].handle;
    assert s.objs[i] in s.objs;
    InvBasics(mid, s.next, s.entered);
    OneByHandle(mid, mid[i]);
    ret, response, atleast, gone := RemoveObject(s, h, format, atleast0);
    SweptIsRemoval(mid, h, gone);
    NotBelowItself(mid, h, gone);
    NotDead(gone, h);
    ghost var k := PrunePosition(mid, i, Elems(gone));
    var at := Lookup(s.objs, h);
    PositionAgrees(mid, at, k, gone, h, s.objs, ret, s.next, s.entered);
    WalkedOn(mid, i, Elems(gone), k, s.objs, mid[i].parent, h, ret);
    i' := at;
    if !atleast {
      LoneFolder(mid, mid[i], gone);
    }
    if ret {
      UnlinkAfter(mid, h, gone, s.next, s.entered);
      DropLength(s.objs, at);
      DeleteNode(s, h);
      TopMatches(mid, gone, h, format);
      EmptiedTop(mid, gone, h, s.emptied);
      gone := gone + [h];
    } else {
      i' := at + 1;
    }
    PruneInv(mid, Elems(gone), s.next, s.entered);
  }

  lemma LoneFolder(objs: seq<Obj>, o: Obj, gone: seq<nat>)
    requires Distinct(objs) && o in objs && gone == []
    ensures AllFolders(objs, gone) && (o.fmt == FMT_ASSOCIATION ==> AllFolders(objs, gone + [o.handle]))
  {
  }

  // What stands before the place of the object under deletion, once it has been unlinked or passed
  lemma WalkedOn(mid: seq<Obj>, i: nat, dead: set<nat>, k: nat, after: seq<Obj>, p: nat, h: nat, ret: bool)
    requires i < |mid| && k < |Prune(mid, dead)| && k <= i
    requires FromFirst(Prune(mid, dead), k, mid, i)
    requires after == if ret then DropRef(Prune(mid, dead), p, h) else Prune(mid, dead)
    requires Distinct(after) && k < |after| && after[k].handle == h && SameKind(Prune(mid, dead)[k], mid[i])
    ensures if ret then FromFirst(Drop(after, {h}), k, mid, i) else FromFirst(after, k + 1, mid, i + 1)
  {
    hide Prune, Drop;
    if ret {
      DropOne(after, k);
      WalkedPast(Prune(mid, dead), k, mid, i, after[..k] + after[k + 1..]);
    } else {
      forall j | 0 <= j < k + 1 ensures AmongFirst(after[j], mid, i + 1) {
        if j < k {
          assert AmongFirst(Prune(mid, dead)[j], mid, i);
          var n :| 0 <= n < i && SameKind(Prune(mid, dead)[j], mid[n]);
        } else {
          assert SameKind(after[j], mid[i]);
        }
      }
    }
  }

  lemma WalkedPast(objs: seq<Obj>, k: nat, mid: seq<Obj>, i: nat, rest: seq<Obj>)
    requires FromFirst(objs, k, mid, i) && k <= |rest|
    requires forall j :: 0 <= j < k ==> SameKind(rest[j], objs[j])
    ensures FromFirst(rest, k, mid, i)
  {
    forall j | 0 <= j < k ensures AmongFirst(rest[j], mid, i) {
      assert AmongFirst(objs[j], mid, i);
      var n :| 0 <= n < i && SameKind(objs[j], mid[n]);
      assert SameKind(rest[j], mid[n]);
    }
  }

  lemma DropLength(objs: seq<Obj>, i: nat)
    requires Distinct(objs) && i < |objs|
    ensures |Drop(objs, {objs[i].handle})| == |objs| - 1
  {
    DropOne(objs, i);
  }

  // The object under deletion is found where the removal of its subtree left it.
  lemma PositionAgrees(mid: seq<Obj>, i: int, k: nat, g: seq<nat>, h: nat, after: seq<Obj>, ret: bool, next: nat,
                       entered: set<nat>)
    requires Inv(mid, next, entered) && Listed(mid, h)
    requires after == if ret then DropRef(Prune(mid, Elems(g)), Find(mid, h).parent, h) else Prune(mid, Elems(g))
    requires k < |Prune(mid, Elems(g))| && Prune(mid, Elems(g))[k].handle == h
    requires i == -1 <==> !Listed(after, h)
    requires i != -1 ==> 0 <= i < |after| && after[i].handle == h
    ensures i == k && |after| == |Prune(mid, Elems(g))| && Distinct(after)
  {
    hide Prune, Scan;
    PruneInv(mid, Elems(g), next, entered);
    assert |after| == |Prune(mid, Elems(g))| && after[k].handle == h;
    assert after[k] in after;
    assert Distinct(Prune(mid, Elems(g)));
  }

  // ---- Deletions seen on the file system ----

  method LookupPath(objs: seq<Obj>, path: string) returns (i: int)
    ensures i == -1 <==> forall o :: o in objs ==> o.path != path
    ensures i != -1 ==> 0 <= i < |objs| && objs[i].path == path && objs[i] in objs
    ensures forall k :: 0 <= k < i ==> objs[k].path != path
  {
    i := 0;
    while i < |objs|
      invariant 0 <= i <= |objs|
      invariant forall k :: 0 <= k < i ==> objs[k].path != path
    {
      if objs[i].path == path {
        return;
      }
      i := i + 1;
    }
    i := -1;
  }

  // The parts of the invariant that event-driven deletion of a subtree keeps all along.
  ghost predicate Shape(objs: seq<Obj>, next: nat) {
    Distinct(objs) && Ordered(objs) && FoldersOnly(objs) && forall o :: o in objs ==> o.handle < next
  }

  lemma ShapeDrop(objs: seq<Obj>, next: nat, dead: set<nat>)
    requires Shape(objs, next)
    ensures Shape(Drop(objs, dead), next)
  {
    hide Drop;
    DropDistinct(objs, dead);
    forall q: Obj ensures q in Drop(objs, dead) ==> q in objs {
      DropMembers(objs, dead, q);
    }
  }

  lemma DropThen(objs: seq<Obj>, gone: seq<nat>, g: seq<nat>)
    ensures Drop(Drop(objs, Elems(gone)), Elems(g)) == Drop(objs, Elems(gone + g))
  {
    DropTwice(objs, Elems(gone), Elems(g));
    assert Elems(gone + g) == Elems(gone) + Elems(g);
  }

  /** __delete_children_from_store_inoti: everything below h leaves the list. */
  method DeleteChildren(s: Store, h: nat) returns (ghost gone: seq<nat>)
    requires Shape(s.objs, s.next) && Listed(s.objs, h)
    modifies s`objs
    ensures SweptAll(old(s.objs), h, gone)
    ensures s.objs == Drop(old(s.objs), Elems(gone))
    decreases s.next - h
  {
    hide Scan, Swept, SweptAll, Survivors, Under, Drop, Elems, Distinct, Ordered, NoDup, FoldersOnly, Shape, Link;
    ghost var before := s.objs;
    gone := [];
    NothingDropped(before, h);
    var kids := ChildHandles(s.objs, h);
    var i := 0;
    while i < |kids|
      invariant 0 <= i <= |kids|
      invariant Swept(before, h, gone) && s.objs == Drop(before, Elems(gone)) && Shape(s.objs, s.next)
      invariant forall k :: 0 <= k < i ==> kids[k] in gone
    {
      var c := kids[i];
      ShapeParts(before, s.next);
      ShapeParts(s.objs, s.next);
      ChildUnder(before, h, c);
      UnderAbove(before, h, c);
      DropSurvivors(before, Elems(gone));
      ghost var mid, g := s.objs, [];
      var at := Lookup(s.objs, c);
      if at != -1 {
        OneByHandle(mid, mid[at]);
        if s.objs[at].fmt == FMT_ASSOCIATION {
          g := DeleteChildren(s, c);
        } else {
          FileIsLeaf(mid, mid[at]);
          NothingDropped(mid, c);
          SubtreeGone(mid, c, g);
        }
        ShapeDrop(mid, s.next, Elems(g));
        ShapeParts(s.objs, s.next);
        DeleteNode(s, c);
        SweptThenTop(before, h, gone, mid, c, g);
        DropThenOne(mid, g, c);
        DropThen(before, gone, g + [c]);
        gone := gone + (g + [c]);
        ShapeDrop(before, s.next, Elems(gone));
      } else {
        MissingIsGone(before, gone, s.objs, h, c);
      }
      i := i + 1;
    }
    SubtreeGone(before, h, gone);
  }

  lemma ShapeParts(objs: seq<Obj>, next: nat)
    requires Shape(objs, next)
    ensures Distinct(objs) && Ordered(objs) && FoldersOnly(objs)
    ensures forall o :: o in objs ==> o.handle < next
  {
  }

  lemma NothingDropped(objs: seq<Obj>, h: nat)
    ensures Swept(objs, h, []) && Drop(objs, Elems([])) == objs
  {
    DropNothing(objs);
    assert Elems([]) == {};
  }

  lemma DropThenOne(objs: seq<Obj>, g: seq<nat>, c: nat)
    ensures Drop(Drop(objs, Elems(g)), {c}) == Drop(objs, Elems(g + [c]))
  {
    DropThen(objs, g, [c]);
    assert Elems([c]) == {c};
  }
}
