/** Filling an empty store from the file system (src/entity/mtp_store.c:927-999). */
module Enumeration {
  import opened Codes
  import opened ObjectTable
  import opened ObjectStore
  import opened Paths
  import opened FsEvents
  import opened Rename
  import opened Agreement
  import opened Walk

  // What a folder holds on the disk, in the order the directory stream yields it: `found` says that
  // the entry's own attributes can be read, `opens` that a folder's entries can.
  datatype Entry =
    | File(name: string, found: bool, size: nat)
    | Dir(name: string, found: bool, opens: bool, entries: seq<Entry>)

  function StatOf(e: Entry): Stat {
    if e.Dir? then Directory else Regular(e.size)
  }

  function Join(dir: string, name: string): string {
    dir + "/" + name
  }

  predicate Visible(dir: string, e: Entry) {
    e.found && e.name != "" && e.name[0] != '.' && |e.name| <= MAX_NAME && |Join(dir, e.name)| <= MAX_PATH
  }

  // Names as a directory stream yields them, and no path one character over the limit.
  ghost predicate WellNamed(dir: string, entries: seq<Entry>)
    decreases entries
  {
    forall e :: e in entries ==>
      && e.name != "" && '/' !in e.name && |Join(dir, e.name)| != MAX_PATH + 1
      && (e.Dir? ==> WellNamed(Join(dir, e.name), e.entries))
  }

  /** The objects that the visible part of a folder becomes: pre-order, with consecutive handles. */
  function Flat(dir: string, parent: nat, next: nat, entries: seq<Entry>): seq<Obj>
    decreases entries
  {
    if entries == [] then []
    else
      var front := Flat(dir, parent, next, entries[..|entries| - 1]);
      var e := entries[|entries| - 1];
      front + FlatOne(dir, parent, next + |front|, e)
  }

  function FlatOne(dir: string, parent: nat, next: nat, e: Entry): seq<Obj>
    decreases e
  {
    if !Visible(dir, e) then []
    else [NewObject(next, parent, Join(dir, e.name), StatOf(e))]
         + (if e.Dir? && e.opens then Flat(Join(dir, e.name), next, next + 1, e.entries) else [])
  }

  // The list without its child indexes, which the invariant of the store determines.
  function Bare(objs: seq<Obj>): seq<Obj> {
    seq(|objs|, i requires 0 <= i < |objs| => objs[i].(children := []))
  }

  ghost predicate IsFolder(objs: seq<Obj>, h: nat) {
    h == ROOT || exists o :: o in objs && o.handle == h && o.fmt == FMT_ASSOCIATION
  }

  lemma FolderParent(objs: seq<Obj>, next: nat, entered: set<nat>, h: nat)
    requires Inv(objs, next, entered) && IsFolder(objs, h)
    ensures h < next && (h == ROOT || h in entered)
    ensures forall q :: q in objs && q.handle == h ==> q.fmt == FMT_ASSOCIATION
    ensures Inv(objs, next + 1, entered) && next !in entered
  {
    hide Scan;
  }

  lemma BareAdd(objs: seq<Obj>, o: Obj)
    requires o.children == []
    ensures Bare(AddRef(objs, o.parent, o.handle) + [o]) == Bare(objs) + [o]
  {
  }

  // The list has grown at its end, by objects with the handles from `first` up to `next`.
  ghost predicate Grown(now: seq<Obj>, was: seq<Obj>, first: nat) {
    Bare(was) <= Bare(now) && forall i :: |was| <= i < |now| ==> now[i].handle >= first
  }

  ghost predicate EnteredUpTo(now: set<nat>, was: set<nat>, first: nat, next: nat) {
    first <= next && forall h :: h in now <==> h in was || first <= h < next
  }

  lemma GrownNot(objs: seq<Obj>, entered: set<nat>, first: nat)
    ensures Grown(objs, objs, first) && EnteredUpTo(entered, entered, first, first)
  {
  }

  lemma GrownThen(a: seq<Obj>, b: seq<Obj>, c: seq<Obj>, first: nat, mid: nat, ea: set<nat>, eb: set<nat>,
                  ec: set<nat>, next: nat)
    requires Grown(b, a, first) && Grown(c, b, mid) && first <= mid
    requires EnteredUpTo(eb, ea, first, mid) && EnteredUpTo(ec, eb, mid, next)
    ensures Grown(c, a, first) && EnteredUpTo(ec, ea, first, next)
  {
    forall i | |a| <= i < |c| ensures c[i].handle >= first {
      if i < |b| {
        assert Bare(c)[i] == Bare(b)[i];
      }
    }
  }

  lemma FolderKept(a: seq<Obj>, b: seq<Obj>, h: nat, first: nat)
    requires Grown(b, a, first) && IsFolder(a, h)
    ensures IsFolder(b, h)
  {
    if h != ROOT {
      var i :| 0 <= i < |a| && a[i].handle == h && a[i].fmt == FMT_ASSOCIATION;
      assert Bare(b)[i] == Bare(a)[i];
      assert b[i] in b;
    }
  }

  // Whatever has this handle has this path.
  ghost predicate Placed(objs: seq<Obj>, h: nat, path: string) {
    forall q :: q in objs && q.handle == h ==> q.path == path
  }

  lemma PlacedKept(a: seq<Obj>, b: seq<Obj>, h: nat, path: string, first: nat)
    requires Grown(b, a, first) && Placed(a, h, path) && h < first
    ensures Placed(b, h, path)
  {
    forall q | q in b && q.handle == h ensures q.path == path {
      var i :| 0 <= i < |b| && b[i] == q;
      assert i < |a|;
      assert Bare(b)[i] == Bare(a)[i];
      assert a[i] in a;
    }
  }

  lemma PlacedAgrees(objs: seq<Obj>, h: nat, dir: string, name: string)
    requires Placed(objs, h, dir) && '/' !in name
    ensures Agrees(objs, h, Join(dir, name))
  {
    hide OneBelow;
    Extends(dir, name);
  }

  lemma LastPlaced(objs: seq<Obj>, next: nat, entered: set<nat>)
    requires Inv(objs, next, entered) && objs != []
    ensures Placed(objs, objs[|objs| - 1].handle, objs[|objs| - 1].path)
  {
    hide Scan;
  }

  // Add one object under a folder, with the next handle.
  method AddEntry(s: Store, parent: nat, path: string, stat: Stat) returns (h: nat)
    requires s.Valid() && IsFolder(s.objs, parent)
    modifies s`objs, s`next, s`entered, s`history
    ensures s.Valid() && h == old(s.next) && s.next == h + 1 && s.history == old(s.history) + [h]
    ensures Bare(s.objs) == Bare(old(s.objs)) + [NewObject(h, parent, path, stat)]
    ensures stat.Directory? ==> IsFolder(s.objs, h)
    ensures Grown(s.objs, old(s.objs), h) && EnteredUpTo(s.entered, old(s.entered), h, h + 1)
    ensures Placed(s.objs, h, path)
    ensures PathsOk(old(s.objs)) && Agrees(old(s.objs), parent, path) ==> PathsOk(s.objs)
  {
    hide Scan, Inv, Bare, Elems, NoDup, PathsOk, Agrees, Placed;
    var o := NewObject(s.next, parent, path, stat);
    FolderParent(s.objs, s.next, s.entered, parent);
    InvBasics(s.objs, s.next, s.entered);
    h := s.next;
    s.next := s.next + 1;
    BareAdd(s.objs, o);
    AddObject(s, o);
    assert s.objs[|s.objs| - 1] == o;
    LastPlaced(s.objs, s.next, s.entered);
    if PathsOk(old(s.objs)) {
      AddedPaths(old(s.objs), o, old(s.next), old(s.entered));
    }
  }

  /**
   _entity_store_recursive_enum_folder_objects: append what lies in the folder `dir`, whose
   object has handle `parent`. A disconnect leaves a shorter listing; otherwise it is exactly Flat,
   whatever folders and entries cannot be read.
   */
  method Enumerate(s: Store, parent: nat, dir: string, opens: bool, entries: seq<Entry>)
    requires s.Valid() && IsFolder(s.objs, parent) && Placed(s.objs, parent, dir)
    requires s.root <= dir && WellNamed(dir, entries)
    modifies s`objs, s`next, s`entered, s`history, s`cut
    ensures s.Valid() && s.next >= old(s.next) && (old(s.cut) ==> s.cut)
    ensures old(s.history) <= s.history
    ensures Grown(s.objs, old(s.objs), old(s.next)) && EnteredUpTo(s.entered, old(s.entered), old(s.next), s.next)
    ensures PathsOk(old(s.objs)) ==> PathsOk(s.objs)
    ensures dir != "" && dir[0] == '/' && !s.cut ==>
      var listing := if opens then Flat(dir, parent, old(s.next), entries) else [];
      Bare(s.objs) == Bare(old(s.objs)) + listing && s.next == old(s.next) + |listing|
    decreases entries
  {
    hide Inv, Bare, IsFolder, Scan, Visible, AddRef, Join, Grown, EnteredUpTo, Elems, NoDup, Flat, FlatOne, WellNamed,
         PathsOk, Agrees, Placed;
    ghost var before, first := s.objs, s.next;
    GrownNot(before, s.entered, first);
    if dir == "" || dir[0] != '/' {
      return;
    }
    ghost var listing := [];
    assert Bare(before) + listing == Bare(before);
    if !opens {
      return;
    }
    FlatNone(dir, parent, first, entries);
    var i := 0;
    while i < |entries|
      invariant 0 <= i <= |entries|
      invariant s.Valid() && s.next >= old(s.next) && (old(s.cut) ==> s.cut)
      invariant old(s.history) <= s.history
      invariant Grown(s.objs, before, first) && EnteredUpTo(s.entered, old(s.entered), first, s.next)
                && IsFolder(s.objs, parent)
      invariant Placed(s.objs, parent, dir) && (PathsOk(before) ==> PathsOk(s.objs))
      invariant listing == Flat(dir, parent, first, entries[..i])
      invariant !s.cut ==>
                  Bare(s.objs) == Bare(before) + listing && s.next == first + |listing|
    {
      var stop := Disconnected(s);
      if stop {
        return;
      }
      FlatStep(dir, parent, first, entries, i);
      OneNamed(dir, entries, i);
      ghost var mid, from, seen := s.objs, s.next, s.entered;
      FolderParent(mid, from, seen, parent);
      EnumerateOne(s, parent, dir, entries[i]);
      FolderKept(mid, s.objs, parent, from);
      PlacedKept(mid, s.objs, parent, dir, from);
      GrownThen(before, mid, s.objs, first, from, old(s.entered), seen, s.entered, s.next);
      ghost var one := FlatOne(dir, parent, first + |listing|, entries[i]);
      assert Bare(before) + listing + one == Bare(before) + (listing + one);
      listing := listing + one;
      i := i + 1;
    }
    assert entries[..i] == entries;
  }

  lemma FlatNone(dir: string, parent: nat, next: nat, entries: seq<Entry>)
    ensures Flat(dir, parent, next, entries[..0]) == []
  {
  }

  lemma OneNamed(dir: string, entries: seq<Entry>, i: nat)
    requires WellNamed(dir, entries) && i < |entries|
    ensures WellNamed(dir, [entries[i]])
  {
    assert entries[i] in entries;
  }

  lemma FlatStep(dir: string, parent: nat, next: nat, entries: seq<Entry>, i: nat)
    requires i < |entries|
    ensures var front := Flat(dir, parent, next, entries[..i]);
      Flat(dir, parent, next, entries[..i + 1]) == front + FlatOne(dir, parent, next + |front|, entries[i])
  {
    assert entries[..i + 1][..i] == entries[..i];
  }

  // One turn of the loop over a directory stream.
  method EnumerateOne(s: Store, parent: nat, dir: string, e: Entry)
    requires s.Valid() && IsFolder(s.objs, parent) && Placed(s.objs, parent, dir)
    requires s.root <= dir && dir != "" && dir[0] == '/' && WellNamed(dir, [e])
    modifies s`objs, s`next, s`entered, s`history, s`cut
    ensures s.Valid() && s.next >= old(s.next) && (old(s.cut) ==> s.cut)
    ensures old(s.history) <= s.history
    ensures Grown(s.objs, old(s.objs), old(s.next)) && EnteredUpTo(s.entered, old(s.entered), old(s.next), s.next)
    ensures PathsOk(old(s.objs)) ==> PathsOk(s.objs)
    ensures !s.cut ==>
      var listing := FlatOne(dir, parent, old(s.next), e);
      Bare(s.objs) == Bare(old(s.objs)) + listing && s.next == old(s.next) + |listing|
    decreases e
  {
    hide Inv, Bare, IsFolder, Scan, AddRef, Splits, Grown, EnteredUpTo, Elems, NoDup, PathsOk, Agrees, Placed,
         WellNamed, Flat;
    NamedParts(dir, e);
    GrownNot(s.objs, s.entered, s.next);
    ghost var before, first := s.objs, s.next;
    var (fits, path) := CreatePath(s.root, dir, e.name);
    if !fits {
      return;
    }
    if !e.found {
      return;
    }
    var name := GetFileName(path);
    BaseOfJoin(path, dir, e.name, name);
    if name == "" || name[0] == '.' {
      return;
    }
    PlacedAgrees(s.objs, parent, dir, e.name);
    var h := AddEntry(s, parent, path, StatOf(e));
    if e.Dir? {
      ghost var mid, seen := s.objs, s.entered;
      Enumerate(s, h, path, e.opens, e.entries);
      GrownThen(before, mid, s.objs, first, h + 1, old(s.entered), seen, s.entered, s.next);
    }
  }

  lemma NamedParts(dir: string, e: Entry)
    requires WellNamed(dir, [e])
    ensures e.name != "" && '/' !in e.name && |Join(dir, e.name)| != MAX_PATH + 1
    ensures e.Dir? ==> WellNamed(Join(dir, e.name), e.entries)
  {
    assert e in [e];
  }

  lemma BaseOfJoin(path: string, dir: string, base: string, name: string)
    requires path == Join(dir, base) && '/' !in base
    requires '/' in path ==> exists d :: Splits(path, d, name)
    ensures name == base && dir <= path && path[|dir|] == '/' && (dir != "" ==> path[0] == dir[0])
  {
    assert Splits(path, dir, base);
    assert path[|dir|] == '/';
    var d :| Splits(path, d, name);
    SplitUnique(path, dir, base, d, name);
  }

  // ---- What a listing is ----

  lemma NothingFlat(dir: string, parent: nat, next: nat)
    ensures Flat(dir, parent, next, []) == [] && WellNamed(dir, []) && DistinctNames([])
    ensures forall path, stat :: !Holds(dir, [], path, stat)
  {
  }

  /** Nothing hidden is listed: below the top folder no part of a path is empty or starts with a dot. */
  lemma {:induction false} FlatNoDots(dir: string, parent: nat, next: nat, entries: seq<Entry>, o: Obj)
    requires WellNamed(dir, entries) && o in Flat(dir, parent, next, entries)
    ensures dir + "/" <= o.path && |o.path| <= MAX_PATH
    ensures forall k :: |dir| <= k < |o.path| && o.path[k] == '/' ==> k + 1 < |o.path| && o.path[k + 1] !in "./"
    decreases entries
  {
    hide FlatOne;
    var n := |entries| - 1;
    var front := Flat(dir, parent, next, entries[..n]);
    if o in front {
      FlatNoDots(dir, parent, next, entries[..n], o);
    } else {
      OneNamed(dir, entries, n);
      FlatOneNoDots(dir, parent, next + |front|, entries[n], o);
    }
  }

  lemma {:induction false} FlatOneNoDots(dir: string, parent: nat, next: nat, e: Entry, o: Obj)
    requires WellNamed(dir, [e]) && o in FlatOne(dir, parent, next, e)
    ensures dir + "/" <= o.path && |o.path| <= MAX_PATH
    ensures forall k :: |dir| <= k < |o.path| && o.path[k] == '/' ==> k + 1 < |o.path| && o.path[k + 1] !in "./"
    decreases e
  {
    hide Flat;
    NamedParts(dir, e);
    var path := Join(dir, e.name);
    if o.path != path {
      FlatNoDots(path, next, next + 1, e.entries, o);
    }
    assert path <= o.path && dir + "/" <= path;
    SplitAt(path, dir, e.name);
    forall k | |dir| <= k < |o.path| && o.path[k] == '/' ensures k + 1 < |o.path| && o.path[k + 1] !in "./" {
      if k < |path| {
        assert path[k] == o.path[k];
        assert path[|dir| + 1] == e.name[0] && path[|dir| + 1] == o.path[|dir| + 1];
      }
    }
  }

  /** Everything else is: a readable entry whose name is neither empty nor too long nor starts with
      a dot is listed, and with it whatever the listing of its own folder shows. */
  lemma EntryShown(dir: string, parent: nat, next: nat, entries: seq<Entry>, e: Entry)
    requires e in entries && e.found && e.name != "" && e.name[0] != '.'
    requires |e.name| <= MAX_NAME && |dir| + 1 + |e.name| <= MAX_PATH
    ensures Shows(Flat(dir, parent, next, entries), dir + "/" + e.name, if e.Dir? then Directory else Regular(e.size))
    ensures e.Dir? && e.opens ==> forall p: nat, n: nat, path, stat ::
      Shows(Flat(dir + "/" + e.name, p, n, e.entries), path, stat) ==>
        Shows(Flat(dir, parent, next, entries), path, stat)
  {
    hide Flat, Shows;
    FlatShows(dir, parent, next, entries, Join(dir, e.name), StatOf(e));
    assert HoldsOne(dir, e, Join(dir, e.name), StatOf(e));
    if e.Dir? && e.opens {
      forall p: nat, n: nat, path, stat | Shows(Flat(Join(dir, e.name), p, n, e.entries), path, stat)
        ensures Shows(Flat(dir, parent, next, entries), path, stat)
      {
        FlatShows(Join(dir, e.name), p, n, e.entries, path, stat);
        assert HoldsOne(dir, e, path, stat);
        FlatShows(dir, parent, next, entries, path, stat);
      }
    }
  }

  /** The k-th object gets the k-th handle. */
  lemma {:induction false} FlatHandles(dir: string, parent: nat, next: nat, entries: seq<Entry>, k: nat)
    requires k < |Flat(dir, parent, next, entries)|
    ensures Flat(dir, parent, next, entries)[k].handle == next + k
    decreases entries
  {
    hide Visible;
    var n := |entries| - 1;
    var front := Flat(dir, parent, next, entries[..n]);
    if k < |front| {
      FlatHandles(dir, parent, next, entries[..n], k);
    } else {
      FlatOneHandles(dir, parent, next + |front|, entries[n], k - |front|);
    }
  }

  lemma {:induction false} FlatOneHandles(dir: string, parent: nat, next: nat, e: Entry, k: nat)
    requires k < |FlatOne(dir, parent, next, e)|
    ensures FlatOne(dir, parent, next, e)[k].handle == next + k
    decreases e
  {
    hide Visible;
    if k > 0 {
      FlatHandles(Join(dir, e.name), next, next + 1, e.entries, k - 1);
    }
  }

  // A path and what lies there, reached through visible entries only.
  ghost predicate Holds(dir: string, entries: seq<Entry>, path: string, stat: Stat)
    decreases entries
  {
    exists e :: e in entries && HoldsOne(dir, e, path, stat)
  }

  ghost predicate HoldsOne(dir: string, e: Entry, path: string, stat: Stat)
    decreases e
  {
    Visible(dir, e) && ((path == Join(dir, e.name) && stat == StatOf(e))
      || (e.Dir? && e.opens && Holds(Join(dir, e.name), e.entries, path, stat)))
  }

  function StatOfObj(o: Obj): Stat {
    if o.fmt == FMT_ASSOCIATION then Directory else Regular(o.size)
  }

  ghost predicate Shows(listing: seq<Obj>, path: string, stat: Stat) {
    exists o :: o in listing && o.path == path && StatOfObj(o) == stat
  }

  /** Exactly the visible entries are listed: no dot-named file, nothing below a dot-named folder. */
  lemma {:induction false} FlatShows(dir: string, parent: nat, next: nat, entries: seq<Entry>, path: string, stat: Stat)
    ensures Shows(Flat(dir, parent, next, entries), path, stat) <==> Holds(dir, entries, path, stat)
    decreases entries
  {
    hide Visible, HoldsOne, FlatOne, StatOfObj;
    if entries != [] {
      var n := |entries| - 1;
      var front := Flat(dir, parent, next, entries[..n]);
      var last := FlatOne(dir, parent, next + |front|, entries[n]);
      FlatShows(dir, parent, next, entries[..n], path, stat);
      FlatOneShows(dir, parent, next + |front|, entries[n], path, stat);
      ShowsJoin(front, last, path, stat);
      assert entries == entries[..n] + [entries[n]];
    }
  }

  lemma ShowsJoin(a: seq<Obj>, b: seq<Obj>, path: string, stat: Stat)
    ensures Shows(a + b, path, stat) <==> Shows(a, path, stat) || Shows(b, path, stat)
  {
    hide StatOfObj;
  }

  lemma {:induction false} FlatOneShows(dir: string, parent: nat, next: nat, e: Entry, path: string, stat: Stat)
    ensures Shows(FlatOne(dir, parent, next, e), path, stat) <==> HoldsOne(dir, e, path, stat)
    decreases e
  {
    hide Visible, Flat, Holds;
    if Visible(dir, e) {
      var o := NewObject(next, parent, Join(dir, e.name), StatOf(e));
      assert StatOfObj(o) == StatOf(e);
      var rest := if e.Dir? && e.opens then Flat(Join(dir, e.name), next, next + 1, e.entries) else [];
      if e.Dir? && e.opens {
        FlatShows(Join(dir, e.name), next, next + 1, e.entries, path, stat);
      }
      ShowsJoin([o], rest, path, stat);
      assert Shows([o], path, stat) <==> path == o.path && stat == StatOf(e) by {
        assert o in [o];
      }
    }
  }

  // The listed object that o hangs from: the folder itself, or an earlier folder of the listing.
  ghost predicate Hangs(listing: seq<Obj>, k: nat, dir: string, parent: nat) {
    k < |listing| &&
    ( (listing[k].parent == parent && OneBelow(listing[k].path, dir))
      || exists j :: 0 <= j < k && listing[j].handle == listing[k].parent && listing[j].fmt == FMT_ASSOCIATION
                     && OneBelow(listing[k].path, listing[j].path))
  }

  /** Every object has the handle and the path of the folder it lies in. */
  lemma {:induction false} FlatHangs(dir: string, parent: nat, next: nat, entries: seq<Entry>, k: nat)
    requires WellNamed(dir, entries) && k < |Flat(dir, parent, next, entries)|
    ensures Hangs(Flat(dir, parent, next, entries), k, dir, parent)
    decreases entries
  {
    hide Visible, FlatOne, OneBelow, Join;
    var n := |entries| - 1;
    var front := Flat(dir, parent, next, entries[..n]);
    var last := FlatOne(dir, parent, next + |front|, entries[n]);
    if k < |front| {
      FlatHangs(dir, parent, next, entries[..n], k);
      HangsPrefix(front, last, k, dir, parent);
    } else {
      FlatOneHangs(dir, parent, next + |front|, entries[n], k - |front|);
      HangsShift(front, last, k - |front|, dir, parent);
    }
  }

  lemma HangsPrefix(front: seq<Obj>, last: seq<Obj>, k: nat, dir: string, parent: nat)
    requires Hangs(front, k, dir, parent)
    ensures Hangs(front + last, k, dir, parent)
  {
    hide OneBelow;
    var all := front + last;
    if !(front[k].parent == parent && OneBelow(front[k].path, dir)) {
      var j :| 0 <= j < k && front[j].handle == front[k].parent && front[j].fmt == FMT_ASSOCIATION
          && OneBelow(front[k].path, front[j].path);
      assert all[j] == front[j];
    }
  }

  lemma HangsShift(front: seq<Obj>, last: seq<Obj>, k: nat, dir: string, parent: nat)
    requires Hangs(last, k, dir, parent)
    ensures Hangs(front + last, |front| + k, dir, parent)
  {
    hide OneBelow;
    var all := front + last;
    if !(last[k].parent == parent && OneBelow(last[k].path, dir)) {
      var j :| 0 <= j < k && last[j].handle == last[k].parent && last[j].fmt == FMT_ASSOCIATION
          && OneBelow(last[k].path, last[j].path);
      assert all[|front| + j] == last[j];
    }
  }

  lemma {:induction false} FlatOneHangs(dir: string, parent: nat, next: nat, e: Entry, k: nat)
    requires WellNamed(dir, [e]) && k < |FlatOne(dir, parent, next, e)|
    ensures Hangs(FlatOne(dir, parent, next, e), k, dir, parent)
    decreases e
  {
    hide Visible, Flat, OneBelow;
    assert e in [e];
    var o := NewObject(next, parent, Join(dir, e.name), StatOf(e));
    assert OneBelow(o.path, dir) by {
      JoinBelow(dir, e.name);
    }
    if k > 0 {
      var rest := Flat(o.path, next, next + 1, e.entries);
      FlatHangs(o.path, next, next + 1, e.entries, k - 1);
      assert Hangs(rest, k - 1, o.path, next);
      var all := [o] + rest;
      assert FlatOne(dir, parent, next, e) == all;
      if rest[k - 1].parent == next && OneBelow(rest[k - 1].path, o.path) {
        assert all[0] == o;
      } else {
        HangsShift([o], rest, k - 1, o.path, next);
        var j :| 0 <= j < k - 1 && rest[j].handle == rest[k - 1].parent && rest[j].fmt == FMT_ASSOCIATION
            && OneBelow(rest[k - 1].path, rest[j].path);
        assert all[j + 1] == rest[j];
      }
    }
  }

  lemma JoinBelow(dir: string, name: string)
    requires '/' !in name
    ensures OneBelow(Join(dir, name), dir)
  {
    assert Splits(Join(dir, name), dir, name);
  }

  // ---- No path twice ----

  ghost predicate DistinctNames(entries: seq<Entry>) {
    && (forall i, j :: 0 <= i < j < |entries| ==> entries[i].name != entries[j].name)
    && (forall e :: e in entries && e.Dir? ==> DistinctNames(e.entries))
  }

  ghost predicate DistinctPaths(listing: seq<Obj>) {
    forall i, j :: 0 <= i < j < |listing| ==> listing[i].path != listing[j].path
  }

  // path is dir/name or lies below it.
  ghost predicate Through(path: string, dir: string, name: string) {
    path == Join(dir, name) || Join(dir, name) + "/" <= path
  }

  lemma ThroughOne(path: string, dir: string, n1: string, n2: string)
    requires Through(path, dir, n1) && Through(path, dir, n2) && '/' !in n1 && '/' !in n2
    ensures n1 == n2
  {
    ThroughChars(path, dir, n1);
    ThroughChars(path, dir, n2);
    assert |n1| == |n2|;
  }

  lemma ThroughChars(path: string, dir: string, name: string)
    requires Through(path, dir, name)
    ensures |path| >= |dir| + 1 + |name| && name == path[|dir| + 1..|dir| + 1 + |name|]
    ensures |path| > |dir| + 1 + |name| ==> path[|dir| + 1 + |name|] == '/'
    ensures forall k :: 0 <= k < |name| ==> path[|dir| + 1 + k] == name[k]
  {
    var j := Join(dir, name);
    assert path[..|j|] == j;
    assert |path| > |j| ==> path[|j|] == (j + "/")[|j|];
    assert forall k :: 0 <= k < |name| ==> j[|dir| + 1 + k] == name[k];
  }

  lemma {:induction false} FlatOneThrough(dir: string, parent: nat, next: nat, e: Entry, o: Obj)
    requires o in FlatOne(dir, parent, next, e)
    ensures Through(o.path, dir, e.name)
    decreases e
  {
    hide Visible, Flat;
    if o.path != Join(dir, e.name) {
      FlatThrough(Join(dir, e.name), next, next + 1, e.entries, o);
    }
  }

  lemma {:induction false} FlatThrough(dir: string, parent: nat, next: nat, entries: seq<Entry>, o: Obj)
    requires o in Flat(dir, parent, next, entries)
    ensures exists e :: e in entries && Through(o.path, dir, e.name)
    ensures dir + "/" <= o.path
    decreases entries
  {
    hide FlatOne;
    var n := |entries| - 1;
    var front := Flat(dir, parent, next, entries[..n]);
    if o in front {
      FlatThrough(dir, parent, next, entries[..n], o);
      var e :| e in entries[..n] && Through(o.path, dir, e.name);
      assert e in entries;
    } else {
      FlatOneThrough(dir, parent, next + |front|, entries[n], o);
      assert entries[n] in entries;
      ThroughBelow(o.path, dir, entries[n].name);
    }
  }

  lemma ThroughBelow(path: string, dir: string, name: string)
    requires Through(path, dir, name)
    ensures dir + "/" <= path
  {
    assert dir + "/" <= Join(dir, name);
  }

  /** With distinct names in every folder, no path is listed twice. */
  lemma {:induction false} FlatDistinct(dir: string, parent: nat, next: nat, entries: seq<Entry>)
    requires WellNamed(dir, entries) && DistinctNames(entries)
    ensures DistinctPaths(Flat(dir, parent, next, entries))
    decreases entries
  {
    hide FlatOne, Visible, Through;
    if entries != [] {
      var n := |entries| - 1;
      var front := Flat(dir, parent, next, entries[..n]);
      var e := entries[n];
      var last := FlatOne(dir, parent, next + |front|, e);
      assert forall x :: x in entries[..n] ==> x in entries;
      FlatDistinct(dir, parent, next, entries[..n]);
      FlatOneDistinct(dir, parent, next + |front|, e);
      forall i, j | 0 <= i < |front| && 0 <= j < |last| ensures front[i].path != last[j].path {
        FlatThrough(dir, parent, next, entries[..n], front[i]);
        var d :| d in entries[..n] && Through(front[i].path, dir, d.name);
        FlatOneThrough(dir, parent, next + |front|, e, last[j]);
        if front[i].path == last[j].path {
          ThroughOne(front[i].path, dir, d.name, e.name);
        }
      }
    }
  }

  lemma {:induction false} FlatOneDistinct(dir: string, parent: nat, next: nat, e: Entry)
    requires WellNamed(dir, [e]) && (e.Dir? ==> DistinctNames(e.entries))
    ensures DistinctPaths(FlatOne(dir, parent, next, e))
    decreases e
  {
    hide Flat, Visible;
    assert e in [e];
    if Visible(dir, e) && e.Dir? && e.opens {
      var path := Join(dir, e.name);
      var rest := Flat(path, next, next + 1, e.entries);
      FlatDistinct(path, next, next + 1, e.entries);
      forall j | 0 <= j < |rest| ensures path != rest[j].path {
        FlatThrough(path, next, next + 1, e.entries, rest[j]);
        assert |path + "/"| > |path|;
      }
    }
  }

  // ---- Filling a store ----

  // A listing whose objects hang from the root or from one another is a tree with right paths.
  lemma HangingTree(objs: seq<Obj>, dir: string)
    requires Distinct(objs) && forall o :: o in objs ==> o.handle != ROOT
    requires forall k :: 0 <= k < |objs| ==> Hangs(Bare(objs), k, dir, ROOT)
    ensures Rooted(objs) && PathsOk(objs)
  {
    hide OneBelow;
    forall o | o in objs ensures o.parent == ROOT || Listed(objs, o.parent) {
      var k :| 0 <= k < |objs| && objs[k] == o;
      assert Hangs(Bare(objs), k, dir, ROOT);
      if o.parent != ROOT {
        var j :| 0 <= j < k && Bare(objs)[j].handle == o.parent;
        assert objs[j] in objs;
      }
    }
    forall c, p | c in objs && p in objs && c.parent == p.handle ensures OneBelow(c.path, p.path) {
      var k :| 0 <= k < |objs| && objs[k] == c;
      var i :| 0 <= i < |objs| && objs[i] == p;
      assert Hangs(Bare(objs), k, dir, ROOT);
      var j :| 0 <= j < k && Bare(objs)[j].handle == c.parent && OneBelow(c.path, Bare(objs)[j].path);
      assert objs[j].handle == objs[i].handle;
    }
  }

  /**
   The first listing of an empty store (src/mtp_cmd_handler_util.c:817-824): one object per
   visible entry, in pre-order, with consecutive handles; the tree of parents and the paths agree
   with the disk, and a full listing from the root shows every object exactly once.
   */
  method FillEmptyStore(s: Store, opens: bool, entries: seq<Entry>)
    requires s.Valid() && s.objs == [] && s.root != "" && s.root[0] == '/' && WellNamed(s.root, entries)
    modifies s`objs, s`next, s`entered, s`history, s`cut
    ensures s.Valid() && s.next >= old(s.next) && old(s.history) <= s.history
    ensures Grown(s.objs, [], old(s.next)) && EnteredUpTo(s.entered, old(s.entered), old(s.next), s.next)
    ensures PathsOk(s.objs)
    ensures !s.cut ==>
      && Bare(s.objs) == Flat(s.root, ROOT, old(s.next), if opens then entries else [])
      && Rooted(s.objs)
      && (forall path, stat :: Shows(Bare(s.objs), path, stat) <==> opens && Holds(s.root, entries, path, stat))
      && (DistinctNames(entries) ==> DistinctPaths(s.objs))
      && (forall x :: x in Listing(s.objs, ROOT, FORMAT_NOTUSED, s.next) <==> Listed(s.objs, x))
      && NoDup(Listing(s.objs, ROOT, FORMAT_NOTUSED, s.next))
  {
    hide Inv, Flat, Shows, Holds, Hangs, Rooted, PathsOk, Listing, WellNamed, DistinctNames, Distinct, Ordered,
         FoldersOnly, Shape;
    s.cut := false;
    NonePaths();
    Enumerate(s, ROOT, s.root, opens, entries);
    if !s.cut {
      NothingFlat(s.root, ROOT, old(s.next));
      Filled(s.objs, s.root, old(s.next), if opens then entries else [], s.next, s.entered);
    }
  }

  lemma Filled(objs: seq<Obj>, root: string, first: nat, entries: seq<Entry>, next: nat, entered: set<nat>)
    requires Inv(objs, next, entered) && WellNamed(root, entries)
    requires Bare(objs) == Flat(root, ROOT, first, entries)
    ensures Rooted(objs) && PathsOk(objs)
    ensures forall path, stat :: Shows(Bare(objs), path, stat) <==> Holds(root, entries, path, stat)
    ensures DistinctNames(entries) ==> DistinctPaths(objs)
    ensures forall x :: x in Listing(objs, ROOT, FORMAT_NOTUSED, next) <==> Listed(objs, x)
    ensures NoDup(Listing(objs, ROOT, FORMAT_NOTUSED, next))
  {
    hide Inv, Flat, Shows, Holds, Hangs, Rooted, PathsOk, Listing, WellNamed, DistinctNames;
    InvBasics(objs, next, entered);
    InvShape(objs, next, entered);
    forall k | 0 <= k < |objs| ensures Hangs(Bare(objs), k, root, ROOT) {
      FlatHangs(root, ROOT, first, entries, k);
    }
    HangingTree(objs, root);
    forall path, stat ensures Shows(Bare(objs), path, stat) <==> Holds(root, entries, path, stat) {
      FlatShows(root, ROOT, first, entries, path, stat);
    }
    if DistinctNames(entries) {
      FlatDistinct(root, ROOT, first, entries);
      assert forall k :: 0 <= k < |objs| ==> Bare(objs)[k].path == objs[k].path;
    }
    FullListing(objs, next, next);
  }
}
