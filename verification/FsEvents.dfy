/** File-system events (src/mtp_inoti_handler.c): objects that come and go behind the host's back. */
module FsEvents {
  import opened Codes
  import opened ObjectTable
  import opened ObjectStore
  import opened Paths
  import opened Agreement

  const TEMP_FILE := ".mtptemp.tmp"

  datatype Stat = Missing | Regular(size: nat) | Directory | Other

  // _entity_init_mtp_object_params: what a new entry of the file system becomes.
  function NewObject(handle: nat, parent: nat, path: string, stat: Stat): Obj {
    Obj(handle, parent, if stat.Directory? then FMT_ASSOCIATION else FMT_UNDEF, NO_PROTECTION,
        if stat.Regular? then stat.size else 0, path, [])
  }

  // The path of an event: the watched folder and the name below it
  function EventPath(folder: string, name: string): string {
    folder + "/" + name
  }

  // Events with paths that are too long or lie outside of the store are dropped.
  predicate InStore(root: string, path: string) {
    |path| <= MAX_PATH && root <= path
  }

  /**
   __process_object_added_event, for an entry `name` of the watched folder. The object found at the
   folder's path is taken to be a folder, as it is on any file system.
   */
  method ObjectAdded(s: Store, folder: string, name: string, stat: Stat) returns (added: bool)
    requires s.Valid() && name != "" && '/' !in name
    requires forall i :: FirstAt(s.objs, folder, i) ==> s.objs[i].fmt == FMT_ASSOCIATION
    modifies s`objs, s`next, s`entered, s`history
    ensures s.Valid()
    ensures !added ==> s.objs == old(s.objs) && s.next == old(s.next)
    ensures !added ==> s.entered == old(s.entered) && s.history == old(s.history)
    ensures added <==>
      && |folder| + 1 + |name| <= MAX_PATH && s.root <= folder + "/" + name && name[0] != '.'
      && Strstr(name, TEMP_FILE) == -1
      && (stat.Regular? || stat.Directory?) && (folder == s.root || exists q :: q in old(s.objs) && q.path == folder)
    ensures added ==> s.next == old(s.next) + 1 && s.entered == old(s.entered) + {old(s.next)}
    ensures added ==> s.history == old(s.history) + [old(s.next)]
    ensures added ==> exists p ::
      && s.objs == AddRef(old(s.objs), p, old(s.next)) + [NewObject(old(s.next), p, EventPath(folder, name), stat)]
      && ((p == ROOT && folder == s.root) || exists q :: q in old(s.objs) && q.handle == p && q.path == folder)
    ensures added ==>
      var o := s.objs[|s.objs| - 1];
      && o.handle == old(s.next) && o.path == folder + "/" + name && o.prot == NO_PROTECTION
      && (stat.Directory? ==> o.fmt == FMT_ASSOCIATION && o.size == 0)
      && (stat.Regular? ==> o.fmt == FMT_UNDEF && o.size == stat.size)
    ensures PathsOk(old(s.objs)) ==> PathsOk(s.objs)
  {
    hide Inv, NoDup, Elems, PathsOk, OneBelow, AddRef;
    added := false;
    var fullPath := EventPath(folder, name);
    if !InStore(s.root, fullPath) || Strstr(name, TEMP_FILE) != -1 || name[0] == '.' {
      return;
    }
    var par := LookupPath(s.objs, folder);
    var p := ROOT;
    if par == -1 {
      if folder != s.root {
        return;
      }
    } else {
      p := s.objs[par].handle;
      assert FirstAt(s.objs, folder, par);
    }
    if stat.Missing? || stat.Other? {
      return;
    }
    var o := NewObject(s.next, p, fullPath, stat);
    FolderAt(s.objs, p, folder, s.next, s.entered);
    InvNext(s.objs, s.next, s.entered);
    Extends(folder, name);
    if PathsOk(s.objs) {
      AddedPaths(s.objs, o, s.next, s.entered);
    }
    s.next := s.next + 1;
    AddObject(s, o);
    added := true;
  }

  lemma InvNext(objs: seq<Obj>, next: nat, entered: set<nat>)
    requires Inv(objs, next, entered)
    ensures Inv(objs, next + 1, entered) && next !in entered
  {
  }

  lemma FolderAt(objs: seq<Obj>, p: nat, folder: string, next: nat, entered: set<nat>)
    requires Inv(objs, next, entered)
    requires p == ROOT || exists q :: q in objs && q.handle == p && q.fmt == FMT_ASSOCIATION && q.path == folder
    ensures forall q :: q in objs && q.handle == p ==> q.fmt == FMT_ASSOCIATION && q.path == folder
    ensures (p == ROOT || p in entered) && p < next && ROOT < next
  {
    hide Scan;
  }

  ghost predicate FirstAt(objs: seq<Obj>, path: string, i: int) {
    0 <= i < |objs| && objs[i].path == path && forall k :: 0 <= k < i ==> objs[k].path != path
  }

  /**
   __process_object_deleted_event: the first object at the path leaves the list, a folder with
   everything below it. A folder reported as a plain file leaves its children without a parent.
   */
  method ObjectDeleted(s: Store, folder: string, name: string, isDir: bool) returns (ghost gone: seq<nat>)
    requires s.Valid() && name != ""
    modifies s`objs
    ensures s.Valid()
    ensures s.objs == Prune(old(s.objs), Elems(gone))
    ensures gone == [] <==>
      var path := folder + "/" + name;
      || |path| > MAX_PATH || !(s.root <= path) || Strstr(path, TEMP_FILE) != -1 || name[0] == '.'
      || forall o :: o in old(s.objs) ==> o.path != path
    ensures gone != [] ==> exists i ::
      && FirstAt(old(s.objs), folder + "/" + name, i)
      && var h := old(s.objs)[i].handle;
      && gone[|gone| - 1] == h
      && if isDir then SweptAll(old(s.objs), h, gone[..|gone| - 1]) else |gone| == 1
    ensures PathsOk(old(s.objs)) ==> PathsOk(s.objs)
  {
    hide Inv, Scan, Swept, SweptAll, Under, Drop, DropRef, Prune, Elems, Distinct, Ordered, NoDup, FoldersOnly, Shape,
         Find, PathsOk;
    gone := [];
    var fullPath := EventPath(folder, name);
    NothingGone(s.objs, 0);
    if !InStore(s.root, fullPath) || Strstr(fullPath, TEMP_FILE) != -1 || name[0] == '.' {
      return;
    }
    var at := LookupPath(s.objs, fullPath);
    if at == -1 {
      return;
    }
    ghost var before := s.objs;
    var o := s.objs[at];
    assert FirstAt(before, fullPath, at);
    InvBasics(s.objs, s.next, s.entered);
    if o.parent != ROOT {
      RemoveReference(s, o.parent, o.handle);
    } else {
      DropRefRoot(s.objs, o.handle);
    }
    ghost var mid := s.objs;
    RefShape(before, o, s.next, s.entered);
    if isDir {
      gone := DeleteChildren(s, o.handle);
      SameSubtree(before, o.parent, o.handle, gone);
    } else {
      NothingDropped(mid, o.handle);
    }
    ShapeDrop(mid, s.next, Elems(gone));
    ShapeParts(s.objs, s.next);
    DeleteNode(s, o.handle);
    DropThenOne(mid, gone, o.handle);
    UnlinkSubtree(before, o, gone, isDir, s.next, s.entered);
    gone := gone + [o.handle];
    assert gone == gone[..|gone| - 1] + [o.handle];
    PruneInv(before, Elems(gone), s.next, s.entered);
    if PathsOk(before) {
      PrunedPaths(before, Elems(gone));
    }
  }

  // Changing a child index leaves the shape of the tree alone.
  lemma RefShape(objs: seq<Obj>, o: Obj, next: nat, entered: set<nat>)
    requires Inv(objs, next, entered) && o in objs
    ensures Shape(DropRef(objs, o.parent, o.handle), next) && Listed(DropRef(objs, o.parent, o.handle), o.handle)
  {
    hide Inv, Minus, NoDup, FoldersOnly;
    InvBasics(objs, next, entered);
    var mid := DropRef(objs, o.parent, o.handle);
    assert forall i :: 0 <= i < |objs| ==> objs[i] in objs;
    var at :| 0 <= at < |objs| && objs[at] == o;
    assert mid[at] in mid && mid[at].handle == o.handle;
    RefFolders(objs, o.parent, o.handle);
    assert Distinct(mid) && Ordered(mid);
  }

  lemma RefFolders(objs: seq<Obj>, p: nat, h: nat)
    requires FoldersOnly(objs)
    ensures FoldersOnly(DropRef(objs, p, h))
  {
    var mid := DropRef(objs, p, h);
    forall a, b | a in mid && b in mid && a.parent == b.handle ensures b.fmt == FMT_ASSOCIATION {
      var i :| 0 <= i < |mid| && mid[i] == a;
      var j :| 0 <= j < |mid| && mid[j] == b;
      assert objs[i] in objs && objs[j] in objs;
    }
  }

  lemma RefLinks(objs: seq<Obj>, p: nat, h: nat)
    ensures Survivors(DropRef(objs, p, h), objs, {}) && Survivors(objs, DropRef(objs, p, h), {})
  {
    hide Minus;
    var mid := DropRef(objs, p, h);
    forall x, y ensures Link(mid, x, y) <==> Link(objs, x, y) {
      if Link(mid, x, y) {
        var q :| q in mid && q.handle == x && q.parent == y;
        var i :| 0 <= i < |mid| && mid[i] == q;
        assert objs[i] in objs;
      }
      if Link(objs, x, y) {
        var q :| q in objs && q.handle == x && q.parent == y;
        var i :| 0 <= i < |objs| && objs[i] == q;
        assert mid[i] in mid;
      }
    }
  }

  lemma SameSubtree(objs: seq<Obj>, p: nat, h: nat, gone: seq<nat>)
    requires SweptAll(DropRef(objs, p, h), h, gone)
    ensures SweptAll(objs, h, gone)
  {
    hide DropRef, Link;
    var mid := DropRef(objs, p, h);
    RefLinks(objs, p, h);
    forall x ensures Under(objs, h, x) <==> Under(mid, h, x) {
      if Under(objs, h, x) {
        UnderSurvivors(objs, mid, {}, h, x);
      }
      if Under(mid, h, x) {
        UnderSurvivors(mid, objs, {}, h, x);
      }
    }
  }

  lemma UnlinkSubtree(objs: seq<Obj>, o: Obj, gone: seq<nat>, whole: bool, next: nat, entered: set<nat>)
    requires Inv(objs, next, entered) && o in objs
    requires if whole then SweptAll(objs, o.handle, gone) else gone == []
    ensures Drop(DropRef(objs, o.parent, o.handle), Elems(gone + [o.handle])) == Prune(objs, Elems(gone + [o.handle]))
  {
    hide Scan, Drop, DropRef, Prune, Under, BottomUp;
    UnlinkIsPrune(objs, o, Elems(gone + [o.handle]));
  }
}
