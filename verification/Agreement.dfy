/**
 Whether the paths in a store agree with its tree: what keeps the agreement, and exactly when adding
 an object keeps it.
 */
module Agreement {
  import opened Codes
  import opened ObjectTable
  import opened Paths

  // The path of every object extends the path of its listed parent by one name.
  ghost predicate PathsOk(objs: seq<Obj>) {
    forall c, p :: c in objs && p in objs && c.parent == p.handle ==> OneBelow(c.path, p.path)
  }

  ghost predicate OneBelow(path: string, dir: string) {
    exists name :: Splits(path, dir, name)
  }

  // A path fits under the object with this handle, if that is listed.
  ghost predicate Agrees(objs: seq<Obj>, parent: nat, path: string) {
    forall q :: q in objs && q.handle == parent ==> OneBelow(path, q.path)
  }

  lemma OneBelowPrefix(path: string, dir: string)
    requires OneBelow(path, dir)
    ensures |dir| < |path| && dir <= path
  {
    var name :| Splits(path, dir, name);
  }

  /** A name puts a path one below its folder if and only if it has no slash. */
  lemma Extends(dir: string, name: string)
    ensures OneBelow(dir + "/" + name, dir) <==> '/' !in name
  {
    var path := dir + "/" + name;
    if '/' !in name {
      assert Splits(path, dir, name);
    }
    if OneBelow(path, dir) {
      var n :| Splits(path, dir, n);
      assert n == path[|dir| + 1..] == name;
    }
  }

  lemma PathsOkIntro(objs: seq<Obj>)
    requires forall c, p :: c in objs && p in objs && c.parent == p.handle ==> OneBelow(c.path, p.path)
    ensures PathsOk(objs)
  {
    hide OneBelow;
  }

  lemma NonePaths()
    ensures PathsOk([])
  {
  }

  /** Removing any objects keeps the agreement. */
  lemma PrunedPaths(objs: seq<Obj>, dead: set<nat>)
    requires PathsOk(objs)
    ensures PathsOk(Prune(objs, dead))
  {
    hide OneBelow, Prune, Minus;
    PruneKeeps(objs, dead);
    forall c, p | c in Prune(objs, dead) && p in Prune(objs, dead) && c.parent == p.handle
      ensures OneBelow(c.path, p.path) {
      var a :| a in objs && c == a.(children := Minus(a.children, dead));
      var b :| b in objs && p == b.(children := Minus(b.children, dead));
    }
  }

  /**
   Adding an object, folder or not, under a handle that was never listed before keeps the agreement
   if and only if its path lies in the present folder of its parent.
   */
  lemma AddedPaths(objs: seq<Obj>, o: Obj, next: nat, entered: set<nat>)
    requires Inv(objs, next, entered) && o.handle !in entered && ROOT < o.handle && o.parent < o.handle && PathsOk(objs)
    ensures PathsOk(AddRef(objs, o.parent, o.handle) + [o]) <==> Agrees(objs, o.parent, o.path)
  {
    hide OneBelow, Inv;
    Childless(objs, o, next, entered);
    var mid := AddRef(objs, o.parent, o.handle);
    var all := mid + [o];
    forall i | 0 <= i < |objs|
      ensures mid[i].path == objs[i].path && mid[i].parent == objs[i].parent && mid[i].handle == objs[i].handle
    {
    }
    if Agrees(objs, o.parent, o.path) {
      forall c, d | c in all && d in all && c.parent == d.handle ensures OneBelow(c.path, d.path) {
        var i :| 0 <= i < |all| && all[i] == c;
        var j :| 0 <= j < |all| && all[j] == d;
        if i < |objs| {
          assert objs[i] in objs;
        }
        if j < |objs| {
          assert objs[j] in objs;
        }
      }
    }
    if PathsOk(all) {
      forall q | q in objs && q.handle == o.parent ensures OneBelow(o.path, q.path) {
        var j :| 0 <= j < |objs| && objs[j] == q;
        assert all[j] in all && o in all;
      }
    }
  }

  lemma Childless(objs: seq<Obj>, o: Obj, next: nat, entered: set<nat>)
    requires Inv(objs, next, entered) && o.handle !in entered && ROOT < o.handle && o.parent < o.handle
    ensures forall c :: c in objs ==> c.parent != o.handle
  {
    hide Scan;
  }

  /** A folder whose name has a slash breaks the agreement, although its path is accepted. */
  lemma SlashInName()
    ensures var folder := Obj(1, ROOT, FMT_ASSOCIATION, NO_PROTECTION, 0, "/m/a", []);
      var o := Obj(2, 1, FMT_ASSOCIATION, NO_PROTECTION, 0, "/m/a/x/y", []);
      && CreatePath("/m", folder.path, "x/y") == (true, o.path)
      && PathsOk([folder]) && !PathsOk(AddRef([folder], 1, 2) + [o])
  {
    hide OneBelow;
    var folder := Obj(1, ROOT, FMT_ASSOCIATION, NO_PROTECTION, 0, "/m/a", []);
    var o := Obj(2, 1, FMT_ASSOCIATION, NO_PROTECTION, 0, "/m/a/x/y", []);
    assert folder.path + "/" + "x/y" == o.path;
    assert "/m" <= o.path;
    assert "x/y"[1] == '/';
    Extends(folder.path, "x/y");
    var after := AddRef([folder], 1, 2) + [o];
    assert after[0] in after && after[1] in after;
  }
}
