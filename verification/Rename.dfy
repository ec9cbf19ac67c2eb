/**
 Renaming an object (src/entity/mtp_object.c:440-611, src/mtp_cmd_handler_util.c:1276-1330):
 the check of every path below it, the rewriting of those paths, and the operation that joins them.
 */
module Rename {
  import opened Codes
  import opened ObjectTable
  import opened ObjectStore
  import opened Paths
  import opened Agreement

  // Paths agree with the tree below h, whose own path counts as `src`.
  ghost predicate Consistent(objs: seq<Obj>, h: nat, src: string) {
    && (forall c :: c in objs && c.parent == h ==> OneBelow(c.path, src))
    && (forall c, p :: c in objs && p in objs && c.parent == p.handle && Under(objs, h, p.handle) ==>
        OneBelow(c.path, p.path))
  }

  function Moved(path: string, cut: nat, dst: string): string {
    if cut <= |path| then dst + path[cut..] else path
  }

  // The list after the paths of the objects in `who` had their first `cut` characters replaced.
  function Retarget(objs: seq<Obj>, who: set<nat>, cut: nat, dst: string): seq<Obj> {
    seq(|objs|, i requires 0 <= i < |objs| =>
      if objs[i].handle in who then objs[i].(path := Moved(objs[i].path, cut, dst)) else objs[i])
  }

  // Every path below h fits its buffer before and after the move.
  ghost predicate Fits(objs: seq<Obj>, h: nat, src: string, dst: string) {
    forall o :: o in objs && Under(objs, h, o.handle) ==> |o.path| < MAX_PATH && |Moved(o.path, |src|, dst)| < MAX_PATH
  }

  // Some path reaches the last two characters of the limit.
  ghost predicate NearLimit(objs: seq<Obj>, h: nat, src: string, dst: string) {
    || |src| >= MAX_PATH - 1 || |dst| >= MAX_PATH - 1
    || exists o :: o in objs && Under(objs, h, o.handle)
                   && (|o.path| >= MAX_PATH - 1 || |Moved(o.path, |src|, dst)| >= MAX_PATH - 1)
  }

  // Equal but for paths.
  ghost predicate SamePlaces(a: seq<Obj>, b: seq<Obj>) {
    |a| == |b| && forall i :: 0 <= i < |a| ==> a[i] == b[i].(path := a[i].path)
  }

  // ---- The tree does not depend on paths ----

  lemma PlacesLinks(a: seq<Obj>, b: seq<Obj>)
    requires SamePlaces(a, b)
    ensures forall x, p :: Link(a, x, p) <==> Link(b, x, p)
  {
    forall x, p ensures Link(a, x, p) <==> Link(b, x, p) {
      if Link(a, x, p) {
        var i :| 0 <= i < |a| && a[i].handle == x && a[i].parent == p;
        assert b[i] in b && b[i].handle == x && b[i].parent == p;
      }
      if Link(b, x, p) {
        var i :| 0 <= i < |b| && b[i].handle == x && b[i].parent == p;
        assert a[i] in a && a[i].handle == x && a[i].parent == p;
      }
    }
  }

  lemma PlacesUnder(a: seq<Obj>, b: seq<Obj>, h: nat)
    requires SamePlaces(a, b)
    ensures forall x :: Under(a, h, x) <==> Under(b, h, x)
  {
    hide Link, SamePlaces;
    PlacesLinks(a, b);
    forall x: nat ensures Under(a, h, x) <==> Under(b, h, x) {
      if Under(a, h, x) {
        UnderSurvivors(a, b, {}, h, x);
      }
      if Under(b, h, x) {
        UnderSurvivors(b, a, {}, h, x);
      }
    }
  }

  lemma PlacesFolders(a: seq<Obj>, b: seq<Obj>)
    requires SamePlaces(a, b) && FoldersOnly(b)
    ensures FoldersOnly(a)
  {
    forall x, y | x in a && y in a && x.parent == y.handle ensures y.fmt == FMT_ASSOCIATION {
      var i :| 0 <= i < |a| && a[i] == x;
      var j :| 0 <= j < |a| && a[j] == y;
      assert b[i] in b && b[j] in b;
    }
  }

  lemma PlacesShape(a: seq<Obj>, b: seq<Obj>, next: nat)
    requires SamePlaces(a, b) && Shape(b, next)
    ensures Shape(a, next)
  {
    hide FoldersOnly;
    PlacesFolders(a, b);
    forall q | q in a ensures q.handle < next && q.parent < q.handle {
      var i :| 0 <= i < |a| && a[i] == q;
      assert b[i] in b;
    }
  }

  lemma {:induction false} PlacesScan(a: seq<Obj>, b: seq<Obj>, p: nat)
    requires SamePlaces(a, b)
    ensures Scan(a, p) == Scan(b, p)
  {
    if a != [] {
      PlacesScan(a[..|a| - 1], b[..|b| - 1], p);
      assert a[|a| - 1].parent == b[|b| - 1].parent;
    }
  }

  lemma PlacesInv(a: seq<Obj>, b: seq<Obj>, next: nat, entered: set<nat>)
    requires SamePlaces(a, b) && Inv(b, next, entered)
    ensures Inv(a, next, entered)
  {
    hide FoldersOnly, Scan;
    PlacesFolders(a, b);
    forall q | q in a
      ensures q.children == Scan(a, q.handle) && q.parent < q.handle && q.handle in entered
      ensures q.parent == ROOT || q.parent in entered
    {
      var i :| 0 <= i < |a| && a[i] == q;
      assert b[i] in b;
      PlacesScan(a, b, q.handle);
    }
    assert Distinct(a);
  }

  // Two children of h share nothing below them.
  lemma {:induction false} OneBranch(objs: seq<Obj>, h: nat, c1: nat, c2: nat, x: nat)
    requires Distinct(objs) && Ordered(objs) && Link(objs, c1, h) && Link(objs, c2, h)
    requires (x == c1 || Under(objs, c1, x)) && (x == c2 || Under(objs, c2, x))
    ensures c1 == c2
    decreases x
  {
    if x != c1 && x != c2 {
      var p: nat :| Link(objs, x, p) && p < x && (p == c1 || Under(objs, c1, p));
      var q: nat :| Link(objs, x, q) && q < x && (q == c2 || Under(objs, c2, q));
      OneParent(objs, x, p, q);
      OneBranch(objs, h, c1, c2, p);
    } else if c1 != c2 {
      var c, d := if x == c1 then c1 else c2, if x == c1 then c2 else c1;
      var p: nat :| Link(objs, c, p) && p < c && (p == d || Under(objs, d, p));
      OneParent(objs, c, p, h);
      assert h < d;
      if Under(objs, d, h) {
        UnderAbove(objs, d, h);
      }
    }
  }

  // ---- Paths below a consistent folder ----

  lemma MovedOneBelow(path: string, dir: string, cut: nat, dst: string)
    requires OneBelow(path, dir) && cut <= |dir|
    ensures OneBelow(Moved(path, cut, dst), Moved(dir, cut, dst))
  {
    var name :| Splits(path, dir, name);
    assert Moved(path, cut, dst) == Moved(dir, cut, dst) + "/" + name;
    assert Splits(Moved(path, cut, dst), Moved(dir, cut, dst), name);
  }

  lemma MovedTwice(path: string, mid: string, cut: nat, dst: string)
    requires mid <= path && cut <= |mid|
    ensures Moved(path, |mid|, Moved(mid, cut, dst)) == Moved(path, cut, dst)
  {
    assert path[cut..] == mid[cut..] + path[|mid|..];
    assert dst + (mid[cut..] + path[|mid|..]) == dst + mid[cut..] + path[|mid|..];
  }

  lemma {:induction false} PrefixBelow(objs: seq<Obj>, h: nat, src: string, o: Obj)
    requires Consistent(objs, h, src) && o in objs && Distinct(objs) && Under(objs, h, o.handle)
    ensures src <= o.path && |src| < |o.path|
    decreases o.handle
  {
    var p: nat :| Link(objs, o.handle, p) && p < o.handle && (p == h || Under(objs, h, p));
    OneParent(objs, o.handle, p, o.parent);
    if p == h {
      OneBelowPrefix(o.path, src);
    } else {
      UnderAbove(objs, h, p);
      var q :| q in objs && q.handle == p;
      PrefixBelow(objs, h, src, q);
      OneBelowPrefix(o.path, q.path);
    }
  }

  // ---- Rewriting the paths below a folder ----

  // The handles that the first i children of h account for: themselves and what lies below them.
  ghost predicate Covers(objs: seq<Obj>, kids: seq<nat>, i: int, done: seq<nat>) {
    0 <= i <= |kids| && forall x :: x in done <==> exists k :: 0 <= k < i && InBranch(objs, kids[k], x)
  }

  lemma CoversAll(objs: seq<Obj>, h: nat, done: seq<nat>)
    requires Ordered(objs) && Covers(objs, Scan(objs, h), |Scan(objs, h)|, done)
    ensures forall x: nat :: x in done <==> Under(objs, h, x)
  {
    hide Scan, Under, Ordered;
    var kids := Scan(objs, h);
    forall x: nat ensures x in done <==> Under(objs, h, x) {
      if Under(objs, h, x) {
        var c := BranchOf(objs, h, x);
        var k :| 0 <= k < |kids| && kids[k] == c;
        assert InBranch(objs, kids[k], x);
      }
      if x in done {
        var k :| 0 <= k < |kids| && InBranch(objs, kids[k], x);
        ChildUnder(objs, h, kids[k]);
        if x != kids[k] {
          UnderTrans(objs, h, kids[k], x);
        }
      }
    }
  }

  // Nothing in the branch of the next child has been rewritten yet.
  lemma BranchFresh(objs: seq<Obj>, h: nat, i: nat, done: seq<nat>, x: nat)
    requires Distinct(objs) && Ordered(objs) && i < |Scan(objs, h)|
    requires Covers(objs, Scan(objs, h), i, done) && InBranch(objs, Scan(objs, h)[i], x)
    ensures x !in done
  {
    hide Scan, Under, Distinct, Ordered, Link;
    var kids := Scan(objs, h);
    if x in done {
      var k :| 0 <= k < i && InBranch(objs, kids[k], x);
      ScanMembers(objs, h, kids[i]);
      ScanMembers(objs, h, kids[k]);
      OneBranch(objs, h, kids[i], kids[k], x);
      ScanNoDup(objs, h);
    }
  }

  lemma RetargetPlaces(objs: seq<Obj>, who: set<nat>, cut: nat, dst: string)
    ensures SamePlaces(Retarget(objs, who, cut, dst), objs)
  {
  }

  // Rewriting one branch after another.
  lemma RetargetBranch(objs: seq<Obj>, h: nat, src: string, dst: string, done: seq<nat>, at: nat, d: seq<nat>)
    requires Distinct(objs) && at < |objs| && Consistent(objs, h, src) && Under(objs, h, objs[at].handle)
    requires forall x :: x in d ==> Under(objs, objs[at].handle, x)
    requires forall x :: x in d || x == objs[at].handle ==> x !in done
    requires Consistent(objs, objs[at].handle, objs[at].path)
    ensures Retarget(Retarget(objs, Elems(done + [objs[at].handle]), |src|, dst), Elems(d), |objs[at].path|,
              Moved(objs[at].path, |src|, dst))
            == Retarget(objs, Elems(done + ([objs[at].handle] + d)), |src|, dst)
  {
    hide Under, Consistent, Splits;
    var c, cut := objs[at], |src|;
    var mid := Retarget(objs, Elems(done + [c.handle]), cut, dst);
    assert c in objs;
    PrefixBelow(objs, h, src, c);
    forall i | 0 <= i < |objs|
      ensures Retarget(mid, Elems(d), |c.path|, Moved(c.path, cut, dst))[i]
              == Retarget(objs, Elems(done + ([c.handle] + d)), cut, dst)[i]
    {
      assert objs[i] in objs;
      if objs[i].handle in d {
        if objs[i].handle == c.handle {
          UnderAbove(objs, c.handle, c.handle);
        }
        PrefixBelow(objs, c.handle, c.path, objs[i]);
        MovedTwice(objs[i].path, c.path, cut, dst);
      }
    }
  }

  // A child of a consistent folder is itself one.
  lemma ConsistentChild(objs: seq<Obj>, h: nat, src: string, dst: string, c: Obj)
    requires Consistent(objs, h, src) && Fits(objs, h, src, dst) && Distinct(objs) && Ordered(objs)
    requires c in objs && c.parent == h
    ensures Under(objs, h, c.handle) && OneBelow(c.path, src) && src <= c.path
    ensures Consistent(objs, c.handle, c.path) && Fits(objs, c.handle, c.path, Moved(c.path, |src|, dst))
  {
    hide Splits, Moved, Distinct;
    assert Link(objs, c.handle, h) && h < c.handle;
    assert Under(objs, h, c.handle);
    OneBelowPrefix(c.path, src);
    forall x: nat | Under(objs, c.handle, x) ensures Under(objs, h, x) {
      UnderTrans(objs, h, c.handle, x);
    }
    assert Consistent(objs, c.handle, c.path);
    hide Consistent;
    forall o | o in objs && Under(objs, c.handle, o.handle)
      ensures |o.path| < MAX_PATH && |Moved(o.path, |c.path|, Moved(c.path, |src|, dst))| < MAX_PATH
    {
      PrefixBelow(objs, c.handle, c.path, o);
      MovedTwice(o.path, c.path, |src|, dst);
    }
  }

  lemma KeptUnder(objs: seq<Obj>, who: set<nat>, cut: nat, dst: string, o: Obj)
    requires o in Retarget(objs, who, cut, dst) && o.handle !in who
    ensures o in objs
  {
    var i :| 0 <= i < |objs| && Retarget(objs, who, cut, dst)[i] == o;
    assert objs[i] in objs;
  }

  lemma LinkedUnder(objs: seq<Obj>, who: set<nat>, cut: nat, dst: string, c: nat, o: Obj)
    requires o in Retarget(objs, who, cut, dst) && Ordered(objs)
    requires o.parent == c || Under(objs, c, o.parent)
    ensures Under(objs, c, o.handle)
  {
    var i :| 0 <= i < |objs| && Retarget(objs, who, cut, dst)[i] == o;
    assert objs[i] in objs && Link(objs, o.handle, o.parent) && o.parent < o.handle;
  }

  // Rewriting elsewhere leaves a branch consistent.
  lemma ConsistentElsewhere(objs: seq<Obj>, who: set<nat>, cut: nat, dst: string, c: nat, path: string, dest: string)
    requires Consistent(objs, c, path) && Fits(objs, c, path, dest)
    requires forall x :: Under(objs, c, x) ==> x !in who
    requires Ordered(objs)
    ensures Consistent(Retarget(objs, who, cut, dst), c, path) && Fits(Retarget(objs, who, cut, dst), c, path, dest)
  {
    hide Under, Retarget, Ordered, SamePlaces, Moved, OneBelow;
    var mid := Retarget(objs, who, cut, dst);
    RetargetPlaces(objs, who, cut, dst);
    PlacesUnder(mid, objs, c);
    forall o | o in mid && Under(objs, c, o.handle) ensures o in objs {
      KeptUnder(objs, who, cut, dst, o);
    }
    forall o | o in mid && (o.parent == c || Under(objs, c, o.parent)) ensures Under(objs, c, o.handle) && o in objs {
      LinkedUnder(objs, who, cut, dst, c, o);
    }
  }

  // g_strlcpy into a path buffer
  function Strlcpy(path: string): (r: string)
    ensures r <= path && (r == path || |r| == MAX_PATH < |path|)
    ensures |r| <= MAX_PATH
  {
    if |path| > MAX_PATH then path[..MAX_PATH] else path
  }

  ghost predicate OnlyBelow(after: seq<Obj>, before: seq<Obj>, h: nat) {
    |after| == |before|
    && forall i :: 0 <= i < |after| && after[i].path != before[i].path ==> Under(before, h, before[i].handle)
  }

  ghost predicate Smooth(objs: seq<Obj>, h: nat, src: string, dst: string) {
    Consistent(objs, h, src) && Fits(objs, h, src, dst) && |dst| <= MAX_PATH
  }

  // ---- Where the rewriting could fail ----

  // At this child, and at everything that the rewriting reaches below it, the new path fits.
  ghost predicate ClearsAt(objs: seq<Obj>, c: Obj, src: string, dst: string, next: nat)
    decreases next - c.handle, 1
  {
    var pos := Strstr(c.path, src);
    pos == -1
    || var dest := Strlcpy(dst) + c.path[pos + |src|..];
       |dest| <= MAX_PATH && Clears(objs, c.handle, Strlcpy(c.path), dest, next)
  }

  // The same at every child of h. Nothing is said about how paths and tree agree.
  ghost predicate Clears(objs: seq<Obj>, h: nat, src: string, dst: string, next: nat)
    decreases next - h, 0
  {
    forall c :: c in objs && c.parent == h && h < c.handle < next ==> ClearsAt(objs, c, src, dst, next)
  }

  ghost predicate AllClear(objs: seq<Obj>, hs: seq<nat>, src: string, dst: string, next: nat) {
    forall c :: c in objs && c.handle in hs ==> ClearsAt(objs, c, src, dst, next)
  }

  lemma NoneClear(objs: seq<Obj>, src: string, dst: string, next: nat)
    ensures AllClear(objs, [], src, dst, next)
  {
  }

  lemma OneMoreClear(objs: seq<Obj>, hs: seq<nat>, i: nat, c: Obj, src: string, dst: string, next: nat)
    requires Distinct(objs) && c in objs && i < |hs| && hs[i] == c.handle
    ensures AllClear(objs, hs[..i + 1], src, dst, next)
      <==> AllClear(objs, hs[..i], src, dst, next) && ClearsAt(objs, c, src, dst, next)
  {
    hide ClearsAt;
    assert hs[..i + 1] == hs[..i] + [c.handle];
    forall q | q in objs && q.handle == c.handle ensures q == c { }
  }

  lemma ClearCase(objs: seq<Obj>, c: Obj, src: string, dst: string, next: nat)
    ensures var pos := Strstr(c.path, src);
      ClearsAt(objs, c, src, dst, next)
      <==> pos == -1
           || var dest := Strlcpy(dst) + c.path[pos + |src|..];
              |dest| <= MAX_PATH && Clears(objs, c.handle, Strlcpy(c.path), dest, next)
  {
  }

  lemma ClearChildren(objs: seq<Obj>, h: nat, src: string, dst: string, next: nat)
    requires Shape(objs, next)
    ensures Clears(objs, h, src, dst, next) <==> AllClear(objs, Scan(objs, h), src, dst, next)
  {
    hide ClearsAt, Scan, FoldersOnly;
    forall c | c in objs ensures c.handle in Scan(objs, h) <==> c.parent == h && h < c.handle < next {
      ScanMembers(objs, h, c.handle);
      if c.parent == h {
        assert Link(objs, c.handle, h);
      }
      if Link(objs, c.handle, h) {
        var q :| q in objs && q.handle == c.handle && q.parent == h;
        assert q == c;
      }
    }
  }

  // Where a change of paths elsewhere does not matter
  ghost predicate SameBelow(a: seq<Obj>, b: seq<Obj>, h: nat) {
    SamePlaces(a, b) && forall i :: 0 <= i < |b| && Under(b, h, b[i].handle) ==> a[i].path == b[i].path
  }

  lemma {:induction false} ClearsCarry(a: seq<Obj>, b: seq<Obj>, h: nat, src: string, dst: string, next: nat)
    requires SameBelow(a, b, h) && Clears(b, h, src, dst, next)
    ensures Clears(a, h, src, dst, next)
    decreases next - h, 0
  {
    hide ClearsAt, SameBelow;
    forall c | c in a && c.parent == h && h < c.handle < next ensures ClearsAt(a, c, src, dst, next) {
      SameChild(a, b, h, c);
      ClearsAtCarry(a, b, c, src, dst, next);
    }
  }

  lemma {:induction false} ClearsAtCarry(a: seq<Obj>, b: seq<Obj>, c: Obj, src: string, dst: string, next: nat)
    requires SameBelow(a, b, c.handle) && ClearsAt(b, c, src, dst, next)
    ensures ClearsAt(a, c, src, dst, next)
    decreases next - c.handle, 1
  {
    hide Clears, SameBelow, Strstr, Strlcpy;
    var pos := Strstr(c.path, src);
    if pos != -1 {
      ClearsCarry(a, b, c.handle, Strlcpy(c.path), Strlcpy(dst) + c.path[pos + |src|..], next);
    }
  }

  lemma SameChild(a: seq<Obj>, b: seq<Obj>, h: nat, c: Obj)
    requires SameBelow(a, b, h) && c in a && c.parent == h < c.handle
    ensures c in b && SameBelow(a, b, c.handle)
  {
    hide Under;
    var i :| 0 <= i < |a| && a[i] == c;
    assert b[i] in b;
    DirectlyUnder(b, b[i], h);
    SameFurther(a, b, h, c.handle);
  }

  lemma DirectlyUnder(objs: seq<Obj>, c: Obj, h: nat)
    requires c in objs && c.parent == h < c.handle
    ensures Under(objs, h, c.handle)
  {
    assert Link(objs, c.handle, h);
  }

  lemma SameFurther(a: seq<Obj>, b: seq<Obj>, h: nat, c: nat)
    requires SameBelow(a, b, h) && Under(b, h, c)
    ensures SameBelow(a, b, c)
  {
    hide Under;
    forall i | 0 <= i < |b| && Under(b, c, b[i].handle) ensures a[i].path == b[i].path {
      UnderTrans(b, h, c, b[i].handle);
    }
  }

  lemma SameBack(a: seq<Obj>, b: seq<Obj>, h: nat)
    requires SameBelow(a, b, h)
    ensures SameBelow(b, a, h)
  {
    hide Under;
    PlacesUnder(a, b, h);
  }

  lemma ClearsSame(a: seq<Obj>, b: seq<Obj>, h: nat, src: string, dst: string, next: nat)
    requires SameBelow(a, b, h)
    ensures Clears(a, h, src, dst, next) <==> Clears(b, h, src, dst, next)
  {
    hide Clears, SameBelow;
    SameBack(a, b, h);
    if Clears(b, h, src, dst, next) {
      ClearsCarry(a, b, h, src, dst, next);
    }
    if Clears(a, h, src, dst, next) {
      ClearsCarry(b, a, h, src, dst, next);
    }
  }

  // The branches of the children from the i-th on still have their paths.
  ghost predicate LaterSame(now: seq<Obj>, before: seq<Obj>, kids: seq<nat>, i: int) {
    |now| == |before| && 0 <= i
    && forall k, x :: i <= k < |kids| && 0 <= x < |before| && InBranch(before, kids[k], before[x].handle)
         ==> now[x].path == before[x].path
  }

  lemma LaterStart(objs: seq<Obj>, kids: seq<nat>)
    ensures LaterSame(objs, objs, kids, 0)
  {
  }

  // The next child and what lies below it are as they were, also once the child itself is placed.
  lemma LaterNext(mid: seq<Obj>, before: seq<Obj>, kids: seq<nat>, i: nat, at: nat, dest: string)
    requires LaterSame(mid, before, kids, i) && SamePlaces(mid, before) && i < |kids|
    requires at < |before| && before[at].handle == kids[i]
    ensures mid[at] == before[at] && SameBelow(mid[at := mid[at].(path := dest)], before, kids[i])
  {
    hide Under;
    assert InBranch(before, kids[i], before[at].handle);
    forall x | 0 <= x < |before| && Under(before, kids[i], before[x].handle)
      ensures mid[at := mid[at].(path := dest)][x].path == before[x].path
    {
      UnderAbove(before, kids[i], before[x].handle);
      assert InBranch(before, kids[i], before[x].handle);
    }
  }

  lemma LaterSkip(now: seq<Obj>, before: seq<Obj>, kids: seq<nat>, i: nat)
    requires LaterSame(now, before, kids, i)
    ensures LaterSame(now, before, kids, i + 1)
  {
    hide InBranch;
  }

  lemma TopOrBelow(objs: seq<Obj>, c: nat, x: nat)
    ensures InBranch(objs, c, x) <==> x == c || Under(objs, c, x)
  {
  }

  // Rewriting one branch leaves the later ones alone.
  lemma LaterMoved(now: seq<Obj>, start: seq<Obj>, mid: seq<Obj>, before: seq<Obj>, h: nat, i: nat, at: nat,
                   dest: string, next: nat)
    requires Shape(before, next) && i < |Scan(before, h)| && LaterSame(mid, before, Scan(before, h), i)
    requires SamePlaces(mid, before) && at < |before| && before[at].handle == Scan(before, h)[i]
    requires start == mid[at := mid[at].(path := dest)]
    requires SamePlaces(now, start) && OnlyBelow(now, start, before[at].handle)
    ensures LaterSame(now, before, Scan(before, h), i + 1)
  {
    hide Scan, Under, Shape, InBranch, FoldersOnly;
    var kids := Scan(before, h);
    ShapeParts(before, next);
    PlacesUnder(start, before, kids[i]);
    forall k, x | i + 1 <= k < |kids| && 0 <= x < |before| && InBranch(before, kids[k], before[x].handle)
      ensures now[x].path == before[x].path
    {
      if now[x].path != mid[x].path {
        TopOrBelow(before, kids[i], before[x].handle);
        TopOrBelow(before, kids[k], before[x].handle);
        ScanMembers(before, h, kids[i]);
        ScanMembers(before, h, kids[k]);
        OneBranch(before, h, kids[i], kids[k], before[x].handle);
        ScanNoDup(before, h);
      }
    }
  }

  // ---- Steps of the rewriting loop ----

  lemma Untouched(objs: seq<Obj>, h: nat, cut: nat, dst: string)
    ensures SamePlaces(objs, objs) && OnlyBelow(objs, objs, h)
    ensures Covers(objs, Scan(objs, h), 0, []) && Retarget(objs, Elems([]), cut, dst) == objs
  {
  }

  lemma ChildAt(mid: seq<Obj>, before: seq<Obj>, h: nat, c: nat, at: int)
    requires SamePlaces(mid, before) && c in Scan(before, h) && Distinct(before)
    requires at == -1 <==> !Listed(mid, c)
    requires at != -1 ==> 0 <= at < |mid| && mid[at].handle == c
    ensures 0 <= at < |before| == |mid| && before[at].handle == c && before[at].parent == h && before[at] in before
  {
    ScanMembers(before, h, c);
    var k :| 0 <= k < |before| && before[k].handle == c && before[k].parent == h;
    assert mid[k] in mid && mid[k].handle == c;
    assert k == at;
  }

  // The next child still has its old path, which starts with src and fits after the move.
  lemma NextChild(before: seq<Obj>, h: nat, src: string, dst: string, done: seq<nat>, i: nat, at: nat)
    requires Smooth(before, h, src, dst) && Distinct(before) && Ordered(before)
    requires i < |Scan(before, h)| && Covers(before, Scan(before, h), i, done)
    requires at < |before| && before[at].handle == Scan(before, h)[i] && before[at].parent == h && before[at] in before
    ensures Retarget(before, Elems(done), |src|, dst)[at] == before[at]
    ensures Strstr(before[at].path, src) == 0
            && Strlcpy(dst) + before[at].path[|src|..] == Moved(before[at].path, |src|, dst)
    ensures Strlcpy(before[at].path) == before[at].path && |Moved(before[at].path, |src|, dst)| < MAX_PATH
  {
    hide Scan, Under, Covers, Consistent, Distinct, Ordered, OneBelow;
    ConsistentChild(before, h, src, dst, before[at]);
    BranchFresh(before, h, i, done, before[at].handle);
    StrstrPrefix(before[at].path, src);
  }

  lemma Placed(after: seq<Obj>, mid: seq<Obj>, before: seq<Obj>, at: nat, h: nat, dest: string, next: nat)
    requires at < |mid| && after == mid[at := mid[at].(path := dest)]
    requires SamePlaces(mid, before) && OnlyBelow(mid, before, h) && Under(before, h, before[at].handle)
             && Shape(before, next)
    ensures SamePlaces(after, before) && OnlyBelow(after, before, h) && Shape(after, next)
  {
    hide Under, Shape;
    PlacesShape(after, before, next);
  }

  lemma ChildPlaced(before: seq<Obj>, h: nat, src: string, dst: string, done: seq<nat>, i: nat, at: nat)
    requires Smooth(before, h, src, dst) && Distinct(before) && Ordered(before)
    requires i < |Scan(before, h)| && Covers(before, Scan(before, h), i, done)
    requires at < |before| && before[at].handle == Scan(before, h)[i] && before[at].parent == h && before[at] in before
    ensures var c, dest := before[at], Moved(before[at].path, |src|, dst);
      var mid := Retarget(before, Elems(done), |src|, dst);
      var after := Retarget(before, Elems(done + [c.handle]), |src|, dst);
      after == mid[at := mid[at].(path := dest)] && Smooth(after, c.handle, c.path, dest)
  {
    hide Scan, Under, Covers, Consistent, Ordered, OneBelow, Strlcpy;
    var c, dest := before[at], Moved(before[at].path, |src|, dst);
    NextChild(before, h, src, dst, done, i, at);
    ConsistentChild(before, h, src, dst, c);
    forall x | Under(before, c.handle, x) ensures x !in done + [c.handle] {
      BranchFresh(before, h, i, done, x);
      UnderAbove(before, c.handle, x);
    }
    ConsistentElsewhere(before, Elems(done + [c.handle]), |src|, dst, c.handle, c.path, dest);
  }

  lemma BelowBelow(after: seq<Obj>, start: seq<Obj>, before: seq<Obj>, h: nat, c: nat, next: nat)
    requires SamePlaces(after, start) && OnlyBelow(after, start, c)
    requires SamePlaces(start, before) && OnlyBelow(start, before, h) && Under(before, h, c) && Shape(before, next)
    ensures SamePlaces(after, before) && OnlyBelow(after, before, h) && Shape(after, next)
  {
    hide Under, Shape;
    PlacesUnder(start, before, c);
    forall i | 0 <= i < |after| && after[i].path != before[i].path ensures Under(before, h, before[i].handle) {
      if after[i].path != start[i].path {
        UnderTrans(before, h, c, before[i].handle);
      }
    }
    PlacesShape(after, before, next);
  }

  lemma NoBranch(objs: seq<Obj>, at: nat, cut: nat, dest: string)
    requires at < |objs| && objs[at].fmt != FMT_ASSOCIATION && FoldersOnly(objs)
    ensures forall x :: !Under(objs, objs[at].handle, x)
    ensures Retarget(objs, Elems([]), cut, dest) == objs
  {
    hide Scan, Under;
    assert objs[at] in objs;
    FileIsLeaf(objs, objs[at]);
    forall x ensures !Under(objs, objs[at].handle, x) {
      if Under(objs, objs[at].handle, x) {
        var c := BranchOf(objs, objs[at].handle, x);
      }
    }
  }

  lemma BranchDone(before: seq<Obj>, h: nat, src: string, dst: string, done: seq<nat>, i: nat, at: nat, d: seq<nat>)
    requires Smooth(before, h, src, dst) && Distinct(before) && Ordered(before)
    requires i < |Scan(before, h)| && Covers(before, Scan(before, h), i, done)
    requires at < |before| && before[at].handle == Scan(before, h)[i] && before[at].parent == h && before[at] in before
    requires var start := Retarget(before, Elems(done + [before[at].handle]), |src|, dst);
      forall x :: x in d <==> Under(start, before[at].handle, x)
    ensures Covers(before, Scan(before, h), i + 1, done + [before[at].handle] + d)
    ensures var start := Retarget(before, Elems(done + [before[at].handle]), |src|, dst);
      Retarget(start, Elems(d), |before[at].path|, Moved(before[at].path, |src|, dst))
      == Retarget(before, Elems(done + [before[at].handle] + d), |src|, dst)
  {
    hide Scan, Under, Consistent, Ordered, OneBelow, Strlcpy, Moved, Retarget, Distinct;
    var c := before[at];
    var start := Retarget(before, Elems(done + [c.handle]), |src|, dst);
    RetargetPlaces(before, Elems(done + [c.handle]), |src|, dst);
    PlacesUnder(start, before, c.handle);
    ConsistentChild(before, h, src, dst, c);
    forall x | x in d || x == c.handle ensures x !in done {
      BranchFresh(before, h, i, done, x);
    }
    RetargetBranch(before, h, src, dst, done, at, d);
    assert done + ([c.handle] + d) == done + [c.handle] + d;
    CoversNext(before, Scan(before, h), i, done, d);
  }

  lemma CoversNext(objs: seq<Obj>, kids: seq<nat>, i: nat, done: seq<nat>, d: seq<nat>)
    requires i < |kids| && Covers(objs, kids, i, done) && forall x :: x in d <==> Under(objs, kids[i], x)
    ensures Covers(objs, kids, i + 1, done + [kids[i]] + d)
  {
    hide Under;
    var all := done + [kids[i]] + d;
    forall x ensures x in all <==> exists k :: 0 <= k < i + 1 && InBranch(objs, kids[k], x) {
      assert x in all <==> x in done || InBranch(objs, kids[i], x);
    }
  }

  /**
   _entity_set_child_object_path. Whatever the paths are, nothing but paths below h changes, and
   the branch that would truncate a path and free its object (`bad`) is reached exactly when
   some path met on the way does not clear. On a consistent folder whose paths fit, exactly the
   prefix src of every path below h becomes dst.
   */
  method SetChildPaths(s: Store, h: nat, src: string, dst: string) returns (bad: bool, ghost done: seq<nat>)
    requires Shape(s.objs, s.next) && Listed(s.objs, h)
    modifies s`objs
    ensures SamePlaces(s.objs, old(s.objs)) && OnlyBelow(s.objs, old(s.objs), h)
    ensures bad <==> !Clears(old(s.objs), h, src, dst, s.next)
    ensures Smooth(old(s.objs), h, src, dst) ==> !bad && (forall x :: x in done <==> Under(old(s.objs), h, x))
    ensures Smooth(old(s.objs), h, src, dst) ==> s.objs == Retarget(old(s.objs), Elems(done), |src|, dst)
    decreases s.next - h, 0
  {
    hide Shape, Scan, Under, Distinct, Ordered, FoldersOnly, Link, Smooth, Covers, Retarget, OnlyBelow, SamePlaces,
         InBranch, Elems, Moved, Strlcpy, OccursAt, Strstr, Clears, ClearsAt, AllClear, LaterSame, SameBelow;
    bad, done := false, [];
    ghost var before := s.objs;
    ghost var good := Smooth(before, h, src, dst);
    ShapeParts(before, s.next);
    Untouched(before, h, |src|, dst);
    var kids := ChildHandles(s.objs, h);
    LaterStart(before, kids);
    NoneClear(before, src, dst, s.next);
    var i := 0;
    while i < |kids|
      invariant 0 <= i <= |kids|
      invariant SamePlaces(s.objs, before) && OnlyBelow(s.objs, before, h) && LaterSame(s.objs, before, kids, i)
      invariant !bad <==> AllClear(before, kids[..i], src, dst, s.next)
      invariant good ==> !bad && Covers(before, kids, i, done) && s.objs == Retarget(before, Elems(done), |src|, dst)
    {
      var c := kids[i];
      ghost var prior, mid := done, s.objs;
      var at := Lookup(s.objs, c);
      ChildAt(mid, before, h, c, at);
      ChildUnder(before, h, c);
      UnderAbove(before, h, c);
      LaterNext(mid, before, kids, i, at, "");
      OneMoreClear(before, kids, i, before[at], src, dst, s.next);
      ClearCase(before, before[at], src, dst, s.next);
      LaterSkip(mid, before, kids, i);
      var path := s.objs[at].path;
      if good {
        NextChild(before, h, src, dst, prior, i, at);
        ChildPlaced(before, h, src, dst, prior, i, at);
      }
      var pos := Strstr(path, src);
      if pos != -1 {
        var dest := Strlcpy(dst) + path[pos + |src|..];
        if |dest| > MAX_PATH {
          bad := true;
        } else {
          ghost var start := s.objs[at := s.objs[at].(path := dest)];
          PlacesShape(mid, before, s.next);
          Placed(start, mid, before, at, h, dest, s.next);
          LaterNext(mid, before, kids, i, at, dest);
          ClearsSame(start, before, c, Strlcpy(path), dest, s.next);
          var b;
          ghost var d;
          b, d := MoveBranch(s, at, dest);
          bad := bad || b;
          BelowBelow(s.objs, start, before, h, c, s.next);
          LaterMoved(s.objs, start, mid, before, h, i, at, dest, s.next);
          done := done + [c] + d;
          if good {
            BranchDone(before, h, src, dst, prior, i, at, d);
          }
        }
      }
      i := i + 1;
    }
    assert kids[..i] == kids;
    ClearChildren(before, h, src, dst, s.next);
    if good {
      CoversAll(before, h, done);
    }
  }

  // Give the object at index `at` its new path and, if it is a folder, carry on below it.
  method MoveBranch(s: Store, at: nat, dest: string) returns (bad: bool, ghost d: seq<nat>)
    requires Shape(s.objs, s.next) && at < |s.objs|
    modifies s`objs
    ensures var o := old(s.objs)[at];
      var start := old(s.objs)[at := o.(path := dest)];
      && SamePlaces(s.objs, start) && OnlyBelow(s.objs, start, o.handle)
      && (bad <==> !Clears(start, o.handle, Strlcpy(o.path), dest, s.next))
      && (Smooth(start, o.handle, Strlcpy(o.path), dest) ==>
            && !bad && (forall x :: x in d <==> Under(start, o.handle, x))
            && s.objs == Retarget(start, Elems(d), |Strlcpy(o.path)|, dest))
    decreases s.next - s.objs[at].handle, 1
  {
    hide Shape, Scan, Under, Distinct, Ordered, FoldersOnly, Link, Smooth, Retarget, OnlyBelow, Elems, Clears;
    bad, d := false, [];
    var o := s.objs[at];
    PlacesShape(s.objs[at := o.(path := dest)], s.objs, s.next);
    s.objs := s.objs[at := o.(path := dest)];
    ShapeParts(s.objs, s.next);
    assert s.objs[at] in s.objs;
    if o.fmt == FMT_ASSOCIATION {
      bad, d := SetChildPaths(s, o.handle, Strlcpy(o.path), dest);
    } else {
      NoBranch(s.objs, at, |Strlcpy(o.path)|, dest);
      LeafClears(s.objs, s.objs[at], Strlcpy(o.path), dest, s.next);
      Untouched(s.objs, o.handle, 0, "");
    }
  }

  lemma LeafClears(objs: seq<Obj>, o: Obj, src: string, dst: string, next: nat)
    requires FoldersOnly(objs) && o in objs && o.fmt != FMT_ASSOCIATION
    ensures Clears(objs, o.handle, src, dst, next)
  {
    hide ClearsAt;
  }

  // ---- The check before the move ----

  // The answer of a look at a path's open files, which belongs to other processes.
  method IsFileOpened() returns (open: bool) {
    open := *;
  }

  // What the check asks of this child, and of everything that it reaches below it.
  ghost predicate PassesAt(objs: seq<Obj>, c: Obj, src: string, dst: string, next: nat)
    decreases next - c.handle, 1
  {
    var pos := Strstr(c.path, src);
    && |Strlcpy(c.path)| < MAX_PATH
    && (pos == -1
        || var rest := c.path[pos + |src|..];
           && |src| < MAX_PATH - 1 && |dst| + |rest| < MAX_PATH
           && Passes(objs, c.handle, Strlcpy(c.path), dst + rest, next))
  }

  // ... and at every child of h.
  ghost predicate Passes(objs: seq<Obj>, h: nat, src: string, dst: string, next: nat)
    decreases next - h, 0
  {
    && |src| < MAX_PATH && |dst| < MAX_PATH
    && forall c :: c in objs && c.parent == h && h < c.handle < next ==> PassesAt(objs, c, src, dst, next)
  }

  /** What the check accepts, the rewriting never fails on, whether or not paths and tree agree. */
  lemma {:induction false} PassesClears(objs: seq<Obj>, h: nat, src: string, dst: string, next: nat)
    requires Passes(objs, h, src, dst, next)
    ensures Clears(objs, h, src, dst, next)
    decreases next - h, 0
  {
    hide PassesAt, ClearsAt;
    forall c | c in objs && c.parent == h && h < c.handle < next ensures ClearsAt(objs, c, src, dst, next) {
      PassesClearsAt(objs, c, src, dst, next);
    }
  }

  lemma {:induction false} PassesClearsAt(objs: seq<Obj>, c: Obj, src: string, dst: string, next: nat)
    requires PassesAt(objs, c, src, dst, next) && |dst| < MAX_PATH
    ensures ClearsAt(objs, c, src, dst, next)
    decreases next - c.handle, 1
  {
    hide Passes, Clears, Strstr;
    var pos := Strstr(c.path, src);
    if pos != -1 {
      PassesClears(objs, c.handle, Strlcpy(c.path), dst + c.path[pos + |src|..], next);
    }
  }

  ghost predicate AllPass(objs: seq<Obj>, hs: seq<nat>, src: string, dst: string, next: nat) {
    forall c :: c in objs && c.handle in hs ==> PassesAt(objs, c, src, dst, next)
  }

  lemma OneMorePasses(objs: seq<Obj>, hs: seq<nat>, i: nat, c: Obj, src: string, dst: string, next: nat)
    requires Distinct(objs) && c in objs && i < |hs| && hs[i] == c.handle
    requires AllPass(objs, hs[..i], src, dst, next) && PassesAt(objs, c, src, dst, next)
    ensures AllPass(objs, hs[..i + 1], src, dst, next)
  {
    hide PassesAt;
    assert hs[..i + 1] == hs[..i] + [c.handle];
    forall q | q in objs && q.handle == c.handle ensures q == c { }
  }

  lemma PassingChildren(objs: seq<Obj>, h: nat, src: string, dst: string, next: nat)
    requires Shape(objs, next) && |src| < MAX_PATH && |dst| < MAX_PATH
    requires AllPass(objs, Scan(objs, h), src, dst, next)
    ensures Passes(objs, h, src, dst, next)
  {
    hide PassesAt, Scan, FoldersOnly;
    forall c | c in objs && c.parent == h && h < c.handle < next ensures c.handle in Scan(objs, h) {
      ScanMembers(objs, h, c.handle);
      assert Link(objs, c.handle, h);
    }
  }

  lemma PassCase(objs: seq<Obj>, h: nat, c: Obj, src: string, dst: string, next: nat)
    requires Shape(objs, next) && c in objs && c.parent == h
    ensures !PassesAt(objs, c, src, dst, next) ==> !Passes(objs, h, src, dst, next)
    ensures var pos := Strstr(c.path, src);
      PassesAt(objs, c, src, dst, next)
      <==> |Strlcpy(c.path)| < MAX_PATH
           && (pos == -1
               || var rest := c.path[pos + |src|..];
                  && |src| < MAX_PATH - 1 && |dst| + |rest| < MAX_PATH
                  && Passes(objs, c.handle, Strlcpy(c.path), dst + rest, next))
  {
    hide FoldersOnly, Distinct;
  }

  // ---- The check on a folder whose paths agree with the tree ----

  /** There the check accepts only paths that fit at every depth, and refuses only near the limit. */
  lemma {:induction false} CheckMeaning(objs: seq<Obj>, h: nat, src: string, dst: string, next: nat)
    requires Shape(objs, next) && Consistent(objs, h, src)
    ensures Passes(objs, h, src, dst, next) ==> Fits(objs, h, src, dst)
    ensures !Passes(objs, h, src, dst, next) ==> NearLimit(objs, h, src, dst)
    decreases next - h, 0
  {
    hide Shape, Scan, Under, Distinct, Ordered, FoldersOnly, Consistent, Fits, NearLimit, FitsBranch, PassesAt, Moved;
    ShapeParts(objs, next);
    var kids := Scan(objs, h);
    if |src| >= MAX_PATH || |dst| >= MAX_PATH {
      NearTop(objs, h, src, dst);
    } else if Passes(objs, h, src, dst, next) {
      forall k | 0 <= k < |kids| ensures FitsBranch(objs, kids[k], src, dst) {
        ScanMembers(objs, h, kids[k]);
        var c :| c in objs && c.handle == kids[k] && c.parent == h;
        CheckMeaningAt(objs, h, c, src, dst, next);
      }
      FitsJoin(objs, h, src, dst);
    } else {
      var c :| c in objs && c.parent == h && h < c.handle < next && !PassesAt(objs, c, src, dst, next);
      CheckMeaningAt(objs, h, c, src, dst, next);
    }
  }

  lemma {:induction false} CheckMeaningAt(objs: seq<Obj>, h: nat, c: Obj, src: string, dst: string, next: nat)
    requires Shape(objs, next) && Consistent(objs, h, src) && c in objs && c.parent == h
    ensures h < c.handle < next
    ensures PassesAt(objs, c, src, dst, next) ==> FitsBranch(objs, c.handle, src, dst)
    ensures !PassesAt(objs, c, src, dst, next) ==> NearLimit(objs, h, src, dst)
    decreases next - c.handle, 1
  {
    hide Shape, Under, Distinct, FoldersOnly, Consistent, Fits, NearLimit, FitsBranch, Passes, Strstr, OccursAt, Moved,
         Strlcpy;
    ShapeParts(objs, next);
    DirectlyUnder(objs, c, h);
    CheckedChild(objs, h, src, dst, c);
    var dest := Moved(c.path, |src|, dst);
    CheckMeaning(objs, c.handle, c.path, dest, next);
    if PassesAt(objs, c, src, dst, next) {
      FitsDown(objs, h, src, dst, c);
    } else {
      if |src| >= MAX_PATH - 1 {
        NearTop(objs, h, src, dst);
      }
      NearBelow(objs, h, src, dst, c);
    }
  }

  /**
   _entity_check_child_obj_path: unless a file is open, it accepts exactly what Passes says. On a
   consistent folder that means that every path fits; a refusal means that some path nears the limit.
   */
  method CheckChildPaths(s: Store, h: nat, src: string, dst: string) returns (ok: bool, busy: bool)
    requires Shape(s.objs, s.next) && Listed(s.objs, h)
    ensures ok ==> !busy && Passes(s.objs, h, src, dst, s.next) && Clears(s.objs, h, src, dst, s.next)
    ensures !ok ==> busy || !Passes(s.objs, h, src, dst, s.next)
    ensures ok && Consistent(s.objs, h, src) ==> Fits(s.objs, h, src, dst)
    ensures ok ==> |src| < MAX_PATH && |dst| < MAX_PATH
    ensures !ok && Consistent(s.objs, h, src) ==> busy || NearLimit(s.objs, h, src, dst)
    decreases s.next - h
  {
    hide Shape, Scan, Under, Distinct, Ordered, FoldersOnly, Link, Consistent, Fits, NearLimit, Strlcpy, OccursAt,
         Strstr, Listed, Passes, PassesAt, AllPass, Clears;
    ok, busy := false, false;
    ShapeParts(s.objs, s.next);
    if Consistent(s.objs, h, src) {
      CheckMeaning(s.objs, h, src, dst, s.next);
    }
    PassBasics(s.objs, h, src, dst, s.next);
    if |dst| > MAX_PATH - 1 || |src| > MAX_PATH - 1 {
      return;
    }
    var kids := ChildHandles(s.objs, h);
    var i := 0;
    while i < |kids|
      invariant 0 <= i <= |kids| && !busy
      invariant AllPass(s.objs, kids[..i], src, dst, s.next)
    {
      var c := kids[i];
      var at := Lookup(s.objs, c);
      Untouched(s.objs, h, 0, "");
      ChildAt(s.objs, s.objs, h, c, at);
      ChildUnder(s.objs, h, c);
      UnderAbove(s.objs, h, c);
      PassCase(s.objs, h, s.objs[at], src, dst, s.next);
      var path := s.objs[at].path;
      var open := IsFileOpened();
      if open {
        busy := true;
        return;
      }
      var temp := Strlcpy(path);
      if |temp| > MAX_PATH - 1 {
        return;
      }
      var pos := Strstr(path, src);
      if pos != -1 {
        if |src| >= MAX_PATH - 1 {
          return;
        }
        var rest := path[pos + |src|..];
        if |dst| + |rest| >= MAX_PATH {
          return;
        }
        var deep;
        deep, busy := CheckChildPaths(s, c, temp, dst + rest);
        if !deep {
          return;
        }
      }
      OneMorePasses(s.objs, kids, i, s.objs[at], src, dst, s.next);
      i := i + 1;
    }
    assert kids[..i] == kids;
    PassingChildren(s.objs, h, src, dst, s.next);
    PassesClears(s.objs, h, src, dst, s.next);
    ok := true;
  }

  lemma PassBasics(objs: seq<Obj>, h: nat, src: string, dst: string, next: nat)
    ensures Passes(objs, h, src, dst, next) ==> |src| < MAX_PATH && |dst| < MAX_PATH
    ensures AllPass(objs, [], src, dst, next)
  {
    hide PassesAt;
  }

  ghost predicate FitsBranch(objs: seq<Obj>, c: nat, src: string, dst: string) {
    forall o :: o in objs && InBranch(objs, c, o.handle) ==>
        |o.path| < MAX_PATH && |Moved(o.path, |src|, dst)| < MAX_PATH
  }

  lemma NearTop(objs: seq<Obj>, h: nat, src: string, dst: string)
    requires |src| >= MAX_PATH - 1 || |dst| >= MAX_PATH - 1
    ensures NearLimit(objs, h, src, dst)
  {
  }

  // What the loop of the check knows about one child.
  lemma CheckedChild(objs: seq<Obj>, h: nat, src: string, dst: string, c: Obj)
    requires Consistent(objs, h, src) && Distinct(objs) && Ordered(objs) && c in objs && c.parent == h
    ensures src <= c.path && Strstr(c.path, src) == 0 && Moved(c.path, |src|, dst) == dst + c.path[|src|..]
    ensures Consistent(objs, c.handle, c.path)
    ensures |Strlcpy(c.path)| > MAX_PATH - 1 ==> NearLimit(objs, h, src, dst)
    ensures |Strlcpy(c.path)| <= MAX_PATH - 1 ==> Strlcpy(c.path) == c.path
    ensures |dst| + |c.path[|src|..]| >= MAX_PATH ==> NearLimit(objs, h, src, dst)
  {
    hide Splits, Distinct, OccursAt;
    assert Link(objs, c.handle, h) && h < c.handle;
    assert Under(objs, h, c.handle);
    OneBelowPrefix(c.path, src);
    StrstrPrefix(c.path, src);
    forall x: nat | Under(objs, c.handle, x) ensures Under(objs, h, x) {
      UnderTrans(objs, h, c.handle, x);
    }
    assert Consistent(objs, c.handle, c.path);
  }

  lemma NearBelow(objs: seq<Obj>, h: nat, src: string, dst: string, c: Obj)
    requires Consistent(objs, c.handle, c.path) && Distinct(objs) && src <= c.path && c in objs
    requires Under(objs, h, c.handle) && c.parent == h
    ensures NearLimit(objs, c.handle, c.path, Moved(c.path, |src|, dst)) ==> NearLimit(objs, h, src, dst)
  {
    hide Under, Consistent, Distinct, OneBelow, Moved;
    if NearLimit(objs, c.handle, c.path, Moved(c.path, |src|, dst)) && |c.path| < MAX_PATH - 1
       && |Moved(c.path, |src|, dst)| < MAX_PATH - 1 {
      var dest := Moved(c.path, |src|, dst);
      var o :| o in objs && Under(objs, c.handle, o.handle)
               && (|o.path| >= MAX_PATH - 1 || |Moved(o.path, |c.path|, dest)| >= MAX_PATH - 1);
      UnderTrans(objs, h, c.handle, o.handle);
      PrefixBelow(objs, c.handle, c.path, o);
      MovedTwice(o.path, c.path, |src|, dst);
    }
  }

  lemma FitsDown(objs: seq<Obj>, h: nat, src: string, dst: string, c: Obj)
    requires Consistent(objs, c.handle, c.path) && Distinct(objs) && src <= c.path && c in objs
    requires Fits(objs, c.handle, c.path, Moved(c.path, |src|, dst))
    requires |c.path| < MAX_PATH && |Moved(c.path, |src|, dst)| < MAX_PATH
    ensures FitsBranch(objs, c.handle, src, dst)
  {
    hide Under, Consistent, OneBelow, Moved;
    forall o | o in objs && InBranch(objs, c.handle, o.handle)
      ensures |o.path| < MAX_PATH && |Moved(o.path, |src|, dst)| < MAX_PATH
    {
      if o.handle != c.handle {
        PrefixBelow(objs, c.handle, c.path, o);
        MovedTwice(o.path, c.path, |src|, dst);
      } else {
        assert o == c;
      }
    }
  }

  lemma FitsJoin(objs: seq<Obj>, h: nat, src: string, dst: string)
    requires forall k :: 0 <= k < |Scan(objs, h)| ==> FitsBranch(objs, Scan(objs, h)[k], src, dst)
    ensures Fits(objs, h, src, dst)
  {
    hide Under, Scan, Moved;
    forall o | o in objs && Under(objs, h, o.handle)
      ensures |o.path| < MAX_PATH && |Moved(o.path, |src|, dst)| < MAX_PATH {
      var c := BranchOf(objs, h, o.handle);
      var k :| 0 <= k < |Scan(objs, h)| && Scan(objs, h)[k] == c;
      assert FitsBranch(objs, c, src, dst);
    }
  }

  // ---- The whole operation ----

  datatype Err = NoError | General | AccessDenied | InvalidObjectHandle | InvalidPropFormat

  // The list after h moved to dst with everything below it.
  ghost predicate MovedTree(after: seq<Obj>, before: seq<Obj>, h: nat, src: string, dst: string) {
    exists who :: TreeOf(before, h, who) && after == Retarget(before, who, |src|, dst)
  }

  ghost predicate TreeOf(objs: seq<Obj>, h: nat, who: set<nat>) {
    forall x :: x in who <==> InBranch(objs, h, x)
  }

  // Where a rename leads, and whether that path is accepted.
  function Target(root: string, path: string, name: string): (bool, string) {
    CreatePath(root, DirOf(Strlcpy(path)), name)
  }

  // When a rename goes through on a file system that does not fail.
  ghost predicate Renames(objs: seq<Obj>, o: Obj, root: string, name: string, next: nat) {
    var orig, (fits, dst) := Strlcpy(o.path), Target(root, o.path, name);
    && fits
    && (SameIgnoringCase(orig, dst)
        || (SameIgnoringCase(Extension(orig), Extension(dst)) && Passes(objs, o.handle, orig, dst, next)))
  }

  // Each answer to a rename, and exactly when it is given on a file system that does not fail
  ghost predicate Answers(objs: seq<Obj>, o: Obj, root: string, name: string, next: nat, ok: bool, denied: bool,
                          badFormat: bool, general: bool)
  {
    var orig, (fits, dst) := Strlcpy(o.path), Target(root, o.path, name);
    var same, extension := SameIgnoringCase(orig, dst), SameIgnoringCase(Extension(orig), Extension(dst));
    && (ok <==> Renames(objs, o, root, name, next))
    && (denied <==> !fits)
    && (badFormat <==> fits && !same && !extension)
    && (general <==> fits && !same && extension && !Passes(objs, o.handle, orig, dst, next))
  }

  // The list after a rename of o that was answered OK: a change of letter case alone is ignored;
  // any other gives o its new path, and in a store whose paths agree with its tree moves
  // everything below o, after which they agree exactly when the new path fits under the parent.
  ghost predicate RenamedAs(after: seq<Obj>, before: seq<Obj>, o: Obj, root: string, name: string) {
    var dst := Target(root, o.path, name).1;
    if SameIgnoringCase(Strlcpy(o.path), dst) then after == before
    else
      && Listed(after, o.handle) && Find(after, o.handle).path == dst
      && (PathsOk(before) ==>
            && MovedTree(after, before, o.handle, o.path, dst)
            && (PathsOk(after) <==> Agrees(before, o.parent, dst)))
  }

  /**
   Setting the file-name property (src/mtp_cmd_handler_util.c:1276-1334). An error leaves the list
   as it was; success gives the object its new path, with everything below it. Without an open
   file or a failed move each answer has its own condition. The branches that truncate a path or
   free an object are never reached.
   */
  method RenameObject(s: Store, h: nat, name: string) returns (err: Err, truncated: bool)
    requires s.Valid()
    modifies s`objs, s`faults
    ensures s.Valid() && SamePlaces(s.objs, old(s.objs)) && s.faults >= old(s.faults)
    ensures !truncated
    ensures err != NoError ==> s.objs == old(s.objs)
    ensures err == InvalidObjectHandle <==> !Listed(old(s.objs), h)
    ensures err == NoError ==> Renames(old(s.objs), Find(old(s.objs), h), s.root, name, s.next)
    ensures s.faults > old(s.faults) ==> err in {General, AccessDenied}
    // without a failure each answer has its own condition
    ensures Listed(old(s.objs), h) && s.faults == old(s.faults) ==>
      Answers(old(s.objs), Find(old(s.objs), h), s.root, name, s.next, err == NoError, err == AccessDenied,
              err == InvalidPropFormat, err == General)
    ensures forall i :: 0 <= i < |s.objs| && s.objs[i].path != old(s.objs)[i].path
              ==> InBranch(old(s.objs), h, s.objs[i].handle)
    ensures err == NoError ==> RenamedAs(s.objs, old(s.objs), Find(old(s.objs), h), s.root, name)
  {
    hide Inv, Shape, Scan, Under, Distinct, Ordered, FoldersOnly, Link, Consistent, Fits, NearLimit, Smooth, PathsOk,
         OneBelow, Splits, MovedTree, Agrees, SamePlaces, OnlyBelow, Retarget, CreatePath, InBranch, SameIgnoringCase,
         Find, Elems, Moved, Passes, Clears, Extension, Strlcpy, DirOf, Listed;
    truncated := false;
    ghost var before := s.objs;
    Untouched(before, h, 0, "");
    var at := Lookup(s.objs, h);
    if at == -1 {
      return InvalidObjectHandle, truncated;
    }
    InvBasics(before, s.next, s.entered);
    InvShape(before, s.next, s.entered);
    OneByHandle(before, before[at]);
    var orig := Strlcpy(s.objs[at].path);
    var dir := GetParentPath(orig);
    var (fits, dst) := CreatePath(s.root, dir, name);
    if !fits {
      return AccessDenied, truncated;
    }
    if SameIgnoringCase(orig, dst) {
      return NoError, truncated;
    }
    if !SameIgnoringCase(Extension(orig), Extension(dst)) {
      return InvalidPropFormat, truncated;
    }
    var ok, busy := CheckChildPaths(s, h, orig, dst);
    if !ok {
      s.faults := s.faults + if busy then 1 else 0;
      return General, truncated;
    }
    var moved, denied: bool := *, *;
    if !moved {
      s.faults := s.faults + 1;
      return if denied then AccessDenied else General, truncated;
    }
    ghost var start := before[at := before[at].(path := dst)];
    s.objs := s.objs[at := s.objs[at].(path := dst)];
    TopPlaced(before, at, dst, s.next, s.entered);
    TopClears(before, at, orig, dst, s.next);
    ghost var done;
    truncated, done := SetChildPaths(s, h, orig, dst);
    TopMoved(s.objs, before, at, dst, s.next, s.entered);
    if PathsOk(before) {
      Uncut(before[at].path);
      MoveConsistent(before, at, orig, dst);
      MoveResult(before, at, dst, done);
      MoveKeepsPaths(before, at, dst, s.objs);
    }
    err := NoError;
  }

  // Placing the top changes nothing for what lies below it.
  lemma TopClears(before: seq<Obj>, at: nat, src: string, dst: string, next: nat)
    requires at < |before|
    requires Clears(before, before[at].handle, src, dst, next)
    ensures Clears(before[at := before[at].(path := dst)], before[at].handle, src, dst, next)
  {
    hide Clears, Under;
    var start, h := before[at := before[at].(path := dst)], before[at].handle;
    forall i | 0 <= i < |before| && Under(before, h, before[i].handle) ensures start[i].path == before[i].path {
      UnderAbove(before, h, before[i].handle);
    }
    ClearsSame(start, before, h, src, dst, next);
  }

  lemma InvShape(objs: seq<Obj>, next: nat, entered: set<nat>)
    requires Inv(objs, next, entered)
    ensures Shape(objs, next)
  {
    hide Scan;
  }

  lemma TopPlaced(before: seq<Obj>, at: nat, dst: string, next: nat, entered: set<nat>)
    requires Inv(before, next, entered) && at < |before|
    ensures var start := before[at := before[at].(path := dst)];
      SamePlaces(start, before) && Shape(start, next) && Listed(start, before[at].handle)
  {
    hide Inv, Shape;
    var start := before[at := before[at].(path := dst)];
    assert start[at] in start;
    InvShape(before, next, entered);
    PlacesShape(start, before, next);
  }

  lemma TopMoved(after: seq<Obj>, before: seq<Obj>, at: nat, dst: string, next: nat, entered: set<nat>)
    requires Inv(before, next, entered) && at < |before|
    requires var start := before[at := before[at].(path := dst)];
      SamePlaces(after, start) && OnlyBelow(after, start, before[at].handle)
    ensures SamePlaces(after, before) && Inv(after, next, entered)
    ensures forall i :: 0 <= i < |after| && after[i].path != before[i].path ==>
              InBranch(before, before[at].handle, after[i].handle)
    ensures Listed(after, before[at].handle) && Find(after, before[at].handle).path == dst
  {
    hide Inv, Under, Distinct, Find;
    var start := before[at := before[at].(path := dst)];
    PlacesInv(after, before, next, entered);
    PlacesUnder(start, before, before[at].handle);
    if after[at].path != dst {
      UnderAbove(start, before[at].handle, before[at].handle);
    }
    assert after[at] in after;
    InvBasics(after, next, entered);
    OneByHandle(after, after[at]);
  }

  lemma PathsConsistent(objs: seq<Obj>, o: Obj)
    requires PathsOk(objs) && o in objs
    ensures Consistent(objs, o.handle, o.path)
  {
    hide OneBelow, Under;
  }

  lemma OneRetargeted(objs: seq<Obj>, at: nat, dst: string)
    requires Distinct(objs) && at < |objs|
    ensures objs[at := objs[at].(path := dst)] == Retarget(objs, {objs[at].handle}, |objs[at].path|, dst)
  {
    MovedWhole(objs[at].path, dst);
  }

  lemma MovedWhole(path: string, dst: string)
    ensures Moved(path, |path|, dst) == dst
  {
    assert dst + path[|path|..] == dst;
  }

  lemma MoveConsistent(before: seq<Obj>, at: nat, src: string, dst: string)
    requires PathsOk(before) && at < |before| && before[at].path == src && Distinct(before) && Ordered(before)
    requires Consistent(before, before[at].handle, src) ==> Fits(before, before[at].handle, src, dst)
    requires |dst| <= MAX_PATH
    ensures Smooth(before[at := before[at].(path := dst)], before[at].handle, src, dst)
  {
    hide OneBelow, Consistent, Fits, PathsOk, Under, Distinct, Ordered, Retarget;
    var h := before[at].handle;
    assert before[at] in before;
    PathsConsistent(before, before[at]);
    OneRetargeted(before, at, dst);
    forall x | Under(before, h, x) ensures x != h {
      UnderAbove(before, h, x);
    }
    var who := {h};
    ConsistentElsewhere(before, who, |src|, dst, h, src, dst);
  }

  // Rewriting h and then what lies below it is rewriting the whole tree at once.
  lemma MoveResult(before: seq<Obj>, at: nat, dst: string, done: seq<nat>)
    requires Distinct(before) && Ordered(before) && at < |before|
    requires var start := before[at := before[at].(path := dst)];
      forall x :: x in done <==> Under(start, before[at].handle, x)
    ensures var start := before[at := before[at].(path := dst)];
      MovedTree(Retarget(start, Elems(done), |before[at].path|, dst), before, before[at].handle, before[at].path, dst)
  {
    hide Under, Ordered;
    var h, cut := before[at].handle, |before[at].path|;
    var start := before[at := before[at].(path := dst)];
    PlacesUnder(start, before, h);
    if h in done {
      UnderAbove(before, h, h);
    }
    var who := Elems(done) + {h};
    MovedWhole(before[at].path, dst);
    assert Retarget(start, Elems(done), cut, dst) == Retarget(before, who, cut, dst);
    assert TreeOf(before, h, who);
  }

  /** After a move paths and tree agree if and only if the new path fits under the parent. */
  lemma MoveKeepsPaths(before: seq<Obj>, at: nat, dst: string, after: seq<Obj>)
    requires PathsOk(before) && Distinct(before) && Ordered(before) && at < |before|
    requires MovedTree(after, before, before[at].handle, before[at].path, dst)
    ensures PathsOk(after) <==> Agrees(before, before[at].parent, dst)
  {
    hide OneBelow, PathsOk, Agrees, Under, Ordered, Moved, Distinct;
    var h, src := before[at].handle, before[at].path;
    assert before[at] in before;
    var who :| TreeOf(before, h, who) && after == Retarget(before, who, |src|, dst);
    if Agrees(before, before[at].parent, dst) {
      forall c, p | c in after && p in after && c.parent == p.handle ensures OneBelow(c.path, p.path) {
        var i :| 0 <= i < |after| && after[i] == c;
        var j :| 0 <= j < |after| && after[j] == p;
        assert before[i] in before && before[j] in before;
        PairMoves(before, at, dst, who, before[i], before[j]);
      }
      PathsOkIntro(after);
    }
    if PathsOk(after) {
      TopAgrees(before, at, dst, who);
    }
  }

  // The parent of the moved object is not moved.
  lemma TopAgrees(before: seq<Obj>, at: nat, dst: string, who: set<nat>)
    requires Ordered(before) && at < |before| && TreeOf(before, before[at].handle, who)
    requires PathsOk(Retarget(before, who, |before[at].path|, dst))
    ensures Agrees(before, before[at].parent, dst)
  {
    hide OneBelow, Under, Moved;
    var o, after := before[at], Retarget(before, who, |before[at].path|, dst);
    assert o in before && after[at] in after;
    MovedWhole(o.path, dst);
    assert o.handle in who;
    forall q | q in before && q.handle == o.parent ensures OneBelow(dst, q.path) {
      var j :| 0 <= j < |before| && before[j] == q;
      if q.handle in who && q.handle != o.handle {
        UnderAbove(before, o.handle, q.handle);
      }
      assert after[j] in after && after[j] == q;
    }
  }

  // A child and its parent before the move still fit together after it.
  lemma PairMoves(before: seq<Obj>, at: nat, dst: string, who: set<nat>, c: Obj, p: Obj)
    requires PathsOk(before) && Distinct(before) && Ordered(before) && at < |before|
    requires Agrees(before, before[at].parent, dst)
    requires TreeOf(before, before[at].handle, who)
    requires c in before && p in before && c.parent == p.handle
    ensures var cut := |before[at].path|;
      OneBelow(if c.handle in who then Moved(c.path, cut, dst) else c.path,
               if p.handle in who then Moved(p.path, cut, dst) else p.path)
  {
    var o := before[at];
    assert o in before;
    assert OneBelow(c.path, p.path);
    if p.handle in who {
      assert Link(before, c.handle, p.handle) && p.handle < c.handle;
      assert Under(before, o.handle, c.handle);
      assert |o.path| <= |p.path| by {
        if p.handle == o.handle {
          assert p == o;
        } else {
          PathsConsistent(before, o);
          PrefixBelow(before, o.handle, o.path, p);
        }
      }
      MovedOneBelow(c.path, p.path, |o.path|, dst);
    } else if c.handle in who {
      BranchTop(before, o, c, p);
      MovedWhole(o.path, dst);
    }
  }

  // Only the top of a branch has a parent outside it.
  lemma BranchTop(objs: seq<Obj>, o: Obj, c: Obj, p: Obj)
    requires Distinct(objs) && o in objs && c in objs && p in objs && c.parent == p.handle
    requires c.handle == o.handle || Under(objs, o.handle, c.handle)
    requires p.handle != o.handle && !Under(objs, o.handle, p.handle)
    ensures c == o
  {
    if c.handle != o.handle {
      var q: nat :| Link(objs, c.handle, q) && q < c.handle && (q == o.handle || Under(objs, o.handle, q));
      OneParent(objs, c.handle, q, p.handle);
    }
  }

  lemma Uncut(path: string)
    ensures |Strlcpy(path)| < MAX_PATH ==> Strlcpy(path) == path
  {
  }

  lemma {:induction false} DirOfSplit(path: string, dir: string, name: string)
    requires Splits(path, dir, name)
    ensures DirOf(path) == dir
    decreases |name|
  {
    var n := |path| - 1;
    if name == "" {
      assert path[..n] == dir;
    } else {
      var k := |name| - 1;
      assert path[n] == name[k] && name[k] in name;
      assert path[..n] == dir + "/" + name[..k];
      DirOfSplit(path[..n], dir, name[..k]);
    }
  }

  /**
   Within the length limit, the path that a renamed object gets fits under its listed parent if and
   only if the new name has no slash.
   */
  lemma TargetAgrees(objs: seq<Obj>, o: Obj, q: Obj, root: string, name: string)
    requires PathsOk(objs) && Distinct(objs) && o in objs && q in objs && q.handle == o.parent
    requires |o.path| <= MAX_PATH && |q.path| + 1 + |name| <= MAX_PATH && Target(root, o.path, name).0
    ensures Agrees(objs, o.parent, Target(root, o.path, name).1) <==> '/' !in name
  {
    hide OneBelow, DirOf, CreatePath, Distinct;
    assert OneBelow(o.path, q.path);
    DirOfBelow(o.path, q.path);
    Extends(q.path, name);
    assert |q.path + "/" + name| <= MAX_PATH;
    assert Target(root, o.path, name).1 == q.path + "/" + name;
    OnlyOne(objs, q);
  }

  /** The path that a rename leads to: the folder of the old path with the new name in it. */
  lemma TargetIs(root: string, path: string, dir: string, base: string, name: string)
    requires Splits(path, dir, base) && |path| <= MAX_PATH && |dir| + 1 + |name| <= MAX_PATH
    ensures Target(root, path, name).1 == dir + "/" + name
    ensures Target(root, path, name).0 <==> |name| <= MAX_NAME && root <= dir + "/" + name
  {
    hide DirOf, Splits;
    DirOfSplit(path, dir, base);
    assert |dir + "/" + name| <= MAX_PATH;
  }

  lemma DirOfBelow(path: string, dir: string)
    requires OneBelow(path, dir)
    ensures DirOf(path) == dir
  {
    var n :| Splits(path, dir, n);
    DirOfSplit(path, dir, n);
  }

  lemma OnlyOne(objs: seq<Obj>, q: Obj)
    requires Distinct(objs) && q in objs
    ensures forall p :: p in objs && p.handle == q.handle ==> p == q
  {
  }
}
