/**
 The object list of a store as a value: the records it holds, the plain scan for the
 children of a handle, the subtree relation, and the effect of removing a set of handles.
 */
module ObjectTable {
  import opened Codes

  // One entry of the list. `children` is the object's own index of child handles, which the
  // store keeps beside the parent handles recorded in the children themselves.
  datatype Obj = Obj(handle: nat, parent: nat, fmt: nat, prot: nat, size: nat, path: string, children: seq<nat>)

  ghost predicate Listed(objs: seq<Obj>, h: nat) {
    exists o :: o in objs && o.handle == h
  }

  // x is listed with parent p.
  ghost predicate Link(objs: seq<Obj>, x: nat, p: nat) {
    exists o :: o in objs && o.handle == x && o.parent == p
  }

  ghost function Find(objs: seq<Obj>, h: nat): (o: Obj)
    requires Listed(objs, h)
    ensures o in objs && o.handle == h
  {
    var o :| o in objs && o.handle == h;
    o
  }

  function Elems(s: seq<nat>): set<nat> {
    set x | x in s
  }

  // The handles that a scan of the list for parent `p` collects, in list order.
  function Scan(objs: seq<Obj>, p: nat): seq<nat> {
    if objs == [] then []
    else
      var last := objs[|objs| - 1];
      Scan(objs[..|objs| - 1], p) + (if last.parent == p then [last.handle] else [])
  }

  // x lies strictly below h in the list.
  ghost predicate Under(objs: seq<Obj>, h: nat, x: nat)
    decreases x
  {
    exists p: nat :: Link(objs, x, p) && p < x && (p == h || Under(objs, h, p))
  }

  function Minus(s: seq<nat>, dead: set<nat>): seq<nat> {
    if s == [] then []
    else Minus(s[..|s| - 1], dead) + (if s[|s| - 1] in dead then [] else [s[|s| - 1]])
  }

  // The list after the handles in `dead` have left it and every child index.
  function Prune(objs: seq<Obj>, dead: set<nat>): seq<Obj> {
    if objs == [] then []
    else
      var last := objs[|objs| - 1];
      Prune(objs[..|objs| - 1], dead) +
      (if last.handle in dead then [] else [last.(children := Minus(last.children, dead))])
  }

  // The list after the handles in `dead` have left it; no child index changes.
  function Drop(objs: seq<Obj>, dead: set<nat>): seq<Obj> {
    if objs == [] then []
    else
      var last := objs[|objs| - 1];
      Drop(objs[..|objs| - 1], dead) + (if last.handle in dead then [] else [last])
  }

  // The list after `h` has left the child index of `p`.
  function DropRef(objs: seq<Obj>, p: nat, h: nat): seq<Obj> {
    seq(|objs|, i requires 0 <= i < |objs| =>
      if objs[i].handle == p then objs[i].(children := Minus(objs[i].children, {h})) else objs[i])
  }

  // The list after `h` has been appended to the child index of `p`.
  function AddRef(objs: seq<Obj>, p: nat, h: nat): seq<Obj> {
    seq(|objs|, i requires 0 <= i < |objs| =>
      if objs[i].handle == p then objs[i].(children := objs[i].children + [h]) else objs[i])
  }

  ghost predicate Distinct(objs: seq<Obj>) {
    forall i, j :: 0 <= i < j < |objs| ==> objs[i].handle != objs[j].handle
  }

  // The child index of every object is exactly what a scan for its handle finds.
  ghost predicate Indexed(objs: seq<Obj>) {
    forall o :: o in objs ==> o.children == Scan(objs, o.handle)
  }

  ghost predicate Ordered(objs: seq<Obj>) {
    forall o :: o in objs ==> o.parent < o.handle
  }

  ghost predicate FoldersOnly(objs: seq<Obj>) {
    forall o, q :: o in objs && q in objs && o.parent == q.handle ==> q.fmt == FMT_ASSOCIATION
  }

  // What holds of the list in every reachable state. `entered` is every handle that was ever
  // listed; the counter `next` lies above all of them.
  ghost predicate Inv(objs: seq<Obj>, next: nat, entered: set<nat>) {
    && Distinct(objs) && Indexed(objs) && Ordered(objs) && FoldersOnly(objs)
    && (forall o :: o in objs ==> o.handle in entered && (o.parent == ROOT || o.parent in entered))
    && ROOT < next && (forall h :: h in entered ==> ROOT < h < next)
  }

  // Handles removed one by one, each only after everything listed below it.
  ghost predicate BottomUp(objs: seq<Obj>, gone: seq<nat>) {
    forall i, x :: 0 <= i < |gone| && Link(objs, x, gone[i]) ==> x in gone[..i]
  }

  ghost predicate NoDup(s: seq<nat>) {
    forall i, j :: 0 <= i < j < |s| ==> s[i] != s[j]
  }

  // A removal below h: distinct descendants of h, each after everything listed below it.
  ghost predicate Swept(objs: seq<Obj>, h: nat, gone: seq<nat>) {
    NoDup(gone) && BottomUp(objs, gone) && forall x :: x in gone ==> Under(objs, h, x)
  }

  // ... that left nothing below h.
  ghost predicate SweptAll(objs: seq<Obj>, h: nat, gone: seq<nat>) {
    Swept(objs, h, gone) && forall x :: Under(objs, h, x) ==> x in gone
  }

  // A removal of distinct listed handles, each after everything listed below it.
  ghost predicate Removal(objs: seq<Obj>, gone: seq<nat>) {
    NoDup(gone) && BottomUp(objs, gone) && forall x :: x in gone ==> Listed(objs, x)
  }

  // ---- Scan, Minus and Prune ----

  lemma {:induction false} ScanMembers(objs: seq<Obj>, p: nat, x: nat)
    ensures x in Scan(objs, p) <==> Link(objs, x, p)
  {
    if objs != [] {
      var init, last := objs[..|objs| - 1], objs[|objs| - 1];
      assert objs == init + [last];
      ScanMembers(init, p, x);
    }
  }

  lemma ScanNone(objs: seq<Obj>, p: nat)
    requires forall o :: o in objs ==> o.parent != p
    ensures Scan(objs, p) == []
  {
    if Scan(objs, p) != [] {
      ScanMembers(objs, p, Scan(objs, p)[0]);
    }
  }

  lemma {:induction false} ScanNoDup(objs: seq<Obj>, p: nat)
    requires Distinct(objs)
    ensures NoDup(Scan(objs, p))
  {
    if objs != [] {
      var init, last := objs[..|objs| - 1], objs[|objs| - 1];
      assert objs == init + [last];
      ScanNoDup(init, p);
      ScanMembers(init, p, last.handle);
    }
  }

  lemma {:induction false} MinusMembers(s: seq<nat>, dead: set<nat>, x: nat)
    ensures x in Minus(s, dead) <==> x in s && x !in dead
  {
    if s != [] {
      assert s == s[..|s| - 1] + [s[|s| - 1]];
      MinusMembers(s[..|s| - 1], dead, x);
    }
  }

  lemma {:induction false} MinusAppend(s: seq<nat>, t: seq<nat>, dead: set<nat>)
    ensures Minus(s + t, dead) == Minus(s, dead) + Minus(t, dead)
  {
    if t == [] {
      assert s + t == s;
    } else {
      assert (s + t)[..|s + t| - 1] == s + t[..|t| - 1];
      MinusAppend(s, t[..|t| - 1], dead);
    }
  }

  lemma {:induction false} MinusTwice(s: seq<nat>, a: set<nat>, b: set<nat>)
    ensures Minus(Minus(s, a), b) == Minus(s, a + b)
  {
    if s != [] {
      MinusTwice(s[..|s| - 1], a, b);
      MinusAppend(Minus(s[..|s| - 1], a), if s[|s| - 1] in a then [] else [s[|s| - 1]], b);
    }
  }

  lemma {:induction false} MinusNone(s: seq<nat>, dead: set<nat>)
    requires forall x :: x in s ==> x !in dead
    ensures Minus(s, dead) == s
  {
    if s != [] {
      assert s == s[..|s| - 1] + [s[|s| - 1]];
      MinusNone(s[..|s| - 1], dead);
    }
  }

  // Two ways of removing agree on a list that holds none but the shared victims.
  lemma {:induction false} MinusSame(s: seq<nat>, a: set<nat>, b: set<nat>)
    requires forall x :: x in s ==> (x in a <==> x in b)
    ensures Minus(s, a) == Minus(s, b)
  {
    if s != [] {
      assert s == s[..|s| - 1] + [s[|s| - 1]];
      MinusSame(s[..|s| - 1], a, b);
    }
  }

  lemma {:induction false} PruneAppend(a: seq<Obj>, b: seq<Obj>, dead: set<nat>)
    ensures Prune(a + b, dead) == Prune(a, dead) + Prune(b, dead)
  {
    if b == [] {
      assert a + b == a;
    } else {
      assert (a + b)[..|a + b| - 1] == a + b[..|b| - 1];
      PruneAppend(a, b[..|b| - 1], dead);
    }
  }

  lemma {:induction false} PruneLength(objs: seq<Obj>, dead: set<nat>)
    ensures |Prune(objs, dead)| <= |objs|
  {
    if objs != [] {
      PruneLength(objs[..|objs| - 1], dead);
    }
  }

  ghost predicate SameKind(q: Obj, o: Obj) {
    q.handle == o.handle && q.fmt == o.fmt
  }

  // The first k of `after` were among the first i.
  ghost predicate FromFirst(after: seq<Obj>, k: int, objs: seq<Obj>, i: int) {
    && 0 <= k <= |after| && 0 <= i <= |objs|
    && forall j :: 0 <= j < k ==> AmongFirst(after[j], objs, i)
  }

  ghost predicate AmongFirst(q: Obj, objs: seq<Obj>, i: int) {
    0 <= i <= |objs| && exists n :: 0 <= n < i && SameKind(q, objs[n])
  }

  // Where a survivor stands after a removal, and that none but survivors stand before it.
  lemma PrunePosition(objs: seq<Obj>, i: nat, dead: set<nat>) returns (k: nat)
    requires i < |objs| && objs[i].handle !in dead
    ensures k <= i && k < |Prune(objs, dead)| && SameKind(Prune(objs, dead)[k], objs[i])
    ensures |Prune(objs, dead)| - k <= |objs| - i
    ensures FromFirst(Prune(objs, dead), k, objs, i)
  {
    var a, b, c := objs[..i], [objs[i]], objs[i + 1..];
    assert objs == (a + b) + c;
    PruneAppend(a + b, c, dead);
    PruneAppend(a, b, dead);
    PruneLength(a, dead);
    PruneLength(c, dead);
    k := |Prune(a, dead)|;
    forall j | 0 <= j < k ensures AmongFirst(Prune(objs, dead)[j], objs, i) {
      PruneMembers(a, dead, Prune(a, dead)[j]);
      var o :| o in a && Prune(a, dead)[j] == o.(children := Minus(o.children, dead));
      var n :| 0 <= n < i && a[n] == o;
      assert SameKind(Prune(objs, dead)[j], objs[n]);
    }
    assert b[..0] == [];
    assert Prune(b, dead) == [objs[i].(children := Minus(objs[i].children, dead))];
  }

  lemma {:induction false} PruneTwice(objs: seq<Obj>, a: set<nat>, b: set<nat>)
    ensures Prune(Prune(objs, a), b) == Prune(objs, a + b)
  {
    if objs != [] {
      var init, last := objs[..|objs| - 1], objs[|objs| - 1];
      PruneTwice(init, a, b);
      MinusTwice(last.children, a, b);
      PruneAppend(Prune(init, a), if last.handle in a then [] else [last.(children := Minus(last.children, a))], b);
    }
  }

  lemma {:induction false} PruneMembers(objs: seq<Obj>, dead: set<nat>, q: Obj)
    ensures q in Prune(objs, dead)
      <==> exists o :: o in objs && o.handle !in dead && q == o.(children := Minus(o.children, dead))
  {
    if objs != [] {
      assert objs == objs[..|objs| - 1] + [objs[|objs| - 1]];
      PruneMembers(objs[..|objs| - 1], dead, q);
    }
  }

  // Survivors keep their handle, parent and format.
  lemma PruneKeeps(objs: seq<Obj>, dead: set<nat>)
    ensures forall q :: q in Prune(objs, dead) ==>
      exists o :: o in objs && o.handle !in dead && q == o.(children := Minus(o.children, dead))
    ensures forall o :: o in objs && o.handle !in dead ==> o.(children := Minus(o.children, dead)) in Prune(objs, dead)
  {
    forall q | q in Prune(objs, dead)
      ensures exists o :: o in objs && o.handle !in dead && q == o.(children := Minus(o.children, dead))
    {
      PruneMembers(objs, dead, q);
    }
    forall o | o in objs && o.handle !in dead
      ensures o.(children := Minus(o.children, dead)) in Prune(objs, dead)
    {
      PruneMembers(objs, dead, o.(children := Minus(o.children, dead)));
    }
  }

  lemma {:induction false} PruneDistinct(objs: seq<Obj>, dead: set<nat>)
    requires Distinct(objs)
    ensures Distinct(Prune(objs, dead))
  {
    if objs != [] {
      var init, last := objs[..|objs| - 1], objs[|objs| - 1];
      assert objs == init + [last];
      PruneDistinct(init, dead);
      PruneKeeps(init, dead);
      forall q | q in Prune(init, dead) ensures q.handle != last.handle {
        var o :| o in init && q == o.(children := Minus(o.children, dead));
      }
    }
  }

  lemma {:induction false} ScanPrune(objs: seq<Obj>, dead: set<nat>, p: nat)
    ensures Scan(Prune(objs, dead), p) == Minus(Scan(objs, p), dead)
  {
    if objs != [] {
      var init, last := objs[..|objs| - 1], objs[|objs| - 1];
      ScanPrune(init, dead, p);
      MinusAppend(Scan(init, p), if last.parent == p then [last.handle] else [], dead);
      if last.handle !in dead {
        assert Prune(objs, dead)[..|Prune(objs, dead)| - 1] == Prune(init, dead);
      } else {
        assert Prune(objs, dead) == Prune(init, dead);
      }
    }
  }

  /** Removing any set of handles, and taking them out of every child index, keeps the invariant. */
  lemma PruneInv(objs: seq<Obj>, dead: set<nat>, next: nat, entered: set<nat>)
    requires Inv(objs, next, entered)
    ensures Inv(Prune(objs, dead), next, entered)
  {
    PruneDistinct(objs, dead);
    PruneKeeps(objs, dead);
    forall q | q in Prune(objs, dead) ensures q.children == Scan(Prune(objs, dead), q.handle) {
      ScanPrune(objs, dead, q.handle);
    }
  }

  // ---- Subtrees ----

  // `mid` holds the objects of `objs` outside `dead`, as far as handles and parents go.
  ghost predicate Survivors(mid: seq<Obj>, objs: seq<Obj>, dead: set<nat>) {
    forall x, p :: Link(mid, x, p) <==> Link(objs, x, p) && x !in dead
  }

  lemma PruneSurvivors(objs: seq<Obj>, dead: set<nat>)
    ensures Survivors(Prune(objs, dead), objs, dead)
  {
    hide Prune, Minus;
    PruneKeeps(objs, dead);
    forall x, p ensures Link(Prune(objs, dead), x, p) <==> Link(objs, x, p) && x !in dead {
      if Link(objs, x, p) && x !in dead {
        var o :| o in objs && o.handle == x && o.parent == p;
        assert o.(children := Minus(o.children, dead)) in Prune(objs, dead);
      }
    }
  }

  lemma DropSurvivors(objs: seq<Obj>, dead: set<nat>)
    ensures Survivors(Drop(objs, dead), objs, dead)
  {
    hide Drop;
    forall x, p ensures Link(Drop(objs, dead), x, p) <==> Link(objs, x, p) && x !in dead {
      forall q: Obj ensures q in Drop(objs, dead) <==> q in objs && q.handle !in dead {
        DropMembers(objs, dead, q);
      }
    }
  }

  lemma {:induction false} UnderSurvivors(mid: seq<Obj>, objs: seq<Obj>, dead: set<nat>, h: nat, x: nat)
    requires Survivors(mid, objs, dead) && Under(mid, h, x)
    ensures Under(objs, h, x)
    decreases x
  {
    hide Link;
    var p: nat :| Link(mid, x, p) && p < x && (p == h || Under(mid, h, p));
    if p != h {
      UnderSurvivors(mid, objs, dead, h, p);
    }
  }

  lemma {:induction false} UnderTrans(objs: seq<Obj>, h: nat, c: nat, x: nat)
    requires Under(objs, h, c) && Under(objs, c, x)
    ensures Under(objs, h, x)
    decreases x
  {
    hide Link;
    var p: nat :| Link(objs, x, p) && p < x && (p == c || Under(objs, c, p));
    if p != c {
      UnderTrans(objs, h, c, p);
    }
  }

  lemma {:induction false} UnderAbove(objs: seq<Obj>, h: nat, x: nat)
    requires Under(objs, h, x)
    ensures h < x && Listed(objs, x) && exists p: nat :: Link(objs, x, p)
    decreases x
  {
    var p: nat :| Link(objs, x, p) && p < x && (p == h || Under(objs, h, p));
    if p != h {
      UnderAbove(objs, h, p);
    }
  }

  lemma ChildUnder(objs: seq<Obj>, h: nat, c: nat)
    requires Ordered(objs) && c in Scan(objs, h)
    ensures Under(objs, h, c)
  {
    ScanMembers(objs, h, c);
    assert h < c;
  }

  // A bottom-up removal that took every child of h took everything below h.
  lemma {:induction false} WholeSubtree(objs: seq<Obj>, gone: seq<nat>, h: nat, x: nat)
    requires BottomUp(objs, gone)
    requires forall c :: c in Scan(objs, h) ==> c in gone
    requires Under(objs, h, x)
    ensures x in gone
    decreases x
  {
    hide Link, Scan;
    var p: nat :| Link(objs, x, p) && p < x && (p == h || Under(objs, h, p));
    if p == h {
      ScanMembers(objs, h, x);
    } else {
      WholeSubtree(objs, gone, h, p);
      var i :| 0 <= i < |gone| && gone[i] == p;
      assert x in gone[..i];
    }
  }

  lemma BottomUpThen(objs: seq<Obj>, g1: seq<nat>, mid: seq<Obj>, g2: seq<nat>)
    requires BottomUp(objs, g1) && Survivors(mid, objs, Elems(g1)) && BottomUp(mid, g2)
    ensures BottomUp(objs, g1 + g2)
  {
    var g := g1 + g2;
    hide Link;
    forall i, x | 0 <= i < |g| && Link(objs, x, g[i]) ensures x in g[..i] {
      if i < |g1| {
        assert g[..i] == g1[..i];
      } else {
        assert g[..i] == g1 + g2[..i - |g1|];
        assert x !in g1 ==> Link(mid, x, g2[i - |g1|]);
      }
    }
  }

  lemma NoDupJoin(a: seq<nat>, b: seq<nat>)
    requires NoDup(a) && NoDup(b) && forall x :: x in b ==> x !in a
    ensures NoDup(a + b)
  {
    forall i, j | 0 <= i < j < |a + b| ensures (a + b)[i] != (a + b)[j] {
      if i < |a| <= j {
        assert b[j - |a|] in b;
      }
    }
  }

  lemma NotBelowItself(objs: seq<Obj>, h: nat, gone: seq<nat>)
    requires Swept(objs, h, gone)
    ensures h !in gone
  {
    if h in gone {
      UnderAbove(objs, h, h);
    }
  }

  lemma SubtreeGone(objs: seq<Obj>, h: nat, gone: seq<nat>)
    requires Swept(objs, h, gone)
    requires forall c :: c in Scan(objs, h) ==> c in gone
    ensures SweptAll(objs, h, gone)
  {
    forall x | Under(objs, h, x) ensures x in gone {
      WholeSubtree(objs, gone, h, x);
    }
  }

  // Once everything below h has gone, h may go.
  lemma TopLast(objs: seq<Obj>, h: nat, gone: seq<nat>)
    requires SweptAll(objs, h, gone) && Ordered(objs)
    ensures BottomUp(objs, gone + [h]) && NoDup(gone + [h])
  {
    var g := gone + [h];
    NotBelowItself(objs, h, gone);
    forall i, x | 0 <= i < |g| && Link(objs, x, g[i]) ensures x in g[..i] {
      assert g[..i] == gone[..i];
      if i == |gone| {
        assert gone[..i] == gone && h < x;
        assert Under(objs, h, x);
      }
    }
  }

  // What goes while child c of h is deleted lies below h and had not gone before.
  lemma BelowChild(before: seq<Obj>, gone: seq<nat>, mid: seq<Obj>, h: nat, c: nat, g: seq<nat>)
    requires Survivors(mid, before, Elems(gone))
    requires Under(before, h, c) && Listed(mid, c)
    requires forall x :: x in g ==> Under(mid, c, x)
    ensures forall x :: x in g ==> Under(before, h, x) && x !in gone && x != c
    ensures c !in gone
  {
    assert c !in gone by {
      var o :| o in mid && o.handle == c;
      assert Link(mid, c, o.parent);
    }
    hide Link;
    forall x | x in g ensures Under(before, h, x) && x !in gone && x != c {
      UnderSurvivors(mid, before, Elems(gone), c, x);
      UnderTrans(before, h, c, x);
      UnderAbove(mid, c, x);
    }
  }

  // A sweep below child c of h continues a sweep below h.
  lemma SweptThen(before: seq<Obj>, h: nat, gone: seq<nat>, mid: seq<Obj>, c: nat, g: seq<nat>)
    requires Swept(before, h, gone) && Swept(mid, c, g)
    requires Survivors(mid, before, Elems(gone))
    requires Under(before, h, c) && Listed(mid, c)
    ensures Swept(before, h, gone + g)
  {
    hide Under, Survivors;
    BelowChild(before, gone, mid, h, c, g);
    BottomUpThen(before, gone, mid, g);
    NoDupJoin(gone, g);
  }

  // ... and so does one that ends with c itself.
  lemma SweptThenTop(before: seq<Obj>, h: nat, gone: seq<nat>, mid: seq<Obj>, c: nat, g: seq<nat>)
    requires Swept(before, h, gone) && SweptAll(mid, c, g) && Ordered(mid)
    requires Survivors(mid, before, Elems(gone))
    requires Under(before, h, c) && Listed(mid, c)
    ensures Swept(before, h, gone + (g + [c]))
  {
    hide Under, Survivors;
    BelowChild(before, gone, mid, h, c, g);
    TopLast(mid, c, g);
    BottomUpThen(before, gone, mid, g + [c]);
    NoDupJoin(gone, g + [c]);
  }

  lemma SweptIsRemoval(objs: seq<Obj>, h: nat, gone: seq<nat>)
    requires Swept(objs, h, gone)
    ensures Removal(objs, gone)
    ensures Listed(objs, h) && Ordered(objs) && SweptAll(objs, h, gone) ==> Removal(objs, gone + [h])
  {
    forall x | x in gone ensures Listed(objs, x) {
      UnderAbove(objs, h, x);
    }
    if Ordered(objs) && SweptAll(objs, h, gone) {
      TopLast(objs, h, gone);
    }
  }

  lemma RemovalThen(objs: seq<Obj>, gone: seq<nat>, mid: seq<Obj>, g: seq<nat>)
    requires Removal(objs, gone) && Removal(mid, g) && Survivors(mid, objs, Elems(gone))
    ensures Removal(objs, gone + g)
  {
    forall x | x in g ensures Listed(objs, x) && x !in gone {
      var q :| q in mid && q.handle == x;
      assert Link(mid, x, q.parent);
    }
    BottomUpThen(objs, gone, mid, g);
    NoDupJoin(gone, g);
  }

  // x is c or lies below it.
  ghost predicate InBranch(objs: seq<Obj>, c: nat, x: nat) {
    x == c || Under(objs, c, x)
  }

  lemma {:induction false} BranchOf(objs: seq<Obj>, h: nat, x: nat) returns (c: nat)
    requires Under(objs, h, x)
    ensures c in Scan(objs, h) && InBranch(objs, c, x)
    decreases x
  {
    hide Link, Scan;
    var p: nat :| Link(objs, x, p) && p < x && (p == h || Under(objs, h, p));
    if p == h {
      ScanMembers(objs, h, x);
      c := x;
    } else {
      c := BranchOf(objs, h, p);
    }
  }

  // What lay below c and has not gone still lies below c.
  lemma {:induction false} StillUnder(before: seq<Obj>, gone: seq<nat>, mid: seq<Obj>, c: nat, x: nat)
    requires BottomUp(before, gone) && Survivors(mid, before, Elems(gone))
    requires Under(before, c, x) && x !in gone
    ensures Under(mid, c, x)
    decreases x
  {
    hide Link;
    var p: nat :| Link(before, x, p) && p < x && (p == c || Under(before, c, p));
    assert Link(mid, x, p);
    if p != c {
      StillUnder(before, gone, mid, c, p);
    }
  }

  // Whatever lies below something that has gone has gone.
  lemma {:induction false} BelowGone(before: seq<Obj>, gone: seq<nat>, c: nat, x: nat)
    requires BottomUp(before, gone) && c in gone && Under(before, c, x)
    ensures x in gone
    decreases x
  {
    hide Link;
    var p: nat :| Link(before, x, p) && p < x && (p == c || Under(before, c, p));
    if p != c {
      BelowGone(before, gone, c, p);
    }
    var i :| 0 <= i < |gone| && gone[i] == p;
    assert x in gone[..i];
  }

  // A child that is no longer listed has gone.
  lemma MissingIsGone(before: seq<Obj>, gone: seq<nat>, mid: seq<Obj>, h: nat, c: nat)
    requires c in Scan(before, h) && Survivors(mid, before, Elems(gone)) && !Listed(mid, c)
    ensures c in gone
  {
    ScanMembers(before, h, c);
    assert !Link(mid, c, h);
  }

  // ---- Drop and DropRef ----

  lemma {:induction false} DropMembers(objs: seq<Obj>, dead: set<nat>, q: Obj)
    ensures q in Drop(objs, dead) <==> q in objs && q.handle !in dead
  {
    if objs != [] {
      assert objs == objs[..|objs| - 1] + [objs[|objs| - 1]];
      DropMembers(objs[..|objs| - 1], dead, q);
    }
  }

  lemma {:induction false} DropAppend(a: seq<Obj>, b: seq<Obj>, dead: set<nat>)
    ensures Drop(a + b, dead) == Drop(a, dead) + Drop(b, dead)
  {
    if b == [] {
      assert a + b == a;
    } else {
      assert (a + b)[..|a + b| - 1] == a + b[..|b| - 1];
      DropAppend(a, b[..|b| - 1], dead);
    }
  }

  lemma {:induction false} DropTwice(objs: seq<Obj>, a: set<nat>, b: set<nat>)
    ensures Drop(Drop(objs, a), b) == Drop(objs, a + b)
  {
    if objs != [] {
      var init, last := objs[..|objs| - 1], objs[|objs| - 1];
      DropTwice(init, a, b);
      DropAppend(Drop(init, a), if last.handle in a then [] else [last], b);
    }
  }

  lemma {:induction false} DropNothing(objs: seq<Obj>)
    ensures Drop(objs, {}) == objs
  {
    if objs != [] {
      DropNothing(objs[..|objs| - 1]);
      assert objs == objs[..|objs| - 1] + [objs[|objs| - 1]];
    }
  }

  lemma {:induction false} DropDistinct(objs: seq<Obj>, dead: set<nat>)
    requires Distinct(objs)
    ensures Distinct(Drop(objs, dead))
  {
    if objs != [] {
      var init, last := objs[..|objs| - 1], objs[|objs| - 1];
      assert objs == init + [last];
      DropDistinct(init, dead);
      forall q | q in Drop(init, dead) ensures q.handle != last.handle {
        DropMembers(init, dead, q);
      }
    }
  }

  // When h is the only dead handle that a survivor refers to, and only p refers to it.
  lemma {:induction false} DropIsPrune(objs: seq<Obj>, p: nat, h: nat, dead: set<nat>)
    requires h in dead
    requires forall o, x :: o in objs && o.handle !in dead && x in o.children && x in dead ==> x == h && o.handle == p
    ensures Drop(DropRef(objs, p, h), dead) == Prune(objs, dead)
  {
    if objs != [] {
      var init, last := objs[..|objs| - 1], objs[|objs| - 1];
      assert objs == init + [last];
      DropIsPrune(init, p, h, dead);
      assert DropRef(objs, p, h)[..|objs| - 1] == DropRef(init, p, h);
      if last.handle !in dead {
        if last.handle == p {
          MinusSame(last.children, {h}, dead);
        } else {
          MinusNone(last.children, dead);
        }
      }
    }
  }

  /**
   Taking h out of its parent's child index and then dropping h with whatever lies below it is
   removing all of them from the list and from every child index: on an indexed list nobody but
   the parent refers to h, and nobody outside the subtree refers into it.
   */
  lemma UnlinkIsPrune(objs: seq<Obj>, o: Obj, dead: set<nat>)
    requires Distinct(objs) && Indexed(objs) && o in objs && o.handle in dead
    requires forall x :: x in dead && x != o.handle ==> Under(objs, o.handle, x)
    requires forall x :: Under(objs, o.handle, x) ==> x in dead || dead == {o.handle}
    ensures Drop(DropRef(objs, o.parent, o.handle), dead) == Prune(objs, dead)
  {
    forall q, x | q in objs && q.handle !in dead && x in q.children && x in dead
      ensures x == o.handle && q.handle == o.parent
    {
      RefersInto(objs, o, dead, q, x);
    }
    DropIsPrune(objs, o.parent, o.handle, dead);
  }

  lemma OneParent(objs: seq<Obj>, x: nat, p: nat, q: nat)
    requires Distinct(objs) && Link(objs, x, p) && Link(objs, x, q)
    ensures p == q
  {
  }

  lemma RefersInto(objs: seq<Obj>, o: Obj, dead: set<nat>, q: Obj, x: nat)
    requires Distinct(objs) && Indexed(objs) && o in objs && o.handle in dead
    requires forall x :: x in dead && x != o.handle ==> Under(objs, o.handle, x)
    requires forall x :: Under(objs, o.handle, x) ==> x in dead || dead == {o.handle}
    requires q in objs && q.handle !in dead && x in q.children && x in dead
    ensures x == o.handle && q.handle == o.parent
  {
    ScanMembers(objs, q.handle, x);
    if Under(objs, o.handle, x) {
      var p: nat :| Link(objs, x, p) && p < x && (p == o.handle || Under(objs, o.handle, p));
      OneParent(objs, x, p, q.handle);
    } else {
      OneParent(objs, x, q.handle, o.parent);
    }
  }

  lemma ChildrenNoDup(objs: seq<Obj>)
    requires Distinct(objs) && Indexed(objs)
    ensures forall o :: o in objs ==> NoDup(o.children)
  {
    forall o | o in objs ensures NoDup(o.children) {
      ScanNoDup(objs, o.handle);
    }
  }

  // A file has nothing below it.
  lemma FileIsLeaf(objs: seq<Obj>, o: Obj)
    requires FoldersOnly(objs) && o in objs && o.fmt != FMT_ASSOCIATION
    ensures Scan(objs, o.handle) == []
  {
    ScanNone(objs, o.handle);
  }

  lemma {:induction false} PruneNothing(objs: seq<Obj>)
    ensures Prune(objs, {}) == objs
  {
    if objs != [] {
      PruneNothing(objs[..|objs| - 1]);
      MinusNone(objs[|objs| - 1].children, {});
      assert objs == objs[..|objs| - 1] + [objs[|objs| - 1]];
    }
  }

  lemma InvBasics(objs: seq<Obj>, next: nat, entered: set<nat>)
    requires Inv(objs, next, entered)
    ensures Distinct(objs) && Ordered(objs) && FoldersOnly(objs) && ROOT < next
    ensures forall o :: o in objs ==> ROOT < o.handle < next && NoDup(o.children)
  {
    hide Scan;
    ChildrenNoDup(objs);
  }

  lemma NothingGone(objs: seq<Obj>, h: nat)
    ensures Swept(objs, h, []) && Prune(objs, Elems([])) == objs
  {
    PruneNothing(objs);
    assert Elems([]) == {};
  }

  // What taking the folder h out does, once `gone` below it is out.
  lemma UnlinkAfter(objs: seq<Obj>, h: nat, gone: seq<nat>, next: nat, entered: set<nat>)
    requires Inv(objs, next, entered) && Listed(objs, h) && h !in gone
    ensures Distinct(DropRef(Prune(objs, Elems(gone)), Find(objs, h).parent, h))
    ensures Drop(DropRef(Prune(objs, Elems(gone)), Find(objs, h).parent, h), {h}) == Prune(objs, Elems(gone + [h]))
  {
    hide Scan, Prune, Drop, Minus, Under;
    var mid, o := Prune(objs, Elems(gone)), Find(objs, h);
    PruneInv(objs, Elems(gone), next, entered);
    PruneMembers(objs, Elems(gone), o.(children := Minus(o.children, Elems(gone))));
    UnlinkIsPrune(mid, o.(children := Minus(o.children, Elems(gone))), {h});
    PruneTwice(objs, Elems(gone), {h});
    assert Elems(gone + [h]) == Elems(gone) + {h};
  }

  // ---- Adding ----

  lemma {:induction false} ScanAddRef(objs: seq<Obj>, p: nat, h: nat, x: nat)
    ensures Scan(AddRef(objs, p, h), x) == Scan(objs, x)
  {
    if objs != [] {
      ScanAddRef(objs[..|objs| - 1], p, h, x);
      assert AddRef(objs, p, h)[..|objs| - 1] == AddRef(objs[..|objs| - 1], p, h);
    }
  }

  // Indexing a child changes nothing but one child index.
  lemma AddRefMembers(objs: seq<Obj>, p: nat, h: nat)
    ensures forall q :: q in AddRef(objs, p, h) ==>
      exists z :: z in objs && q == if z.handle == p then z.(children := z.children + [h]) else z
  {
    forall q | q in AddRef(objs, p, h)
      ensures exists z :: z in objs && q == if z.handle == p then z.(children := z.children + [h]) else z
    {
      var i :| 0 <= i < |objs| && AddRef(objs, p, h)[i] == q;
      assert objs[i] in objs;
    }
  }

  lemma AddIndexed(objs: seq<Obj>, o: Obj)
    requires Indexed(objs) && o.children == []
    requires forall q :: q in objs ==> q.parent != o.handle && q.handle != o.handle
    requires o.parent != o.handle
    ensures Indexed(AddRef(objs, o.parent, o.handle) + [o])
  {
    var mid := AddRef(objs, o.parent, o.handle);
    var all := mid + [o];
    assert all[..|all| - 1] == mid;
    AddRefMembers(objs, o.parent, o.handle);
    forall q | q in all ensures q.children == Scan(all, q.handle) {
      ScanAddRef(objs, o.parent, o.handle, q.handle);
      if q == o {
        ScanNone(objs, o.handle);
      }
    }
  }

  lemma AddDistinct(objs: seq<Obj>, o: Obj)
    requires Distinct(objs)
    requires forall q :: q in objs ==> q.handle != o.handle
    ensures Distinct(AddRef(objs, o.parent, o.handle) + [o])
  {
    assert forall i :: 0 <= i < |objs| ==> objs[i] in objs;
  }

  lemma AddFolders(objs: seq<Obj>, o: Obj)
    requires FoldersOnly(objs) && o.parent != o.handle
    requires forall q :: q in objs ==> q.parent != o.handle
    requires forall q :: q in objs && q.handle == o.parent ==> q.fmt == FMT_ASSOCIATION
    ensures FoldersOnly(AddRef(objs, o.parent, o.handle) + [o])
  {
    var all := AddRef(objs, o.parent, o.handle) + [o];
    assert forall i :: 0 <= i < |objs| ==> objs[i] in objs;
    forall a, b | a in all && b in all && a.parent == b.handle ensures b.fmt == FMT_ASSOCIATION {
      var i :| 0 <= i < |all| && all[i] == a;
      var j :| 0 <= j < |all| && all[j] == b;
    }
  }

  /** Appending an object whose handle was never listed, under a listed folder or the root or a
      parent that has gone, and indexing it in its parent, keeps the invariant. */
  lemma AddInv(objs: seq<Obj>, o: Obj, next: nat, entered: set<nat>)
    requires Inv(objs, next, entered)
    requires o.handle !in entered && ROOT < o.handle < next && o.parent < o.handle
    requires o.parent == ROOT || o.parent in entered
    requires forall q :: q in objs && q.handle == o.parent ==> q.fmt == FMT_ASSOCIATION
    requires o.children == []
    ensures Inv(AddRef(objs, o.parent, o.handle) + [o], next, entered + {o.handle})
  {
    forall q | q in objs ensures q.parent != o.handle && q.handle != o.handle { }
    AddIndexed(objs, o);
    AddFolders(objs, o);
    AddDistinct(objs, o);
    var all := AddRef(objs, o.parent, o.handle) + [o];
    forall q | q in all
      ensures q.parent < q.handle && q.handle in entered + {o.handle} && (q.parent == ROOT || q.parent in entered)
    {
      var i :| 0 <= i < |all| && all[i] == q;
      if i < |objs| {
        assert objs[i] in objs;
      }
    }
  }
}
