/**
 What a deletion leaves behind, and why: an object stays listed only when it, or something below
 it, is kept by the format filter or by its protection or could not be removed from the disk.
 */
module Leftovers {
  import opened Codes
  import opened ObjectTable

  // The formats that a deletion admits: any for 0, any but folders for 0xFFFFFFFF, else the one it names
  ghost predicate Admitted(fmt: nat, format: nat) {
    format == 0 || (format == 0xFFFF_FFFF && fmt != FMT_ASSOCIATION) || format == fmt
  }

  // The object is none that this deletion may remove: not of its formats, or a protected file.
  ghost predicate Kept(o: Obj, format: nat) {
    !Admitted(o.fmt, format) || (o.fmt != FMT_ASSOCIATION && o.prot in {1, 0x8002})
  }

  // None but objects that the deletion may remove
  ghost predicate AllMatch(objs: seq<Obj>, gone: seq<nat>, format: nat) {
    forall o :: o in objs && o.handle in gone ==> !Kept(o, format)
  }

  // A folder without listed children went only after what it held on the disk had been removed.
  ghost predicate Emptied(objs: seq<Obj>, gone: seq<nat>, emptied: set<nat>) {
    forall o :: o in objs && o.handle in gone && o.fmt == FMT_ASSOCIATION && Scan(objs, o.handle) == [] ==>
      o.handle in emptied
  }

  // y itself cannot go: it is kept, or its own removal from the disk failed.
  ghost predicate Stuck(objs: seq<Obj>, y: nat, format: nat, broken: set<nat>) {
    y in broken || exists o :: o in objs && o.handle == y && Kept(o, format)
  }

  // x cannot go, for itself or for something below it.
  ghost predicate Held(objs: seq<Obj>, x: nat, format: nat, broken: set<nat>) {
    exists y :: InBranch(objs, x, y) && Stuck(objs, y, format, broken)
  }

  // x lies below a folder of the branch of h that is not of the formats, and that is not entered.
  ghost predicate Shut(objs: seq<Obj>, h: nat, x: nat, format: nat) {
    exists o :: o in objs && !Admitted(o.fmt, format) && InBranch(objs, h, o.handle) && Under(objs, o.handle, x)
  }

  // Whatever is left below h is left for a reason.
  ghost predicate LeftBelow(objs: seq<Obj>, h: nat, gone: seq<nat>, format: nat, broken: set<nat>) {
    forall x :: Under(objs, h, x) && x !in gone ==> Held(objs, x, format, broken) || Shut(objs, h, x, format)
  }

  // ... and in the first i branches below h
  ghost predicate LeftIn(objs: seq<Obj>, h: nat, kids: seq<nat>, i: int, gone: seq<nat>, format: nat,
                         broken: set<nat>)
    requires 0 <= i <= |kids|
  {
    forall k, x :: 0 <= k < i && InBranch(objs, kids[k], x) && x !in gone ==>
      Held(objs, x, format, broken) || Shut(objs, h, x, format)
  }

  lemma NoneToMatch(objs: seq<Obj>, format: nat)
    ensures AllMatch(objs, [], format)
  {
  }

  lemma TopMatches(objs: seq<Obj>, gone: seq<nat>, h: nat, format: nat)
    requires AllMatch(objs, gone, format) && AllMatch(objs, [h], format)
    ensures AllMatch(objs, gone + [h], format)
  {
  }

  lemma MatchThen(objs: seq<Obj>, gone: seq<nat>, g: seq<nat>, format: nat)
    requires AllMatch(objs, gone, format) && AllMatch(Prune(objs, Elems(gone)), g, format)
    ensures AllMatch(objs, gone + g, format)
  {
    PruneKeeps(objs, Elems(gone));
    forall o | o in objs && o.handle in gone + g ensures !Kept(o, format) {
      if o.handle !in gone {
        assert o.(children := Minus(o.children, Elems(gone))) in Prune(objs, Elems(gone));
      }
    }
  }

  lemma OneMatches(objs: seq<Obj>, o: Obj, format: nat)
    requires Distinct(objs) && o in objs && !Kept(o, format)
    ensures AllMatch(objs, [o.handle], format)
  {
  }

  lemma EmptiedThen(objs: seq<Obj>, gone: seq<nat>, g: seq<nat>, emptied: set<nat>, more: set<nat>)
    requires Emptied(objs, gone, emptied) && Emptied(Prune(objs, Elems(gone)), g, more) && emptied <= more
    ensures Emptied(objs, gone + g, more)
  {
    hide Scan, Prune, Elems;
    PruneKeeps(objs, Elems(gone));
    forall o | o in objs && o.handle in gone + g && o.fmt == FMT_ASSOCIATION && Scan(objs, o.handle) == []
      ensures o.handle in more
    {
      if o.handle !in gone {
        NotDead(gone, o.handle);
        assert o.(children := Minus(o.children, Elems(gone))) in Prune(objs, Elems(gone));
        ScanPrune(objs, Elems(gone), o.handle);
      }
    }
  }

  lemma EmptiedTop(objs: seq<Obj>, gone: seq<nat>, h: nat, emptied: set<nat>)
    requires Emptied(objs, gone, emptied) && Emptied(objs, [h], emptied)
    ensures Emptied(objs, gone + [h], emptied)
  {
    hide Scan;
  }

  lemma EmptiedNone(objs: seq<Obj>, emptied: set<nat>)
    ensures Emptied(objs, [], emptied)
  {
  }

  lemma EmptiedMore(objs: seq<Obj>, gone: seq<nat>, emptied: set<nat>, more: set<nat>)
    requires Emptied(objs, gone, emptied) && emptied <= more
    ensures Emptied(objs, gone, more)
  {
  }

  // One object: a file, a folder with listed children, or one that has been emptied
  lemma EmptiedOne(objs: seq<Obj>, o: Obj, emptied: set<nat>)
    requires Distinct(objs) && o in objs
    requires o.fmt == FMT_ASSOCIATION && Scan(objs, o.handle) == [] ==> o.handle in emptied
    ensures Emptied(objs, [o.handle], emptied)
  {
    hide Scan;
  }

  lemma NotDead(g: seq<nat>, h: nat)
    requires h !in g
    ensures h !in Elems(g)
  {
  }

  // ---- Reasons ----

  lemma KeptHeld(objs: seq<Obj>, o: Obj, format: nat, broken: set<nat>)
    requires o in objs && Kept(o, format)
    ensures Held(objs, o.handle, format, broken)
  {
    hide Under;
    assert InBranch(objs, o.handle, o.handle) && Stuck(objs, o.handle, format, broken);
  }

  lemma BrokenHeld(objs: seq<Obj>, h: nat, format: nat, broken: set<nat>)
    requires h in broken
    ensures Held(objs, h, format, broken)
  {
    hide Under;
    assert InBranch(objs, h, h) && Stuck(objs, h, format, broken);
  }

  // What holds a child holds its folder.
  lemma HeldAbove(objs: seq<Obj>, h: nat, c: nat, format: nat, broken: set<nat>)
    requires Held(objs, c, format, broken) && Under(objs, h, c)
    ensures Held(objs, h, format, broken)
  {
    hide Under, Stuck;
    var y :| InBranch(objs, c, y) && Stuck(objs, y, format, broken);
    if y != c {
      UnderTrans(objs, h, c, y);
    }
    assert InBranch(objs, h, y);
  }

  lemma HeldMore(objs: seq<Obj>, x: nat, format: nat, broken: set<nat>, more: set<nat>)
    requires Held(objs, x, format, broken) && broken <= more
    ensures Held(objs, x, format, more)
  {
    hide InBranch, Kept;
    var y :| InBranch(objs, x, y) && Stuck(objs, y, format, broken);
    assert Stuck(objs, y, format, more);
  }

  // A reason found after some objects have gone is one that stood before.
  lemma HeldBefore(before: seq<Obj>, dead: set<nat>, x: nat, format: nat, broken: set<nat>)
    requires Held(Prune(before, dead), x, format, broken)
    ensures Held(before, x, format, broken)
  {
    hide Prune, Under;
    var mid := Prune(before, dead);
    var y :| InBranch(mid, x, y) && Stuck(mid, y, format, broken);
    PruneSurvivors(before, dead);
    PruneKeeps(before, dead);
    if y != x {
      UnderSurvivors(mid, before, dead, x, y);
    }
    assert InBranch(before, x, y);
  }

  lemma ShutBefore(before: seq<Obj>, dead: set<nat>, h: nat, c: nat, x: nat, format: nat)
    requires Shut(Prune(before, dead), c, x, format) && Under(before, h, c)
    ensures Shut(before, h, x, format)
  {
    hide Prune, Under, Minus;
    var mid := Prune(before, dead);
    PruneSurvivors(before, dead);
    PruneKeeps(before, dead);
    var q :| q in mid && !Admitted(q.fmt, format) && InBranch(mid, c, q.handle) && Under(mid, q.handle, x);
    var o :| o in before && o.handle !in dead && q == o.(children := Minus(o.children, dead));
    UnderSurvivors(mid, before, dead, o.handle, x);
    if o.handle != c {
      UnderSurvivors(mid, before, dead, c, o.handle);
      UnderTrans(before, h, c, o.handle);
    }
  }

  // Everything in the branch of c that is left after its turn is left for a reason.
  lemma LeftBranch(before: seq<Obj>, h: nat, gone: seq<nat>, c: nat, g: seq<nat>, format: nat, broken: set<nat>, x: nat)
    requires BottomUp(before, gone) && Under(before, h, c)
    requires LeftBelow(Prune(before, Elems(gone)), c, g, format, broken)
    requires c in gone + g || Held(Prune(before, Elems(gone)), c, format, broken)
    requires InBranch(before, c, x) && x !in gone + g
    ensures Held(before, x, format, broken) || Shut(before, h, x, format)
  {
    hide Under, Prune, Shut, Held, BottomUp, Elems;
    var mid := Prune(before, Elems(gone));
    PruneSurvivors(before, Elems(gone));
    if x != c {
      StillUnder(before, gone, mid, c, x);
    }
    if Held(mid, x, format, broken) {
      HeldBefore(before, Elems(gone), x, format, broken);
    } else {
      ShutBefore(before, Elems(gone), h, c, x, format);
    }
  }

  lemma LeftNone(objs: seq<Obj>, h: nat, kids: seq<nat>, gone: seq<nat>, format: nat, broken: set<nat>)
    ensures LeftIn(objs, h, kids, 0, gone, format, broken)
  {
  }

  // The turn of the i-th child, which ends with `g` gone
  lemma LeftNext(before: seq<Obj>, h: nat, kids: seq<nat>, i: nat, gone: seq<nat>, g: seq<nat>, format: nat,
                 broken: set<nat>, more: set<nat>)
    requires i < |kids| && LeftIn(before, h, kids, i, gone, format, broken) && broken <= more
    requires BottomUp(before, gone) && Under(before, h, kids[i])
    requires LeftBelow(Prune(before, Elems(gone)), kids[i], g, format, more)
    requires kids[i] in gone + g || Held(Prune(before, Elems(gone)), kids[i], format, more)
    ensures LeftIn(before, h, kids, i + 1, gone + g, format, more)
  {
    hide Under, Prune, Shut, Held, BottomUp, Elems, InBranch, LeftBelow;
    forall k, x | 0 <= k < i + 1 && InBranch(before, kids[k], x) && x !in gone + g
      ensures Held(before, x, format, more) || Shut(before, h, x, format)
    {
      if k < i {
        if Held(before, x, format, broken) {
          HeldMore(before, x, format, broken, more);
        }
      } else {
        LeftBranch(before, h, gone, kids[i], g, format, more, x);
      }
    }
  }

  // The turn of a child that has gone before
  lemma LeftGone(before: seq<Obj>, h: nat, kids: seq<nat>, i: nat, gone: seq<nat>, format: nat, broken: set<nat>)
    requires i < |kids| && LeftIn(before, h, kids, i, gone, format, broken)
    requires BottomUp(before, gone) && kids[i] in gone
    ensures LeftIn(before, h, kids, i + 1, gone, format, broken)
  {
    hide Under, Shut, Held, BottomUp;
    forall k, x | 0 <= k < i + 1 && InBranch(before, kids[k], x) && x !in gone
      ensures Held(before, x, format, broken) || Shut(before, h, x, format)
    {
      if k == i {
        BelowGone(before, gone, kids[i], x);
      }
    }
  }

  lemma LeftAll(before: seq<Obj>, h: nat, gone: seq<nat>, format: nat, broken: set<nat>)
    requires LeftIn(before, h, Scan(before, h), |Scan(before, h)|, gone, format, broken)
    ensures LeftBelow(before, h, gone, format, broken)
  {
    hide Under, Scan, Shut, Held, InBranch;
    var kids := Scan(before, h);
    forall x | Under(before, h, x) && x !in gone
      ensures Held(before, x, format, broken) || Shut(before, h, x, format)
    {
      var c := BranchOf(before, h, x);
      var k :| 0 <= k < |kids| && kids[k] == c;
    }
  }

  lemma LeftMore(objs: seq<Obj>, h: nat, gone: seq<nat>, format: nat, broken: set<nat>, more: set<nat>)
    requires LeftBelow(objs, h, gone, format, broken) && broken <= more
    ensures LeftBelow(objs, h, gone, format, more)
  {
    hide Under, Shut, Held;
    forall x | Under(objs, h, x) && x !in gone && Held(objs, x, format, broken) ensures Held(objs, x, format, more) {
      HeldMore(objs, x, format, broken, more);
    }
  }

  // Nothing lies below h.
  lemma LeftLeaf(objs: seq<Obj>, h: nat, format: nat, broken: set<nat>)
    requires Scan(objs, h) == []
    ensures LeftBelow(objs, h, [], format, broken)
  {
    hide Under, Shut, Held, InBranch, Scan;
    forall x ensures !Under(objs, h, x) {
      if Under(objs, h, x) {
        var c := BranchOf(objs, h, x);
      }
    }
  }

  // h is not entered, since it is not of the formats.
  lemma LeftShut(objs: seq<Obj>, o: Obj, format: nat, broken: set<nat>)
    requires o in objs && !Admitted(o.fmt, format)
    ensures LeftBelow(objs, o.handle, [], format, broken)
  {
    hide Under, Held;
    assert InBranch(objs, o.handle, o.handle);
  }

  // Without a filter no folder is passed over.
  lemma LeftHeld(objs: seq<Obj>, h: nat, gone: seq<nat>, broken: set<nat>)
    requires LeftBelow(objs, h, gone, 0, broken)
    ensures forall x :: Under(objs, h, x) && x !in gone ==> Held(objs, x, 0, broken)
  {
    hide Under, Held;
  }
}
