/**
 The object that waits between SendObjectInfo and SendObject, as a value: what is known of it
 while the store changes around it, and the account of the handles that SendObjectInfo reported
 and of those that reached the store.
 */
module PendingObject {
  import opened Options
  import opened Codes
  import opened ObjectTable
  import opened ObjectStore
  import opened Enumeration
  import opened Rename
  import opened Agreement
  import Paths

  // An object that has a handle but was never listed
  ghost predicate Waiting(p: Obj, objs: seq<Obj>, next: nat, entered: set<nat>) {
    && p.handle !in entered && ROOT < p.handle < next && p.parent < p.handle
    && (p.parent == ROOT || p.parent in entered)
    && p.children == [] && p.fmt != FMT_ASSOCIATION
    && (forall q :: q in objs && q.handle == p.parent ==> q.fmt == FMT_ASSOCIATION)
  }

  ghost predicate Rising(objs: seq<Obj>) {
    forall i, j :: 0 <= i < j < |objs| ==> objs[i].handle < objs[j].handle
  }

  /**
   `reported` are the objects whose handles SendObjectInfo answered, `landed` those of them that
   were listed, both in order. A reported handle was ever listed if and only if its object landed,
   and the only one that still may land is the latest.
   */
  ghost predicate Ledger(reported: seq<Obj>, landed: seq<Obj>, pending: Option<Obj>, next: nat, entered: set<nat>) {
    && Rising(reported) && Rising(landed)
    && (forall o :: o in reported ==> ROOT < o.handle < next)
    && (forall o :: o in landed ==> o in reported && o.handle in entered)
    && (forall o :: o in reported && o.handle in entered ==> o in landed)
    && (pending.Some? ==> reported != [] && reported[|reported| - 1] == pending.value)
  }

  // ---- The store changes while an object waits ----

  lemma WaitingPruned(p: Obj, objs: seq<Obj>, dead: set<nat>, next: nat, entered: set<nat>)
    requires Waiting(p, objs, next, entered)
    ensures Waiting(p, Prune(objs, dead), next, entered)
  {
    PruneKeeps(objs, dead);
  }

  lemma WaitingMoved(p: Obj, a: seq<Obj>, b: seq<Obj>, next: nat, entered: set<nat>)
    requires Waiting(p, b, next, entered) && SamePlaces(a, b)
    ensures Waiting(p, a, next, entered)
  {
    forall q | q in a && q.handle == p.parent ensures q.fmt == FMT_ASSOCIATION {
      var i :| 0 <= i < |a| && a[i] == q;
      assert b[i] in b;
    }
  }

  // Another object, newer than every handle listed before, is added.
  lemma WaitingAdded(p: Obj, objs: seq<Obj>, o: Obj, next: nat, entered: set<nat>, next': nat)
    requires Waiting(p, objs, next, entered) && next <= o.handle < next'
    ensures Waiting(p, AddRef(objs, o.parent, o.handle) + [o], next', entered + {o.handle})
  {
    AddRefMembers(objs, o.parent, o.handle);
  }

  // An empty store is filled from the disk.
  lemma WaitingFilled(p: Obj, objs: seq<Obj>, next: nat, entered: set<nat>, next': nat, entered': set<nat>)
    requires Waiting(p, [], next, entered)
    requires Grown(objs, [], next) && EnteredUpTo(entered', entered, next, next')
    ensures Waiting(p, objs, next', entered')
  {
  }

  // ---- The path of the object that lands ----

  /** Listing a waiting object is exact about its path, like any addition. */
  lemma LandingPaths(objs: seq<Obj>, p: Obj, next: nat, entered: set<nat>)
    requires Inv(objs, next, entered) && Waiting(p, objs, next, entered) && PathsOk(objs)
    ensures PathsOk(AddRef(objs, p.parent, p.handle) + [p]) <==> Agrees(objs, p.parent, p.path)
  {
    hide Inv, PathsOk, Agrees;
    AddedPaths(objs, p, next, entered);
  }

  /** Its path does not fit when the folder is renamed while it waits: it keeps the old path. */
  lemma RenamedWhileWaiting()
    ensures var folder := Obj(1, ROOT, FMT_ASSOCIATION, NO_PROTECTION, 0, "/m/a", []);
      var p := Obj(2, 1, FMT_UNDEF, NO_PROTECTION, 7, "/m/a/f", []);
      var renamed := Retarget([folder], {1}, |folder.path|, "/m/b");
      && Waiting(p, [folder], 3, {1}) && PathsOk(AddRef([folder], 1, 2) + [p])
      && Waiting(p, renamed, 3, {1}) && PathsOk(renamed) && !PathsOk(AddRef(renamed, 1, 2) + [p])
  {
    hide OneBelow;
    var folder := Obj(1, ROOT, FMT_ASSOCIATION, NO_PROTECTION, 0, "/m/a", []);
    var p := Obj(2, 1, FMT_UNDEF, NO_PROTECTION, 7, "/m/a/f", []);
    var renamed := Retarget([folder], {1}, |folder.path|, "/m/b");
    MovedWhole(folder.path, "/m/b");
    assert renamed == [folder.(path := "/m/b")];
    Below("/m/a/f", "/m/a", "f");
    assert "/m/b"[3] != "/m/a/f"[3];
    if OneBelow("/m/a/f", "/m/b") {
      OneBelowPrefix("/m/a/f", "/m/b");
    }
    var after := AddRef(renamed, 1, 2) + [p];
    assert after[0] in after && after[1] in after;
  }

  lemma Below(path: string, dir: string, name: string)
    requires path == dir + "/" + name && '/' !in name
    ensures OneBelow(path, dir)
  {
    assert Paths.Splits(path, dir, name);
  }

  // ---- The account ----

  // Handles from the counter upwards are listed.
  lemma LedgerKept(reported: seq<Obj>, landed: seq<Obj>, pending: Option<Obj>, next: nat, entered: set<nat>,
                   next': nat, entered': set<nat>)
    requires Ledger(reported, landed, pending, next, entered) && next <= next' && entered <= entered'
    requires forall h :: h in entered' && h !in entered ==> h >= next
    ensures Ledger(reported, landed, pending, next', entered')
  {
  }

  lemma LedgerDropped(reported: seq<Obj>, landed: seq<Obj>, pending: Option<Obj>, next: nat, entered: set<nat>)
    requires Ledger(reported, landed, pending, next, entered)
    ensures Ledger(reported, landed, None, next, entered) && Ledger(reported, landed, None, next + 1, entered)
  {
  }

  // A new object is reported and waits.
  lemma LedgerReported(reported: seq<Obj>, landed: seq<Obj>, o: Obj, next: nat, entered: set<nat>)
    requires Ledger(reported, landed, None, next, entered) && o.handle == next > ROOT && next !in entered
    ensures Ledger(reported + [o], landed, Some(o), next + 1, entered)
  {
    assert forall i :: 0 <= i < |reported| ==> reported[i] in reported;
  }

  /** The latest reported object lands: it is the only one that can, and it has not before. */
  lemma LedgerLanded(reported: seq<Obj>, landed: seq<Obj>, o: Obj, next: nat, entered: set<nat>)
    requires Ledger(reported, landed, Some(o), next, entered) && o.handle !in entered
    ensures Ledger(reported, landed + [o], None, next, entered + {o.handle}) && o !in landed
  {
    var n := |reported| - 1;
    forall q | q in landed ensures q.handle < o.handle {
      var i :| 0 <= i < |reported| && reported[i] == q;
    }
    assert forall i :: 0 <= i < |landed| ==> landed[i] in landed;
    forall q | q in reported && q.handle in entered + {o.handle} ensures q in landed + [o] {
      var i :| 0 <= i < |reported| && reported[i] == q;
    }
  }
}
