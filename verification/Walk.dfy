/** Listing a store from a handle downward (src/entity/mtp_store.c:394-441, 506-535). */
module Walk {
  import opened Codes
  import opened ObjectTable
  import opened ObjectStore
  import opened Rename
  import opened Agreement

  // The children of p that a listing for `format` shows, in list order.
  function ScanFormat(objs: seq<Obj>, p: nat, format: nat): seq<nat> {
    if objs == [] then []
    else
      var last := objs[|objs| - 1];
      ScanFormat(objs[..|objs| - 1], p, format)
      + (if last.parent == p && (last.fmt == format || format == FORMAT_NOTUSED) then [last.handle] else [])
  }

  lemma {:induction false} ScanFormatAll(objs: seq<Obj>, p: nat)
    ensures ScanFormat(objs, p, FORMAT_NOTUSED) == Scan(objs, p)
  {
    if objs != [] {
      ScanFormatAll(objs[..|objs| - 1], p);
    }
  }

  /** A listing for a format shows exactly the children of that format, each once. */
  lemma {:induction false} ScanFormatMembers(objs: seq<Obj>, p: nat, format: nat)
    requires Distinct(objs)
    ensures forall x :: x in ScanFormat(objs, p, format) <==> HasChild(objs, p, format, x)
    ensures NoDup(ScanFormat(objs, p, format))
  {
    if objs != [] {
      var init, last := objs[..|objs| - 1], objs[|objs| - 1];
      assert objs == init + [last];
      ScanFormatMembers(init, p, format);
      var shown := last.parent == p && (last.fmt == format || format == FORMAT_NOTUSED);
      NoDupJoin(ScanFormat(init, p, format), if shown then [last.handle] else []);
    }
  }

  ghost predicate HasChild(objs: seq<Obj>, p: nat, format: nat, x: nat) {
    exists o :: o in objs && o.handle == x && o.parent == p && (format == FORMAT_NOTUSED || o.fmt == format)
  }

  // `hs` are the handles of some of the objects, at these ascending positions.
  ghost predicate Picks(objs: seq<Obj>, at: seq<nat>, hs: seq<nat>) {
    && |at| == |hs| && (forall i :: 0 <= i < |at| ==> at[i] < |objs| && objs[at[i]].handle == hs[i])
    && (forall i, j :: 0 <= i < j < |at| ==> at[i] < at[j])
  }

  lemma PicksMore(objs: seq<Obj>, at: seq<nat>, hs: seq<nat>, last: Obj)
    requires Picks(objs, at, hs)
    ensures Picks(objs + [last], at, hs) && Picks(objs + [last], at + [|objs|], hs + [last.handle])
  {
  }

  lemma {:induction false} ScanFormatOrder(objs: seq<Obj>, p: nat, format: nat) returns (at: seq<nat>)
    ensures Picks(objs, at, ScanFormat(objs, p, format))
  {
    at := [];
    if objs != [] {
      var n := |objs| - 1;
      at := ScanFormatOrder(objs[..n], p, format);
      assert objs == objs[..n] + [objs[n]];
      PicksMore(objs[..n], at, ScanFormat(objs[..n], p, format), objs[n]);
      if objs[n].parent == p && (objs[n].fmt == format || format == FORMAT_NOTUSED) {
        at := at + [n];
      }
    }
  }

  lemma {:induction false} ByFormatOrder(objs: seq<Obj>, format: nat) returns (at: seq<nat>)
    ensures Picks(objs, at, ByFormat(objs, format))
  {
    at := [];
    if objs != [] {
      var n := |objs| - 1;
      at := ByFormatOrder(objs[..n], format);
      assert objs == objs[..n] + [objs[n]];
      PicksMore(objs[..n], at, ByFormat(objs[..n], format), objs[n]);
      if Wanted(objs[n].fmt, format) {
        at := at + [n];
      }
    }
  }

  // h, and `depth` levels of children below it, each followed by its own.
  function Listing(objs: seq<Obj>, h: nat, format: nat, depth: nat): seq<nat>
    decreases depth, 1, 0
  {
    (if h == ROOT then [] else [h])
    + (if depth == 0 then [] else Listings(objs, ScanFormat(objs, h, format), format, depth - 1))
  }

  function Listings(objs: seq<Obj>, hs: seq<nat>, format: nat, depth: nat): seq<nat>
    decreases depth, 2, |hs|
  {
    if hs == [] then []
    else Listings(objs, hs[..|hs| - 1], format, depth) + Listing(objs, hs[|hs| - 1], format, depth)
  }

  /** _entity_get_child_handles_with_same_format */
  method ChildrenOfFormat(objs: seq<Obj>, p: nat, format: nat) returns (kids: seq<nat>)
    ensures kids == ScanFormat(objs, p, format)
  {
    kids := [];
    var i := 0;
    while i < |objs|
      invariant 0 <= i <= |objs|
      invariant kids == ScanFormat(objs[..i], p, format)
    {
      if objs[i].parent == p && (objs[i].fmt == format || format == FORMAT_NOTUSED) {
        kids := kids + [objs[i].handle];
      }
      assert objs[..i + 1][..i] == objs[..i];
      i := i + 1;
    }
    assert objs[..i] == objs;
  }

  // Whether a listing by format shows an object
  predicate Wanted(fmt: nat, format: nat) {
    format == FORMAT_NOTUSED || format == fmt || (format == FORMAT_ALL && fmt != FMT_ASSOCIATION)
  }

  // The wanted handles, in list order
  function ByFormat(objs: seq<Obj>, format: nat): seq<nat> {
    if objs == [] then []
    else
      var last := objs[|objs| - 1];
      ByFormat(objs[..|objs| - 1], format) + (if Wanted(last.fmt, format) then [last.handle] else [])
  }

  /** Each wanted object is there once, and no other. */
  lemma {:induction false} ByFormatMembers(objs: seq<Obj>, format: nat)
    requires Distinct(objs)
    ensures forall x :: x in ByFormat(objs, format) <==> exists o :: o in objs && o.handle == x && Wanted(o.fmt, format)
    ensures NoDup(ByFormat(objs, format))
  {
    hide Wanted;
    if objs != [] {
      var init, last := objs[..|objs| - 1], objs[|objs| - 1];
      assert objs == init + [last];
      ByFormatMembers(init, format);
      NoDupJoin(ByFormat(init, format), if Wanted(last.fmt, format) then [last.handle] else []);
    }
  }

  /** _entity_get_objects_from_store_by_format */
  method ObjectsOfFormat(objs: seq<Obj>, format: nat) returns (out: seq<nat>)
    ensures out == ByFormat(objs, format)
  {
    out := [];
    var i := 0;
    while i < |objs|
      invariant 0 <= i <= |objs|
      invariant out == ByFormat(objs[..i], format)
    {
      assert objs[..i + 1][..i] == objs[..i];
      if Wanted(objs[i].fmt, format) {
        out := out + [objs[i].handle];
      }
      i := i + 1;
    }
    assert objs[..i] == objs;
  }

  /** _entity_get_objects_from_store_till_depth, for a handle other than ALL */
  method TillDepth(objs: seq<Obj>, h: nat, format: nat, depth: nat, acc: seq<nat>) returns (out: seq<nat>)
    ensures out == acc + Listing(objs, h, format, depth)
    decreases depth
  {
    hide Listings, ScanFormat;
    ghost var head := if h == ROOT then [] else [h];
    out := acc;
    if h != ROOT {
      out := out + [h];
    }
    assert out == acc + head;
    if depth > 0 {
      var kids := ChildrenOfFormat(objs, h, format);
      ghost var rest := [];
      var i := 0;
      assert Listings(objs, kids[..0], format, depth - 1) == [] by {
        ListingsNone(objs, format, depth - 1);
        assert kids[..0] == [];
      }
      while i < |kids|
        invariant 0 <= i <= |kids|
        invariant rest == Listings(objs, kids[..i], format, depth - 1) && out == (acc + head) + rest
      {
        ListingsStep(objs, kids, i, format, depth - 1);
        out := TillDepth(objs, kids[i], format, depth - 1, out);
        Regroup(acc + head, rest, Listing(objs, kids[i], format, depth - 1));
        rest := rest + Listing(objs, kids[i], format, depth - 1);
        i := i + 1;
      }
      assert kids[..i] == kids;
      Regroup(acc, head, rest);
    }
  }

  lemma ListingsNone(objs: seq<Obj>, format: nat, depth: nat)
    ensures Listings(objs, [], format, depth) == []
  {
  }

  lemma ListingsStep(objs: seq<Obj>, kids: seq<nat>, i: nat, format: nat, depth: nat)
    requires i < |kids|
    ensures Listings(objs, kids[..i + 1], format, depth)
            == Listings(objs, kids[..i], format, depth) + Listing(objs, kids[i], format, depth)
  {
    hide Listing;
    assert kids[..i + 1][..i] == kids[..i];
  }

  lemma Regroup(a: seq<nat>, b: seq<nat>, c: seq<nat>)
    ensures (a + b) + c == a + (b + c)
  {
  }

  // ---- A full listing reaches everything below the handle, once ----

  lemma {:induction false} ListingsMembers(objs: seq<Obj>, hs: seq<nat>, depth: nat, x: nat)
    ensures x in Listings(objs, hs, FORMAT_NOTUSED, depth)
      <==> exists k :: 0 <= k < |hs| && x in Listing(objs, hs[k], FORMAT_NOTUSED, depth)
    decreases |hs|
  {
    hide Listing;
    if hs != [] {
      var n := |hs| - 1;
      ListingsMembers(objs, hs[..n], depth, x);
      assert forall k :: 0 <= k < n ==> hs[..n][k] == hs[k];
    }
  }

  lemma {:induction false} ListingMembers(objs: seq<Obj>, next: nat, h: nat, depth: nat, x: nat)
    requires Shape(objs, next) && depth + h >= next
    ensures x in Listing(objs, h, FORMAT_NOTUSED, depth) <==> (x == h && h != ROOT) || Under(objs, h, x)
    decreases depth
  {
    hide Scan, Under, Shape, Listings, ScanFormat, Distinct, Ordered, FoldersOnly;
    ShapeParts(objs, next);
    if Under(objs, h, x) {
      UnderAbove(objs, h, x);
    }
    if depth > 0 {
      var kids := Scan(objs, h);
      ScanFormatAll(objs, h);
      ListingsMembers(objs, kids, depth - 1, x);
      forall k | 0 <= k < |kids|
        ensures x in Listing(objs, kids[k], FORMAT_NOTUSED, depth - 1) <==> InBranch(objs, kids[k], x)
        ensures InBranch(objs, kids[k], x) ==> Under(objs, h, x)
      {
        ChildUnder(objs, h, kids[k]);
        UnderAbove(objs, h, kids[k]);
        ListingMembers(objs, next, kids[k], depth - 1, x);
        if Under(objs, kids[k], x) {
          UnderTrans(objs, h, kids[k], x);
        }
      }
      if Under(objs, h, x) {
        var c := BranchOf(objs, h, x);
        var k :| 0 <= k < |kids| && kids[k] == c;
        assert x in Listing(objs, kids[k], FORMAT_NOTUSED, depth - 1);
      }
    }
  }

  lemma {:induction false} ListingNoDup(objs: seq<Obj>, next: nat, h: nat, depth: nat)
    requires Shape(objs, next) && depth + h >= next
    ensures NoDup(Listing(objs, h, FORMAT_NOTUSED, depth))
    decreases depth, 1, 0
  {
    hide Scan, Under, Shape, Listings, ScanFormat;
    if depth > 0 {
      var kids := Scan(objs, h);
      ScanFormatAll(objs, h);
      ListingsNoDup(objs, next, h, |kids|, depth - 1);
      assert kids[..|kids|] == kids;
      var rest := Listings(objs, kids, FORMAT_NOTUSED, depth - 1);
      if h != ROOT {
        if h in rest {
          ListingsMembers(objs, kids, depth - 1, h);
          var k :| 0 <= k < |kids| && h in Listing(objs, kids[k], FORMAT_NOTUSED, depth - 1);
          AboveParent(objs, next, h, kids[k]);
          ListingMembers(objs, next, kids[k], depth - 1, h);
          BranchAbove(objs, kids[k], h);
        }
        NoDupJoin([h], rest);
      } else {
        assert [] + rest == rest;
      }
    }
  }

  lemma AboveParent(objs: seq<Obj>, next: nat, h: nat, c: nat)
    requires Shape(objs, next) && c in Scan(objs, h)
    ensures h < c && Link(objs, c, h) && Distinct(objs) && Ordered(objs)
  {
    hide Scan;
    ScanMembers(objs, h, c);
  }

  lemma BranchAbove(objs: seq<Obj>, c: nat, x: nat)
    requires InBranch(objs, c, x)
    ensures c <= x
  {
    if x != c {
      UnderAbove(objs, c, x);
    }
  }

  lemma {:induction false} ListingsNoDup(objs: seq<Obj>, next: nat, h: nat, n: nat, depth: nat)
    requires Shape(objs, next) && depth + 1 + h >= next && n <= |Scan(objs, h)|
    ensures NoDup(Listings(objs, Scan(objs, h)[..n], FORMAT_NOTUSED, depth))
    decreases depth, 2, n
  {
    hide Scan, Under, Shape, Listing, InBranch;
    if n > 0 {
      var kids := Scan(objs, h);
      var front, c := kids[..n - 1], kids[n - 1];
      assert kids[..n][..n - 1] == front;
      ListingsNoDup(objs, next, h, n - 1, depth);
      AboveParent(objs, next, h, c);
      ListingNoDup(objs, next, c, depth);
      var a, b := Listings(objs, front, FORMAT_NOTUSED, depth), Listing(objs, c, FORMAT_NOTUSED, depth);
      forall x | x in b ensures x !in a {
        SharedBranch(objs, next, h, n - 1, depth, x);
      }
      NoDupJoin(a, b);
    }
  }

  lemma SharedBranch(objs: seq<Obj>, next: nat, h: nat, n: nat, depth: nat, x: nat)
    requires Shape(objs, next) && depth + 1 + h >= next && n < |Scan(objs, h)|
    requires x in Listing(objs, Scan(objs, h)[n], FORMAT_NOTUSED, depth)
    ensures x !in Listings(objs, Scan(objs, h)[..n], FORMAT_NOTUSED, depth)
  {
    hide Scan, Under, Shape, Listing, Listings, Link, Distinct, Ordered;
    var kids := Scan(objs, h);
    AboveParent(objs, next, h, kids[n]);
    ListingMembers(objs, next, kids[n], depth, x);
    if x in Listings(objs, kids[..n], FORMAT_NOTUSED, depth) {
      ListingsMembers(objs, kids[..n], depth, x);
      var k :| 0 <= k < n && x in Listing(objs, kids[..n][k], FORMAT_NOTUSED, depth);
      assert kids[..n][k] == kids[k];
      AboveParent(objs, next, h, kids[k]);
      ListingMembers(objs, next, kids[k], depth, x);
      OneBranch(objs, h, kids[k], kids[n], x);
      ScanNoDup(objs, h);
    }
  }

  // Every object hangs from the root.
  ghost predicate Rooted(objs: seq<Obj>) {
    forall o :: o in objs ==> o.parent == ROOT || Listed(objs, o.parent)
  }

  lemma {:induction false} RootedUnder(objs: seq<Obj>, o: Obj)
    requires Rooted(objs) && Ordered(objs) && o in objs
    ensures Under(objs, ROOT, o.handle)
    decreases o.handle
  {
    assert Link(objs, o.handle, o.parent);
    if o.parent != ROOT {
      var p :| p in objs && p.handle == o.parent;
      RootedUnder(objs, p);
    }
  }

  /** In a store whose objects all hang from the root, a full listing from the root shows each
      object exactly once and nothing else. */
  lemma FullListing(objs: seq<Obj>, next: nat, depth: nat)
    requires Shape(objs, next) && Rooted(objs) && depth >= next
    requires !Listed(objs, ROOT)
    ensures NoDup(Listing(objs, ROOT, FORMAT_NOTUSED, depth))
    ensures forall x :: x in Listing(objs, ROOT, FORMAT_NOTUSED, depth) <==> Listed(objs, x)
  {
    hide Listing, Under, Rooted;
    ListingNoDup(objs, next, ROOT, depth);
    forall x: nat ensures x in Listing(objs, ROOT, FORMAT_NOTUSED, depth) <==> Listed(objs, x) {
      ListingMembers(objs, next, ROOT, depth, x);
      if Listed(objs, x) {
        var o :| o in objs && o.handle == x;
        RootedUnder(objs, o);
      }
      if Under(objs, ROOT, x) {
        UnderAbove(objs, ROOT, x);
      }
    }
  }
}
