/** The growable array of 32-bit elements (src/entity/mtp_property.c:151-304, 382-435). */
module PtpArray {
  import opened Bytes

  const INITIAL_SIZE: nat := 100

  class Array {
    var arrSize: nat
    var numEle: nat
    var entry: array?<nat>

    ghost var appended: nat  // elements appended since the array was empty
    ghost var copied: nat    // elements moved by reallocation since then

    ghost predicate Valid()
      reads this
    {
      && (if entry == null then arrSize == 0 else entry.Length == arrSize && arrSize >= INITIAL_SIZE)
      && numEle <= arrSize
    }

    // What appending alone keeps: the elements moved are bounded by those appended.
    ghost predicate Frugal()
      reads this
    {
      && numEle <= appended
      && copied <= 3 * appended
      && (copied > 0 ==> copied + 2 * INITIAL_SIZE <= 2 * arrSize)
    }

    ghost function Contents(): seq<nat>
      reads this, entry
      requires Valid()
    {
      if entry == null then [] else entry[..numEle]
    }

    // A zeroed structure, as the child array of a new object
    constructor ()
      ensures Valid() && Frugal() && Contents() == [] && appended == 0 && copied == 0 && entry == null
    {
      arrSize, numEle, entry, appended, copied := 0, 0, null, 0, 0;
    }

    // _prop_init_ptparray
    method Init()
      modifies this
      ensures Valid() && Contents() == [] && appended == 0 && copied == 0
      ensures entry != null && fresh(entry) && arrSize == INITIAL_SIZE
    {
      numEle := 0;
      entry := new nat[INITIAL_SIZE](_ => 0);
      arrSize := INITIAL_SIZE;
      appended, copied := 0, 0;
    }

    /** _prop_grow_ptparray: the same elements, with room for at least `newSize` */
    method Grow(newSize: nat)
      requires Valid()
      modifies this
      ensures Valid() && Contents() == old(Contents()) && appended == old(appended) && entry != null
      ensures var was := if old(arrSize) == 0 then INITIAL_SIZE else old(arrSize);
        && arrSize == (if newSize < was then was else newSize)
        && copied == (if old(arrSize) == 0 then 0 else old(copied)) + (if newSize < was then 0 else was)
      ensures fresh(entry) || (entry == old(entry) && newSize < arrSize == old(arrSize))
    {
      if arrSize == 0 {
        ghost var a := appended;
        Init();
        appended := a;
      }
      if newSize < arrSize {
        return;
      }
      var bigger := new nat[newSize](_ => 0);
      var i := 0;
      while i < arrSize
        invariant 0 <= i <= arrSize <= newSize
        invariant bigger[..i] == entry[..i]
        invariant fresh(bigger)
        modifies bigger
      {
        bigger[i] := entry[i];
        i := i + 1;
      }
      copied := copied + arrSize;
      entry := bigger;
      arrSize := newSize;
    }

    /** _prop_append_ele_ptparray */
    method Append(x: nat)
      requires Valid()
      modifies this, entry
      ensures Valid() && Contents() == old(Contents()) + [x] && appended == old(appended) + 1
      ensures old(Frugal()) ==> Frugal()
      ensures entry != null && (entry == old(entry) || fresh(entry))
    {
      if numEle >= arrSize {
        Grow(arrSize * 3 / 2 + 2);
      }
      entry[numEle] := x;
      numEle := numEle + 1;
      appended := appended + 1;
    }

    /** _prop_find_ele_ptparray: the first index, or -1 */
    method Find(x: nat) returns (i: int)
      requires Valid()
      ensures i == -1 <==> x !in Contents()
      ensures i != -1 ==> 0 <= i < |Contents()| && Contents()[i] == x && x !in Contents()[..i]
    {
      if entry == null {
        return -1;
      }
      i := 0;
      while i < numEle
        invariant 0 <= i <= numEle
        invariant x !in entry[..i]
      {
        if entry[i] == x {
          assert Contents()[i] == x && Contents()[..i] == entry[..i];
          return;
        }
        i := i + 1;
      }
      i := -1;
    }

    /** _prop_rem_elem_ptparray: the first occurrence goes, the rest moves down */
    method Remove(x: nat) returns (found: bool)
      requires Valid()
      modifies this, entry
      ensures Valid() && entry == old(entry) && appended == old(appended) && (old(Frugal()) ==> Frugal())
      ensures found <==> x in old(Contents())
      ensures !found ==> Contents() == old(Contents())
      ensures found ==> exists k :: 0 <= k < |old(Contents())| && old(Contents())[k] == x && x !in old(Contents())[..k]
                                    && Contents() == old(Contents())[..k] + old(Contents())[k + 1..]
    {
      var k := Find(x);
      if k == -1 {
        return false;
      }
      ghost var was := Contents();
      ShiftDown(entry, k, numEle);
      numEle := numEle - 1;
      assert Contents() == was[..k] + was[k + 1..];
      found := true;
    }
  }

  // The loop that closes the gap at k among the first n elements
  method ShiftDown(a: array<nat>, k: nat, n: nat)
    requires k < n <= a.Length
    modifies a
    ensures a[..n - 1] == old(a[..n])[..k] + old(a[..n])[k + 1..]
  {
    ghost var was := a[..];
    var i := k;
    while i < n - 1
      invariant k <= i <= n - 1
      invariant forall j :: 0 <= j < k ==> a[j] == was[j]
      invariant forall j :: k <= j < i ==> a[j] == was[j + 1]
      invariant forall j :: i < j < n ==> a[j] == was[j]
    {
      a[i] := a[i + 1];
      i := i + 1;
    }
  }

  /** Any run of appends from an empty array holds what was appended, and moved at most three
      times as many elements as it appended. */
  method AppendAll(xs: seq<nat>) returns (a: Array)
    ensures fresh(a) && a.Valid() && a.Contents() == xs && a.appended == |xs| && a.copied <= 3 * |xs|
  {
    a := new Array();
    var i := 0;
    while i < |xs|
      invariant 0 <= i <= |xs|
      invariant fresh(a) && a.Valid() && a.Frugal() && a.Contents() == xs[..i] && a.appended == i
      invariant a.entry == null || fresh(a.entry)
    {
      a.Append(xs[i]);
      i := i + 1;
    }
  }

  // An array on the wire: the count, then the elements
  function Packed(xs: seq<nat>): (s: seq<Byte>)
    ensures |s| == 4 + 4 * |xs|
  {
    LE(|xs|, 4) + WordBytes(xs)
  }

  /** _prop_pack_ptparray: nothing, or exactly the announced size */
  method Pack(a: Array, buf: array<Byte>) returns (n: nat)
    requires a.Valid()
    modifies buf
    ensures n == if buf.Length < 4 + 4 * |old(a.Contents())| then 0 else 4 + 4 * |old(a.Contents())|
    ensures n > 0 ==> buf[..n] == Packed(old(a.Contents()))
    ensures n == 0 ==> buf[..] == old(buf[..])
  {
    hide LE, WordBytes;
    var xs := if a.entry == null then [] else a.entry[..a.numEle];
    if buf.Length < 4 + 4 * |xs| {
      return 0;
    }
    Put(buf, 0, LE(|xs|, 4));
    Put(buf, 4, WordBytes(xs));
    n := 4 + 4 * |xs|;
  }

  /** A host reads back the elements that were packed. */
  lemma PackedBack(xs: seq<nat>)
    requires |xs| < 0x1_0000_0000 && forall i :: 0 <= i < |xs| ==> xs[i] < 0x1_0000_0000
    ensures FromLE(Packed(xs)[..4]) == |xs| && Words(Packed(xs)[4..]) == xs
  {
    hide LE, FromLE, Words, WordBytes, Pow256;
    Powers();
    assert Packed(xs)[..4] == LE(|xs|, 4) && Packed(xs)[4..] == WordBytes(xs);
    LERoundTrip(|xs|, 4);
    WordsBack(xs);
  }
}
