/** Path helpers (src/util/mtp_support.c), over strings of single-byte characters. */
module Paths {
  import opened Codes

  predicate OccursAt(s: string, pat: string, i: int) {
    0 <= i && i + |pat| <= |s| && s[i..i + |pat|] == pat
  }

  // First occurrence of pat in s at or after k, or -1.
  function StrstrFrom(s: string, pat: string, k: nat): (i: int)
    ensures i == -1 || (k <= i && OccursAt(s, pat, i))
    ensures forall j :: k <= j && (i == -1 || j < i) ==> !OccursAt(s, pat, j)
    decreases |s| - k
  {
    if OccursAt(s, pat, k) then k
    else if k >= |s| then -1
    else StrstrFrom(s, pat, k + 1)
  }

  // strstr: where pat first occurs in s, or -1.
  function Strstr(s: string, pat: string): (i: int)
    ensures i == -1 || (OccursAt(s, pat, i) && 0 <= i <= |s| - |pat|)
    ensures forall j :: 0 <= j && (i == -1 || j < i) ==> !OccursAt(s, pat, j)
  {
    StrstrFrom(s, pat, 0)
  }

  lemma StrstrPrefix(s: string, pat: string)
    requires pat <= s
    ensures Strstr(s, pat) == 0
  {
    assert OccursAt(s, pat, 0);
  }

  // dir is what precedes the last '/', name what follows it.
  ghost predicate Splits(path: string, dir: string, name: string) {
    path == dir + "/" + name && '/' !in name
  }

  lemma SplitAt(path: string, dir: string, name: string)
    requires Splits(path, dir, name)
    ensures |dir| < |path| && path[|dir|] == '/' && dir == path[..|dir|] && name == path[|dir| + 1..]
    ensures forall k :: |dir| < k < |path| ==> path[k] != '/'
  {
    forall k | |dir| < k < |path| ensures path[k] != '/' {
      assert path[k] == name[k - |dir| - 1];
    }
  }

  lemma SplitUnique(path: string, d1: string, n1: string, d2: string, n2: string)
    requires Splits(path, d1, n1) && Splits(path, d2, n2)
    ensures d1 == d2 && n1 == n2
  {
    hide Splits;
    SplitAt(path, d1, n1);
    SplitAt(path, d2, n2);
  }

  /** _util_get_file_name: the part after the last '/', or the whole path when there is none. */
  method GetFileName(path: string) returns (name: string)
    ensures '/' !in name
    ensures '/' !in path ==> name == path
    ensures '/' in path ==> exists dir :: Splits(path, dir, name)
  {
    var i := |path|;
    while i > 0
      invariant 0 <= i <= |path|
      invariant '/' !in path[i..]
    {
      i := i - 1;
      if path[i] == '/' {
        name := path[i + 1..];
        assert Splits(path, path[..i], name);
        return;
      }
      assert path[i..] == [path[i]] + path[i + 1..];
    }
    assert path[0..] == path;
    name := path;
  }

  // What precedes the last '/', or nothing.
  function DirOf(path: string): string {
    if path == "" then ""
    else if path[|path| - 1] == '/' then path[..|path| - 1]
    else DirOf(path[..|path| - 1])
  }

  /** _util_get_parent_path: what precedes the last '/'; empty when there is none. */
  method GetParentPath(path: string) returns (dir: string)
    ensures dir == DirOf(path)
    ensures '/' !in path ==> dir == ""
    ensures '/' in path ==> exists name :: Splits(path, dir, name)
  {
    var i := |path|;
    assert path[..i] == path;
    while i > 0
      invariant 0 <= i <= |path|
      invariant '/' !in path[i..] && DirOf(path) == DirOf(path[..i])
    {
      i := i - 1;
      assert path[..i + 1][..i] == path[..i];
      if path[i] == '/' {
        dir := path[..i];
        assert Splits(path, dir, path[i + 1..]);
        return;
      }
      assert path[i..] == [path[i]] + path[i + 1..];
    }
    assert path[0..] == path;
    dir := "";
  }

  // The path _util_create_path builds, and when it accepts it. A path of exactly MAX_PATH + 1
  // characters is accepted and loses its last character.
  function CreatePath(root: string, dir: string, name: string): (r: (bool, string))
    ensures |dir + "/" + name| <= MAX_PATH ==> r.1 == dir + "/" + name
    ensures r.0 <==> |name| <= MAX_NAME && |dir + "/" + name| <= MAX_PATH + 1 && root <= r.1
    ensures r.0 ==> r.1 <= dir + "/" + name && |r.1| <= MAX_PATH && |dir + "/" + name| - |r.1| <= 1
  {
    var path := dir + "/" + name;
    if |name| > MAX_NAME || |path| > MAX_PATH + 1 then (false, path)
    else
      var kept := if |path| > MAX_PATH then path[..MAX_PATH] else path;
      (root <= kept, kept)
  }

  // ---- Comparison without case, and file extensions ----

  function Lower(c: char): char {
    if 'A' <= c <= 'Z' then c - 'A' + 'a' else c
  }

  predicate SameIgnoringCase(a: string, b: string) {
    |a| == |b| && forall i :: 0 <= i < |a| ==> Lower(a[i]) == Lower(b[i])
  }

  // The same character, or the two forms of an ASCII letter
  ghost predicate SameLetter(x: char, y: char) {
    || x == y
    || ('A' <= x <= 'Z' && y as int == x as int + 32)
    || ('A' <= y <= 'Z' && x as int == y as int + 32)
  }

  /** Two strings compare as equal if and only if they differ in the case of ASCII letters alone. */
  lemma SameLetters(a: string, b: string)
    ensures SameIgnoringCase(a, b) <==> |a| == |b| && forall i :: 0 <= i < |a| ==> SameLetter(a[i], b[i])
  {
    forall x, y ensures Lower(x) == Lower(y) <==> SameLetter(x, y) {
      LowerOne(x);
      LowerOne(y);
    }
  }

  lemma LowerOne(c: char)
    ensures if 'A' <= c <= 'Z' then Lower(c) as int == c as int + 32 else Lower(c) == c
  {
  }

  // What follows the last '.', or nothing (_util_get_file_extn).
  function Extension(path: string): string {
    if path == "" then ""
    else if path[|path| - 1] == '.' then ""
    else if '.' !in path then ""
    else Extension(path[..|path| - 1]) + [path[|path| - 1]]
  }

  /** The extension has no dot, and follows one, or there is none in the path. */
  lemma {:induction false} ExtensionIs(path: string)
    ensures '.' !in Extension(path)
    ensures if '.' in path then exists stem :: path == stem + "." + Extension(path) else Extension(path) == ""
  {
    if path != "" {
      var n := |path| - 1;
      if path[n] == '.' {
        assert path == path[..n] + "." + "";
      } else if '.' in path {
        assert path == path[..n] + [path[n]];
        ExtensionIs(path[..n]);
        var stem :| path[..n] == stem + "." + Extension(path[..n]);
        assert path == stem + "." + Extension(path);
      }
    }
  }
}
