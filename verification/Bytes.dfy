/** Bytes, little-endian integers and writes into a byte buffer. */
module Bytes {

  type Byte = b: int | 0 <= b < 256

  function Pow256(k: nat): (p: nat)
    ensures p > 0
  {
    if k == 0 then 1 else 256 * Pow256(k - 1)
  }

  // The k low-order bytes of n, least significant first.
  function LE(n: nat, k: nat): (s: seq<Byte>)
    ensures |s| == k
    decreases k
  {
    if k == 0 then [] else [n % 256] + LE(n / 256, k - 1)
  }

  function FromLE(s: seq<Byte>): nat {
    if s == [] then 0 else s[0] + 256 * FromLE(s[1..])
  }

  lemma {:induction false} LERoundTrip(n: nat, k: nat)
    requires n < Pow256(k)
    ensures FromLE(LE(n, k)) == n
    decreases k
  {
    if k > 0 {
      LERoundTrip(n / 256, k - 1);
      assert LE(n, k)[1..] == LE(n / 256, k - 1);
    }
  }

  lemma {:induction false} FromLERoundTrip(s: seq<Byte>)
    ensures FromLE(s) < Pow256(|s|) && LE(FromLE(s), |s|) == s
  {
    if s != [] {
      FromLERoundTrip(s[1..]);
      var b: int, rest := s[0], FromLE(s[1..]);
      assert (b + 256 * rest) / 256 == rest && (b + 256 * rest) % 256 == b;
      assert LE(FromLE(s), |s|) == [s[0]] + LE(rest, |s| - 1);
    }
  }

  /** Byte i of an encoded number is its i-th digit to the base 256. */
  lemma {:induction false} LEByte(n: nat, k: nat, i: nat)
    requires i < k
    ensures LE(n, k)[i] == (n / Pow256(i)) % 256
    decreases k
  {
    if i > 0 {
      LEByte(n / 256, k - 1, i - 1);
      DivTwice(n, 256, Pow256(i - 1));
    }
  }

  lemma DivTwice(n: nat, a: nat, b: nat)
    requires a > 0 && b > 0
    ensures a * b > 0 && n / a / b == n / (a * b)
  {
    var q, r := n / a / b, n / a % b;
    var rest := a * r + n % a;
    assert n == a * (b * q + r) + n % a;
    assert a * (b * q + r) == a * b * q + a * r;
    assert a * r <= a * (b - 1);
    assert 0 <= rest < a * b;
    DivIs(n, a * b, q, rest);
  }

  lemma DivIs(n: nat, m: nat, q: nat, r: nat)
    requires m > 0 && n == m * q + r && r < m
    ensures n / m == q
  {
    var d: int, size: int := n / m - q, m;
    assert size * d == r - n % m;
    assert (d >= 1 ==> size * d >= size) && (d <= -1 ==> size * d <= -size);
  }

  /** A two- or four-byte field, written out */
  lemma Fields(s: seq<Byte>)
    ensures |s| == 2 ==> FromLE(s) == s[0] as int + 0x100 * s[1] as int
    ensures |s| == 4 ==>
      FromLE(s) == s[0] as int + 0x100 * s[1] as int + 0x1_0000 * s[2] as int + 0x100_0000 * s[3] as int
  {
    if |s| == 2 {
      assert FromLE(s[1..]) == s[1] + 256 * FromLE(s[2..]);
    }
    if |s| == 4 {
      assert s[1..][1..] == s[2..] && s[2..][1..] == s[3..] && s[3..][1..] == [];
      assert FromLE(s[3..]) == s[3];
      assert FromLE(s[2..]) == s[2] + 256 * FromLE(s[3..]);
      assert FromLE(s[1..]) == s[1] + 256 * FromLE(s[2..]);
    }
  }

  lemma Powers()
    ensures Pow256(1) == 0x100 && Pow256(2) == 0x1_0000 && Pow256(4) == 0x1_0000_0000
  {
    assert Pow256(3) == 256 * Pow256(2);
  }

  // ---- Sequences of 32-bit words ----

  function Words(s: seq<Byte>): seq<nat> {
    if |s| < 4 then [] else [FromLE(s[..4])] + Words(s[4..])
  }

  function WordBytes(ws: seq<nat>): (s: seq<Byte>)
    ensures |s| == 4 * |ws|
  {
    if ws == [] then [] else LE(ws[0], 4) + WordBytes(ws[1..])
  }

  lemma {:induction false} WordsBack(ws: seq<nat>)
    requires forall i :: 0 <= i < |ws| ==> ws[i] < 0x1_0000_0000
    ensures Words(WordBytes(ws)) == ws
  {
    hide LE, FromLE;
    if ws != [] {
      var s := WordBytes(ws);
      assert s[..4] == LE(ws[0], 4) && s[4..] == WordBytes(ws[1..]);
      Powers();
      LERoundTrip(ws[0], 4);
      WordsBack(ws[1..]);
    }
  }

  /** Word i is what bytes 4 * i to 4 * i + 3 hold; a rest of fewer than four bytes is passed over. */
  lemma {:induction false} WordAt(s: seq<Byte>, i: nat)
    ensures |Words(s)| == |s| / 4
    ensures 4 * i + 4 <= |s| ==> i < |Words(s)| && Words(s)[i] == FromLE(s[4 * i..4 * i + 4])
  {
    if |s| >= 4 {
      WordAt(s[4..], if i > 0 then i - 1 else 0);
      if i > 0 && 4 * i + 4 <= |s| {
        assert s[4..][4 * (i - 1)..4 * (i - 1) + 4] == s[4 * i..4 * i + 4];
      }
    }
  }

  lemma {:induction false} BytesBack(s: seq<Byte>)
    requires |s| % 4 == 0
    ensures WordBytes(Words(s)) == s
  {
    if s != [] {
      FromLERoundTrip(s[..4]);
      BytesBack(s[4..]);
      assert Words(s)[1..] == Words(s[4..]);
      assert s == s[..4] + s[4..];
    }
  }

  // One field read out of a larger buffer.
  lemma FieldAt(buf: seq<Byte>, off: nat, n: nat, k: nat)
    requires n < Pow256(k) && off + k <= |buf| && buf[off..off + k] == LE(n, k)
    ensures FromLE(buf[off..off + k]) == n
  {
    LERoundTrip(n, k);
  }

  /** memcpy into a buffer: what lies before the bytes written, then the bytes, then the rest. */
  method Put(buf: array<Byte>, off: nat, src: seq<Byte>)
    requires off + |src| <= buf.Length
    modifies buf
    ensures buf[..off + |src|] == old(buf[..off]) + src
    ensures buf[off + |src|..] == old(buf[off + |src|..])
  {
    var i := 0;
    while i < |src|
      invariant 0 <= i <= |src|
      invariant buf[..off] == old(buf[..off])
      invariant buf[off..off + i] == src[..i]
      invariant buf[off + |src|..] == old(buf[off + |src|..])
    {
      buf[off + i] := src[i];
      i := i + 1;
    }
    assert src[..i] == src;
    assert buf[..off + |src|] == buf[..off] + buf[off..off + |src|];
  }
}
