/**
 Strings of the protocol (section 3.2.3 of MTP 1.1; src/entity/mtp_property.c:459-505, 562-660): a count of 16-bit
 characters that includes the terminating NUL, then the characters, least significant byte first.
 A value here is the counted characters, so at most 255 of them.
 */
module PtpString {
  import opened Bytes

  type Wchar = w: int | 0 <= w < 0x1_0000

  const MAX_CHARS: nat := 255

  function Size(chars: seq<Wchar>): nat {
    2 * |chars| + 1
  }

  function Wide(chars: seq<Wchar>): (s: seq<Byte>)
    ensures |s| == 2 * |chars|
  {
    if chars == [] then []
    else Wide(chars[..|chars| - 1]) + LE(chars[|chars| - 1], 2)
  }

  function Encode(chars: seq<Wchar>): (s: seq<Byte>)
    requires |chars| <= MAX_CHARS
    ensures |s| == Size(chars)
  {
    [|chars|] + Wide(chars)
  }

  // A character string as the protocol carries it: at most 254 characters, then NUL.
  function Carried(s: seq<Wchar>): (r: seq<Wchar>)
    ensures |r| <= MAX_CHARS && (r != [] ==> r[|r| - 1] == 0)
  {
    if s == [] then [] else (if |s| < MAX_CHARS then s else s[..MAX_CHARS - 1]) + [0]
  }

  /** _prop_copy_char_to_ptpstring, for a NUL-terminated string s */
  method Copy(s: seq<Wchar>) returns (chars: seq<Wchar>)
    requires 0 !in s
    ensures chars == Carried(s)
  {
    if s == [] {
      return [];
    }
    chars := [];
    var i := 0;
    while i < MAX_CHARS && i < |s|
      invariant 0 <= i <= |s| && i <= MAX_CHARS
      invariant chars == s[..i]
    {
      chars := chars + [s[i]];
      i := i + 1;
    }
    if i == MAX_CHARS {
      chars := chars[..i - 1] + [0];
    } else {
      chars := chars + [0];
    }
  }

  /** _prop_pack_ptpstring_body: writes the whole string or nothing */
  method Pack(chars: seq<Wchar>, buf: array<Byte>, off: nat, size: nat) returns (n: nat)
    requires |chars| <= MAX_CHARS && off + size <= buf.Length
    modifies buf
    ensures n == if size < Size(chars) then 0 else Size(chars)
    ensures n > 0 ==> buf[..off + n] == old(buf[..off]) + Encode(chars) && buf[off + n..] == old(buf[off + n..])
    ensures n == 0 ==> buf[..] == old(buf[..])
  {
    if size == 0 || size < Size(chars) {
      return 0;
    }
    if chars == [] {
      Put(buf, off, [0]);
      n := 1;
    } else {
      Put(buf, off, Encode(chars));
      n := Size(chars);
    }
  }

  // The counted characters of a raw string of which at most (size - 1) / 2 are taken.
  function Clip(count: Byte, size: nat): nat {
    if (count as int) > (size - 1) / 2 && size > 0 then (size - 1) / 2 else count
  }

  function U16(lo: Byte, hi: Byte): Wchar {
    (lo as int) + 256 * (hi as int)
  }

  function CharAt(mem: seq<Byte>, off: nat, i: nat): Wchar
    requires off + 2 * i + 2 < |mem|
  {
    U16(mem[off + 1 + 2 * i], mem[off + 2 + 2 * i])
  }

  // What a parse of the string at `off` yields: the characters, the last replaced by NUL, and the
  // number of bytes they take.
  function Parsed(mem: seq<Byte>, off: nat, size: nat): (r: (seq<Wchar>, nat))
    requires off + 511 <= |mem| && 3 <= size
    ensures |r.0| <= MAX_CHARS && r.1 == Size(r.0)
    ensures (r.0 == [] <==> mem[off] == 0) && (r.0 != [] ==> r.0[|r.0| - 1] == 0)
  {
    var n := Clip(mem[off], size);
    if n == 0 then ([], 1)
    else (seq(n, i requires 0 <= i < n => if i == n - 1 then 0 else CharAt(mem, off, i)), 2 * n + 1)
  }

  /** _prop_parse_rawstring, for the sizes at which it neither writes before its buffer nor wraps its counter */
  method ParseRaw(mem: seq<Byte>, off: nat, size: nat) returns (chars: seq<Wchar>, n: nat)
    requires off + 511 <= |mem| && 3 <= size <= 131072
    ensures (chars, n) == Parsed(mem, off, size)
  {
    if mem[off] == 0 {
      return [], 1;
    }
    var count: nat := mem[off];
    var limit := (size - 1) / 2;
    if count > limit {
      count := limit;
    }
    chars := [];
    var i := 0;
    while i < count
      invariant 0 <= i <= count
      invariant |chars| == i && forall k :: 0 <= k < i ==> chars[k] == CharAt(mem, off, k)
    {
      chars := chars + [CharAt(mem, off, i)];
      i := i + 1;
    }
    chars := chars[count - 1 := 0];
    n := Size(chars);
    assert chars == Parsed(mem, off, size).0;
  }

  lemma {:induction false} WideAt(chars: seq<Wchar>, i: nat)
    requires i < |chars|
    ensures U16(Wide(chars)[2 * i], Wide(chars)[2 * i + 1]) == chars[i]
  {
    var n := |chars| - 1;
    if i < n {
      WideAt(chars[..n], i);
    } else {
      var last := LE(chars[n], 2);
      assert Wide(chars) == Wide(chars[..n]) + last;
      assert last[0] == chars[n] % 256 && last[1] == LE(chars[n] / 256, 1)[0];
    }
  }

  /** Parsing a packed NUL-terminated string gives it back and consumes exactly its size. */
  lemma RoundTrip(mem: seq<Byte>, off: nat, size: nat, chars: seq<Wchar>)
    requires |chars| <= MAX_CHARS && (chars != [] ==> chars[|chars| - 1] == 0)
    requires off + 511 <= |mem| && 3 <= size && Size(chars) <= size
    requires mem[off..off + Size(chars)] == Encode(chars)
    ensures Parsed(mem, off, size) == (chars, Size(chars))
  {
    hide LE, Wide;
    var part := mem[off..off + Size(chars)];
    assert mem[off] == part[0] == |chars|;
    forall i | 0 <= i < |chars| ensures CharAt(mem, off, i) == chars[i] {
      PartAt(mem, off, chars, i);
    }
    assert Parsed(mem, off, size).0 == chars;
  }

  lemma PartAt(mem: seq<Byte>, off: nat, chars: seq<Wchar>, i: nat)
    requires |chars| <= MAX_CHARS && off + Size(chars) <= |mem| && i < |chars|
    requires mem[off..off + Size(chars)] == Encode(chars)
    ensures CharAt(mem, off, i) == chars[i]
  {
    hide LE, Wide;
    var part, wide := mem[off..off + Size(chars)], Wide(chars);
    WideAt(chars, i);
    assert part[1 + 2 * i] == wide[2 * i] && part[2 + 2 * i] == wide[2 * i + 1];
    assert mem[off + 1 + 2 * i] == part[1 + 2 * i] && mem[off + 2 + 2 * i] == part[2 + 2 * i];
  }

  /** What comes out of copy, pack and parse: the first 254 characters, then NUL. */
  lemma CopyPackParse(s: seq<Wchar>, slack: seq<Byte>, size: nat)
    requires |slack| >= 511 && Size(Carried(s)) <= size && 3 <= size
    ensures Parsed(Encode(Carried(s)) + slack, 0, size) == (Carried(s), Size(Carried(s)))
    ensures Carried(s) == if s == [] then [] else if |s| <= 254 then s + [0] else s[..254] + [0]
  {
    var mem := Encode(Carried(s)) + slack;
    assert mem[0..0 + Size(Carried(s))] == Encode(Carried(s));
    RoundTrip(mem, 0, size, Carried(s));
  }

  /** A packed NUL-terminated string, taken by itself, is read back. */
  lemma RawBack(chars: seq<Wchar>)
    requires 0 < |chars| <= MAX_CHARS && chars[|chars| - 1] == 0
    ensures RawString(Encode(chars)) == chars
  {
    hide Wide;
    var data := Encode(chars);
    var mem := data + seq(511, _ => 0);
    assert mem[0..0 + Size(chars)] == data;
    RoundTrip(mem, 0, |data|, chars);
  }

  // The string in a raw value: what the parser reads when zero bytes follow it.
  function RawString(data: seq<Byte>): seq<Wchar> {
    if |data| < 3 then [] else Parsed(data + seq(511, _ => 0), 0, |data|).0
  }

  /** What follows a raw string in memory never matters: the count is clipped to the value. */
  lemma RawAlone(data: seq<Byte>, slack: seq<Byte>)
    requires |data| >= 3 && |slack| >= 511
    ensures Parsed(data + slack, 0, |data|).0 == RawString(data)
  {
    var zeros: seq<Byte> := seq(511, _ => 0);
    var a, b, n := data + slack, data + zeros, Clip(data[0], |data|);
    forall i | 0 <= i < n ensures CharAt(a, 0, i) == CharAt(b, 0, i) { }
    assert Parsed(a, 0, |data|).0 == Parsed(b, 0, |data|).0;
  }
}
