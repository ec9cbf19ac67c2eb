/** The ObjectInfo dataset (section 5.3.1 of MTP 1.1; src/entity/mtp_object.c:156-229, 241-389). */
module ObjectInfo {
  import opened Codes
  import opened Bytes
  import opened PtpString

  datatype Info = Info(storeId: nat, fmt: nat, prot: nat, fileSize: nat, thumbSize: nat, parent: nat, assocType: nat)

  const FIXED: nat := 52

  // The record before anything is parsed into it
  const BLANK := Info(0, 0, 0, 0, 0, 0, 0)

  predicate InRange(i: Info) {
    && i.storeId < 0x1_0000_0000 && i.fmt < 0x1_0000 && i.prot < 0x1_0000 && i.thumbSize < 0x1_0000_0000
    && i.parent < 0x1_0000_0000 && i.assocType < 0x1_0000
  }

  // The size field has 32 bits; larger files show the largest value.
  function SizeField(fileSize: nat): (n: nat)
    ensures n < 0x1_0000_0000
  {
    if fileSize >= FILE_4GB then U32_MAX else fileSize
  }

  // The fixed part: thumbnail format, pixel sizes, association description and sequence number are 0.
  function Head(i: Info): (s: seq<Byte>)
    ensures |s| == FIXED
  {
    LE(i.storeId, 4) + LE(i.fmt, 2) + LE(i.prot, 2) + LE(SizeField(i.fileSize), 4) + LE(0, 2) + LE(i.thumbSize, 4)
    + LE(0, 20) + LE(i.parent, 4) + LE(i.assocType, 2) + LE(0, 8)
  }

  function Dataset(i: Info, name: seq<Wchar>, created: seq<Wchar>, modified: seq<Wchar>): (s: seq<Byte>)
    requires |name| <= MAX_CHARS && |created| <= MAX_CHARS && |modified| <= MAX_CHARS
    ensures |s| == FIXED + Size(name) + Size(created) + Size(modified) + 1
  {
    Head(i) + Encode(name) + Encode(created) + Encode(modified) + Encode([])
  }

  /** _entity_pack_obj_info, given the two time strings: nothing, or exactly the announced size */
  method Pack(i: Info, name: seq<Wchar>, created: seq<Wchar>, modified: seq<Wchar>, buf: array<Byte>) returns (n: nat)
    requires |name| <= MAX_CHARS && |created| <= MAX_CHARS && |modified| <= MAX_CHARS
    modifies buf
    ensures var size := |Dataset(i, name, created, modified)|;
      && n == (if buf.Length < size then 0 else size)
      && (n > 0 ==> buf[..n] == Dataset(i, name, created, modified))
      && (n == 0 ==> buf[..] == old(buf[..]))
  {
    hide LE, Encode;
    var size := FIXED + PtpString.Size(name) + PtpString.Size(created) + PtpString.Size(modified) + 1;
    if buf.Length < size {
      return 0;
    }
    PackHead(i, buf);
    n := FIXED;
    var k := PtpString.Pack(name, buf, n, PtpString.Size(name));
    n := n + k;
    k := PtpString.Pack(created, buf, n, PtpString.Size(created));
    n := n + k;
    k := PtpString.Pack(modified, buf, n, PtpString.Size(modified));
    n := n + k;
    k := PtpString.Pack([], buf, n, PtpString.Size([]));
    n := n + k;
  }

  method PackHead(i: Info, buf: array<Byte>)
    requires buf.Length >= FIXED
    modifies buf
    ensures buf[..FIXED] == Head(i)
  {
    hide LE;
    Put(buf, 0, LE(i.storeId, 4));
    Put(buf, 4, LE(i.fmt, 2));
    Put(buf, 6, LE(i.prot, 2));
    Put(buf, 8, LE(SizeField(i.fileSize), 4));
    Put(buf, 12, LE(0, 2));
    Put(buf, 14, LE(i.thumbSize, 4));
    Put(buf, 18, LE(0, 20));
    Put(buf, 38, LE(i.parent, 4));
    Put(buf, 42, LE(i.assocType, 2));
    Put(buf, 44, LE(0, 8));
  }

  // ---- Parsing ----

  // Room for the fixed part and four strings of any announced length.
  const ROOM: nat := FIXED + 4 * 511

  function Field(mem: seq<Byte>, off: nat, k: nat): nat
    requires off + k <= |mem|
  {
    FromLE(mem[off..off + k])
  }

  function HeadParsed(mem: seq<Byte>): Info
    requires |mem| >= FIXED
  {
    Info(Field(mem, 0, 4), Field(mem, 4, 2), Field(mem, 6, 2), Field(mem, 8, 4), Field(mem, 14, 4), Field(mem, 38, 4),
        Field(mem, 42, 2))
  }

  // Where a string whose count lies at `off` ends.
  function Skip(mem: seq<Byte>, off: nat): (end: nat)
    requires off < |mem|
    ensures off < end <= off + 511
  {
    off + 1 + 2 * (mem[off] as int)
  }

  /** _entity_parse_raw_obj_info on a buffer whose first `size` bytes are the dataset */
  method Parse(mem: seq<Byte>, size: nat) returns (used: nat, info: Info, name: seq<Wchar>)
    requires |mem| >= ROOM && size <= 131072
    ensures size < FIXED ==> used == 0 && info == BLANK && name == []
    ensures size >= FIXED ==> info == HeadParsed(mem) && (name, used) == Tail(mem, size)
  {
    info, name := BLANK, [];
    if size < FIXED {
      return 0, info, name;
    }
    info := HeadParsed(mem);
    var at := FIXED;
    var k;
    name, k := ParseRaw(mem, at, size);
    at := at + k;
    at := Skip(mem, at);
    at := Skip(mem, at);
    at := Skip(mem, at);
    used := at;
  }

  // The name, and the end of the fourth string.
  function Tail(mem: seq<Byte>, size: nat): (seq<Wchar>, nat)
    requires |mem| >= ROOM && FIXED <= size
  {
    var (name, k) := Parsed(mem, FIXED, size);
    (name, Skip(mem, Skip(mem, Skip(mem, FIXED + k))))
  }

  lemma HeadRoundTrip(i: Info, mem: seq<Byte>)
    requires InRange(i) && |mem| >= FIXED && mem[..FIXED] == Head(i)
    ensures HeadParsed(mem) == i.(fileSize := SizeField(i.fileSize))
  {
    hide LE, FromLE, Pow256;
    Powers();
    var h := mem[..FIXED];
    assert mem[0..4] == h[0..4] == LE(i.storeId, 4);
    assert mem[4..6] == h[4..6] == LE(i.fmt, 2);
    assert mem[6..8] == h[6..8] == LE(i.prot, 2);
    assert mem[8..12] == h[8..12] == LE(SizeField(i.fileSize), 4);
    assert mem[14..18] == h[14..18] == LE(i.thumbSize, 4);
    assert mem[38..42] == h[38..42] == LE(i.parent, 4);
    assert mem[42..44] == h[42..44] == LE(i.assocType, 2);
    FieldAt(mem, 0, i.storeId, 4);
    FieldAt(mem, 4, i.fmt, 2);
    FieldAt(mem, 6, i.prot, 2);
    FieldAt(mem, 8, SizeField(i.fileSize), 4);
    FieldAt(mem, 14, i.thumbSize, 4);
    FieldAt(mem, 38, i.parent, 4);
    FieldAt(mem, 42, i.assocType, 2);
  }

  /** Where the fields of a dataset lie, and in which order its strings follow: name, creation, modification. */
  lemma Layout(i: Info, name: seq<Wchar>, created: seq<Wchar>, modified: seq<Wchar>)
    requires InRange(i) && |name| <= MAX_CHARS && |created| <= MAX_CHARS && |modified| <= MAX_CHARS
    ensures var data := Dataset(i, name, created, modified);
      && FromLE(data[0..4]) == i.storeId && FromLE(data[4..6]) == i.fmt && FromLE(data[6..8]) == i.prot
      && FromLE(data[8..12]) == (if i.fileSize < 0x1_0000_0000 then i.fileSize else 0xFFFF_FFFF)
      && FromLE(data[14..18]) == i.thumbSize && FromLE(data[38..42]) == i.parent && FromLE(data[42..44]) == i.assocType
      && (forall k :: 12 <= k < 14 || 18 <= k < 38 || 44 <= k < 52 ==> data[k] == 0)
    ensures var data, a := Dataset(i, name, created, modified), 53 + 2 * |name|;
      var b := a + 1 + 2 * |created|;
      && StringAt(data, 52, name) && StringAt(data, a, created) && StringAt(data, b, modified)
      && |data| == b + 2 + 2 * |modified| && data[|data| - 1] == 0
  {
    hide LE, FromLE, PtpString.Wide, Head;
    var data, a := Dataset(i, name, created, modified), 53 + 2 * |name|;
    var b := a + 1 + 2 * |created|;
    assert data[..FIXED] == Head(i);
    HeadRoundTrip(i, data);
    HeadZeros(i, data);
    assert data[52..a] == Encode(name) && data[a..b] == Encode(created);
    assert data[b..b + Size(modified)] == Encode(modified);
    StringPart(data, 52, name);
    StringPart(data, a, created);
    StringPart(data, b, modified);
  }

  // A counted string, character by character
  ghost predicate StringAt(data: seq<Byte>, off: nat, chars: seq<Wchar>) {
    && off + 2 * |chars| < |data| && data[off] == |chars|
    && forall k :: 0 <= k < |chars| ==> data[off + 1 + 2 * k] as int + 256 * data[off + 2 + 2 * k] as int == chars[k]
  }

  lemma StringPart(data: seq<Byte>, off: nat, chars: seq<Wchar>)
    requires |chars| <= MAX_CHARS && off + Size(chars) <= |data| && data[off..off + Size(chars)] == Encode(chars)
    ensures StringAt(data, off, chars)
  {
    hide PtpString.Wide;
    var part := data[off..off + Size(chars)];
    assert data[off] == part[0] == |chars|;
    forall k | 0 <= k < |chars|
      ensures data[off + 1 + 2 * k] as int + 256 * data[off + 2 + 2 * k] as int == chars[k]
    {
      PartAt(data, off, chars, k);
    }
  }

  lemma HeadZeros(i: Info, mem: seq<Byte>)
    requires |mem| >= FIXED && mem[..FIXED] == Head(i)
    ensures forall k :: 12 <= k < 14 || 18 <= k < 38 || 44 <= k < 52 ==> mem[k] == 0
  {
    hide LE;
    var h := mem[..FIXED];
    assert h[12..14] == LE(0, 2) && h[18..38] == LE(0, 20) && h[44..52] == LE(0, 8);
    forall k | 12 <= k < 14 || 18 <= k < 38 || 44 <= k < 52 ensures mem[k] == 0 {
      assert mem[k] == h[k];
      if k < 14 {
        ZeroByte(2, k - 12);
        assert h[k] == h[12..14][k - 12];
      } else if k < 38 {
        ZeroByte(20, k - 18);
        assert h[k] == h[18..38][k - 18];
      } else {
        ZeroByte(8, k - 44);
        assert h[k] == h[44..52][k - 44];
      }
    }
  }

  lemma ZeroByte(n: nat, k: nat)
    requires k < n
    ensures LE(0, n)[k] == 0
  {
    LEByte(0, n, k);
  }

  /**
   Parsing a packed dataset returns the packed fields, the size cut to its 32-bit field, and the
   name, and consumes exactly the packed bytes.
   */
  lemma RoundTrip(i: Info, name: seq<Wchar>, created: seq<Wchar>, modified: seq<Wchar>, slack: seq<Byte>)
    requires InRange(i) && |name| <= MAX_CHARS && |created| <= MAX_CHARS && |modified| <= MAX_CHARS
    requires name != [] ==> name[|name| - 1] == 0
    requires |slack| >= ROOM
    ensures var data := Dataset(i, name, created, modified);
      HeadParsed(data + slack) == i.(fileSize := SizeField(i.fileSize)) && Tail(data + slack, |data|) == (name, |data|)
  {
    hide LE, FromLE, Wide, Head, Parsed;
    var data := Dataset(i, name, created, modified);
    var mem := data + slack;
    var a, b, c, d := Encode(name), Encode(created), Encode(modified), Encode([]);
    assert data == Head(i) + a + b + c + d;
    assert mem[..FIXED] == Head(i);
    HeadRoundTrip(i, mem);
    var o1 := FIXED + |a|;
    var o2 := o1 + |b|;
    var o3 := o2 + |c|;
    assert mem[FIXED..FIXED + PtpString.Size(name)] == a;
    PtpString.RoundTrip(mem, FIXED, |data|, name);
    assert mem[o1] == b[0] && mem[o2] == c[0] && mem[o3] == d[0];
  }

  /**
   A dataset is accepted (the parse consumes exactly its bytes) if and only if the fixed part and
   four strings of the announced lengths fill it; clipping the name never turns a bad one good.
   */
  lemma AcceptedIffFramed(mem: seq<Byte>, size: nat)
    requires |mem| >= ROOM && FIXED <= size
    ensures Tail(mem, size).1 == size <==> size == Skip(mem, Skip(mem, Skip(mem, Skip(mem, FIXED))))
  {
    var n := Clip(mem[FIXED], size);
    if n != mem[FIXED] {
      assert Tail(mem, size).1 > FIXED + 2 * n + 1 > size;
      assert Skip(mem, FIXED) > size;
    }
  }

  // n strings fill the rest of the dataset.
  predicate Fill(data: seq<Byte>, off: nat, n: nat)
    decreases n
  {
    if n == 0 then off == |data| else off < |data| && Fill(data, off + 1 + 2 * (data[off] as int), n - 1)
  }

  // A dataset that a host may send. The parser also lets an empty one pass.
  predicate Framed(data: seq<Byte>) {
    data == [] || (|data| >= FIXED && Fill(data, FIXED, 4))
  }

  /** What follows the dataset in memory never matters to whether it is accepted. */
  lemma AcceptedAlone(data: seq<Byte>, slack: seq<Byte>)
    requires |slack| >= ROOM
    ensures (if |data| < FIXED then 0 else Tail(data + slack, |data|).1) == |data| <==> Framed(data)
  {
    hide Tail;
    if |data| >= FIXED {
      var mem := data + slack;
      AcceptedIffFramed(mem, |data|);
      var a := Skip(mem, FIXED);
      var b := Skip(mem, a);
      var c := Skip(mem, b);
      assert Fill(data, FIXED, 4) <==> FIXED < |data| && Fill(data, a, 3);
      assert Fill(data, a, 3) <==> a < |data| && Fill(data, b, 2);
      assert Fill(data, b, 2) <==> b < |data| && Fill(data, c, 1);
      assert Fill(data, c, 1) <==> c < |data| && Skip(mem, c) == |data|;
    }
  }

  // The name in a dataset: what the parser reads when zero bytes follow it.
  function NameOf(data: seq<Byte>): seq<Wchar> {
    if |data| < FIXED then [] else Tail(data + seq(ROOM, _ => 0), |data|).0
  }

  /** What follows a framed dataset in memory never matters to its name either. */
  lemma NameAlone(data: seq<Byte>, slack: seq<Byte>)
    requires Framed(data) && |data| >= FIXED && |slack| >= ROOM
    ensures Tail(data + slack, |data|).0 == NameOf(data)
  {
    var zeros: seq<Byte> := seq(ROOM, _ => 0);
    var a, b, n := data + slack, data + zeros, data[FIXED] as int;
    FramedName(data);
    forall i | 0 <= i < n ensures CharAt(a, FIXED, i) == CharAt(b, FIXED, i) {
    }
    assert Parsed(a, FIXED, |data|).0 == Parsed(b, FIXED, |data|).0;
  }

  lemma FramedName(data: seq<Byte>)
    requires Framed(data) && |data| >= FIXED
    ensures |data| > FIXED && FIXED + 1 + 2 * (data[FIXED] as int) < |data|
  {
    assert Fill(data, FIXED, 4);
    assert Fill(data, FIXED + 1 + 2 * (data[FIXED] as int), 3);
  }

  /** A host's name comes through. */
  lemma NameRoundTrip(i: Info, name: seq<Wchar>, created: seq<Wchar>, modified: seq<Wchar>)
    requires InRange(i) && |name| <= MAX_CHARS && |created| <= MAX_CHARS && |modified| <= MAX_CHARS
    requires name != [] ==> name[|name| - 1] == 0
    ensures var data := Dataset(i, name, created, modified);
      NameOf(data) == name && HeadParsed(data) == i.(fileSize := SizeField(i.fileSize)) && Framed(data)
  {
    hide HeadParsed, Tail, Dataset, Framed;
    var data, zeros := Dataset(i, name, created, modified), seq(ROOM, _ => 0 as Byte);
    RoundTrip(i, name, created, modified, zeros);
    HeadAlone(data, zeros);
    AcceptedAlone(data, zeros);
  }

  lemma FieldAlone(a: seq<Byte>, b: seq<Byte>, off: nat, k: nat)
    requires off + k <= |a|
    ensures Field(a + b, off, k) == Field(a, off, k)
  {
    hide FromLE;
    assert (a + b)[off..off + k] == a[off..off + k];
  }

  lemma HeadAlone(a: seq<Byte>, b: seq<Byte>)
    requires |a| >= FIXED
    ensures HeadParsed(a + b) == HeadParsed(a)
  {
    hide Field;
    FieldAlone(a, b, 0, 4);
    FieldAlone(a, b, 4, 2);
    FieldAlone(a, b, 6, 2);
    FieldAlone(a, b, 8, 4);
    FieldAlone(a, b, 14, 4);
    FieldAlone(a, b, 38, 4);
    FieldAlone(a, b, 42, 2);
  }
}
