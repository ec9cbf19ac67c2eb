/** The ObjectPropDesc dataset (src/entity/mtp_property.c:1209-1463). */
module PropDesc {
  import opened Options
  import opened Bytes
  import opened PtpString

  const STRING: nat := 0xFFFF

  // Form flags
  const NONE: Byte := 0
  const RANGE: Byte := 1
  const ENUM: Byte := 2
  const DATE_TIME: Byte := 3
  const REGEX: Byte := 4
  const BYTE_ARRAY: Byte := 5
  const LONG_STRING: Byte := 0xFF

  // (type & 0x4FF0) == 0x4000
  predicate IsArray(dataType: nat) {
    dataType != STRING && dataType / 0x4000 % 2 == 1 && dataType / 16 % 256 == 0
  }

  // (type & 0xFFF0) == 0
  predicate IsValue(dataType: nat) {
    dataType < 16
  }

  // Bytes of one value of the type; arrays of a type share its low digits.
  function ValueSize(dataType: nat): nat {
    var base := if 0x4000 <= dataType < 0x4010 then dataType - 0x4000 else dataType;
    if base == 1 || base == 2 then 1
    else if base == 3 || base == 4 then 2
    else if base == 5 || base == 6 then 4
    else if base == 7 || base == 8 then 8
    else if base == 9 || base == 10 then 16
    else 0
  }

  // Sizes double from pair to pair of integer types, from one byte to sixteen.
  lemma ValueSizes(t: nat)
    ensures ValueSize(1) == ValueSize(2) == 1
    ensures 1 <= t <= 8 ==> ValueSize(t + 2) == 2 * ValueSize(t)
    ensures 1 <= t <= 10 ==> ValueSize(0x4000 + t) == ValueSize(t)
    ensures !(1 <= t <= 10) && !(0x4001 <= t <= 0x400A) ==> ValueSize(t) == 0
  {
  }

  // An array value: elements of `elem` bytes each, as they lie in memory. Element types that the
  // responder does not know, 64-bit integers among them, have size 0 and are not written at all.
  datatype Arr = Arr(elem: nat, count: nat, raw: seq<Byte>)

  // The default value; which member of the source's union is meant depends on the data type.
  datatype Default =
    | IntDefault(raw: seq<Byte>)
    | StrDefault(chars: Option<seq<Wchar>>)
    | ArrDefault(arr: Option<Arr>)
    | NoDefault

  datatype Form =
    | NoForm
    | RangeForm(min: nat, max: nat, step: nat)
    | IntEnum(ints: seq<nat>)
    | StrEnum(strs: seq<seq<Wchar>>)
    | RegexForm(regex: Option<seq<Wchar>>)
    | LengthForm(maxLen: nat)

  datatype Desc = Desc(code: nat, dataType: nat, getSet: Byte, def: Default, group: nat, flag: Byte, form: Form)

  predicate Short(chars: seq<Wchar>) {
    |chars| <= MAX_CHARS
  }

  predicate AllShort(strs: seq<seq<Wchar>>) {
    forall i :: 0 <= i < |strs| ==> Short(strs[i])
  }

  predicate DefaultOk(dataType: nat, def: Default) {
    if dataType == STRING then def.StrDefault? && (def.chars.Some? ==> Short(def.chars.value))
    else if IsArray(dataType) then
      def.ArrDefault? && (def.arr.Some? ==> def.arr.value.count < 0x1_0000_0000
                                            && |def.arr.value.raw| == def.arr.value.count * def.arr.value.elem)
    else if IsValue(dataType) then def.IntDefault? && |def.raw| == ValueSize(dataType)
    else def.NoDefault?
  }

  predicate FormOk(dataType: nat, flag: Byte, form: Form) {
    if flag == RANGE then form.RangeForm? && form.min < 0x1_0000_0000 && form.max < 0x1_0000_0000
      && form.step < 0x1_0000_0000
    else if flag == ENUM then
      if dataType == STRING then form.StrEnum? && |form.strs| < 0x1_0000 && AllShort(form.strs)
      else form.IntEnum? && |form.ints| < 0x1_0000 && forall v :: v in form.ints ==> v < 0x1_0000_0000
    else if flag == REGEX then form.RegexForm? && (form.regex.Some? ==> Short(form.regex.value))
    else if flag == BYTE_ARRAY || flag == LONG_STRING then form.LengthForm? && form.maxLen < 0x1_0000_0000
    else form.NoForm?
  }

  // A descriptor as the source's structure can hold it.
  predicate Ok(d: Desc) {
    && d.code < 0x1_0000 && d.dataType < 0x1_0000 && d.group < 0x1_0000_0000
    && DefaultOk(d.dataType, d.def) && FormOk(d.dataType, d.flag, d.form)
  }

  // ---- Sizes ----

  function OptSize(chars: Option<seq<Wchar>>): nat {
    if chars.Some? then PtpString.Size(chars.value) else 0
  }

  function DefaultSize(def: Default): nat {
    match def
    case IntDefault(raw) => |raw|
    case StrDefault(chars) => OptSize(chars)
    case ArrDefault(arr) => if arr.Some? && arr.value.elem > 0 then 4 + |arr.value.raw| else 0
    case NoDefault => 0
  }

  function StrsSize(strs: seq<seq<Wchar>>): nat {
    if strs == [] then 0 else StrsSize(strs[..|strs| - 1]) + PtpString.Size(strs[|strs| - 1])
  }

  function FormSize(dataType: nat, form: Form): nat {
    match form
    case NoForm => 0
    case RangeForm(_, _, _) => if dataType != STRING then 3 * ValueSize(dataType) else 0
    case IntEnum(ints) => 2 + |ints| * ValueSize(dataType)
    case StrEnum(strs) => 2 + StrsSize(strs)
    case RegexForm(regex) => OptSize(regex)
    case LengthForm(_) => 4
  }

  // _prop_size_obj_prop_desc
  function Size(d: Desc): nat {
    10 + DefaultSize(d.def) + FormSize(d.dataType, d.form)
  }

  // ---- Bytes ----

  function OptBytes(chars: Option<seq<Wchar>>): seq<Byte>
    requires chars.Some? ==> Short(chars.value)
  {
    if chars.Some? then Encode(chars.value) else []
  }

  function DefaultBytes(dataType: nat, def: Default): seq<Byte>
    requires DefaultOk(dataType, def)
  {
    match def
    case IntDefault(raw) => raw
    case StrDefault(chars) => OptBytes(chars)
    case ArrDefault(arr) => if arr.Some? && arr.value.elem > 0 then LE(arr.value.count, 4) + arr.value.raw else []
    case NoDefault => []
  }

  function IntsBytes(ints: seq<nat>, k: nat): seq<Byte> {
    if ints == [] then [] else IntsBytes(ints[..|ints| - 1], k) + LE(ints[|ints| - 1], k)
  }

  function StrsBytes(strs: seq<seq<Wchar>>): seq<Byte>
    requires AllShort(strs)
  {
    if strs == [] then [] else StrsBytes(strs[..|strs| - 1]) + Encode(strs[|strs| - 1])
  }

  function FormBytes(dataType: nat, flag: Byte, form: Form): seq<Byte>
    requires FormOk(dataType, flag, form)
  {
    var k := ValueSize(dataType);
    match form
    case NoForm => []
    case RangeForm(min, max, step) => LE(min, k) + LE(max, k) + LE(step, k)
    case IntEnum(ints) => LE(|ints|, 2) + IntsBytes(ints, k)
    case StrEnum(strs) => LE(|strs|, 2) + StrsBytes(strs)
    case RegexForm(regex) => OptBytes(regex)
    case LengthForm(maxLen) => LE(maxLen, 4)
  }

  function Dataset(d: Desc): seq<Byte>
    requires Ok(d)
  {
    LE(d.code, 2) + LE(d.dataType, 2) + [d.getSet] + DefaultBytes(d.dataType, d.def)
    + LE(d.group, 4) + [d.flag] + FormBytes(d.dataType, d.flag, d.form)
  }

  // ---- Packing ----

  // The k bytes at a 32-bit field: beyond its four, whatever lies behind it in memory.
  method Memory(v: nat, k: nat) returns (s: seq<Byte>)
    ensures |s| == k && (k <= 4 ==> s == LE(v, k))
  {
    if k <= 4 {
      return LE(v, k);
    }
    s := LE(v, 4);
    while |s| < k
      invariant |s| <= k
    {
      var b: Byte := *;
      s := s + [b];
    }
  }

  // The packed integers are the field values themselves when a value has at most four bytes.
  predicate Exact(d: Desc) {
    (d.form.RangeForm? || d.form.IntEnum?) ==> ValueSize(d.dataType) <= 4
  }

  /** _prop_pack_obj_prop_desc: nothing, or exactly the announced size */
  method Pack(d: Desc, buf: array<Byte>) returns (n: nat)
    requires Ok(d)
    modifies buf
    ensures n == if buf.Length < Size(d) then 0 else Size(d)
    ensures n > 0 && Exact(d) ==> buf[..n] == Dataset(d)
    ensures n == 0 ==> buf[..] == old(buf[..])
  {
    hide LE, ValueSize, IsArray, IsValue, FormOk, FormBytes, FormSize, DefaultBytes, DefaultOk;
    if buf.Length < Size(d) {
      return 0;
    }
    n := PackFixed(d, buf);
    ghost var head := buf[..n];
    n := PackForm(d, buf, n);
    assert n > 0 && Exact(d) ==> buf[..n] == head + FormBytes(d.dataType, d.flag, d.form);
  }

  // The fields before the form.
  method PackFixed(d: Desc, buf: array<Byte>) returns (n: nat)
    requires Ok(d) && buf.Length >= 10 + DefaultSize(d.def)
    modifies buf
    ensures n == 10 + DefaultSize(d.def)
    ensures buf[..n] == LE(d.code, 2) + LE(d.dataType, 2) + [d.getSet] + DefaultBytes(d.dataType, d.def)
                        + LE(d.group, 4) + [d.flag]
  {
    hide LE, ValueSize, IsArray, IsValue, FormOk, DefaultBytes;
    Put(buf, 0, LE(d.code, 2));
    Put(buf, 2, LE(d.dataType, 2));
    Put(buf, 4, [d.getSet]);
    DefaultFits(d.dataType, d.def);
    Put(buf, 5, DefaultBytes(d.dataType, d.def));
    n := 5 + DefaultSize(d.def);
    Put(buf, n, LE(d.group, 4));
    Put(buf, n + 4, [d.flag]);
    n := n + 5;
  }

  lemma DefaultFits(dataType: nat, def: Default)
    requires DefaultOk(dataType, def)
    ensures |DefaultBytes(dataType, def)| == DefaultSize(def)
  {
  }

  // The switch over the form, from a cursor on.
  method PackForm(d: Desc, buf: array<Byte>, off: nat) returns (n: nat)
    requires Ok(d) && off + FormSize(d.dataType, d.form) <= buf.Length
    modifies buf
    ensures n == off + FormSize(d.dataType, d.form)
    ensures Exact(d) ==> buf[..n] == old(buf[..off]) + FormBytes(d.dataType, d.flag, d.form)
  {
    hide LE, ValueSize, IsArray, IsValue, DefaultOk, Encode, IntsBytes, StrsBytes, StrsSize;
    n := off;
    if d.flag == RANGE {
      StringValues(d.dataType);
      n := PackRange(d.form.min, d.form.max, d.form.step, ValueSize(d.dataType), buf, n);
    } else if d.flag == ENUM {
      n := PackEnum(d, buf, n);
    } else if d.flag == REGEX {
      if d.form.regex.Some? {
        var w := PtpString.Pack(d.form.regex.value, buf, n, PtpString.Size(d.form.regex.value));
        n := n + w;
      }
    } else if d.flag == BYTE_ARRAY || d.flag == LONG_STRING {
      Put(buf, n, LE(d.form.maxLen, 4));
      n := n + 4;
    }
  }

  lemma StringValues(dataType: nat)
    ensures dataType == STRING ==> ValueSize(dataType) == 0
  {
  }

  // The count of an enumeration and its values
  method PackEnum(d: Desc, buf: array<Byte>, off: nat) returns (n: nat)
    requires Ok(d) && d.flag == ENUM && off + FormSize(d.dataType, d.form) <= buf.Length
    modifies buf
    ensures n == off + FormSize(d.dataType, d.form)
    ensures Exact(d) ==> buf[..n] == old(buf[..off]) + FormBytes(d.dataType, d.flag, d.form)
  {
    hide LE, ValueSize, IsArray, IsValue, DefaultOk, Encode, IntsBytes, StrsBytes, StrsSize;
    ghost var front := buf[..off];
    if d.dataType == STRING {
      Put(buf, off, LE(|d.form.strs|, 2));
      n := PackStrings(d.form.strs, buf, off + 2);
      assert front + LE(|d.form.strs|, 2) + StrsBytes(d.form.strs) == front + (LE(|d.form.strs|,
               2) + StrsBytes(d.form.strs));
    } else {
      var k := ValueSize(d.dataType);
      Put(buf, off, LE(|d.form.ints|, 2));
      n := PackInts(d.form.ints, k, buf, off + 2);
      assert front + LE(|d.form.ints|, 2) + IntsBytes(d.form.ints, k) == front + (LE(|d.form.ints|,
               2) + IntsBytes(d.form.ints, k));
    }
  }

  method PackRange(min: nat, max: nat, step: nat, k: nat, buf: array<Byte>, off: nat) returns (n: nat)
    requires off + 3 * k <= buf.Length
    modifies buf
    ensures n == off + 3 * k
    ensures k <= 4 ==> buf[..n] == old(buf[..off]) + (LE(min, k) + LE(max, k) + LE(step, k))
  {
    hide LE;
    var a := Memory(min, k);
    Put(buf, off, a);
    var b := Memory(max, k);
    Put(buf, off + k, b);
    var c := Memory(step, k);
    Put(buf, off + k + k, c);
    n := off + k + k + k;
    assert old(buf[..off]) + a + b + c == old(buf[..off]) + (a + b + c);
  }

  lemma IntsSnoc(ints: seq<nat>, i: nat, k: nat)
    requires i < |ints|
    ensures IntsBytes(ints[..i + 1], k) == IntsBytes(ints[..i], k) + LE(ints[i], k)
  {
    assert ints[..i + 1][..i] == ints[..i];
  }

  method PackInts(ints: seq<nat>, k: nat, buf: array<Byte>, off: nat) returns (n: nat)
    requires off + |ints| * k <= buf.Length
    modifies buf
    ensures n == off + |ints| * k
    ensures k <= 4 ==> buf[..n] == old(buf[..off]) + IntsBytes(ints, k)
  {
    hide LE, IntsBytes;
    n := off;
    ghost var done: seq<Byte> := [];
    assert ints[..0] == [];
    NoInts(k);
    var i := 0;
    while i < |ints|
      invariant 0 <= i <= |ints| && n == off + i * k <= buf.Length
      invariant buf[..n] == old(buf[..off]) + done
      invariant k <= 4 ==> done == IntsBytes(ints[..i], k)
    {
      RoomForOne(i, |ints|, k);
      IntsSnoc(ints, i, k);
      var a := Memory(ints[i], k);
      Put(buf, n, a);
      done := done + a;
      n := n + k;
      i := i + 1;
    }
    assert ints[..i] == ints;
  }

  lemma NoInts(k: nat)
    ensures IntsBytes([], k) == []
  {
  }

  lemma RoomForOne(i: nat, n: nat, k: nat)
    requires i < n
    ensures (i + 1) * k == i * k + k && i * k + k <= n * k
  {
    assert n * k == (i + 1) * k + (n - i - 1) * k;
  }

  lemma StrsSnoc(strs: seq<seq<Wchar>>, i: nat)
    requires i < |strs| && AllShort(strs)
    ensures StrsBytes(strs[..i + 1]) == StrsBytes(strs[..i]) + Encode(strs[i])
    ensures StrsSize(strs[..i + 1]) == StrsSize(strs[..i]) + PtpString.Size(strs[i])
  {
    assert strs[..i + 1][..i] == strs[..i];
  }

  lemma NoStrs()
    ensures StrsBytes([]) == [] && StrsSize([]) == 0
  {
  }

  method PackStrings(strs: seq<seq<Wchar>>, buf: array<Byte>, off: nat) returns (n: nat)
    requires AllShort(strs)
    requires off + StrsSize(strs) <= buf.Length
    modifies buf
    ensures n == off + StrsSize(strs)
    ensures buf[..n] == old(buf[..off]) + StrsBytes(strs)
  {
    hide Encode, StrsBytes, StrsSize;
    n := off;
    assert strs[..0] == [];
    NoStrs();
    var i := 0;
    while i < |strs|
      invariant 0 <= i <= |strs| && n == off + StrsSize(strs[..i]) <= buf.Length
      invariant buf[..n] == old(buf[..off]) + StrsBytes(strs[..i])
    {
      StrsPrefix(strs, i + 1);
      StrsSnoc(strs, i);
      var w := PtpString.Pack(strs[i], buf, n, PtpString.Size(strs[i]));
      n := n + w;
      i := i + 1;
    }
    assert strs[..i] == strs;
  }

  lemma {:induction false} StrsPrefix(strs: seq<seq<Wchar>>, i: nat)
    requires i <= |strs|
    ensures StrsSize(strs[..i]) <= StrsSize(strs)
    decreases |strs| - i
  {
    if i < |strs| {
      StrsPrefix(strs, i + 1);
      assert strs[..i + 1][..i] == strs[..i];
    } else {
      assert strs[..i] == strs;
    }
  }

  // ---- Reading a descriptor back, as a host does ----

  datatype Taken<T> = Bad | Taken(value: T, rest: seq<Byte>)

  function TakeInt(s: seq<Byte>, k: nat): Taken<nat> {
    if |s| < k then Bad else Taken(FromLE(s[..k]), s[k..])
  }

  function TakeRaw(s: seq<Byte>, k: nat): Taken<seq<Byte>> {
    if |s| < k then Bad else Taken(s[..k], s[k..])
  }

  function TakeStr(s: seq<Byte>): Taken<seq<Wchar>> {
    if s == [] || |s| < 1 + 2 * (s[0] as int) then Bad
    else
      var n: nat := s[0];
      Taken(seq(n, i requires 0 <= i < n => U16(s[1 + 2 * i], s[2 + 2 * i])), s[1 + 2 * n..])
  }

  function TakeInts(s: seq<Byte>, n: nat, k: nat): Taken<seq<nat>> {
    if n == 0 then Taken([], s)
    else match TakeInt(s, k)
      case Bad => Bad
      case Taken(v, rest) =>
        match TakeInts(rest, n - 1, k)
        case Bad => Bad
        case Taken(vs, end) => Taken([v] + vs, end)
  }

  function TakeStrs(s: seq<Byte>, n: nat): Taken<seq<seq<Wchar>>> {
    if n == 0 then Taken([], s)
    else match TakeStr(s)
      case Bad => Bad
      case Taken(v, rest) =>
        match TakeStrs(rest, n - 1)
        case Bad => Bad
        case Taken(vs, end) => Taken([v] + vs, end)
  }

  function TakeDefault(dataType: nat, s: seq<Byte>): Taken<Default> {
    if dataType == STRING then
      match TakeStr(s) case Bad => Bad case Taken(c, rest) => Taken(StrDefault(Some(c)), rest)
    else if IsArray(dataType) then
      if ValueSize(dataType) == 0 then Bad else
      match TakeInt(s, 4) case Bad => Bad case Taken(n, rest) =>
        (match TakeRaw(rest, n * ValueSize(dataType)) case Bad => Bad
         case Taken(raw, end) => Taken(ArrDefault(Some(Arr(ValueSize(dataType), n, raw))), end))
    else if IsValue(dataType) then
      match TakeRaw(s, ValueSize(dataType)) case Bad => Bad case Taken(raw, rest) => Taken(IntDefault(raw), rest)
    else Taken(NoDefault, s)
  }

  function TakeForm(dataType: nat, flag: Byte, s: seq<Byte>): Taken<Form> {
    var k := ValueSize(dataType);
    if flag == RANGE then
      match TakeInts(s, 3, k) case Bad => Bad case Taken(v, rest) =>
        if |v| == 3 then Taken(RangeForm(v[0], v[1], v[2]), rest) else Bad
    else if flag == ENUM then
      match TakeInt(s, 2) case Bad => Bad case Taken(n, rest) =>
        if dataType == STRING then
          match TakeStrs(rest, n) case Bad => Bad case Taken(v, end) => Taken(StrEnum(v), end)
        else
          match TakeInts(rest, n, k) case Bad => Bad case Taken(v, end) => Taken(IntEnum(v), end)
    else if flag == REGEX then
      match TakeStr(s) case Bad => Bad case Taken(c, rest) => Taken(RegexForm(Some(c)), rest)
    else if flag == BYTE_ARRAY || flag == LONG_STRING then
      match TakeInt(s, 4) case Bad => Bad case Taken(n, rest) => Taken(LengthForm(n), rest)
    else Taken(NoForm, s)
  }

  function Read(s: seq<Byte>): Taken<Desc> {
    match TakeInt(s, 2) case Bad => Bad case Taken(code, s1) =>
    match TakeInt(s1, 2) case Bad => Bad case Taken(dataType, s2) =>
    match TakeRaw(s2, 1) case Bad => Bad case Taken(getSet, s3) =>
    match TakeDefault(dataType, s3) case Bad => Bad case Taken(def, s4) =>
    match TakeInt(s4, 4) case Bad => Bad case Taken(group, s5) =>
    match TakeRaw(s5, 1) case Bad => Bad case Taken(flag, s6) =>
    match TakeForm(dataType, flag[0], s6) case Bad => Bad case Taken(form, end) =>
    Taken(Desc(code, dataType, getSet[0], def, group, flag[0], form), end)
  }

  // Every string that the descriptor's type and form call for is there, array elements have the
  // type's size, and integers fit it.
  ghost predicate Complete(d: Desc) {
    && (d.def.StrDefault? ==> d.def.chars.Some?)
    && (d.def.ArrDefault? ==> d.def.arr.Some? && d.def.arr.value.elem == ValueSize(d.dataType) > 0)
    && (d.form.RegexForm? ==> d.form.regex.Some?)
    && (d.form.RangeForm? ==>
        FitsIn(d.form.min, d.dataType) && FitsIn(d.form.max, d.dataType) && FitsIn(d.form.step, d.dataType))
    && (d.form.IntEnum? ==> forall i :: 0 <= i < |d.form.ints| ==> FitsIn(d.form.ints[i], d.dataType))
  }

  ghost predicate FitsIn(v: nat, dataType: nat) {
    v < Pow256(ValueSize(dataType))
  }

  lemma TakeIntBack(v: nat, k: nat, rest: seq<Byte>)
    requires v < Pow256(k)
    ensures TakeInt(LE(v, k) + rest, k) == Taken(v, rest)
  {
    var s := LE(v, k) + rest;
    assert s[..k] == LE(v, k) && s[k..] == rest;
    LERoundTrip(v, k);
  }

  lemma TakeRawBack(raw: seq<Byte>, rest: seq<Byte>)
    ensures TakeRaw(raw + rest, |raw|) == Taken(raw, rest)
  {
    var s := raw + rest;
    assert s[..|raw|] == raw && s[|raw|..] == rest;
  }

  lemma TakeStrBack(chars: seq<Wchar>, rest: seq<Byte>)
    requires Short(chars)
    ensures TakeStr(Encode(chars) + rest) == Taken(chars, rest)
  {
    hide Wide;
    var n := |chars|;
    var s := Encode(chars) + rest;
    assert s[0] == n;
    assert s[1 + 2 * n..] == rest;
    forall i | 0 <= i < n ensures U16(s[1 + 2 * i], s[2 + 2 * i]) == chars[i] {
      WideAt(chars, i);
    }
    assert seq(n, i requires 0 <= i < n => U16(s[1 + 2 * i], s[2 + 2 * i])) == chars;
  }

  lemma {:induction false} IntsCons(ints: seq<nat>, k: nat)
    requires ints != []
    ensures IntsBytes(ints, k) == LE(ints[0], k) + IntsBytes(ints[1..], k)
  {
    hide LE;
    var n := |ints| - 1;
    if n > 0 {
      IntsCons(ints[..n], k);
      assert ints[..n][1..] == ints[1..][..n - 1];
    }
  }

  lemma {:induction false} TakeIntsBack(ints: seq<nat>, k: nat, rest: seq<Byte>)
    requires forall i :: 0 <= i < |ints| ==> ints[i] < Pow256(k)
    ensures TakeInts(IntsBytes(ints, k) + rest, |ints|, k) == Taken(ints, rest)
  {
    hide LE, IntsBytes, TakeInt, Pow256;
    if ints == [] {
      NoInts(k);
      assert [] + rest == rest;
    } else {
      var tail := IntsBytes(ints[1..], k) + rest;
      IntsCons(ints, k);
      assert IntsBytes(ints, k) + rest == LE(ints[0], k) + tail;
      TakeIntBack(ints[0], k, tail);
      TakeIntsBack(ints[1..], k, rest);
      assert ints == [ints[0]] + ints[1..];
    }
  }

  lemma {:induction false} StrsCons(strs: seq<seq<Wchar>>)
    requires strs != [] && AllShort(strs)
    ensures StrsBytes(strs) == Encode(strs[0]) + StrsBytes(strs[1..])
  {
    hide Encode;
    var n := |strs| - 1;
    if n > 0 {
      StrsCons(strs[..n]);
      assert strs[..n][1..] == strs[1..][..n - 1];
    }
  }

  lemma {:induction false} TakeStrsBack(strs: seq<seq<Wchar>>, rest: seq<Byte>)
    requires AllShort(strs)
    ensures TakeStrs(StrsBytes(strs) + rest, |strs|) == Taken(strs, rest)
  {
    hide Encode, StrsBytes, TakeStr;
    if strs == [] {
      NoStrs();
      assert [] + rest == rest;
    } else {
      var tail := StrsBytes(strs[1..]) + rest;
      StrsCons(strs);
      assert StrsBytes(strs) + rest == Encode(strs[0]) + tail;
      TakeStrBack(strs[0], tail);
      TakeStrsBack(strs[1..], rest);
      assert strs == [strs[0]] + strs[1..];
    }
  }

  lemma TakeDefaultBack(dataType: nat, def: Default, rest: seq<Byte>)
    requires DefaultOk(dataType, def)
    requires def.StrDefault? ==> def.chars.Some?
    requires def.ArrDefault? ==> def.arr.Some? && def.arr.value.elem == ValueSize(dataType) > 0
    ensures TakeDefault(dataType, DefaultBytes(dataType, def) + rest) == Taken(def, rest)
  {
    hide LE, Encode, TakeInt, TakeRaw, TakeStr, ValueSize, IsArray, IsValue, Pow256;
    if dataType == STRING {
      TakeStrBack(def.chars.value, rest);
    } else if IsArray(dataType) {
      var a := def.arr.value;
      Powers();
      assert LE(a.count, 4) + a.raw + rest == LE(a.count, 4) + (a.raw + rest);
      TakeIntBack(a.count, 4, a.raw + rest);
      TakeRawBack(a.raw, rest);
    } else if IsValue(dataType) {
      TakeRawBack(def.raw, rest);
    } else {
      assert [] + rest == rest;
    }
  }

  lemma TakeFormBack(d: Desc, rest: seq<Byte>)
    requires Ok(d) && Complete(d)
    ensures TakeForm(d.dataType, d.flag, FormBytes(d.dataType, d.flag, d.form) + rest) == Taken(d.form, rest)
  {
    hide LE, Encode, TakeInt, TakeStr, TakeInts, TakeStrs, ValueSize, IntsBytes, StrsBytes, DefaultOk, Pow256;
    var k := ValueSize(d.dataType);
    Powers();
    if d.flag == RANGE {
      RangeIsInts(d.form.min, d.form.max, d.form.step, k);
      TakeIntsBack([d.form.min, d.form.max, d.form.step], k, rest);
    } else if d.flag == ENUM {
      if d.dataType == STRING {
        var body := StrsBytes(d.form.strs);
        assert LE(|d.form.strs|, 2) + body + rest == LE(|d.form.strs|, 2) + (body + rest);
        TakeIntBack(|d.form.strs|, 2, body + rest);
        TakeStrsBack(d.form.strs, rest);
      } else {
        var body := IntsBytes(d.form.ints, k);
        assert LE(|d.form.ints|, 2) + body + rest == LE(|d.form.ints|, 2) + (body + rest);
        TakeIntBack(|d.form.ints|, 2, body + rest);
        TakeIntsBack(d.form.ints, k, rest);
      }
    } else if d.flag == REGEX {
      TakeStrBack(d.form.regex.value, rest);
    } else if d.flag == BYTE_ARRAY || d.flag == LONG_STRING {
      TakeIntBack(d.form.maxLen, 4, rest);
    } else {
      assert [] + rest == rest;
    }
  }

  lemma RangeIsInts(min: nat, max: nat, step: nat, k: nat)
    ensures IntsBytes([min, max, step], k) == LE(min, k) + LE(max, k) + LE(step, k)
  {
    hide LE;
    assert [min, max, step][..2] == [min, max] && [min, max][..1] == [min];
    assert IntsBytes([min], k) == LE(min, k);
    assert IntsBytes([min, max], k) == LE(min, k) + LE(max, k);
  }

  lemma TakeIntBound(s: seq<Byte>, k: nat)
    ensures TakeInt(s, k).Taken? ==> TakeInt(s, k).value < Pow256(k)
  {
    if |s| >= k {
      FromLERoundTrip(s[..k]);
    }
  }

  lemma {:induction false} TakeIntsBound(s: seq<Byte>, n: nat, k: nat)
    ensures TakeInts(s, n, k).Taken? ==> forall i :: 0 <= i < |TakeInts(s, n, k).value| ==>
              TakeInts(s, n, k).value[i] < Pow256(k)
    decreases n
  {
    hide TakeInt, Pow256;
    if n > 0 && TakeInt(s, k).Taken? {
      TakeIntBound(s, k);
      TakeIntsBound(TakeInt(s, k).rest, n - 1, k);
    }
  }

  lemma TakeFormComplete(dataType: nat, flag: Byte, s: seq<Byte>)
    ensures TakeForm(dataType, flag, s).Taken? ==>
      var f := TakeForm(dataType, flag, s).value;
      && (f.RegexForm? ==> f.regex.Some?)
      && (f.RangeForm? ==> FitsIn(f.min, dataType) && FitsIn(f.max, dataType) && FitsIn(f.step, dataType))
      && (f.IntEnum? ==> forall i :: 0 <= i < |f.ints| ==> FitsIn(f.ints[i], dataType))
  {
    hide TakeInt, TakeStr, TakeInts, TakeStrs, ValueSize, Pow256;
    var k := ValueSize(dataType);
    if flag == RANGE {
      TakeIntsBound(s, 3, k);
    } else if flag == ENUM && TakeInt(s, 2).Taken? {
      TakeIntsBound(TakeInt(s, 2).rest, TakeInt(s, 2).value, k);
    }
  }

  // Whatever a host reads is complete.
  lemma ReadComplete(s: seq<Byte>)
    ensures Read(s).Taken? ==> Complete(Read(s).value)
  {
    hide TakeInt, TakeRaw, TakeForm, FitsIn, ValueSize, TakeStr, IsArray, IsValue;
    if Read(s).Taken? {
      var s3 := TakeRaw(TakeInt(TakeInt(s, 2).rest, 2).rest, 1).rest;
      var d := Read(s).value;
      var s6 := TakeRaw(TakeInt(TakeDefault(d.dataType, s3).rest, 4).rest, 1).rest;
      TakeFormComplete(d.dataType, d.flag, s6);
    }
  }

  /** What a host reads back from a packed descriptor is the descriptor, exactly when nothing its
      type and form call for is missing or cut. */
  lemma ReadBack(d: Desc)
    requires Ok(d)
    ensures Read(Dataset(d)) == Taken(d, []) <==> Complete(d)
  {
    hide Read, Dataset, Complete;
    if Complete(d) {
      ReadBackComplete(d);
    } else {
      ReadComplete(Dataset(d));
    }
  }

  lemma ReadBackComplete(d: Desc)
    requires Ok(d) && Complete(d)
    ensures Read(Dataset(d)) == Taken(d, [])
  {
    hide LE, DefaultBytes, FormBytes, TakeInt, TakeRaw, TakeDefault, TakeForm, DefaultOk, FormOk, Pow256, Complete;
    Powers();
    var form := FormBytes(d.dataType, d.flag, d.form);
    var s6 := form + [];
    var s5 := [d.flag] + s6;
    var s4 := LE(d.group, 4) + s5;
    var s3 := DefaultBytes(d.dataType, d.def) + s4;
    var s2 := [d.getSet] + s3;
    var s1 := LE(d.dataType, 2) + s2;
    assert Dataset(d) == LE(d.code, 2) + s1;
    TakeIntBack(d.code, 2, s1);
    TakeIntBack(d.dataType, 2, s2);
    TakeRawBack([d.getSet], s3);
    CompleteDefault(d, s4);
    TakeIntBack(d.group, 4, s5);
    TakeRawBack([d.flag], s6);
    TakeFormBack(d, []);
  }

  lemma CompleteDefault(d: Desc, rest: seq<Byte>)
    requires Ok(d) && Complete(d)
    ensures TakeDefault(d.dataType, DefaultBytes(d.dataType, d.def) + rest) == Taken(d.def, rest)
  {
    hide LE, DefaultBytes, TakeDefault, ValueSize, DefaultOk, FormOk;
    TakeDefaultBack(d.dataType, d.def, rest);
  }
}
