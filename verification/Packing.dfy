/**
 Packed records: Python's `struct.pack` as the metadata script uses it, and the cursor reads of
 the C++ parsers. Both are driven by tables: a record is packed by a list of codes and read by a
 list of calls. Reading what was packed gives every field as its call sees it, and the cursor
 ends where the record ends.
 */
module Packing {
  import opened LittleEndian

  const NAME_MAX := 1024

  /** A field of a record. */
  datatype Val = Num(n: int) | Str(s: seq<Byte>) | Nums(ns: seq<int>) | List(rs: seq<seq<Val>>)

  /** How a field is packed: format codes B, h, i, I and Q; a string, a vector or a list of
      records with its length in front; and JSON truth values, which have been turned into the
      strings "true" and "false" and are then packed as truth values. */
  datatype Code = B | H | I | UI | Q | S | VecOf(elem: Code) | Flags | Records(fields: seq<Code>)

  /** How a field is read, with the type it is stored in. `Enum8` is a 16-bit read stored in
      8 bits, `Extended` an unsigned 32-bit read that goes through a signed one to 64 bits. */
  datatype Call =
    | UInt8 | Bool | Short | UShort | Enum8 | Int32 | UInt32 | Extended | UInt64
    | String | VectorOf(elem: Call) | RecordsOf(fields: seq<Call>)

  // ----- Numbers ----------------------------------------------------------------------

  predicate IsNum(c: Code) {
    c.B? || c.H? || c.I? || c.UI? || c.Q?
  }

  function CodeWidth(c: Code): nat
    requires IsNum(c)
  {
    match c
    case B => 1
    case H => 2
    case I => 4
    case UI => 4
    case Q => 8
  }

  /** What `struct.pack` accepts. */
  predicate InRange(c: Code, n: int)
    requires IsNum(c)
  {
    match c
    case B => 0 <= n < 256
    case H => -P15 <= n < P15
    case I => -P31 <= n < P31
    case UI => 0 <= n < P32
    case Q => 0 <= n < P64
  }

  predicate IsNumCall(k: Call) {
    !k.String? && !k.VectorOf? && !k.RecordsOf?
  }

  function CallWidth(k: Call): (w: nat)
    requires IsNumCall(k)
    ensures w == 1 || w == 2 || w == 4 || w == 8
  {
    match k
    case UInt8 => 1
    case Bool => 1
    case Short => 2
    case UShort => 2
    case Enum8 => 2
    case UInt64 => 8
    case _ => 4
  }

  /** The number of values of a width. */
  function Values(w: nat): nat
    requires w == 1 || w == 2 || w == 4 || w == 8
  {
    if w == 1 then 256 else if w == 2 then P16 else if w == 4 then P32 else P64
  }

  lemma ValuesAreSpans(w: nat)
    requires w == 1 || w == 2 || w == 4 || w == 8
    ensures Values(w) == Span(w)
  {
    Spans();
  }

  function Signed(n: nat, half: nat): int {
    if n < half then n else n - 2 * half
  }

  /** What a call makes of the unsigned number it reads. */
  function Seen(k: Call, n: nat): int
    requires IsNumCall(k)
  {
    match k
    case Bool => if n != 0 then 1 else 0
    case Short => Signed(n, P15)
    case Enum8 => n % 256
    case Int32 => Signed(n, P31)
    case Extended => if n < P31 then n else n + P64 - P32
    case _ => n
  }

  function CastNum(k: Call, n: int): int
    requires IsNumCall(k)
  {
    Seen(k, n % Values(CallWidth(k)))
  }

  /** The numbers that a call keeps. */
  predicate Keeps(k: Call, n: int)
    requires IsNumCall(k)
  {
    match k
    case UInt8 => 0 <= n < 256
    case Bool => 0 <= n <= 1
    case Short => -P15 <= n < P15
    case UShort => 0 <= n < P16
    case Enum8 => 0 <= n < 256
    case Int32 => -P31 <= n < P31
    case UInt32 => 0 <= n < P32
    case Extended => 0 <= n < P31
    case UInt64 => 0 <= n < P64
  }

  /** A number that can be packed in the width of a call is read back unchanged if and only if
      the call keeps it. */
  lemma NumIff(c: Code, k: Call, n: int)
    requires IsNum(c) && IsNumCall(k) && CodeWidth(c) == CallWidth(k) && InRange(c, n)
    ensures CastNum(k, n) == n <==> Keeps(k, n)
  {
  }

  function PackNum(c: Code, n: int): (bs: seq<Byte>)
    requires IsNum(c)
    ensures |bs| == CodeWidth(c)
  {
    Encode(n % Values(CodeWidth(c)), CodeWidth(c))
  }

  // ----- Packing ----------------------------------------------------------------------

  predicate IsName(s: seq<Byte>) {
    |s| <= NAME_MAX && forall i :: 0 <= i < |s| ==> s[i] < 128
  }

  predicate CanPack(c: Code, v: Val)
    decreases c, 0
  {
    match c
    case S => v.Str? && IsName(v.s)
    case VecOf(e) => v.Nums? && IsNum(e) && |v.ns| < P31 && forall i :: 0 <= i < |v.ns| ==> InRange(e, v.ns[i])
    case Flags => v.Nums? && |v.ns| < P31 && forall i :: 0 <= i < |v.ns| ==> 0 <= v.ns[i] <= 1
    case Records(fs) => v.List? && |v.rs| < P31 && forall i :: 0 <= i < |v.rs| ==> CanPackAll(fs, v.rs[i])
    case _ => v.Num? && InRange(c, v.n)
  }

  predicate CanPackAll(cs: seq<Code>, vs: seq<Val>)
    decreases cs, 0
  {
    |cs| == |vs| && forall i :: 0 <= i < |cs| ==> CanPack(cs[i], vs[i])
  }

  function PackNums(e: Code, ns: seq<int>): seq<Byte>
    requires IsNum(e)
  {
    if ns == [] then [] else PackNum(e, ns[0]) + PackNums(e, ns[1..])
  }

  function Ones(n: nat): seq<Byte> {
    seq<Byte>(n, _ => 1)
  }

  function Pack(c: Code, v: Val): seq<Byte>
    requires CanPack(c, v)
    decreases c, 0
  {
    match c
    case S => Encode(|v.s|, 4) + v.s
    case VecOf(e) => Encode(|v.ns|, 4) + PackNums(e, v.ns)
    case Flags => Encode(|v.ns|, 4) + Ones(|v.ns|)
    case Records(fs) => Encode(|v.rs|, 4) + PackRecords(fs, v.rs)
    case _ => PackNum(c, v.n)
  }

  function PackAll(cs: seq<Code>, vs: seq<Val>): seq<Byte>
    requires CanPackAll(cs, vs)
    decreases cs, 0
  {
    if cs == [] then [] else Pack(cs[0], vs[0]) + PackAll(cs[1..], vs[1..])
  }

  function PackRecords(cs: seq<Code>, rs: seq<seq<Val>>): seq<Byte>
    requires forall i :: 0 <= i < |rs| ==> CanPackAll(cs, rs[i])
    decreases cs, |rs| + 1
  {
    if rs == [] then [] else PackAll(cs, rs[0]) + PackRecords(cs, rs[1..])
  }

  /** A number is packed least significant byte first, in two's complement. */
  lemma NumLayout(c: Code, n: int)
    requires IsNum(c)
    ensures Decode(PackNum(c, n)) == n % Values(CodeWidth(c))
  {
    var w := CodeWidth(c);
    ValuesAreSpans(w);
    DecodeEncode(n % Values(w), w);
  }

  lemma SliceAfter<T>(x: seq<T>, y: seq<T>, o: nat, w: nat)
    requires o + w <= |y|
    ensures (x + y)[|x| + o..|x| + o + w] == y[o..o + w]
  {
  }

  lemma {:induction false} ElementAt(e: Code, ns: seq<int>, i: nat, w: nat, o: nat)
    requires IsNum(e) && i < |ns| && w == CodeWidth(e) && o == w * i
    ensures o + w <= |PackNums(e, ns)| && PackNums(e, ns)[o..o + w] == PackNum(e, ns[i])
    decreases i
  {
    hide CodeWidth, PackNum;
    var first, rest := PackNum(e, ns[0]), PackNums(e, ns[1..]);
    assert PackNums(e, ns) == first + rest && |first| == w;
    if i == 0 {
      assert (first + rest)[0..w] == first;
    } else {
      ElementAt(e, ns[1..], i - 1, w, o - w);
      SliceAfter(first, rest, o - w, w);
    }
  }

  /** A vector has its length in four bytes in front, and the elements follow one after the other,
      each in its own width. */
  lemma VectorLayout(e: Code, v: Val, i: nat, w: nat, o: nat)
    requires CanPack(VecOf(e), v) && i < |v.ns| && w == CodeWidth(e) && o == 4 + w * i
    ensures var bs := Pack(VecOf(e), v);
            && |bs| >= o + w && Decode(bs[..4]) == |v.ns|
            && Decode(bs[o..o + w]) == v.ns[i] % Values(w)
  {
    hide CodeWidth, PackNum, PackNums, Values, Encode, Decode;
    var head, body := Encode(|v.ns|, 4), PackNums(e, v.ns);
    DecodeEncode32(|v.ns|);
    ElementAt(e, v.ns, i, w, o - 4);
    NumLayout(e, v.ns[i]);
    assert (head + body)[..4] == head;
    SliceAfter(head, body, o - 4, w);
  }

  /** So has a string. */
  lemma StringLayout(v: Val)
    requires CanPack(S, v)
    ensures var bs := Pack(S, v); |bs| == 4 + |v.s| && Decode(bs[..4]) == |v.s| && bs[4..] == v.s
  {
    DecodeEncode32(|v.s|);
    var bs := Encode(|v.s|, 4) + v.s;
    assert bs[..4] == Encode(|v.s|, 4) && bs[4..] == v.s;
  }

  // ----- Reading ----------------------------------------------------------------------

  /** A value and the cursor after it; `Bad` is a read past the end or an impossible length. */
  datatype Out<T> = Bad | Got(value: T, rest: seq<Byte>)

  function ReadNum(k: Call, bs: seq<Byte>): (o: Out<int>)
    requires IsNumCall(k)
    ensures o.Got? ==> |o.rest| < |bs|
  {
    var w := CallWidth(k);
    if |bs| < w then Bad else Got(Seen(k, Decode(bs[..w])), bs[w..])
  }

  function ReadNums(k: Call, n: nat, bs: seq<Byte>): (o: Out<seq<int>>)
    requires IsNumCall(k)
    ensures o.Got? ==> |o.rest| <= |bs|
    decreases n
  {
    if n == 0 then Got([], bs)
    else
      var first := ReadNum(k, bs);
      if first.Bad? then Bad
      else
        var more := ReadNums(k, n - 1, first.rest);
        if more.Bad? then Bad else Got([first.value] + more.value, more.rest)
  }

  function ReadString(bs: seq<Byte>): (o: Out<seq<Byte>>)
    ensures o.Got? ==> |o.rest| < |bs|
  {
    var n := ReadNum(Int32, bs);
    if n.Bad? || n.value < 0 || n.value > |n.rest| then Bad
    else Got(n.rest[..n.value], n.rest[n.value..])
  }

  function Read(k: Call, bs: seq<Byte>): (o: Out<Val>)
    ensures o.Got? ==> |o.rest| < |bs|
    decreases k, 0
  {
    match k
    case String =>
      var s := ReadString(bs);
      if s.Bad? then Bad else Got(Str(s.value), s.rest)
    case VectorOf(e) =>
      var n := ReadNum(Int32, bs);
      if n.Bad? || n.value < 0 || !IsNumCall(e) then Bad
      else
        var ns := ReadNums(e, n.value, n.rest);
        if ns.Bad? then Bad else Got(Nums(ns.value), ns.rest)
    case RecordsOf(fs) =>
      var n := ReadNum(Int32, bs);
      if n.Bad? then Bad
      else
        var rs := ReadRecords(fs, if n.value < 0 then 0 else n.value, n.rest);
        if rs.Bad? then Bad else Got(List(rs.value), rs.rest)
    case _ =>
      var n := ReadNum(k, bs);
      if n.Bad? then Bad else Got(Num(n.value), n.rest)
  }

  function ReadAll(ks: seq<Call>, bs: seq<Byte>): (o: Out<seq<Val>>)
    ensures o.Got? ==> |o.rest| <= |bs| && (ks != [] ==> |o.rest| < |bs|)
    decreases ks, 0
  {
    if ks == [] then Got([], bs)
    else
      var first := Read(ks[0], bs);
      if first.Bad? then Bad
      else
        var more := ReadAll(ks[1..], first.rest);
        if more.Bad? then Bad else Got([first.value] + more.value, more.rest)
  }

  function ReadRecords(ks: seq<Call>, n: nat, bs: seq<Byte>): (o: Out<seq<seq<Val>>>)
    ensures o.Got? ==> |o.rest| <= |bs|
    decreases ks, n + 1
  {
    if n == 0 then Got([], bs)
    else
      var first := ReadAll(ks, bs);
      if first.Bad? then Bad
      else
        var more := ReadRecords(ks, n - 1, first.rest);
        if more.Bad? then Bad else Got([first.value] + more.value, more.rest)
  }

  // ----- The loops --------------------------------------------------------------------

  /** The packers go through the keys of a record and grow the data by each field. */
  method PackFields(cs: seq<Code>, vs: seq<Val>) returns (data: seq<Byte>)
    requires CanPackAll(cs, vs)
    ensures data == PackAll(cs, vs)
  {
    data := [];
    var i := 0;
    while i < |cs|
      invariant 0 <= i <= |cs|
      invariant data + PackAll(cs[i..], vs[i..]) == PackAll(cs, vs)
    {
      data := data + Pack(cs[i], vs[i]);
      assert cs[i..][1..] == cs[i + 1..] && vs[i..][1..] == vs[i + 1..];
      i := i + 1;
    }
    assert data + [] == data;
  }

  /** `unpackVector` reads its elements one after the other with the shared cursor. */
  method UnpackVector(k: Call, length: nat, bs: seq<Byte>) returns (o: Out<seq<int>>)
    requires IsNumCall(k)
    ensures o == ReadNums(k, length, bs)
  {
    var vec, ahead, i := [], bs, 0;
    ghost var all := ReadNums(k, length, bs);
    assert all.Got? ==> [] + all.value == all.value;
    while i < length
      invariant 0 <= i <= length
      invariant Prepend(vec, ReadNums(k, length - i, ahead)) == ReadNums(k, length, bs)
    {
      var e := ReadNum(k, ahead);
      if e.Bad? {
        return Bad;
      }
      ghost var more := ReadNums(k, length - i - 1, e.rest);
      if more.Got? {
        assert vec + ([e.value] + more.value) == (vec + [e.value]) + more.value;
      }
      vec, ahead := vec + [e.value], e.rest;
      i := i + 1;
    }
    assert vec + [] == vec;
    return Got(vec, ahead);
  }

  function Prepend<T>(done: seq<T>, o: Out<seq<T>>): Out<seq<T>> {
    if o.Bad? then Bad else Got(done + o.value, o.rest)
  }

  // ----- Tables that belong together --------------------------------------------------

  predicate Matches(c: Code, k: Call)
    decreases c, 0
  {
    match c
    case S => k.String?
    case VecOf(e) => k.VectorOf? && IsNum(e) && IsNumCall(k.elem) && CodeWidth(e) == CallWidth(k.elem)
    case Flags => k == VectorOf(UInt8)
    case Records(fs) => k.RecordsOf? && MatchesAll(fs, k.fields)
    case _ => IsNumCall(k) && CodeWidth(c) == CallWidth(k)
  }

  predicate MatchesAll(cs: seq<Code>, ks: seq<Call>)
    decreases cs, 0
  {
    |cs| == |ks| && forall i :: 0 <= i < |cs| ==> Matches(cs[i], ks[i])
  }

  function CastNums(k: Call, ns: seq<int>): seq<int>
    requires IsNumCall(k)
  {
    if ns == [] then [] else [CastNum(k, ns[0])] + CastNums(k, ns[1..])
  }

  /** A field as it is seen after packing and reading. */
  function Cast(c: Code, k: Call, v: Val): Val
    requires CanPack(c, v) && Matches(c, k)
    decreases c, 0
  {
    match c
    case S => v
    case VecOf(_) => Nums(CastNums(k.elem, v.ns))
    case Flags => Nums(Ones(|v.ns|))
    case Records(fs) => List(CastRecords(fs, k.fields, v.rs))
    case _ => Num(CastNum(k, v.n))
  }

  function CastAll(cs: seq<Code>, ks: seq<Call>, vs: seq<Val>): seq<Val>
    requires CanPackAll(cs, vs) && MatchesAll(cs, ks)
    decreases cs, 0
  {
    if cs == [] then [] else [Cast(cs[0], ks[0], vs[0])] + CastAll(cs[1..], ks[1..], vs[1..])
  }

  function CastRecords(cs: seq<Code>, ks: seq<Call>, rs: seq<seq<Val>>): seq<seq<Val>>
    requires MatchesAll(cs, ks) && forall i :: 0 <= i < |rs| ==> CanPackAll(cs, rs[i])
    decreases cs, |rs| + 1
  {
    if rs == [] then [] else [CastAll(cs, ks, rs[0])] + CastRecords(cs, ks, rs[1..])
  }

  // ----- Round trip -------------------------------------------------------------------

  lemma Joined(a: seq<Byte>, b: seq<Byte>, c: seq<Byte>)
    ensures (a + b) + c == a + (b + c)
  {
  }

  lemma Front(a: seq<Byte>, b: seq<Byte>)
    ensures (a + b)[..|a|] == a && (a + b)[|a|..] == b
  {
  }

  lemma ReadEncoded(k: Call, n: nat, rest: seq<Byte>)
    requires IsNumCall(k) && n < Values(CallWidth(k))
    ensures ReadNum(k, Encode(n, CallWidth(k)) + rest) == Got(Seen(k, n), rest)
  {
    var w := CallWidth(k);
    ValuesAreSpans(w);
    DecodeEncode(n, w);
    Front(Encode(n, w), rest);
  }

  lemma ReadLength(n: nat, rest: seq<Byte>)
    requires n < P31
    ensures ReadNum(Int32, Encode(n, 4) + rest) == Got(n, rest)
  {
    ReadEncoded(Int32, n, rest);
  }

  lemma ReadPackedNum(c: Code, k: Call, n: int, rest: seq<Byte>)
    requires IsNum(c) && IsNumCall(k) && CodeWidth(c) == CallWidth(k)
    ensures ReadNum(k, PackNum(c, n) + rest) == Got(CastNum(k, n), rest)
  {
    ReadEncoded(k, n % Values(CallWidth(k)), rest);
  }

  lemma {:induction false} ReadPackedNums(c: Code, k: Call, ns: seq<int>, rest: seq<Byte>)
    requires IsNum(c) && IsNumCall(k) && CodeWidth(c) == CallWidth(k)
    ensures ReadNums(k, |ns|, PackNums(c, ns) + rest) == Got(CastNums(k, ns), rest)
    decreases |ns|
  {
    if ns == [] {
      assert [] + rest == rest;
    } else {
      ReadPackedNums(c, k, ns[1..], rest);
      Joined(PackNum(c, ns[0]), PackNums(c, ns[1..]), rest);
      ReadPackedNum(c, k, ns[0], PackNums(c, ns[1..]) + rest);
    }
  }

  lemma {:induction false} ReadOnes(n: nat, rest: seq<Byte>)
    ensures ReadNums(UInt8, n, Ones(n) + rest) == Got(Ones(n), rest)
  {
    var bs := Ones(n) + rest;
    if n == 0 {
      assert bs == rest;
    } else {
      ReadOnes(n - 1, rest);
      assert bs[1..] == Ones(n - 1) + rest;
      assert bs[..1] == [1];
      assert Decode([1]) == 1 + 256 * Decode([]);
      assert [1] + Ones(n - 1) == Ones(n);
    }
  }

  lemma ReadPackedString(s: seq<Byte>, rest: seq<Byte>)
    requires |s| < P31
    ensures ReadString(Encode(|s|, 4) + s + rest) == Got(s, rest)
  {
    Joined(Encode(|s|, 4), s, rest);
    ReadLength(|s|, s + rest);
    Front(s, rest);
  }

  lemma ReadVector(k: Call, n: nat, bs: seq<Byte>, ns: seq<int>, rest: seq<Byte>)
    requires IsNumCall(k) && n < P31 && ReadNums(k, n, bs) == Got(ns, rest)
    ensures Read(VectorOf(k), Encode(n, 4) + bs) == Got(Nums(ns), rest)
  {
    ReadLength(n, bs);
  }

  lemma ReadPackedVector(e: Code, k: Call, v: Val, rest: seq<Byte>)
    requires CanPack(VecOf(e), v) && Matches(VecOf(e), VectorOf(k))
    ensures Read(VectorOf(k), Pack(VecOf(e), v) + rest) == Got(Nums(CastNums(k, v.ns)), rest)
  {
    ReadPackedNums(e, k, v.ns, rest);
    Joined(Encode(|v.ns|, 4), PackNums(e, v.ns), rest);
    ReadVector(k, |v.ns|, PackNums(e, v.ns) + rest, CastNums(k, v.ns), rest);
  }

  lemma ReadPackedFlags(v: Val, rest: seq<Byte>)
    requires CanPack(Flags, v)
    ensures Read(VectorOf(UInt8), Pack(Flags, v) + rest) == Got(Nums(Ones(|v.ns|)), rest)
  {
    ReadOnes(|v.ns|, rest);
    Joined(Encode(|v.ns|, 4), Ones(|v.ns|), rest);
    ReadVector(UInt8, |v.ns|, Ones(|v.ns|) + rest, Ones(|v.ns|), rest);
  }

  lemma ReadCount(fs: seq<Call>, n: nat, bs: seq<Byte>, rs: seq<seq<Val>>, rest: seq<Byte>)
    requires n < P31 && ReadRecords(fs, n, bs) == Got(rs, rest)
    ensures Read(RecordsOf(fs), Encode(n, 4) + bs) == Got(List(rs), rest)
  {
    ReadLength(n, bs);
  }

  /** Reading a packed field gives the field as its call sees it, and leaves what follows. */
  lemma {:induction false} ReadPacked(c: Code, k: Call, v: Val, rest: seq<Byte>)
    requires CanPack(c, v) && Matches(c, k)
    ensures Read(k, Pack(c, v) + rest) == Got(Cast(c, k, v), rest)
    decreases c, 0
  {
    match c {
      case S => ReadPackedString(v.s, rest);
      case VecOf(e) => ReadPackedVector(e, k.elem, v, rest);
      case Flags => ReadPackedFlags(v, rest);
      case Records(fs) =>
        ReadPackedRecords(fs, k.fields, v.rs, rest);
        Joined(Encode(|v.rs|, 4), PackRecords(fs, v.rs), rest);
        ReadCount(k.fields, |v.rs|, PackRecords(fs, v.rs) + rest, CastRecords(fs, k.fields, v.rs), rest);
      case _ => ReadPackedNum(c, k, v.n, rest);
    }
  }

  lemma {:induction false} ReadPackedAll(cs: seq<Code>, ks: seq<Call>, vs: seq<Val>, rest: seq<Byte>)
    requires CanPackAll(cs, vs) && MatchesAll(cs, ks)
    ensures ReadAll(ks, PackAll(cs, vs) + rest) == Got(CastAll(cs, ks, vs), rest)
    decreases cs, 0
  {
    if cs == [] {
      assert [] + rest == rest;
    } else {
      ReadPackedAll(cs[1..], ks[1..], vs[1..], rest);
      Joined(Pack(cs[0], vs[0]), PackAll(cs[1..], vs[1..]), rest);
      ReadPacked(cs[0], ks[0], vs[0], PackAll(cs[1..], vs[1..]) + rest);
    }
  }

  lemma {:induction false} ReadPackedRecords(cs: seq<Code>, ks: seq<Call>, rs: seq<seq<Val>>, rest: seq<Byte>)
    requires MatchesAll(cs, ks) && forall i :: 0 <= i < |rs| ==> CanPackAll(cs, rs[i])
    ensures ReadRecords(ks, |rs|, PackRecords(cs, rs) + rest) == Got(CastRecords(cs, ks, rs), rest)
    decreases cs, |rs| + 1
  {
    if rs == [] {
      assert [] + rest == rest;
    } else {
      ReadPackedRecords(cs, ks, rs[1..], rest);
      Joined(PackAll(cs, rs[0]), PackRecords(cs, rs[1..]), rest);
      ReadPackedAll(cs, ks, rs[0], PackRecords(cs, rs[1..]) + rest);
    }
  }

  // ----- When nothing changes ---------------------------------------------------------

  /** Every number of a field is kept by its call; truth values have to be true. */
  predicate KeepsField(c: Code, k: Call, v: Val)
    requires CanPack(c, v) && Matches(c, k)
    decreases c, 0
  {
    match c
    case S => true
    case VecOf(_) => forall i :: 0 <= i < |v.ns| ==> Keeps(k.elem, v.ns[i])
    case Flags => forall i :: 0 <= i < |v.ns| ==> v.ns[i] == 1
    case Records(fs) => forall i :: 0 <= i < |v.rs| ==> KeepsAll(fs, k.fields, v.rs[i])
    case _ => Keeps(k, v.n)
  }

  predicate KeepsAll(cs: seq<Code>, ks: seq<Call>, vs: seq<Val>)
    requires CanPackAll(cs, vs) && MatchesAll(cs, ks)
    decreases cs, 0
  {
    forall i :: 0 <= i < |cs| ==> KeepsField(cs[i], ks[i], vs[i])
  }

  lemma {:induction false} CastNumsIff(c: Code, k: Call, ns: seq<int>)
    requires IsNum(c) && IsNumCall(k) && CodeWidth(c) == CallWidth(k)
    requires forall i :: 0 <= i < |ns| ==> InRange(c, ns[i])
    ensures CastNums(k, ns) == ns <==> forall i :: 0 <= i < |ns| ==> Keeps(k, ns[i])
  {
    if ns != [] {
      CastNumsIff(c, k, ns[1..]);
      NumIff(c, k, ns[0]);
      HeadTail(CastNum(k, ns[0]), CastNums(k, ns[1..]), ns);
      assert forall i :: 0 <= i < |ns| ==> ns[i] == if i == 0 then ns[0] else ns[1..][i - 1];
    }
  }

  lemma HeadTail<T>(x: T, xs: seq<T>, ys: seq<T>)
    requires ys != []
    ensures [x] + xs == ys <==> x == ys[0] && xs == ys[1..]
  {
    assert ([x] + xs)[0] == x && ([x] + xs)[1..] == xs;
  }

  /** A field is rebuilt exactly if and only if its calls keep its numbers. */
  lemma {:induction false} CastIff(c: Code, k: Call, v: Val)
    requires CanPack(c, v) && Matches(c, k)
    ensures Cast(c, k, v) == v <==> KeepsField(c, k, v)
    decreases c, 0
  {
    match c {
      case S =>
      case VecOf(e) => CastNumsIff(e, k.elem, v.ns);
      case Flags =>
        assert forall i :: 0 <= i < |v.ns| ==> Ones(|v.ns|)[i] == 1;
      case Records(fs) => CastRecordsIff(fs, k.fields, v.rs);
      case _ => NumIff(c, k, v.n);
    }
  }

  lemma {:induction false} CastAllIff(cs: seq<Code>, ks: seq<Call>, vs: seq<Val>)
    requires CanPackAll(cs, vs) && MatchesAll(cs, ks)
    ensures CastAll(cs, ks, vs) == vs <==> KeepsAll(cs, ks, vs)
    decreases cs, 0
  {
    if cs != [] {
      CastAllIff(cs[1..], ks[1..], vs[1..]);
      CastIff(cs[0], ks[0], vs[0]);
      HeadTail(Cast(cs[0], ks[0], vs[0]), CastAll(cs[1..], ks[1..], vs[1..]), vs);
      KeepsTail(cs, ks, vs);
    }
  }

  lemma KeepsTail(cs: seq<Code>, ks: seq<Call>, vs: seq<Val>)
    requires CanPackAll(cs, vs) && MatchesAll(cs, ks) && cs != []
    ensures KeepsAll(cs, ks, vs) <==> KeepsField(cs[0], ks[0], vs[0]) && KeepsAll(cs[1..], ks[1..], vs[1..])
  {
    if KeepsField(cs[0], ks[0], vs[0]) && KeepsAll(cs[1..], ks[1..], vs[1..]) {
      forall i | 0 <= i < |cs|
        ensures KeepsField(cs[i], ks[i], vs[i])
      {
        if i > 0 {
          assert KeepsField(cs[1..][i - 1], ks[1..][i - 1], vs[1..][i - 1]);
        }
      }
    }
  }

  lemma {:induction false} CastRecordsIff(cs: seq<Code>, ks: seq<Call>, rs: seq<seq<Val>>)
    requires MatchesAll(cs, ks) && forall i :: 0 <= i < |rs| ==> CanPackAll(cs, rs[i])
    ensures CastRecords(cs, ks, rs) == rs <==> forall i :: 0 <= i < |rs| ==> KeepsAll(cs, ks, rs[i])
    decreases cs, |rs| + 1
  {
    if rs != [] {
      CastRecordsIff(cs, ks, rs[1..]);
      CastAllIff(cs, ks, rs[0]);
      HeadTail(CastAll(cs, ks, rs[0]), CastRecords(cs, ks, rs[1..]), rs);
      assert forall i :: 0 <= i < |rs| ==> rs[i] == if i == 0 then rs[0] else rs[1..][i - 1];
    }
  }

  /** A call that keeps everything its code can pack. */
  predicate Lossless(c: Code, k: Call)
    decreases c, 0
  {
    match c
    case B => k.UInt8?
    case H => k.Short?
    case I => k.Int32?
    case UI => k.UInt32?
    case Q => k.UInt64?
    case S => k.String?
    case VecOf(e) => k.VectorOf? && IsNum(e) && IsNumCall(k.elem) && Lossless(e, k.elem)
    case Flags => false
    case Records(fs) => k.RecordsOf? && |fs| == |k.fields| && forall i :: 0 <= i < |fs| ==> Lossless(fs[i], k.fields[i])
  }

  lemma {:induction false} LosslessKeeps(c: Code, k: Call, v: Val)
    requires CanPack(c, v) && Matches(c, k) && Lossless(c, k)
    ensures KeepsField(c, k, v)
    decreases c
  {
    if c.Records? {
      forall i | 0 <= i < |v.rs|
        ensures KeepsAll(c.fields, k.fields, v.rs[i])
      {
        forall j | 0 <= j < |c.fields|
          ensures KeepsField(c.fields[j], k.fields[j], v.rs[i][j])
        {
          assert CanPackAll(c.fields, v.rs[i]);
          LosslessKeeps(c.fields[j], k.fields[j], v.rs[i][j]);
        }
      }
    }
  }

  /** The fields of a table whose calls may lose something. */
  ghost predicate OnlyLossy(cs: seq<Code>, ks: seq<Call>, lossy: seq<nat>) {
    |cs| == |ks| && forall i :: 0 <= i < |cs| && i !in lossy ==> Lossless(cs[i], ks[i])
  }

  /** Only those fields decide whether a record is rebuilt. */
  lemma LossyDecide(cs: seq<Code>, ks: seq<Call>, lossy: seq<nat>, vs: seq<Val>)
    requires CanPackAll(cs, vs) && MatchesAll(cs, ks) && OnlyLossy(cs, ks, lossy)
    requires forall i :: i in lossy ==> i < |cs|
    ensures KeepsAll(cs, ks, vs) <==> forall i :: i in lossy ==> KeepsField(cs[i], ks[i], vs[i])
  {
    forall i | 0 <= i < |cs| && i !in lossy
      ensures KeepsField(cs[i], ks[i], vs[i])
    {
      LosslessKeeps(cs[i], ks[i], vs[i]);
    }
  }
}
