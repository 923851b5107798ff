/**
 Relocation of control code: `cert_elf_loader::parse` patches addresses into words of the
 loaded sections, in place. Two of the five kinds of patch scatter a 57-bit address over
 several words.

 Words and positions are those of the section data laid end to end; the masks and shifts of
 the source are written as remainders and quotients by powers of two.
 */
module Relocation {
  import opened LittleEndian

  type Image = seq<U32>

  /** The kinds that add an address; their numbers in the source are 3, 6 and 2. */
  datatype Kind = Scalar32 | Aie4Bd57 | Aie2psBd57

  /** Add `value` to the address of the descriptor at word `at`. */
  datatype Patch = Patch(kind: Kind, at: nat, value: U64)

  function Reach(k: Kind): nat {
    match k
    case Scalar32 => 1
    case Aie4Bd57 => 2
    case Aie2psBd57 => 9
  }

  predicate InRange(m: Image, p: Patch) {
    p.at + Reach(p.kind) <= |m|
  }

  /** How many address bits a kind has, as the size of the address space. */
  function Space(k: Kind): nat {
    if k.Scalar32? then P32 else P57
  }

  /** The address a descriptor holds. */
  function AddrAt(m: Image, k: Kind, at: nat): nat
    requires at + Reach(k) <= |m|
  {
    match k
    case Scalar32 => m[at]
    case Aie4Bd57 => (m[at] % P25) * P32 + m[at + 1]
    case Aie2psBd57 => (m[at + 8] % P9) * P48 + (m[at + 2] % P16) * P32 + m[at + 1]
  }

  /** The bits of a descriptor's word that are not address bits. */
  function Other(k: Kind, i: int, w: U32): nat {
    match k
    case Scalar32 => if i == 0 then 0 else w
    case Aie4Bd57 => if i == 0 then w / P25 else if i == 1 then 0 else w
    case Aie2psBd57 => if i == 1 then 0 else if i == 2 then w / P16 else if i == 8 then w / P9 else w
  }

  /** Replace the low bits of a word and keep the rest. */
  function Splice(w: U32, bits: nat, low: nat): U32
    requires 0 < bits <= P32 && low < bits && (bits == P9 || bits == P16 || bits == P25)
  {
    w - w % bits + low
  }

  /** `patch_scalar_32`, `aie4_patch_57` and `aie2ps_patch_57`: the sum is a 64-bit one. */
  function Patched(m: Image, p: Patch): (r: Image)
    requires InRange(m, p)
    ensures |r| == |m|
  {
    WithAddr(m, p.kind, p.at, (AddrAt(m, p.kind, p.at) + p.value) % P64)
  }

  /** The descriptor at `i` with the low bits of `a` for its address. */
  function WithAddr(m: Image, k: Kind, i: nat, a: U64): (r: Image)
    requires i + Reach(k) <= |m|
    ensures |r| == |m|
  {
    match k
    case Scalar32 => m[i := a % P32]
    case Aie4Bd57 => m[i + 1 := a % P32][i := Splice(m[i], P25, (a / P32) % P25)]
    case Aie2psBd57 =>
      m[i + 1 := a % P32]
       [i + 2 := Splice(m[i + 2], P16, (a / P32) % P16)]
       [i + 8 := Splice(m[i + 8], P9, (a / P48) % P9)]
  }

  // ----- What a patch does ------------------------------------------------------------

  lemma SpliceParts(w: U32, bits: nat, low: nat)
    requires low < bits && (bits == P9 || bits == P16 || bits == P25)
    ensures Splice(w, bits, low) % bits == low && Splice(w, bits, low) / bits == w / bits
  {
  }

  lemma Halves(h: nat)
    ensures ((h / P16) % P9) * P16 + h % P16 == h % P25
  {
    var q := (h / P16) / P9;
    DivMod(h, q, ((h / P16) % P9) * P16 + h % P16, P25);
  }

  lemma Recombine57(a: nat)
    ensures ((a / P32) % P25) * P32 + a % P32 == a % P57
    ensures ((a / P48) % P9) * P48 + ((a / P32) % P16) * P32 + a % P32 == a % P57
  {
    var h := a / P32;
    var q := h / P25;
    assert a == P57 * q + (h % P25) * P32 + a % P32;
    assert a / P48 == h / P16;
    Halves(h);
  }

  lemma Wrap(a: nat, b: nat, k: Kind)
    ensures ((a + b) % P64) % Space(k) == (a + b) % Space(k)
  {
    var q, r := (a + b) / P64, (a + b) % P64;
    assert a + b == P64 * q + r;
    if k.Scalar32? {
      DivMod(a + b, P32 * q + r / P32, r % P32, P32);
    } else {
      DivMod(a + b, 128 * q + r / P57, r % P57, P57);
    }
  }

  /** A patch adds its value to the address, modulo the address space of its kind. */
  lemma PatchAdds(m: Image, p: Patch)
    requires InRange(m, p)
    ensures AddrAt(Patched(m, p), p.kind, p.at) == (AddrAt(m, p.kind, p.at) + p.value) % Space(p.kind)
  {
    var i := p.at;
    var a := (AddrAt(m, p.kind, i) + p.value) % P64;
    Wrap(AddrAt(m, p.kind, i), p.value, p.kind);
    match p.kind {
      case Scalar32 =>
      case Aie4Bd57 =>
        SpliceParts(m[i], P25, (a / P32) % P25);
        Recombine57(a);
      case Aie2psBd57 =>
        SpliceParts(m[i + 2], P16, (a / P32) % P16);
        SpliceParts(m[i + 8], P9, (a / P48) % P9);
        Recombine57(a);
    }
  }

  /** It keeps every other word, and every bit of its own words that is not an address bit. */
  lemma PatchKeepsTheRest(m: Image, p: Patch, j: nat)
    requires InRange(m, p) && j < |m|
    ensures Other(p.kind, j - p.at, Patched(m, p)[j]) == Other(p.kind, j - p.at, m[j])
  {
    var i := p.at;
    var a := (AddrAt(m, p.kind, i) + p.value) % P64;
    var r := Patched(m, p);
    match p.kind {
      case Scalar32 =>
      case Aie4Bd57 =>
        assert r[i] == Splice(m[i], P25, (a / P32) % P25);
        SpliceParts(m[i], P25, (a / P32) % P25);
      case Aie2psBd57 =>
        assert r[i + 2] == Splice(m[i + 2], P16, (a / P32) % P16);
        assert r[i + 8] == Splice(m[i + 8], P9, (a / P48) % P9);
        SpliceParts(m[i + 2], P16, (a / P32) % P16);
        SpliceParts(m[i + 8], P9, (a / P48) % P9);
    }
  }

  /** Those two facts determine the patched image. */
  lemma DeterminedWord(x: U32, y: U32, bits: nat)
    requires bits == P9 || bits == P16 || bits == P25
    requires x / bits == y / bits && x % bits == y % bits
    ensures x == y
  {
  }

  lemma AddrFields(m: Image, k: Kind, at: nat)
    requires at + Reach(k) <= |m|
    ensures k.Aie4Bd57? ==> var a := AddrAt(m, k, at); a / P32 == m[at] % P25 && a % P32 == m[at + 1]
    ensures k.Aie2psBd57? ==> var a := AddrAt(m, k, at);
              && a / P48 == m[at + 8] % P9 && (a / P32) % P16 == m[at + 2] % P16 && a % P32 == m[at + 1]
  {
  }

  lemma SameImage(m: Image, n: Image, k: Kind, at: nat)
    requires |m| == |n| && at + Reach(k) <= |m|
    requires AddrAt(m, k, at) == AddrAt(n, k, at)
    requires forall j :: 0 <= j < |m| ==> Other(k, j - at, m[j]) == Other(k, j - at, n[j])
    ensures m == n
  {
    AddrFields(m, k, at);
    AddrFields(n, k, at);
    match k {
      case Scalar32 =>
      case Aie4Bd57 =>
        assert Other(k, at - at, m[at]) == Other(k, at - at, n[at]);
        DeterminedWord(m[at], n[at], P25);
      case Aie2psBd57 =>
        assert Other(k, at + 2 - at, m[at + 2]) == Other(k, at + 2 - at, n[at + 2]);
        assert Other(k, at + 8 - at, m[at + 8]) == Other(k, at + 8 - at, n[at + 8]);
        DeterminedWord(m[at + 2], n[at + 2], P16);
        DeterminedWord(m[at + 8], n[at + 8], P9);
    }
  }

  lemma AddMod(a: nat, b: nat, c: nat, k: Kind)
    ensures ((a + b) % Space(k) + c) % Space(k) == (a + b + c) % Space(k)
    ensures ((a + b) % P64 + c) % Space(k) == (a + b + c) % Space(k)
  {
    var d, s := Space(k), a + b;
    var x, y := s % d + c, s % P64 + c;
    if k.Scalar32? {
      DivMod(s + c, s / P32 + x / P32, x % P32, P32);
      DivMod(s + c, P32 * (s / P64) + y / P32, y % P32, P32);
    } else {
      DivMod(s + c, s / P57 + x / P57, x % P57, P57);
      DivMod(s + c, 128 * (s / P64) + y / P57, y % P57, P57);
    }
  }

  lemma AddrAfterTwo(m: Image, k: Kind, at: nat, p: U64, q: U64)
    requires at + Reach(k) <= |m|
    ensures AddrAt(Patched(Patched(m, Patch(k, at, p)), Patch(k, at, q)), k, at)
            == ((AddrAt(m, k, at) + p) % Space(k) + q) % Space(k)
  {
    hide AddrAt, WithAddr;
    PatchAdds(m, Patch(k, at, p));
    PatchAdds(Patched(m, Patch(k, at, p)), Patch(k, at, q));
  }

  lemma SumsAgree(a: nat, p: nat, q: nat, k: Kind)
    ensures ((a + p) % Space(k) + q) % Space(k) == (a + (p + q) % P64) % Space(k)
  {
    AddMod(a, p, q, k);
    AddMod(p, q, a, k);
  }

  lemma AddressesCompose(m: Image, k: Kind, at: nat, p: U64, q: U64, r: U64, x: Image, y: Image)
    requires at + Reach(k) <= |m| && r == (p + q) % P64
    requires x == Patched(Patched(m, Patch(k, at, p)), Patch(k, at, q)) && y == Patched(m, Patch(k, at, r))
    ensures AddrAt(x, k, at) == AddrAt(y, k, at)
  {
    hide AddrAt, WithAddr;
    AddrAfterTwo(m, k, at, p, q);
    PatchAdds(m, Patch(k, at, r));
    SumsAgree(AddrAt(m, k, at), p, q, k);
  }

  lemma OthersCompose(m: Image, k: Kind, at: nat, p: U64, q: U64, r: U64, j: nat)
    requires at + Reach(k) <= |m| && j < |m|
    ensures Other(k, j - at, Patched(Patched(m, Patch(k, at, p)), Patch(k, at, q))[j])
            == Other(k, j - at, Patched(m, Patch(k, at, r))[j])
  {
    PatchKeepsTheRest(m, Patch(k, at, p), j);
    PatchKeepsTheRest(Patched(m, Patch(k, at, p)), Patch(k, at, q), j);
    PatchKeepsTheRest(m, Patch(k, at, r), j);
  }

  /** Two patches of one kind on one descriptor are one patch by the sum. */
  lemma PatchesCompose(m: Image, k: Kind, at: nat, p: U64, q: U64)
    requires at + Reach(k) <= |m|
    ensures Patched(Patched(m, Patch(k, at, p)), Patch(k, at, q)) == Patched(m, Patch(k, at, (p + q) % P64))
  {
    var r := (p + q) % P64;
    var x, y := Patched(Patched(m, Patch(k, at, p)), Patch(k, at, q)), Patched(m, Patch(k, at, r));
    AddressesCompose(m, k, at, p, q, r, x, y);
    forall j | 0 <= j < |m|
      ensures Other(k, j - at, x[j]) == Other(k, j - at, y[j])
    {
      OthersCompose(m, k, at, p, q, r, j);
    }
    SameImage(x, y, k, at);
  }

  // ----- Order ------------------------------------------------------------------------

  /** The words a patch reads and writes. */
  predicate Touches(p: Patch, j: int) {
    match p.kind
    case Scalar32 => j == p.at
    case Aie4Bd57 => j == p.at || j == p.at + 1
    case Aie2psBd57 => j == p.at + 1 || j == p.at + 2 || j == p.at + 8
  }

  /** Same kind on the same descriptor, or no word in common. */
  ghost predicate Compatible(p: Patch, q: Patch) {
    || (p.kind == q.kind && p.at == q.at)
    || (forall j :: !(Touches(p, j) && Touches(q, j)))
  }

  /** A patch changes only the words it touches, as a function of the words it touches. */
  lemma PatchIsLocal(m: Image, n: Image, p: Patch, j: nat)
    requires |m| == |n| && InRange(m, p) && j < |m|
    requires forall i :: 0 <= i < |m| && Touches(p, i) ==> m[i] == n[i]
    ensures !Touches(p, j) ==> Patched(m, p)[j] == m[j]
    ensures Touches(p, j) ==> Patched(m, p)[j] == Patched(n, p)[j]
  {
    SameAddr(m, n, p);
    WritesLocally(m, n, p, (AddrAt(m, p.kind, p.at) + p.value) % P64, j);
  }

  lemma SameAddr(m: Image, n: Image, p: Patch)
    requires |m| == |n| && InRange(m, p)
    requires forall i :: 0 <= i < |m| && Touches(p, i) ==> m[i] == n[i]
    ensures AddrAt(m, p.kind, p.at) == AddrAt(n, p.kind, p.at)
  {
  }

  lemma WritesLocally(m: Image, n: Image, p: Patch, a: U64, j: nat)
    requires |m| == |n| && InRange(m, p) && j < |m|
    requires forall i :: 0 <= i < |m| && Touches(p, i) ==> m[i] == n[i]
    ensures !Touches(p, j) ==> WithAddr(m, p.kind, p.at, a)[j] == m[j]
    ensures Touches(p, j) ==> WithAddr(m, p.kind, p.at, a)[j] == WithAddr(n, p.kind, p.at, a)[j]
  {
  }

  lemma PatchesCommute(m: Image, p: Patch, q: Patch)
    requires InRange(m, p) && InRange(m, q) && Compatible(p, q)
    ensures Patched(Patched(m, p), q) == Patched(Patched(m, q), p)
  {
    hide AddrAt, WithAddr, Patched, Touches;
    if p.kind == q.kind && p.at == q.at {
      PatchesCompose(m, p.kind, p.at, p.value, q.value);
      PatchesCompose(m, p.kind, p.at, q.value, p.value);
    } else {
      var mp, mq := Patched(m, p), Patched(m, q);
      forall j | 0 <= j < |m|
        ensures Patched(mp, q)[j] == Patched(mq, p)[j]
      {
        UntouchedAgree(m, p, q);
        UntouchedAgree(m, q, p);
        PatchIsLocal(m, m, p, j);
        PatchIsLocal(m, m, q, j);
        PatchIsLocal(mp, m, q, j);
        PatchIsLocal(mq, m, p, j);
      }
    }
  }

  lemma UntouchedAgree(m: Image, p: Patch, q: Patch)
    requires InRange(m, p) && forall j :: !(Touches(p, j) && Touches(q, j))
    ensures forall i :: 0 <= i < |m| && Touches(q, i) ==> Patched(m, p)[i] == m[i]
  {
    forall i | 0 <= i < |m| && Touches(q, i)
      ensures Patched(m, p)[i] == m[i]
    {
      PatchIsLocal(m, m, p, i);
    }
  }

  // ----- The control-packet patches ---------------------------------------------------

  /** `aie2ps_patch_ctrl_57`: a 48-bit address in words 2 and 3, of which the low two bits are
      dropped and the bits above the top are or-ed into the word as they come. */
  function CtrlPatched(m: Image, at: nat, value: U64): Image
    requires at + 4 <= |m|
  {
    var a := CtrlSum(m, at, value);
    m[at + 2 := Aligned(a % P32)]
     [at + 3 := Or16(m[at + 3] / P16, a / P48) * P16 + (a / P32) % P16]
  }

  function CtrlSum(m: Image, at: nat, value: U64): U64
    requires at + 4 <= |m|
  {
    ((m[at + 3] % P16) * P32 + m[at + 2] + value) % P64
  }

  function Aligned(w: U32): U32 {
    w - w % 4
  }

  function Pow2(n: nat): (p: nat)
    ensures p > 0
  {
    if n == 0 then 1 else 2 * Pow2(n - 1)
  }

  lemma Sixteen()
    ensures Pow2(16) == P16
  {
    assert Pow2(4) == 16;
    assert Pow2(8) == 256;
    assert Pow2(12) == 4096;
  }

  /** Bitwise or of the low `n` bits. */
  function Or(x: nat, y: nat, n: nat): (r: nat)
    ensures r < Pow2(n)
    decreases x, y, n
  {
    if n == 0 then 0
    else 2 * Or(x / 2, y / 2, n - 1) + if x % 2 == 1 || y % 2 == 1 then 1 else 0
  }

  function Or16(x: U16, y: U16): U16 {
    Sixteen();
    Or(x, y, 16)
  }

  /** No bit of `y` outside `x`, in the low `n` bits. */
  predicate Covers(x: nat, y: nat, n: nat)
    decreases x, y, n
  {
    n == 0 || ((y % 2 == 1 ==> x % 2 == 1) && Covers(x / 2, y / 2, n - 1))
  }

  /** `aie4_patch_ctrl_57`: the bits above the address come from word 0, not from word 1. */
  function CtrlPatched4(m: Image, at: nat, value: U64): Image
    requires at + 3 <= |m|
  {
    var a := ((m[at + 1] % P25) * P32 + m[at + 2] + value) % P64;
    m[at + 2 := a % P32]
     [at + 1 := Splice(m[at], P25, (a / P32) % P25)]
  }

  /** The second one adds correctly; it keeps the other bits of its word if and only if words
      0 and 1 agree on them. */
  lemma CtrlPatch4Iff(m: Image, at: nat, value: U64)
    requires at + 3 <= |m|
    ensures var r := CtrlPatched4(m, at, value);
            && (r[at + 1] % P25) * P32 + r[at + 2] == ((m[at + 1] % P25) * P32 + m[at + 2] + value) % P57
            && (r[at + 1] / P25 == m[at + 1] / P25 <==> m[at] / P25 == m[at + 1] / P25)
  {
    var b := (m[at + 1] % P25) * P32 + m[at + 2];
    var a := (b + value) % P64;
    SpliceParts(m[at], P25, (a / P32) % P25);
    Recombine57(a);
    Wrap(b, value, Aie4Bd57);
  }

  lemma {:induction false} OrCovers(x: nat, y: nat, n: nat)
    requires x < Pow2(n)
    ensures Or(x, y, n) == x <==> Covers(x, y, n)
    decreases n
  {
    if n > 0 {
      OrCovers(x / 2, y / 2, n - 1);
    }
  }

  /** The first one writes the sum if and only if it is a multiple of four, and keeps the
      upper half of its word if and only if that has every bit the sum has above bit 47. */
  lemma CtrlPatchIff(m: Image, at: nat, value: U64)
    requires at + 4 <= |m|
    ensures var a, r := CtrlSum(m, at, value), CtrlPatched(m, at, value);
            && ((r[at + 3] % P16) * P32 + r[at + 2] == a % P48 <==> a % 4 == 0)
            && (r[at + 3] / P16 == m[at + 3] / P16 <==> Covers(m[at + 3] / P16, a / P48, 16))
  {
    var a, r := CtrlSum(m, at, value), CtrlPatched(m, at, value);
    assert r[at + 2] == Aligned(a % P32);
    assert r[at + 3] == Or16(m[at + 3] / P16, a / P48) * P16 + (a / P32) % P16;
    Sixteen();
    OrCovers(m[at + 3] / P16, a / P48, 16);
    CtrlWord(Or16(m[at + 3] / P16, a / P48), a);
  }

  lemma CtrlWord(top: U16, a: U64)
    ensures var w := top * P16 + (a / P32) % P16;
            && w / P16 == top
            && ((w % P16) * P32 + Aligned(a % P32) == a % P48 <==> a % 4 == 0)
  {
    var low, high := a % P32, a / P32;
    DivMod(top * P16 + high % P16, top, high % P16, P16);
    DivMod(a, high / P16, (high % P16) * P32 + low, P48);
    DivMod(a, 0x4000_0000 * high + low / 4, low % 4, 4);
  }

  /** The low word of a sum of 64 bits. */
  lemma LowSum(high: nat, w: nat, v: nat)
    ensures ((high * P32 + w + v) % P64) % P32 == (w + v) % P32
  {
    var c, t := (w + v) / P32, (w + v) % P32;
    var d, f := (high + c) / P32, (high + c) % P32;
    DivMod(high * P32 + w + v, d, P32 * f + t, P64);
    DivMod(P32 * f + t, f, t, P32);
  }

  lemma SmallPatchIsLost(m: Image, at: nat, value: U64)
    requires at + 4 <= |m| && m[at + 2] % 4 == 0 && value < 4
    ensures CtrlPatched(m, at, value)[at + 2] == m[at + 2]
  {
    var w := m[at + 2];
    LowSum(m[at + 3] % P16, w, value);
    DivMod(w + value, w / 4, value, 4);
    assert CtrlSum(m, at, value) % P32 == w + value;
  }

  lemma FourMoves(m: Image, at: nat)
    requires at + 4 <= |m| && m[at + 2] % 4 == 0
    ensures CtrlPatched(m, at, 4)[at + 2] != m[at + 2]
  {
    LowSum(m[at + 3] % P16, m[at + 2], 4);
  }

  /** So two of them in a row are never one by the sum: by 2 and 2 they leave every aligned
      address where it is, and by 4 they do not. */
  lemma CtrlPatchesDoNotCompose(m: Image, at: nat)
    requires at + 4 <= |m| && m[at + 2] % 4 == 0
    ensures CtrlPatched(CtrlPatched(m, at, 2), at, 2)[at + 2] == m[at + 2] != CtrlPatched(m, at, 4)[at + 2]
  {
    SmallPatchIsLost(m, at, 2);
    var m1 := CtrlPatched(m, at, 2);
    SmallPatchIsLost(m1, at, 2);
    FourMoves(m, at);
  }

  // ----- Relocation entries -----------------------------------------------------------

  /** An entry of `.rela.dyn`; `addend` is a signed 64-bit number. */
  datatype Rela = Rela(offset: nat, symbol: nat, typ: U32, addend: int)

  /** What the loop over the entries uses: the section each dynamic symbol is in, the strings
      of `.dynstr` in order, the addresses to patch in, and where each section's words start. */
  datatype Elf = Elf(abi: Byte, dynsym: seq<nat>, dynstr: seq<string>,
                     symbols: map<string, U64>, start: map<nat, nat>)

  datatype Action = Skip | Add(p: Patch) | Ctrl(at: nat, value: U64) | Ctrl4(at: nat, value: U64)

  function KindNumber(elf: Elf, e: Rela): nat {
    if elf.abi == 2 then e.typ else e.addend % P32
  }

  /** The addend as an unsigned 64-bit number, shifted right by four in the older format. */
  function Addend(elf: Elf, e: Rela): U64 {
    if elf.abi == 2 then e.addend % P64 else (e.addend % P64) / 16
  }

  /** Entries that name no known symbol, no known section or no supported kind are skipped. */
  function ActionOf(elf: Elf, e: Rela): Action {
    if e.symbol >= |elf.dynsym| || e.symbol >= |elf.dynstr| then Skip
    else if elf.dynstr[e.symbol] !in elf.symbols || elf.dynsym[e.symbol] !in elf.start then Skip
    else
      var at := elf.start[elf.dynsym[e.symbol]] + (e.offset + 16) / 4;
      var value := (elf.symbols[elf.dynstr[e.symbol]] + Addend(elf, e)) % P64;
      match KindNumber(elf, e)
      case 3 => Add(Patch(Scalar32, at, value))
      case 2 => Add(Patch(Aie2psBd57, at, value))
      case 6 => Add(Patch(Aie4Bd57, at, value))
      case 7 => Ctrl(at, value)
      case 9 => Ctrl4(at, value)
      case _ => Skip
  }

  /** In the older format the kind is taken from the whole low word of the addend, so an entry
      that is applied at all is applied with a multiple of 2^28: an addend below 2^32 is lost. */
  lemma OldFormatDropsAddend(elf: Elf, e: Rela)
    requires elf.abi != 2 && !ActionOf(elf, e).Skip?
    ensures Addend(elf, e) % 0x1000_0000 == 0
    ensures 0 <= e.addend < P32 ==> Addend(elf, e) == 0
  {
    var a := e.addend % P64;
    var high, k := a / P32, a % P32;
    DivMod(e.addend, P32 * (e.addend / P64) + high, k, P32);
    assert k == KindNumber(elf, e) < 16;
    DivMod(a, 0x1000_0000 * high, k, 16);
    DivMod(0x1000_0000 * high, high, 0, 0x1000_0000);
  }

  predicate CanAct(n: nat, a: Action) {
    match a
    case Skip => true
    case Add(p) => p.at + Reach(p.kind) <= n
    case Ctrl(at, _) => at + 4 <= n
    case Ctrl4(at, _) => at + 3 <= n
  }

  function Act(m: Image, a: Action): (r: Image)
    requires CanAct(|m|, a)
    ensures |r| == |m|
  {
    match a
    case Skip => m
    case Add(p) => Patched(m, p)
    case Ctrl(at, v) => CtrlPatched(m, at, v)
    case Ctrl4(at, v) => CtrlPatched4(m, at, v)
  }

  /** Entries act within the loaded image. */
  predicate Contained(elf: Elf, es: seq<Rela>, n: nat) {
    forall e :: e in es ==> CanAct(n, ActionOf(elf, e))
  }

  function Relocated(elf: Elf, m: Image, es: seq<Rela>): (r: Image)
    requires Contained(elf, es, |m|)
    ensures |r| == |m|
    decreases |es|
  {
    if es == [] then m
    else
      assert es[0] in es;
      Relocated(elf, Act(m, ActionOf(elf, es[0])), es[1..])
  }

  /** The entry's symbol has a name, an address and a section that is loaded. */
  predicate Known(elf: Elf, e: Rela) {
    && e.symbol < |elf.dynsym| && e.symbol < |elf.dynstr|
    && elf.dynstr[e.symbol] in elf.symbols && elf.dynsym[e.symbol] in elf.start
  }

  lemma SumWraps(a: nat, s: nat, d: int, k: Kind)
    ensures (a + (s + d % P64) % P64) % Space(k) == (a + s + d) % Space(k)
  {
    var x := (s + d % P64) % P64;
    var t := d / P64 + (s + d % P64) / P64;
    assert a + s + d == P64 * t + (a + x);
    if k.Scalar32? {
      DivMod(a + s + d, P32 * t + (a + x) / P32, (a + x) % P32, P32);
    } else {
      DivMod(a + s + d, 128 * t + (a + x) / P57, (a + x) % P57, P57);
    }
  }

  lemma EntryAdds(elf: Elf, m: Image, e: Rela, k: Kind, at: nat, value: U64, d: int)
    requires ActionOf(elf, e) == Add(Patch(k, at, value)) && CanAct(|m|, ActionOf(elf, e)) && Known(elf, e)
    requires value == (elf.symbols[elf.dynstr[e.symbol]] + d % P64) % P64
    ensures AddrAt(Act(m, ActionOf(elf, e)), k, at) == (AddrAt(m, k, at) + elf.symbols[elf.dynstr[e.symbol]] + d) % Space(k)
  {
    hide AddrAt, WithAddr;
    PatchAdds(m, Patch(k, at, value));
    SumWraps(AddrAt(m, k, at), elf.symbols[elf.dynstr[e.symbol]], d, k);
  }

  /** The image `r` is what entry `e`, for the descriptor at word `at`, makes of `m`. The kind is
      the entry's type and the addend is signed, or, in the older format, the kind is the low word
      of the addend and the addend what is left of it past the low four bits. */
  ghost predicate Effect(elf: Elf, e: Rela, at: nat, m: Image, r: Image)
    requires |r| == |m|
  {
    var kind, addend := if elf.abi == 2 then e.typ else e.addend % 0x1_0000_0000,
                        if elf.abi == 2 then e.addend else e.addend % 0x1_0000_0000_0000_0000 / 16;
    if !Known(elf, e) || kind !in {2, 3, 6, 7, 9} then r == m
    else
      var v := elf.symbols[elf.dynstr[e.symbol]] + addend;
      && (kind == 3 ==> at < |m| && r[at] == (m[at] + v) % 0x1_0000_0000)
      && (kind == 2 ==> at + 9 <= |m| && AddrAt(r, Aie2psBd57, at) == (AddrAt(m, Aie2psBd57, at) + v) % P57)
      && (kind == 6 ==> at + 2 <= |m| && AddrAt(r, Aie4Bd57, at) == (AddrAt(m, Aie4Bd57, at) + v) % P57)
      && (kind == 7 ==> at + 4 <= |m| && r == CtrlPatched(m, at, v % P64))
      && (kind == 9 ==> at + 3 <= |m| && r == CtrlPatched4(m, at, v % P64))
  }

  lemma ScalarAddr(m: Image, at: nat)
    requires at < |m|
    ensures AddrAt(m, Scalar32, at) == m[at]
  {
  }

  /** The addend that the source adds: as it is, or past its low four bits. */
  function Added(elf: Elf, e: Rela): int {
    if elf.abi == 2 then e.addend else e.addend % P64 / 16
  }

  lemma ActionIs(elf: Elf, e: Rela, at: nat, value: U64)
    requires Known(elf, e) && at == elf.start[elf.dynsym[e.symbol]] + (e.offset + 16) / 4
    requires value == (elf.symbols[elf.dynstr[e.symbol]] + Added(elf, e)) % P64
    ensures var kind, a := if elf.abi == 2 then e.typ else e.addend % P32, ActionOf(elf, e);
            && (kind == 3 ==> a == Add(Patch(Scalar32, at, value)))
            && (kind == 2 ==> a == Add(Patch(Aie2psBd57, at, value)))
            && (kind == 6 ==> a == Add(Patch(Aie4Bd57, at, value)))
            && (kind == 7 ==> a == Ctrl(at, value))
            && (kind == 9 ==> a == Ctrl4(at, value))
            && (kind !in {2, 3, 6, 7, 9} ==> a == Skip)
  {
    WrappedSum(elf.symbols[elf.dynstr[e.symbol]], Added(elf, e));
  }

  lemma ActDoes(elf: Elf, m: Image, e: Rela, at: nat)
    requires CanAct(|m|, ActionOf(elf, e))
    requires Known(elf, e) ==> at == elf.start[elf.dynsym[e.symbol]] + (e.offset + 16) / 4
    ensures Effect(elf, e, at, m, Act(m, ActionOf(elf, e)))
  {
    if Known(elf, e) {
      hide AddrAt, ActionOf, Patched, CtrlPatched, CtrlPatched4;
      var s, d, a := elf.symbols[elf.dynstr[e.symbol]], Added(elf, e), ActionOf(elf, e);
      var value := (s + d) % P64;
      ActionIs(elf, e, at, value);
      WrappedSum(s, d);
      if a.Add? {
        EntryAdds(elf, m, e, a.p.kind, at, value, d);
        if a.p.kind.Scalar32? {
          ScalarAddr(m, at);
          ScalarAddr(Act(m, a), at);
        }
      }
    }
  }

  /** What an entry is for: to add the address of its symbol and its addend to the address in the
      descriptor 16 bytes past its offset in the symbol's section, in the way its kind says. An
      entry whose symbol is not known, or whose kind is none of the five, changes nothing. */
  lemma EntryDoes(elf: Elf, m: Image, e: Rela, at: nat)
    requires Contained(elf, [e], |m|)
    requires Known(elf, e) ==> var byte := 4 * (at - elf.start[elf.dynsym[e.symbol]]); byte <= e.offset + 16 < byte + 4
    ensures Effect(elf, e, at, m, Relocated(elf, m, [e]))
  {
    hide Effect, ActionOf, Act;
    assert e in [e] && [e][1..] == [];
    ActDoes(elf, m, e, at);
  }

  /** What an entry adds to the descriptor of a kind at a word. */
  function Contribution(a: Action, k: Kind, at: nat): nat {
    if a.Add? && a.p.kind == k && a.p.at == at then a.p.value else 0
  }

  function Total(elf: Elf, es: seq<Rela>, k: Kind, at: nat): nat {
    if es == [] then 0 else Contribution(ActionOf(elf, es[0]), k, at) + Total(elf, es[1..], k, at)
  }

  /** Every entry adds to this descriptor, or has no word in common with it. */
  ghost predicate AroundDescriptor(elf: Elf, es: seq<Rela>, k: Kind, at: nat) {
    forall e :: e in es ==>
      var a := ActionOf(elf, e); a.Skip? || (a.Add? && Compatible(a.p, Patch(k, at, 0)))
  }

  lemma AddrInSpace(m: Image, k: Kind, at: nat)
    requires at + Reach(k) <= |m|
    ensures AddrAt(m, k, at) < Space(k)
  {
  }

  lemma ActAdds(m: Image, a: Action, k: Kind, at: nat)
    requires CanAct(|m|, a) && at + Reach(k) <= |m|
    requires a.Skip? || (a.Add? && Compatible(a.p, Patch(k, at, 0)))
    ensures AddrAt(Act(m, a), k, at) == (AddrAt(m, k, at) + Contribution(a, k, at)) % Space(k)
  {
    hide AddrAt, WithAddr;
    AddrInSpace(m, k, at);
    if a.Add? && a.p.kind == k && a.p.at == at {
      PatchAdds(m, a.p);
    } else if a.Add? {
      UntouchedAgree(m, a.p, Patch(k, at, 0));
      SameAddr(m, Patched(m, a.p), Patch(k, at, 0));
    }
  }

  /** The whole list: a descriptor that the entries add to, or stay clear of, holds in the end
      what it held and all they add to it. */
  lemma {:induction false} EveryEntryAdds(elf: Elf, m: Image, es: seq<Rela>, k: Kind, at: nat)
    requires Contained(elf, es, |m|) && at + Reach(k) <= |m| && AroundDescriptor(elf, es, k, at)
    ensures AddrAt(Relocated(elf, m, es), k, at) == (AddrAt(m, k, at) + Total(elf, es, k, at)) % Space(k)
    decreases |es|
  {
    hide AddrAt, ActionOf, Act, Compatible;
    if es == [] {
      AddrInSpace(m, k, at);
    } else {
      assert es[0] in es && forall e :: e in es[1..] ==> e in es;
      var a := ActionOf(elf, es[0]);
      ActAdds(m, a, k, at);
      EveryEntryAdds(elf, Act(m, a), es[1..], k, at);
      AddMod(AddrAt(m, k, at), Contribution(a, k, at), Total(elf, es[1..], k, at), k);
    }
  }

  lemma WrappedSum(s: nat, d: int)
    ensures (s + d % P64) % P64 == (s + d) % P64
  {
    var x := s + d % P64;
    DivMod(s + d, d / P64 + x / P64, x % P64, P64);
  }

  /** Entries that commute: additive, and pairwise compatible. */
  ghost predicate Commuting(a: Action, b: Action) {
    || a.Skip? || b.Skip?
    || (a.Add? && b.Add? && Compatible(a.p, b.p))
  }

  lemma ActionsCommute(m: Image, a: Action, b: Action)
    requires CanAct(|m|, a) && CanAct(|m|, b) && Commuting(a, b)
    ensures Act(Act(m, a), b) == Act(Act(m, b), a)
  {
    if a.Add? && b.Add? {
      PatchesCommute(m, a.p, b.p);
    }
  }

  ghost predicate OrderFree(elf: Elf, es: seq<Rela>) {
    forall d, e :: d in es && e in es ==> Commuting(ActionOf(elf, d), ActionOf(elf, e))
  }

  lemma FirstActs(elf: Elf, m: Image, es: seq<Rela>)
    requires es != [] && Contained(elf, es, |m|)
    ensures CanAct(|m|, ActionOf(elf, es[0])) && Contained(elf, es[1..], |m|)
    ensures Relocated(elf, m, es) == Relocated(elf, Act(m, ActionOf(elf, es[0])), es[1..])
  {
    hide Act, ActionOf, CanAct;
    assert es[0] in es;
  }

  lemma SubsetContained(elf: Elf, n: nat, es: seq<Rela>, fs: seq<Rela>)
    requires Contained(elf, es, n) && OrderFree(elf, es) && forall e :: e in fs ==> e in es
    ensures Contained(elf, fs, n) && OrderFree(elf, fs)
  {
    hide Commuting, CanAct, ActionOf;
  }

  /** One entry may be brought forward to the front. */
  lemma {:induction false} BringForward(elf: Elf, m: Image, es: seq<Rela>, k: nat)
    requires Contained(elf, es, |m|) && OrderFree(elf, es) && k < |es|
    ensures Contained(elf, [es[k]] + (es[..k] + es[k + 1..]), |m|)
    ensures Relocated(elf, m, es) == Relocated(elf, m, [es[k]] + (es[..k] + es[k + 1..]))
    decreases k
  {
    hide Act, ActionOf, CanAct, Commuting, Contained, OrderFree, Relocated;
    var rest := es[..k] + es[k + 1..];
    if k == 0 {
      assert [es[0]] + rest == es;
    } else {
      var tail := es[1..];
      var trest := tail[..k - 1] + tail[k..];
      var a0, ak := ActionOf(elf, es[0]), ActionOf(elf, es[k]);
      assert tail[k - 1] == es[k] && rest == [es[0]] + trest;
      SubsetContained(elf, |m|, es, tail);
      SubsetContained(elf, |m|, es, [es[k]] + rest);
      PairCommutes(elf, |m|, es, 0, k);
      FirstActs(elf, m, es);
      BringForward(elf, Act(m, a0), tail, k - 1);
      assert ([es[k]] + trest)[1..] == trest && ([es[k]] + rest)[1..] == rest && rest[1..] == trest;
      FirstActs(elf, Act(m, a0), [es[k]] + trest);
      ActionsCommute(m, a0, ak);
      FirstActs(elf, m, [es[k]] + rest);
      FirstActs(elf, Act(m, ak), rest);
    }
  }

  lemma PairCommutes(elf: Elf, n: nat, es: seq<Rela>, i: nat, j: nat)
    requires Contained(elf, es, n) && OrderFree(elf, es) && i < |es| && j < |es|
    ensures CanAct(n, ActionOf(elf, es[i])) && CanAct(n, ActionOf(elf, es[j]))
    ensures Commuting(ActionOf(elf, es[i]), ActionOf(elf, es[j]))
  {
    hide Commuting, CanAct, ActionOf;
    assert es[i] in es && es[j] in es;
  }

  lemma Without<T>(s: seq<T>, k: nat)
    requires k < |s|
    ensures multiset(s[..k] + s[k + 1..]) == multiset(s) - multiset{s[k]}
    ensures |s[..k] + s[k + 1..]| == |s| - 1
    ensures forall x :: x in s[..k] + s[k + 1..] ==> x in s
  {
    assert s == s[..k] + [s[k]] + s[k + 1..];
  }

  lemma SameElements<T>(s: seq<T>, t: seq<T>)
    requires multiset(s) == multiset(t)
    ensures |s| == |t|
    ensures forall x :: x in t ==> x in s
  {
    assert |multiset(s)| == |s| && |multiset(t)| == |t|;
    assert forall x :: x in t ==> x in multiset(t);
  }

  /** Relocation does not depend on the order of its entries: any permutation of entries that
      pairwise either share a descriptor and a kind or share no word gives the same image. */
  lemma {:induction false} AnyOrderSameImage(elf: Elf, m: Image, es: seq<Rela>, fs: seq<Rela>)
    requires Contained(elf, es, |m|) && OrderFree(elf, es) && multiset(es) == multiset(fs)
    ensures Contained(elf, fs, |m|)
    ensures Relocated(elf, m, es) == Relocated(elf, m, fs)
    decreases |es|
  {
    hide Act, ActionOf, CanAct, Contained, Relocated, OrderFree;
    SameElements(es, fs);
    SubsetContained(elf, |m|, es, fs);
    if fs == [] {
      assert es == [];
    } else {
      SameElements(fs, es);
      assert fs[0] in es;
      var k :| 0 <= k < |es| && es[k] == fs[0];
      var rest := es[..k] + es[k + 1..];
      BringForward(elf, m, es, k);
      Without(es, k);
      Without(fs, 0);
      assert fs[..0] + fs[1..] == fs[1..] && ([es[k]] + rest)[1..] == rest;
      SubsetContained(elf, |m|, es, rest);
      FirstActs(elf, m, [es[k]] + rest);
      FirstActs(elf, m, fs);
      AnyOrderSameImage(elf, Act(m, ActionOf(elf, fs[0])), rest, fs[1..]);
    }
  }

  // ----- In place ---------------------------------------------------------------------

  method PatchScalar32(image: array<U32>, at: nat, patch: U64)
    requires at < image.Length
    modifies image
    ensures image[..] == Patched(old(image[..]), Patch(Scalar32, at, patch))
  {
    var base := (image[at] + patch) % P64;
    image[at] := base % P32;
  }

  method PatchAie4(image: array<U32>, at: nat, patch: U64)
    requires at + 2 <= image.Length
    modifies image
    ensures image[..] == Patched(old(image[..]), Patch(Aie4Bd57, at, patch))
  {
    ghost var m: Image := image[..];
    var high, low := image[at], image[at + 1];
    var base := ((high % P25) * P32 + low + patch) % P64;
    assert base == (AddrAt(m, Aie4Bd57, at) + patch) % P64;
    var newHigh := Splice(high, P25, (base / P32) % P25);
    image[at + 1] := base % P32;
    image[at] := newHigh;
    assert image[..] == m[at + 1 := base % P32][at := newHigh];
  }

  method PatchAie2ps(image: array<U32>, at: nat, patch: U64)
    requires at + 9 <= image.Length
    modifies image
    ensures image[..] == Patched(old(image[..]), Patch(Aie2psBd57, at, patch))
  {
    var base := ((image[at + 8] % P9) * P48 + (image[at + 2] % P16) * P32 + image[at + 1] + patch) % P64;
    image[at + 1] := base % P32;
    image[at + 2] := Splice(image[at + 2], P16, (base / P32) % P16);
    image[at + 8] := Splice(image[at + 8], P9, (base / P48) % P9);
  }

  method PatchCtrl(image: array<U32>, at: nat, patch: U64)
    requires at + 4 <= image.Length
    modifies image
    ensures image[..] == CtrlPatched(old(image[..]), at, patch)
  {
    ghost var m: Image := image[..];
    var low, high := image[at + 2], image[at + 3];
    var base := ((high % P16) * P32 + low + patch) % P64;
    assert base == CtrlSum(m, at, patch);
    var newLow := Aligned(base % P32);
    var newHigh := Or16(high / P16, base / P48) * P16 + (base / P32) % P16;
    image[at + 2] := newLow;
    image[at + 3] := newHigh;
    assert image[..] == m[at + 2 := newLow][at + 3 := newHigh];
  }

  method PatchCtrl4(image: array<U32>, at: nat, patch: U64)
    requires at + 3 <= image.Length
    modifies image
    ensures image[..] == CtrlPatched4(old(image[..]), at, patch)
  {
    var base := ((image[at + 1] % P25) * P32 + image[at + 2] + patch) % P64;
    image[at + 2] := base % P32;
    image[at + 1] := Splice(image[at], P25, (base / P32) % P25);
  }

  method ActInPlace(image: array<U32>, a: Action)
    requires CanAct(image.Length, a)
    modifies image
    ensures image[..] == Act(old(image[..]), a)
  {
    match a {
      case Skip =>
      case Add(p) =>
        match p.kind {
          case Scalar32 => PatchScalar32(image, p.at, p.value);
          case Aie4Bd57 => PatchAie4(image, p.at, p.value);
          case Aie2psBd57 => PatchAie2ps(image, p.at, p.value);
        }
      case Ctrl(at, v) => PatchCtrl(image, at, v);
      case Ctrl4(at, v) => PatchCtrl4(image, at, v);
    }
  }

  /** The loop over the entries. */
  method Relocate(elf: Elf, image: array<U32>, es: seq<Rela>)
    requires Contained(elf, es, image.Length)
    modifies image
    ensures image[..] == Relocated(elf, old(image[..]), es)
  {
    var k := 0;
    while k < |es|
      invariant 0 <= k <= |es|
      invariant Contained(elf, es[k..], image.Length)
      invariant Relocated(elf, image[..], es[k..]) == Relocated(elf, old(image[..]), es)
    {
      assert es[k..][0] == es[k] && es[k..][1..] == es[k + 1..];
      assert es[k] in es;
      ActInPlace(image, ActionOf(elf, es[k]));
      k := k + 1;
    }
  }
}
