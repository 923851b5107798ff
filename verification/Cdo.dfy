/**
 The CDO loader: a configuration blob is a header and a stream of self-describing commands,
 which `parse_and_apply` interprets into register writes.

 Words are 32-bit and registers are a finite map that reads as zero elsewhere. Commands may
 carry their payload length in the first word (short form) or in a second one (long form).
 */
module Cdo {
  import opened LittleEndian

  type Regs = map<U64, U32>

  const WORDS: int := 0x1_0000_0000

  function Read(regs: Regs, a: U64): U32 {
    if a in regs then regs[a] else 0
  }

  // ----- Register operations ----------------------------------------------------------

  /** `(reg & ~mask) | (val & mask)` */
  function MaskBits(reg: bv32, mask: bv32, val: bv32): bv32 {
    (reg & !mask) | (val & mask)
  }

  /** A masked write takes the bits under the mask from the value and keeps all others. */
  lemma MaskBitsSplit(reg: bv32, mask: bv32, val: bv32)
    ensures MaskBits(reg, mask, val) & mask == val & mask
    ensures MaskBits(reg, mask, val) & !mask == reg & !mask
  {
  }

  function WordBits(x: U32): bv32 {
    x as bv32
  }

  function Masked(reg: U32, mask: U32, val: U32): U32 {
    MaskBits(WordBits(reg), WordBits(mask), WordBits(val)) as int
  }

  function MaskedEquals(reg: U32, mask: U32, value: U32): bool {
    WordBits(reg) & WordBits(mask) == WordBits(value)
  }

  /** How often `cdo_reg_maskpoll` looks before its final check: every 200 microseconds,
      with the rounding-up done in 32 bits. */
  function PollCount(timeout: U32): nat {
    ((timeout + 199) % WORDS) / 200
  }

  /** Where word `i` of a block goes: the offset is computed in 32 bits, the sum in 64. */
  function BlockAddr(base: U64, i: nat): U64 {
    (base + (i * 4) % WORDS) % 0x1_0000_0000_0000_0000
  }

  /** Registers after the first `n` words of a block were written, in order. */
  function BlockWritten(regs: Regs, base: U64, data: seq<U32>, n: nat): Regs
    requires n <= |data|
  {
    if n == 0 then regs else BlockWritten(regs, base, data, n - 1)[BlockAddr(base, n - 1) := data[n - 1]]
  }

  method BlockWrite(regs: Regs, base: U64, data: seq<U32>) returns (out: Regs)
    ensures out == BlockWritten(regs, base, data, |data|)
  {
    out := regs;
    for i := 0 to |data|
      invariant out == BlockWritten(regs, base, data, i)
    {
      out := out[BlockAddr(base, i) := data[i]];
    }
  }

  /** The last of the first `n` words of a block that goes to `a`, or `n` if none does. */
  function LastTo(base: U64, n: nat, a: U64): (k: nat)
    ensures k <= n
    ensures k < n ==> BlockAddr(base, k) == a
    ensures forall j :: k < j < n ==> BlockAddr(base, j) != a
    ensures k == n ==> forall j :: 0 <= j < n ==> BlockAddr(base, j) != a
  {
    if n == 0 then 0
    else if BlockAddr(base, n - 1) == a then n - 1
    else
      var k := LastTo(base, n - 1, a);
      if k == n - 1 then n else k
  }

  /** Every block, of any length and at any address: a register holds the last word that goes
      to it, and keeps its value if none does. */
  lemma {:induction false} BlockLands(regs: Regs, base: U64, data: seq<U32>, n: nat, a: U64)
    requires n <= |data|
    ensures Read(BlockWritten(regs, base, data, n), a)
            == if LastTo(base, n, a) < n then data[LastTo(base, n, a)] else Read(regs, a)
    decreases n
  {
    if n > 0 {
      BlockLands(regs, base, data, n - 1, a);
    }
  }

  /** `a` is one of the first `n` addresses of a block. */
  predicate Hits(base: U64, n: nat, a: U64) {
    base <= a < base + 4 * n && (a - base) % 4 == 0
  }

  lemma HitsLast(base: U64, n: nat, a: U64)
    requires n > 0
    ensures Hits(base, n, a) <==> Hits(base, n - 1, a) || a == base + 4 * (n - 1)
    ensures a == base + 4 * (n - 1) ==> (a - base) / 4 == n - 1 && !Hits(base, n - 1, a)
  {
    DivMod(4 * (n - 1), n - 1, 0, 4);
  }

  lemma BlockAddrIs(base: U64, i: nat)
    requires i < 0x4000_0000 && base + 4 * i < 0x1_0000_0000_0000_0000
    ensures BlockAddr(base, i) == base + 4 * i
  {
  }

  /** A block that its 32-bit offsets can span, and that does not run past the top of the address
      space, lands word by word at four-byte steps, and touches nothing else. */
  lemma {:induction false} BlockLandsInOrder(regs: Regs, base: U64, data: seq<U32>, n: nat, a: U64)
    requires n <= |data| <= 0x4000_0000 && base + 4 * |data| <= 0x1_0000_0000_0000_0000
    ensures Read(BlockWritten(regs, base, data, n), a)
            == if Hits(base, n, a) then data[(a - base) / 4] else Read(regs, a)
    decreases n
  {
    if n > 0 {
      BlockLandsInOrder(regs, base, data, n - 1, a);
      BlockAddrIs(base, n - 1);
      HitsLast(base, n, a);
    }
  }

  // ----- Commands ---------------------------------------------------------------------

  datatype Cmd =
    | Write(addr: U32, val: U32)
    | MaskWrite(addr: U32, mask: U32, val: U32)
    | Write64(addr64: U64, val: U32)
    | MaskWrite64(addr64: U64, mask: U32, val: U32)
    | MaskPoll64(addr64: U64, mask: U32, val: U32, timeout: U32)
    | DmaWrite(addr64: U64, data: seq<U32>)
    | Nop(padding: seq<U32>)

  /** `base` is the device's base address, `cdoBase` the one to strip; `seen(k, i)` is what
      the i-th read of the k-th poll command finds in its register. */
  datatype Env = Env(base: U64, cdoBase: U64, seen: (nat, nat) -> U32)

  function Bits(a: U64): bv64 {
    a as bv64
  }

  /** `cdo_reg_off`, on the bits. */
  function OffBits(x: bv64, cdoBase: bv64, base: bv64): bv64 {
    if x & cdoBase != 0 then (x & !cdoBase) | base else x
  }

  function RegOff(env: Env, a: U64): U64 {
    OffBits(Bits(a), Bits(env.cdoBase), Bits(env.base)) as int
  }

  /** What the description of the loader promises instead: the address with the base stripped. */
  function StripBits(x: bv64, cdoBase: bv64): bv64 {
    x & !cdoBase
  }

  function Stripped(env: Env, a: U64): U64 {
    StripBits(Bits(a), Bits(env.cdoBase)) as int
  }

  /** The address has no bit of the base, or the device's base adds none to what is left. */
  predicate Harmless(x: bv64, cdoBase: bv64, base: bv64) {
    x & cdoBase == 0 || (x & !cdoBase) | base == x & !cdoBase
  }

  lemma NoBits(x: bv64, b: bv64)
    requires x & b == 0
    ensures x & !b == x
  {
  }

  lemma SameBits(x: bv64, y: bv64)
    ensures x as int == y as int <==> x == y
  {
    assert (x as int) as bv64 == x;
  }

  lemma StripBitsIff(x: bv64, cdoBase: bv64, base: bv64)
    ensures OffBits(x, cdoBase, base) == StripBits(x, cdoBase) <==> Harmless(x, cdoBase, base)
  {
    if x & cdoBase == 0 {
      NoBits(x, cdoBase);
    }
  }

  lemma OffBitsIff(x: bv64, cdoBase: bv64, base: bv64)
    ensures OffBits(x, cdoBase, base) as int == StripBits(x, cdoBase) as int <==> Harmless(x, cdoBase, base)
  {
    StripBitsIff(x, cdoBase, base);
    SameBits(OffBits(x, cdoBase, base), StripBits(x, cdoBase));
  }

  /** For every address and both bases, the offset used is the promised one if and only if that
      is so. */
  lemma RegOffIff(env: Env, a: U64)
    ensures RegOff(env, a) == Stripped(env, a) <==> Harmless(Bits(a), Bits(env.cdoBase), Bits(env.base))
  {
    OffBitsIff(Bits(a), Bits(env.cdoBase), Bits(env.base));
  }

  /** An input at which it is not: with the device at 2^41, the register 4 above the base to strip
      becomes the one 4 above the device's. */
  lemma RegOffAddsBase()
    ensures OffBits(0x2_0000_0004, 0x2_0000_0000, 0x200_0000_0000) == 0x200_0000_0004
    ensures StripBits(0x2_0000_0004, 0x2_0000_0000) == 4
  {
  }

  /** One of the reads a poll makes shows the value. */
  predicate PollSees(env: Env, k: nat, timeout: U32, mask: U32, value: U32) {
    exists i: nat :: i <= PollCount(timeout) && MaskedEquals(env.seen(k, i), mask, value)
  }

  /** `cdo_reg_maskpoll`: succeeds exactly if one of its reads shows the value; the last
      chance is the read after the timed-out loop. */
  method MaskPoll(env: Env, k: nat, mask: U32, value: U32, timeout: U32) returns (ok: bool)
    ensures ok <==> PollSees(env, k, timeout, mask, value)
  {
    var count := PollCount(timeout);
    while count > 0
      invariant 0 <= count <= PollCount(timeout)
      invariant forall i: nat :: i < PollCount(timeout) - count ==> !MaskedEquals(env.seen(k, i), mask, value)
    {
      if MaskedEquals(env.seen(k, PollCount(timeout) - count), mask, value) {
        return true;
      }
      count := count - 1;
    }
    return MaskedEquals(env.seen(k, PollCount(timeout)), mask, value);
  }

  datatype Failure = UserError | DriverError | Overrun

  /** Registers and the number of polls made so far. */
  datatype World = World(regs: Regs, polls: nat)

  datatype Outcome = Ok(w: World) | Fail(w: World, why: Failure)

  /** The meaning of a command. Only a poll can fail, and then nothing has changed. */
  function Apply(env: Env, w: World, c: Cmd): Outcome {
    match c
    case Write(a, v) => Ok(w.(regs := w.regs[RegOff(env, a) := v]))
    case Write64(a, v) => Ok(w.(regs := w.regs[RegOff(env, a) := v]))
    case MaskWrite(a, m, v) =>
      var r := RegOff(env, a);
      Ok(w.(regs := w.regs[r := Masked(Read(w.regs, r), m, v)]))
    case MaskWrite64(a, m, v) =>
      var r := RegOff(env, a);
      Ok(w.(regs := w.regs[r := Masked(Read(w.regs, r), m, v)]))
    case MaskPoll64(_, m, v, t) =>
      if PollSees(env, w.polls, t, m, v)
      then Ok(w.(polls := w.polls + 1)) else Fail(w, DriverError)
    case DmaWrite(a, data) => Ok(w.(regs := BlockWritten(w.regs, RegOff(env, a), data, |data|)))
    case Nop(_) => Ok(w)
  }

  type Executor = (World, Cmd) -> Outcome

  function Execute(env: Env): Executor {
    (w: World, c: Cmd) => Apply(env, w, c)
  }

  /** The meaning of a list: in order, up to the first failure. */
  function ApplyAll(exec: Executor, w: World, cs: seq<Cmd>): Outcome
    decreases |cs|
  {
    if cs == [] then Ok(w)
    else
      var r := exec(w, cs[0]);
      if r.Fail? then r else ApplyAll(exec, r.w, cs[1..])
  }

  function Id(c: Cmd): Byte {
    match c
    case MaskWrite(_, _, _) => 2
    case Write(_, _) => 3
    case DmaWrite(_, _) => 5
    case MaskPoll64(_, _, _, _) => 6
    case MaskWrite64(_, _, _) => 7
    case Write64(_, _) => 8
    case Nop(_) => 17
  }

  function High(a: U64): U32 { a / WORDS }
  function Low(a: U64): U32 { a % WORDS }
  function Join(hi: U32, lo: U32): U64 { hi * WORDS + lo }

  function Payload(c: Cmd): seq<U32> {
    match c
    case Write(a, v) => [a, v]
    case MaskWrite(a, m, v) => [a, m, v]
    case Write64(a, v) => [High(a), Low(a), v]
    case MaskWrite64(a, m, v) => [High(a), Low(a), m, v]
    case MaskPoll64(a, m, v, t) => [High(a), Low(a), m, v, t]
    case DmaWrite(a, data) => [High(a), Low(a)] + data
    case Nop(p) => p
  }

  /** Sizes a command header can express. */
  predicate Fits(c: Cmd) {
    |Payload(c)| + 2 < WORDS
  }

  /** How a command is written down: in the long form or, where the length allows it, in the
      short form; and what the two unused bytes of the first word hold. */
  datatype Form = Form(long: bool, low: Byte, high: Byte)

  function FirstWord(id: Byte, len: Byte, f: Form): U32 {
    id + 0x100 * f.low + 0x1_0000 * len + 0x100_0000 * f.high
  }

  predicate IsLong(c: Cmd, f: Form) {
    f.long || |Payload(c)| >= 255
  }

  function EncodeCmd(c: Cmd, f: Form): seq<U32>
    requires Fits(c)
  {
    if IsLong(c, f) then [FirstWord(Id(c), 255, f), |Payload(c)|] + Payload(c)
    else [FirstWord(Id(c), |Payload(c)|, f)] + Payload(c)
  }

  // ----- The interpreter --------------------------------------------------------------

  datatype Body = Bad(why: Failure) | Good(c: Cmd)

  /** What the loop finds at a position. A read past the end of the blob has no meaning in the
      source and is reported as `Overrun`. */
  datatype Parsed = NoHeader | At(size: nat, body: Body)

  function ParseBody(id: int, len: nat, p: seq<U32>): Body {
    if id == 3 then
      if |p| < 2 then Bad(Overrun) else Good(Write(p[0], p[1]))
    else if id == 2 then
      if |p| < 3 then Bad(Overrun) else Good(MaskWrite(p[0], p[1], p[2]))
    else if id == 8 then
      if |p| < 3 then Bad(Overrun) else Good(Write64(Join(p[0], p[1]), p[2]))
    else if id == 7 then
      if |p| < 4 then Bad(Overrun) else Good(MaskWrite64(Join(p[0], p[1]), p[2], p[3]))
    else if id == 6 then
      if len < 5 then Bad(UserError)
      else if |p| < 5 then Bad(Overrun)
      else Good(MaskPoll64(Join(p[0], p[1]), p[2], p[3], p[4]))
    else if id == 5 then
      if len < 2 then Bad(UserError)
      else if |p| < len then Bad(Overrun)
      else Good(DmaWrite(Join(p[0], p[1]), p[2..len]))
    else if id == 17 then Good(Nop(if len <= |p| then p[..len] else p))
    else Bad(UserError)
  }

  /** `decode_cmd` on the words from here to the end of the blob, then the switch on the
      command id. Sizes are computed in 32 bits, and command words are read without regard to
      where the command claims to end. */
  function ParseHead(rest: seq<U32>): Parsed {
    if rest == [] then NoHeader
    else
      var short := (rest[0] / 0x1_0000) % 256;
      if short < 255 then At(1 + short, ParseBody(rest[0] % 256, short, rest[1..]))
      else if |rest| < 2 then NoHeader
      else At((2 + rest[1]) % WORDS, ParseBody(rest[0] % 256, rest[1], rest[2..]))
  }

  type Parser = seq<U32> -> Parsed

  const TheParser: Parser := (rest: seq<U32>) => ParseHead(rest)

  /** The loop, as a function of the words from here on and of how many of them remain. */
  function Interpret(exec: Executor, parse: Parser, rest: seq<U32>, remaining: nat, w: World): Outcome
    requires remaining <= |rest|
    decreases remaining
  {
    if remaining == 0 then Ok(w)
    else
      match parse(rest)
      case NoHeader => Fail(w, Overrun)
      case At(size, body) =>
        if size == 0 || size > remaining then Fail(w, UserError)
        else if body.Bad? then Fail(w, body.why)
        else
          var r := exec(w, body.c);
          if r.Fail? then r else Interpret(exec, parse, rest[size..], remaining - size, r.w)
  }

  const HEADER: int := 5
  const MAGIC: U32 := 0x004F4443

  /** The complement of the sum of the first four words, in 32 bits. */
  function Checksum(a: U32, b: U32, c: U32, d: U32): U32 {
    WORDS - 1 - (a + b + c + d) % WORDS
  }

  predicate HeaderOk(words: seq<U32>) {
    && |words| > HEADER
    && words[1] == MAGIC
    && words[4] == Checksum(words[0], words[1], words[2], words[3])
    && words[3] <= |words| - HEADER
  }

  function LoadWith(exec: Executor, parse: Parser, words: seq<U32>, w: World): Outcome {
    if !HeaderOk(words) then Fail(w, UserError) else Interpret(exec, parse, words[HEADER..], words[3], w)
  }

  function Load(env: Env, words: seq<U32>, w: World): Outcome {
    LoadWith(Execute(env), TheParser, words, w)
  }

  /** The checks `parse_and_apply` makes before it reads a command. */
  method CheckHeader(words: seq<U32>) returns (ok: bool)
    ensures ok <==> HeaderOk(words)
  {
    if |words| <= HEADER || words[1] != MAGIC {
      return false;
    }
    var sum: int := 0;
    for i := 0 to HEADER - 1
      invariant sum == Sum(words, i) % WORDS
    {
      sum := (sum + words[i]) % WORDS;
    }
    assert Sum(words, 4) == words[0] as int + words[1] + words[2] + words[3] by {
      assert Sum(words, 2) == words[0] as int + words[1];
    }
    return WORDS - 1 - sum == words[4] && words[3] <= |words| - HEADER;
  }

  ghost function Sum(words: seq<U32>, n: nat): int
    requires n <= |words|
  {
    if n == 0 then 0 else Sum(words, n - 1) + words[n - 1]
  }

  /** `parse_and_apply`. The words still to be read strictly decrease, so it always ends. */
  method ParseAndApply(env: Env, words: seq<U32>, start: World) returns (r: Outcome)
    ensures r == Load(env, words, start)
  {
    var ok := CheckHeader(words);
    if !ok {
      return Fail(start, UserError);
    }
    r := RunCommands(env, TheParser, words[HEADER..], words[3], start);
  }

  method RunCommands(env: Env, parse: Parser, words: seq<U32>, count: nat, start: World) returns (r: Outcome)
    requires count <= |words|
    ensures r == Interpret(Execute(env), parse, words, count, start)
  {
    hide Apply;
    var w: World, buf, remaining: nat := start, words, count;
    while remaining != 0
      invariant remaining <= |buf|
      invariant Interpret(Execute(env), parse, buf, remaining, w) == Interpret(Execute(env), parse, words, count, start)
      decreases remaining
    {
      var cmd := parse(buf);
      if cmd.NoHeader? {
        return Fail(w, Overrun);
      }
      if cmd.size == 0 || cmd.size > remaining {
        return Fail(w, UserError);
      }
      if cmd.body.Bad? {
        return Fail(w, cmd.body.why);
      }
      r := ApplyOne(env, w, cmd.body.c);
      if r.Fail? {
        return;
      }
      w, buf, remaining := r.w, buf[cmd.size..], remaining - cmd.size;
    }
    return Ok(w);
  }

  /** The register access of one command, with its loops. */
  method ApplyOne(env: Env, w: World, c: Cmd) returns (r: Outcome)
    ensures r == Apply(env, w, c)
  {
    match c {
      case DmaWrite(a, data) =>
        var regs := BlockWrite(w.regs, RegOff(env, a), data);
        return Ok(w.(regs := regs));
      case MaskPoll64(_, m, v, t) =>
        var ok := MaskPoll(env, w.polls, m, v, t);
        return if ok then Ok(w.(polls := w.polls + 1)) else Fail(w, DriverError);
      case Write(a, v) =>
        return Ok(w.(regs := w.regs[RegOff(env, a) := v]));
      case Write64(a, v) =>
        return Ok(w.(regs := w.regs[RegOff(env, a) := v]));
      case MaskWrite(a, m, v) =>
        var regs := MaskWriteReg(w.regs, RegOff(env, a), m, v);
        return Ok(w.(regs := regs));
      case MaskWrite64(a, m, v) =>
        var regs := MaskWriteReg(w.regs, RegOff(env, a), m, v);
        return Ok(w.(regs := regs));
      case Nop(_) => return Ok(w);
    }
  }

  /** `cdo_reg_maskwrite32_raw`: read, modify, write back; no other register changes. */
  method MaskWriteReg(regs: Regs, r: U64, mask: U32, val: U32) returns (out: Regs)
    ensures forall a: U64 :: Read(out, a) == if a == r then Masked(Read(regs, r), mask, val) else Read(regs, a)
    ensures out == regs[r := Masked(Read(regs, r), mask, val)]
  {
    var reg := Read(regs, r);
    out := regs[r := Masked(reg, mask, val)];
  }

  // ----- Encoded lists ----------------------------------------------------------------

  /** A command together with the form it is written in. */
  datatype Coded = Coded(c: Cmd, f: Form)

  type Line = l: Coded | Fits(l.c) witness Coded(Nop([]), Form(false, 0, 0))

  function Cmds(ls: seq<Line>): (cs: seq<Cmd>)
    ensures |cs| == |ls|
    ensures forall i :: 0 <= i < |ls| ==> cs[i] == ls[i].c
  {
    seq(|ls|, i requires 0 <= i < |ls| => ls[i].c)
  }

  function Code(l: Line): (ws: seq<U32>)
    ensures |ws| > 0
  {
    EncodeCmd(l.c, l.f)
  }

  type Coder = Line -> seq<U32>

  const TheCoder: Coder := (l: Line) => Code(l)

  function EncodeWith(code: Coder, ls: seq<Line>): seq<U32> {
    if ls == [] then [] else code(ls[0]) + EncodeWith(code, ls[1..])
  }

  function EncodeAll(ls: seq<Line>): seq<U32> {
    EncodeWith(TheCoder, ls)
  }

  lemma FirstWordFields(id: Byte, len: Byte, f: Form)
    ensures FirstWord(id, len, f) % 256 == id
    ensures (FirstWord(id, len, f) / 0x1_0000) % 256 == len
  {
    var w := FirstWord(id, len, f);
    DivMod(w, f.low + 0x100 * len + 0x1_0000 * f.high, id, 0x100);
    DivMod(w, len + 0x100 * f.high, id + 0x100 * f.low, 0x1_0000);
    DivMod(len + 0x100 * f.high, f.high, len, 0x100);
  }

  lemma BodyRoundTrip(c: Cmd, post: seq<U32>)
    requires Fits(c)
    ensures ParseBody(Id(c), |Payload(c)|, Payload(c) + post) == Good(c)
  {
    var p := Payload(c) + post;
    match c {
      case DmaWrite(a, data) => assert p[2..|Payload(c)|] == data;
      case Nop(q) => assert p[..|q|] == q;
      case _ =>
    }
  }

  /** A command is found where it was put, whatever follows it, in either form. */
  lemma ParseEncoded(l: Line, post: seq<U32>)
    ensures ParseHead(Code(l) + post) == At(|Code(l)|, Good(l.c))
  {
    var c, f := l.c, l.f;
    var words := Code(l) + post;
    BodyRoundTrip(c, post);
    if IsLong(c, f) {
      FirstWordFields(Id(c), 255, f);
      assert words[2..] == Payload(c) + post;
    } else {
      FirstWordFields(Id(c), |Payload(c)|, f);
      assert words[1..] == Payload(c) + post;
    }
  }

  /** A parser that reads back what a coder writes. */
  ghost predicate Inverse(parse: Parser, code: Coder) {
    forall l: Line, post: seq<U32> ::
      |code(l)| > 0 && parse(code(l) + post) == At(|code(l)|, Good(l.c))
  }

  lemma ParserInvertsCoder()
    ensures Inverse(TheParser, TheCoder)
  {
    forall l: Line, post: seq<U32>
      ensures |TheCoder(l)| > 0 && TheParser(TheCoder(l) + post) == At(|TheCoder(l)|, Good(l.c))
    {
      ParseEncoded(l, post);
    }
  }

  /** One command is interpreted, and what follows it next. */
  lemma InterpretOne(exec: Executor, parse: Parser, code: Coder, l: Line, post: seq<U32>, remaining: nat, w: World)
    requires Inverse(parse, code) && |code(l)| <= remaining <= |code(l)| + |post|
    ensures var r := exec(w, l.c);
            Interpret(exec, parse, code(l) + post, remaining, w)
            == if r.Fail? then r else Interpret(exec, parse, post, remaining - |code(l)|, r.w)
  {
    assert (code(l) + post)[|code(l)|..] == post;
  }

  lemma ApplyFirst(exec: Executor, w: World, ls: seq<Line>)
    requires ls != []
    ensures var r := exec(w, ls[0].c);
            ApplyAll(exec, w, Cmds(ls)) == if r.Fail? then r else ApplyAll(exec, r.w, Cmds(ls[1..]))
  {
    assert Cmds(ls)[1..] == Cmds(ls[1..]);
    assert Cmds(ls)[0] == ls[0].c;
  }

  /** Interpreting an encoded list is applying it; what follows is interpreted next, and not
      at all if a command of the list failed. */
  lemma {:induction false} InterpretEncoded(exec: Executor, parse: Parser, code: Coder, ls: seq<Line>,
                                            post: seq<U32>, extra: nat, w: World)
    requires Inverse(parse, code) && extra <= |post|
    ensures var r := ApplyAll(exec, w, Cmds(ls));
            Interpret(exec, parse, EncodeWith(code, ls) + post, |EncodeWith(code, ls)| + extra, w)
            == if r.Fail? then r else Interpret(exec, parse, post, extra, r.w)
    decreases |ls|
  {
    if ls == [] {
      assert EncodeWith(code, ls) + post == post;
    } else {
      hide Interpret, ApplyAll, Cmds, Inverse;
      var first, rest := code(ls[0]), EncodeWith(code, ls[1..]);
      assert EncodeWith(code, ls) + post == first + (rest + post);
      ApplyFirst(exec, w, ls);
      InterpretOne(exec, parse, code, ls[0], rest + post, |first| + |rest| + extra, w);
      var r := exec(w, ls[0].c);
      if r.Ok? {
        InterpretEncoded(exec, parse, code, ls[1..], post, extra, r.w);
      }
    }
  }

  function Header(count: U32, version: U32, n: U32): seq<U32> {
    [count, MAGIC, version, n, Checksum(count, MAGIC, version, n)]
  }

  /** A blob: header, encoded commands, and whatever follows them. */
  function Blob(count: U32, version: U32, enc: seq<U32>, trailing: seq<U32>): seq<U32>
    requires |enc| < WORDS
  {
    Header(count, version, |enc|) + enc + trailing
  }

  lemma BlobParts(count: U32, version: U32, enc: seq<U32>, trailing: seq<U32>)
    requires |enc| < WORDS
    ensures var words := Blob(count, version, enc, trailing);
            && |words| == HEADER + |enc| + |trailing|
            && words[3] == |enc| && words[HEADER..] == enc + trailing
            && (HeaderOk(words) <==> |enc| + |trailing| > 0)
  {
  }

  lemma LoadEncodedWith(exec: Executor, parse: Parser, code: Coder, count: U32, version: U32,
                        ls: seq<Line>, trailing: seq<U32>, w: World)
    requires Inverse(parse, code) && |EncodeWith(code, ls)| < WORDS
    ensures LoadWith(exec, parse, Blob(count, version, EncodeWith(code, ls), trailing), w)
            == if ls == [] && trailing == [] then Fail(w, UserError) else ApplyAll(exec, w, Cmds(ls))
  {
    BlobParts(count, version, EncodeWith(code, ls), trailing);
    InterpretEncoded(exec, parse, code, ls, trailing, 0, w);
    if ls != [] {
      assert parse(code(ls[0]) + []).At?;
    }
  }

  /** Round trip: for every list of commands, in any mix of short and long forms, the encoded
      blob is accepted exactly if it has a word after its header, and then loading it has the
      effect of the list, in order, up to the first poll that fails. */
  lemma LoadEncoded(env: Env, count: U32, version: U32, ls: seq<Line>, trailing: seq<U32>, w: World)
    requires |EncodeAll(ls)| < WORDS
    ensures Load(env, Blob(count, version, EncodeAll(ls), trailing), w)
            == if ls == [] && trailing == [] then Fail(w, UserError) else ApplyAll(Execute(env), w, Cmds(ls))
  {
    ParserInvertsCoder();
    LoadEncodedWith(Execute(env), TheParser, TheCoder, count, version, ls, trailing, w);
  }

  /** Commands that stand one after another at the start of `words`, and what follows. */
  predicate Stand(parse: Parser, words: seq<U32>, cs: seq<Cmd>, rest: seq<U32>)
    decreases |cs|
  {
    if cs == [] then words == rest
    else && parse(words).At? && parse(words).size <= |words| && parse(words).body == Good(cs[0])
         && Stand(parse, words[parse(words).size..], cs[1..], rest)
  }

  /** Prefix semantics, for every blob whatever its words: the loader has applied, completely
      and in order, the commands that stand at the start of the stream; it succeeded if they
      used up the stream, and otherwise it failed at the next one, with none of its effect. */
  lemma {:induction false} OnlyWholeCommands(exec: Executor, parse: Parser, words: seq<U32>, remaining: nat, w: World)
    returns (done: seq<Cmd>, rest: seq<U32>, left: nat)
    requires remaining <= |words|
    requires forall v, c :: exec(v, c).Fail? ==> exec(v, c).w == v
    ensures Stand(parse, words, done, rest)
    ensures left <= |rest| && |words| - |rest| == remaining - left
    ensures var r := Interpret(exec, parse, words, remaining, w);
            && ApplyAll(exec, w, done) == Ok(r.w)
            && (r.Ok? <==> left == 0)
            && Interpret(exec, parse, rest, left, r.w) == r
    decreases remaining
  {
    done, rest, left := [], words, remaining;
    var p := parse(words);
    if remaining > 0 && p.At? && 0 < p.size <= remaining && p.body.Good? {
      var r := exec(w, p.body.c);
      if r.Ok? {
        done, rest, left := OnlyWholeCommands(exec, parse, words[p.size..], remaining - p.size, r.w);
        done := [p.body.c] + done;
      }
    }
  }

  /** The commands themselves are atomic: one that fails has changed nothing. */
  lemma FailureChangesNothing(env: Env, w: World, c: Cmd)
    ensures Execute(env)(w, c).Fail? ==> Execute(env)(w, c).w == w && c.MaskPoll64?
  {
  }

  /** So, for every blob: either its header is refused and nothing happens, or the commands at
      the start of its stream took full effect in order, the load succeeded if they are all of
      it, and otherwise it failed at the next one, which did nothing. */
  lemma LoadAppliesAPrefix(env: Env, words: seq<U32>, w: World)
    returns (done: seq<Cmd>, rest: seq<U32>, left: nat)
    ensures var r := Load(env, words, w);
            if !HeaderOk(words) then r == Fail(w, UserError)
            else && Stand(TheParser, words[HEADER..], done, rest)
                 && left <= |rest| && |words| - HEADER - |rest| == words[3] - left
                 && ApplyAll(Execute(env), w, done) == Ok(r.w)
                 && (r.Ok? <==> left == 0)
                 && (r.Fail? ==> Interpret(Execute(env), TheParser, rest, left, r.w) == r)
  {
    done, rest, left := [], [], 0;
    if HeaderOk(words) {
      forall v, c
        ensures Execute(env)(v, c).Fail? ==> Execute(env)(v, c).w == v
      {
        FailureChangesNothing(env, v, c);
      }
      done, rest, left := OnlyWholeCommands(Execute(env), TheParser, words[HEADER..], words[3], w);
    }
  }
}
