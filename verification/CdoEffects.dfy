/**
 What loading a blob does to the registers, as a reader of the registers sees it, and what the
 words of a blob have to be.
 */
module CdoEffects {
  import opened LittleEndian
  import opened Cdo
  import opened Search

  // ----- The words --------------------------------------------------------------------

  /** A header is accepted if and only if there is a word after it, its second word spells "CDO",
      its five words add up to all ones in 32 bits, and the blob is as long as it says. */
  lemma HeaderIff(words: seq<U32>)
    ensures HeaderOk(words) <==>
            && |words| > 5
            && words[1] == 'C' as int + 0x100 * ('D' as int) + 0x1_0000 * ('O' as int)
            && (words[0] as int + words[1] + words[2] + words[3] + words[4]) % 0x1_0000_0000 == 0xFFFF_FFFF
            && 5 + words[3] <= |words|
  {
    if |words| > 5 {
      var sum := words[0] as int + words[1] + words[2] + words[3];
      ComplementIff(sum, words[4]);
    }
  }

  lemma ComplementIff(sum: nat, w: U32)
    ensures w == WORDS - 1 - sum % WORDS <==> (sum + w) % WORDS == WORDS - 1
  {
    var q, r := sum / WORDS, sum % WORDS;
    assert sum == WORDS * q + r;
    if r + w < WORDS {
      DivMod(sum + w, q, r + w, WORDS);
    } else {
      DivMod(sum + w, q + 1, r + w - WORDS, WORDS);
    }
  }

  /** The commands in their short form, word by word. */
  lemma ShortForms(a: U32, hi: U32, lo: U32, m: U32, v: U32, t: U32, post: seq<U32>)
    ensures ParseHead([0x0003_0002, a, m, v] + post) == At(4, Good(MaskWrite(a, m, v)))
    ensures ParseHead([0x0002_0003, a, v] + post) == At(3, Good(Write(a, v)))
    ensures ParseHead([0x0005_0006, hi, lo, m, v, t] + post) == At(6, Good(MaskPoll64(Join(hi, lo), m, v, t)))
    ensures ParseHead([0x0004_0007, hi, lo, m, v] + post) == At(5, Good(MaskWrite64(Join(hi, lo), m, v)))
    ensures ParseHead([0x0003_0008, hi, lo, v] + post) == At(4, Good(Write64(Join(hi, lo), v)))
    ensures ParseHead([0x0000_0011] + post) == At(1, Good(Nop([])))
  {
    assert ([0x0000_0011] + post)[1..][..0] == [];
  }

  /** A block in its long form. */
  lemma LongBlock(hi: U32, lo: U32, data: seq<U32>, post: seq<U32>)
    requires |data| + 4 < WORDS
    ensures ParseHead([0x00FF_0005, |data| + 2, hi, lo] + data + post) == At(|data| + 4, Good(DmaWrite(Join(hi, lo), data)))
  {
    var words := [0x00FF_0005, |data| + 2, hi, lo] + data + post;
    var body := words[2..];
    assert body[0] == hi && body[1] == lo && body[2..|data| + 2] == data;
  }

  /** A poll looks once for every 200 microseconds or part of them, if and only if its time-out is
      not in the last 199 of 32 bits. */
  lemma PollCountIff(timeout: U32)
    ensures 200 * PollCount(timeout) >= timeout && 200 * PollCount(timeout) < timeout + 200 <==> timeout + 199 < WORDS
  {
  }

  // ----- One command ------------------------------------------------------------------

  /** One register has a new value, and every other one reads as before. */
  ghost predicate OnlySet(before: Regs, after: Regs, r: U64, v: U32) {
    Read(after, r) == v && forall a: U64 :: a != r ==> Read(after, a) == Read(before, a)
  }

  /** The bits under the mask are those of the value, the others those of the old register. */
  predicate SplitBits(before: bv32, after: bv32, mask: bv32, v: bv32) {
    after & mask == v & mask && after & !mask == before & !mask
  }

  predicate MaskedBits(before: U32, after: U32, mask: U32, v: U32) {
    SplitBits(WordBits(before), WordBits(after), WordBits(mask), WordBits(v))
  }

  ghost predicate OnlyMasked(before: Regs, after: Regs, r: U64, mask: U32, v: U32) {
    && MaskedBits(Read(before, r), Read(after, r), mask, v)
    && forall a: U64 :: a != r ==> Read(after, a) == Read(before, a)
  }

  /** Every register holds the last word of the block that goes to it. */
  ghost predicate BlockSet(before: Regs, after: Regs, base: U64, data: seq<U32>) {
    forall a: U64 :: Read(after, a) == if LastTo(base, |data|, a) < |data| then data[LastTo(base, |data|, a)] else Read(before, a)
  }

  /** A read of the register that a poll makes before it gives up shows the value. */
  predicate Seen(env: Env, k: nat, mask: U32, v: U32, timeout: U32) {
    exists i: nat :: i <= PollCount(timeout) && WordBits(env.seen(k, i)) & WordBits(mask) == WordBits(v)
  }

  /** What a command does, as seen in the registers and in the number of polls. */
  ghost predicate Does(env: Env, c: Cmd, w: World, r: Outcome) {
    match c
    case Write(a, v) => r.Ok? && r.w.polls == w.polls && OnlySet(w.regs, r.w.regs, RegOff(env, a), v)
    case Write64(a, v) => r.Ok? && r.w.polls == w.polls && OnlySet(w.regs, r.w.regs, RegOff(env, a), v)
    case MaskWrite(a, m, v) => r.Ok? && r.w.polls == w.polls && OnlyMasked(w.regs, r.w.regs, RegOff(env, a), m, v)
    case MaskWrite64(a, m, v) => r.Ok? && r.w.polls == w.polls && OnlyMasked(w.regs, r.w.regs, RegOff(env, a), m, v)
    case DmaWrite(a, data) => r.Ok? && r.w.polls == w.polls && BlockSet(w.regs, r.w.regs, RegOff(env, a), data)
    case MaskPoll64(_, m, v, t) =>
      if Seen(env, w.polls, m, v, t) then r == Ok(w.(polls := w.polls + 1)) else r == Fail(w, DriverError)
    case Nop(_) => r == Ok(w)
  }

  lemma MaskedIs(reg: U32, mask: U32, val: U32)
    ensures WordBits(Masked(reg, mask, val)) == MaskBits(WordBits(reg), WordBits(mask), WordBits(val))
  {
    hide WordBits, MaskBits;
    Back(MaskBits(WordBits(reg), WordBits(mask), WordBits(val)));
  }

  lemma MaskBitsAreSplit(reg: bv32, mask: bv32, val: bv32)
    ensures SplitBits(reg, MaskBits(reg, mask, val), mask, val)
  {
    MaskBitsSplit(reg, mask, val);
  }

  lemma MaskedSplits(reg: U32, mask: U32, val: U32)
    ensures MaskedBits(reg, Masked(reg, mask, val), mask, val)
  {
    hide WordBits, MaskBits, Masked, SplitBits;
    MaskedIs(reg, mask, val);
    MaskBitsAreSplit(WordBits(reg), WordBits(mask), WordBits(val));
  }

  lemma Back(x: bv32)
    ensures WordBits(x as int) == x
  {
  }

  lemma BlockDoes(before: Regs, base: U64, data: seq<U32>)
    ensures BlockSet(before, BlockWritten(before, base, data, |data|), base, data)
  {
    forall a: U64
      ensures Read(BlockWritten(before, base, data, |data|), a)
              == if LastTo(base, |data|, a) < |data| then data[LastTo(base, |data|, a)] else Read(before, a)
    {
      BlockLands(before, base, data, |data|, a);
    }
  }

  lemma PollDoes(env: Env, k: nat, mask: U32, v: U32, timeout: U32)
    ensures PollSees(env, k, timeout, mask, v) <==> Seen(env, k, mask, v, timeout)
  {
    hide WordBits, PollCount;
    if PollSees(env, k, timeout, mask, v) {
      var i: nat :| i <= PollCount(timeout) && MaskedEquals(env.seen(k, i), mask, v);
    }
    if Seen(env, k, mask, v, timeout) {
      var i: nat :| i <= PollCount(timeout) && WordBits(env.seen(k, i)) & WordBits(mask) == WordBits(v);
      assert MaskedEquals(env.seen(k, i), mask, v);
    }
  }

  lemma CommandDoes(env: Env, w: World, c: Cmd)
    ensures Does(env, c, w, Execute(env)(w, c))
  {
    hide RegOff, Masked, MaskedBits, PollSees, Seen, BlockWritten, BlockSet;
    match c {
      case MaskWrite(a, m, v) => MaskedSplits(Read(w.regs, RegOff(env, a)), m, v);
      case MaskWrite64(a, m, v) => MaskedSplits(Read(w.regs, RegOff(env, a)), m, v);
      case DmaWrite(a, data) => BlockDoes(w.regs, RegOff(env, a), data);
      case MaskPoll64(_, m, v, t) => PollDoes(env, w.polls, m, v, t);
      case _ =>
    }
  }

  lemma OneLine(l: Line)
    ensures EncodeAll([l]) == Code(l) && |Code(l)| < WORDS && Cmds([l]) == [l.c]
  {
    assert [l][1..] == [];
    assert EncodeWith(TheCoder, []) == [];
    assert Code(l) + [] == Code(l);
  }

  /** A blob of one command, in either form and with anything after it, does what the command is
      for: a write sets its register and no other, a masked write its bits and no other, a block
      its words, a poll looks and counts, and a no-op does nothing. */
  lemma LoadOne(env: Env, count: U32, version: U32, l: Line, trailing: seq<U32>, w: World)
    ensures |EncodeAll([l])| < WORDS
    ensures Does(env, l.c, w, Load(env, Blob(count, version, EncodeAll([l]), trailing), w))
  {
    hide Does, Blob, Load, Code;
    OneLine(l);
    LoadEncoded(env, count, version, [l], trailing, w);
    JustOne(Execute(env), w, l.c);
    CommandDoes(env, w, l.c);
  }

  lemma JustOne(exec: Executor, w: World, c: Cmd)
    ensures ApplyAll(exec, w, [c]) == exec(w, c)
  {
    assert [c][1..] == [];
  }

  // ----- Lists ------------------------------------------------------------------------

  /** A command that writes to register `a`. */
  predicate WritesTo(env: Env, c: Cmd, a: U64) {
    match c
    case Write(x, _) => RegOff(env, x) == a
    case Write64(x, _) => RegOff(env, x) == a
    case MaskWrite(x, _, _) => RegOff(env, x) == a
    case MaskWrite64(x, _, _) => RegOff(env, x) == a
    case DmaWrite(x, data) => LastTo(RegOff(env, x), |data|, a) < |data|
    case _ => false
  }

  /** What it leaves there, of what was there before. */
  predicate Leaves(env: Env, c: Cmd, a: U64, before: U32, after: U32)
    requires WritesTo(env, c, a)
  {
    match c
    case Write(_, v) => after == v
    case Write64(_, v) => after == v
    case MaskWrite(_, m, v) => MaskedBits(before, after, m, v)
    case MaskWrite64(_, m, v) => MaskedBits(before, after, m, v)
    case DmaWrite(x, data) => after == data[LastTo(RegOff(env, x), |data|, a)]
  }

  lemma CommandLeaves(env: Env, w: World, c: Cmd, a: U64)
    requires Execute(env)(w, c).Ok?
    ensures var after := Read(Execute(env)(w, c).w.regs, a);
            if WritesTo(env, c, a) then Leaves(env, c, a, Read(w.regs, a), after) else after == Read(w.regs, a)
  {
    CommandDoes(env, w, c);
    hide Execute, RegOff, MaskedBits;
  }

  function Writer(env: Env, a: U64): Cmd -> bool {
    (c: Cmd) => WritesTo(env, c, a)
  }

  /** The registers after the first `n` commands. */
  function After(env: Env, w: World, cs: seq<Cmd>, n: nat): Outcome
    requires n <= |cs|
  {
    ApplyAll(Execute(env), w, cs[..n])
  }

  lemma {:induction false} ApplyLast(exec: Executor, w: World, cs: seq<Cmd>)
    requires cs != []
    ensures var r := ApplyAll(exec, w, cs[..|cs| - 1]);
            ApplyAll(exec, w, cs) == if r.Fail? then r else exec(r.w, cs[|cs| - 1])
    decreases |cs|
  {
    var n := |cs| - 1;
    if n == 0 {
      assert cs[1..] == [];
    } else {
      var r := exec(w, cs[0]);
      assert cs[..n][1..] == cs[1..][..n - 1];
      if r.Ok? {
        ApplyLast(exec, r.w, cs[1..]);
      }
    }
  }

  lemma AfterNext(env: Env, w: World, cs: seq<Cmd>, n: nat)
    requires n < |cs| && After(env, w, cs, n + 1).Ok?
    ensures After(env, w, cs, n).Ok? && After(env, w, cs, n + 1) == Execute(env)(After(env, w, cs, n).w, cs[n])
  {
    assert cs[..n + 1][..n] == cs[..n];
    ApplyLast(Execute(env), w, cs[..n + 1]);
  }

  /** After any list that succeeds, a register is as the last command that wrote to it left it, of
      what it found there, and as before the list if none did. */
  lemma {:induction false} LastWriterDecides(env: Env, w: World, cs: seq<Cmd>, n: nat, a: U64)
    requires n <= |cs| && After(env, w, cs, n).Ok?
    ensures var k, after := Last(cs, n, Writer(env, a)), Read(After(env, w, cs, n).w.regs, a);
            if k < n then WritesTo(env, cs[k], a) && After(env, w, cs, k).Ok? && Leaves(env, cs[k], a, Read(After(env, w, cs, k).w.regs, a), after)
            else after == Read(w.regs, a)
    decreases n
  {
    hide Leaves, WritesTo, After, Execute;
    if n == 0 {
      NothingYet(env, w, cs);
    } else {
      AfterNext(env, w, cs, n - 1);
      CommandLeaves(env, After(env, w, cs, n - 1).w, cs[n - 1], a);
      LastWriterDecides(env, w, cs, n - 1, a);
    }
  }

  lemma NothingYet(env: Env, w: World, cs: seq<Cmd>)
    ensures After(env, w, cs, 0) == Ok(w)
  {
  }

  /** So for the blob of every list: if the load succeeds, every register is as the last command
      that writes to it left it. */
  lemma LoadedRegisters(env: Env, count: U32, version: U32, ls: seq<Line>, trailing: seq<U32>, w: World, a: U64)
    requires |EncodeAll(ls)| < WORDS
    requires Load(env, Blob(count, version, EncodeAll(ls), trailing), w).Ok?
    ensures var cs, r := Cmds(ls), Load(env, Blob(count, version, EncodeAll(ls), trailing), w);
            var k := Last(cs, |cs|, Writer(env, a));
            if k < |cs| then WritesTo(env, cs[k], a) && After(env, w, cs, k).Ok? && Leaves(env, cs[k], a, Read(After(env, w, cs, k).w.regs, a), Read(r.w.regs, a))
            else Read(r.w.regs, a) == Read(w.regs, a)
  {
    hide Leaves, Blob, Load, Execute;
    var cs := Cmds(ls);
    LoadEncoded(env, count, version, ls, trailing, w);
    assert cs[..|cs|] == cs;
    LastWriterDecides(env, w, cs, |cs|, a);
  }
}
