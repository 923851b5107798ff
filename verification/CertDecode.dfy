/**
 The other end of the CERT host queue: what a microcontroller that follows the documented
 packet format makes of device memory, and that it recovers from each of the three encodings
 exactly the columns and code that were submitted.
 */
module CertDecode {
  import opened LittleEndian
  import opened CertPacket

  /** Device memory, by address. */
  type Memory = nat -> Byte

  function Load(mem: Memory, a: nat, n: nat): (bs: seq<Byte>)
    ensures |bs| == n
  {
    seq<Byte>(n, i requires 0 <= i => mem(a + i))
  }

  ghost predicate Holds(mem: Memory, a: nat, bs: seq<Byte>) {
    Load(mem, a, |bs|) == bs
  }

  lemma HoldsPart(mem: Memory, a: nat, before: seq<Byte>, bs: seq<Byte>, after: seq<Byte>)
    requires Holds(mem, a, before + bs + after)
    ensures Holds(mem, a + |before|, bs)
  {
    var all := before + bs + after;
    forall i | 0 <= i < |bs|
      ensures Load(mem, a + |before|, |bs|)[i] == bs[i]
    {
      assert Load(mem, a, |all|)[|before| + i] == all[|before| + i];
    }
  }

  lemma HoldsSlice(mem: Memory, a: nat, bs: seq<Byte>, i: nat, j: nat)
    requires Holds(mem, a, bs) && i <= j <= |bs|
    ensures Holds(mem, a + i, bs[i..j])
  {
    assert bs[..i] + bs[i..j] + bs[j..] == bs;
    HoldsPart(mem, a, bs[..i], bs[i..j], bs[j..]);
  }

  // ----- The documented format --------------------------------------------------------

  function U16At(mem: Memory, a: nat): U16 {
    Spans();
    Decode(Load(mem, a, 2))
  }

  function U32At(mem: Memory, a: nat): U32 {
    Spans();
    Decode(Load(mem, a, 4))
  }

  function U64At(mem: Memory, a: nat): U64 {
    U32At(mem, a) + P32 * U32At(mem, a + 4)
  }

  function HeaderAt(mem: Memory, a: nat): Header {
    Header(mem(a), U16At(mem, a + 2), U16At(mem, a + 4), mem(a + 6), mem(a + 7))
  }

  function ExecAt(mem: Memory, a: nat): Exec {
    Exec(U64At(mem, a + 4), Args(U64At(mem, a + 16), U16At(mem, a + 12)))
  }

  function EntryAt(mem: Memory, a: nat): Entry {
    var w := U32At(mem, a + 4);
    Entry(w / P25, U32At(mem, a) + P32 * (w % P25))
  }

  /** An exec buffer for a microcontroller. */
  datatype Job = Job(uc: int, exec: Exec)

  datatype Jobs = Bad | Jobs(list: seq<Job>)

  /** The jobs of `n` readers, in order, or none if one of them fails. */
  function Gather(reader: nat -> Jobs, n: nat): Jobs {
    if n == 0 then Jobs([])
    else
      var rest, last := Gather(reader, n - 1), reader(n - 1);
      if rest.Bad? || last.Bad? then Bad else Jobs(rest.list + last.list)
  }

  /** What follows a header at `body`: an exec buffer, or a table of entries. `levels` more
      levels of tables may follow; only a packet that is all in its slot is not distributed. */
  function Follow(mem: Memory, uc: int, h: Header, body: nat, levels: nat): Jobs
    decreases levels, 0
  {
    if h.typ != 0 || h.opcode != 1 || h.distribute != (if levels == 2 && h.indirect == 0 then 0 else 1) then Bad
    else if h.indirect == 0 then
      if h.count == EXEC_SIZE then Jobs([Job(uc, ExecAt(mem, body))]) else Bad
    else if levels == 0 then Bad
    else Gather(Table(mem, body, levels - 1), h.count / ENTRY_SIZE)
  }

  function FollowEntry(mem: Memory, e: Entry, levels: nat): Jobs
    decreases levels, 1
  {
    Follow(mem, e.uc, HeaderAt(mem, e.addr), e.addr + HEADER_SIZE, levels)
  }

  function Table(mem: Memory, table: nat, levels: nat): nat -> Jobs
    decreases levels, 2
  {
    (i: nat) => FollowEntry(mem, EntryAt(mem, table + ENTRY_SIZE * i), levels)
  }

  /** Where the completion of a slot's packet is to be signalled. */
  function SignalAt(mem: Memory, a: nat): U64 {
    U64At(mem, a + 8)
  }

  /** A queue slot. The queue belongs to the microcontroller of column 0. */
  function ReadSlot(mem: Memory, a: nat): Jobs {
    Follow(mem, 0, HeaderAt(mem, a), a + XRT_HEADER_SIZE, 2)
  }

  // ----- Structures round trip --------------------------------------------------------

  lemma Read16(mem: Memory, a: nat, n: U16)
    requires Holds(mem, a, Encode(n, 2))
    ensures U16At(mem, a) == n
  {
    DecodeEncode16(n);
  }

  lemma Read32(mem: Memory, a: nat, n: U32)
    requires Holds(mem, a, Encode(n, 4))
    ensures U32At(mem, a) == n
  {
    DecodeEncode32(n);
  }

  lemma Read64(mem: Memory, a: nat, n: U64)
    requires Holds(mem, a, Encode(n % P32, 4)) && Holds(mem, a + 4, Encode(n / P32, 4))
    ensures U64At(mem, a) == n
  {
    Read32(mem, a, n % P32);
    Read32(mem, a + 4, n / P32);
  }

  /** Eight bytes that were written as one number. */
  lemma Read8(mem: Memory, a: nat, n: U64)
    requires Holds(mem, a, Encode(n, 8))
    ensures U64At(mem, a) == n
  {
    var x, y := Load(mem, a, 4), Load(mem, a + 4, 4);
    assert Load(mem, a, 8) == x + y;
    DecodeParts(x, y);
    DecodeEncode64(n);
    Spans();
  }

  lemma HeaderRead(mem: Memory, a: nat, h: Header, flags: Byte)
    requires Holds(mem, a, HeaderBytes(h, flags))
    ensures HeaderAt(mem, a) == h
  {
    var bs := HeaderBytes(h, flags);
    HoldsSlice(mem, a, bs, 2, 4);
    HoldsSlice(mem, a, bs, 4, 6);
    assert bs[2..4] == Encode(h.opcode, 2) && bs[4..6] == Encode(h.count, 2);
    Read16(mem, a + 2, h.opcode);
    Read16(mem, a + 4, h.count);
    var l := Load(mem, a, 8);
    assert l[0] == bs[0] && l[6] == bs[6] && l[7] == bs[7];
  }

  lemma ExecParts(e: Exec)
    ensures var bs := ExecBytes(e);
            && bs[4..8] == Encode(e.code % P32, 4) && bs[8..12] == Encode(e.code / P32, 4)
            && bs[12..14] == Encode(e.args.len, 2)
            && bs[16..20] == Encode(e.args.addr % P32, 4) && bs[20..24] == Encode(e.args.addr / P32, 4)
  {
  }

  lemma ExecRead(mem: Memory, a: nat, e: Exec)
    requires Holds(mem, a, ExecBytes(e))
    ensures ExecAt(mem, a) == e
  {
    var bs := ExecBytes(e);
    ExecParts(e);
    HoldsSlice(mem, a, bs, 4, 8);
    HoldsSlice(mem, a, bs, 8, 12);
    Read64(mem, a + 4, e.code);
    HoldsSlice(mem, a, bs, 12, 14);
    Read16(mem, a + 12, e.args.len);
    HoldsSlice(mem, a, bs, 16, 20);
    HoldsSlice(mem, a, bs, 20, 24);
    Read64(mem, a + 16, e.args.addr);
  }

  lemma EntryRead(mem: Memory, a: nat, low: U32, high: nat, uc: nat)
    requires high < P25 && uc < 128
    requires Holds(mem, a, Encode(low, 4) + Encode(high + P25 * uc, 4))
    ensures EntryAt(mem, a) == Entry(uc, low + P32 * high)
  {
    var x, y := Encode(low, 4), Encode(high + P25 * uc, 4);
    HoldsSlice(mem, a, x + y, 0, 4);
    HoldsSlice(mem, a, x + y, 4, 8);
    assert (x + y)[0..4] == x && (x + y)[4..8] == y;
    Read32(mem, a, low);
    Read32(mem, a + 4, high + P25 * uc);
  }

  /** What an entry can name: a column below 128, an address below 2^57 whose low word is
      below 2^25. */
  predicate Fits(col: int, addr: nat) {
    0 <= col < 128 && addr % P32 < P25 && addr < P57
  }

  /** An entry leads to its column and its exec block if and only if it can name them. */
  lemma EntryIff(mem: Memory, a: nat, col: int, addr: nat)
    requires Holds(mem, a, EntryBytes(col, addr))
    ensures EntryAt(mem, a).uc == col && EntryAt(mem, a).addr == addr <==> Fits(col, addr)
  {
    EntrySeen(mem, a, col, addr);
    Masked(addr);
  }

  lemma EntrySeen(mem: Memory, a: nat, col: int, addr: nat)
    requires Holds(mem, a, EntryBytes(col, addr))
    ensures EntryAt(mem, a) == Entry(col % 128, addr % P32 % P25 + P32 * (addr / P32 % P25))
  {
    EntryRead(mem, a, addr % P32 % P25, addr / P32 % P25, col % 128);
  }

  lemma Masked(addr: nat)
    ensures addr % P32 % P25 + P32 * (addr / P32 % P25) == addr <==> addr % P32 < P25 && addr < P57
  {
    var low, high := addr % P32, addr / P32;
    assert addr == low + P32 * high;
    if low < P25 && high < P25 {
      assert low % P25 == low && high % P25 == high;
    }
  }

  /** The entry to the second level needs only an address below 2^57. */
  lemma FirstEntryIff(mem: Memory, a: nat, addr: nat)
    requires Holds(mem, a, FirstEntryBytes(addr))
    ensures EntryAt(mem, a).addr == addr <==> addr < P57
  {
    EntryRead(mem, a, addr % P32, addr / P32 % P25, 0);
    var low, high := addr % P32, addr / P32;
    assert addr == low + P32 * high;
  }

  // ----- Tables -----------------------------------------------------------------------

  lemma {:induction false} GatherAll(reader: nat -> Jobs, jobs: seq<Job>)
    requires forall i :: 0 <= i < |jobs| ==> reader(i) == Jobs([jobs[i]])
    ensures Gather(reader, |jobs|) == Jobs(jobs)
    decreases |jobs|
  {
    if jobs != [] {
      var n := |jobs| - 1;
      GatherAll(reader, jobs[..n]);
      assert jobs[..n] + [jobs[n]] == jobs;
    }
  }

  /** A common header, and two stretches after it. */
  lemma EntryBuffer(mem: Memory, a: nat, h: Header, flags: Byte, t: seq<Byte>, b: seq<Byte>)
    requires Holds(mem, a, HeaderBytes(h, flags) + t + b)
    ensures HeaderAt(mem, a) == h && Holds(mem, a + HEADER_SIZE, t) && Holds(mem, a + HEADER_SIZE + |t|, b)
  {
    var x := HeaderBytes(h, flags);
    assert x + t + b == [] + x + (t + b) && x + t + b == (x + t) + b + [];
    HoldsPart(mem, a, [], x, t + b);
    HoldsPart(mem, a, x, t, b);
    HoldsPart(mem, a, x + t, b, []);
    HeaderRead(mem, a, h, flags);
  }

  lemma BlockRead(mem: Memory, e: Entry, x: Exec, levels: nat)
    requires Holds(mem, e.addr, BlockBytes(x)) && levels < 2
    ensures FollowEntry(mem, e, levels) == Jobs([Job(e.uc, x)])
  {
    assert BlockBytes(x) == HeaderBytes(ExecHeader(1), 0) + ExecBytes(x) + [];
    EntryBuffer(mem, e.addr, ExecHeader(1), 0, ExecBytes(x), []);
    ExecRead(mem, e.addr + HEADER_SIZE, x);
  }

  /** Each piece of a sequence of equal pieces is found where it should be. */
  lemma PieceHeld(mem: Memory, a: nat, ss: seq<seq<Byte>>, w: nat, i: nat)
    requires Holds(mem, a, Whole(ss)) && i < |ss| && forall j :: 0 <= j < |ss| ==> |ss[j]| == w
    ensures Holds(mem, a + w * i, ss[i])
  {
    JoinAt(ss, i);
    JoinSize(ss, i, w);
    HoldsSlice(mem, a, Whole(ss), |Join(ss, i)|, |Join(ss, i)| + w);
  }

  /** Entry `i` can name column `i` and its exec block. */
  predicate EntryFits(cs: seq<Column>, first: nat, i: int) {
    0 <= i < |cs| ==> Fits(cs[i].col, first + BLOCK_SIZE * i)
  }

  ghost predicate AllFit(cs: seq<Column>, first: nat) {
    forall i :: EntryFits(cs, first, i)
  }

  function JobsOf(cs: seq<Column>, p: Place): (jobs: seq<Job>)
    ensures |jobs| == |cs|
  {
    seq(|cs|, i requires 0 <= i < |cs| => Job(cs[i].col, ExecOf(cs, i, p)))
  }

  lemma EntryLeads(mem: Memory, a: nat, col: int, addr: nat)
    requires Holds(mem, a, EntryBytes(col, addr)) && Fits(col, addr)
    ensures EntryAt(mem, a) == Entry(col, addr)
  {
    EntryIff(mem, a, col, addr);
  }

  lemma ColumnRead(mem: Memory, table: nat, first: nat, cs: seq<Column>, p: Place, levels: nat, i: nat)
    requires levels < 2
    requires Holds(mem, table, Whole(Entries(cs, first))) && Holds(mem, first, Whole(Blocks(cs, p)))
    requires i < |cs| && Fits(cs[i].col, first + BLOCK_SIZE * i)
    ensures Table(mem, table, levels)(i) == Jobs([Job(cs[i].col, ExecOf(cs, i, p))])
  {
    hide Holds, Whole, EntryAt, FollowEntry, Fits, Offset, BlockBytes, EntryBytes;
    var a, addr := table + ENTRY_SIZE * i, first + BLOCK_SIZE * i;
    PieceHeld(mem, table, Entries(cs, first), ENTRY_SIZE, i);
    PieceHeld(mem, first, Blocks(cs, p), BLOCK_SIZE, i);
    EntryLeads(mem, a, cs[i].col, addr);
    BlockRead(mem, EntryAt(mem, a), ExecOf(cs, i, p), levels);
  }

  lemma ColumnsRead(mem: Memory, table: nat, first: nat, cs: seq<Column>, p: Place, levels: nat)
    requires levels < 2
    requires Holds(mem, table, Whole(Entries(cs, first))) && Holds(mem, first, Whole(Blocks(cs, p)))
    requires AllFit(cs, first)
    ensures Gather(Table(mem, table, levels), |cs|) == Jobs(JobsOf(cs, p))
  {
    var jobs := JobsOf(cs, p);
    forall i | 0 <= i < |cs|
      ensures Table(mem, table, levels)(i) == Jobs([jobs[i]])
    {
      assert EntryFits(cs, first, i);
      ColumnRead(mem, table, first, cs, p, levels, i);
    }
    GatherAll(Table(mem, table, levels), jobs);
  }

  // ----- The three packets ------------------------------------------------------------

  /** A slot: its header, and what comes first after it. */
  lemma SlotParts(mem: Memory, a: nat, h: Header, signal: U64, first: seq<Byte>, rest: seq<Byte>)
    requires Holds(mem, a, XrtHeaderBytes(h, signal) + first + rest)
    ensures HeaderAt(mem, a) == h && Holds(mem, a + XRT_HEADER_SIZE, first)
    ensures SignalAt(mem, a) == signal
  {
    var x, y := HeaderBytes(h, 0), Encode(signal, 8);
    Regroup(x, y, first, rest);
    HoldsPart(mem, a, [], x, y + first + rest);
    assert x + y + first + rest == x + y + (first + rest);
    HoldsPart(mem, a, x, y, first + rest);
    Read8(mem, a + HEADER_SIZE, signal);
    HoldsPart(mem, a, x + y, first, rest);
    HeaderRead(mem, a, h, 0);
  }

  lemma Regroup(x: seq<Byte>, y: seq<Byte>, f: seq<Byte>, z: seq<Byte>)
    ensures x + y + f + z == [] + x + (y + f + z)
  {
  }

  lemma DirectRead(mem: Memory, a: nat, cs: seq<Column>, p: Place)
    requires Holds(mem, a, DirectSlot(cs, p)) && |cs| == 1 && cs[0].col == 0
    ensures SignalAt(mem, a) == p.signal
    ensures ReadSlot(mem, a) == Jobs(JobsOf(cs, p))
  {
    SlotParts(mem, a, ExecHeader(0), p.signal, ExecBytes(ExecOf(cs, 0, p)), Zeros(24));
    ExecRead(mem, a + XRT_HEADER_SIZE, ExecOf(cs, 0, p));
  }

  lemma FollowTableHeader(mem: Memory, uc: int, n: nat, body: nat, levels: nat)
    requires n <= MAX_COLUMNS && levels > 0
    ensures Follow(mem, uc, TableHeader(n), body, levels) == Gather(Table(mem, body, levels - 1), n)
  {
    var h := TableHeader(n);
    DivMod(h.count, n, 0, ENTRY_SIZE);
  }

  lemma FollowTableEntry(mem: Memory, e: Entry, n: nat, levels: nat)
    requires n <= MAX_COLUMNS && levels > 0 && HeaderAt(mem, e.addr) == TableHeader(n)
    ensures FollowEntry(mem, e, levels) == Gather(Table(mem, e.addr + HEADER_SIZE, levels - 1), n)
  {
    FollowTableHeader(mem, e.uc, n, e.addr + HEADER_SIZE, levels);
  }

  /** A slot with a table. */
  lemma TableSlot(mem: Memory, a: nat, n: nat, signal: U64, first: seq<Byte>, rest: seq<Byte>)
    requires n <= MAX_COLUMNS && Holds(mem, a, XrtHeaderBytes(TableHeader(n), signal) + first + rest)
    ensures Holds(mem, a + XRT_HEADER_SIZE, first) && SignalAt(mem, a) == signal
    ensures ReadSlot(mem, a) == Gather(Table(mem, a + XRT_HEADER_SIZE, 1), n)
  {
    SlotParts(mem, a, TableHeader(n), signal, first, rest);
    FollowTableHeader(mem, 0, n, a + XRT_HEADER_SIZE, 2);
  }

  lemma OneLevelRead(mem: Memory, a: nat, cs: seq<Column>, p: Place)
    requires |cs| <= MAX_LEVEL1 && AllFit(cs, p.entries)
    requires Holds(mem, a, OneLevelSlot(cs, p)) && Holds(mem, p.entries, Whole(Blocks(cs, p)))
    ensures SignalAt(mem, a) == p.signal
    ensures ReadSlot(mem, a) == Jobs(JobsOf(cs, p))
  {
    TableSlot(mem, a, |cs|, p.signal, Whole(Entries(cs, p.entries)), Zeros(48 - ENTRY_SIZE * |cs|));
    ColumnsRead(mem, a + XRT_HEADER_SIZE, p.entries, cs, p, 1);
  }

  lemma SecondLevelParts(mem: Memory, cs: seq<Column>, p: Place, flags: Byte, first: nat)
    requires |cs| <= MAX_COLUMNS && first == p.entries + HEADER_SIZE + ENTRY_SIZE * |cs|
    requires Holds(mem, p.entries, TwoLevelEntries(cs, p, flags))
    ensures HeaderAt(mem, p.entries) == TableHeader(|cs|)
    ensures Holds(mem, p.entries + HEADER_SIZE, Whole(Entries(cs, first))) && Holds(mem, first, Whole(Blocks(cs, p)))
  {
    JoinSize(Entries(cs, first), |cs|, ENTRY_SIZE);
    EntryBuffer(mem, p.entries, TableHeader(|cs|), flags, Whole(Entries(cs, first)), Whole(Blocks(cs, p)));
  }

  lemma GatherOne(reader: nat -> Jobs)
    ensures Gather(reader, 1) == reader(0)
  {
    assert Gather(reader, 0) == Jobs([]);
    if reader(0).Jobs? {
      assert [] + reader(0).list == reader(0).list;
    }
  }

  lemma FirstLevelRead(mem: Memory, a: nat, p: Place)
    requires Holds(mem, a, TwoLevelSlot(p)) && p.entries < P57
    ensures var e := EntryAt(mem, a + XRT_HEADER_SIZE); e.addr == p.entries && ReadSlot(mem, a) == FollowEntry(mem, e, 1)
    ensures SignalAt(mem, a) == p.signal
  {
    var table := a + XRT_HEADER_SIZE;
    TableSlot(mem, a, 1, p.signal, FirstEntryBytes(p.entries), Zeros(40));
    FirstEntryIff(mem, table, p.entries);
    GatherOne(Table(mem, table, 1));
  }

  lemma SecondLevelRead(mem: Memory, cs: seq<Column>, p: Place, flags: Byte, first: nat)
    requires |cs| <= MAX_COLUMNS && first == p.entries + HEADER_SIZE + ENTRY_SIZE * |cs| && AllFit(cs, first)
    requires Holds(mem, p.entries, TwoLevelEntries(cs, p, flags))
    ensures HeaderAt(mem, p.entries) == TableHeader(|cs|)
    ensures Gather(Table(mem, p.entries + HEADER_SIZE, 0), |cs|) == Jobs(JobsOf(cs, p))
  {
    SecondLevelParts(mem, cs, p, flags, first);
    ColumnsRead(mem, p.entries + HEADER_SIZE, first, cs, p, 0);
  }

  lemma Through(mem: Memory, a: nat, e: Entry, n: nat, jobs: Jobs)
    requires ReadSlot(mem, a) == FollowEntry(mem, e, 1) && n <= MAX_COLUMNS
    requires HeaderAt(mem, e.addr) == TableHeader(n) && Gather(Table(mem, e.addr + HEADER_SIZE, 0), n) == jobs
    ensures ReadSlot(mem, a) == jobs
  {
    FollowTableEntry(mem, e, n, 1);
  }

  lemma TwoLevelRead(mem: Memory, a: nat, cs: seq<Column>, p: Place, flags: Byte, first: nat)
    requires |cs| <= MAX_COLUMNS && p.entries < P57
    requires first == p.entries + HEADER_SIZE + ENTRY_SIZE * |cs| && AllFit(cs, first)
    requires Holds(mem, a, TwoLevelSlot(p)) && Holds(mem, p.entries, TwoLevelEntries(cs, p, flags))
    ensures SignalAt(mem, a) == p.signal
    ensures ReadSlot(mem, a) == Jobs(JobsOf(cs, p))
  {
    hide HeaderAt, EntryAt, SignalAt, Follow, Gather, Holds, JobsOf, AllFit;
    SecondLevelRead(mem, cs, p, flags, first);
    FirstLevelRead(mem, a, p);
    Through(mem, a, EntryAt(mem, a + XRT_HEADER_SIZE), |cs|, Jobs(JobsOf(cs, p)));
  }
}
