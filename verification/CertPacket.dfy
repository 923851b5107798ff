/**
 Packets of the CERT host queue: what `cert_api::submit_command` writes into a queue slot, the
 entry buffer and the control-code buffer for one, up to six and up to 24 columns, and what a
 microcontroller that follows the documented format reads back.

 A column map is the sequence of its columns in ascending order, the order in which the source
 goes through it. Structures are written out as bytes, little-endian, with bit fields from the
 low end of their word.
 */
module CertPacket {
  import opened LittleEndian

  const HEADER_SIZE := 8
  const XRT_HEADER_SIZE := 16
  const EXEC_SIZE := 24
  const ENTRY_SIZE := 8
  const BLOCK_SIZE := 32
  const SLOT_SIZE := 64
  const MAX_LEVEL1 := 6
  const MAX_COLUMNS := 24

  /** One column and its control code. */
  datatype Column = Column(col: int, code: seq<Byte>)

  // ----- Structures -------------------------------------------------------------------

  datatype Header = Header(typ: Byte, opcode: U16, count: U16, distribute: Byte, indirect: Byte)

  datatype Args = Args(addr: U64, len: U16)

  datatype Exec = Exec(code: U64, args: Args)

  datatype Entry = Entry(uc: nat, addr: nat)

  /** The second byte holds the barrier and fence bits. */
  function HeaderBytes(h: Header, flags: Byte): (bs: seq<Byte>)
    ensures |bs| == HEADER_SIZE
  {
    [h.typ, flags] + Encode(h.opcode, 2) + Encode(h.count, 2) + [h.distribute, h.indirect]
  }

  function XrtHeaderBytes(h: Header, signal: U64): (bs: seq<Byte>)
    ensures |bs| == XRT_HEADER_SIZE
  {
    HeaderBytes(h, 0) + Encode(signal, 8)
  }

  function ExecBytes(e: Exec): (bs: seq<Byte>)
    ensures |bs| == EXEC_SIZE
  {
    Encode(0, 4) + Encode(e.code % P32, 4) + Encode(e.code / P32, 4) +
    Encode(e.args.len, 2) + Encode(0, 2) + Encode(e.args.addr % P32, 4) + Encode(e.args.addr / P32, 4)
  }

  /** The low address word is masked to 25 bits; the high one has a field of 25 bits and the
      column a field of 7. */
  function EntryBytes(col: int, addr: nat): (bs: seq<Byte>)
    ensures |bs| == ENTRY_SIZE
  {
    Encode(addr % P32 % P25, 4) + Encode(addr / P32 % P25 + P25 * (col % 128), 4)
  }

  /** The entry to the second level keeps all 32 bits of the low address word. */
  function FirstEntryBytes(addr: nat): (bs: seq<Byte>)
    ensures |bs| == ENTRY_SIZE
  {
    Encode(addr % P32, 4) + Encode(addr / P32 % P25, 4)
  }

  function ExecHeader(distribute: Byte): Header {
    Header(0, 1, EXEC_SIZE, distribute, 0)
  }

  function TableHeader(n: nat): Header
    requires n <= MAX_COLUMNS
  {
    Header(0, 1, n * ENTRY_SIZE, 1, 1)
  }

  /** A common header and an exec buffer. */
  function BlockBytes(e: Exec): (bs: seq<Byte>)
    ensures |bs| == BLOCK_SIZE
  {
    HeaderBytes(ExecHeader(1), 0) + ExecBytes(e)
  }

  function Zeros(n: nat): (bs: seq<Byte>)
    ensures |bs| == n
  {
    seq<Byte>(n, _ => 0)
  }

  // ----- Layout -----------------------------------------------------------------------

  /** The first `k` pieces, end to end. */
  function Join(ss: seq<seq<Byte>>, k: nat): seq<Byte>
    requires k <= |ss|
  {
    if k == 0 then [] else Join(ss, k - 1) + ss[k - 1]
  }

  /** Pieces of one width. */
  type Pieces8 = ss: seq<seq<Byte>> | forall i :: 0 <= i < |ss| ==> |ss[i]| == ENTRY_SIZE
  type Pieces32 = ss: seq<seq<Byte>> | forall i :: 0 <= i < |ss| ==> |ss[i]| == BLOCK_SIZE

  lemma {:induction false} JoinSize(ss: seq<seq<Byte>>, k: nat, w: nat)
    requires k <= |ss| && forall i :: 0 <= i < |ss| ==> |ss[i]| == w
    ensures |Join(ss, k)| == w * k
  {
    if k > 0 {
      JoinSize(ss, k - 1, w);
    }
  }

  lemma {:induction false} JoinGrows(ss: seq<seq<Byte>>, k: nat, n: nat)
    requires k <= n <= |ss|
    ensures |Join(ss, k)| <= |Join(ss, n)| && Join(ss, n)[..|Join(ss, k)|] == Join(ss, k)
    decreases n
  {
    if k < n {
      JoinGrows(ss, k, n - 1);
    }
  }

  /** Each piece is where the pieces before it end. */
  lemma JoinAt(ss: seq<seq<Byte>>, i: nat)
    requires i < |ss|
    ensures |Join(ss, i)| + |ss[i]| <= |Join(ss, |ss|)|
    ensures Join(ss, |ss|)[|Join(ss, i)|..|Join(ss, i)| + |ss[i]|] == ss[i]
  {
    JoinGrows(ss, i + 1, |ss|);
    var all, upTo := Join(ss, |ss|), Join(ss, i + 1);
    assert all[..|upTo|][|Join(ss, i)|..] == all[|Join(ss, i)|..|upTo|];
  }

  function CodeList(cs: seq<Column>): (ss: seq<seq<Byte>>)
    ensures |ss| == |cs|
  {
    seq(|cs|, i requires 0 <= i < |cs| => cs[i].code)
  }

  /** Where the code of column `i` starts, in the code buffer. */
  function Offset(cs: seq<Column>, i: nat): nat
    requires i <= |cs|
  {
    |Join(CodeList(cs), i)|
  }

  function ExecOf(cs: seq<Column>, i: nat, p: Place): Exec
    requires i <= |cs|
  {
    Exec((p.code + Offset(cs, i)) % P64, p.args)
  }

  function Blocks(cs: seq<Column>, p: Place): (ss: Pieces32)
    ensures |ss| == |cs|
  {
    seq(|cs|, i requires 0 <= i < |cs| => BlockBytes(ExecOf(cs, i, p)))
  }

  /** Entries for exec blocks from `first` on. */
  function Entries(cs: seq<Column>, first: nat): (ss: Pieces8)
    ensures |ss| == |cs|
  {
    seq(|cs|, i requires 0 <= i < |cs| => EntryBytes(cs[i].col, first + BLOCK_SIZE * i))
  }

  function Whole(ss: seq<seq<Byte>>): seq<Byte> {
    Join(ss, |ss|)
  }

  // ----- The three packets ------------------------------------------------------------

  /** Where a submission's buffers and completion signal are, for the device, and the
      arguments it passes. */
  datatype Place = Place(signal: U64, entries: nat, code: nat, args: Args)

  function DirectSlot(cs: seq<Column>, p: Place): seq<Byte> {
    XrtHeaderBytes(ExecHeader(0), p.signal) + ExecBytes(ExecOf(cs, 0, p)) + Zeros(24)
  }

  function OneLevelSlot(cs: seq<Column>, p: Place): seq<Byte>
    requires |cs| <= MAX_LEVEL1
  {
    XrtHeaderBytes(TableHeader(|cs|), p.signal) + Whole(Entries(cs, p.entries)) + Zeros(48 - ENTRY_SIZE * |cs|)
  }

  function TwoLevelSlot(p: Place): seq<Byte> {
    XrtHeaderBytes(TableHeader(1), p.signal) + FirstEntryBytes(p.entries) + Zeros(40)
  }

  /** `flags` is whatever the second byte of the buffer held: this header is not cleared. */
  function TwoLevelEntries(cs: seq<Column>, p: Place, flags: Byte): seq<Byte>
    requires |cs| <= MAX_COLUMNS
  {
    HeaderBytes(TableHeader(|cs|), flags) +
    Whole(Entries(cs, p.entries + HEADER_SIZE + ENTRY_SIZE * |cs|)) +
    Whole(Blocks(cs, p))
  }

  /** Arguments for `n` external buffers: eight bytes each, counted in 16 bits. */
  function ArgsFor(addr: U64, n: nat): Args {
    if n == 0 then Args(0, 0) else Args(addr, 8 * n % 0x1_0000)
  }

  // ----- Writing them -----------------------------------------------------------------

  /** Copy `bs` to offset `at`, where `done` ends. */
  method Put(buf: array<Byte>, at: nat, bs: seq<Byte>, ghost done: seq<Byte>, ghost todo: seq<Byte>)
    requires buf[..] == done + todo && at == |done| && |bs| <= |todo|
    modifies buf
    ensures buf[..] == (done + bs) + todo[|bs|..]
  {
    var i := 0;
    while i < |bs|
      invariant 0 <= i <= |bs|
      invariant forall j :: 0 <= j < buf.Length && !(at <= j < at + i) ==> buf[j] == old(buf[j])
      invariant forall j :: 0 <= j < i ==> buf[at + j] == bs[j]
    {
      buf[at + i] := bs[i];
      i := i + 1;
    }
  }

  /** The buffer that held `tail` after `head` has its first `i` pieces. */
  ghost predicate Written(buf: seq<Byte>, head: seq<Byte>, ss: seq<seq<Byte>>, i: nat, tail: seq<Byte>) {
    && i <= |ss| && |Join(ss, i)| <= |tail|
    && buf == head + Join(ss, i) + tail[|Join(ss, i)|..]
  }

  lemma Nothing(buf: seq<Byte>, head: seq<Byte>, ss: seq<seq<Byte>>, tail: seq<Byte>)
    requires buf == head + tail
    ensures Written(buf, head, ss, 0, tail)
  {
    assert head + [] == head;
  }

  lemma AllWritten(buf: seq<Byte>, head: seq<Byte>, ss: seq<seq<Byte>>, w: nat, tail: seq<Byte>)
    requires forall i :: 0 <= i < |ss| ==> |ss[i]| == w
    requires Written(buf, head, ss, |ss|, tail) && |tail| == w * |ss|
    ensures buf == head + Whole(ss)
  {
    JoinSize(ss, |ss|, w);
  }

  /** The next piece. */
  method PutPiece(buf: array<Byte>, at: nat, bs: seq<Byte>, ghost head: seq<Byte>,
                  ghost ss: seq<seq<Byte>>, ghost i: nat, ghost tail: seq<Byte>)
    requires i < |ss| && ss[i] == bs && at == |head| + |Join(ss, i)| && |Join(ss, i + 1)| <= |tail|
    requires Written(buf[..], head, ss, i, tail)
    modifies buf
    ensures Written(buf[..], head, ss, i + 1, tail)
  {
    ghost var todo := tail[|Join(ss, i)|..];
    Put(buf, at, bs, head + Join(ss, i), todo);
    assert (head + Join(ss, i)) + bs == head + Join(ss, i + 1);
    assert todo[|bs|..] == tail[|Join(ss, i + 1)|..];
  }

  /** Clear the slot and write its header. */
  method StartSlot(slot: array<Byte>, h: Header, signal: U64)
    requires slot.Length == SLOT_SIZE
    modifies slot
    ensures slot[..] == XrtHeaderBytes(h, signal) + Zeros(48)
  {
    Put(slot, 0, Zeros(SLOT_SIZE), [], slot[..]);
    var head := XrtHeaderBytes(h, signal);
    assert slot[..] == Zeros(SLOT_SIZE);
    Put(slot, 0, head, [], Zeros(SLOT_SIZE));
    assert [] + head == head && Zeros(SLOT_SIZE)[|head|..] == Zeros(48);
  }

  /** One column: direct. */
  method FillDirect(slot: array<Byte>, code: array<Byte>, cs: seq<Column>, p: Place)
    requires |cs| == 1 && slot.Length == SLOT_SIZE && code.Length == Offset(cs, 1) && slot != code
    modifies slot, code
    ensures slot[..] == DirectSlot(cs, p) && code[..] == Whole(CodeList(cs))
  {
    Nothing(code[..], [], CodeList(cs), code[..]);
    PutPiece(code, 0, cs[0].code, [], CodeList(cs), 0, code[..]);
    StartSlot(slot, ExecHeader(0), p.signal);
    Put(slot, XRT_HEADER_SIZE, ExecBytes(ExecOf(cs, 0, p)), XrtHeaderBytes(ExecHeader(0), p.signal), Zeros(48));
    assert Zeros(48)[EXEC_SIZE..] == Zeros(24);
  }

  /** An entry and its exec block. */
  method PutOuter(slot: array<Byte>, buf: array<Byte>, i: nat, entry: seq<Byte>, block: seq<Byte>, ghost head: seq<Byte>,
                  ghost es: Pieces8, ghost bs: Pieces32, ghost blank: seq<Byte>)
    requires slot != buf && |es| == |bs| <= MAX_LEVEL1 && i < |es| && es[i] == entry && bs[i] == block
    requires |head| == XRT_HEADER_SIZE && |blank| == BLOCK_SIZE * |bs|
    requires Written(slot[..], head, es, i, Zeros(48)) && Written(buf[..], [], bs, i, blank)
    modifies slot, buf
    ensures Written(slot[..], head, es, i + 1, Zeros(48)) && Written(buf[..], [], bs, i + 1, blank)
  {
    Sizes(es, bs, bs, i);
    PutPiece(slot, XRT_HEADER_SIZE + ENTRY_SIZE * i, entry, head, es, i, Zeros(48));
    PutPiece(buf, BLOCK_SIZE * i, block, [], bs, i, blank);
  }

  lemma Next<T>(s: seq<T>, i: nat)
    requires i < |s|
    ensures s[..i] + [s[i]] == s[..i + 1]
  {
  }

  /** The bytes that the loop over the columns writes for each, with running addresses. */
  method Pieces(cs: seq<Column>, p: Place, first: nat)
      returns (es: Pieces8, bs: Pieces32, ks: seq<seq<Byte>>)
    ensures es == Entries(cs, first) && bs == Blocks(cs, p) && ks == CodeList(cs)
  {
    hide EntryBytes, BlockBytes;
    es, bs, ks := [], [], [];
    var entryDma, size, i := first, 0, 0;
    while i < |cs|
      invariant 0 <= i <= |cs| && entryDma == first + BLOCK_SIZE * i && size == Offset(cs, i)
      invariant es == Entries(cs, first)[..i]
      invariant bs == Blocks(cs, p)[..i]
      invariant ks == CodeList(cs)[..i]
    {
      Next(Entries(cs, first), i);
      Next(Blocks(cs, p), i);
      Next(CodeList(cs), i);
      es := es + [EntryBytes(cs[i].col, entryDma)];
      bs := bs + [BlockBytes(Exec((p.code + size) % P64, p.args))];
      ks := ks + [cs[i].code];
      entryDma := entryDma + BLOCK_SIZE;
      size := size + |cs[i].code|;
      i := i + 1;
    }
  }

  /** Two to six columns: the table of entries is in the slot. */
  method FillOneLevel(slot: array<Byte>, entries: array<Byte>, code: array<Byte>, cs: seq<Column>, p: Place)
    requires 1 < |cs| <= MAX_LEVEL1 && slot.Length == SLOT_SIZE
    requires entries.Length == BLOCK_SIZE * |cs| && code.Length == Offset(cs, |cs|)
    requires slot != entries && slot != code && entries != code
    modifies slot, entries, code
    ensures slot[..] == OneLevelSlot(cs, p)
    ensures entries[..] == Whole(Blocks(cs, p))
    ensures code[..] == Whole(CodeList(cs))
  {
    hide XrtHeaderBytes, HeaderBytes, Entries, Blocks, CodeList, Join, Zeros;
    StartSlot(slot, TableHeader(|cs|), p.signal);
    var es, bs, ks := Pieces(cs, p, p.entries);
    WriteOneLevel(slot, entries, code, XrtHeaderBytes(TableHeader(|cs|), p.signal), es, bs, ks);
  }

  method WriteOneLevel(slot: array<Byte>, entries: array<Byte>, code: array<Byte>, ghost head: seq<Byte>,
                       es: Pieces8, bs: Pieces32, ks: seq<seq<Byte>>)
    requires |es| == |bs| == |ks| <= MAX_LEVEL1 && |head| == XRT_HEADER_SIZE && slot[..] == head + Zeros(48)
    requires entries.Length == BLOCK_SIZE * |bs| && code.Length == |Whole(ks)|
    requires slot != entries && slot != code && entries != code
    modifies slot, entries, code
    ensures slot[..] == head + Whole(es) + Zeros(48 - ENTRY_SIZE * |es|)
    ensures entries[..] == Whole(bs)
    ensures code[..] == Whole(ks)
  {
    ghost var blank, bare := entries[..], code[..];
    Nothing(slot[..], head, es, Zeros(48));
    Nothing(entries[..], [], bs, blank);
    Nothing(code[..], [], ks, bare);
    WriteColumns(slot, entries, code, head, es, bs, ks, blank, bare);
    JoinSize(es, |es|, ENTRY_SIZE);
    AllWritten(entries[..], [], bs, BLOCK_SIZE, blank);
    assert Zeros(48)[ENTRY_SIZE * |es|..] == Zeros(48 - ENTRY_SIZE * |es|);
  }

  method WriteColumns(slot: array<Byte>, entries: array<Byte>, code: array<Byte>, ghost head: seq<Byte>,
                      es: Pieces8, bs: Pieces32, ks: seq<seq<Byte>>, ghost blank: seq<Byte>, ghost bare: seq<Byte>)
    requires |es| == |bs| == |ks| <= MAX_LEVEL1 && |head| == XRT_HEADER_SIZE
    requires |blank| == BLOCK_SIZE * |bs| && |bare| == |Whole(ks)|
    requires slot != entries && slot != code && entries != code
    requires Written(slot[..], head, es, 0, Zeros(48))
    requires Written(entries[..], [], bs, 0, blank) && Written(code[..], [], ks, 0, bare)
    modifies slot, entries, code
    ensures Written(slot[..], head, es, |es|, Zeros(48))
    ensures Written(entries[..], [], bs, |es|, blank) && Written(code[..], [], ks, |es|, bare)
  {
    var i, size := 0, 0;
    while i < |es|
      invariant 0 <= i <= |es| && size == |Join(ks, i)|
      invariant Written(slot[..], head, es, i, Zeros(48))
      invariant Written(entries[..], [], bs, i, blank)
      invariant Written(code[..], [], ks, i, bare)
    {
      PutOuter(slot, entries, i, es[i], bs[i], head, es, bs, blank);
      JoinGrows(ks, i + 1, |ks|);
      PutPiece(code, size, ks[i], [], ks, i, bare);
      size := size + |ks[i]|;
      i := i + 1;
    }
  }

  lemma Sizes(es: Pieces8, bs: Pieces32, ks: seq<seq<Byte>>, i: nat)
    requires |es| == |bs| == |ks| && i < |es|
    ensures |Join(es, i)| == ENTRY_SIZE * i && |Join(es, i + 1)| == ENTRY_SIZE * (i + 1)
    ensures |Join(bs, i)| == BLOCK_SIZE * i && |Join(bs, i + 1)| == BLOCK_SIZE * (i + 1)
    ensures |Join(ks, i + 1)| <= |Join(ks, |ks|)|
  {
    JoinSize(es, i, ENTRY_SIZE);
    JoinSize(es, i + 1, ENTRY_SIZE);
    JoinSize(bs, i, BLOCK_SIZE);
    JoinSize(bs, i + 1, BLOCK_SIZE);
    JoinGrows(ks, i + 1, |ks|);
  }

  /** The next piece of the pieces in a stretch of the buffer; the rest of it stays. */
  method PutInside(buf: array<Byte>, ghost lo: nat, ghost hi: nat, at: nat, bs: seq<Byte>, ghost head: seq<Byte>,
                   ghost ss: seq<seq<Byte>>, ghost i: nat, ghost tail: seq<Byte>)
    requires lo <= hi <= buf.Length
    requires i < |ss| && ss[i] == bs && at == lo + |head| + |Join(ss, i)| && |Join(ss, i + 1)| <= |tail|
    requires Written(buf[lo..hi], head, ss, i, tail)
    modifies buf
    ensures Written(buf[lo..hi], head, ss, i + 1, tail)
    ensures buf[..lo] == old(buf[..lo]) && buf[hi..] == old(buf[hi..])
  {
    ghost var before, after := buf[..lo], buf[hi..];
    ghost var done, todo := head + Join(ss, i), tail[|Join(ss, i)|..];
    Split(buf[..], lo, hi, done, todo);
    Put(buf, at, bs, before + done, todo + after);
    Window(buf[..], before, done, bs, todo, after);
    assert done + bs == head + Join(ss, i + 1);
    assert todo[|bs|..] == tail[|Join(ss, i + 1)|..];
  }

  lemma Split(buf: seq<Byte>, lo: nat, hi: nat, done: seq<Byte>, todo: seq<Byte>)
    requires lo <= hi <= |buf| && buf[lo..hi] == done + todo
    ensures buf == (buf[..lo] + done) + (todo + buf[hi..])
  {
    assert buf == buf[..lo] + buf[lo..hi] + buf[hi..];
  }

  lemma Window(buf: seq<Byte>, before: seq<Byte>, done: seq<Byte>, bs: seq<Byte>, todo: seq<Byte>, after: seq<Byte>)
    requires |bs| <= |todo| && buf == ((before + done) + bs) + (todo + after)[|bs|..]
    ensures |buf| == |before| + |done| + |todo| + |after|
    ensures buf[..|before|] == before
    ensures buf[|before|..|before| + |done| + |todo|] == (done + bs) + todo[|bs|..]
    ensures buf[|before| + |done| + |todo|..] == after
  {
  }

  /** An entry and its exec block. */
  method PutInner(buf: array<Byte>, first: nat, i: nat, entry: seq<Byte>, block: seq<Byte>, ghost head: seq<Byte>,
                  ghost es: Pieces8, ghost table: seq<Byte>, ghost bs: Pieces32, ghost blank: seq<Byte>)
    requires |es| == |bs| && i < |es| && es[i] == entry && bs[i] == block && |head| == HEADER_SIZE
    requires first == HEADER_SIZE + |table| && buf.Length == first + |blank|
    requires |table| == ENTRY_SIZE * |es| && |blank| == BLOCK_SIZE * |bs|
    requires Written(buf[0..first], head, es, i, table) && Written(buf[first..buf.Length], [], bs, i, blank)
    modifies buf
    ensures Written(buf[0..first], head, es, i + 1, table) && Written(buf[first..buf.Length], [], bs, i + 1, blank)
  {
    Sizes(es, bs, bs, i);
    PutInside(buf, 0, first, HEADER_SIZE + ENTRY_SIZE * i, entry, head, es, i, table);
    assert buf[first..buf.Length] == old(buf[first..buf.Length]);
    PutInside(buf, first, buf.Length, first + BLOCK_SIZE * i, block, [], bs, i, blank);
    assert forall s: seq<Byte> :: |s| >= first ==> s[0..first] == s[..first];
  }

  /** Seven to 24 columns: the slot has one entry, for a table in front of the exec buffers. */
  method FillTwoLevel(slot: array<Byte>, entries: array<Byte>, code: array<Byte>, cs: seq<Column>, p: Place)
    requires MAX_LEVEL1 < |cs| <= MAX_COLUMNS && slot.Length == SLOT_SIZE
    requires entries.Length == HEADER_SIZE + (ENTRY_SIZE + BLOCK_SIZE) * |cs| && code.Length == Offset(cs, |cs|)
    requires slot != entries && slot != code && entries != code
    modifies slot, entries, code
    ensures slot[..] == TwoLevelSlot(p)
    ensures entries[..] == TwoLevelEntries(cs, p, old(entries[1]))
    ensures code[..] == Whole(CodeList(cs))
  {
    hide TwoLevelSlot, HeaderBytes, Entries, Blocks, CodeList, Join, Zeros;
    FirstLevel(slot, p);
    var head := StartEntries(entries, TableHeader(|cs|));
    var es, bs, ks := Pieces(cs, p, p.entries + HEADER_SIZE + ENTRY_SIZE * |cs|);
    WriteTwoLevel(entries, code, head, es, bs, ks);
  }

  /** The header of the entry buffer; its second byte is left alone. */
  method StartEntries(entries: array<Byte>, h: Header) returns (head: seq<Byte>)
    requires entries.Length >= HEADER_SIZE
    modifies entries
    ensures head == HeaderBytes(h, old(entries[1])) == entries[..HEADER_SIZE]
  {
    head := HeaderBytes(h, entries[1]);
    Put(entries, 0, head, [], entries[..]);
  }

  method FirstLevel(slot: array<Byte>, p: Place)
    requires slot.Length == SLOT_SIZE
    modifies slot
    ensures slot[..] == TwoLevelSlot(p)
  {
    StartSlot(slot, TableHeader(1), p.signal);
    Put(slot, XRT_HEADER_SIZE, FirstEntryBytes(p.entries), XrtHeaderBytes(TableHeader(1), p.signal), Zeros(48));
    assert Zeros(48)[ENTRY_SIZE..] == Zeros(40);
  }

  method WriteTwoLevel(entries: array<Byte>, code: array<Byte>, ghost head: seq<Byte>,
                       es: Pieces8, bs: Pieces32, ks: seq<seq<Byte>>)
    requires |es| == |bs| == |ks| && |head| == HEADER_SIZE
    requires entries.Length == HEADER_SIZE + (ENTRY_SIZE + BLOCK_SIZE) * |es| && entries[..HEADER_SIZE] == head
    requires code.Length == |Whole(ks)| && entries != code
    modifies entries, code
    ensures entries[..] == head + Whole(es) + Whole(bs)
    ensures code[..] == Whole(ks)
  {
    var first := HEADER_SIZE + ENTRY_SIZE * |es|;
    ghost var table, blank, bare := entries[HEADER_SIZE..first], entries[first..], code[..];
    assert entries[0..first] == head + table;
    Nothing(entries[0..first], head, es, table);
    Nothing(entries[first..entries.Length], [], bs, blank);
    Nothing(code[..], [], ks, bare);
    WriteTable(entries, code, first, head, es, bs, ks, table, blank, bare);
    BothWritten(entries[..], first, head, es, bs, table, blank);
  }

  lemma BothWritten(buf: seq<Byte>, first: nat, head: seq<Byte>, es: Pieces8, bs: Pieces32,
                    table: seq<Byte>, blank: seq<Byte>)
    requires first <= |buf| && |table| == ENTRY_SIZE * |es| && |blank| == BLOCK_SIZE * |bs|
    requires Written(buf[0..first], head, es, |es|, table) && Written(buf[first..|buf|], [], bs, |bs|, blank)
    ensures buf == head + Whole(es) + Whole(bs)
  {
    AllWritten(buf[0..first], head, es, ENTRY_SIZE, table);
    AllWritten(buf[first..|buf|], [], bs, BLOCK_SIZE, blank);
    assert buf == buf[0..first] + buf[first..|buf|];
  }

  method WriteTable(entries: array<Byte>, code: array<Byte>, first: nat, ghost head: seq<Byte>,
                    es: Pieces8, bs: Pieces32, ks: seq<seq<Byte>>,
                    ghost table: seq<Byte>, ghost blank: seq<Byte>, ghost bare: seq<Byte>)
    requires |es| == |bs| == |ks| && |head| == HEADER_SIZE && entries != code
    requires |table| == ENTRY_SIZE * |es| && |blank| == BLOCK_SIZE * |es| && |bare| == |Whole(ks)|
    requires first == HEADER_SIZE + |table| && entries.Length == first + |blank|
    requires Written(entries[0..first], head, es, 0, table)
    requires Written(entries[first..entries.Length], [], bs, 0, blank)
    requires Written(code[..], [], ks, 0, bare)
    modifies entries, code
    ensures Written(entries[0..first], head, es, |es|, table)
    ensures Written(entries[first..entries.Length], [], bs, |es|, blank)
    ensures Written(code[..], [], ks, |es|, bare)
  {
    var i, size := 0, 0;
    while i < |es|
      invariant 0 <= i <= |es| && size == |Join(ks, i)|
      invariant Written(entries[0..first], head, es, i, table)
      invariant Written(entries[first..entries.Length], [], bs, i, blank)
      invariant Written(code[..], [], ks, i, bare)
    {
      PutInner(entries, first, i, es[i], bs[i], head, es, table, bs, blank);
      JoinGrows(ks, i + 1, |ks|);
      PutPiece(code, size, ks[i], [], ks, i, bare);
      size := size + |ks[i]|;
      i := i + 1;
    }
  }
}
