/**
 `cert_api::submit_command` from the column map to the packet, and the round trip: reading the
 slot by the documented format gives back every submitted column with its own control code.
 */
module CertSubmit {
  import opened LittleEndian
  import opened CertPacket
  import opened CertDecode

  // ----- The column map ---------------------------------------------------------------

  ghost predicate Ascending(cs: seq<Column>) {
    forall i, j :: 0 <= i < j < |cs| ==> cs[i].col < cs[j].col
  }

  predicate Has(cs: seq<Column>, col: int) {
    exists i :: 0 <= i < |cs| && cs[i].col == col
  }

  /** Looking up column 0 of a map that has columns, as a logging statement does before the
      columns are counted, adds an empty column 0 if there is none. */
  function WithZero(cs: seq<Column>): seq<Column> {
    if cs == [] then [] else InsertZero(cs)
  }

  function InsertZero(cs: seq<Column>): seq<Column> {
    if cs == [] || cs[0].col > 0 then [Column(0, [])] + cs
    else if cs[0].col == 0 then cs
    else [cs[0]] + InsertZero(cs[1..])
  }

  lemma HasTail(cs: seq<Column>)
    requires cs != [] && cs[0].col != 0
    ensures Has(cs, 0) <==> Has(cs[1..], 0)
  {
    if Has(cs, 0) {
      var i :| 0 <= i < |cs| && cs[i].col == 0;
      assert cs[1..][i - 1].col == 0;
    }
  }

  lemma {:induction false} InsertedSize(cs: seq<Column>)
    requires Ascending(cs)
    ensures Has(cs, 0) ==> InsertZero(cs) == cs
    ensures !Has(cs, 0) ==> |InsertZero(cs)| == |cs| + 1
  {
    if cs != [] && cs[0].col < 0 {
      InsertedSize(cs[1..]);
      HasTail(cs);
    } else if cs != [] && cs[0].col == 0 {
      assert Has(cs, 0);
    }
  }

  lemma {:induction false} InsertedElements(cs: seq<Column>, c: Column)
    requires Ascending(cs)
    ensures c in InsertZero(cs) <==> c in cs || (!Has(cs, 0) && c == Column(0, []))
  {
    if cs != [] && cs[0].col < 0 {
      InsertedElements(cs[1..], c);
      HasTail(cs);
      assert c in cs <==> c == cs[0] || c in cs[1..];
    } else if cs != [] && cs[0].col == 0 {
      assert Has(cs, 0);
    }
  }

  lemma {:induction false} InsertedAscending(cs: seq<Column>)
    requires Ascending(cs)
    ensures Ascending(InsertZero(cs))
  {
    if cs != [] && cs[0].col < 0 {
      var r := InsertZero(cs[1..]);
      InsertedAscending(cs[1..]);
      forall j | 0 <= j < |r|
        ensures cs[0].col < r[j].col
      {
        InsertedElements(cs[1..], r[j]);
      }
    }
  }

  /** A map again, with a column 0, and with nothing lost. */
  lemma Inserted(cs: seq<Column>)
    requires Ascending(cs)
    ensures Ascending(InsertZero(cs)) && Has(InsertZero(cs), 0)
    ensures Has(cs, 0) ==> InsertZero(cs) == cs
    ensures !Has(cs, 0) ==> |InsertZero(cs)| == |cs| + 1
  {
    InsertedSize(cs);
    InsertedAscending(cs);
    if !Has(cs, 0) {
      InsertedElements(cs, Column(0, []));
      assert Column(0, []) in InsertZero(cs);
    }
  }

  /** The map that is counted is the submitted one if and only if that is empty or has a
      column 0. */
  lemma CountedIff(cs: seq<Column>)
    requires Ascending(cs)
    ensures WithZero(cs) == cs <==> cs == [] || Has(cs, 0)
  {
    Inserted(cs);
  }

  /** So 24 columns are accepted if and only if column 0 is one of them. */
  lemma TwentyFourIff(cs: seq<Column>)
    requires Ascending(cs) && |cs| == 24
    ensures |WithZero(cs)| <= MAX_COLUMNS <==> Has(cs, 0)
  {
    Inserted(cs);
  }

  // ----- Building the packet ----------------------------------------------------------

  /** The contents of the slot and of the two buffers. */
  ghost predicate Packet(slot: seq<Byte>, entries: seq<Byte>, code: seq<Byte>, cs: seq<Column>, p: Place) {
    && 1 <= |cs| <= MAX_COLUMNS && code == Whole(CodeList(cs))
    && (|cs| == 1 ==> slot == DirectSlot(cs, p))
    && (1 < |cs| <= MAX_LEVEL1 ==> slot == OneLevelSlot(cs, p) && entries == Whole(Blocks(cs, p)))
    && (MAX_LEVEL1 < |cs| ==> slot == TwoLevelSlot(p) && exists flags :: entries == TwoLevelEntries(cs, p, flags))
  }

  /** The addresses of a submission, and the arguments for its external buffers. */
  datatype Where = Where(signal: U64, entries: nat, code: nat, argsAddr: U64, buffers: nat)

  function PlaceOf(w: Where): Place {
    Place(w.signal, w.entries, w.code, ArgsFor(w.argsAddr, w.buffers))
  }

  /** The first half of `submit_command`. Which of its allocations succeed is up to the
      device. */
  method Build(slot: array<Byte>, given: seq<Column>, w: Where, entriesOk: bool, codeOk: bool)
      returns (ok: bool, entries: array<Byte>, code: array<Byte>)
    requires slot.Length == SLOT_SIZE
    modifies slot
    ensures ok <==> 1 <= |WithZero(given)| <= MAX_COLUMNS && codeOk && (|WithZero(given)| == 1 || entriesOk)
    ensures !ok ==> slot[..] == old(slot[..])
    ensures ok ==> Packet(slot[..], entries[..], code[..], WithZero(given), PlaceOf(w))
  {
    var cs, p := WithZero(given), PlaceOf(w);
    entries, code, ok := new Byte[0], new Byte[0], false;
    if |cs| > MAX_COLUMNS || |cs| == 0 {
    } else if |cs| == 1 {
      if codeOk {
        code := new Byte[Offset(cs, 1)];
        FillDirect(slot, code, cs, p);
        ok := true;
      }
    } else if |cs| <= MAX_LEVEL1 {
      if entriesOk && codeOk {
        entries, code := new Byte[BLOCK_SIZE * |cs|], new Byte[Offset(cs, |cs|)];
        FillOneLevel(slot, entries, code, cs, p);
        ok := true;
      }
    } else if entriesOk && codeOk {
      entries, code := new Byte[HEADER_SIZE + (ENTRY_SIZE + BLOCK_SIZE) * |cs|], new Byte[Offset(cs, |cs|)];
      ghost var flags := entries[1];
      FillTwoLevel(slot, entries, code, cs, p);
      assert entries[..] == TwoLevelEntries(cs, p, flags);
      ok := true;
    }
  }

  // ----- The round trip ---------------------------------------------------------------

  /** Where the exec blocks start, for the device. */
  function FirstBlock(cs: seq<Column>, p: Place): nat {
    if |cs| <= MAX_LEVEL1 then p.entries else p.entries + HEADER_SIZE + ENTRY_SIZE * |cs|
  }

  /** The entries of a packet can name what they have to. */
  ghost predicate Addressable(cs: seq<Column>, p: Place) {
    || |cs| == 1
    || (AllFit(cs, FirstBlock(cs, p)) && (|cs| > MAX_LEVEL1 ==> p.entries < P57))
  }

  /** Device memory with a packet in slot `a`. */
  ghost predicate InMemory(mem: Memory, a: nat, slot: seq<Byte>, entries: seq<Byte>, code: seq<Byte>, p: Place) {
    && Holds(mem, a, slot) && Holds(mem, p.entries, entries) && Holds(mem, p.code, code)
    && p.code + |code| < P64
  }

  lemma SlotRead(mem: Memory, a: nat, slot: seq<Byte>, entries: seq<Byte>, code: seq<Byte>, cs: seq<Column>, p: Place)
    requires Packet(slot, entries, code, cs, p) && InMemory(mem, a, slot, entries, code, p)
    requires Addressable(cs, p) && (|cs| == 1 ==> cs[0].col == 0)
    ensures ReadSlot(mem, a) == Jobs(JobsOf(cs, p)) && SignalAt(mem, a) == p.signal
  {
    if |cs| == 1 {
      DirectRead(mem, a, cs, p);
    } else if |cs| <= MAX_LEVEL1 {
      OneLevelRead(mem, a, cs, p);
    } else {
      var flags :| entries == TwoLevelEntries(cs, p, flags);
      TwoLevelRead(mem, a, cs, p, flags, FirstBlock(cs, p));
    }
  }

  /** The header of the slot says which encoding it is: one column directly, two to six with a
      table in the slot, seven to 24 with one entry to a table elsewhere. */
  lemma SlotShape(mem: Memory, a: nat, slot: seq<Byte>, entries: seq<Byte>, code: seq<Byte>, cs: seq<Column>, p: Place)
    requires Packet(slot, entries, code, cs, p) && Holds(mem, a, slot)
    ensures 1 <= |cs| <= 24
    ensures HeaderAt(mem, a) == if |cs| == 1 then Header(0, 1, 24, 0, 0)
                                else Header(0, 1, if |cs| <= 6 then 8 * |cs| else 8, 1, 1)
  {
    hide HeaderAt, Holds, ExecBytes, Entries, Join, Zeros, XrtHeaderBytes;
    if |cs| == 1 {
      SlotParts(mem, a, ExecHeader(0), p.signal, ExecBytes(ExecOf(cs, 0, p)), Zeros(24));
    } else if |cs| <= MAX_LEVEL1 {
      SlotParts(mem, a, TableHeader(|cs|), p.signal, Whole(Entries(cs, p.entries)), Zeros(48 - ENTRY_SIZE * |cs|));
    } else {
      SlotParts(mem, a, TableHeader(1), p.signal, FirstEntryBytes(p.entries), Zeros(40));
    }
  }

  lemma CodeHeld(mem: Memory, cs: seq<Column>, p: Place, i: nat)
    requires Holds(mem, p.code, Whole(CodeList(cs))) && p.code + |Whole(CodeList(cs))| < P64 && i < |cs|
    ensures ExecOf(cs, i, p).code == p.code + Offset(cs, i)
    ensures Holds(mem, ExecOf(cs, i, p).code, cs[i].code)
  {
    var ks := CodeList(cs);
    JoinAt(ks, i);
    HoldsSlice(mem, p.code, Whole(ks), |Join(ks, i)|, |Join(ks, i)| + |ks[i]|);
  }

  lemma LoneColumn(given: seq<Column>)
    requires Ascending(given) && |WithZero(given)| == 1
    ensures WithZero(given)[0].col == 0
  {
    Inserted(given);
  }

  /** For every map that is accepted, in each of the three encodings, the slot names the
      completion signal and reads as one job for each column in order, whose code address holds
      that column's code and whose arguments are those of the external buffers, if there are
      any: eight bytes for each, at the address of the arguments. */
  lemma PacketRoundTrip(mem: Memory, a: nat, slot: seq<Byte>, entries: seq<Byte>, code: seq<Byte>,
                        given: seq<Column>, w: Where)
    requires Ascending(given)
    requires Packet(slot, entries, code, WithZero(given), PlaceOf(w)) && InMemory(mem, a, slot, entries, code, PlaceOf(w))
    requires Addressable(WithZero(given), PlaceOf(w))
    ensures U64At(mem, a + 8) == w.signal
    ensures var cs, read := WithZero(given), ReadSlot(mem, a);
            && read.Jobs? && |read.list| == |cs|
            && (forall i :: 0 <= i < |cs| ==>
                  && read.list[i].uc == cs[i].col
                  && Holds(mem, read.list[i].exec.code, cs[i].code)
                  && (w.buffers > 0 ==> read.list[i].exec.args.addr == w.argsAddr)
                  && (w.buffers == 0 ==> read.list[i].exec.args.addr == 0)
                  && read.list[i].exec.args.len == 8 * w.buffers % 0x1_0000)
  {
    hide Packet, InMemory, Addressable, ReadSlot, Holds, WithZero, Offset, Ascending;
    var cs, p := WithZero(given), PlaceOf(w);
    if |cs| == 1 {
      LoneColumn(given);
    }
    SlotRead(mem, a, slot, entries, code, cs, p);
    forall i | 0 <= i < |cs|
      ensures Holds(mem, ExecOf(cs, i, p).code, cs[i].code)
    {
      PacketCode(mem, a, slot, entries, code, cs, p, i);
    }
    ArgsRead(w);
  }

  lemma PacketCode(mem: Memory, a: nat, slot: seq<Byte>, entries: seq<Byte>, code: seq<Byte>, cs: seq<Column>, p: Place, i: nat)
    requires Packet(slot, entries, code, cs, p) && InMemory(mem, a, slot, entries, code, p) && i < |cs|
    ensures Holds(mem, ExecOf(cs, i, p).code, cs[i].code)
  {
    CodeHeld(mem, cs, p, i);
  }

  lemma ArgsRead(w: Where)
    ensures var args := PlaceOf(w).args;
            && (w.buffers > 0 ==> args.addr == w.argsAddr) && (w.buffers == 0 ==> args.addr == 0)
            && args.len == 8 * w.buffers % 0x1_0000
  {
  }

  /** Every submitted column is among them. */
  lemma NoColumnIsLost(given: seq<Column>, c: Column)
    requires Ascending(given) && c in given
    ensures c in WithZero(given)
  {
    InsertedElements(given, c);
  }

  /** The entry table leads to the exec blocks if and only if every entry fits; the exact
      failing family is every address with a bit set between 25 and 31 of its low word. */
  lemma TableIff(mem: Memory, table: nat, cs: seq<Column>, first: nat)
    requires Holds(mem, table, Whole(Entries(cs, first)))
    ensures (forall i :: 0 <= i < |cs| ==> EntryNames(mem, table, i, cs[i].col, first + BLOCK_SIZE * i))
            <==> AllFit(cs, first)
  {
    forall i | 0 <= i < |cs|
      ensures EntryNames(mem, table, i, cs[i].col, first + BLOCK_SIZE * i) <==> EntryFits(cs, first, i)
    {
      PieceHeld(mem, table, Entries(cs, first), ENTRY_SIZE, i);
      EntryIff(mem, table + ENTRY_SIZE * i, cs[i].col, first + BLOCK_SIZE * i);
    }
  }

  ghost predicate EntryNames(mem: Memory, table: nat, i: nat, col: int, addr: nat) {
    var e := EntryAt(mem, table + ENTRY_SIZE * i);
    e.uc == col && e.addr == addr
  }

  /** A buffer at 2^25 is such an address: its entries lead to address 0 and up. */
  lemma MaskedAddressIsLost(mem: Memory, table: nat, cs: seq<Column>)
    requires Holds(mem, table, Whole(Entries(cs, P25))) && cs != [] && 0 <= cs[0].col < 128
    ensures EntryAt(mem, table) == Entry(cs[0].col, 0)
  {
    PieceHeld(mem, table, Entries(cs, P25), ENTRY_SIZE, 0);
    EntrySeen(mem, table, cs[0].col, P25);
  }

  /** In every packet that `Build` makes, the exec buffers give the number of argument bytes
      rightly for fewer than 8192 buffers, and for no more. */
  lemma ArgsIff(mem: Memory, a: nat, slot: seq<Byte>, entries: seq<Byte>, code: seq<Byte>, given: seq<Column>, w: Where)
    requires Ascending(given)
    requires Packet(slot, entries, code, WithZero(given), PlaceOf(w)) && InMemory(mem, a, slot, entries, code, PlaceOf(w))
    requires Addressable(WithZero(given), PlaceOf(w))
    ensures ReadSlot(mem, a).Jobs?
    ensures forall job :: job in ReadSlot(mem, a).list ==> (job.exec.args.len == 8 * w.buffers <==> w.buffers < 8192)
  {
    PacketRoundTrip(mem, a, slot, entries, code, given, w);
    EightEach(w.buffers);
  }

  lemma EightEach(n: nat)
    ensures 8 * n % 0x1_0000 == 8 * n <==> n < 8192
  {
  }
}
