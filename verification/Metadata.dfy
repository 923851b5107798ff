/**
 The metadata files: `script/aiemetacpp.py` packs the records of each kind into one file, and
 the static parsers of `src/aeg_configure.cc` read them back with a cursor that is moved along
 until the size of the file is reached.

 For each kind of file there are two tables, taken from the two sides: the codes of the packer
 and the calls of the parser, field by field.
 */
module Metadata {
  import opened LittleEndian
  import opened Packing

  type Record = seq<Val>
  type Name = seq<Byte>
  type Table = map<Name, Record>

  // ----- The tables -------------------------------------------------------------------

  const GMIO_CODES: seq<Code> := [I, S, S, H, H, H, H, H]
  const GMIO_CALLS: seq<Call> := [Int32, String, String, Enum8, Short, Short, Short, Short]

  const PLIO_CODES: seq<Code> := [I, S, S, H, H, H]
  const PLIO_CALLS: seq<Call> := [Int32, String, String, Short, Short, Short]

  const RTP_CODES: seq<Code> :=
    [I, I, S, S, I, B, B, B, I, B, B, H, H, I, H, H, H, I, H, H, H, I, H]
  const RTP_CALLS: seq<Call> :=
    [Int32, Int32, String, String, Int32, Bool, Bool, Bool, UInt32, Bool, Bool,
     Short, Short, UInt32, UShort, Short, Short, UInt32, UShort, Short, Short, UInt32, UShort]

  const BD_CODES: seq<Code> := [UI, UI, UI, Q]
  const BD_CALLS: seq<Call> := [UInt32, UInt32, UInt32, UInt64]
  const PORT_CODES: seq<Code> := [I, S, I, H, H, I, B, Records(BD_CODES)]
  const PORT_CALLS: seq<Call> := [Int32, String, Int32, Short, Short, Int32, Bool, RecordsOf(BD_CALLS)]
  const EXTERNAL_CODES: seq<Code> := [H, S, Records(PORT_CODES)]
  const EXTERNAL_CALLS: seq<Call> := [Short, String, RecordsOf(PORT_CALLS)]

  const SHARED_CODES: seq<Code> := [H, S, I, Q, H, H, H, H, B, VecOf(Q), VecOf(I), VecOf(I)]
  const SHARED_CALLS: seq<Call> :=
    [Short, String, Int32, UInt64, Short, Short, Short, Short, Bool, VectorOf(UInt64), VectorOf(Int32), VectorOf(Int32)]

  const GRAPH_CODES: seq<Code> := [I, S, VecOf(H), VecOf(H), VecOf(H), VecOf(H), VecOf(UI), Flags]
  const GRAPH_CALLS: seq<Call> :=
    [Int32, String, VectorOf(Short), VectorOf(Short), VectorOf(Short), VectorOf(Short), VectorOf(Extended), VectorOf(UInt8)]

  const DRIVER_CODES: seq<Code> := [B, Q, B, B, B, B, B, B, B, B, B, B, VecOf(H)]
  const DRIVER_CALLS: seq<Call> :=
    [UInt8, UInt64, UInt8, UInt8, UInt8, UInt8, UInt8, UInt8, UInt8, UInt8, UInt8, UInt8, VectorOf(Short)]
  const PARTITION_CODES: seq<Code> := [UI, UI, S, UI, S]
  const PARTITION_CALLS: seq<Call> := [UInt32, UInt32, String, UInt32, String]
  const OVERLAY_CODES: seq<Code> := [UI, UI, Records(PARTITION_CODES)]
  const OVERLAY_CALLS: seq<Call> := [UInt32, UInt32, RecordsOf(PARTITION_CALLS)]

  /** The two tables of each kind have the same widths, field by field. */
  lemma GmioMatch()
    ensures MatchesAll(GMIO_CODES, GMIO_CALLS)
  {
  }

  lemma PlioMatch()
    ensures MatchesAll(PLIO_CODES, PLIO_CALLS)
  {
  }

  lemma RtpMatch()
    ensures MatchesAll(RTP_CODES, RTP_CALLS)
  {
  }

  lemma PortMatch()
    ensures MatchesAll(PORT_CODES, PORT_CALLS)
  {
    assert MatchesAll(BD_CODES, BD_CALLS);
  }

  lemma ExternalMatch()
    ensures MatchesAll(EXTERNAL_CODES, EXTERNAL_CALLS)
  {
    PortMatch();
  }

  lemma SharedMatch()
    ensures MatchesAll(SHARED_CODES, SHARED_CALLS)
  {
  }

  lemma GraphMatch()
    ensures MatchesAll(GRAPH_CODES, GRAPH_CALLS)
  {
  }

  lemma DriverMatch()
    ensures MatchesAll(DRIVER_CODES, DRIVER_CALLS)
  {
  }

  lemma OverlayMatch()
    ensures MatchesAll(OVERLAY_CODES, OVERLAY_CALLS)
  {
    assert MatchesAll(PARTITION_CODES, PARTITION_CALLS);
  }

  // ----- Tables by name ---------------------------------------------------------------

  /** The fields a record is stored under: its name and, for run-time parameters, an alias that
      counts only if it is not empty. */
  datatype Keys = Keys(name: nat, alias: int)

  const NAME_KEYS := Keys(1, -1)
  const RTP_KEYS := Keys(2, 3)

  function NameAt(r: Record, i: int): Name {
    if 0 <= i < |r| && r[i].Str? then r[i].s else []
  }

  function Store(m: Table, r: Record, keys: Keys): Table {
    var m1 := m[NameAt(r, keys.name) := r];
    if keys.alias >= 0 && NameAt(r, keys.alias) != [] then m1[NameAt(r, keys.alias) := r] else m1
  }

  function StoreAll(rs: seq<Record>, keys: Keys, m: Table): Table {
    if rs == [] then m else StoreAll(rs[1..], keys, Store(m, rs[0], keys))
  }

  predicate GoesBy(r: Record, keys: Keys, n: Name) {
    n == NameAt(r, keys.name) || (keys.alias >= 0 && n != [] && n == NameAt(r, keys.alias))
  }

  /** The position of the last record that goes by a name; the number of records if none does. */
  function LastBy(rs: seq<Record>, keys: Keys, n: Name): (i: nat)
    ensures i <= |rs|
    ensures i < |rs| ==> GoesBy(rs[i], keys, n)
    ensures forall j :: i < j < |rs| ==> !GoesBy(rs[j], keys, n)
    ensures i == |rs| ==> forall j :: 0 <= j < |rs| ==> !GoesBy(rs[j], keys, n)
  {
    if rs == [] then 0
    else
      var i := LastBy(rs[1..], keys, n);
      if i < |rs| - 1 then i + 1 else if GoesBy(rs[0], keys, n) then 0 else |rs|
  }

  /** In the table a name stands for the last record that goes by it. */
  lemma {:induction false} LastDuplicateWins(rs: seq<Record>, keys: Keys, m: Table, n: Name)
    ensures var i := LastBy(rs, keys, n); var t := StoreAll(rs, keys, m);
            if i < |rs| then n in t && t[n] == rs[i]
            else (n in t <==> n in m) && (n in m ==> t[n] == m[n])
    decreases |rs|
  {
    if rs != [] {
      LastDuplicateWins(rs[1..], keys, Store(m, rs[0], keys), n);
    }
  }

  // ----- Reading a file ---------------------------------------------------------------

  datatype Loaded = Broken | Loaded(table: Table)

  /** Read records until nothing is left. */
  function Load(ks: seq<Call>, keys: Keys, bs: seq<Byte>, m: Table): Loaded
    requires ks != []
    decreases |bs|
  {
    if bs == [] then Loaded(m)
    else
      var r := ReadAll(ks, bs);
      if r.Bad? then Broken else Load(ks, keys, r.rest, Store(m, r.value, keys))
  }

  /** The loop of every `loadAll`: the cursor, as what lies ahead of it, is moved by each read
      until it is at the end. */
  method LoadAll(ks: seq<Call>, keys: Keys, file: seq<Byte>) returns (result: Loaded)
    requires ks != []
    ensures result == Load(ks, keys, file, map[])
  {
    var table: Table, ahead := map[], file;
    while ahead != []
      invariant Load(ks, keys, ahead, table) == Load(ks, keys, file, map[])
      decreases |ahead|
    {
      var r := ReadAll(ks, ahead);
      if r.Bad? {
        return Broken;
      }
      table := Store(table, r.value, keys);
      ahead := r.rest;
    }
    return Loaded(table);
  }

  // ----- Round trips ------------------------------------------------------------------

  ghost predicate CanPackFile(cs: seq<Code>, rs: seq<Record>) {
    forall i :: 0 <= i < |rs| ==> CanPackAll(cs, rs[i])
  }

  lemma {:induction false} LoadPacked(cs: seq<Code>, ks: seq<Call>, keys: Keys, rs: seq<Record>, m: Table)
    requires MatchesAll(cs, ks) && cs != [] && CanPackFile(cs, rs)
    ensures Load(ks, keys, PackRecords(cs, rs), m) == Loaded(StoreAll(CastRecords(cs, ks, rs), keys, m))
    decreases |rs|
  {
    if rs != [] {
      var r := CastAll(cs, ks, rs[0]);
      ReadPackedAll(cs, ks, rs[0], PackRecords(cs, rs[1..]));
      LoadPacked(cs, ks, keys, rs[1..], Store(m, r, keys));
      HeadTail(r, CastRecords(cs, ks, rs[1..]), CastRecords(cs, ks, rs));
    }
  }

  /** A file of records is read to its end and gives the table of the records as the calls see
      them. They are exactly the packed records if and only if the calls keep every field. */
  lemma FileRoundTrip(cs: seq<Code>, ks: seq<Call>, keys: Keys, rs: seq<Record>)
    requires MatchesAll(cs, ks) && cs != [] && CanPackFile(cs, rs)
    ensures Load(ks, keys, PackRecords(cs, rs), map[]) == Loaded(StoreAll(CastRecords(cs, ks, rs), keys, map[]))
    ensures CastRecords(cs, ks, rs) == rs <==> forall i :: 0 <= i < |rs| ==> KeepsAll(cs, ks, rs[i])
  {
    LoadPacked(cs, ks, keys, rs, map[]);
    CastRecordsIff(cs, ks, rs);
  }

  // ----- Exactly when each kind is rebuilt --------------------------------------------

  lemma OneDecides(cs: seq<Code>, ks: seq<Call>, j: nat, c: Code, k: Call, r: Record)
    requires CanPackAll(cs, r) && MatchesAll(cs, ks) && OnlyLossy(cs, ks, [j])
    requires j < |cs| && cs[j] == c && ks[j] == k
    ensures CanPack(c, r[j]) && Matches(c, k)
    ensures KeepsAll(cs, ks, r) <==> KeepsField(c, k, r[j])
  {
    LossyDecide(cs, ks, [j], r);
    assert j in [j];
  }

  /** A record of a PL connection always is. */
  lemma PlioExact(r: Record)
    requires CanPackAll(PLIO_CODES, r)
    ensures MatchesAll(PLIO_CODES, PLIO_CALLS) && KeepsAll(PLIO_CODES, PLIO_CALLS, r)
  {
    PlioMatch();
    assert OnlyLossy(PLIO_CODES, PLIO_CALLS, []);
    LossyDecide(PLIO_CODES, PLIO_CALLS, [], r);
  }

  lemma GmioLossy()
    ensures OnlyLossy(GMIO_CODES, GMIO_CALLS, [3])
  {
  }

  /** A record of a GMIO is if and only if its type fits in eight bits. */
  lemma GmioIff(r: Record)
    requires CanPackAll(GMIO_CODES, r)
    ensures MatchesAll(GMIO_CODES, GMIO_CALLS) && r[3].Num?
    ensures KeepsAll(GMIO_CODES, GMIO_CALLS, r) <==> 0 <= r[3].n < 256
  {
    GmioMatch();
    GmioLossy();
    OneDecides(GMIO_CODES, GMIO_CALLS, 3, H, Enum8, r);
  }

  lemma SharedLossy()
    ensures OnlyLossy(SHARED_CODES, SHARED_CALLS, [8])
  {
  }

  /** A record of a shared buffer is if and only if its truth value is 0 or 1. */
  lemma SharedIff(r: Record)
    requires CanPackAll(SHARED_CODES, r)
    ensures MatchesAll(SHARED_CODES, SHARED_CALLS) && r[8].Num?
    ensures KeepsAll(SHARED_CODES, SHARED_CALLS, r) <==> r[8].n <= 1
  {
    SharedMatch();
    SharedLossy();
    OneDecides(SHARED_CODES, SHARED_CALLS, 8, B, Bool, r);
  }

  lemma PortLossy()
    ensures OnlyLossy(PORT_CODES, PORT_CALLS, [6])
  {
    assert Lossless(Records(BD_CODES), RecordsOf(BD_CALLS));
  }

  lemma PortIff(r: Record)
    requires CanPackAll(PORT_CODES, r)
    ensures MatchesAll(PORT_CODES, PORT_CALLS) && r[6].Num?
    ensures KeepsAll(PORT_CODES, PORT_CALLS, r) <==> r[6].n <= 1
  {
    PortMatch();
    PortLossy();
    OneDecides(PORT_CODES, PORT_CALLS, 6, B, Bool, r);
  }

  lemma ExternalLossy()
    ensures OnlyLossy(EXTERNAL_CODES, EXTERNAL_CALLS, [2])
  {
  }

  /** A record of an external buffer, with its ports and their descriptors, is if and only if
      the truth value of every port is 0 or 1. */
  lemma ExternalIff(r: Record)
    requires CanPackAll(EXTERNAL_CODES, r)
    ensures MatchesAll(EXTERNAL_CODES, EXTERNAL_CALLS) && r[2].List?
    ensures forall i :: 0 <= i < |r[2].rs| ==> |r[2].rs[i]| == |PORT_CODES| && r[2].rs[i][6].Num?
    ensures KeepsAll(EXTERNAL_CODES, EXTERNAL_CALLS, r) <==> forall i :: 0 <= i < |r[2].rs| ==> r[2].rs[i][6].n <= 1
  {
    ExternalMatch();
    ExternalLossy();
    OneDecides(EXTERNAL_CODES, EXTERNAL_CALLS, 2, Records(PORT_CODES), RecordsOf(PORT_CALLS), r);
    PortsIff(r[2]);
  }

  lemma PortsIff(v: Val)
    requires CanPack(Records(PORT_CODES), v) && Matches(Records(PORT_CODES), RecordsOf(PORT_CALLS))
    ensures forall i :: 0 <= i < |v.rs| ==> |v.rs[i]| == |PORT_CODES| && v.rs[i][6].Num?
    ensures KeepsField(Records(PORT_CODES), RecordsOf(PORT_CALLS), v) <==> forall i :: 0 <= i < |v.rs| ==> v.rs[i][6].n <= 1
  {
    forall i | 0 <= i < |v.rs|
      ensures |v.rs[i]| == |PORT_CODES| && v.rs[i][6].Num?
      ensures KeepsAll(PORT_CODES, PORT_CALLS, v.rs[i]) <==> v.rs[i][6].n <= 1
    {
      assert CanPackAll(PORT_CODES, v.rs[i]);
      PortIff(v.rs[i]);
    }
  }

  const RTP_FLAGS: seq<nat> := [5, 6, 7, 9, 10]
  const RTP_UNSIGNED: seq<nat> := [8, 13, 14, 17, 18, 21, 22]

  lemma RtpLossy()
    ensures OnlyLossy(RTP_CODES, RTP_CALLS, RTP_FLAGS + RTP_UNSIGNED)
  {
    assert RTP_FLAGS + RTP_UNSIGNED == [5, 6, 7, 9, 10, 8, 13, 14, 17, 18, 21, 22];
  }

  ghost predicate FlagsAt(cs: seq<Code>, ks: seq<Call>, at: seq<nat>) {
    |cs| == |ks| && forall i :: i in at ==> i < |cs| && cs[i] == B && ks[i] == Bool
  }

  ghost predicate UnsignedAt(cs: seq<Code>, ks: seq<Call>, at: seq<nat>) {
    |cs| == |ks| && forall i :: i in at ==>
      i < |cs| && ((cs[i] == I && ks[i] == UInt32) || (cs[i] == H && ks[i] == UShort))
  }

  lemma RtpFields()
    ensures FlagsAt(RTP_CODES, RTP_CALLS, RTP_FLAGS) && UnsignedAt(RTP_CODES, RTP_CALLS, RTP_UNSIGNED)
  {
  }

  lemma FlagsAndUnsigned(cs: seq<Code>, ks: seq<Call>, flags: seq<nat>, unsigned: seq<nat>, r: Record)
    requires CanPackAll(cs, r) && MatchesAll(cs, ks) && OnlyLossy(cs, ks, flags + unsigned)
    requires FlagsAt(cs, ks, flags) && UnsignedAt(cs, ks, unsigned)
    ensures forall i :: i in flags + unsigned ==> i < |r| && r[i].Num?
    ensures KeepsAll(cs, ks, r) <==>
              (forall i :: i in flags ==> r[i].n <= 1) && (forall i :: i in unsigned ==> r[i].n >= 0)
  {
    forall i | i in flags + unsigned
      ensures i < |r| && r[i].Num?
      ensures KeepsField(cs[i], ks[i], r[i]) <==> (i in flags ==> r[i].n <= 1) && (i in unsigned ==> r[i].n >= 0)
    {
      assert CanPack(cs[i], r[i]) && Matches(cs[i], ks[i]);
    }
    LossyDecide(cs, ks, flags + unsigned, r);
    assert forall i :: i in flags || i in unsigned ==> i in flags + unsigned;
  }

  /** A record of a run-time parameter is if and only if its truth values are 0 or 1 and its
      size, addresses and lock numbers are not negative. */
  lemma RtpIff(r: Record)
    requires CanPackAll(RTP_CODES, r)
    ensures MatchesAll(RTP_CODES, RTP_CALLS)
    ensures forall i :: i in RTP_FLAGS + RTP_UNSIGNED ==> i < |r| && r[i].Num?
    ensures KeepsAll(RTP_CODES, RTP_CALLS, r) <==>
              (forall i :: i in RTP_FLAGS ==> r[i].n <= 1) && (forall i :: i in RTP_UNSIGNED ==> r[i].n >= 0)
  {
    RtpMatch();
    RtpLossy();
    RtpFields();
    FlagsAndUnsigned(RTP_CODES, RTP_CALLS, RTP_FLAGS, RTP_UNSIGNED, r);
  }

  lemma GraphLossy()
    ensures OnlyLossy(GRAPH_CODES, GRAPH_CALLS, [6, 7])
  {
  }

  lemma TwoDecide(cs: seq<Code>, ks: seq<Call>, i: nat, j: nat, c: Code, k: Call, d: Code, l: Call, r: Record)
    requires CanPackAll(cs, r) && MatchesAll(cs, ks) && OnlyLossy(cs, ks, [i, j])
    requires i < |cs| && cs[i] == c && ks[i] == k && j < |cs| && cs[j] == d && ks[j] == l
    ensures CanPack(c, r[i]) && Matches(c, k) && CanPack(d, r[j]) && Matches(d, l)
    ensures KeepsAll(cs, ks, r) <==> KeepsField(c, k, r[i]) && KeepsField(d, l, r[j])
  {
    LossyDecide(cs, ks, [i, j], r);
    assert i in [i, j] && j in [i, j];
  }

  /** A record of a graph is if and only if its addresses are below 2^31 and all its triggers
      are set: every trigger is read as set, whatever it was. */
  lemma GraphIff(r: Record)
    requires CanPackAll(GRAPH_CODES, r)
    ensures MatchesAll(GRAPH_CODES, GRAPH_CALLS) && r[6].Nums? && r[7].Nums?
    ensures KeepsAll(GRAPH_CODES, GRAPH_CALLS, r) <==>
              && (forall i :: 0 <= i < |r[6].ns| ==> r[6].ns[i] < P31)
              && (forall i :: 0 <= i < |r[7].ns| ==> r[7].ns[i] == 1)
  {
    GraphMatch();
    GraphLossy();
    TwoDecide(GRAPH_CODES, GRAPH_CALLS, 6, 7, VecOf(UI), VectorOf(Extended), Flags, VectorOf(UInt8), r);
  }

  // ----- Whole files ------------------------------------------------------------------

  lemma AllKept(cs: seq<Code>, ks: seq<Call>, keys: Keys, rs: seq<Record>)
    requires MatchesAll(cs, ks) && cs != [] && CanPackFile(cs, rs)
    requires forall i :: 0 <= i < |rs| ==> KeepsAll(cs, ks, rs[i])
    ensures Load(ks, keys, PackRecords(cs, rs), map[]) == Loaded(StoreAll(rs, keys, map[]))
  {
    FileRoundTrip(cs, ks, keys, rs);
  }

  lemma PlioFile(rs: seq<Record>)
    requires CanPackFile(PLIO_CODES, rs)
    ensures Load(PLIO_CALLS, NAME_KEYS, PackRecords(PLIO_CODES, rs), map[]) == Loaded(StoreAll(rs, NAME_KEYS, map[]))
  {
    PlioMatch();
    forall i | 0 <= i < |rs|
      ensures KeepsAll(PLIO_CODES, PLIO_CALLS, rs[i])
    {
      PlioExact(rs[i]);
    }
    AllKept(PLIO_CODES, PLIO_CALLS, NAME_KEYS, rs);
  }

  lemma GmioFile(rs: seq<Record>)
    requires CanPackFile(GMIO_CODES, rs) && forall i :: 0 <= i < |rs| ==> rs[i][3].n < 256 && rs[i][3].n >= 0
    ensures Load(GMIO_CALLS, NAME_KEYS, PackRecords(GMIO_CODES, rs), map[]) == Loaded(StoreAll(rs, NAME_KEYS, map[]))
  {
    GmioMatch();
    forall i | 0 <= i < |rs|
      ensures KeepsAll(GMIO_CODES, GMIO_CALLS, rs[i])
    {
      GmioIff(rs[i]);
    }
    AllKept(GMIO_CODES, GMIO_CALLS, NAME_KEYS, rs);
  }

  ghost predicate GoodRtp(r: Record)
    requires CanPackAll(RTP_CODES, r)
  {
    && (forall i :: i in RTP_FLAGS ==> i < |r| && r[i].Num? && r[i].n <= 1)
    && (forall i :: i in RTP_UNSIGNED ==> i < |r| && r[i].Num? && r[i].n >= 0)
  }

  /** Run-time parameters are found by their name and by their alias. */
  lemma RtpFile(rs: seq<Record>)
    requires CanPackFile(RTP_CODES, rs) && forall i :: 0 <= i < |rs| ==> GoodRtp(rs[i])
    ensures Load(RTP_CALLS, RTP_KEYS, PackRecords(RTP_CODES, rs), map[]) == Loaded(StoreAll(rs, RTP_KEYS, map[]))
  {
    RtpMatch();
    forall i | 0 <= i < |rs|
      ensures KeepsAll(RTP_CODES, RTP_CALLS, rs[i])
    {
      RtpIff(rs[i]);
    }
    AllKept(RTP_CODES, RTP_CALLS, RTP_KEYS, rs);
  }

  lemma SharedFile(rs: seq<Record>)
    requires CanPackFile(SHARED_CODES, rs) && forall i :: 0 <= i < |rs| ==> rs[i][8].n <= 1
    ensures Load(SHARED_CALLS, NAME_KEYS, PackRecords(SHARED_CODES, rs), map[]) == Loaded(StoreAll(rs, NAME_KEYS, map[]))
  {
    SharedMatch();
    forall i | 0 <= i < |rs|
      ensures KeepsAll(SHARED_CODES, SHARED_CALLS, rs[i])
    {
      SharedIff(rs[i]);
    }
    AllKept(SHARED_CODES, SHARED_CALLS, NAME_KEYS, rs);
  }

  /** Every port of an external buffer has a truth value of 0 or 1. */
  ghost predicate GoodExternal(r: Record) {
    |r| > 2 && r[2].List? && forall i :: 0 <= i < |r[2].rs| ==> |r[2].rs[i]| > 6 && r[2].rs[i][6].Num? && r[2].rs[i][6].n <= 1
  }

  lemma ExternalFile(rs: seq<Record>)
    requires CanPackFile(EXTERNAL_CODES, rs) && forall i :: 0 <= i < |rs| ==> GoodExternal(rs[i])
    ensures Load(EXTERNAL_CALLS, NAME_KEYS, PackRecords(EXTERNAL_CODES, rs), map[]) == Loaded(StoreAll(rs, NAME_KEYS, map[]))
  {
    ExternalMatch();
    forall i | 0 <= i < |rs|
      ensures KeepsAll(EXTERNAL_CODES, EXTERNAL_CALLS, rs[i])
    {
      assert GoodExternal(rs[i]);
      ExternalIff(rs[i]);
    }
    AllKept(EXTERNAL_CODES, EXTERNAL_CALLS, NAME_KEYS, rs);
  }

  /** The addresses of a graph are below 2^31 and all its triggers are set. */
  ghost predicate GoodGraph(r: Record) {
    && |r| > 7 && r[6].Nums? && r[7].Nums?
    && (forall i :: 0 <= i < |r[6].ns| ==> r[6].ns[i] < P31) && (forall i :: 0 <= i < |r[7].ns| ==> r[7].ns[i] == 1)
  }

  lemma GraphFile(rs: seq<Record>)
    requires CanPackFile(GRAPH_CODES, rs) && forall i :: 0 <= i < |rs| ==> GoodGraph(rs[i])
    ensures Load(GRAPH_CALLS, NAME_KEYS, PackRecords(GRAPH_CODES, rs), map[]) == Loaded(StoreAll(rs, NAME_KEYS, map[]))
  {
    GraphMatch();
    forall i | 0 <= i < |rs|
      ensures KeepsAll(GRAPH_CODES, GRAPH_CALLS, rs[i])
    {
      assert GoodGraph(rs[i]);
      GraphIff(rs[i]);
    }
    AllKept(GRAPH_CODES, GRAPH_CALLS, NAME_KEYS, rs);
  }

  // ----- Found by name ----------------------------------------------------------------

  /** The fields of a record by the names the script gives them. */
  const GMIO_FIELDS := ["id", "name", "logical_name", "type", "shim_column", "channel_number", "stream_id", "burst_length_in_16byte"]
  const PLIO_FIELDS := ["id", "name", "logical_name", "shim_column", "slaveOrMaster", "stream_id"]
  const EXTERNAL_FIELDS := ["id", "name", "shimPortConfigs"]
  const SHARED_FIELDS :=
    ["id", "name", "graph_id", "size", "column", "row", "num_inputs", "num_outputs", "initialized",
     "address", "producer_lock_ids", "consumer_lock_ids"]
  const GRAPH_FIELDS :=
    ["id", "name", "core_columns", "core_rows", "iteration_memory_columns", "iteration_memory_rows",
     "iteration_memory_addresses", "multirate_triggers"]
  const RTP_FIELDS :=
    ["port_id", "alias_id", "port_name", "alias_name", "graph_id", "is_input", "is_asynchronous", "is_connected",
     "number_of_bytes", "is_PL_RTP", "requires_lock", "selector_column", "selector_row", "selector_address",
     "selector_lock_id", "ping_buffer_column", "ping_buffer_row", "ping_buffer_address", "ping_buffer_lock_id",
     "pong_buffer_column", "pong_buffer_row", "pong_buffer_address", "pong_buffer_lock_id"]

  /** A kind of record: the names, codes and calls of its fields. */
  datatype Kind = Kind(fields: seq<string>, codes: seq<Code>, calls: seq<Call>)

  const GMIO := Kind(GMIO_FIELDS, GMIO_CODES, GMIO_CALLS)
  const PLIO := Kind(PLIO_FIELDS, PLIO_CODES, PLIO_CALLS)
  const EXTERNAL := Kind(EXTERNAL_FIELDS, EXTERNAL_CODES, EXTERNAL_CALLS)
  const SHARED := Kind(SHARED_FIELDS, SHARED_CODES, SHARED_CALLS)
  const GRAPH := Kind(GRAPH_FIELDS, GRAPH_CODES, GRAPH_CALLS)
  const RTP := Kind(RTP_FIELDS, RTP_CODES, RTP_CALLS)

  /** The record's field called `f` holds the string `n`. */
  predicate Called(fields: seq<string>, f: string, r: Record, n: Name) {
    exists i :: 0 <= i < |fields| && i < |r| && fields[i] == f && r[i] == Str(n)
  }

  function CalledBy(fields: seq<string>, f: string, n: Name): Record -> bool {
    (r: Record) => Called(fields, f, r, n)
  }

  /** The kinds that are stored under their name. */
  predicate IsNamed(k: Kind) {
    k == GMIO || k == PLIO || k == EXTERNAL || k == SHARED || k == GRAPH
  }

  lemma OneName(k: Kind, i: nat)
    requires IsNamed(k) && i < |k.fields|
    ensures |k.fields| == |k.codes| > 1 && k.codes[1] == S && k.codes != []
    ensures k.fields[i] == "name" <==> i == 1
  {
  }

  lemma GoesByName(k: Kind, r: Record, n: Name)
    requires IsNamed(k) && CanPackAll(k.codes, r)
    ensures GoesBy(r, NAME_KEYS, n) <==> Called(k.fields, "name", r, n)
  {
    hide IsNamed;
    OneNamed(k);
    assert CanPack(k.codes[1], r[1]);
    if GoesBy(r, NAME_KEYS, n) {
      assert k.fields[1] == "name" && r[1] == Str(n);
    }
  }

  lemma OneNamed(k: Kind)
    requires IsNamed(k)
    ensures |k.fields| == |k.codes| > 1 && k.codes[1] == S
    ensures forall i :: 0 <= i < |k.fields| ==> (k.fields[i] == "name" <==> i == 1)
  {
    OneName(k, 0);
    forall i | 0 <= i < |k.fields|
      ensures k.fields[i] == "name" <==> i == 1
    {
      OneName(k, i);
    }
  }

  /** A name is in the table exactly if a record is called so, and stands for the last such. */
  ghost predicate Finds(t: Loaded, rs: seq<Record>, n: Name, called: Record -> bool) {
    && t.Loaded?
    && (n in t.table <==> exists i :: 0 <= i < |rs| && called(rs[i]))
    && (forall i :: 0 <= i < |rs| && called(rs[i]) && (forall j :: i < j < |rs| ==> !called(rs[j])) ==>
          n in t.table && t.table[n] == rs[i])
  }

  lemma LastCalled(rs: seq<Record>, keys: Keys, n: Name, called: Record -> bool)
    requires Agree(rs, keys, n, called)
    ensures Finds(Loaded(StoreAll(rs, keys, map[])), rs, n, called)
  {
    LastDuplicateWins(rs, keys, map[], n);
    var k := LastBy(rs, keys, n);
    if k < |rs| {
      assert called(rs[k]);
    }
  }

  /** The records of a file that go by a name are those that are called so. */
  ghost predicate Agree(rs: seq<Record>, keys: Keys, n: Name, called: Record -> bool) {
    forall i :: 0 <= i < |rs| ==> (GoesBy(rs[i], keys, n) <==> called(rs[i]))
  }

  lemma NamesAgree(k: Kind, rs: seq<Record>, n: Name)
    requires IsNamed(k) && CanPackFile(k.codes, rs)
    ensures Agree(rs, NAME_KEYS, n, CalledBy(k.fields, "name", n))
  {
    hide IsNamed, GoesBy, Called, CanPackAll;
    forall i | 0 <= i < |rs|
      ensures GoesBy(rs[i], NAME_KEYS, n) <==> CalledBy(k.fields, "name", n)(rs[i])
    {
      GoesByName(k, rs[i], n);
    }
  }

  /** For each of these kinds and every file of records the parser keeps: a name is found if and
      only if a record has it in its field "name", and gives the last such record. */
  lemma FoundByName(k: Kind, rs: seq<Record>, n: Name)
    requires IsNamed(k) && CanPackFile(k.codes, rs) && MatchesAll(k.codes, k.calls)
    requires forall i :: 0 <= i < |rs| ==> KeepsAll(k.codes, k.calls, rs[i])
    ensures Finds(Load(k.calls, NAME_KEYS, PackRecords(k.codes, rs), map[]), rs, n, CalledBy(k.fields, "name", n))
  {
    hide IsNamed, CanPackFile, MatchesAll, KeepsAll, Finds, Load, StoreAll, PackRecords, CalledBy, Agree;
    OneNamed(k);
    AllKept(k.codes, k.calls, NAME_KEYS, rs);
    NamesAgree(k, rs, n);
    LastCalled(rs, NAME_KEYS, n, CalledBy(k.fields, "name", n));
  }

  predicate CalledRtp(r: Record, n: Name) {
    Called(RTP_FIELDS, "port_name", r, n) || (n != [] && Called(RTP_FIELDS, "alias_name", r, n))
  }

  function CalledByRtp(n: Name): Record -> bool {
    (r: Record) => CalledRtp(r, n)
  }

  lemma RtpNames(i: nat)
    requires i < |RTP_FIELDS|
    ensures |RTP_FIELDS| == |RTP_CODES| && RTP_CODES[2] == S && RTP_CODES[3] == S
    ensures RTP_FIELDS[i] == "port_name" <==> i == 2
    ensures RTP_FIELDS[i] == "alias_name" <==> i == 3
  {
  }

  lemma RtpNamesAgree(rs: seq<Record>, n: Name)
    requires CanPackFile(RTP_CODES, rs)
    ensures Agree(rs, RTP_KEYS, n, CalledByRtp(n))
  {
    hide GoesBy, Called, CanPackAll;
    RtpNamed();
    forall i | 0 <= i < |rs|
      ensures GoesBy(rs[i], RTP_KEYS, n) <==> CalledByRtp(n)(rs[i])
    {
      GoesByRtp(RTP_FIELDS, RTP_CODES, rs[i], n);
    }
  }

  lemma RtpNamed()
    ensures |RTP_FIELDS| == |RTP_CODES| > 3 && RTP_CODES[2] == S && RTP_CODES[3] == S
    ensures forall i :: 0 <= i < |RTP_FIELDS| ==> (RTP_FIELDS[i] == "port_name" <==> i == 2)
    ensures forall i :: 0 <= i < |RTP_FIELDS| ==> (RTP_FIELDS[i] == "alias_name" <==> i == 3)
  {
    RtpNames(0);
    forall i | 0 <= i < |RTP_FIELDS|
      ensures RTP_FIELDS[i] == "port_name" <==> i == 2
      ensures RTP_FIELDS[i] == "alias_name" <==> i == 3
    {
      RtpNames(i);
    }
  }

  lemma GoesByRtp(fields: seq<string>, codes: seq<Code>, r: Record, n: Name)
    requires |fields| == |codes| > 3 && codes[2] == S && codes[3] == S && CanPackAll(codes, r)
    requires forall i :: 0 <= i < |fields| ==> (fields[i] == "port_name" <==> i == 2)
    requires forall i :: 0 <= i < |fields| ==> (fields[i] == "alias_name" <==> i == 3)
    ensures GoesBy(r, RTP_KEYS, n) <==>
            Called(fields, "port_name", r, n) || (n != [] && Called(fields, "alias_name", r, n))
  {
    assert CanPack(codes[2], r[2]) && CanPack(codes[3], r[3]);
    if r[2] == Str(n) {
      assert fields[2] == "port_name";
    }
    if r[3] == Str(n) {
      assert fields[3] == "alias_name";
    }
  }

  /** A run-time parameter is found by its port name, and by its alias if that is not empty. */
  lemma RtpFoundByName(rs: seq<Record>, n: Name)
    requires CanPackFile(RTP_CODES, rs) && forall i :: 0 <= i < |rs| ==> GoodRtp(rs[i])
    ensures Finds(Load(RTP_CALLS, RTP_KEYS, PackRecords(RTP_CODES, rs), map[]), rs, n, CalledByRtp(n))
  {
    hide GoodRtp, CanPackFile, Finds, Load, StoreAll, PackRecords, CalledByRtp, Agree;
    RtpFile(rs);
    RtpNamesAgree(rs, n);
    LastCalled(rs, RTP_KEYS, n, CalledByRtp(n));
  }

  // ----- The driver file --------------------------------------------------------------

  /** A driver record and, if the file has a partition part, its start, its width and the list of
      partitions. */
  function PackDriver(d: Record, overlay: seq<Record>): seq<Byte>
    requires CanPackAll(DRIVER_CODES, d) && |overlay| <= 1 && CanPackFile(OVERLAY_CODES, overlay)
  {
    PackAll(DRIVER_CODES, d) + if overlay == [] then [] else PackAll(OVERLAY_CODES, overlay[0])
  }

  function PartitionsOf(overlay: Record): seq<Record> {
    if |overlay| == 3 && overlay[2].List? then overlay[2].rs else []
  }

  /** The partition part is read if the cursor is not at the end; only its list is kept. */
  function LoadDriver(bs: seq<Byte>): Out<(Record, seq<Record>)> {
    var d := ReadAll(DRIVER_CALLS, bs);
    if d.Bad? then Bad
    else if d.rest == [] then Got((d.value, []), [])
    else
      var o := ReadAll(OVERLAY_CALLS, d.rest);
      if o.Bad? then Bad else Got((d.value, PartitionsOf(o.value)), o.rest)
  }

  lemma ReadExact(cs: seq<Code>, ks: seq<Call>, vs: Record, rest: seq<Byte>)
    requires CanPackAll(cs, vs) && MatchesAll(cs, ks) && OnlyLossy(cs, ks, [])
    ensures ReadAll(ks, PackAll(cs, vs) + rest) == Got(vs, rest)
  {
    ReadPackedAll(cs, ks, vs, rest);
    LossyDecide(cs, ks, [], vs);
    CastAllIff(cs, ks, vs);
  }

  lemma DriverLossless()
    ensures OnlyLossy(DRIVER_CODES, DRIVER_CALLS, [])
  {
  }

  lemma OverlayLossless()
    ensures OnlyLossy(OVERLAY_CODES, OVERLAY_CALLS, [])
  {
    assert Lossless(Records(PARTITION_CODES), RecordsOf(PARTITION_CALLS));
  }

  lemma OverlayRead(o: Record)
    requires CanPackAll(OVERLAY_CODES, o)
    ensures ReadAll(OVERLAY_CALLS, PackAll(OVERLAY_CODES, o)) == Got(o, []) && PackAll(OVERLAY_CODES, o) != []
  {
    OverlayMatch();
    OverlayLossless();
    ReadExact(OVERLAY_CODES, OVERLAY_CALLS, o, []);
    assert PackAll(OVERLAY_CODES, o) + [] == PackAll(OVERLAY_CODES, o);
  }

  /** The driver record and the partitions, or none, are read back to the end of the file. */
  lemma DriverRoundTrip(d: Record, overlay: seq<Record>)
    requires CanPackAll(DRIVER_CODES, d) && |overlay| <= 1 && CanPackFile(OVERLAY_CODES, overlay)
    ensures LoadDriver(PackDriver(d, overlay)) == Got((d, if overlay == [] then [] else PartitionsOf(overlay[0])), [])
  {
    DriverMatch();
    DriverLossless();
    if overlay == [] {
      ReadExact(DRIVER_CODES, DRIVER_CALLS, d, []);
    } else {
      ReadExact(DRIVER_CODES, DRIVER_CALLS, d, PackAll(OVERLAY_CODES, overlay[0]));
      OverlayRead(overlay[0]);
    }
  }
}
