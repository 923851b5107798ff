/**
 What a session means on a device that is registers and memory: every read is answered with what
 was written last, whatever other calls are made in between.
 */
module IpcMeaning {
  import opened LittleEndian
  import opened IpcWire
  import opened IpcDispatch
  import opened IpcFraming
  import opened IpcClient
  import opened Search

  /** The two register spaces and the memory, which read as zero where nothing was written. */
  datatype View = View(regs: map<U64, U32>, npi: map<U64, U32>, mem: map<nat, Byte>)

  function RegAt(m: map<U64, U32>, a: U64): U32 {
    if a in m then m[a] else 0
  }

  function ByteAt(m: map<nat, Byte>, x: nat): Byte {
    if x in m then m[x] else 0
  }

  /** Memory after bytes were written from `a` on. */
  function Stored(mem: map<nat, Byte>, a: nat, bs: seq<Byte>): map<nat, Byte> {
    if bs == [] then mem
    else
      var n := |bs| - 1;
      Stored(mem, a, bs[..n])[a + n := bs[n]]
  }

  lemma {:induction false} StoredAt(mem: map<nat, Byte>, a: nat, bs: seq<Byte>, x: nat)
    ensures ByteAt(Stored(mem, a, bs), x) == if a <= x < a + |bs| then bs[x - a] else ByteAt(mem, x)
    decreases |bs|
  {
    if bs != [] {
      StoredAt(mem, a, bs[..|bs| - 1], x);
    }
  }

  // ----- Devices ----------------------------------------------------------------------

  ghost predicate RegisterLaws<D(!new)>(dev: Device<D>, view: D -> View) {
    && (forall d: D, a: U64, v: U32 {:trigger dev.write32(d, a, v)} ::
          view(dev.write32(d, a, v)) == view(d).(regs := view(d).regs[a := v]))
    && (forall d: D, a: U64 {:trigger dev.read32(d, a)} ::
          view(dev.read32(d, a).0) == view(d) && dev.read32(d, a).1 == RegAt(view(d).regs, a))
  }

  ghost predicate NpiLaws<D(!new)>(dev: Device<D>, view: D -> View) {
    && (forall d: D, a: U64, v: U32 {:trigger dev.npiWrite32(d, a, v)} ::
          view(dev.npiWrite32(d, a, v)) == view(d).(npi := view(d).npi[a := v]))
    && (forall d: D, a: U64 {:trigger dev.npiRead32(d, a)} ::
          view(dev.npiRead32(d, a).0) == view(d) && dev.npiRead32(d, a).1 == RegAt(view(d).npi, a))
  }

  ghost predicate MemoryLaws<D(!new)>(dev: Device<D>, view: D -> View) {
    && (forall d: D, a: U64, bs: seq<Byte> {:trigger dev.writeGM(d, a, bs)} ::
          view(dev.writeGM(d, a, bs)) == view(d).(mem := Stored(view(d).mem, a, bs)))
    && (forall d: D, a: U64, i: nat {:trigger dev.gmByte(d, a, i)} ::
          dev.gmByte(d, a, i) == ByteAt(view(d).mem, a + i))
  }

  ghost predicate OtherLaws<D(!new)>(dev: Device<D>, view: D -> View) {
    && (forall d: D, n: U32 {:trigger dev.alloc(d, n)} :: view(dev.alloc(d, n).0) == view(d))
    && (forall d: D, a: U64 {:trigger dev.free(d, a)} :: view(dev.free(d, a)) == view(d))
    && (forall d: D {:trigger dev.startPlio(d)} :: view(dev.startPlio(d)) == view(d))
    && (forall d: D, name: seq<Byte> {:trigger dev.graphInit(d, name)} :: view(dev.graphInit(d, name).0) == view(d))
    && (forall d: D, code: int {:trigger dev.setReturnValue(d, code)} :: view(dev.setReturnValue(d, code)) == view(d))
  }

  /** A device whose visible state is registers and memory that only writes change. */
  ghost predicate Simulates<D(!new)>(dev: Device<D>, view: D -> View) {
    RegisterLaws(dev, view) && NpiLaws(dev, view) && MemoryLaws(dev, view) && OtherLaws(dev, view)
  }

  /** There is one: the view itself. */
  function Plain(): Device<View> {
    Device(
      (d: View, a: U64, v: U32) => d.(regs := d.regs[a := v]),
      (d: View, a: U64) => (d, RegAt(d.regs, a)),
      (d: View, a: U64, v: U32) => d.(npi := d.npi[a := v]),
      (d: View, a: U64) => (d, RegAt(d.npi, a)),
      (d: View, a: U64, bs: seq<Byte>) => d.(mem := Stored(d.mem, a, bs)),
      (d: View, a: U64, i: nat) => ByteAt(d.mem, a + i),
      (d: View, n: U32) => (d, n),
      (d: View, a: U64) => d,
      (d: View) => d,
      (d: View, name: seq<Byte>) => (d, true),
      (d: View, code: int) => d)
  }

  lemma PlainRegisters(view: View -> View)
    requires forall d: View :: view(d) == d
    ensures RegisterLaws(Plain(), view) && NpiLaws(Plain(), view)
  {
    hide RegAt, ByteAt, Stored;
  }

  lemma PlainSimulates(view: View -> View)
    requires forall d: View :: view(d) == d
    ensures Simulates(Plain(), view)
  {
    hide RegAt, ByteAt, Stored, RegisterLaws, NpiLaws;
    PlainRegisters(view);
  }

  // ----- What was written last --------------------------------------------------------

  predicate WritesRegister(c: ClientCall, a: U64) {
    c.Write32? && c.addr == a
  }

  predicate WritesNpi(c: ClientCall, a: U64) {
    c.NpiWrite32? && c.addr == a
  }

  predicate WritesByte(c: ClientCall, x: nat) {
    c.WriteMem? && c.addr <= x < c.addr + |c.bytes|
  }

  /** What the calls before the k-th leave in a register, or in a byte of memory, that held
      `first`. */
  function Register(cs: seq<ClientCall>, k: nat, a: U64, first: U32): U32
    requires k <= |cs|
  {
    var j := Last(cs, k, (c: ClientCall) => WritesRegister(c, a));
    if j < k then cs[j].value else first
  }

  function NpiRegister(cs: seq<ClientCall>, k: nat, a: U64, first: U32): U32
    requires k <= |cs|
  {
    var j := Last(cs, k, (c: ClientCall) => WritesNpi(c, a));
    if j < k then cs[j].value else first
  }

  function MemoryByte(cs: seq<ClientCall>, k: nat, x: nat, first: Byte): Byte
    requires k <= |cs|
  {
    var j := Last(cs, k, (c: ClientCall) => WritesByte(c, x));
    if j < k then cs[j].bytes[x - cs[j].addr] else first
  }

  /** What a call leaves of a view. */
  function Effect(v: View, c: ClientCall): View {
    match c
    case Write32(a, x) => v.(regs := v.regs[a := x])
    case NpiWrite32(a, x) => v.(npi := v.npi[a := x])
    case WriteMem(a, bs) => v.(mem := Stored(v.mem, a, bs))
    case _ => v
  }

  lemma EffectAt(v: View, c: ClientCall, a: U64, x: nat)
    ensures var w := Effect(v, c);
            && RegAt(w.regs, a) == (if WritesRegister(c, a) then c.value else RegAt(v.regs, a))
            && RegAt(w.npi, a) == (if WritesNpi(c, a) then c.value else RegAt(v.npi, a))
            && ByteAt(w.mem, x) == (if WritesByte(c, x) then c.bytes[x - c.addr] else ByteAt(v.mem, x))
  {
    if c.WriteMem? {
      StoredAt(v.mem, c.addr, c.bytes, x);
    }
  }

  /** The device call behind a call that writes. */
  lemma Writes<D(!new)>(dev: Device<D>, d: D, c: ClientCall)
    ensures var e := ServerOf(dev)(d, CallOf(c).cmd).dev;
            && (c.Write32? ==> e == dev.write32(d, c.addr, c.value))
            && (c.NpiWrite32? ==> e == dev.npiWrite32(d, c.addr, c.value))
            && (c.WriteMem? ==> e == if c.bytes == [] then d else dev.writeGM(d, c.addr, c.bytes))
  {
  }

  /** The others change nothing that can be seen. */
  lemma OthersKeep<D(!new)>(dev: Device<D>, view: D -> View, d: D, c: ClientCall)
    requires Simulates(dev, view) && !c.Write32? && !c.NpiWrite32? && !c.WriteMem?
    ensures view(ServerOf(dev)(d, CallOf(c).cmd).dev) == view(d)
  {
    hide RegAt, ByteAt, Stored;
  }

  lemma ServedEffect<D(!new)>(dev: Device<D>, view: D -> View, d: D, c: ClientCall)
    requires Simulates(dev, view)
    ensures view(ServerOf(dev)(d, CallOf(c).cmd).dev) == Effect(view(d), c)
  {
    hide ServerOf, CallOf, RegAt, ByteAt;
    Writes(dev, d, c);
    if !c.Write32? && !c.NpiWrite32? && !c.WriteMem? {
      OthersKeep(dev, view, d, c);
    }
  }

  /** The next call counts if it hits. */
  lemma NextLast(cs: seq<ClientCall>, k: nat, a: U64, x: nat, reg: U32, npi: U32, byte: Byte)
    requires k < |cs|
    ensures Register(cs, k + 1, a, reg) == if WritesRegister(cs[k], a) then cs[k].value else Register(cs, k, a, reg)
    ensures NpiRegister(cs, k + 1, a, npi) == if WritesNpi(cs[k], a) then cs[k].value else NpiRegister(cs, k, a, npi)
    ensures MemoryByte(cs, k + 1, x, byte)
            == if WritesByte(cs[k], x) then cs[k].bytes[x - cs[k].addr] else MemoryByte(cs, k, x, byte)
  {
  }

  /** Register `a` of each space and byte `x` are as the first `k` calls wrote them last. */
  ghost predicate Shows(w: View, cs: seq<ClientCall>, k: nat, first: View, a: U64, x: nat)
    requires k <= |cs|
  {
    && RegAt(w.regs, a) == Register(cs, k, a, RegAt(first.regs, a))
    && RegAt(w.npi, a) == NpiRegister(cs, k, a, RegAt(first.npi, a))
    && ByteAt(w.mem, x) == MemoryByte(cs, k, x, ByteAt(first.mem, x))
  }

  lemma ShowsNext(w: View, cs: seq<ClientCall>, k: nat, first: View, a: U64, x: nat)
    requires k < |cs| && Shows(w, cs, k, first, a, x)
    ensures Shows(Effect(w, cs[k]), cs, k + 1, first, a, x)
  {
    hide RegAt, ByteAt, Register, NpiRegister, MemoryByte, Effect;
    EffectAt(w, cs[k], a, x);
    NextLast(cs, k, a, x, RegAt(first.regs, a), RegAt(first.npi, a), ByteAt(first.mem, x));
  }

  lemma ShowsFirst(first: View, cs: seq<ClientCall>, a: U64, x: nat)
    ensures Shows(first, cs, 0, first, a, x)
  {
  }

  lemma NoneServed<D(!new)>(dev: Device<D>, d: D, cs: seq<ClientCall>)
    ensures Before(dev, d, cs, 0) == d
  {
  }

  /** After any calls, registers and memory are as they were written last. */
  lemma {:induction false} CallsChange<D(!new)>(dev: Device<D>, view: D -> View, d: D, cs: seq<ClientCall>, k: nat, a: U64, x: nat)
    requires Simulates(dev, view) && k <= |cs|
    ensures Shows(view(Before(dev, d, cs, k)), cs, k, view(d), a, x)
    decreases k
  {
    hide Simulates, CallOf, ServerOf, Effect, Shows, Before, Answered;
    if k == 0 {
      assert Before(dev, d, cs, 0) == d by { NoneServed(dev, d, cs); }
      ShowsFirst(view(d), cs, a, x);
    } else {
      var e := Before(dev, d, cs, k - 1);
      CallsChange(dev, view, d, cs, k - 1, a, x);
      ThenNext(dev, d, cs, k - 1);
      ServedEffect(dev, view, e, cs[k - 1]);
      ShowsNext(view(e), cs, k - 1, view(d), a, x);
    }
  }

  // ----- Reads ------------------------------------------------------------------------

  lemma ReadServed<D(!new)>(dev: Device<D>, e: D, c: ClientCall)
    ensures var r := ServerOf(dev)(e, CallOf(c).cmd);
            && (c.Read32? ==> r.resp == Response(0, dev.read32(e, c.addr).1) && r.data == [])
            && (c.NpiRead32? ==> r.resp == Response(0, dev.npiRead32(e, c.addr).1) && r.data == [])
  {
  }

  lemma MemoryServed<D(!new)>(dev: Device<D>, e: D, c: ClientCall, i: nat)
    requires c.ReadMem?
    ensures var r := ServerOf(dev)(e, CallOf(c).cmd);
            && r.resp == Response(0, 0) && |r.data| == c.size % P32
            && (i < |r.data| ==> r.data[i] == dev.gmByte(e, c.addr, i))
  {
  }

  /** Data are what the calls before the k-th wrote last from `a` on. */
  ghost predicate BytesLastWritten(cs: seq<ClientCall>, k: nat, a: nat, first: map<nat, Byte>, data: seq<Byte>)
    requires k <= |cs|
  {
    forall i :: 0 <= i < |data| ==> data[i] == MemoryByte(cs, k, a + i, ByteAt(first, a + i))
  }

  lemma ByteRead<D(!new)>(dev: Device<D>, view: D -> View, d: D, cs: seq<ClientCall>, k: nat, i: nat)
    requires Simulates(dev, view) && k < |cs| && cs[k].ReadMem?
    ensures var r, x := Answered(dev, d, cs, k), cs[k].addr + i;
            && r.resp == Response(0, 0) && |r.data| == cs[k].size % P32
            && (i < |r.data| ==> r.data[i] == MemoryByte(cs, k, x, ByteAt(view(d).mem, x)))
  {
    hide Answered, Before, CallOf, ServerOf, MemoryByte, RegAt, ByteAt, Register, NpiRegister, RegisterLaws, NpiLaws, OtherLaws;
    var e := Before(dev, d, cs, k);
    ThenNext(dev, d, cs, k);
    MemoryServed(dev, e, cs[k], i);
    CallsChange(dev, view, d, cs, k, 0, cs[k].addr + i);
  }

  lemma MemoryRead<D(!new)>(dev: Device<D>, view: D -> View, d: D, cs: seq<ClientCall>, k: nat)
    requires Simulates(dev, view) && k < |cs| && cs[k].ReadMem?
    ensures var r := Answered(dev, d, cs, k);
            && r.resp == Response(0, 0) && |r.data| == cs[k].size % P32
            && BytesLastWritten(cs, k, cs[k].addr, view(d).mem, r.data)
  {
    hide Answered, MemoryByte, RegAt, ByteAt, Simulates;
    var data, a := Answered(dev, d, cs, k).data, cs[k].addr;
    ByteRead(dev, view, d, cs, k, 0);
    forall i | 0 <= i < |data|
      ensures data[i] == MemoryByte(cs, k, a + i, ByteAt(view(d).mem, a + i))
    {
      ByteRead(dev, view, d, cs, k, i);
    }
  }

  lemma RegisterRead<D(!new)>(dev: Device<D>, view: D -> View, d: D, cs: seq<ClientCall>, k: nat)
    requires Simulates(dev, view) && k < |cs| && (cs[k].Read32? || cs[k].NpiRead32?)
    ensures var v, r, a := view(d), Answered(dev, d, cs, k), cs[k].addr;
            && r.data == []
            && (cs[k].Read32? ==> r.resp == Response(0, Register(cs, k, a, RegAt(v.regs, a))))
            && (cs[k].NpiRead32? ==> r.resp == Response(0, NpiRegister(cs, k, a, RegAt(v.npi, a))))
  {
    hide ServerOf, CallOf, Before, Answered, Register, NpiRegister;
    var e, a := Before(dev, d, cs, k), cs[k].addr;
    ThenNext(dev, d, cs, k);
    ReadServed(dev, e, cs[k]);
    CallsChange(dev, view, d, cs, k, a, 0);
  }

  /** A call that reads gets what the calls before it wrote last, over what `first` showed. */
  ghost predicate LastWritten(cs: seq<ClientCall>, k: nat, first: View, r: Result)
    requires k < |cs|
  {
    var c := cs[k];
    && (c.Read32? ==> r == Result(Response(0, Register(cs, k, c.addr, RegAt(first.regs, c.addr))), []))
    && (c.NpiRead32? ==> r == Result(Response(0, NpiRegister(cs, k, c.addr, RegAt(first.npi, c.addr))), []))
    && (c.ReadMem? ==> r.resp == Response(0, 0) && |r.data| == c.size % P32
                       && BytesLastWritten(cs, k, c.addr, first.mem, r.data))
  }

  /** Every read of every session is answered with what was written last. */
  lemma ReadsSeeLastWrites<D(!new)>(dev: Device<D>, view: D -> View, d: D, cs: seq<ClientCall>, k: nat)
    requires Simulates(dev, view) && k < |cs|
    ensures var r := Answered(dev, d, cs, k); LastWritten(cs, k, view(d), Result(r.resp, r.data))
  {
    hide Simulates, Answered, Register, NpiRegister, BytesLastWritten;
    if cs[k].ReadMem? {
      MemoryRead(dev, view, d, cs, k);
    } else if cs[k].Read32? || cs[k].NpiRead32? {
      RegisterRead(dev, view, d, cs, k);
    }
  }

  /** End to end: over every such device, for every session whose sizes fit, however the bytes are
      cut and the threads interleave, a read made while connected returns what the calls before it
      wrote last. */
  lemma RunReadsLastWrites<D(!new)>(dev: Device<D>, view: D -> View, start: D, cs: seq<ClientCall>,
                                    run: seq<State<D>>, steps: seq<Step>, i: nat, k: nat)
    requires Simulates(dev, view)
    requires AllFit(cs) && IsRun(Session(ServerOf(dev), start, Calls(cs)), run, steps) && i < |run|
    requires k < |run[i].results| && k < Connected(cs)
    ensures LastWritten(cs, k, view(start), run[i].results[k])
  {
    hide Simulates, IsRun, LastWritten, Answered, Before, CallOf, ServerOf, AllFit;
    RunAnswers(dev, start, cs, run, steps, i, k);
    ReadsSeeLastWrites(dev, view, start, cs, k);
    var r := Answered(dev, start, cs, k);
    WithoutData(cs, k, view(start), r.resp, r.data);
  }

  lemma WithoutData(cs: seq<ClientCall>, k: nat, first: View, resp: Response, data: seq<Byte>)
    requires k < |cs| && LastWritten(cs, k, first, Result(resp, data))
    ensures LastWritten(cs, k, first, Result(resp, if cs[k].ReadMem? then data else []))
  {
  }
}
