/**
 The calls a client program makes of the simulator IPC, and what they mean: on every device that
 behaves like registers and memory, every call of every session has, however its bytes are cut,
 the effect and the answer it would have on the device itself.
 */
module IpcClient {
  import opened LittleEndian
  import opened Options
  import opened IpcWire
  import opened IpcDispatch
  import opened IpcFraming
  import opened IpcBreaks

  /** The functions of the backend; `Disconnect` is the exit command. An empty graph name is
      refused before anything is sent. */
  datatype ClientCall =
    | Write32(addr: U64, value: U32)
    | Read32(addr: U64)
    | NpiWrite32(addr: U64, value: U32)
    | NpiRead32(addr: U64)
    | WriteMem(addr: U64, bytes: seq<Byte>)
    | WriteNull(addr: U64, size: nat)
    | ReadMem(addr: U64, size: nat)
    | Alloc(bytesWanted: U32)
    | Free(addr: U64)
    | StartPlios
    | InitGraph(name: seq<Byte>)
    | Disconnect(exitCode: int)

  function CallOf(c: ClientCall): Call {
    match c
    case Write32(a, v) => Bare(CMD_WRITE32, a, v)
    case Read32(a) => Bare(CMD_READ32, a, 0)
    case NpiWrite32(a, v) => Bare(CMD_NPI_WRITE32, a, v)
    case NpiRead32(a) => Bare(CMD_NPI_READ32, a, 0)
    case WriteMem(a, bs) => WriteGm(a, bs)
    case WriteNull(a, n) => WriteGmNull(a, n)
    case ReadMem(a, n) => ReadGm(a, n)
    case Alloc(n) => Bare(CMD_ALLOC_GM, 0, n)
    case Free(a) => Bare(CMD_FREE_GM, a, 0)
    case StartPlios => Bare(CMD_START_PLIO, 0, 0)
    case InitGraph(name) => GraphInit(name)
    case Disconnect(code) => Bare(CMD_EXIT, code % P64, 0)
  }

  /** The number of each call's command. */
  function Number(c: ClientCall): Byte {
    match c
    case Write32(_, _) => 0x10
    case Read32(_) => 0x11
    case NpiWrite32(_, _) => 0x12
    case NpiRead32(_) => 0x13
    case WriteMem(_, _) => 0x20
    case WriteNull(_, _) => 0x20
    case ReadMem(_, _) => 0x21
    case Alloc(_) => 0x22
    case Free(_) => 0x23
    case StartPlios => 0x30
    case InitGraph(_) => 0x40
    case Disconnect(_) => 0xFF
  }

  /** What a call puts on the stream: its number, and then its payload past 16 bytes, which only
      memory writes and graph names have. */
  lemma OnTheWire(c: ClientCall)
    ensures var w := RequestWire(CallOf(c).cmd);
            && |w| >= 16 && w[0] == Number(c)
            && w[16..] == if c.WriteMem? then c.bytes else if c.InitGraph? then c.name else []
  {
    var cmd := CallOf(c).cmd;
    RequestLayout(cmd.req);
    assert RequestWire(cmd)[16..] == cmd.payload;
  }

  function Calls(cs: seq<ClientCall>): (calls: seq<Call>)
    ensures |calls| == |cs|
    ensures forall i :: 0 <= i < |cs| ==> calls[i] == CallOf(cs[i])
  {
    seq(|cs|, i requires 0 <= i < |cs| => CallOf(cs[i]))
  }

  // ----- Which sessions go through ----------------------------------------------------

  /** The sizes a call can announce. */
  predicate Fits(c: ClientCall) {
    match c
    case WriteMem(_, bs) => |bs| < P32
    case WriteNull(_, n) => n % P32 == 0
    case ReadMem(_, n) => n < P32
    case InitGraph(name) => |name| < P32
    case _ => true
  }

  lemma FitsIff(c: ClientCall)
    ensures Framed(CallOf(c)) <==> Fits(c)
    ensures IsExit(CallOf(c)) <==> c.Disconnect?
  {
  }

  /** How many calls are made while connected: those up to and including the first disconnect. */
  function Connected(cs: seq<ClientCall>): (n: nat)
    ensures n <= |cs|
    ensures forall i :: 0 <= i < n - 1 ==> !cs[i].Disconnect?
    ensures n < |cs| ==> n > 0 && cs[n - 1].Disconnect?
  {
    if cs == [] then 0 else if cs[0].Disconnect? then 1 else 1 + Connected(cs[1..])
  }

  lemma {:induction false} ConnectedIsLive(cs: seq<ClientCall>)
    ensures Live(Calls(cs)) == Connected(cs)
  {
    if cs != [] {
      FitsIff(cs[0]);
      ConnectedIsLive(cs[1..]);
      assert Calls(cs)[1..] == Calls(cs[1..]);
    }
  }

  ghost predicate AllFit(cs: seq<ClientCall>) {
    forall i :: 0 <= i < Connected(cs) ==> Fits(cs[i])
  }

  lemma AllFitIff(cs: seq<ClientCall>)
    ensures WellFormed(Calls(cs)) <==> AllFit(cs)
    ensures ClientMade(Calls(cs))
  {
    NoPayload(cs);
    hide CallOf, Framed, Fits, Live, Connected, ClientMade;
    ConnectedIsLive(cs);
    var calls := Calls(cs);
    forall i | 0 <= i < |cs|
      ensures Framed(calls[i]) <==> Fits(cs[i])
    {
      FitsIff(cs[i]);
    }
  }

  lemma NoPayload(cs: seq<ClientCall>)
    ensures ClientMade(Calls(cs))
  {
  }

  /** Over any device, a session of client calls goes through, with nothing left over and nobody
      waiting for ever in any of its runs, if and only if the sizes of the calls made while
      connected fit. */
  lemma SessionIff<D(!new)>(dev: Device<D>, start: D, cs: seq<ClientCall>)
    ensures var S := Session(ServerOf(dev), start, Calls(cs));
            AllFit(cs) <==>
            forall run: seq<State<D>>, steps: seq<Step>, i: int :: IsRun(S, run, steps) && 0 <= i < |run| ==> !Broken(S, run[i])
  {
    AllFitIff(cs);
    WellFormedIff(dev, start, Calls(cs));
  }

  // ----- What the server is to do with each call --------------------------------------

  /** The device when call `k` is served, and what it is answered. */
  function Before<D>(dev: Device<D>, d: D, cs: seq<ClientCall>, k: nat): D
    requires k <= |cs|
  {
    DeviceAfter(ServerOf(dev), d, Commands(Calls(cs))[..k])
  }

  function Answered<D>(dev: Device<D>, d: D, cs: seq<ClientCall>, k: nat): Reply<D>
    requires k < |cs|
  {
    AnswerTo(ServerOf(dev), d, Commands(Calls(cs)), k)
  }

  /** The device after one call is where the next one finds it. */
  lemma ThenNext<D(!new)>(dev: Device<D>, d: D, cs: seq<ClientCall>, k: nat)
    requires k < |cs|
    ensures Answered(dev, d, cs, k) == ServerOf(dev)(Before(dev, d, cs, k), CallOf(cs[k]).cmd)
    ensures Answered(dev, d, cs, k).dev == Before(dev, d, cs, k + 1)
    ensures Before(dev, d, cs, 0) == d
  {
    var all := Commands(Calls(cs));
    assert all[..k + 1][..k] == all[..k];
  }

  /** Two calls, under no law but the one they are about: what was written is read, in each of the
      two register spaces, and a device that keeps the two spaces apart answers for the other one
      as before. */
  lemma WriteThenRead<D(!new)>(dev: Device<D>, d: D, a: U64, b: U64, v: U32)
    ensures dev.read32(dev.write32(d, a, v), a).1 == v ==>
              Answered(dev, d, [Write32(a, v), Read32(a)], 1).resp == Response(0, v)
    ensures dev.npiRead32(dev.npiWrite32(d, a, v), a).1 == v ==>
              Answered(dev, d, [NpiWrite32(a, v), NpiRead32(a)], 1).resp == Response(0, v)
    ensures dev.npiRead32(dev.write32(d, a, v), b).1 == dev.npiRead32(d, b).1 ==>
              Answered(dev, d, [Write32(a, v), NpiRead32(b)], 1).resp == Answered(dev, d, [NpiRead32(b)], 0).resp
    ensures dev.read32(dev.npiWrite32(d, a, v), b).1 == dev.read32(d, b).1 ==>
              Answered(dev, d, [NpiWrite32(a, v), Read32(b)], 1).resp == Answered(dev, d, [Read32(b)], 0).resp
  {
    hide Answered, Before;
    FirstOfTwo(dev, d, Write32(a, v), Read32(a));
    FirstOfTwo(dev, d, NpiWrite32(a, v), NpiRead32(a));
    FirstOfTwo(dev, d, Write32(a, v), NpiRead32(b));
    FirstOfTwo(dev, d, NpiWrite32(a, v), Read32(b));
    ThenNext(dev, d, [NpiRead32(b)], 0);
    ThenNext(dev, d, [Read32(b)], 0);
  }

  /** The same for memory: the bytes written are read back. */
  lemma StoreThenLoad<D(!new)>(dev: Device<D>, d: D, a: U64, bytes: seq<Byte>)
    requires |bytes| < P32
    requires forall i :: 0 <= i < |bytes| ==> dev.gmByte(dev.writeGM(d, a, bytes), a, i) == bytes[i]
    ensures Answered(dev, d, [WriteMem(a, bytes), ReadMem(a, |bytes|)], 1).data == bytes
  {
    hide Answered, Before;
    FirstOfTwo(dev, d, WriteMem(a, bytes), ReadMem(a, |bytes|));
  }

  lemma FirstOfTwo<D(!new)>(dev: Device<D>, d: D, x: ClientCall, y: ClientCall)
    ensures Before(dev, d, [x, y], 1) == Serve(dev, d, CallOf(x).cmd).dev
    ensures Answered(dev, d, [x, y], 1) == Serve(dev, Serve(dev, d, CallOf(x).cmd).dev, CallOf(y).cmd)
  {
    ThenNext(dev, d, [x, y], 0);
  }

  /** The other calls reach their own device call, with their own arguments, in whatever state the
      calls before left the device: memory is given only for a size, and its address answered
      unless it is zero; a graph is started by its whole name; an exit code of 32 bits arrives as
      it was given. */
  lemma ReachesItsOwn<D(!new)>(dev: Device<D>, d: D, cs: seq<ClientCall>, k: nat)
    requires k < |cs|
    ensures var e, r := Before(dev, d, cs, k), Answered(dev, d, cs, k);
            && (cs[k].Alloc? && cs[k].bytesWanted == 0 ==> r == Reply(e, Response(2, 0), []))
            && (cs[k].Alloc? && cs[k].bytesWanted > 0 ==>
                  var (f, a) := dev.alloc(e, cs[k].bytesWanted);
                  r == Reply(f, if a == 0 then Response(2, 0) else Response(0, a), []))
            && (cs[k].Free? ==> r == Reply(dev.free(e, cs[k].addr), Response(0, 0), []))
            && (cs[k].StartPlios? ==> r == Reply(dev.startPlio(e), Response(0, 0), []))
            && (cs[k].InitGraph? ==>
                  var (f, ok) := dev.graphInit(e, cs[k].name);
                  r == Reply(f, Response(if ok then 0 else 2, 0), []))
            && (cs[k].Disconnect? && -P31 <= cs[k].exitCode < P31 ==>
                  r == Reply(dev.setReturnValue(e, cs[k].exitCode), Response(0, 0), []))
  {
    if cs[k].Disconnect? && -P31 <= cs[k].exitCode < P31 {
      ExitCodeArrives(cs[k].exitCode);
    }
  }

  lemma ExitCodeArrives(code: int)
    requires -P31 <= code < P31
    ensures ToInt(code % P64) == code
  {
    if code < 0 {
      DivMod(code, -1, code + P64, P64);
      DivMod(code + P64, P32 - 1, code + P32, P32);
    }
  }

  /** A command that is none of the protocol's gets the protocol error, a ping is answered, and
      neither reaches the device. */
  lemma UnknownRefused<D(!new)>(dev: Device<D>, d: D, c: Command)
    ensures c.req.cmd !in {0x01, 0x10, 0x11, 0x12, 0x13, 0x20, 0x21, 0x22, 0x23, 0x30, 0x40, 0xFF} ==>
              ServerOf(dev)(d, c) == Reply(d, Response(1, 0), [])
    ensures c.req.cmd == 0x01 ==> ServerOf(dev)(d, c) == Reply(d, Response(0, 0), [])
  {
  }

  // ----- Over the streams -------------------------------------------------------------

  /** However the bytes are cut and the threads interleave: the k-th call of a session whose sizes
      fit returns what the server is to answer it, the device has been handed each command with
      its own payload, and a call after the disconnect is refused. */
  lemma RunAnswers<D(!new)>(dev: Device<D>, start: D, cs: seq<ClientCall>,
                            run: seq<State<D>>, steps: seq<Step>, i: nat, k: nat)
    requires AllFit(cs) && IsRun(Session(ServerOf(dev), start, Calls(cs)), run, steps) && i < |run|
    ensures var s := run[i];
            && (k < |s.results| ==> k < |cs|)
            && (k < |s.results| && k < Connected(cs) ==>
                  var r := Answered(dev, start, cs, k);
                  k < |s.served| && s.results[k] == Result(r.resp, if cs[k].ReadMem? then r.data else []))
            && (k < |s.results| && k >= Connected(cs) ==> s.results[k] == Result(Response(0xFF, 0), []))
            && (k < |s.served| ==> k < |cs| && s.served[k] == CallOf(cs[k]).cmd)
            && |s.served| <= |cs| && s.dev == Before(dev, start, cs, |s.served|)
  {
    hide IsRun, WellFormed, AllFit, Connected, Live, ServerOf, CallOf, AnswerTo, DeviceAfter;
    AllFitIff(cs);
    ConnectedIsLive(cs);
    FramesStayAligned(dev, start, Calls(cs), run, steps, i);
    if k < |run[i].results| {
      assert run[i].results[k] == ExpectedResult(Session(ServerOf(dev), start, Calls(cs)), k);
      OnlyReadsHaveData(cs[k]);
    }
  }

  lemma OnlyReadsHaveData(c: ClientCall)
    ensures CallOf(c).cmd.req.cmd == CMD_READ_GM <==> c.ReadMem?
  {
  }

  /** So a graph's name arrives whole: the device is started with exactly the bytes of the name,
      and the caller is told whether that worked. */
  lemma GraphNameArrives<D(!new)>(dev: Device<D>, start: D, cs: seq<ClientCall>,
                                  run: seq<State<D>>, steps: seq<Step>, i: nat, k: nat)
    requires AllFit(cs) && IsRun(Session(ServerOf(dev), start, Calls(cs)), run, steps) && i < |run|
    requires k < |run[i].results| && k < Connected(cs) && cs[k].InitGraph?
    ensures var s := run[i]; var (f, ok) := dev.graphInit(Before(dev, start, cs, k), cs[k].name);
            && k < |s.served| && s.served[k].payload == cs[k].name
            && s.results[k] == Result(Response(if ok then 0 else 2, 0), [])
            && (|s.served| == k + 1 ==> s.dev == f)
  {
    hide IsRun, AllFit, Connected, ServerOf, Answered, Before;
    RunAnswers(dev, start, cs, run, steps, i, k);
    ReachesItsOwn(dev, start, cs, k);
    ThenNext(dev, start, cs, k);
  }
}
