/**
 The simulator's side of the IPC: `dispatch_work_item` over an arbitrary device, and the
 reference meaning of a client session, which is its commands run alone, in order.
 */
module IpcDispatch {
  import opened LittleEndian
  import opened IpcWire

  /** The simulator calls behind the commands, over any device state `D`. */
  datatype Device<!D> = Device(
    write32: (D, U64, U32) -> D,
    read32: (D, U64) -> (D, U32),
    npiWrite32: (D, U64, U32) -> D,
    npiRead32: (D, U64) -> (D, U32),
    writeGM: (D, U64, seq<Byte>) -> D,
    gmByte: (D, U64, nat) -> Byte,          // the byte at an offset from an address
    alloc: (D, U32) -> (D, U64),
    free: (D, U64) -> D,
    startPlio: D -> D,
    graphInit: (D, seq<Byte>) -> (D, bool),
    setReturnValue: (D, int) -> D)

  datatype Reply<D> = Reply(dev: D, resp: Response, data: seq<Byte>)

  function Ok<D>(d: D, value: U64): Reply<D> {
    Reply(d, Response(STATUS_OK, value), [])
  }

  function Refuse<D>(d: D, status: Byte): Reply<D> {
    Reply(d, Response(status, 0), [])
  }

  /** A 64-bit argument cast to a 32-bit signed number. */
  function ToInt(n: U64): int {
    var low := n % P32;
    if low < P31 then low else low - P32
  }

  function Dispatch<D>(dev: Device<D>, d: D, req: Request, payload: seq<Byte>): Reply<D> {
    if req.cmd == CMD_WRITE32 then Ok(dev.write32(d, req.arg1, req.arg2), 0)
    else if req.cmd == CMD_READ32 then
      var (e, v) := dev.read32(d, req.arg1);
      Ok(e, v)
    else if req.cmd == CMD_NPI_WRITE32 then Ok(dev.npiWrite32(d, req.arg1, req.arg2), 0)
    else if req.cmd == CMD_NPI_READ32 then
      var (e, v) := dev.npiRead32(d, req.arg1);
      Ok(e, v)
    else if req.cmd == CMD_WRITE_GM then
      Ok(if payload == [] then d else dev.writeGM(d, req.arg1, payload), 0)
    else if req.cmd == CMD_READ_GM then
      Ok(d, 0).(data := seq<Byte>(req.arg2, (i: nat) => dev.gmByte(d, req.arg1, i)))
    else if req.cmd == CMD_ALLOC_GM then
      if req.arg2 == 0 then Refuse(d, STATUS_ERR_IO)
      else
        var (e, a) := dev.alloc(d, req.arg2);
        if a == 0 then Refuse(e, STATUS_ERR_IO) else Ok(e, a)
    else if req.cmd == CMD_FREE_GM then Ok(dev.free(d, req.arg1), 0)
    else if req.cmd == CMD_START_PLIO then Ok(dev.startPlio(d), 0)
    else if req.cmd == CMD_GRAPH_INIT then
      var (e, ok) := dev.graphInit(d, payload);
      if ok then Ok(e, 0) else Refuse(e, STATUS_ERR_IO)
    else if req.cmd == CMD_EXIT then Ok(dev.setReturnValue(d, ToInt(req.arg1)), 0)
    else Refuse(d, STATUS_ERR_PROTO)
  }

  /** A command of a session: its request and the payload that follows it. */
  datatype Command = Command(req: Request, payload: seq<Byte>)

  /** What the server does with one command: a ping is answered without the simulator. */
  function Serve<D>(dev: Device<D>, d: D, c: Command): Reply<D> {
    if c.req.cmd == CMD_PING then Ok(d, 0) else Dispatch(dev, d, c.req, c.payload)
  }

  type Server<!D> = (D, Command) -> Reply<D>

  /** The server over a given device, as a value. */
  function ServerOf<D>(dev: Device<D>): Server<D> {
    (d: D, c: Command) => Serve(dev, d, c)
  }

  /** A memory read is always answered, with as many bytes as were asked for. */
  ghost predicate AnswersReads<D(!new)>(serve: Server<D>) {
    forall d: D, c: Command :: c.req.cmd == CMD_READ_GM ==>
      && serve(d, c).resp.status == STATUS_OK
      && |serve(d, c).data| == c.req.arg2
  }

  lemma ServerAnswersReads<D(!new)>(dev: Device<D>)
    ensures AnswersReads(ServerOf(dev))
  {
  }

  /** The reference: the device after the commands ran alone, in order. */
  function DeviceAfter<D>(serve: Server<D>, d: D, cs: seq<Command>): D
    decreases |cs|
  {
    if cs == [] then d
    else serve(DeviceAfter(serve, d, cs[..|cs| - 1]), cs[|cs| - 1]).dev
  }

  /** The reference: what command `k` of a session is answered. */
  function AnswerTo<D>(serve: Server<D>, d: D, cs: seq<Command>, k: nat): Reply<D>
    requires k < |cs|
  {
    serve(DeviceAfter(serve, d, cs[..k]), cs[k])
  }
}
