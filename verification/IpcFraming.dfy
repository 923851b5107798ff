/**
 Framing of the simulator IPC: one client and one server exchange requests, payloads,
 responses and data over two byte streams with no separators. The operating system may cut
 every transfer anywhere, and client and server may run at any relative speed.

 The client follows `do_transaction`, `aeg_ipc_read_gm` and `aeg_ipc_backend_disconnect`, the
 server the loop of `run_ps_ipc_server_thread`.
 */
module IpcFraming {
  import opened LittleEndian
  import opened IpcWire
  import opened IpcDispatch

  /** One client transaction. `readSize` is how many data bytes the client collects after the
      response of a memory read. */
  datatype Call = Call(cmd: Command, readSize: nat)

  datatype Session<!D> = Session(serve: IpcDispatch.Server<D>, start: D, calls: seq<Call>)

  /** `CDraining`: the exit command is answered, and the client discards what still comes until
      the server closes. `CClosed`: the client is disconnected. */
  datatype Client =
    | CIdle
    | CSending(unsent: seq<Byte>)
    | CReceiving(got: seq<Byte>)
    | CReading(resp: Response, data: seq<Byte>)
    | CDraining(resp: Response)
    | CClosed

  /** `SStopped`: the server has left its loop and closed the connection. */
  datatype Server =
    | SHeader(got: seq<Byte>)
    | SPayload(req: Request, payload: seq<Byte>)
    | SSending(unsent: seq<Byte>, stop: bool)
    | SStopped

  /** The two threads and the two streams between them. */
  datatype Conn = Conn(client: Client, server: Server, toServer: seq<Byte>, toClient: seq<Byte>)

  /** What the client's caller gets back. */
  datatype Result = Result(resp: Response, data: seq<Byte>)

  datatype State<D> = State(conn: Conn, dev: D, served: seq<Command>, results: seq<Result>)

  function Commands(calls: seq<Call>): (cs: seq<Command>)
    ensures |cs| == |calls|
    ensures forall i :: 0 <= i < |cs| ==> cs[i] == calls[i].cmd
  {
    seq(|calls|, i requires 0 <= i < |calls| => calls[i].cmd)
  }

  /** The bytes `send_request` puts on the stream. */
  function RequestWire(c: Command): seq<Byte> {
    EncodeRequest(c.req) + c.payload
  }

  /** The payload the server waits for after this header. */
  function PayloadSize(req: Request): nat {
    if req.cmd == CMD_WRITE_GM || req.cmd == CMD_GRAPH_INIT then req.arg2 else 0
  }

  /** The bytes the server answers with. */
  function ReplyWire<D>(req: Request, r: Reply<D>): seq<Byte> {
    EncodeResponse(r.resp) + if req.cmd == CMD_READ_GM then r.data else []
  }

  /** A call whose two sides agree on the sizes. */
  predicate Framed(c: Call) {
    && |c.cmd.payload| == PayloadSize(c.cmd.req)
    && (c.cmd.req.cmd == CMD_READ_GM ==> c.readSize == c.cmd.req.arg2)
  }

  predicate IsExit(c: Call) {
    c.cmd.req.cmd == CMD_EXIT
  }

  /** How many calls are made while the client is connected: those up to and including the first
      exit command, which disconnects it. */
  function Live(calls: seq<Call>): (n: nat)
    ensures n <= |calls|
    ensures forall i :: 0 <= i < n - 1 ==> !IsExit(calls[i])
    ensures n < |calls| ==> n > 0 && IsExit(calls[n - 1])
  {
    if calls == [] then 0
    else if IsExit(calls[0]) then 1
    else 1 + Live(calls[1..])
  }

  /** Every call that is made while the client is connected is framed. */
  predicate WellFormed(calls: seq<Call>) {
    forall i :: 0 <= i < Live(calls) ==> Framed(calls[i])
  }

  /** A session the two sides can carry through. */
  ghost predicate Proper<D(!new)>(S: Session<D>) {
    WellFormed(S.calls) && AnswersReads(S.serve)
  }

  // ----- The client's calls -----------------------------------------------------------

  /** Sizes are passed on as 32-bit values. */
  function Truncate(size: nat): U32 {
    size % 0x1_0000_0000
  }

  /** `aeg_ipc_write_gm` on a non-null buffer. */
  function WriteGm(addr: U64, data: seq<Byte>): Call {
    Call(Command(Request(CMD_WRITE_GM, addr, Truncate(|data|)), data), 0)
  }

  /** `aeg_ipc_write_gm` on a null buffer: the size is announced, nothing is sent. */
  function WriteGmNull(addr: U64, size: nat): Call {
    Call(Command(Request(CMD_WRITE_GM, addr, Truncate(size)), []), 0)
  }

  /** `aeg_ipc_read_gm`. */
  function ReadGm(addr: U64, size: nat): Call {
    Call(Command(Request(CMD_READ_GM, addr, Truncate(size)), []), size)
  }

  /** `aeg_ipc_graph_init_ipc`. */
  function GraphInit(name: seq<Byte>): Call {
    Call(Command(Request(CMD_GRAPH_INIT, 0, Truncate(|name|)), name), 0)
  }

  /** A call that is only its request. */
  function Bare(cmd: Byte, arg1: U64, arg2: U32): Call {
    Call(Command(Request(cmd, arg1, arg2), []), 0)
  }

  /** The client's calls are framed exactly when their sizes fit in 32 bits, a null buffer is
      framed exactly when the size it announces is zero, and a call that is only its request
      unless its command is one of three that announce bytes, and it does. */
  lemma FramedIff(addr: U64, data: seq<Byte>, size: nat, name: seq<Byte>, cmd: Byte, arg2: U32)
    ensures Framed(GraphInit(name)) <==> |name| < 0x1_0000_0000
    ensures Framed(Bare(cmd, addr, arg2)) <==> arg2 == 0 || cmd !in {0x20, 0x21, 0x40}
    ensures Framed(WriteGm(addr, data)) <==> |data| < 0x1_0000_0000
    ensures Framed(WriteGmNull(addr, size)) <==> Truncate(size) == 0
    ensures Framed(ReadGm(addr, size)) <==> size < 0x1_0000_0000
  {
  }

  // ----- Steps ------------------------------------------------------------------------

  /** Transfers of `n` bytes, and the moments a thread notices that a transfer is complete. */
  datatype Step =
    | CStart | CWrite(n: nat) | CSent | CRead(n: nat) | CResponse | CReadData(n: nat) | CData
    | CDrain(n: nat) | CClose | CRefuse
    | SRead(n: nat) | SRequest | SReadPayload(n: nat) | SPayloadDone | SWrite(n: nat) | SSent

  /** Steps that only move bytes, or move on after the last byte was sent. */
  predicate CanMove(c: Conn, readSize: nat, step: Step) {
    match step
    case CWrite(n) => c.client.CSending? && 0 < n <= |c.client.unsent|
    case CSent => c.client == CSending([])
    case CRead(n) => c.client.CReceiving? && 0 < n <= |c.toClient| && n + |c.client.got| <= HEADER
    case CReadData(n) => c.client.CReading? && 0 < n <= |c.toClient| && n + |c.client.data| <= readSize
    case CDrain(n) => c.client.CDraining? && 0 < n <= |c.toClient|
    case SRead(n) => c.server.SHeader? && 0 < n <= |c.toServer| && n + |c.server.got| <= HEADER
    case SReadPayload(n) => c.server.SPayload? && 0 < n <= |c.toServer|
                            && n + |c.server.payload| <= PayloadSize(c.server.req)
    case SWrite(n) => c.server.SSending? && 0 < n <= |c.server.unsent|
    case SSent => c.server.SSending? && c.server.unsent == []
    case _ => false
  }

  function Move(c: Conn, readSize: nat, step: Step): Conn
    requires CanMove(c, readSize, step)
  {
    match step
    case CWrite(n) =>
      c.(client := CSending(c.client.unsent[n..]), toServer := c.toServer + c.client.unsent[..n])
    case CSent => c.(client := CReceiving([]))
    case CRead(n) =>
      c.(client := CReceiving(c.client.got + c.toClient[..n]), toClient := c.toClient[n..])
    case CReadData(n) =>
      c.(client := c.client.(data := c.client.data + c.toClient[..n]), toClient := c.toClient[n..])
    case CDrain(n) => c.(toClient := c.toClient[n..])
    case SRead(n) =>
      c.(server := SHeader(c.server.got + c.toServer[..n]), toServer := c.toServer[n..])
    case SReadPayload(n) =>
      c.(server := c.server.(payload := c.server.payload + c.toServer[..n]), toServer := c.toServer[n..])
    case SWrite(n) =>
      c.(server := c.server.(unsent := c.server.unsent[n..]), toClient := c.toClient + c.server.unsent[..n])
    case SSent => c.(server := if c.server.stop then SStopped else SHeader([]))
  }

  /** The call the client is in, or will make next; past the last one, none with data. */
  function ReadSize(calls: seq<Call>, k: nat): nat {
    if k < |calls| then calls[k].readSize else 0
  }

  /** Steps at which a thread acts on what it has received. */
  predicate CanAct<D>(S: Session<D>, s: State<D>, step: Step) {
    match step
    case CStart => s.conn.client.CIdle? && |s.results| < |S.calls|
    case CResponse => s.conn.client.CReceiving? && |s.conn.client.got| == HEADER && |s.results| < |S.calls|
    case CData => s.conn.client.CReading? && |s.conn.client.data| == ReadSize(S.calls, |s.results|)
    case CClose => s.conn.client.CDraining? && s.conn.server.SStopped? && s.conn.toClient == []
    case CRefuse => s.conn.client.CClosed? && |s.results| < |S.calls|
    case SRequest => s.conn.server.SHeader? && |s.conn.server.got| == HEADER
    case SPayloadDone => s.conn.server.SPayload? && |s.conn.server.payload| == PayloadSize(s.conn.server.req)
    case _ => false
  }

  /** The server runs a complete command and turns to sending the reply. */
  function Served<D>(S: Session<D>, s: State<D>, c: Command): State<D> {
    var r := S.serve(s.dev, c);
    State(s.conn.(server := SSending(ReplyWire(c.req, r), c.req.cmd == CMD_EXIT)),
          r.dev, s.served + [c], s.results)
  }

  function Returned<D>(s: State<D>, r: Result): State<D> {
    s.(conn := s.conn.(client := CIdle), results := s.results + [r])
  }

  /** What a call gets from a client that is not connected: an error status, and no
      data. Disconnecting again returns at once, too. */
  const REFUSED := Result(Response(0xFF, 0), [])

  function Act<D>(S: Session<D>, s: State<D>, step: Step): State<D>
    requires CanAct(S, s, step)
  {
    match step
    case CStart => s.(conn := s.conn.(client := CSending(RequestWire(S.calls[|s.results|].cmd))))
    case CResponse =>
      var resp := DecodeResponse(s.conn.client.got);
      if S.calls[|s.results|].cmd.req.cmd == CMD_READ_GM && resp.status == STATUS_OK
      then s.(conn := s.conn.(client := CReading(resp, [])))
      else if IsExit(S.calls[|s.results|]) then s.(conn := s.conn.(client := CDraining(resp)))
      else Returned(s, Result(resp, []))
    case CClose =>
      s.(conn := Conn(CClosed, s.conn.server, [], []), results := s.results + [Result(s.conn.client.resp, [])])
    case CRefuse => s.(results := s.results + [REFUSED])
    case CData => Returned(s, Result(s.conn.client.resp, s.conn.client.data))
    case SRequest =>
      var req := DecodeRequest(s.conn.server.got);
      if PayloadSize(req) > 0 then s.(conn := s.conn.(server := SPayload(req, [])))
      else Served(S, s, Command(req, []))
    case SPayloadDone => Served(S, s, Command(s.conn.server.req, s.conn.server.payload))
  }

  ghost predicate Initial<D(!new)>(S: Session<D>, s: State<D>) {
    s == State(Conn(CIdle, SHeader([]), [], []), S.start, [], [])
  }

  ghost predicate Next<D(!new)>(S: Session<D>, s: State<D>, step: Step, t: State<D>) {
    || (CanMove(s.conn, ReadSize(S.calls, |s.results|), step)
        && t == s.(conn := Move(s.conn, ReadSize(S.calls, |s.results|), step)))
    || (CanAct(S, s, step) && t == Act(S, s, step))
  }

  /** A run, with the steps it took. */
  ghost predicate IsRun<D(!new)>(S: Session<D>, run: seq<State<D>>, steps: seq<Step>) {
    && |run| == |steps| + 1
    && Initial(S, run[0])
    && forall i :: 0 <= i < |steps| ==> Next(S, run[i], steps[i], run[i + 1])
  }

  // ----- Where the bytes of the current call are --------------------------------------

  function Unsent(c: Client): seq<Byte> {
    if c.CSending? then c.unsent else []
  }

  /** The part of the reply the client holds. */
  function Got(c: Client): seq<Byte> {
    match c
    case CReceiving(got) => got
    case CReading(resp, data) => EncodeResponse(resp) + data
    case _ => []
  }

  /** The part of the request the server holds. */
  function Taken(v: Server): seq<Byte> {
    match v
    case SHeader(got) => got
    case SPayload(req, payload) => EncodeRequest(req) + payload
    case _ => []
  }

  function Unanswered(v: Server): seq<Byte> {
    if v.SSending? then v.unsent else []
  }

  /** Between two commands; the server may still have to notice that all is sent. */
  predicate ServerAtRest(v: Server) {
    v == SHeader([]) || v.SStopped? || (v.SSending? && v.unsent == [])
  }

  /** Past its loop, or about to be. */
  predicate ServerStopping(v: Server) {
    v.SStopped? || (v.SSending? && v.unsent == [] && v.stop)
  }

  /** No call in progress: both streams are empty. */
  predicate Between(c: Conn) {
    c.client.CIdle? && c.toServer == [] && c.toClient == [] && ServerAtRest(c.server)
  }

  /** The request `wire` is being delivered: its bytes are with the server, on the stream or
      with the client, in that order. */
  predicate Delivering(c: Conn, wire: seq<Byte>) {
    && (c.client.CSending? || c.client == CReceiving([]))
    && c.toClient == []
    && Taken(c.server) + c.toServer + Unsent(c.client) == wire
    && (c.server.SHeader? || c.server.SPayload? || ServerAtRest(c.server))
    && (c.server.SHeader? ==> |c.server.got| <= HEADER)
    && (c.server.SPayload? ==> |c.server.payload| <= PayloadSize(c.server.req)
                               && PayloadSize(c.server.req) > 0)
  }

  /** The command has run: the bytes of the reply `wire` are with the client, on the stream
      or with the server, in that order. */
  predicate Answering(c: Conn, wire: seq<Byte>) {
    && (c.client == CSending([]) || c.client.CReceiving? || c.client.CReading?)
    && c.toServer == []
    && (c.server.SSending? || ServerAtRest(c.server))
    && Got(c.client) + c.toClient + Unanswered(c.server) == wire
    && (c.client.CReceiving? ==> |c.client.got| <= HEADER)
  }

  lemma MoveBetween(c: Conn, readSize: nat, step: Step)
    requires Between(c) && CanMove(c, readSize, step)
    ensures Between(Move(c, readSize, step))
  {
  }

  lemma ShiftLeft<T>(a: seq<T>, b: seq<T>, c: seq<T>, n: nat)
    requires n <= |b|
    ensures (a + b[..n]) + b[n..] + c == a + b + c
  {
  }

  lemma ShiftRight<T>(a: seq<T>, b: seq<T>, c: seq<T>, n: nat)
    requires n <= |c|
    ensures a + (b + c[..n]) + c[n..] == a + b + c
  {
  }

  lemma Associate<T>(a: seq<T>, b: seq<T>, c: seq<T>)
    ensures a + (b + c) == (a + b) + c
  {
  }

  lemma SplitAt<T>(h: seq<T>, x: seq<T>, g: seq<T>, y: seq<T>)
    requires h + x == g + y && |h| == |g|
    ensures h == g && x == y
  {
    assert h == (h + x)[..|h|] && g == (g + y)[..|h|];
    assert x == (h + x)[|h|..] && y == (g + y)[|h|..];
  }

  lemma MoveDelivers(c: Conn, readSize: nat, step: Step, wire: seq<Byte>)
    requires Delivering(c, wire) && CanMove(c, readSize, step)
    ensures Delivering(Move(c, readSize, step), wire)
  {
    var d := Move(c, readSize, step);
    match step {
      case CWrite(n) =>
        ShiftRight(Taken(c.server), c.toServer, c.client.unsent, n);
      case SRead(n) =>
        ShiftLeft(Taken(c.server), c.toServer, Unsent(c.client), n);
      case SReadPayload(n) =>
        Associate(EncodeRequest(c.server.req), c.server.payload, c.toServer[..n]);
        ShiftLeft(Taken(c.server), c.toServer, Unsent(c.client), n);
      case CSent =>
      case SSent =>
    }
  }

  lemma MoveAnswers(c: Conn, readSize: nat, step: Step, wire: seq<Byte>)
    requires Answering(c, wire) && CanMove(c, readSize, step)
    ensures Answering(Move(c, readSize, step), wire)
    ensures c.client.CReading? ==> Move(c, readSize, step).client.CReading?
                                   && Move(c, readSize, step).client.resp == c.client.resp
    ensures Move(c, readSize, step).client.CReading? ==> c.client.CReading?
  {
    var d := Move(c, readSize, step);
    match step {
      case SWrite(n) =>
        ShiftRight(Got(c.client), c.toClient, c.server.unsent, n);
      case CRead(n) =>
        ShiftLeft(Got(c.client), c.toClient, Unanswered(c.server), n);
      case CReadData(n) =>
        Associate(EncodeResponse(c.client.resp), c.client.data, c.toClient[..n]);
        ShiftLeft(Got(c.client), c.toClient, Unanswered(c.server), n);
      case CSent =>
      case SSent =>
    }
  }

  /** A complete header is the response the server meant. */
  lemma HeaderIsResponse(c: Conn, resp: Response, data: seq<Byte>)
    requires Answering(c, EncodeResponse(resp) + data)
    requires c.client.CReceiving? && |c.client.got| == HEADER
    ensures c.client.got == EncodeResponse(resp) && DecodeResponse(c.client.got) == resp
    ensures c.toClient + Unanswered(c.server) == data
  {
    var rest := c.toClient + Unanswered(c.server);
    assert c.client.got + c.toClient + Unanswered(c.server) == c.client.got + rest;
    SplitAt(c.client.got, rest, EncodeResponse(resp), data);
    ResponseRoundTrip(resp);
  }

  /** The data the client has collected, once it has as many bytes as were announced. */
  lemma DataIsAnswer(c: Conn, resp: Response, data: seq<Byte>)
    requires Answering(c, EncodeResponse(resp) + data)
    requires c.client.CReading? && c.client.resp == resp && |c.client.data| == |data|
    ensures c.client.data == data && c.toClient == [] && Unanswered(c.server) == []
  {
    var rest := c.toClient + Unanswered(c.server);
    assert Got(c.client) + c.toClient + Unanswered(c.server) == Got(c.client) + rest;
    assert EncodeResponse(resp) + data == (EncodeResponse(resp) + data) + [];
    SplitAt(EncodeResponse(resp) + c.client.data, rest, EncodeResponse(resp) + data, []);
    SplitAt(EncodeResponse(resp), c.client.data, EncodeResponse(resp), data);
    assert |c.toClient| == 0;
  }

  /** A complete header is the request the client meant. */
  lemma HeaderIsRequest(c: Conn, cmd: Command)
    requires Delivering(c, RequestWire(cmd))
    requires c.server.SHeader? && |c.server.got| == HEADER
    ensures c.server.got == EncodeRequest(cmd.req) && DecodeRequest(c.server.got) == cmd.req
    ensures c.toServer + Unsent(c.client) == cmd.payload
  {
    var rest := c.toServer + Unsent(c.client);
    assert c.server.got + c.toServer + Unsent(c.client) == c.server.got + rest;
    SplitAt(c.server.got, rest, EncodeRequest(cmd.req), cmd.payload);
    RequestRoundTrip(cmd.req);
  }

  lemma PayloadIsRequest(c: Conn, cmd: Command)
    requires Delivering(c, RequestWire(cmd)) && c.server.SPayload?
    ensures c.server.req == cmd.req
    ensures c.server.payload + (c.toServer + Unsent(c.client)) == cmd.payload
  {
    var h, p := EncodeRequest(c.server.req), c.server.payload;
    Regroup(h, p, c.toServer, Unsent(c.client));
    SplitAt(h, p + (c.toServer + Unsent(c.client)), EncodeRequest(cmd.req), cmd.payload);
    RequestRoundTrip(cmd.req);
    RequestRoundTrip(c.server.req);
  }

  lemma Regroup<T>(h: seq<T>, p: seq<T>, x: seq<T>, y: seq<T>)
    ensures (h + p) + x + y == h + (p + (x + y))
  {
  }

  // ----- The session as a whole -------------------------------------------------------

  /** The reference answer to call `k`, and what the caller should get. */
  function Expected<D>(S: Session<D>, k: nat): Reply<D>
    requires k < |S.calls|
  {
    AnswerTo(S.serve, S.start, Commands(S.calls), k)
  }

  function ExpectedData<D>(S: Session<D>, k: nat): seq<Byte>
    requires k < |S.calls|
  {
    if S.calls[k].cmd.req.cmd == CMD_READ_GM then Expected(S, k).data else []
  }

  /** While the client is connected, the reference answer; then a refusal. */
  function ExpectedResult<D>(S: Session<D>, k: nat): Result
    requires k < |S.calls|
  {
    if k < Live(S.calls) then Result(Expected(S, k).resp, ExpectedData(S, k)) else REFUSED
  }

  /** The client's results are those. */
  ghost predicate ResultsOk<D(!new)>(S: Session<D>, results: seq<Result>) {
    && |results| <= |S.calls|
    && forall k :: 0 <= k < |results| ==> results[k] == ExpectedResult(S, k)
  }

  /** The server has run a prefix of the session. */
  ghost predicate ServedOk<D(!new)>(S: Session<D>, served: seq<Command>, dev: D) {
    && |served| <= Live(S.calls)
    && served == Commands(S.calls)[..|served|]
    && dev == DeviceAfter(S.serve, S.start, served)
  }

  predicate Stops(served: seq<Command>) {
    |served| > 0 && served[|served| - 1].req.cmd == CMD_EXIT
  }

  predicate StopOk(v: Server, served: seq<Command>) {
    if v.SSending? then v.stop == Stops(served) else v.SStopped? == Stops(served)
  }

  predicate AfterExit(calls: seq<Call>, k: nat) {
    0 < k <= |calls| && IsExit(calls[k - 1])
  }

  /** The exit command is answered, and nothing is left on the streams. */
  predicate Closing(c: Conn, resp: Response) {
    c.client == CDraining(resp) && c.toServer == [] && c.toClient == [] && ServerStopping(c.server)
  }

  ghost predicate AnsweringCall<D(!new)>(S: Session<D>, c: Conn, k: nat)
    requires k < |S.calls|
  {
    && Answering(c, EncodeResponse(Expected(S, k).resp) + ExpectedData(S, k))
    && (c.client.CReading? ==> S.calls[k].cmd.req.cmd == CMD_READ_GM
                               && c.client.resp == Expected(S, k).resp)
  }

  /** Where call `k` stands: before it, on its way, answered, and, for the exit command and what
      follows it, closing and closed. */
  ghost predicate PhaseOk<D(!new)>(S: Session<D>, c: Conn, k: nat, served: nat) {
    match c.client
    case CClosed => served == Live(S.calls) <= k && c == Conn(CClosed, SStopped, [], [])
    case CIdle => served == k && Between(c) && !AfterExit(S.calls, k)
    case CDraining(_) =>
      served == k + 1 && k < Live(S.calls) && IsExit(S.calls[k]) && Closing(c, Expected(S, k).resp)
    case _ =>
      && k < Live(S.calls)
      && ((served == k && Delivering(c, RequestWire(S.calls[k].cmd)))
          || (served == k + 1 && AnsweringCall(S, c, k)))
  }

  ghost predicate InStep<D(!new)>(S: Session<D>, s: State<D>) {
    && ResultsOk(S, s.results)
    && ServedOk(S, s.served, s.dev)
    && StopOk(s.conn.server, s.served)
    && PhaseOk(S, s.conn, |s.results|, |s.served|)
  }

  lemma MoveKeepsPhase<D(!new)>(S: Session<D>, c: Conn, k: nat, served: nat, readSize: nat, step: Step)
    requires PhaseOk(S, c, k, served) && CanMove(c, readSize, step)
    ensures PhaseOk(S, Move(c, readSize, step), k, served)
  {
    if c.client.CIdle? {
      MoveBetween(c, readSize, step);
    } else if c.client.CDraining? {
      assert step == SSent;
    } else if served == k {
      MoveDelivers(c, readSize, step, RequestWire(S.calls[k].cmd));
    } else {
      MoveAnswers(c, readSize, step, EncodeResponse(Expected(S, k).resp) + ExpectedData(S, k));
    }
  }

  /** A client that is idle with calls left is still connected. */
  lemma IdleIsLive(calls: seq<Call>, k: nat)
    requires k <= Live(calls) && k < |calls| && !AfterExit(calls, k)
    ensures k < Live(calls)
  {
  }

  lemma StartKeepsPhase<D(!new)>(S: Session<D>, s: State<D>)
    requires InStep(S, s) && CanAct(S, s, CStart)
    ensures InStep(S, Act(S, s, CStart))
  {
    var t := Act(S, s, CStart);
    var w := RequestWire(S.calls[|s.results|].cmd);
    IdleIsLive(S.calls, |s.results|);
    assert Taken(t.conn.server) + t.conn.toServer + Unsent(t.conn.client) == w;
    assert Delivering(t.conn, w);
  }

  /** A result recorded as the reference has it. */
  lemma ReturnKeepsPhase<D(!new)>(S: Session<D>, s: State<D>, r: Result)
    requires InStep(S, s)
    requires |s.served| == |s.results| + 1 && |s.results| < Live(S.calls) && !IsExit(S.calls[|s.results|])
    requires r == Result(Expected(S, |s.results|).resp, ExpectedData(S, |s.results|))
    requires s.conn.toServer == [] && s.conn.toClient == [] && ServerAtRest(s.conn.server)
    ensures InStep(S, Returned(s, r))
  {
  }

  lemma ResponseKeepsPhase<D(!new)>(S: Session<D>, s: State<D>)
    requires Proper(S) && InStep(S, s) && CanAct(S, s, CResponse)
    ensures InStep(S, Act(S, s, CResponse))
  {
    var k := |s.results|;
    ResponseMeansServed(S, s);
    HeaderIsResponse(s.conn, Expected(S, k).resp, ExpectedData(S, k));
    if S.calls[k].cmd.req.cmd == CMD_READ_GM {
      ReadAnswer(S, k);
      var t := Act(S, s, CResponse);
      assert Got(t.conn.client) == Got(s.conn.client);
      assert Answering(t.conn, EncodeResponse(Expected(S, k).resp) + ExpectedData(S, k));
    } else if IsExit(S.calls[k]) {
      assert |s.conn.toClient| == 0 && |Unanswered(s.conn.server)| == 0;
      assert Stops(s.served);
    } else {
      assert |s.conn.toClient| == 0 && |Unanswered(s.conn.server)| == 0;
      ReturnKeepsPhase(S, s, Result(Expected(S, k).resp, []));
    }
  }

  lemma ResponseMeansServed<D(!new)>(S: Session<D>, s: State<D>)
    requires InStep(S, s)
    requires (s.conn.client.CReceiving? && |s.conn.client.got| > 0) || s.conn.client.CReading?
    ensures |s.served| == |s.results| + 1 && |s.results| < Live(S.calls)
    ensures Answering(s.conn, EncodeResponse(Expected(S, |s.results|).resp) + ExpectedData(S, |s.results|))
  {
  }

  lemma ReadAnswer<D(!new)>(S: Session<D>, k: nat)
    requires AnswersReads(S.serve) && k < |S.calls| && S.calls[k].cmd.req.cmd == CMD_READ_GM
    ensures Expected(S, k).resp.status == STATUS_OK
    ensures |Expected(S, k).data| == S.calls[k].cmd.req.arg2
  {
  }

  lemma DataKeepsPhase<D(!new)>(S: Session<D>, s: State<D>)
    requires Proper(S) && InStep(S, s) && CanAct(S, s, CData)
    ensures InStep(S, Act(S, s, CData))
  {
    var k := |s.results|;
    ResponseMeansServed(S, s);
    assert Framed(S.calls[k]);
    ReadAnswer(S, k);
    DataIsAnswer(s.conn, Expected(S, k).resp, ExpectedData(S, k));
    ReturnKeepsPhase(S, s, Result(s.conn.client.resp, s.conn.client.data));
  }

  /** Running the current command is the reference's next step. */
  lemma ServedExtends<D(!new)>(S: Session<D>, served: seq<Command>, dev: D)
    requires ServedOk(S, served, dev) && |served| < Live(S.calls)
    ensures S.serve(dev, S.calls[|served|].cmd) == Expected(S, |served|)
    ensures ServedOk(S, served + [S.calls[|served|].cmd], Expected(S, |served|).dev)
  {
    var k := |served|;
    var cs := Commands(S.calls);
    var now := served + [cs[k]];
    assert now == cs[..k + 1];
    assert now[..|now| - 1] == served == cs[..k];
  }

  lemma ServedKeepsPhase<D(!new)>(S: Session<D>, s: State<D>)
    requires InStep(S, s)
    requires |s.served| == |s.results| < Live(S.calls)
    requires Delivering(s.conn, RequestWire(S.calls[|s.results|].cmd))
    requires s.conn.toServer == [] && Unsent(s.conn.client) == []
    ensures InStep(S, Served(S, s, S.calls[|s.results|].cmd))
  {
    var k := |s.served|;
    var c := S.calls[k].cmd;
    var t := Served(S, s, c);
    ServedExtends(S, s.served, s.dev);
    StartsAnswering(s.conn, RequestWire(c), ReplyWire(c.req, Expected(S, k)), c.req.cmd == CMD_EXIT);
    assert Answering(t.conn, ReplyWire(c.req, Expected(S, k)));
  }

  lemma StartsAnswering(c: Conn, wire: seq<Byte>, reply: seq<Byte>, stop: bool)
    requires Delivering(c, wire) && c.toServer == [] && Unsent(c.client) == []
    ensures Answering(c.(server := SSending(reply, stop)), reply)
    ensures !c.client.CReading?
  {
    assert Got(c.client) == [] && c.toClient == [];
  }

  lemma RequestMeansDelivering<D(!new)>(S: Session<D>, s: State<D>)
    requires InStep(S, s)
    requires (s.conn.server.SHeader? && |s.conn.server.got| > 0) || s.conn.server.SPayload?
    ensures |s.served| == |s.results| < Live(S.calls)
    ensures Delivering(s.conn, RequestWire(S.calls[|s.results|].cmd))
  {
  }

  lemma RequestKeepsPhase<D(!new)>(S: Session<D>, s: State<D>)
    requires Proper(S) && InStep(S, s) && CanAct(S, s, SRequest)
    ensures InStep(S, Act(S, s, SRequest))
  {
    RequestMeansDelivering(S, s);
    var call := S.calls[|s.results|];
    assert Framed(call);
    HeaderIsRequest(s.conn, call.cmd);
    if PayloadSize(call.cmd.req) > 0 {
      var t := Act(S, s, SRequest);
      assert Taken(t.conn.server) == Taken(s.conn.server);
      assert Delivering(t.conn, RequestWire(call.cmd));
    } else {
      assert |s.conn.toServer| == 0 && |Unsent(s.conn.client)| == 0;
      assert call.cmd == Command(call.cmd.req, []);
      ServedKeepsPhase(S, s);
    }
  }

  lemma PayloadKeepsPhase<D(!new)>(S: Session<D>, s: State<D>)
    requires Proper(S) && InStep(S, s) && CanAct(S, s, SPayloadDone)
    ensures InStep(S, Act(S, s, SPayloadDone))
  {
    RequestMeansDelivering(S, s);
    var call := S.calls[|s.results|];
    assert Framed(call);
    PayloadIsRequest(s.conn, call.cmd);
    EmptyTail(s.conn.server.payload, s.conn.toServer, Unsent(s.conn.client), call.cmd.payload);
    ServedKeepsPhase(S, s);
  }

  lemma EmptyTail<T>(p: seq<T>, x: seq<T>, y: seq<T>, w: seq<T>)
    requires p + (x + y) == w && |p| == |w|
    ensures x == [] && y == [] && p == w
  {
  }

  /** The connection is closed by the exit call, the last one made while it was open. */
  lemma CloseKeepsPhase<D(!new)>(S: Session<D>, s: State<D>)
    requires InStep(S, s) && CanAct(S, s, CClose)
    ensures InStep(S, Act(S, s, CClose))
  {
    assert |s.served| == Live(S.calls);
  }

  lemma RefuseKeepsPhase<D(!new)>(S: Session<D>, s: State<D>)
    requires InStep(S, s) && CanAct(S, s, CRefuse)
    ensures InStep(S, Act(S, s, CRefuse))
  {
  }

  lemma StepKeepsInStep<D(!new)>(S: Session<D>, s: State<D>, step: Step, t: State<D>)
    requires Proper(S) && InStep(S, s) && Next(S, s, step, t)
    ensures InStep(S, t)
  {
    if CanMove(s.conn, ReadSize(S.calls, |s.results|), step) {
      MoveKeepsPhase(S, s.conn, |s.results|, |s.served|, ReadSize(S.calls, |s.results|), step);
    } else {
      match step {
        case CStart => StartKeepsPhase(S, s);
        case CResponse => ResponseKeepsPhase(S, s);
        case CData => DataKeepsPhase(S, s);
        case CClose => CloseKeepsPhase(S, s);
        case CRefuse => RefuseKeepsPhase(S, s);
        case SRequest => RequestKeepsPhase(S, s);
        case SPayloadDone => PayloadKeepsPhase(S, s);
      }
    }
  }

  lemma {:induction false} RunInStep<D(!new)>(S: Session<D>, run: seq<State<D>>, steps: seq<Step>, i: nat)
    requires Proper(S) && IsRun(S, run, steps) && i < |run|
    ensures InStep(S, run[i])
  {
    if i > 0 {
      RunInStep(S, run, steps, i - 1);
      assert Next(S, run[i - 1], steps[i - 1], run[i - 1 + 1]);
      StepKeepsInStep(S, run[i - 1], steps[i - 1], run[i]);
    }
  }

  /** Frame alignment: over any device, for every well-formed session, every way the bytes are
      cut and every interleaving, the k-th result the client sees is the reference answer to
      its k-th command up to and including the exit command and a refusal after it, the server
      has run a prefix of the calls up to the exit command and the device has seen no other, and
      whenever no call is in progress both streams are empty. */
  lemma {:induction false} FramesStayAligned<D(!new)>(dev: Device<D>, start: D, calls: seq<Call>,
                                   run: seq<State<D>>, steps: seq<Step>, i: nat)
    requires WellFormed(calls)
    requires IsRun(Session(ServerOf(dev), start, calls), run, steps) && i < |run|
    ensures var S, s, live := Session(ServerOf(dev), start, calls), run[i], Live(calls);
            && |s.results| <= |calls| && |s.served| <= live
            && (|s.results| <= |s.served| || |s.served| == live)
            && (forall k :: 0 <= k < |s.results| ==>
                  s.results[k] == if k < live then Result(Expected(S, k).resp, ExpectedData(S, k)) else REFUSED)
            && s.served == Commands(calls)[..|s.served|]
            && s.dev == DeviceAfter(ServerOf(dev), start, s.served)
            && (s.conn.client.CIdle? ==> |s.served| == |s.results|)
            && (s.conn.client.CClosed? <==> |s.results| > 0 && |s.results| >= live && IsExit(calls[live - 1]))
            && (s.conn.client.CIdle? || s.conn.client.CClosed? ==> s.conn.toServer == [] && s.conn.toClient == [])
  {
    var S := Session(ServerOf(dev), start, calls);
    ServerAnswersReads(dev);
    RunInStep(S, run, steps, i);
  }

  ghost predicate Enabled<D(!new)>(S: Session<D>, s: State<D>, step: Step) {
    CanMove(s.conn, ReadSize(S.calls, |s.results|), step) || CanAct(S, s, step)
  }

  lemma DeliveryProgress(c: Conn, cmd: Command, readSize: nat) returns (step: Step)
    requires Delivering(c, RequestWire(cmd)) && |cmd.payload| == PayloadSize(cmd.req)
    requires !c.server.SStopped?
    ensures || CanMove(c, readSize, step)
            || (step == SRequest && c.server.SHeader? && |c.server.got| == HEADER)
            || (step == SPayloadDone && c.server.SPayload? && |c.server.payload| == PayloadSize(c.server.req))
  {
    if c.client.CSending? {
      step := if c.client.unsent == [] then CSent else CWrite(1);
    } else if c.server.SSending? {
      step := SSent;
    } else if c.server.SHeader? {
      step := if |c.server.got| == HEADER then SRequest else SRead(1);
    } else {
      PayloadIsRequest(c, cmd);
      step := if |c.server.payload| == PayloadSize(c.server.req) then SPayloadDone else SReadPayload(1);
    }
  }

  lemma AnswerProgress(c: Conn, resp: Response, data: seq<Byte>, readSize: nat) returns (step: Step)
    requires Answering(c, EncodeResponse(resp) + data)
    requires c.client.CReading? ==> c.client.resp == resp && readSize == |data|
    ensures || CanMove(c, readSize, step)
            || (step == CResponse && c.client.CReceiving? && |c.client.got| == HEADER)
            || (step == CData && c.client.CReading? && |c.client.data| == readSize)
  {
    if c.server.SSending? {
      step := if c.server.unsent == [] then SSent else SWrite(1);
    } else if c.client.CSending? {
      step := CSent;
    } else if c.client.CReceiving? {
      step := if |c.client.got| == HEADER then CResponse else CRead(1);
    } else {
      step := if |c.client.data| == readSize then CData else CReadData(1);
      assert |Got(c.client)| + |c.toClient| == HEADER + |data|;
    }
  }

  /** No deadlock: until the client has its last result, some thread can move. */
  lemma SomeoneCanMove<D(!new)>(S: Session<D>, s: State<D>) returns (step: Step)
    requires Proper(S) && InStep(S, s) && |s.results| < |S.calls|
    ensures Enabled(S, s, step)
  {
    var k := |s.results|;
    var c := s.conn;
    if c.client.CIdle? {
      step := CStart;
    } else if c.client.CClosed? {
      step := CRefuse;
    } else if c.client.CDraining? {
      step := if c.server.SStopped? then CClose else SSent;
    } else if |s.served| == k {
      assert !Stops(s.served) by {
        assert forall i :: 0 <= i < |s.served| ==> s.served[i] == S.calls[i].cmd;
      }
      assert Framed(S.calls[k]);
      step := DeliveryProgress(c, S.calls[k].cmd, S.calls[k].readSize);
    } else {
      if c.client.CReading? {
        assert Framed(S.calls[k]);
        ReadAnswer(S, k);
      }
      step := AnswerProgress(c, Expected(S, k).resp, ExpectedData(S, k), S.calls[k].readSize);
    }
  }

  ghost predicate Stuck<D(!new)>(S: Session<D>, s: State<D>) {
    forall step :: !Enabled(S, s, step)
  }

  /** A server short of payload bytes and a client waiting for the answer never move again. */
  lemma ShortPayloadStalls<D(!new)>(S: Session<D>, s: State<D>, req: Request, got: seq<Byte>)
    requires s.conn == Conn(CReceiving([]), SPayload(req, got), [], [])
    requires |got| < PayloadSize(req)
    ensures Stuck(S, s)
  {
  }
}
