/**
 The other direction of framing: a session that is not well formed goes wrong. Its well-formed
 part is carried through, and then the two sides wait for each other for ever, or bytes are left
 on a stream when the client believes its call to be over.
 */
module IpcBreaks {
  import opened LittleEndian
  import opened IpcWire
  import opened IpcDispatch
  import opened IpcFraming

  // ----- Reaching a state -------------------------------------------------------------

  function After<D>(S: Session<D>, s: State<D>, step: Step): State<D> {
    if CanMove(s.conn, ReadSize(S.calls, |s.results|), step)
    then s.(conn := Move(s.conn, ReadSize(S.calls, |s.results|), step))
    else if CanAct(S, s, step) then Act(S, s, step)
    else s
  }

  ghost predicate Leads<D(!new)>(S: Session<D>, s: State<D>, steps: seq<Step>, t: State<D>)
    decreases |steps|
  {
    if steps == [] then s == t
    else Enabled(S, s, steps[0]) && Leads(S, After(S, s, steps[0]), steps[1..], t)
  }

  ghost predicate Reaches<D(!new)>(S: Session<D>, s: State<D>, t: State<D>) {
    exists steps :: Leads(S, s, steps, t)
  }

  lemma Stay<D(!new)>(S: Session<D>, s: State<D>)
    ensures Reaches(S, s, s)
  {
    assert Leads(S, s, [], s);
  }

  lemma One<D(!new)>(S: Session<D>, s: State<D>, step: Step)
    requires Enabled(S, s, step)
    ensures Reaches(S, s, After(S, s, step))
  {
    var t := After(S, s, step);
    assert Leads(S, t, [], t);
    assert [step][1..] == [];
    assert Leads(S, s, [step], t);
  }

  lemma {:induction false} LeadsOn<D(!new)>(S: Session<D>, s: State<D>, xs: seq<Step>, t: State<D>, ys: seq<Step>, u: State<D>)
    requires Leads(S, s, xs, t) && Leads(S, t, ys, u)
    ensures Leads(S, s, xs + ys, u)
    decreases |xs|
  {
    hide After, Enabled;
    if xs == [] {
      assert [] + ys == ys;
    } else {
      LeadsOn(S, After(S, s, xs[0]), xs[1..], t, ys, u);
      assert (xs + ys)[1..] == xs[1..] + ys;
    }
  }

  lemma Trans<D(!new)>(S: Session<D>, s: State<D>, t: State<D>, u: State<D>)
    requires Reaches(S, s, t) && Reaches(S, t, u)
    ensures Reaches(S, s, u)
  {
    var xs :| Leads(S, s, xs, t);
    var ys :| Leads(S, t, ys, u);
    LeadsOn(S, s, xs, t, ys, u);
  }

  lemma Then<D(!new)>(S: Session<D>, s: State<D>, t: State<D>, step: Step, u: State<D>)
    requires Reaches(S, s, t) && Enabled(S, t, step) && u == After(S, t, step)
    ensures Reaches(S, s, u)
  {
    One(S, t, step);
    Trans(S, s, t, u);
  }

  function States<D>(S: Session<D>, s: State<D>, steps: seq<Step>): (run: seq<State<D>>)
    ensures |run| == |steps| + 1 && run[0] == s
    decreases |steps|
  {
    if steps == [] then [s] else [s] + States(S, After(S, s, steps[0]), steps[1..])
  }

  lemma {:induction false} LeadsIsRun<D(!new)>(S: Session<D>, s: State<D>, steps: seq<Step>, t: State<D>)
    requires Leads(S, s, steps, t)
    ensures var run := States(S, s, steps);
            && run[|steps|] == t
            && forall i :: 0 <= i < |steps| ==> Next(S, run[i], steps[i], run[i + 1])
    decreases |steps|
  {
    if steps != [] {
      var u, rest := After(S, s, steps[0]), steps[1..];
      LeadsIsRun(S, u, rest, t);
      var run, tail := States(S, s, steps), States(S, u, rest);
      assert run == [s] + tail;
      forall i | 0 <= i < |steps|
        ensures Next(S, run[i], steps[i], run[i + 1])
      {
        if i > 0 {
          assert Next(S, tail[i - 1], rest[i - 1], tail[i]);
        }
      }
    }
  }

  /** A reachable state is the last one of a run. */
  lemma ReachedByRun<D(!new)>(S: Session<D>, s: State<D>, t: State<D>) returns (run: seq<State<D>>, steps: seq<Step>)
    requires Initial(S, s) && Reaches(S, s, t)
    ensures IsRun(S, run, steps) && run[|run| - 1] == t
  {
    steps :| Leads(S, s, steps, t);
    run := States(S, s, steps);
    LeadsIsRun(S, s, steps, t);
  }

  // ----- One call, in whole pieces ----------------------------------------------------

  function At<D>(s: State<D>, c: Conn): State<D> {
    s.(conn := c)
  }

  lemma Sends<D(!new)>(S: Session<D>, s: State<D>, v: IpcFraming.Server, w: seq<Byte>)
    requires s.conn == Conn(CIdle, v, [], []) && |s.results| < |S.calls|
    requires w == RequestWire(S.calls[|s.results|].cmd)
    ensures Reaches(S, s, At(s, Conn(CReceiving([]), v, w, [])))
  {
    var s1, s2 := At(s, Conn(CSending(w), v, [], [])), At(s, Conn(CSending([]), v, w, []));
    One(S, s, CStart);
    assert After(S, s, CStart) == s1;
    assert w[..|w|] == w && w[|w|..] == [] && [] + w == w;
    Then(S, s, s1, CWrite(|w|), s2);
    Then(S, s, s2, CSent, At(s, Conn(CReceiving([]), v, w, [])));
  }

  lemma TakesHeader<D(!new)>(S: Session<D>, s: State<D>, h: seq<Byte>, payload: seq<Byte>)
    requires s.conn == Conn(CReceiving([]), SHeader([]), h + payload, []) && |h| == HEADER
    ensures Reaches(S, s, At(s, Conn(CReceiving([]), SHeader(h), payload, [])))
  {
    assert (h + payload)[..HEADER] == h && (h + payload)[HEADER..] == payload && [] + h == h;
    One(S, s, SRead(HEADER));
  }

  /** The server starts to collect a payload. */
  lemma AsksForPayload<D(!new)>(S: Session<D>, s: State<D>, req: Request, payload: seq<Byte>)
    requires s.conn == Conn(CReceiving([]), SHeader(EncodeRequest(req)), payload, []) && PayloadSize(req) > 0
    ensures Reaches(S, s, At(s, Conn(CReceiving([]), SPayload(req, []), payload, [])))
  {
    RequestRoundTrip(req);
    One(S, s, SRequest);
  }

  lemma TakesPayload<D(!new)>(S: Session<D>, s: State<D>, req: Request, payload: seq<Byte>, n: nat)
    requires s.conn == Conn(CReceiving([]), SPayload(req, []), payload, []) && n <= |payload| && n <= PayloadSize(req)
    ensures Reaches(S, s, At(s, Conn(CReceiving([]), SPayload(req, payload[..n]), payload[n..], [])))
  {
    if n == 0 {
      assert payload[0..] == payload;
      Stay(S, s);
    } else {
      assert [] + payload[..n] == payload[..n];
      One(S, s, SReadPayload(n));
    }
  }

  /** The server has run the command `c` and turns to answering it. */
  function Ran<D>(S: Session<D>, s: State<D>, c: Command, left: seq<Byte>): State<D> {
    var r := S.serve(s.dev, c);
    State(Conn(CReceiving([]), SSending(ReplyWire(c.req, r), c.req.cmd == CMD_EXIT), left, []),
          r.dev, s.served + [c], s.results)
  }

  lemma Runs<D(!new)>(S: Session<D>, s: State<D>, req: Request, payload: seq<Byte>)
    requires s.conn == Conn(CReceiving([]), SHeader(EncodeRequest(req)), payload, []) && PayloadSize(req) <= |payload|
    ensures Reaches(S, s, Ran(S, s, Command(req, payload[..PayloadSize(req)]), payload[PayloadSize(req)..]))
  {
    var n := PayloadSize(req);
    if n == 0 {
      RequestRoundTrip(req);
      assert payload[..0] == [] && payload[0..] == payload;
      One(S, s, SRequest);
    } else {
      AsksForPayload(S, s, req, payload);
      var s1 := At(s, Conn(CReceiving([]), SPayload(req, []), payload, []));
      TakesPayload(S, s1, req, payload, n);
      var s2 := At(s, Conn(CReceiving([]), SPayload(req, payload[..n]), payload[n..], []));
      Trans(S, s, s1, s2);
      Then(S, s, s2, SPayloadDone, Ran(S, s, Command(req, payload[..n]), payload[n..]));
    }
  }

  function Rest(stop: bool): IpcFraming.Server {
    if stop then SStopped else SHeader([])
  }

  lemma Replies<D(!new)>(S: Session<D>, s: State<D>, h: seq<Byte>, data: seq<Byte>, stop: bool, left: seq<Byte>)
    requires s.conn == Conn(CReceiving([]), SSending(h + data, stop), left, []) && |h| == HEADER
    ensures Reaches(S, s, At(s, Conn(CReceiving(h), Rest(stop), left, data)))
  {
    var w := h + data;
    var s1, s2 := At(s, Conn(CReceiving([]), SSending([], stop), left, w)), At(s, Conn(CReceiving([]), Rest(stop), left, w));
    assert w[..|w|] == w && w[|w|..] == [] && [] + w == w;
    One(S, s, SWrite(|w|));
    assert After(S, s, SWrite(|w|)) == s1;
    Then(S, s, s1, SSent, s2);
    assert w[..HEADER] == h && w[HEADER..] == data && [] + h == h;
    Then(S, s, s2, CRead(HEADER), At(s, Conn(CReceiving(h), Rest(stop), left, data)));
  }

  /** Everything up to the client's reading of the response header. */
  lemma Answers<D(!new)>(S: Session<D>, s: State<D>, cmd: Command) returns (t: State<D>)
    requires s.conn == Conn(CIdle, SHeader([]), [], []) && |s.results| < |S.calls|
    requires S.calls[|s.results|].cmd == cmd && PayloadSize(cmd.req) <= |cmd.payload|
    ensures Reaches(S, s, t) && t.results == s.results
    ensures var n := PayloadSize(cmd.req); var r := S.serve(s.dev, Command(cmd.req, cmd.payload[..n]));
            t.conn == Conn(CReceiving(EncodeResponse(r.resp)), Rest(cmd.req.cmd == CMD_EXIT), cmd.payload[n..],
                           if cmd.req.cmd == CMD_READ_GM then r.data else [])
  {
    var h, n := EncodeRequest(cmd.req), PayloadSize(cmd.req);
    Sends(S, s, SHeader([]), h + cmd.payload);
    var s1 := At(s, Conn(CReceiving([]), SHeader([]), h + cmd.payload, []));
    TakesHeader(S, s1, h, cmd.payload);
    var s2 := At(s, Conn(CReceiving([]), SHeader(h), cmd.payload, []));
    Trans(S, s, s1, s2);
    Runs(S, s2, cmd.req, cmd.payload);
    var c := Command(cmd.req, cmd.payload[..n]);
    var s3 := Ran(S, s2, c, cmd.payload[n..]);
    Trans(S, s, s2, s3);
    var r := S.serve(s.dev, c);
    var data := if cmd.req.cmd == CMD_READ_GM then r.data else [];
    Replies(S, s3, EncodeResponse(r.resp), data, cmd.req.cmd == CMD_EXIT, cmd.payload[n..]);
    t := At(s3, Conn(CReceiving(EncodeResponse(r.resp)), Rest(cmd.req.cmd == CMD_EXIT), cmd.payload[n..], data));
    Trans(S, s, s3, t);
  }

  /** A call that is neither a memory read nor the exit command returns at its response. */
  lemma Returns<D(!new)>(S: Session<D>, s: State<D>, resp: Response, v: IpcFraming.Server, left: seq<Byte>) returns (t: State<D>)
    requires s.conn == Conn(CReceiving(EncodeResponse(resp)), v, left, []) && |s.results| < |S.calls|
    requires S.calls[|s.results|].cmd.req.cmd != CMD_READ_GM && !IsExit(S.calls[|s.results|])
    ensures Reaches(S, s, t) && |t.results| == |s.results| + 1 && t.conn == Conn(CIdle, v, left, [])
  {
    One(S, s, CResponse);
    t := After(S, s, CResponse);
  }

  /** A memory read collects as many bytes as there are, up to what it wants. */
  lemma Collects<D(!new)>(S: Session<D>, s: State<D>, resp: Response, v: IpcFraming.Server, data: seq<Byte>, n: nat)
    requires s.conn == Conn(CReceiving(EncodeResponse(resp)), v, [], data) && |s.results| < |S.calls|
    requires resp.status == STATUS_OK && S.calls[|s.results|].cmd.req.cmd == CMD_READ_GM
    requires n <= |data| && n <= S.calls[|s.results|].readSize
    ensures Reaches(S, s, At(s, Conn(CReading(resp, data[..n]), v, [], data[n..])))
  {
    ResponseRoundTrip(resp);
    var s1 := At(s, Conn(CReading(resp, []), v, [], data));
    One(S, s, CResponse);
    assert After(S, s, CResponse) == s1;
    if n == 0 {
      assert data[..0] == [] && data[0..] == data;
    } else {
      assert [] + data[..n] == data[..n];
      Then(S, s, s1, CReadData(n), At(s, Conn(CReading(resp, data[..n]), v, [], data[n..])));
    }
  }

  // ----- Sessions ---------------------------------------------------------------------

  /** What every client call is: a memory read and the exit command have no payload. */
  predicate ClientMade(calls: seq<Call>) {
    forall i :: 0 <= i < |calls| && (calls[i].cmd.req.cmd == CMD_READ_GM || IsExit(calls[i])) ==>
                  calls[i].cmd.payload == []
  }

  /** The call sends at least the payload it announces, and reads no more than is sent. */
  predicate Finishes(c: Call) {
    && PayloadSize(c.cmd.req) <= |c.cmd.payload|
    && (c.cmd.req.cmd == CMD_READ_GM ==> c.readSize <= c.cmd.req.arg2)
  }

  /** Such a call returns, and leaves on the streams exactly what was too much. */
  lemma CallReturns<D(!new)>(S: Session<D>, s: State<D>, k: nat) returns (t: State<D>)
    requires s.conn == Conn(CIdle, SHeader([]), [], []) && k == |s.results| < |S.calls|
    requires AnswersReads(S.serve) && ClientMade(S.calls) && Finishes(S.calls[k]) && !IsExit(S.calls[k])
    ensures Reaches(S, s, t) && |t.results| == k + 1
    ensures t.conn.client == CIdle && t.conn.server == SHeader([])
    ensures t.conn.toServer == S.calls[k].cmd.payload[PayloadSize(S.calls[k].cmd.req)..]
    ensures |t.conn.toClient| == if S.calls[k].cmd.req.cmd == CMD_READ_GM
                                 then S.calls[k].cmd.req.arg2 - S.calls[k].readSize else 0
  {
    var c := S.calls[k];
    var n := PayloadSize(c.cmd.req);
    var r := S.serve(s.dev, Command(c.cmd.req, c.cmd.payload[..n]));
    var s1 := Answers(S, s, c.cmd);
    if c.cmd.req.cmd == CMD_READ_GM {
      Collects(S, s1, r.resp, Rest(false), r.data, c.readSize);
      var s2 := At(s1, Conn(CReading(r.resp, r.data[..c.readSize]), Rest(false), [], r.data[c.readSize..]));
      Trans(S, s, s1, s2);
      t := After(S, s2, CData);
      Then(S, s, s2, CData, t);
    } else {
      t := Returns(S, s1, r.resp, Rest(false), c.cmd.payload[n..]);
      Trans(S, s, s1, t);
    }
  }

  /** The first `k` calls are well formed, and none of them is the exit command. */
  predicate Plain(calls: seq<Call>, k: nat) {
    k <= |calls| && forall i :: 0 <= i < k ==> Framed(calls[i]) && !IsExit(calls[i])
  }

  /** Then they can be carried through, to a state with nothing left over. */
  lemma {:induction false} PrefixRuns<D(!new)>(S: Session<D>, s: State<D>, k: nat) returns (t: State<D>)
    requires Initial(S, s) && AnswersReads(S.serve) && ClientMade(S.calls) && Plain(S.calls, k)
    ensures Reaches(S, s, t) && |t.results| == k && t.conn == Conn(CIdle, SHeader([]), [], [])
    decreases k
  {
    if k == 0 {
      t := s;
      Stay(S, s);
    } else {
      var u := PrefixRuns(S, s, k - 1);
      assert Framed(S.calls[k - 1]);
      t := CallReturns(S, u, k - 1);
      Trans(S, s, u, t);
    }
  }

  /** Two sides that wait for ever before the last result, or bytes left on a stream when the
      client is idle. */
  ghost predicate Broken<D(!new)>(S: Session<D>, s: State<D>) {
    || (Stuck(S, s) && |s.results| < |S.calls|)
    || (s.conn.client.CIdle? && (s.conn.toServer != [] || s.conn.toClient != []))
  }

  /** Too little payload: the server waits for the rest, the client for the answer. */
  lemma ShortCallBreaks<D(!new)>(S: Session<D>, s: State<D>, k: nat) returns (t: State<D>)
    requires s.conn == Conn(CIdle, SHeader([]), [], []) && k == |s.results| < |S.calls|
    requires |S.calls[k].cmd.payload| < PayloadSize(S.calls[k].cmd.req)
    ensures Reaches(S, s, t) && Stuck(S, t) && t.results == s.results
  {
    var cmd := S.calls[k].cmd;
    var h, n := EncodeRequest(cmd.req), |cmd.payload|;
    Sends(S, s, SHeader([]), h + cmd.payload);
    var s1 := At(s, Conn(CReceiving([]), SHeader([]), h + cmd.payload, []));
    TakesHeader(S, s1, h, cmd.payload);
    var s2 := At(s, Conn(CReceiving([]), SHeader(h), cmd.payload, []));
    Trans(S, s, s1, s2);
    AsksForPayload(S, s2, cmd.req, cmd.payload);
    var s3 := At(s, Conn(CReceiving([]), SPayload(cmd.req, []), cmd.payload, []));
    Trans(S, s, s2, s3);
    TakesPayload(S, s3, cmd.req, cmd.payload, n);
    assert cmd.payload[..n] == cmd.payload && cmd.payload[n..] == [];
    t := At(s, Conn(CReceiving([]), SPayload(cmd.req, cmd.payload), [], []));
    Trans(S, s, s3, t);
    ShortPayloadStalls(S, t, cmd.req, cmd.payload);
  }

  /** Too much wanted: the client waits for data, the server for the next request. */
  lemma LongReadBreaks<D(!new)>(S: Session<D>, s: State<D>, k: nat) returns (t: State<D>)
    requires s.conn == Conn(CIdle, SHeader([]), [], []) && k == |s.results| < |S.calls|
    requires AnswersReads(S.serve) && ClientMade(S.calls)
    requires S.calls[k].cmd.req.cmd == CMD_READ_GM && S.calls[k].readSize > S.calls[k].cmd.req.arg2
    ensures Reaches(S, s, t) && Stuck(S, t) && t.results == s.results
  {
    var c := S.calls[k];
    var r := S.serve(s.dev, Command(c.cmd.req, []));
    assert c.cmd.payload[..0] == [] && c.cmd.payload[0..] == [];
    var s1 := Answers(S, s, c.cmd);
    Collects(S, s1, r.resp, SHeader([]), r.data, |r.data|);
    assert r.data[..|r.data|] == r.data && r.data[|r.data|..] == [];
    t := At(s1, Conn(CReading(r.resp, r.data), SHeader([]), [], []));
    Trans(S, s, s1, t);
  }

  /** The first call that is not well formed after well-formed ones breaks the session. */
  lemma BadCallBreaks<D(!new)>(S: Session<D>, s: State<D>, k: nat) returns (t: State<D>)
    requires s.conn == Conn(CIdle, SHeader([]), [], []) && k == |s.results| < |S.calls|
    requires AnswersReads(S.serve) && ClientMade(S.calls) && !Framed(S.calls[k])
    ensures Reaches(S, s, t) && Broken(S, t)
  {
    var c := S.calls[k];
    if |c.cmd.payload| < PayloadSize(c.cmd.req) {
      t := ShortCallBreaks(S, s, k);
    } else if c.cmd.req.cmd == CMD_READ_GM && c.readSize > c.cmd.req.arg2 {
      t := LongReadBreaks(S, s, k);
    } else {
      t := CallReturns(S, s, k);
      assert |t.conn.toServer| + |t.conn.toClient| > 0;
    }
  }

  /** The first call that is not framed, of those made while the client is connected. */
  lemma {:induction false} FirstBad(calls: seq<Call>, n: nat) returns (k: nat)
    requires n <= Live(calls) && exists i :: 0 <= i < n && !Framed(calls[i])
    ensures k < n && Plain(calls, k) && !Framed(calls[k])
    decreases n
  {
    if i :| 0 <= i < n - 1 && !Framed(calls[i]) {
      k := FirstBad(calls, n - 1);
    } else {
      k := n - 1;
    }
  }

  /** Every session of client calls that is not well formed has a run that breaks. */
  lemma IllFormedBreaks<D(!new)>(S: Session<D>, s: State<D>) returns (run: seq<State<D>>, steps: seq<Step>)
    requires Initial(S, s) && AnswersReads(S.serve) && ClientMade(S.calls) && !WellFormed(S.calls)
    ensures IsRun(S, run, steps) && Broken(S, run[|run| - 1])
  {
    var k := FirstBad(S.calls, Live(S.calls));
    var t := PrefixRuns(S, s, k);
    var u := BadCallBreaks(S, t, k);
    Trans(S, s, t, u);
    run, steps := ReachedByRun(S, s, u);
  }

  /** So, over any device, a session of client calls is well formed if and only if none of its
      runs, however the bytes are cut, ever comes to wait for ever or to leave bytes over. */
  lemma WellFormedIff<D(!new)>(dev: Device<D>, start: D, calls: seq<Call>)
    requires ClientMade(calls)
    ensures var S := Session(ServerOf(dev), start, calls);
            WellFormed(calls) <==>
            forall run: seq<State<D>>, steps: seq<Step>, i: int :: IsRun(S, run, steps) && 0 <= i < |run| ==> !Broken(S, run[i])
  {
    var S := Session(ServerOf(dev), start, calls);
    ServerAnswersReads(dev);
    if WellFormed(calls) {
      forall run: seq<State<D>>, steps: seq<Step>, i: int | IsRun(S, run, steps) && 0 <= i < |run|
        ensures !Broken(S, run[i])
      {
        RunInStep(S, run, steps, i);
        if |run[i].results| < |calls| {
          var step := SomeoneCanMove(S, run[i]);
        }
      }
    } else {
      var s := State(Conn(CIdle, SHeader([]), [], []), start, [], []);
      var run, steps := IllFormedBreaks(S, s);
      assert Broken(S, run[|run| - 1]);
    }
  }

  /** In particular a null write that announces bytes, after any calls that are well formed,
      stops both sides for ever, without its result. */
  lemma NullWriteStalls<D(!new)>(S: Session<D>, k: nat, addr: U64, size: nat, s: State<D>)
    returns (run: seq<State<D>>, steps: seq<Step>)
    requires Initial(S, s) && AnswersReads(S.serve) && ClientMade(S.calls)
    requires k < |S.calls| && Plain(S.calls, k) && S.calls[k] == WriteGmNull(addr, size) && Truncate(size) > 0
    ensures IsRun(S, run, steps) && Stuck(S, run[|run| - 1]) && |run[|run| - 1].results| == k
  {
    var t := PrefixRuns(S, s, k);
    var u := ShortCallBreaks(S, t, k);
    Trans(S, s, t, u);
    run, steps := ReachedByRun(S, s, u);
  }
}
