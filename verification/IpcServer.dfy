/**
 The threads of the simulator's IPC server: the thread that serves the main client, any
 number of debug clients that may only read registers, and `ps_main`, the one dispatcher of
 the shared work queue. Also the two-sided shutdown with its optional hold period.

 The queue is a FIFO, so it is kept as the list of all work items ever enqueued and the
 number of them already dispatched.
 */
module IpcServer {
  import opened IpcWire
  import opened IpcDispatch
  import opened Options

  datatype Owner = MainClient | DebugClient

  datatype Item<D> = Item(owner: Owner, cmd: Command, reply: Option<Reply<D>>)

  /** The main client's thread: reading the next request, waiting for the item it enqueued,
      past its loop but keeping the debug socket open, or done. */
  datatype Main = MReading | MWaiting(item: nat) | MHolding | MDone

  /** `ps_main`: at the loop head, draining the queue, between answering an exit command and
      acting on it, checking the deadline, or returned. */
  datatype Dispatcher = PHead | PDrain | PExiting | PCheck | PReturned

  datatype Setup<!D> = Setup(serve: Server<D>, start: D, cmds: seq<Command>, holdMs: nat)

  datatype State<D> = State(
    dev: D, items: seq<Item<D>>, dispatched: nat,
    main: Main, results: seq<Reply<D>>,
    disp: Dispatcher, waiting: map<nat, nat>,  // debug client to the item it waits for
    exitDone: bool, serverDone: bool, deadline: int, now: nat)

  predicate IsRead(c: Command) {
    c.req.cmd == CMD_READ32 || c.req.cmd == CMD_NPI_READ32
  }

  /** Register reads and pings leave the device alone. */
  ghost predicate ReadsArePure<D(!new)>(serve: Server<D>) {
    forall d: D, c: Command :: IsRead(c) || c.req.cmd == CMD_PING ==> serve(d, c).dev == d
  }

  /** For a server over a device, that is a property of the device's two read calls. */
  lemma PureIff<D(!new)>(dev: Device<D>)
    ensures ReadsArePure(ServerOf(dev))
            <==> forall d, a :: dev.read32(d, a).0 == d && dev.npiRead32(d, a).0 == d
  {
    if ReadsArePure(ServerOf(dev)) {
      forall d, a
        ensures dev.read32(d, a).0 == d && dev.npiRead32(d, a).0 == d
      {
        assert ServerOf(dev)(d, Command(Request(CMD_READ32, a, 0), [])).dev == d;
        assert ServerOf(dev)(d, Command(Request(CMD_NPI_READ32, a, 0), [])).dev == d;
      }
    }
  }

  ghost predicate Initial<D(!new)>(S: Setup<D>, s: State<D>) {
    s == State(S.start, [], 0, MReading, [], PHead, map[], false, false, -1, 0)
  }

  function Enqueue<D>(s: State<D>, owner: Owner, c: Command): State<D> {
    s.(items := s.items + [Item(owner, c, None)])
  }

  predicate IsReady<D>(s: State<D>, i: nat) {
    i < |s.items| && s.items[i].reply.Some?
  }

  predicate HoldActive<D>(s: State<D>) {
    s.deadline >= 0 && s.now < s.deadline
  }

  /** The first caller arms the deadline; later ones find it armed. */
  function Arm<D>(S: Setup<D>, s: State<D>): State<D> {
    if s.deadline == -1 then s.(deadline := s.now + S.holdMs) else s
  }

  datatype Step =
    | MainCommand | MainClosed | MainReady | MainFinish
    | DebugRequest(client: nat, cmd: Command) | DebugAnswer(client: nat)
    | DispHead | DispPop | DispEmpty | DispExit | DispCheck
    | Tick

  predicate Can<D>(S: Setup<D>, s: State<D>, step: Step) {
    match step
    case MainCommand => s.main.MReading? && |s.results| < |S.cmds|
    case MainClosed => s.main.MReading?
    case MainReady => s.main.MWaiting? && IsReady(s, s.main.item) && |s.results| < |S.cmds|
    case MainFinish => s.main.MHolding? && !HoldActive(s)
    case DebugRequest(i, c) => i !in s.waiting && IsRead(c)
    case DebugAnswer(i) => i in s.waiting && (IsReady(s, s.waiting[i]) || s.serverDone)
    case DispHead => s.disp.PHead?
    case DispPop => s.disp.PDrain? && s.dispatched < |s.items|
    case DispEmpty => s.disp.PDrain? && s.dispatched == |s.items|
    case DispExit => s.disp.PExiting?
    case DispCheck => s.disp.PCheck?
    case Tick => true
  }

  /** `dispatch_work_item` on the item at the front of the queue. */
  function Pop<D>(S: Setup<D>, s: State<D>): State<D>
    requires s.dispatched < |s.items|
  {
    var i := s.dispatched;
    var r := S.serve(s.dev, s.items[i].cmd);
    s.(dev := r.dev, items := s.items[i := s.items[i].(reply := Some(r))], dispatched := i + 1,
       disp := if s.items[i].cmd.req.cmd == CMD_EXIT then PExiting else PDrain)
  }

  function Do<D>(S: Setup<D>, s: State<D>, step: Step): State<D>
    requires Can(S, s, step)
  {
    match step
    case MainCommand =>
      var c := S.cmds[|s.results|];
      if c.req.cmd == CMD_PING then s.(results := s.results + [S.serve(s.dev, c)])
      else Enqueue(s, MainClient, c).(main := MWaiting(|s.items|))
    case MainClosed =>
      (if S.holdMs == 0 then s.(exitDone := true) else Arm(S, s)).(main := MHolding)
    case MainReady =>
      s.(results := s.results + [s.items[s.main.item].reply.value],
         main := if S.cmds[|s.results|].req.cmd == CMD_EXIT then MHolding else MReading)
    case MainFinish => s.(main := MDone, serverDone := true)
    case DebugRequest(i, c) => Enqueue(s, DebugClient, c).(waiting := s.waiting[i := |s.items|])
    case DebugAnswer(i) => s.(waiting := s.waiting - {i})
    case DispHead => s.(disp := if s.exitDone then PReturned else PDrain)
    case DispPop => Pop(S, s)
    case DispEmpty => s.(disp := PCheck)
    case DispExit =>
      (if S.holdMs == 0 then s.(exitDone := true) else Arm(S, s)).(disp := PCheck)
    case DispCheck =>
      s.(exitDone := s.exitDone || (s.deadline >= 0 && !HoldActive(s)), disp := PHead)
    case Tick => s.(now := s.now + 1)
  }

  ghost predicate IsRun<D(!new)>(S: Setup<D>, run: seq<State<D>>, steps: seq<Step>) {
    && |run| == |steps| + 1
    && Initial(S, run[0])
    && forall i :: 0 <= i < |steps| ==> Can(S, run[i], steps[i]) && run[i + 1] == Do(S, run[i], steps[i])
  }

  // ----- Non-interference -------------------------------------------------------------

  /** Exactly the dispatched items are ready. */
  predicate QueueOk<D>(s: State<D>) {
    && s.dispatched <= |s.items|
    && (forall i :: 0 <= i < |s.items| ==> (s.items[i].reply.Some? <==> i < s.dispatched))
    && (forall i :: 0 <= i < |s.items| && s.items[i].owner.DebugClient? ==> IsRead(s.items[i].cmd))
    && (forall i :: i in s.waiting ==> s.waiting[i] < |s.items|)
  }

  /** The only main-client item that can be queued is the one its thread waits for. */
  predicate OneMainItem<D>(s: State<D>) {
    && (forall i :: s.dispatched <= i < |s.items| && s.items[i].owner.MainClient? ==>
          s.main == MWaiting(i))
    && (s.main.MWaiting? ==> s.main.item < |s.items| && s.items[s.main.item].owner.MainClient?)
  }

  /** The item the main thread waits for is its next command. */
  predicate AskedOk<D>(S: Setup<D>, s: State<D>) {
    && |s.results| <= |S.cmds|
    && (s.main.MWaiting? ==>
          |s.results| < |S.cmds| && s.main.item < |s.items| && s.items[s.main.item].cmd == S.cmds[|s.results|])
  }

  /** The device is what the main client's commands alone would have made of it. */
  ghost predicate AloneOk<D(!new)>(S: Setup<D>, s: State<D>) {
    var r := |s.results|;
    && AskedOk(S, s)
    && (forall k :: 0 <= k < r ==> s.results[k] == AnswerTo(S.serve, S.start, S.cmds, k))
    && (if s.main.MWaiting? && s.main.item < s.dispatched
        then s.dev == DeviceAfter(S.serve, S.start, S.cmds[..r + 1])
             && s.items[s.main.item].reply == Some(AnswerTo(S.serve, S.start, S.cmds, r))
        else s.dev == DeviceAfter(S.serve, S.start, S.cmds[..r]))
  }

  lemma RunOne<D(!new)>(S: Setup<D>, r: nat)
    requires r < |S.cmds|
    ensures DeviceAfter(S.serve, S.start, S.cmds[..r + 1]) == AnswerTo(S.serve, S.start, S.cmds, r).dev
  {
    assert S.cmds[..r + 1][..r] == S.cmds[..r];
  }

  lemma PopKeepsAlone<D(!new)>(S: Setup<D>, s: State<D>)
    requires ReadsArePure(S.serve) && QueueOk(s) && OneMainItem(s) && AloneOk(S, s)
    requires s.dispatched < |s.items|
    ensures AloneOk(S, Pop(S, s))
  {
    var i := s.dispatched;
    if s.items[i].owner.MainClient? {
      RunOne(S, |s.results|);
    } else {
      assert IsRead(s.items[i].cmd);
    }
  }

  lemma PopKeepsQueue<D(!new)>(S: Setup<D>, s: State<D>)
    requires QueueOk(s) && OneMainItem(s) && s.dispatched < |s.items|
    ensures QueueOk(Pop(S, s)) && OneMainItem(Pop(S, s))
  {
  }

  lemma RequestKeepsQueue<D(!new)>(S: Setup<D>, s: State<D>, step: Step)
    requires QueueOk(s) && OneMainItem(s) && Can(S, s, step)
    requires step.MainCommand? || step.DebugRequest?
    ensures QueueOk(Do(S, s, step)) && OneMainItem(Do(S, s, step))
  {
    var t := Do(S, s, step);
    assert forall i :: 0 <= i < |s.items| ==> t.items[i] == s.items[i];
  }

  lemma StepKeepsQueue<D(!new)>(S: Setup<D>, s: State<D>, step: Step)
    requires QueueOk(s) && OneMainItem(s) && Can(S, s, step)
    ensures QueueOk(Do(S, s, step)) && OneMainItem(Do(S, s, step))
  {
    if step.DispPop? {
      PopKeepsQueue(S, s);
    } else if step.MainCommand? || step.DebugRequest? {
      RequestKeepsQueue(S, s, step);
    } else {
      assert Do(S, s, step).items == s.items;
    }
  }

  lemma MainKeepsAlone<D(!new)>(S: Setup<D>, s: State<D>, step: Step)
    requires ReadsArePure(S.serve) && QueueOk(s) && OneMainItem(s) && AloneOk(S, s) && Can(S, s, step)
    requires step.MainCommand? || step.MainReady?
    ensures AloneOk(S, Do(S, s, step))
  {
    RunOne(S, |s.results|);
  }

  lemma StepKeepsAlone<D(!new)>(S: Setup<D>, s: State<D>, step: Step)
    requires ReadsArePure(S.serve) && QueueOk(s) && OneMainItem(s) && AloneOk(S, s) && Can(S, s, step)
    ensures AloneOk(S, Do(S, s, step))
  {
    if step.DispPop? {
      PopKeepsAlone(S, s);
    } else if step.MainCommand? || step.MainReady? {
      MainKeepsAlone(S, s, step);
    }
  }

  lemma {:induction false} RunKeepsAlone<D(!new)>(S: Setup<D>, run: seq<State<D>>, steps: seq<Step>, i: nat)
    requires ReadsArePure(S.serve) && IsRun(S, run, steps) && i < |run|
    ensures QueueOk(run[i]) && OneMainItem(run[i]) && AloneOk(S, run[i])
  {
    if i > 0 {
      RunKeepsAlone(S, run, steps, i - 1);
      assert run[i - 1 + 1] == Do(S, run[i - 1], steps[i - 1]);
      StepKeepsQueue(S, run[i - 1], steps[i - 1]);
      StepKeepsAlone(S, run[i - 1], steps[i - 1]);
    }
  }

  /** Non-interference: in every interleaving with any number of debug clients, the replies
      the main client gets are those of running its commands alone, in order, and whenever its
      thread is not waiting for one the device is in the state those commands leave. */
  lemma DebugClientsDoNotInterfere<D(!new)>(S: Setup<D>, run: seq<State<D>>, steps: seq<Step>, i: nat)
    requires ReadsArePure(S.serve) && IsRun(S, run, steps) && i < |run|
    ensures var s := run[i];
            && |s.results| <= |S.cmds|
            && (forall k :: 0 <= k < |s.results| ==> s.results[k] == AnswerTo(S.serve, S.start, S.cmds, k))
            && (!s.main.MWaiting? ==> s.dev == DeviceAfter(S.serve, S.start, S.cmds[..|s.results|]))
  {
    RunKeepsAlone(S, run, steps, i);
  }

  /** A debug client's item was answered from a state that the main client's commands alone lead
      to. */
  ghost predicate Snapshot<D(!new)>(S: Setup<D>, item: Item<D>) {
    exists j :: 0 <= j <= |S.cmds| && item.reply == Some(S.serve(DeviceAfter(S.serve, S.start, S.cmds[..j]), item.cmd))
  }

  ghost predicate SnapshotsOk<D(!new)>(S: Setup<D>, s: State<D>) {
    forall i :: 0 <= i < |s.items| && s.items[i].owner.DebugClient? && s.items[i].reply.Some? ==> Snapshot(S, s.items[i])
  }

  lemma DeviceIsReached<D(!new)>(S: Setup<D>, s: State<D>) returns (j: nat)
    requires AloneOk(S, s)
    ensures j <= |S.cmds| && s.dev == DeviceAfter(S.serve, S.start, S.cmds[..j])
  {
    j := if s.main.MWaiting? && s.main.item < s.dispatched then |s.results| + 1 else |s.results|;
  }

  lemma StepKeepsSnapshots<D(!new)>(S: Setup<D>, s: State<D>, step: Step)
    requires AloneOk(S, s) && SnapshotsOk(S, s) && Can(S, s, step)
    ensures SnapshotsOk(S, Do(S, s, step))
  {
    hide Snapshot, AloneOk;
    var t := Do(S, s, step);
    if step.DispPop? {
      var k := s.dispatched;
      PoppedIsSnapshot(S, s);
      forall i | 0 <= i < |t.items| && t.items[i].owner.DebugClient? && t.items[i].reply.Some?
        ensures Snapshot(S, t.items[i])
      {
        assert i != k ==> t.items[i] == s.items[i];
      }
    } else if step.MainCommand? || step.DebugRequest? {
      assert forall i :: 0 <= i < |s.items| ==> t.items[i] == s.items[i];
    } else {
      assert t.items == s.items;
    }
  }

  lemma PoppedIsSnapshot<D(!new)>(S: Setup<D>, s: State<D>)
    requires AloneOk(S, s) && s.dispatched < |s.items|
    ensures Snapshot(S, Pop(S, s).items[s.dispatched])
  {
    var j := DeviceIsReached(S, s);
  }

  /** Every debug client is told the truth: in every interleaving its read is answered as if it
      had been made between two commands of the main client running alone. */
  lemma {:induction false} DebugReadsAreSnapshots<D(!new)>(S: Setup<D>, run: seq<State<D>>, steps: seq<Step>, i: nat)
    requires ReadsArePure(S.serve) && IsRun(S, run, steps) && i < |run|
    ensures SnapshotsOk(S, run[i])
  {
    hide SnapshotsOk, AloneOk, ReadsArePure;
    if i == 0 {
      NoSnapshots(S, run[0]);
    } else {
      RunKeepsAlone(S, run, steps, i - 1);
      DebugReadsAreSnapshots(S, run, steps, i - 1);
      assert run[i - 1 + 1] == Do(S, run[i - 1], steps[i - 1]);
      StepKeepsSnapshots(S, run[i - 1], steps[i - 1]);
    }
  }

  lemma NoSnapshots<D(!new)>(S: Setup<D>, s: State<D>)
    requires Initial(S, s)
    ensures SnapshotsOk(S, s)
  {
  }

  // ----- Shutdown ---------------------------------------------------------------------

  /** The main client has sent its last command: its thread is past the loop, or about to
      leave it with the answer to an exit command. */
  predicate MainLeaving<D>(S: Setup<D>, s: State<D>) {
    || s.main.MHolding? || s.main.MDone?
    || (&& s.main.MWaiting? && s.main.item < s.dispatched
        && |s.results| < |S.cmds| && S.cmds[|s.results|].req.cmd == CMD_EXIT)
  }

  predicate ShutdownOk<D>(S: Setup<D>, s: State<D>) {
    && (s.exitDone || s.deadline >= 0 || s.disp.PExiting? || s.disp.PReturned? ==> MainLeaving(S, s))
    && (s.disp.PReturned? ==> s.exitDone)
    && (s.serverDone <==> s.main.MDone?)
    && s.deadline >= -1
    && (S.holdMs == 0 ==> s.deadline == -1)
    && (S.holdMs > 0 && s.exitDone ==> 0 <= s.deadline <= s.now)
    && (S.holdMs > 0 && s.deadline < 0 && MainLeaving(S, s) ==> s.disp.PExiting?)
    && (s.disp.PExiting? ==> s.deadline == -1)
  }

  /** What the shutdown rests on: whatever the device does, the queue and the main thread agree. */
  predicate QueueAsked<D>(S: Setup<D>, s: State<D>) {
    QueueOk(s) && OneMainItem(s) && AskedOk(S, s)
  }

  lemma StepKeepsAsked<D(!new)>(S: Setup<D>, s: State<D>, step: Step)
    requires QueueAsked(S, s) && Can(S, s, step)
    ensures AskedOk(S, Do(S, s, step))
  {
    if step.DispPop? {
      assert Do(S, s, step) == Pop(S, s);
    }
  }

  lemma StepKeepsShutdown<D(!new)>(S: Setup<D>, s: State<D>, step: Step)
    requires QueueAsked(S, s) && ShutdownOk(S, s) && Can(S, s, step)
    ensures ShutdownOk(S, Do(S, s, step))
  {
    if step.DispPop? && s.items[s.dispatched].owner.DebugClient? {
      assert IsRead(s.items[s.dispatched].cmd);
    }
  }

  lemma NextKeepsShutdown<D(!new)>(S: Setup<D>, run: seq<State<D>>, steps: seq<Step>, i: nat)
    requires IsRun(S, run, steps) && i < |steps| && QueueAsked(S, run[i]) && ShutdownOk(S, run[i])
    ensures QueueAsked(S, run[i + 1]) && ShutdownOk(S, run[i + 1])
  {
    StepKeepsQueue(S, run[i], steps[i]);
    StepKeepsAsked(S, run[i], steps[i]);
    StepKeepsShutdown(S, run[i], steps[i]);
  }

  lemma {:induction false} RunKeepsShutdown<D(!new)>(S: Setup<D>, run: seq<State<D>>, steps: seq<Step>, i: nat)
    requires IsRun(S, run, steps) && i < |run|
    ensures QueueAsked(S, run[i]) && ShutdownOk(S, run[i])
  {
    if i > 0 {
      RunKeepsShutdown(S, run, steps, i - 1);
      NextKeepsShutdown(S, run, steps, i - 1);
    }
  }

  /** When `ps_main` has returned, nothing of the main client is left in the queue and its
      thread is not waiting for an answer that will never come; with a hold configured, the
      hold has run its course. */
  lemma NothingOutstandingAtExit<D(!new)>(S: Setup<D>, run: seq<State<D>>, steps: seq<Step>, i: nat)
    requires IsRun(S, run, steps) && i < |run|
    requires run[i].disp.PReturned?
    ensures var s := run[i];
            && (forall j :: s.dispatched <= j < |s.items| ==> s.items[j].owner.DebugClient?)
            && (s.main.MWaiting? ==> IsReady(s, s.main.item))
            && !s.main.MReading?
            && (S.holdMs > 0 ==> 0 <= s.deadline <= s.now)
  {
    RunKeepsShutdown(S, run, steps, i);
  }

  /** Once both loops have ended, no debug client is left waiting. */
  lemma DebugClientsReleased<D(!new)>(S: Setup<D>, run: seq<State<D>>, steps: seq<Step>, i: nat, client: nat)
    requires IsRun(S, run, steps) && i < |run|
    requires run[i].main.MDone? && client in run[i].waiting
    ensures Can(S, run[i], DebugAnswer(client))
  {
    RunKeepsShutdown(S, run, steps, i);
  }

  /** The deadline is armed at most once. */
  lemma {:induction false} DeadlineIsFixed<D(!new)>(S: Setup<D>, run: seq<State<D>>, steps: seq<Step>, i: nat, j: nat)
    requires IsRun(S, run, steps) && i <= j < |run| && run[i].deadline >= 0
    ensures run[j].deadline == run[i].deadline
    decreases j - i
  {
    if i < j {
      DeadlineIsFixed(S, run, steps, i, j - 1);
      NextKeepsDeadline(S, run, steps, j - 1);
    }
  }

  lemma NextKeepsDeadline<D(!new)>(S: Setup<D>, run: seq<State<D>>, steps: seq<Step>, i: nat)
    requires IsRun(S, run, steps) && i < |steps| && run[i].deadline >= 0
    ensures run[i + 1].deadline == run[i].deadline
  {
    assert Can(S, run[i], steps[i]);
  }

  /** An armed hold lasts as long as it was configured for: the deadline is that long after the
      moment it was armed, and neither does the server close the debug socket before it, nor does
      `ps_main` return. */
  lemma HoldLasts<D(!new)>(S: Setup<D>, run: seq<State<D>>, steps: seq<Step>, i: nat, j: nat)
    requires IsRun(S, run, steps) && i < j < |run| && run[i].deadline == -1 && run[i + 1].deadline != -1
    ensures run[i + 1].deadline == run[i].now + S.holdMs
    ensures Can(S, run[j], MainFinish) || run[j].disp.PReturned? ==> run[j].now >= run[i].now + S.holdMs
  {
    assert Can(S, run[i], steps[i]) && run[i + 1] == Do(S, run[i], steps[i]);
    RunKeepsShutdown(S, run, steps, i + 1);
    DeadlineIsFixed(S, run, steps, i + 1, j);
    RunKeepsShutdown(S, run, steps, j);
  }

  /** The debug socket is closed with the hold not yet armed if and only if `ps_main` is in the
      gap between answering an exit command and acting on it: a client that simply disconnects
      always gets its hold, and an armed hold is always sat out. */
  lemma HoldSkippedIffInGap<D(!new)>(S: Setup<D>, run: seq<State<D>>, steps: seq<Step>, i: nat)
    requires IsRun(S, run, steps) && i < |run|
    requires S.holdMs > 0 && Can(S, run[i], MainFinish)
    ensures run[i].deadline == -1 <==> run[i].disp.PExiting?
    ensures run[i].deadline != -1 ==> 0 <= run[i].deadline <= run[i].now
  {
    RunKeepsShutdown(S, run, steps, i);
  }

  /** From every reachable state in that gap, while the main thread still waits for the answer
      to its exit command, two steps of that thread skip the hold. */
  lemma GapCanAlwaysBeUsed<D(!new)>(S: Setup<D>, run: seq<State<D>>, steps: seq<Step>, i: nat)
    requires IsRun(S, run, steps) && i < |run| && run[i].disp.PExiting? && run[i].main.MWaiting?
    ensures Can(S, run[i], MainReady) && Can(S, Do(S, run[i], MainReady), MainFinish)
    ensures var t := Do(S, Do(S, run[i], MainReady), MainFinish); t.serverDone && t.deadline == -1
  {
    RunKeepsShutdown(S, run, steps, i);
  }

  /** And that gap is reached, whatever hold is configured. */
  lemma HoldCanBeSkipped<D(!new)>(S: Setup<D>, s: State<D>, c: Command)
    returns (run: seq<State<D>>, steps: seq<Step>)
    requires S.cmds == [c] && c.req.cmd == CMD_EXIT && Initial(S, s)
    ensures IsRun(S, run, steps)
    ensures run[|run| - 1].serverDone && run[|run| - 1].deadline == -1
  {
    var s1 := Do(S, s, MainCommand);
    var s2 := Do(S, s1, DispHead);
    var s3 := Do(S, s2, DispPop);
    var s4 := Do(S, s3, MainReady);
    var s5 := Do(S, s4, MainFinish);
    run, steps := [s, s1, s2, s3, s4, s5], [MainCommand, DispHead, DispPop, MainReady, MainFinish];
  }
}
