/**
 Run-time parameter (RTP) ports: the ping-pong hand-off between a writer doing
 `graph_api::update` and a reader doing `graph_api::read`.

 A port owns two data buffers, a selector word naming the buffer that was written
 last, and three hardware locks. Each thread below is deterministic; concurrency is
 the choice, at every step, of the thread that moves. Data blocks are copied one
 element at a time, so that a torn value would be visible.
 */
module RtpProtocol {

  /** A first-generation lock: a value, and whether some thread holds it. */
  datatype Lock = Lock(value: int, held: bool)

  /** The value an acquire waits for; `AnyValue` is the driver's "lock with no value". */
  datatype Want = Exactly(value: int) | AnyValue

  predicate CanAcquire(l: Lock, want: Want) {
    !l.held && (want.AnyValue? || l.value == want.value)
  }

  datatype Port = Port(isAsync: bool, numBytes: nat)

  const ACQ_WRITE := 0
  const ACQ_READ := 1
  const REL_READ := 1
  const REL_WRITE := 0

  function WriterWants(p: Port): Want {
    if p.isAsync then AnyValue else Exactly(ACQ_WRITE)
  }

  const ReaderWants := Exactly(ACQ_READ)

  function ReaderLeaves(p: Port): int {
    if p.isAsync then REL_READ else REL_WRITE
  }

  type Value = seq<int>

  /** A data buffer and the lock that guards it. */
  datatype Buffer = Buffer(lock: Lock, data: Value)

  /** The selector word names a buffer: `false` is ping, `true` is pong. */
  datatype Device = Device(selLock: Lock, selector: bool, ping: Buffer, pong: Buffer)

  function At(d: Device, b: bool): Buffer {
    if b then d.pong else d.ping
  }

  function Put(d: Device, b: bool, x: Buffer): Device {
    if b then d.(pong := x) else d.(ping := x)
  }

  datatype WriterPc =
    | WIdle | WAcqSelector | WReadSelector | WAcqBuffer | WCopy | WSetSelector | WRelSelector | WRelBuffer

  datatype ReaderPc =
    | RIdle | RAcqSelector | RReadSelector | RAcqBuffer | RRelSelector | RCopy | RRelBuffer

  /** `buf` is the buffer the writer chose, `done` how much of `val` it has copied. */
  datatype Writer = Writer(pc: WriterPc, buf: bool, val: Value, done: nat)

  /** `seen` is how many updates were published when the current read read the selector. */
  datatype Reader = Reader(pc: ReaderPc, buf: bool, got: Value, seen: nat)

  /** What an observer writes down: the values published, in order, and for every completed
      read the value it returned and the number of updates it had seen published. */
  datatype History = History(updates: seq<Value>, returned: seq<Value>, seen: seq<nat>)

  datatype State = State(dev: Device, w: Writer, r: Reader, h: History)

  predicate Initial(p: Port, s: State) {
    && s.dev.selLock == s.dev.ping.lock == s.dev.pong.lock == Lock(0, false)
    && |s.dev.ping.data| == |s.dev.pong.data| == p.numBytes
    && s.w.pc.WIdle? && s.r.pc.RIdle?
    && s.h == History([], [], [])
  }

  /** The caller hands `update` a value of the port's size (other sizes are refused up front). */
  predicate UpdateCalled(p: Port, s: State, v: Value, t: State) {
    s.w.pc.WIdle? && |v| == p.numBytes && t == s.(w := s.w.(pc := WAcqSelector, val := v))
  }

  predicate ReadCalled(s: State, t: State) {
    s.r.pc.RIdle? && t == s.(r := s.r.(pc := RAcqSelector))
  }

  predicate WriterEnabled(p: Port, s: State) {
    match s.w.pc
    case WIdle => false
    case WAcqSelector => CanAcquire(s.dev.selLock, WriterWants(p))
    case WAcqBuffer => CanAcquire(At(s.dev, s.w.buf).lock, WriterWants(p))
    case WCopy => s.w.done <= |s.w.val| == |At(s.dev, s.w.buf).data|
    case _ => true
  }

  /** One step of `update`, in the source's order. */
  function WriterStep(p: Port, s: State): State
    requires WriterEnabled(p, s)
  {
    var d, w := s.dev, s.w;
    var b := At(d, w.buf);
    match w.pc
    case WAcqSelector =>
      s.(dev := d.(selLock := d.selLock.(held := true)), w := w.(pc := WReadSelector))
    case WReadSelector =>
      s.(w := w.(buf := !d.selector, pc := WAcqBuffer))
    case WAcqBuffer =>
      s.(dev := Put(d, w.buf, b.(lock := b.lock.(held := true))), w := w.(done := 0, pc := WCopy))
    case WCopy =>
      if w.done < |w.val|
      then s.(dev := Put(d, w.buf, b.(data := b.data[w.done := w.val[w.done]])), w := w.(done := w.done + 1))
      else s.(w := w.(pc := WSetSelector))
    case WSetSelector =>
      s.(dev := d.(selector := w.buf), w := w.(pc := WRelSelector),
         h := s.h.(updates := s.h.updates + [w.val]))
    case WRelSelector =>
      s.(dev := d.(selLock := Lock(REL_READ, false)), w := w.(pc := WRelBuffer))
    case WRelBuffer =>
      s.(dev := Put(d, w.buf, b.(lock := Lock(REL_READ, false))), w := w.(pc := WIdle))
  }

  predicate ReaderEnabled(s: State) {
    match s.r.pc
    case RIdle => false
    case RAcqSelector => CanAcquire(s.dev.selLock, ReaderWants)
    case RAcqBuffer => CanAcquire(At(s.dev, s.r.buf).lock, ReaderWants)
    case RCopy => |s.r.got| <= |At(s.dev, s.r.buf).data|
    case _ => true
  }

  /** One step of `read`; the selector lock is dropped before the data are copied. */
  function ReaderStep(p: Port, s: State): State
    requires ReaderEnabled(s)
  {
    var d, r := s.dev, s.r;
    var b := At(d, r.buf);
    match r.pc
    case RAcqSelector =>
      s.(dev := d.(selLock := d.selLock.(held := true)), r := r.(pc := RReadSelector))
    case RReadSelector =>
      s.(r := r.(buf := d.selector, seen := |s.h.updates|, pc := RAcqBuffer))
    case RAcqBuffer =>
      s.(dev := Put(d, r.buf, b.(lock := b.lock.(held := true))), r := r.(pc := RRelSelector))
    case RRelSelector =>
      s.(dev := d.(selLock := Lock(ReaderLeaves(p), false)), r := r.(got := [], pc := RCopy))
    case RCopy =>
      if |r.got| < |b.data|
      then s.(r := r.(got := r.got + [b.data[|r.got|]]))
      else s.(r := r.(pc := RRelBuffer))
    case RRelBuffer =>
      s.(dev := Put(d, r.buf, b.(lock := Lock(ReaderLeaves(p), false))), r := r.(pc := RIdle),
         h := s.h.(returned := s.h.returned + [r.got], seen := s.h.seen + [r.seen]))
  }

  /** One step of the pair: a call starts, or one of the two threads moves. */
  ghost predicate Next(p: Port, s: State, t: State) {
    || (exists v: Value :: UpdateCalled(p, s, v, t))
    || ReadCalled(s, t)
    || (WriterEnabled(p, s) && t == WriterStep(p, s))
    || (ReaderEnabled(s) && t == ReaderStep(p, s))
  }

  /** A finite run: any interleaving of any number of calls. */
  ghost predicate IsRun(p: Port, run: seq<State>) {
    && |run| > 0
    && Initial(p, run[0])
    && forall i :: 0 <= i < |run| - 1 ==> Next(p, run[i], run[i + 1])
  }

  predicate WriterHoldsSelector(w: Writer) {
    w.pc.WReadSelector? || w.pc.WAcqBuffer? || WriterFilling(w) || w.pc.WRelSelector?
  }

  /** The writer owns its buffer and has not yet published it. */
  predicate WriterFilling(w: Writer) {
    w.pc.WCopy? || w.pc.WSetSelector?
  }

  predicate WriterHoldsBuffer(w: Writer, b: bool) {
    w.buf == b && (WriterFilling(w) || w.pc.WRelSelector? || w.pc.WRelBuffer?)
  }

  predicate ReaderHoldsSelector(r: Reader) {
    r.pc.RReadSelector? || r.pc.RAcqBuffer? || r.pc.RRelSelector?
  }

  predicate ReaderHoldsBuffer(r: Reader, b: bool) {
    r.buf == b && (r.pc.RRelSelector? || r.pc.RCopy? || r.pc.RRelBuffer?)
  }

  /** A lock is held exactly when one of the threads holds it, and never by both. */
  predicate LocksAgree(s: State) {
    && (s.dev.selLock.held <==> WriterHoldsSelector(s.w) || ReaderHoldsSelector(s.r))
    && !(WriterHoldsSelector(s.w) && ReaderHoldsSelector(s.r))
    && BufferLockAgrees(s, false)
    && BufferLockAgrees(s, true)
  }

  predicate BufferLockAgrees(s: State, b: bool) {
    && (At(s.dev, b).lock.held <==> WriterHoldsBuffer(s.w, b) || ReaderHoldsBuffer(s.r, b))
    && !(WriterHoldsBuffer(s.w, b) && ReaderHoldsBuffer(s.r, b))
  }

  /** The writer's half-finished block, and the sizes of everything. */
  predicate WriterConsistent(p: Port, s: State) {
    && |s.dev.ping.data| == |s.dev.pong.data| == p.numBytes
    && (!s.w.pc.WIdle? ==> |s.w.val| == p.numBytes)
    && (s.w.pc.WAcqBuffer? || WriterFilling(s.w) ==> s.w.buf == !s.dev.selector)
    && (s.w.pc.WRelSelector? ==> |s.h.updates| > 0 && s.w.buf == s.dev.selector)
    && (s.w.pc.WCopy? ==>
          s.w.done <= p.numBytes && At(s.dev, s.w.buf).data[..s.w.done] == s.w.val[..s.w.done])
    && (s.w.pc.WSetSelector? ==> At(s.dev, s.w.buf).data == s.w.val)
  }

  /** The published buffer holds the newest update, and the other one the update before it,
      unless the writer has taken that buffer for its next value. */
  predicate BuffersHoldUpdates(s: State) {
    var u := s.h.updates;
    && (|u| > 0 ==> At(s.dev, s.dev.selector).data == u[|u| - 1])
    && (|u| > 1 && !WriterFilling(s.w) ==> At(s.dev, !s.dev.selector).data == u[|u| - 2])
    && (s.dev.selLock.value == ACQ_READ ==> |u| > 0)
  }

  /** The update the current read is committed to once it has seen the selector. */
  predicate ReaderTracks(s: State) {
    var u, r := s.h.updates, s.r;
    && (r.pc.RReadSelector? ==> |u| > 0)
    && (r.pc.RAcqBuffer? || r.pc.RRelSelector? ==> r.seen == |u| > 0 && r.buf == s.dev.selector)
    && (r.pc.RCopy? || r.pc.RRelBuffer? ==>
          && 0 < r.seen <= |u| <= r.seen + 1
          && r.buf == (if r.seen == |u| then s.dev.selector else !s.dev.selector))
    && (r.pc.RCopy? ==> |r.got| <= |u[r.seen - 1]| && r.got == u[r.seen - 1][..|r.got|])
    && (r.pc.RRelBuffer? ==> r.got == u[r.seen - 1])
  }

  /** Completed reads returned whole updates, each one published by then. */
  predicate HistoryExplained(h: History) {
    && |h.returned| == |h.seen|
    && forall j :: 0 <= j < |h.seen| ==>
         0 < h.seen[j] <= |h.updates| && h.returned[j] == h.updates[h.seen[j] - 1]
  }

  predicate SafeState(p: Port, s: State) {
    && LocksAgree(s)
    && WriterConsistent(p, s)
    && BuffersHoldUpdates(s)
    && ReaderTracks(s)
    && HistoryExplained(s.h)
  }

  lemma InitialIsSafe(p: Port, s: State)
    requires Initial(p, s)
    ensures SafeState(p, s)
  {
  }

  lemma WriterKeepsLocks(p: Port, s: State)
    requires LocksAgree(s) && WriterEnabled(p, s)
    requires s.w.pc.WCopy? ==> |s.w.val| == |At(s.dev, s.w.buf).data|
    ensures LocksAgree(WriterStep(p, s))
  {
  }

  lemma WriterKeepsConsistent(p: Port, s: State)
    requires WriterConsistent(p, s) && WriterEnabled(p, s)
    ensures WriterConsistent(p, WriterStep(p, s))
  {
    if s.w.pc.WCopy? && s.w.done == |s.w.val| {
      assert At(s.dev, s.w.buf).data[..s.w.done] == At(s.dev, s.w.buf).data;
      assert s.w.val[..s.w.done] == s.w.val;
    }
  }

  lemma WriterKeepsBuffers(p: Port, s: State)
    requires LocksAgree(s) && WriterConsistent(p, s) && BuffersHoldUpdates(s) && WriterEnabled(p, s)
    ensures BuffersHoldUpdates(WriterStep(p, s))
  {
  }

  lemma WriterKeepsReader(p: Port, s: State)
    requires LocksAgree(s) && WriterConsistent(p, s) && ReaderTracks(s) && WriterEnabled(p, s)
    requires HistoryExplained(s.h)
    ensures ReaderTracks(WriterStep(p, s)) && HistoryExplained(WriterStep(p, s).h)
  {
  }

  lemma ReaderKeepsLocks(p: Port, s: State)
    requires LocksAgree(s) && ReaderEnabled(s)
    ensures LocksAgree(ReaderStep(p, s))
  {
  }

  lemma ReaderKeepsWriter(p: Port, s: State)
    requires WriterConsistent(p, s) && BuffersHoldUpdates(s) && ReaderTracks(s) && ReaderEnabled(s)
    ensures WriterConsistent(p, ReaderStep(p, s)) && BuffersHoldUpdates(ReaderStep(p, s))
  {
  }

  /** The buffer being copied out still holds the update the read committed to. */
  lemma ReaderBufferIntact(p: Port, s: State)
    requires SafeState(p, s) && (s.r.pc.RCopy? || s.r.pc.RRelBuffer?)
    ensures At(s.dev, s.r.buf).data == s.h.updates[s.r.seen - 1]
  {
    assert !WriterHoldsBuffer(s.w, s.r.buf);
  }

  lemma ReaderKeepsTracking(p: Port, s: State)
    requires SafeState(p, s) && ReaderEnabled(s)
    ensures ReaderTracks(ReaderStep(p, s)) && HistoryExplained(ReaderStep(p, s).h)
  {
    if s.r.pc.RCopy? {
      ReaderBufferIntact(p, s);
    }
  }

  lemma WriterKeepsSafe(p: Port, s: State)
    requires SafeState(p, s) && WriterEnabled(p, s)
    ensures SafeState(p, WriterStep(p, s))
  {
    WriterKeepsLocks(p, s);
    WriterKeepsConsistent(p, s);
    WriterKeepsBuffers(p, s);
    WriterKeepsReader(p, s);
  }

  lemma ReaderKeepsSafe(p: Port, s: State)
    requires SafeState(p, s) && ReaderEnabled(s)
    ensures SafeState(p, ReaderStep(p, s))
  {
    ReaderKeepsLocks(p, s);
    ReaderKeepsWriter(p, s);
    ReaderKeepsTracking(p, s);
  }

  /** Every step of every interleaving, in both modes, keeps the state safe. */
  lemma StepKeepsSafe(p: Port, s: State, t: State)
    requires SafeState(p, s) && Next(p, s, t)
    ensures SafeState(p, t)
  {
    if WriterEnabled(p, s) && t == WriterStep(p, s) {
      WriterKeepsSafe(p, s);
    } else if ReaderEnabled(s) && t == ReaderStep(p, s) {
      ReaderKeepsSafe(p, s);
    } else {
      CallKeepsSafe(p, s, t);
    }
  }

  lemma CallKeepsSafe(p: Port, s: State, t: State)
    requires SafeState(p, s)
    requires ReadCalled(s, t) || exists v: Value :: UpdateCalled(p, s, v, t)
    ensures SafeState(p, t)
  {
  }

  lemma {:induction false} RunIsSafe(p: Port, run: seq<State>, i: nat)
    requires IsRun(p, run) && i < |run|
    ensures SafeState(p, run[i])
  {
    if i == 0 {
      InitialIsSafe(p, run[0]);
    } else {
      RunIsSafe(p, run, i - 1);
      assert Next(p, run[i - 1], run[i - 1 + 1]);
      StepKeepsSafe(p, run[i - 1], run[i]);
    }
  }

  /** In every interleaving, in both modes, the two threads never own the same buffer, and
      whatever a completed read returned is one whole update that had been published. */
  lemma NoSharedBufferNoTornValue(p: Port, run: seq<State>, i: nat, b: bool, j: nat)
    requires IsRun(p, run) && i < |run|
    ensures !(WriterHoldsBuffer(run[i].w, b) && ReaderHoldsBuffer(run[i].r, b))
    ensures j < |run[i].h.returned| ==> run[i].h.returned[j] in run[i].h.updates
  {
    RunIsSafe(p, run, i);
    assert BufferLockAgrees(run[i], b);
  }

  /** Thread steps the operations in progress still need, for each thread. */
  function WriterWork(w: Writer): nat {
    match w.pc
    case WIdle => 0
    case WAcqSelector => 7 + |w.val|
    case WReadSelector => 6 + |w.val|
    case WAcqBuffer => 5 + |w.val|
    case WCopy => 4 + (if w.done <= |w.val| then |w.val| - w.done else 0)
    case WSetSelector => 3
    case WRelSelector => 2
    case WRelBuffer => 1
  }

  function ReaderWork(p: Port, r: Reader): nat {
    match r.pc
    case RIdle => 0
    case RAcqSelector => 6 + p.numBytes
    case RReadSelector => 5 + p.numBytes
    case RAcqBuffer => 4 + p.numBytes
    case RRelSelector => 3 + p.numBytes
    case RCopy => 2 + (if |r.got| <= p.numBytes then p.numBytes - |r.got| else 0)
    case RRelBuffer => 1
  }

  function Work(p: Port, s: State): nat {
    WriterWork(s.w) + ReaderWork(p, s.r)
  }

  lemma WriterWorks(p: Port, s: State)
    requires SafeState(p, s) && WriterEnabled(p, s)
    ensures Work(p, WriterStep(p, s)) == Work(p, s) - 1
  {
  }

  lemma ReaderWorks(p: Port, s: State)
    requires SafeState(p, s) && ReaderEnabled(s)
    ensures Work(p, ReaderStep(p, s)) == Work(p, s) - 1
  {
  }

  /** A thread moves: no new call is made. */
  predicate ThreadStep(p: Port, s: State, t: State) {
    || (WriterEnabled(p, s) && t == WriterStep(p, s))
    || (ReaderEnabled(s) && t == ReaderStep(p, s))
  }

  predicate ThreadRun(p: Port, run: seq<State>) {
    && |run| > 0
    && forall i :: 0 <= i < |run| - 1 ==> ThreadStep(p, run[i], run[i + 1])
  }

  /** Whatever the schedule, the calls in progress take an exact number of steps: they never
      spin, and once that much work is done both threads are idle. */
  lemma {:induction false} ThreadRunsAreFinite(p: Port, run: seq<State>)
    requires ThreadRun(p, run) && SafeState(p, run[0])
    ensures SafeState(p, run[|run| - 1])
    ensures |run| - 1 + Work(p, run[|run| - 1]) == Work(p, run[0])
    decreases |run|
  {
    if |run| > 1 {
      var n := |run| - 1;
      var s, t := run[n - 1], run[n];
      ThreadRunsAreFinite(p, run[..n]);
      assert ThreadStep(p, run[n - 1], run[n - 1 + 1]);
      if WriterEnabled(p, s) && t == WriterStep(p, s) {
        WriterWorks(p, s);
        WriterKeepsSafe(p, s);
      } else {
        ReaderWorks(p, s);
        ReaderKeepsSafe(p, s);
      }
    }
  }
}
