/**
 Synchronous RTP ports when an acquire times out. `update` does not stop then: it notes the
 status, goes on without the lock, publishes its value and releases the locks all the same.

 Here one update times out at the selector lock, at any moment of any run. Up to its publishing
 nothing is lost; whether the hand-off survives is decided by how far the reader is when the
 update gives the selector back.
 */
module RtpTimeout {
  import opened RtpProtocol
  import opened RtpSync

  /** The acquire of the selector lock gives up: the lock could not be had. */
  predicate CanTimeOut(p: Port, s: State) {
    s.w.pc.WAcqSelector? && !CanAcquire(s.dev.selLock, WriterWants(p))
  }

  function TimedOut(s: State): State {
    s.(w := s.w.(pc := WReadSelector))
  }

  // ----- Until the update is published ------------------------------------------------

  /** Locks agree with the threads, of which the writer does not have the selector. */
  predicate LooseLocks(s: State) {
    && (s.dev.selLock.held <==> ReaderHoldsSelector(s.r))
    && BufferLockAgrees(s, false) && BufferLockAgrees(s, true)
  }

  predicate LooseCounts(s: State) {
    var u, c := |s.h.updates|, Consumed(s);
    && c <= u <= c + 1
    && (ReaderHoldsSelector(s.r) ==> u == c + 1)
    && (!s.dev.selLock.held ==> s.dev.selLock.value == if u > c then ACQ_READ else ACQ_WRITE)
  }

  predicate Publishing(w: Writer) {
    w.pc.WReadSelector? || w.pc.WAcqBuffer? || WriterFilling(w)
  }

  /** An update that goes on without the selector has disturbed nothing yet. */
  predicate Before(p: Port, s: State) {
    && Publishing(s.w) && LooseLocks(s) && LooseCounts(s)
    && WriterConsistent(p, s) && BuffersHoldUpdates(s) && ReaderTracks(s) && HistoryExplained(s.h)
    && ReadsCount(s) && BufferCounts(s) && |s.h.updates| > 0
  }

  lemma TimeOutStarts(p: Port, s: State)
    requires !p.isAsync && SafeState(p, s) && SyncState(s) && CanTimeOut(p, s)
    ensures Before(p, TimedOut(s))
    ensures |s.h.updates| == Consumed(s) + 1
  {
  }

  // ----- When it is -------------------------------------------------------------------

  /** What holds of the device and the writer once the update is published. */
  predicate Published(p: Port, s: State) {
    && s.w.pc.WRelSelector? && LooseLocks(s) && WriterConsistent(p, s) && BuffersHoldUpdates(s)
    && HistoryExplained(s.h) && ReadsCount(s)
    && |s.h.updates| > 1 && At(s.dev, s.w.buf).lock.value == ACQ_WRITE
  }

  /** The read of the value before has given the selector back. */
  predicate InTime(p: Port, s: State) {
    && Published(p, s) && ReaderTracks(s)
    && Consumed(s) + 1 == |s.h.updates|
    && !ReaderHoldsSelector(s.r) && s.dev.selLock == Lock(ACQ_WRITE, false)
    && (At(s.dev, !s.w.buf).lock.value == ACQ_WRITE || ReaderHoldsBuffer(s.r, !s.w.buf))
  }

  /** It has read the selector word, but still has the selector. */
  predicate Committed(p: Port, s: State) {
    && Published(p, s) && (s.r.pc.RAcqBuffer? || s.r.pc.RRelSelector?)
    && s.r.seen == |s.h.updates| - 1 == |s.h.returned| + 1
    && s.r.buf == !s.w.buf && At(s.dev, !s.w.buf).lock.value == ACQ_READ
  }

  /** It has not read the selector word. */
  predicate TooLate(p: Port, s: State) {
    && Published(p, s) && (s.r.pc.RIdle? || s.r.pc.RAcqSelector? || s.r.pc.RReadSelector?)
    && |s.h.updates| == |s.h.returned| + 2
    && (!s.dev.selLock.held ==> s.dev.selLock.value == ACQ_READ)
  }

  predicate Outcome(p: Port, s: State) {
    InTime(p, s) || Committed(p, s) || TooLate(p, s) || (!ReadsCount(s) && s.w.pc.WRelSelector?)
  }

  lemma WriterKeepsBefore(p: Port, s: State)
    requires !p.isAsync && Before(p, s) && WriterEnabled(p, s) && !s.w.pc.WSetSelector?
    ensures Before(p, WriterStep(p, s))
  {
    if s.w.pc.WCopy? && s.w.done == |s.w.val| {
      assert At(s.dev, s.w.buf).data[..s.w.done] == At(s.dev, s.w.buf).data;
      assert s.w.val[..s.w.done] == s.w.val;
    }
  }

  lemma PublishGivesOutcome(p: Port, s: State)
    requires !p.isAsync && Before(p, s) && s.w.pc.WSetSelector?
    ensures Outcome(p, WriterStep(p, s))
  {
    var t := WriterStep(p, s);
    assert Published(p, t) by {
      assert t.h.updates[|t.h.updates| - 1] == s.w.val;
    }
  }

  lemma ReaderKeepsLooseLocks(p: Port, s: State)
    requires LooseLocks(s) && ReaderEnabled(s)
    ensures LooseLocks(ReaderStep(p, s))
  {
  }

  lemma ReaderKeepsLooseCounts(p: Port, s: State)
    requires !p.isAsync && LooseLocks(s) && LooseCounts(s) && ReaderEnabled(s)
    ensures LooseCounts(ReaderStep(p, s))
  {
  }

  lemma LooseBufferIntact(p: Port, s: State)
    requires LooseLocks(s) && WriterConsistent(p, s) && BuffersHoldUpdates(s) && ReaderTracks(s)
    requires s.r.pc.RCopy?
    ensures At(s.dev, s.r.buf).data == s.h.updates[s.r.seen - 1]
  {
    assert BufferLockAgrees(s, s.r.buf);
  }

  lemma ReaderKeepsLooseTracks(p: Port, s: State)
    requires LooseLocks(s) && WriterConsistent(p, s) && BuffersHoldUpdates(s) && ReaderTracks(s)
    requires HistoryExplained(s.h) && ReaderEnabled(s) && |s.h.updates| > 0
    ensures ReaderTracks(ReaderStep(p, s)) && HistoryExplained(ReaderStep(p, s).h)
  {
    if s.r.pc.RCopy? {
      LooseBufferIntact(p, s);
    }
  }

  lemma ReaderKeepsReads(p: Port, s: State)
    requires LooseCounts(s) && ReadsCount(s) && ReaderTracks(s) && ReaderEnabled(s) && !p.isAsync
    ensures ReadsCount(ReaderStep(p, s))
  {
  }

  lemma ReaderKeepsBufferCounts(p: Port, s: State)
    requires !p.isAsync && LooseLocks(s) && LooseCounts(s) && ReaderTracks(s) && ReadsCount(s) && BufferCounts(s)
    requires Publishing(s.w) && ReaderEnabled(s)
    ensures BufferCounts(ReaderStep(p, s))
  {
  }

  lemma ReaderKeepsBefore(p: Port, s: State)
    requires !p.isAsync && Before(p, s) && ReaderEnabled(s)
    ensures Before(p, ReaderStep(p, s))
  {
    hide LooseLocks, LooseCounts, ReaderTracks, HistoryExplained, ReadsCount, BufferCounts, WriterConsistent, BuffersHoldUpdates;
    ReaderKeepsLooseLocks(p, s);
    ReaderKeepsLooseCounts(p, s);
    ReaderKeepsWriter(p, s);
    ReaderKeepsLooseTracks(p, s);
    ReaderKeepsReads(p, s);
    ReaderKeepsBufferCounts(p, s);
  }

  // ----- Between publishing and releasing ---------------------------------------------

  /** A read that was given the wrong update stays on record. */
  lemma MismatchLasts(p: Port, s: State, t: State)
    requires !ReadsCount(s) && Next(p, s, t)
    ensures !ReadsCount(t)
  {
    if ReaderEnabled(s) && t == ReaderStep(p, s) {
      if |s.h.seen| == |s.h.returned| && forall j :: 0 <= j < |s.h.seen| ==> s.h.seen[j] == j + 1 {
        if s.r.pc.RRelBuffer? {
          assert t.h.seen[|s.h.seen|] == s.r.seen;
        }
      } else if |s.h.seen| == |s.h.returned| {
        var j :| 0 <= j < |s.h.seen| && s.h.seen[j] != j + 1;
        assert t.h.seen[j] == s.h.seen[j];
      }
    }
  }

  lemma ReaderFromInTime(p: Port, s: State)
    requires !p.isAsync && InTime(p, s) && ReaderEnabled(s)
    ensures InTime(p, ReaderStep(p, s))
  {
    ReaderKeepsLooseLocks(p, s);
    ReaderKeepsWriter(p, s);
    ReaderKeepsLooseTracks(p, s);
  }

  lemma ReaderFromCommitted(p: Port, s: State)
    requires !p.isAsync && Committed(p, s) && ReaderEnabled(s)
    ensures Committed(p, ReaderStep(p, s)) || InTime(p, ReaderStep(p, s))
  {
    ReaderKeepsLooseLocks(p, s);
  }

  lemma ReaderFromTooLate(p: Port, s: State)
    requires !p.isAsync && TooLate(p, s) && ReaderEnabled(s)
    ensures var t := ReaderStep(p, s);
            TooLate(p, t) || (!ReadsCount(t) && t.w.pc.WRelSelector?)
  {
    ReaderKeepsLooseLocks(p, s);
  }

  lemma CallKeepsOutcome(p: Port, s: State, t: State)
    requires ReadCalled(s, t) && (Before(p, s) || Outcome(p, s))
    ensures Before(p, s) ==> Before(p, t)
    ensures Outcome(p, s) ==> Outcome(p, t)
    ensures InTime(p, s) ==> InTime(p, t)
  {
  }

  /** Until the update that timed out gives the selector back, every step of every interleaving
      keeps it in one of these cases. */
  lemma StepKeepsOutcome(p: Port, s: State, t: State)
    requires !p.isAsync && (Before(p, s) || Outcome(p, s)) && Next(p, s, t)
    requires s.w.pc.WRelSelector? ==> t.w.pc.WRelSelector?
    ensures Before(p, t) || Outcome(p, t)
  {
    if ReadCalled(s, t) {
      CallKeepsOutcome(p, s, t);
    } else if ReaderEnabled(s) && t == ReaderStep(p, s) {
      if Before(p, s) {
        ReaderKeepsBefore(p, s);
      } else if !ReadsCount(s) {
        MismatchLasts(p, s, t);
      } else if InTime(p, s) {
        ReaderFromInTime(p, s);
      } else if Committed(p, s) {
        ReaderFromCommitted(p, s);
      } else {
        ReaderFromTooLate(p, s);
      }
    } else if s.w.pc.WSetSelector? {
      PublishGivesOutcome(p, s);
    } else {
      WriterKeepsBefore(p, s);
    }
  }

  /** Given back in time, the selector is as if the update had had it all along. */
  lemma ReleaseInTime(p: Port, s: State)
    requires !p.isAsync && InTime(p, s)
    ensures SafeState(p, WriterStep(p, s)) && SyncState(WriterStep(p, s))
  {
  }

  // ----- What can follow --------------------------------------------------------------

  /** A run from anywhere, in which nothing times out. */
  ghost predicate Continues(p: Port, run: seq<State>) {
    |run| > 0 && forall i :: 0 <= i < |run| - 1 ==> Next(p, run[i], run[i + 1])
  }

  ghost predicate Reaches(p: Port, s: State, t: State) {
    exists run :: Continues(p, run) && run[0] == s && run[|run| - 1] == t
  }

  lemma Stay(p: Port, s: State)
    ensures Reaches(p, s, s)
  {
    assert Continues(p, [s]);
  }

  lemma Then(p: Port, s: State, t: State, u: State)
    requires Reaches(p, s, t) && Next(p, t, u)
    ensures Reaches(p, s, u)
  {
    hide Next;
    var run :| Continues(p, run) && run[0] == s && run[|run| - 1] == t;
    var more := run + [u];
    forall i | 0 <= i < |more| - 1
      ensures Next(p, more[i], more[i + 1])
    {
      if i < |run| - 1 {
        assert Next(p, run[i], run[i + 1]);
      }
    }
    assert Continues(p, more);
  }

  lemma Write(p: Port, s: State, t: State)
    requires Reaches(p, s, t) && WriterEnabled(p, t)
    ensures Reaches(p, s, WriterStep(p, t))
  {
    Then(p, s, t, WriterStep(p, t));
  }

  lemma Read(p: Port, s: State, t: State)
    requires Reaches(p, s, t) && ReaderEnabled(t)
    ensures Reaches(p, s, ReaderStep(p, t))
  {
    Then(p, s, t, ReaderStep(p, t));
  }

  /** A read that copies comes to its end. */
  lemma {:induction false} ReadEnds(p: Port, s: State, t: State) returns (u: State)
    requires Reaches(p, s, t) && t.r.pc.RCopy? && |t.r.got| <= |At(t.dev, t.r.buf).data|
    ensures Reaches(p, s, u) && u.w == t.w && u.h.updates == t.h.updates
    ensures u.h.returned == t.h.returned + [t.r.got + At(t.dev, t.r.buf).data[|t.r.got|..]] && u.r.pc.RIdle?
    ensures u.dev == Put(t.dev, t.r.buf, At(t.dev, t.r.buf).(lock := Lock(ReaderLeaves(p), false)))
    decreases |At(t.dev, t.r.buf).data| - |t.r.got|
  {
    Read(p, s, t);
    var t1, data := ReaderStep(p, t), At(t.dev, t.r.buf).data;
    if |t.r.got| < |data| {
      u := ReadEnds(p, s, t1);
      assert t.r.got + data[|t.r.got|..] == t1.r.got + data[|t1.r.got|..];
    } else {
      assert t.r.got + data[|t.r.got|..] == t.r.got;
      Read(p, s, t1);
      u := ReaderStep(p, t1);
    }
  }

  /** An update that copies comes to be published. */
  lemma {:induction false} CopyEnds(p: Port, s: State, t: State) returns (u: State)
    requires Reaches(p, s, t) && t.w.pc.WCopy? && t.w.done <= |t.w.val| == |At(t.dev, t.w.buf).data|
    requires At(t.dev, t.w.buf).data[..t.w.done] == t.w.val[..t.w.done]
    ensures At(u.dev, u.w.buf).data == t.w.val
    ensures Reaches(p, s, u) && u.r == t.r && u.w.pc.WRelSelector? && u.w.buf == t.w.buf
    ensures u.h == t.h.(updates := t.h.updates + [t.w.val])
    ensures u.dev.selLock == t.dev.selLock && u.dev.selector == t.w.buf
    ensures u.dev.ping.lock == t.dev.ping.lock && u.dev.pong.lock == t.dev.pong.lock
    ensures |u.dev.ping.data| == |t.dev.ping.data| && |u.dev.pong.data| == |t.dev.pong.data|
    decreases |t.w.val| - t.w.done
  {
    Write(p, s, t);
    var t1 := WriterStep(p, t);
    if t.w.done < |t.w.val| {
      u := CopyEnds(p, s, t1);
    } else {
      assert t.w.val[..t.w.done] == t.w.val && At(t.dev, t.w.buf).data[..t.w.done] == At(t.dev, t.w.buf).data;
      Write(p, s, t1);
      u := WriterStep(p, t1);
    }
  }

  /** So does one that has, or has given up, the selector and finds its buffer free. */
  lemma Publishes(p: Port, s: State, t: State) returns (u: State)
    requires Reaches(p, s, t) && t.w.pc.WReadSelector? && CanAcquire(At(t.dev, !t.dev.selector).lock, WriterWants(p))
    requires |t.w.val| == |t.dev.ping.data| == |t.dev.pong.data|
    ensures Reaches(p, s, u) && u.r == t.r && u.w.pc.WRelSelector? && u.w.buf == !t.dev.selector
    ensures u.h == t.h.(updates := t.h.updates + [t.w.val])
    ensures u.dev.selLock == t.dev.selLock && u.dev.selector == u.w.buf
    ensures At(u.dev, !u.w.buf).lock == At(t.dev, t.dev.selector).lock
    ensures At(u.dev, u.w.buf).data == t.w.val
    ensures |u.dev.ping.data| == |t.dev.ping.data| && |u.dev.pong.data| == |t.dev.pong.data|
  {
    Write(p, s, t);
    var t1 := WriterStep(p, t);
    Write(p, s, t1);
    var t2 := WriterStep(p, t1);
    u := CopyEnds(p, s, t2);
  }

  /** Both locks are given back. */
  lemma Releases(p: Port, s: State, t: State) returns (u: State)
    requires Reaches(p, s, t) && t.w.pc.WRelSelector?
    ensures Reaches(p, s, u) && u.w.pc.WIdle? && u.r == t.r && u.h == t.h
    ensures u.dev == Put(t.dev, t.w.buf, At(t.dev, t.w.buf).(lock := Lock(REL_READ, false))).(selLock := Lock(REL_READ, false))
  {
    Write(p, s, t);
    var t1 := WriterStep(p, t);
    Write(p, s, t1);
    u := WriterStep(p, t1);
  }

  /** A whole update. */
  lemma UpdateRuns(p: Port, s: State, t: State, v: Value) returns (u: State)
    requires Reaches(p, s, t) && t.w.pc.WIdle? && |v| == p.numBytes
    requires CanAcquire(t.dev.selLock, WriterWants(p)) && CanAcquire(At(t.dev, !t.dev.selector).lock, WriterWants(p))
    requires |t.dev.ping.data| == |t.dev.pong.data| == p.numBytes
    ensures Reaches(p, s, u) && u.w.pc.WIdle? && u.r == t.r && u.h == t.h.(updates := t.h.updates + [v])
    ensures u.dev.selLock == At(u.dev, u.dev.selector).lock == Lock(ACQ_READ, false) && u.dev.selector == !t.dev.selector
    ensures At(u.dev, !u.dev.selector).lock == At(t.dev, t.dev.selector).lock
    ensures |u.dev.ping.data| == |u.dev.pong.data| == p.numBytes
  {
    var t0 := t.(w := t.w.(pc := WAcqSelector, val := v));
    assert UpdateCalled(p, t, v, t0);
    Then(p, s, t, t0);
    Write(p, s, t0);
    var t1 := Publishes(p, s, WriterStep(p, t0));
    u := Releases(p, s, t1);
  }

  /** A read that begins when the selector is there for it takes the newest update. */
  lemma ReadTakesNewest(p: Port, s: State, t: State) returns (u: State)
    requires Reaches(p, s, t) && (t.r.pc.RIdle? || t.r.pc.RAcqSelector?) && t.dev.selLock == Lock(ACQ_READ, false)
    ensures Reaches(p, s, u) && u.r.pc.RAcqBuffer? && u.r.seen == |t.h.updates| && u.h == t.h
    ensures u.r.buf == t.dev.selector && u.w == t.w && u.dev == t.dev.(selLock := t.dev.selLock.(held := true))
  {
    var t0 := t;
    if t.r.pc.RIdle? {
      t0 := t.(r := t.r.(pc := RAcqSelector));
      Then(p, s, t, t0);
    }
    Read(p, s, t0);
    var t1 := ReaderStep(p, t0);
    Read(p, s, t1);
    u := ReaderStep(p, t1);
  }

  // ----- Exactly when the hand-off survives -------------------------------------------

  /** Whatever happens next without another time-out, the k-th read takes the k-th update. */
  ghost predicate HandOffKept(p: Port, s: State) {
    forall t :: Reaches(p, s, t) ==> ReadsCount(t)
  }

  ghost predicate Fine(p: Port, s: State) {
    InTime(p, s) || (SafeState(p, s) && SyncState(s))
  }

  lemma StepKeepsFine(p: Port, s: State, t: State)
    requires !p.isAsync && Fine(p, s) && Next(p, s, t)
    ensures Fine(p, t)
  {
    if !InTime(p, s) {
      StepKeepsSafe(p, s, t);
      StepKeepsSync(p, s, t);
    } else if ReadCalled(s, t) {
      CallKeepsOutcome(p, s, t);
    } else if ReaderEnabled(s) && t == ReaderStep(p, s) {
      ReaderFromInTime(p, s);
    } else {
      ReleaseInTime(p, s);
    }
  }

  lemma {:induction false} RunKeepsFine(p: Port, run: seq<State>, i: nat)
    requires !p.isAsync && Continues(p, run) && Fine(p, run[0]) && i < |run|
    ensures Fine(p, run[i])
  {
    hide Fine, Next;
    if i > 0 {
      RunKeepsFine(p, run, i - 1);
      assert Next(p, run[i - 1], run[i - 1 + 1]);
      StepKeepsFine(p, run[i - 1], run[i]);
    }
  }

  lemma InTimeKeeps(p: Port, s: State)
    requires !p.isAsync && InTime(p, s)
    ensures HandOffKept(p, s)
  {
    forall t | Reaches(p, s, t)
      ensures ReadsCount(t)
    {
      var run :| Continues(p, run) && run[0] == s && run[|run| - 1] == t;
      RunKeepsFine(p, run, |run| - 1);
    }
  }

  /** A reader that has not read the selector word will take the new update for the one before. */
  lemma TooLateBreaks(p: Port, s: State)
    requires !p.isAsync && TooLate(p, s)
    ensures !HandOffKept(p, s)
  {
    Stay(p, s);
    var t: State;
    if s.r.pc.RReadSelector? {
      Read(p, s, s);
      t := ReaderStep(p, s);
    } else {
      t := ReadTakesNewest(p, s, s);
    }
    assert Reaches(p, s, t) && !ReadsCount(t);
  }

  /** A reader that has, and gives the selector back after the update did, hides the new update
      until the next one takes its place. */
  lemma CommittedBreaks(p: Port, s: State)
    requires !p.isAsync && Committed(p, s)
    ensures !HandOffKept(p, s)
  {
    Stay(p, s);
    var t := Releases(p, s, s);
    var n := |s.h.updates|;
    if t.r.pc.RAcqBuffer? {
      Read(p, s, t);
      t := ReaderStep(p, t);
    }
    Read(p, s, t);
    t := ReaderStep(p, t);
    t := ReadEnds(p, s, t);
    t := UpdateRuns(p, s, t, seq(p.numBytes, _ => 0));
    t := ReadTakesNewest(p, s, t);
    assert t.r.seen == n + 1 && |t.h.returned| == n - 1;
    assert Reaches(p, s, t) && !ReadsCount(t);
  }

  /** When the update that timed out is about to give the selector back, the hand-off is kept,
      whatever happens next, if and only if every read so far took its own update and the value
      before has been taken. */
  lemma KeptIff(p: Port, s: State)
    requires !p.isAsync && Outcome(p, s)
    ensures HandOffKept(p, s) <==> ReadsCount(s) && Consumed(s) + 1 == |s.h.updates|
  {
    Stay(p, s);
    if InTime(p, s) {
      InTimeKeeps(p, s);
    } else if Committed(p, s) {
      CommittedBreaks(p, s);
    } else if TooLate(p, s) {
      TooLateBreaks(p, s);
    }
  }

  /** The states of an update between its time-out, at `run[k]`, and its release. */
  ghost predicate TimedRun(p: Port, run: seq<State>, k: nat) {
    && k + 1 < |run| && Initial(p, run[0])
    && (forall i :: 0 <= i < |run| - 1 && i != k ==> Next(p, run[i], run[i + 1]))
    && CanTimeOut(p, run[k]) && run[k + 1] == TimedOut(run[k])
    && (forall i :: k < i < |run| ==> Publishing(run[i].w) || run[i].w.pc.WRelSelector?)
  }

  lemma {:induction false} TimedRunOutcome(p: Port, run: seq<State>, k: nat, i: nat)
    requires !p.isAsync && TimedRun(p, run, k) && k < i < |run|
    ensures Before(p, run[i]) || Outcome(p, run[i])
  {
    hide Before, Outcome, Next, SafeState, SyncState, CanTimeOut;
    if i == k + 1 {
      var upTo := run[..k + 1];
      forall j | 0 <= j < |upTo| - 1
        ensures Next(p, upTo[j], upTo[j + 1])
      {
        assert Next(p, run[j], run[j + 1]);
      }
      RunIsSync(p, upTo, k);
      TimeOutStarts(p, run[k]);
    } else {
      TimedRunOutcome(p, run, k, i - 1);
      assert Next(p, run[i - 1], run[i - 1 + 1]);
      if run[i - 1].w.pc.WRelSelector? {
        StaysUntilRelease(p, run[i - 1], run[i]);
      }
      StepKeepsOutcome(p, run[i - 1], run[i]);
    }
  }

  lemma StaysUntilRelease(p: Port, s: State, t: State)
    requires s.w.pc.WRelSelector? && Next(p, s, t) && (Publishing(t.w) || t.w.pc.WRelSelector?)
    ensures t.w.pc.WRelSelector?
  {
  }

  /** No published value waits for a reader that has yet to read the selector word. */
  predicate Caught(s: State) {
    Consumed(s) == |s.h.updates| || s.r.pc.RAcqBuffer? || s.r.pc.RRelSelector?
  }

  /** What is decided when the update is published. */
  predicate Decided(p: Port, caught: bool, s: State) {
    if caught then InTime(p, s) || Committed(p, s)
    else TooLate(p, s) || (!ReadsCount(s) && s.w.pc.WRelSelector?)
  }

  lemma PublishDecides(p: Port, s: State)
    requires !p.isAsync && Before(p, s) && s.w.pc.WSetSelector?
    ensures Decided(p, Caught(s), WriterStep(p, s))
  {
    PublishGivesOutcome(p, s);
    var t := WriterStep(p, s);
    assert InTime(p, t) <==> Consumed(s) == |s.h.updates|;
  }

  lemma StepKeepsDecided(p: Port, caught: bool, s: State, t: State)
    requires !p.isAsync && Decided(p, caught, s) && Next(p, s, t) && t.w.pc.WRelSelector?
    ensures Decided(p, caught, t)
  {
    if !ReadsCount(s) {
      MismatchLasts(p, s, t);
    } else if ReadCalled(s, t) {
      CallKeepsOutcome(p, s, t);
    } else if InTime(p, s) {
      ReaderFromInTime(p, s);
    } else if Committed(p, s) {
      ReaderFromCommitted(p, s);
    } else {
      ReaderFromTooLate(p, s);
    }
  }

  /** The step at which the update is published, and what it decides. */
  lemma {:induction false} Publication(p: Port, run: seq<State>, k: nat, i: nat) returns (m: nat)
    requires !p.isAsync && TimedRun(p, run, k) && k < i < |run| && run[i].w.pc.WRelSelector?
    ensures k < m < i && run[m].w.pc.WSetSelector? && run[m + 1].w.pc.WRelSelector?
    ensures Decided(p, Caught(run[m]), run[i])
  {
    hide Decided, Caught, Before, Outcome, Next, CanTimeOut;
    assert i > k + 1;
    assert Next(p, run[i - 1], run[i - 1 + 1]);
    if run[i - 1].w.pc.WRelSelector? {
      m := Publication(p, run, k, i - 1);
      StepKeepsDecided(p, Caught(run[m]), run[i - 1], run[i]);
    } else {
      m := i - 1;
      TimedRunOutcome(p, run, k, m);
      PublishStep(p, run[m], run[i]);
    }
  }

  lemma PublishStep(p: Port, s: State, t: State)
    requires !p.isAsync && (Before(p, s) || Outcome(p, s)) && Next(p, s, t)
    requires !s.w.pc.WRelSelector? && t.w.pc.WRelSelector?
    ensures s.w.pc.WSetSelector? && Decided(p, Caught(s), t)
  {
    PublishDecides(p, s);
  }

  /** For every run in which one update times out at the selector, and every state in which it is
      about to give the selector back: the hand-off is kept if and only if, when the update was
      published, no value was waiting for a reader still to read the selector word, and the reader
      does not hold the selector now. */
  lemma TimedOutUpdateKeptIff(p: Port, run: seq<State>, k: nat) returns (m: nat)
    requires !p.isAsync && TimedRun(p, run, k) && run[|run| - 1].w.pc.WRelSelector?
    ensures k < m < |run| - 1 && run[m].w.pc.WSetSelector? && run[m + 1].w.pc.WRelSelector?
    ensures var s := run[|run| - 1];
            HandOffKept(p, s) <==> Caught(run[m]) && !ReaderHoldsSelector(s.r)
  {
    m := Publication(p, run, k, |run| - 1);
    KeptIff(p, run[|run| - 1]);
  }

  /** Two updates and no read, on every port and with every two values: the second times out,
      is published all the same, and is what the first read returns. The first value is lost. */
  lemma FirstOfTwoIsLost(p: Port, s: State, v: Value, w: Value) returns (before: State, after: State, end: State)
    requires !p.isAsync && Initial(p, s) && |v| == |w| == p.numBytes
    ensures Reaches(p, s, before) && CanTimeOut(p, before) && before.h.updates == [v]
    ensures Reaches(p, TimedOut(before), after) && after.h.updates == [v, w] && after.h.returned == []
    ensures Reaches(p, after, end) && end.h.updates == [v, w] && end.h.returned == [w]
  {
    Stay(p, s);
    var t := UpdateRuns(p, s, s, v);
    before := t.(w := t.w.(pc := WAcqSelector, val := w));
    assert UpdateCalled(p, t, w, before);
    Then(p, s, t, before);
    var out := TimedOut(before);
    Stay(p, out);
    after := Publishes(p, out, out);
    assert [v] + [w] == [v, w];
    Stay(p, after);
    end := Releases(p, after, after);
    end := ReadTakesNewest(p, after, end);
    Read(p, after, end);
    end := ReaderStep(p, end);
    Read(p, after, end);
    end := ReaderStep(p, end);
    assert end.r.got == [] && At(end.dev, end.r.buf).data == w;
    assert [] + w[0..] == w;
    end := ReadEnds(p, after, end);
  }

  // ----- A read at the selector -------------------------------------------------------

  /** A read that times out at the selector, and reads the selector word, takes the update that
      is its own if and only if one is published that no read has taken. */
  lemma ReadTimeOutIff(p: Port, s: State)
    requires !p.isAsync && SafeState(p, s) && SyncState(s) && s.r.pc.RAcqSelector? && !ReaderEnabled(s)
    ensures var t := s.(r := s.r.(pc := RReadSelector));
            ReadsCount(ReaderStep(p, t)) <==> |s.h.updates| == Consumed(s) + 1
  {
  }
}
