/**
 Synchronous RTP ports: the writer waits for the reader, so the stream of values read is
 the stream of values written.
 */
module RtpSync {
  import opened RtpProtocol

  /** Reads that have released the selector: the completed ones and one still copying. */
  function Consumed(s: State): nat {
    |s.h.returned| + if s.r.pc.RCopy? || s.r.pc.RRelBuffer? then 1 else 0
  }

  /** The selector lock's value says whether the newest update is still unread. */
  predicate SelectorCounts(s: State) {
    var u, c := |s.h.updates|, Consumed(s);
    && c <= u <= c + 1
    && (s.w.pc.WRelSelector? || ReaderHoldsSelector(s.r) ==> u == c + 1)
    && (WriterHoldsSelector(s.w) && !s.w.pc.WRelSelector? ==> u == c)
    && (!s.dev.selLock.held ==> s.dev.selLock.value == if u > c then ACQ_READ else ACQ_WRITE)
  }

  /** The n-th read is committed to the n-th update. */
  predicate ReadsCount(s: State) {
    && (s.r.pc.RAcqBuffer? || s.r.pc.RRelSelector? || s.r.pc.RCopy? || s.r.pc.RRelBuffer? ==>
          s.r.seen == |s.h.returned| + 1)
    && |s.h.seen| == |s.h.returned|
    && forall j :: 0 <= j < |s.h.seen| ==> s.h.seen[j] == j + 1
  }

  /** A buffer lock's value is that of a buffer waiting to be read, or to be written. */
  predicate BufferCounts(s: State) {
    var sel := s.dev.selector;
    && (s.w.pc.WRelBuffer? ==> s.w.buf == sel && |s.h.updates| > |s.h.returned|)
    && At(s.dev, sel).lock.value
       == (if |s.h.updates| > |s.h.returned| && !s.w.pc.WRelSelector? && !s.w.pc.WRelBuffer?
           then ACQ_READ else ACQ_WRITE)
    && (At(s.dev, !sel).lock.value == ACQ_WRITE || ReaderHoldsBuffer(s.r, !sel))
  }

  predicate SyncState(s: State) {
    SelectorCounts(s) && ReadsCount(s) && BufferCounts(s)
  }

  lemma WriterKeepsSync(p: Port, s: State)
    requires !p.isAsync && SafeState(p, s) && SyncState(s) && WriterEnabled(p, s)
    ensures SyncState(WriterStep(p, s))
  {
  }

  lemma ReaderKeepsSync(p: Port, s: State)
    requires !p.isAsync && SafeState(p, s) && SyncState(s) && ReaderEnabled(s)
    ensures SyncState(ReaderStep(p, s))
  {
  }

  lemma StepKeepsSync(p: Port, s: State, t: State)
    requires !p.isAsync && SafeState(p, s) && SyncState(s) && Next(p, s, t)
    ensures SyncState(t)
  {
    if WriterEnabled(p, s) && t == WriterStep(p, s) {
      WriterKeepsSync(p, s);
    } else if ReaderEnabled(s) && t == ReaderStep(p, s) {
      ReaderKeepsSync(p, s);
    }
  }

  lemma {:induction false} RunIsSync(p: Port, run: seq<State>, i: nat)
    requires !p.isAsync && IsRun(p, run) && i < |run|
    ensures SafeState(p, run[i]) && SyncState(run[i])
  {
    RunIsSafe(p, run, i);
    if i > 0 {
      RunIsSync(p, run, i - 1);
      assert Next(p, run[i - 1], run[i - 1 + 1]);
      StepKeepsSync(p, run[i - 1], run[i]);
    }
  }

  /** In every interleaving the k-th read returns exactly the k-th update: nothing is lost,
      repeated, reordered or torn, and the writer is never more than two values ahead. */
  lemma KthReadReturnsKthUpdate(p: Port, run: seq<State>, i: nat)
    requires !p.isAsync && IsRun(p, run) && i < |run|
    ensures run[i].h.returned <= run[i].h.updates
    ensures |run[i].h.updates| <= |run[i].h.returned| + 2
  {
    RunIsSync(p, run, i);
  }

  /** When neither thread can move, either nothing is in progress, or a read waits for a
      value that was never sent, or an update waits for the one unread value to be read. */
  lemma OnlyWaitsForThePeer(p: Port, s: State)
    requires !p.isAsync && SafeState(p, s) && SyncState(s)
    requires !WriterEnabled(p, s) && !ReaderEnabled(s)
    ensures s.w.pc.WIdle? || (s.w.pc.WAcqSelector? && s.r.pc.RIdle?
                              && |s.h.updates| == |s.h.returned| + 1)
    ensures s.r.pc.RIdle? || (s.r.pc.RAcqSelector? && s.w.pc.WIdle? && s.h.updates == s.h.returned)
  {
    if !s.r.pc.RIdle? && s.r.pc.RAcqSelector? {
      assert forall j :: 0 <= j < |s.h.returned| ==> s.h.returned[j] == s.h.updates[j];
    }
  }

  /** A run that ends with both threads stopped has delivered every update, except that an
      update may be waiting on a single value nobody has asked for. */
  lemma StoppedRunDelivered(p: Port, run: seq<State>)
    requires !p.isAsync && IsRun(p, run)
    requires !WriterEnabled(p, run[|run| - 1]) && !ReaderEnabled(run[|run| - 1])
    ensures var s := run[|run| - 1];
            && s.h.returned <= s.h.updates
            && |s.h.updates| - |s.h.returned| <= 1
            && (!s.r.pc.RIdle? ==> s.h.returned == s.h.updates && s.w.pc.WIdle?)
  {
    RunIsSync(p, run, |run| - 1);
    KthReadReturnsKthUpdate(p, run, |run| - 1);
    OnlyWaitsForThePeer(p, run[|run| - 1]);
  }
}
