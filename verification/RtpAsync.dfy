/**
 Asynchronous RTP ports on first-generation locks while the graph runs: the writer never
 waits for a reader, and a reader takes the newest value that is published.
 */
module RtpAsync {
  import opened RtpProtocol

  predicate Sorted(xs: seq<nat>) {
    forall i, j :: 0 <= i < j < |xs| ==> xs[i] <= xs[j]
  }

  predicate ReaderCommitted(r: Reader) {
    r.pc.RAcqBuffer? || r.pc.RRelSelector? || r.pc.RCopy? || r.pc.RRelBuffer?
  }

  /** Reads see a growing number of updates. */
  predicate SeenGrows(s: State) {
    && Sorted(s.h.seen)
    && forall j :: 0 <= j < |s.h.seen| ==>
         && s.h.seen[j] <= |s.h.updates|
         && (ReaderCommitted(s.r) ==> s.h.seen[j] <= s.r.seen)
  }

  /** From the first update on, every lock a reader wants is left in its readable state. */
  predicate LocksReadable(s: State) {
    var u, sel := s.h.updates, s.dev.selector;
    && (s.w.pc.WRelSelector? || s.w.pc.WRelBuffer? ==> s.w.buf == sel)
    && (|u| > 0 && !s.w.pc.WRelSelector? ==> s.dev.selLock.value == ACQ_READ)
    && (|u| > 0 && !s.w.pc.WRelSelector? && !s.w.pc.WRelBuffer? ==>
          At(s.dev, sel).lock.value == ACQ_READ)
    && (s.w.pc.WRelBuffer? ==> |u| > 0)
  }

  predicate AsyncState(s: State) {
    SeenGrows(s) && LocksReadable(s)
  }

  lemma WriterKeepsAsync(p: Port, s: State)
    requires p.isAsync && SafeState(p, s) && AsyncState(s) && WriterEnabled(p, s)
    ensures AsyncState(WriterStep(p, s))
  {
  }

  lemma ReaderKeepsAsync(p: Port, s: State)
    requires p.isAsync && SafeState(p, s) && AsyncState(s) && ReaderEnabled(s)
    ensures AsyncState(ReaderStep(p, s))
  {
  }

  lemma StepKeepsAsync(p: Port, s: State, t: State)
    requires p.isAsync && SafeState(p, s) && AsyncState(s) && Next(p, s, t)
    ensures AsyncState(t)
  {
    if WriterEnabled(p, s) && t == WriterStep(p, s) {
      WriterKeepsAsync(p, s);
    } else if ReaderEnabled(s) && t == ReaderStep(p, s) {
      ReaderKeepsAsync(p, s);
    }
  }

  lemma {:induction false} RunIsAsync(p: Port, run: seq<State>, i: nat)
    requires p.isAsync && IsRun(p, run) && i < |run|
    ensures SafeState(p, run[i]) && AsyncState(run[i])
  {
    RunIsSafe(p, run, i);
    if i > 0 {
      RunIsAsync(p, run, i - 1);
      assert Next(p, run[i - 1], run[i - 1 + 1]);
      StepKeepsAsync(p, run[i - 1], run[i]);
    }
  }

  /** In every interleaving, every read returns the whole value of one update, and a later
      read never returns an older update than an earlier read did. */
  lemma ReadsReturnWholeUpdatesInOrder(p: Port, run: seq<State>, i: nat)
    requires p.isAsync && IsRun(p, run) && i < |run|
    ensures var h := run[i].h;
            && |h.seen| == |h.returned|
            && (forall j :: 0 <= j < |h.returned| ==>
                  0 < h.seen[j] <= |h.updates| && h.returned[j] == h.updates[h.seen[j] - 1])
            && (forall j, k :: 0 <= j < k < |h.seen| ==> h.seen[j] <= h.seen[k])
  {
    RunIsAsync(p, run, i);
  }

  /** The n-th read, if it has looked at the selector by now, saw at least m updates. */
  predicate SeesAtLeast(s: State, n: nat, m: nat) {
    && |s.h.updates| >= m
    && |s.h.seen| >= n
    && (|s.h.seen| > n ==> s.h.seen[n] >= m)
    && (|s.h.seen| == n && ReaderCommitted(s.r) ==> s.r.seen >= m)
  }

  lemma StepKeepsSight(p: Port, s: State, t: State, n: nat, m: nat)
    requires SafeState(p, s) && SeesAtLeast(s, n, m) && Next(p, s, t)
    ensures SeesAtLeast(t, n, m)
  {
  }

  lemma SightStep(p: Port, run: seq<State>, k: nat, n: nat, m: nat)
    requires IsRun(p, run) && k + 1 < |run| && SeesAtLeast(run[k], n, m)
    ensures SeesAtLeast(run[k + 1], n, m)
  {
    RunIsSafe(p, run, k);
    StepKeepsSight(p, run[k], run[k + 1], n, m);
  }

  lemma {:induction false} SightLasts(p: Port, run: seq<State>, i: nat, k: nat, n: nat, m: nat)
    requires IsRun(p, run) && i <= k < |run|
    requires SeesAtLeast(run[i], n, m)
    ensures SeesAtLeast(run[k], n, m)
    decreases k - i
  {
    if i < k {
      SightStep(p, run, i, n, m);
      SightLasts(p, run, i + 1, k, n, m);
    }
  }

  /** Freshness: a read that had not looked at the selector when m updates were published
      returns the m-th update or a newer one. */
  lemma ReadsAreFresh(p: Port, run: seq<State>, i: nat, k: nat)
    requires p.isAsync && IsRun(p, run) && i <= k < |run|
    requires !ReaderCommitted(run[i].r)
    requires |run[k].h.returned| > |run[i].h.returned|
    ensures var n, h := |run[i].h.returned|, run[k].h;
            && n < |h.seen|
            && |run[i].h.updates| <= h.seen[n] <= |h.updates|
            && 0 < h.seen[n] && h.returned[n] == h.updates[h.seen[n] - 1]
  {
    RunIsAsync(p, run, i);
    RunIsAsync(p, run, k);
    SightLasts(p, run, i, k, |run[i].h.returned|, |run[i].h.updates|);
  }

  /** No deadlock: once a value is on its way, a call in progress always leaves some thread
      able to move. Only a read made before any update waits. */
  lemma SomeThreadMoves(p: Port, s: State)
    requires p.isAsync && SafeState(p, s) && AsyncState(s)
    requires !s.w.pc.WIdle? || (!s.r.pc.RIdle? && |s.h.updates| > 0)
    ensures WriterEnabled(p, s) || ReaderEnabled(s)
  {
  }

  lemma ThreadStepKeepsAsync(p: Port, s: State, t: State)
    requires p.isAsync && ThreadStep(p, s, t) && SafeState(p, s) && AsyncState(s)
    ensures SafeState(p, t) && AsyncState(t) && |t.h.updates| >= |s.h.updates|
  {
    if WriterEnabled(p, s) && t == WriterStep(p, s) {
      WriterKeepsSafe(p, s);
      WriterKeepsAsync(p, s);
    } else {
      ReaderKeepsSafe(p, s);
      ReaderKeepsAsync(p, s);
    }
  }

  lemma {:induction false} ThreadRunIsAsync(p: Port, run: seq<State>)
    requires p.isAsync && ThreadRun(p, run) && SafeState(p, run[0]) && AsyncState(run[0])
    ensures SafeState(p, run[|run| - 1]) && AsyncState(run[|run| - 1])
    ensures |run[|run| - 1].h.updates| >= |run[0].h.updates|
    decreases |run|
  {
    if |run| > 1 {
      var n := |run| - 1;
      ThreadRunIsAsync(p, run[..n]);
      assert ThreadStep(p, run[n - 1], run[n - 1 + 1]);
      ThreadStepKeepsAsync(p, run[n - 1], run[n]);
    }
  }

  /** Every call finishes: after the first update, from any reachable state and under any
      schedule, the calls in progress stop within a fixed number of thread steps, and when no
      thread can move both are idle. */
  lemma CallsFinish(p: Port, run: seq<State>, i: nat, rest: seq<State>)
    requires p.isAsync && IsRun(p, run) && i < |run| && |run[i].h.updates| > 0
    requires ThreadRun(p, rest) && rest[0] == run[i]
    ensures |rest| - 1 <= Work(p, run[i])
    ensures var e := rest[|rest| - 1];
            !WriterEnabled(p, e) && !ReaderEnabled(e) ==> e.w.pc.WIdle? && e.r.pc.RIdle?
  {
    RunIsAsync(p, run, i);
    ThreadRunsAreFinite(p, rest);
    ThreadRunIsAsync(p, rest);
    var e := rest[|rest| - 1];
    if !WriterEnabled(p, e) && !ReaderEnabled(e) && !(e.w.pc.WIdle? && e.r.pc.RIdle?) {
      SomeThreadMoves(p, e);
    }
  }
}
