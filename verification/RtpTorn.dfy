/**
 RTP ports when an acquire of a buffer lock times out, and the call goes on without the lock.

 An update of an asynchronous port can then overwrite the buffer a read is copying from. A
 synchronous update never has to wait for its buffer, and a synchronous read that gives up
 waiting for its own still returns the value it was to return.
 */
module RtpTorn {
  import opened RtpProtocol
  import opened RtpSync
  import opened RtpTimeout

  /** A synchronous update that has the selector finds its buffer free. */
  lemma SyncUpdateFindsBufferFree(p: Port, s: State)
    requires !p.isAsync && SafeState(p, s) && SyncState(s) && s.w.pc.WAcqBuffer?
    ensures WriterEnabled(p, s)
  {
    assert BufferLockAgrees(s, s.w.buf);
  }

  /** An asynchronous one waits for it, and so can time out, if and only if a read is copying. */
  lemma BufferTimeOutIff(p: Port, s: State)
    requires p.isAsync && SafeState(p, s) && s.w.pc.WAcqBuffer?
    ensures !WriterEnabled(p, s) <==> ReaderHoldsBuffer(s.r, s.w.buf)
  {
    assert BufferLockAgrees(s, s.w.buf);
  }

  function BufferTimedOut(s: State): State {
    s.(w := s.w.(done := 0, pc := WCopy))
  }

  // ----- What the read can return -----------------------------------------------------

  /** One read, the `nth`, copies from `buf` the value `was`, and had copied `from` elements
      when the update that is to be number `updates` began to replace it by `val`. */
  datatype Race = Race(buf: bool, was: Value, val: Value, from: nat, nth: nat, updates: nat)

  /** Every element is an old one or, past the first `from`, a new one. */
  predicate Mixed(c: Race, r: Value) {
    && |r| <= |c.was| == |c.val|
    && forall x :: 0 <= x < |r| ==> r[x] == c.was[x] || (c.from <= x && r[x] == c.val[x])
  }

  /** The update is replacing the value. */
  predicate Replacing(c: Race, s: State) {
    var data := At(s.dev, c.buf).data;
    && |s.h.updates| == c.updates && s.dev.selector == !c.buf && |data| == |c.was| == |c.val|
    && s.w.buf == c.buf && s.w.val == c.val && WriterFilling(s.w)
    && (s.w.pc.WCopy? ==>
          s.w.done <= |data| && forall x :: 0 <= x < |data| ==> data[x] == if x < s.w.done then c.val[x] else c.was[x])
    && (s.w.pc.WSetSelector? ==> data == c.val)
  }

  /** It has been published, and the one after it goes to the other buffer. */
  predicate Replaced(c: Race, s: State) {
    && |s.h.updates| == c.updates + 1 && s.dev.selector == c.buf
    && At(s.dev, c.buf).data == c.val
    && (s.w.pc.WAcqBuffer? || WriterFilling(s.w) ==> s.w.buf == !c.buf)
  }

  predicate Copying(c: Race, s: State) {
    && |s.h.returned| == c.nth && s.r.buf == c.buf
    && |At(s.dev, c.buf).data| == |c.was| == |c.val|
    && (s.r.pc.RCopy? || (s.r.pc.RRelBuffer? && |s.r.got| == |c.was|))
    && Mixed(c, s.r.got) && c.from <= |s.r.got|
  }

  /** Until another update is published, the read is copying a mixture, or has returned one. */
  predicate RaceOk(c: Race, s: State) {
    || |s.h.updates| > c.updates + 1
    || (|s.h.returned| > c.nth && |s.h.returned[c.nth]| == |c.was| && Mixed(c, s.h.returned[c.nth]))
    || (Copying(c, s) && (Replacing(c, s) || Replaced(c, s)))
  }

  lemma WriterKeepsRace(p: Port, c: Race, s: State)
    requires RaceOk(c, s) && WriterEnabled(p, s)
    ensures RaceOk(c, WriterStep(p, s))
  {
  }

  lemma ReaderKeepsRace(p: Port, c: Race, s: State)
    requires RaceOk(c, s) && ReaderEnabled(s)
    ensures RaceOk(c, ReaderStep(p, s))
  {
  }

  lemma StepKeepsRace(p: Port, c: Race, s: State, t: State)
    requires RaceOk(c, s) && Next(p, s, t)
    ensures RaceOk(c, t)
  {
    if WriterEnabled(p, s) && t == WriterStep(p, s) {
      WriterKeepsRace(p, c, s);
    } else if ReaderEnabled(s) && t == ReaderStep(p, s) {
      ReaderKeepsRace(p, c, s);
    }
  }

  lemma {:induction false} RunKeepsRace(p: Port, c: Race, run: seq<State>, i: nat)
    requires Continues(p, run) && RaceOk(c, run[0]) && i < |run|
    ensures RaceOk(c, run[i])
  {
    hide RaceOk, Next;
    if i > 0 {
      RunKeepsRace(p, c, run, i - 1);
      assert Next(p, run[i - 1], run[i - 1 + 1]);
      StepKeepsRace(p, c, run[i - 1], run[i]);
    }
  }

  /** Wherever from element `from` on the two values are cut, they agree on one side. */
  predicate OneSided(v: Value, w: Value, from: nat)
    requires |v| == |w|
  {
    forall m :: from <= m <= |v| ==> v[..m] == w[..m] || v[m..] == w[m..]
  }

  lemma TwoSided(c: Race, r: Value)
    requires Mixed(c, r) && |r| == |c.was| && r != c.was && r != c.val
    ensures !OneSided(c.was, c.val, c.from)
  {
    var x :| 0 <= x < |r| && r[x] != c.was[x];
    var y :| 0 <= y < |r| && r[y] != c.val[y];
    var m := if x < y then y else x;
    var n := if x < y then x else y;
    assert c.was[..m][n] != c.val[..m][n];
    assert c.was[m..][0] != c.val[m..][0];
  }

  /** Then a mixture is one of the two. */
  lemma MixtureIsWhole(c: Race, r: Value)
    requires Mixed(c, r) && |r| == |c.was| && OneSided(c.was, c.val, c.from)
    ensures r == c.was || r == c.val
  {
    if r != c.was && r != c.val {
      TwoSided(c, r);
    }
  }

  // ----- A torn value -----------------------------------------------------------------

  /** A read goes on copying until it has `m` elements. */
  lemma {:induction false} ReadsUpTo(p: Port, s: State, t: State, m: nat) returns (u: State)
    requires Reaches(p, s, t) && t.r.pc.RCopy? && t.r.got <= At(t.dev, t.r.buf).data
    requires |t.r.got| <= m <= |At(t.dev, t.r.buf).data|
    ensures Reaches(p, s, u) && u == t.(r := t.r.(got := At(t.dev, t.r.buf).data[..m]))
    decreases m - |t.r.got|
  {
    if |t.r.got| == m {
      assert t.r.got == At(t.dev, t.r.buf).data[..m];
      u := t;
    } else {
      Read(p, s, t);
      u := ReadsUpTo(p, s, ReaderStep(p, t), m);
    }
  }

  /** The buffer the read is copying from, which the update is about to write to, holds the value
      of the update the read is committed to. */
  lemma RaceStarts(p: Port, s: State) returns (c: Race)
    requires p.isAsync && SafeState(p, s) && s.w.pc.WAcqBuffer? && ReaderHoldsBuffer(s.r, s.w.buf)
    ensures c == Race(s.w.buf, At(s.dev, s.w.buf).data, s.w.val, |s.r.got|, |s.h.returned|, |s.h.updates|)
    ensures 0 < s.r.seen <= |s.h.updates| && c.was == s.h.updates[s.r.seen - 1] && s.r.got <= c.was
    ensures |c.was| == |c.val| == p.numBytes && (s.r.pc.RCopy? || s.r.got == c.was)
    ensures RaceOk(c, BufferTimedOut(s))
  {
    c := Race(s.w.buf, At(s.dev, s.w.buf).data, s.w.val, |s.r.got|, |s.h.returned|, |s.h.updates|);
  }

  /** The read has copied `m` elements when the update replaces them all, and copies the rest
      of the new value. */
  lemma TearsAt(p: Port, s: State, m: nat) returns (u: State)
    requires p.isAsync && SafeState(p, s) && s.w.pc.WAcqBuffer? && ReaderHoldsBuffer(s.r, s.w.buf)
    requires s.r.pc.RCopy? && |s.r.got| <= m <= p.numBytes
    ensures 0 < s.r.seen <= |s.h.updates| && |s.h.updates[s.r.seen - 1]| == |s.w.val| == p.numBytes
    ensures Reaches(p, BufferTimedOut(s), u) && u.h.updates == s.h.updates + [s.w.val]
    ensures u.h.returned == s.h.returned + [s.h.updates[s.r.seen - 1][..m] + s.w.val[m..]]
  {
    var c := RaceStarts(p, s);
    var t := BufferTimedOut(s);
    Stay(p, t);
    var t1 := ReadsUpTo(p, t, t, m);
    var t2 := CopyEnds(p, t, t1);
    u := ReadEnds(p, t, t2);
  }

  /** Whatever happens until another update is published, the read returns the whole old value or
      the whole new one. */
  ghost predicate StaysWhole(p: Port, s: State, v: Value, w: Value) {
    forall u :: Reaches(p, BufferTimedOut(s), u) && |u.h.updates| <= |s.h.updates| + 1 && |u.h.returned| > |s.h.returned|
                ==> u.h.returned[|s.h.returned|] == v || u.h.returned[|s.h.returned|] == w
  }

  /** For every update of an asynchronous port that times out at its buffer: the read that copies
      from it returns a whole value, whatever the interleaving, if and only if the old and the new
      value, cut anywhere from where the read stands, agree on one side of the cut. */
  lemma WholeIff(p: Port, s: State)
    requires p.isAsync && SafeState(p, s) && s.w.pc.WAcqBuffer? && !WriterEnabled(p, s)
    ensures 0 < s.r.seen <= |s.h.updates| && |s.h.updates[s.r.seen - 1]| == |s.w.val|
    ensures StaysWhole(p, s, s.h.updates[s.r.seen - 1], s.w.val)
            <==> OneSided(s.h.updates[s.r.seen - 1], s.w.val, |s.r.got|)
  {
    BufferTimeOutIff(p, s);
    var c := RaceStarts(p, s);
    if OneSided(c.was, c.val, c.from) {
      forall u | Reaches(p, BufferTimedOut(s), u) && |u.h.updates| <= c.updates + 1 && |u.h.returned| > c.nth
        ensures u.h.returned[c.nth] == c.was || u.h.returned[c.nth] == c.val
      {
        var run :| Continues(p, run) && run[0] == BufferTimedOut(s) && run[|run| - 1] == u;
        RunKeepsRace(p, c, run, |run| - 1);
        MixtureIsWhole(c, u.h.returned[c.nth]);
      }
    } else {
      TornWhenTwoSided(p, s, c);
    }
  }

  lemma TornWhenTwoSided(p: Port, s: State, c: Race)
    requires p.isAsync && SafeState(p, s) && s.w.pc.WAcqBuffer? && ReaderHoldsBuffer(s.r, s.w.buf)
    requires 0 < s.r.seen <= |s.h.updates| && c.was == s.h.updates[s.r.seen - 1] && c.val == s.w.val && c.from == |s.r.got|
    requires |c.was| == |c.val| == p.numBytes && (s.r.pc.RCopy? || s.r.got == c.was) && !OneSided(c.was, c.val, c.from)
    ensures !StaysWhole(p, s, c.was, c.val)
  {
    var m :| c.from <= m <= |c.was| && c.was[..m] != c.val[..m] && c.was[m..] != c.val[m..];
    var u := TearsAt(p, s, m);
    var r := u.h.returned[|s.h.returned|];
    assert r[..m] == c.was[..m] && r[m..] == c.val[m..];
  }

  /** A read has begun to copy, with nothing copied yet. */
  lemma ReadBegins(p: Port, s: State, t: State) returns (u: State)
    requires Reaches(p, s, t) && t.r.pc.RIdle? && t.dev.selLock == At(t.dev, t.dev.selector).lock == Lock(ACQ_READ, false)
    ensures Reaches(p, s, u) && u.r.pc.RCopy? && u.r.got == [] && u.r.buf == t.dev.selector
    ensures u.w == t.w && u.h == t.h && u.dev.selector == t.dev.selector
    ensures u.dev.selLock == Lock(ReaderLeaves(p), false)
    ensures At(u.dev, !t.dev.selector) == At(t.dev, !t.dev.selector)
    ensures At(u.dev, t.dev.selector) == At(t.dev, t.dev.selector).(lock := Lock(ACQ_READ, true))
  {
    u := ReadTakesNewest(p, s, t);
    Read(p, s, u);
    u := ReaderStep(p, u);
    Read(p, s, u);
    u := ReaderStep(p, u);
  }

  lemma ReachedIsSafe(p: Port, s: State, t: State)
    requires Initial(p, s) && Reaches(p, s, t)
    ensures SafeState(p, t)
  {
    var run :| Continues(p, run) && run[0] == s && run[|run| - 1] == t;
    RunIsSafe(p, run, |run| - 1);
  }

  /** An update, a read that begins, and two more updates: the last is for the buffer the read
      copies from. */
  lemma ThirdUpdateWaits(p: Port, s: State, v: Value, w: Value) returns (t: State)
    requires p.isAsync && Initial(p, s) && |v| == |w| == p.numBytes
    ensures Reaches(p, s, t) && t.w.pc.WAcqBuffer? && t.w.val == w && ReaderHoldsBuffer(t.r, t.w.buf)
    ensures t.r.pc.RCopy? && t.r.got == [] && t.h.updates == [v, v] && t.h.returned == []
  {
    Stay(p, s);
    t := UpdateRuns(p, s, s, v);
    t := ReadBegins(p, s, t);
    t := UpdateRuns(p, s, t, v);
    assert [v] + [v] == [v, v];
    var t1 := t.(w := t.w.(pc := WAcqSelector, val := w));
    assert UpdateCalled(p, t, w, t1);
    Then(p, s, t, t1);
    Write(p, s, t1);
    var t2 := WriterStep(p, t1);
    Write(p, s, t2);
    t := WriterStep(p, t2);
  }

  /** On every asynchronous port, and for every two values that differ in two places, there is a
      run in which an update times out at its buffer and a read returns what was never written. */
  lemma TornRead(p: Port, s: State, v: Value, w: Value, m: nat) returns (before: State, end: State)
    requires p.isAsync && Initial(p, s) && |v| == |w| == p.numBytes
    requires m <= p.numBytes && v[..m] != w[..m] && v[m..] != w[m..]
    ensures Reaches(p, s, before) && before.w.pc.WAcqBuffer? && !WriterEnabled(p, before)
    ensures Reaches(p, BufferTimedOut(before), end) && end.h.updates == [v, v, w]
    ensures |end.h.returned| == 1 && end.h.returned[0] !in end.h.updates
  {
    before := ThirdUpdateWaits(p, s, v, w);
    ReachedIsSafe(p, s, before);
    BufferTimeOutIff(p, before);
    RaceStartsAt(p, before, v);
    end := TearsAt(p, before, m);
    assert [v, v] + [w] == [v, v, w];
    var r := end.h.returned[0];
    assert r[..m] == v[..m] && r[m..] == w[m..];
  }

  lemma RaceStartsAt(p: Port, s: State, v: Value)
    requires p.isAsync && SafeState(p, s) && s.w.pc.WAcqBuffer? && ReaderHoldsBuffer(s.r, s.w.buf)
    requires s.h.updates == [v, v]
    ensures 0 < s.r.seen <= |s.h.updates| && s.h.updates[s.r.seen - 1] == v
  {
    var c := RaceStarts(p, s);
  }

  // ----- A read at its buffer ---------------------------------------------------------

  /** A read waits for its buffer, and so can time out there, if and only if the update that
      filled it has yet to release it. */
  lemma ReadBufferTimeOutIff(p: Port, s: State)
    requires !p.isAsync && SafeState(p, s) && SyncState(s) && s.r.pc.RAcqBuffer?
    ensures !ReaderEnabled(s) <==> WriterHoldsBuffer(s.w, s.r.buf)
  {
    assert BufferLockAgrees(s, s.r.buf);
  }

  function ReadTimedOut(s: State): State {
    s.(r := s.r.(pc := RRelSelector))
  }

  /** The read copies `v` from `b` without its lock, and at most one update is under way, in the
      other buffer. */
  predicate Undisturbed(b: bool, v: Value, updates: nat, s: State) {
    && s.r.buf == b && At(s.dev, b).data == v
    && (s.r.pc.RRelSelector? || (s.r.pc.RCopy? && s.r.got <= v) || (s.r.pc.RRelBuffer? && s.r.got == v))
    && (|| (&& |s.h.updates| == updates && s.dev.selector == b && !s.w.pc.WRelSelector?
            && (s.w.pc.WAcqBuffer? || WriterFilling(s.w) ==> s.w.buf == !b)
            && (s.r.pc.RRelSelector? ==> s.dev.selLock.held && !WriterHoldsSelector(s.w)))
        || (&& |s.h.updates| == updates + 1 && s.dev.selector == !b && !s.r.pc.RRelSelector?
            && (s.w.pc.WRelSelector? || ((s.w.pc.WRelBuffer? || s.w.pc.WIdle? || s.w.pc.WAcqSelector?)
                                         && s.dev.selLock.value == ACQ_READ))))
  }

  predicate ReadOk(b: bool, v: Value, nth: nat, updates: nat, s: State) {
    || (|s.h.returned| > nth && s.h.returned[nth] == v)
    || (|s.h.returned| == nth && Undisturbed(b, v, updates, s))
  }

  lemma WriterKeepsReadOk(p: Port, b: bool, v: Value, nth: nat, updates: nat, s: State)
    requires !p.isAsync && ReadOk(b, v, nth, updates, s) && WriterEnabled(p, s)
    ensures ReadOk(b, v, nth, updates, WriterStep(p, s))
  {
  }

  lemma ReaderKeepsReadOk(p: Port, b: bool, v: Value, nth: nat, updates: nat, s: State)
    requires !p.isAsync && ReadOk(b, v, nth, updates, s) && ReaderEnabled(s)
    ensures ReadOk(b, v, nth, updates, ReaderStep(p, s))
  {
  }

  lemma StepKeepsReadOk(p: Port, b: bool, v: Value, nth: nat, updates: nat, s: State, t: State)
    requires !p.isAsync && ReadOk(b, v, nth, updates, s) && Next(p, s, t)
    ensures ReadOk(b, v, nth, updates, t)
  {
    if WriterEnabled(p, s) && t == WriterStep(p, s) {
      WriterKeepsReadOk(p, b, v, nth, updates, s);
    } else if ReaderEnabled(s) && t == ReaderStep(p, s) {
      ReaderKeepsReadOk(p, b, v, nth, updates, s);
    }
  }

  lemma {:induction false} RunKeepsReadOk(p: Port, b: bool, v: Value, nth: nat, updates: nat, run: seq<State>, i: nat)
    requires !p.isAsync && Continues(p, run) && ReadOk(b, v, nth, updates, run[0]) && i < |run|
    ensures ReadOk(b, v, nth, updates, run[i])
  {
    hide ReadOk, Next;
    if i > 0 {
      RunKeepsReadOk(p, b, v, nth, updates, run, i - 1);
      assert Next(p, run[i - 1], run[i - 1 + 1]);
      StepKeepsReadOk(p, b, v, nth, updates, run[i - 1], run[i]);
    }
  }

  /** A synchronous read that times out at its buffer returns, whole, the update it is committed
      to, whatever follows. */
  lemma ReadTimeOutStaysWhole(p: Port, s: State, u: State)
    requires !p.isAsync && SafeState(p, s) && SyncState(s) && s.r.pc.RAcqBuffer? && !ReaderEnabled(s)
    requires Reaches(p, ReadTimedOut(s), u) && |u.h.returned| > |s.h.returned|
    ensures 0 < s.r.seen <= |s.h.updates| && u.h.returned[|s.h.returned|] == s.h.updates[s.r.seen - 1]
  {
    ReadBufferTimeOutIff(p, s);
    var v := s.h.updates[s.r.seen - 1];
    assert ReadOk(s.r.buf, v, |s.h.returned|, |s.h.updates|, ReadTimedOut(s));
    var run :| Continues(p, run) && run[0] == ReadTimedOut(s) && run[|run| - 1] == u;
    RunKeepsReadOk(p, s.r.buf, v, |s.h.returned|, |s.h.updates|, run, |run| - 1);
  }
}
