/**
 GMIO buffer descriptors: `gmio_api` hands out the shim DMA's buffer descriptors (BDs) from
 one FIFO, remembers the ones it pushed to the hardware in another, and recycles them by
 counting how many the hardware still has pending.

 `Queues` adds the hardware's own queue to the two FIFOs. The functions below say what each
 operation does to it, `GmioApi` is the object itself, and `Apply` is any sequence of calls.
 */
module Gmio {

  /** `pending` is the shim DMA's queue: it is consumed from the front, in order. */
  datatype Queues = Queues(available: seq<int>, enqueued: seq<int>, pending: seq<int>)

  /** One look at the driver: the DMA retires some BDs, then the driver reports a count and
      whether the query worked. One that fails leaves the caller's counter at zero, which is a
      report too. */
  datatype Poll = Poll(retired: nat, reported: nat, ok: bool)

  /** One `XAie_DmaWaitForDone`: it succeeds only when the channel has gone idle. */
  datatype Try = Try(retired: nat, done: bool)

  datatype Op =
    | Enqueue(polls: seq<Poll>, pushed: bool)
    | Wait(sync: bool, tries: seq<Try>)

  function Drop(xs: seq<int>, n: nat): seq<int> {
    if n <= |xs| then xs[n..] else []
  }

  /** BDs the runtime takes for completed: the 32-bit difference, read as a signed count. */
  function Completed(q: nat, reported: nat): nat {
    if reported <= q then q - reported else 0
  }

  /** Recycle the `n` oldest enqueued BDs. */
  function Recycle(s: Queues, n: nat): Queues
    requires n <= |s.enqueued|
  {
    s.(available := s.available + s.enqueued[..n], enqueued := s.enqueued[n..])
  }

  function AfterPoll(s: Queues, q: nat, p: Poll): Queues
    requires q <= |s.enqueued|
  {
    Recycle(s, Completed(q, p.reported)).(pending := Drop(s.pending, p.retired))
  }

  /** Poll while no BD is available; the polls seen so far may not be enough. */
  function PollUntilFree(s: Queues, q: nat, polls: seq<Poll>): Queues
    requires s.available == [] ==> q <= |s.enqueued|
    decreases |polls|
  {
    if s.available != [] || polls == [] then s
    else PollUntilFree(AfterPoll(s, q, polls[0]), q, polls[1..])
  }

  /** The polls that are made all work. */
  predicate PollsWork(s: Queues, q: nat, polls: seq<Poll>)
    requires s.available == [] ==> q <= |s.enqueued|
    decreases |polls|
  {
    s.available != [] || polls == [] ||
    (polls[0].ok && PollsWork(AfterPoll(s, q, polls[0]), q, polls[1..]))
  }

  /** Take the BD at the front, give it to the DMA (if the push succeeds) and remember it. */
  function HandOut(s: Queues, pushed: bool): Queues
    requires s.available != []
  {
    var bd := s.available[0];
    Queues(s.available[1..], s.enqueued + [bd], if pushed then s.pending + [bd] else s.pending)
  }

  function AfterEnqueue(s: Queues, q: nat, polls: seq<Poll>, pushed: bool): Queues
    requires s.available == [] ==> q <= |s.enqueued|
  {
    var t := PollUntilFree(s, q, polls);
    if t.available == [] then t else HandOut(t, pushed)
  }

  function AfterTry(s: Queues, t: Try): Queues {
    s.(pending := if t.done then [] else Drop(s.pending, t.retired))
  }

  /** A synchronous wait retries until the driver says done; the other kind asks once and
      recycles everything whatever the answer was. */
  function AfterWait(s: Queues, sync: bool, tries: seq<Try>): Queues
    decreases |tries|
  {
    if tries == [] then s
    else
      var t := AfterTry(s, tries[0]);
      if sync && !tries[0].done then AfterWait(t, sync, tries[1..])
      else Recycle(t, |t.enqueued|)
  }

  function AfterOp(s: Queues, q: nat, op: Op): Queues
    requires s.available == [] ==> q <= |s.enqueued|
  {
    match op
    case Enqueue(polls, pushed) => AfterEnqueue(s, q, polls, pushed)
    case Wait(sync, tries) => AfterWait(s, sync, tries)
  }

  /** The BD numbers a channel owns. */
  function Owned(channel: nat, q: nat): (bds: seq<int>)
    ensures |bds| == q
  {
    seq(q, (j: nat) => channel * q + j)
  }

  /** The two FIFOs laid end to end are the channel's BDs, rotated by `e`. */
  predicate Rotated(s: Queues, bds: seq<int>, e: nat) {
    && e < |bds|
    && s.enqueued + s.available == bds[e..] + bds[..e]
  }

  /** Where in the channel's list the next BD to be handed out sits. */
  function NextSlot(s: Queues, bds: seq<int>, e: nat): nat {
    if e + |s.enqueued| < |bds| then e + |s.enqueued| else
    if e + |s.enqueued| - |bds| < |bds| then e + |s.enqueued| - |bds| else 0
  }

  function Succ(i: nat, n: nat): nat {
    if i + 1 == n then 0 else i + 1
  }

  /** Rotating one further moves one BD from the old end to the new one. */
  lemma RotateOnce(bds: seq<int>, e: nat)
    requires e < |bds|
    ensures (bds[e..] + bds[..e])[1..] + [bds[e]]
            == bds[Succ(e, |bds|)..] + bds[..Succ(e, |bds|)]
  {
    assert (bds[e..] + bds[..e])[1..] == bds[e + 1..] + bds[..e];
    assert bds[..e] + [bds[e]] == bds[..e + 1];
    if e + 1 == |bds| {
      assert bds[..e + 1] == bds;
    }
  }

  lemma {:induction false} RecycleRotates(s: Queues, bds: seq<int>, e: nat, n: nat) returns (f: nat)
    requires Rotated(s, bds, e) && n <= |s.enqueued|
    ensures Rotated(Recycle(s, n), bds, f)
    ensures n < |bds| || |s.available| == 0
    ensures NextSlot(Recycle(s, n), bds, f) == NextSlot(s, bds, e)
    decreases n
  {
    assert |s.enqueued + s.available| == |bds[e..] + bds[..e]| == |bds|;
    if n == 0 {
      f := e;
      assert s.available + s.enqueued[..0] == s.available;
      assert Recycle(s, 0) == s;
    } else {
      var t := Recycle(s, 1);
      var all := s.enqueued + s.available;
      f := Succ(e, |bds|);
      assert all[0] == bds[e];
      assert t.enqueued + t.available == all[1..] + [all[0]];
      RotateOnce(bds, e);
      assert Rotated(t, bds, f);
      assert NextSlot(t, bds, f) == NextSlot(s, bds, e);
      assert Recycle(t, n - 1) == Recycle(s, n) by {
        assert s.enqueued[..n] == s.enqueued[..1] + s.enqueued[1..][..n - 1];
        assert t.available + t.enqueued[..n - 1] == s.available + s.enqueued[..n];
        assert t.enqueued[n - 1..] == s.enqueued[n..];
      }
      f := RecycleRotates(t, bds, f, n - 1);
    }
  }

  lemma {:induction false} PollRotates(s: Queues, q: nat, polls: seq<Poll>, bds: seq<int>, e: nat) returns (f: nat)
    requires Rotated(s, bds, e) && |bds| == q
    ensures |s.enqueued| + |s.available| == q
    ensures Rotated(PollUntilFree(s, q, polls), bds, f)
    ensures NextSlot(PollUntilFree(s, q, polls), bds, f) == NextSlot(s, bds, e)
    decreases |polls|
  {
    assert |s.enqueued + s.available| == |bds[e..] + bds[..e]|;
    f := e;
    if s.available == [] && polls != [] {
      var n := Completed(q, polls[0].reported);
      var t := Recycle(s, n);
      f := RecycleRotates(s, bds, e, n);
      assert AfterPoll(s, q, polls[0]).enqueued == t.enqueued;
      f := PollRotates(AfterPoll(s, q, polls[0]), q, polls[1..], bds, f);
    }
  }

  /** Handing out takes the channel's BDs strictly in turn. */
  lemma HandOutRotates(s: Queues, pushed: bool, bds: seq<int>, e: nat)
    requires Rotated(s, bds, e) && s.available != []
    ensures Rotated(HandOut(s, pushed), bds, e)
    ensures s.available[0] == bds[NextSlot(s, bds, e)]
    ensures NextSlot(HandOut(s, pushed), bds, e) == Succ(NextSlot(s, bds, e), |bds|)
  {
    var all := s.enqueued + s.available;
    assert |all| == |bds[e..] + bds[..e]| == |bds|;
    assert all[|s.enqueued|] == s.available[0];
    assert (bds[e..] + bds[..e])[|s.enqueued|] == bds[NextSlot(s, bds, e)];
    var t := HandOut(s, pushed);
    assert t.enqueued + t.available == all by {
      assert [s.available[0]] + s.available[1..] == s.available;
    }
  }

  lemma {:induction false} WaitRotates(s: Queues, sync: bool, tries: seq<Try>, bds: seq<int>, e: nat) returns (f: nat)
    requires Rotated(s, bds, e)
    ensures Rotated(AfterWait(s, sync, tries), bds, f)
    ensures NextSlot(AfterWait(s, sync, tries), bds, f) == NextSlot(s, bds, e)
    decreases |tries|
  {
    f := e;
    if tries != [] {
      var t := AfterTry(s, tries[0]);
      if sync && !tries[0].done {
        f := WaitRotates(t, sync, tries[1..], bds, e);
      } else {
        f := RecycleRotates(t, bds, e, |t.enqueued|);
      }
    }
  }

  /** Which BD an operation hands out, if any. */
  function Handed(s: Queues, q: nat, op: Op): (bds: seq<int>)
    requires s.available == [] ==> q <= |s.enqueued|
    ensures |bds| <= 1
  {
    match op
    case Wait(_, _) => []
    case Enqueue(polls, _) =>
      var t := PollUntilFree(s, q, polls);
      if t.available == [] then [] else [t.available[0]]
  }

  /** Every call, whatever the driver reports, keeps the rotation and hands out the next BD. */
  lemma OpRotates(s: Queues, q: nat, op: Op, bds: seq<int>, e: nat) returns (f: nat)
    requires Rotated(s, bds, e) && |bds| == q
    ensures s.available == [] ==> q <= |s.enqueued|
    ensures Rotated(AfterOp(s, q, op), bds, f)
    ensures Handed(s, q, op) == [] || Handed(s, q, op) == [bds[NextSlot(s, bds, e)]]
    ensures NextSlot(AfterOp(s, q, op), bds, f)
            == if Handed(s, q, op) == [] then NextSlot(s, bds, e) else Succ(NextSlot(s, bds, e), q)
  {
    assert |s.enqueued + s.available| == |bds[e..] + bds[..e]|;
    match op {
      case Enqueue(polls, pushed) =>
        f := PollRotates(s, q, polls, bds, e);
        var t := PollUntilFree(s, q, polls);
        if t.available != [] {
          HandOutRotates(t, pushed, bds, f);
        }
      case Wait(sync, tries) =>
        f := WaitRotates(s, sync, tries, bds, e);
    }
  }

  /** A call hands out a BD if and only if one is available, or one of the polls reports fewer
      pending than the queue holds. */
  lemma {:induction false} HandsOutIff(s: Queues, q: nat, polls: seq<Poll>, pushed: bool)
    requires |s.enqueued| + |s.available| == q > 0
    ensures Handed(s, q, Enqueue(polls, pushed)) != []
            <==> s.available != [] || exists i :: 0 <= i < |polls| && polls[i].reported < q
    decreases |polls|
  {
    if s.available == [] && polls != [] {
      var t := AfterPoll(s, q, polls[0]);
      HandsOutIff(t, q, polls[1..], pushed);
      if i :| 0 <= i < |polls| && polls[i].reported < q {
        assert i > 0 ==> polls[1..][i - 1].reported < q;
      }
    }
  }

  /** A wait that gets its answer frees every BD, behind the ones that were available: a
      synchronous one if and only if the driver says done, the other kind whatever it says. */
  lemma {:induction false} WaitFreesIff(s: Queues, sync: bool, tries: seq<Try>)
    ensures var t := AfterWait(s, sync, tries);
            var answered := if sync then exists i :: 0 <= i < |tries| && tries[i].done else tries != [];
            && (answered ==> t.enqueued == [] && t.available == s.available + s.enqueued)
            && (!answered ==> t.enqueued == s.enqueued && t.available == s.available)
            && (sync && answered ==> t.pending == [])
    decreases |tries|
  {
    if tries != [] && sync && !tries[0].done {
      WaitFreesIff(AfterTry(s, tries[0]), sync, tries[1..]);
      if i :| 0 <= i < |tries| && tries[i].done {
        assert tries[1..][i - 1].done;
      }
    } else if tries != [] && sync {
      assert tries[0].done;
    }
  }

  /** Any sequence of calls: the final queues and everything handed out on the way. The
      guard on the queue sizes is what a recycling loop needs so as never to pop an empty
      queue; `DescriptorsAreConserved` shows that it always holds. */
  ghost function Apply(s: Queues, q: nat, ops: seq<Op>): (r: (Queues, seq<int>))
    decreases |ops|
  {
    if ops == [] || (s.available == [] && |s.enqueued| < q) then (s, [])
    else
      var rest := Apply(AfterOp(s, q, ops[0]), q, ops[1..]);
      (rest.0, Handed(s, q, ops[0]) + rest.1)
  }

  /** The next `n` BDs of an endless round trip through the list. */
  function RoundRobin(bds: seq<int>, i: nat, n: nat): (r: seq<int>)
    requires i < |bds|
    ensures |r| == n
    decreases n
  {
    if n == 0 then [] else [bds[i]] + RoundRobin(bds, Succ(i, |bds|), n - 1)
  }

  lemma {:induction false} RunRotates(s: Queues, q: nat, ops: seq<Op>, bds: seq<int>, e: nat) returns (f: nat)
    requires Rotated(s, bds, e) && |bds| == q
    ensures Rotated(Apply(s, q, ops).0, bds, f)
    ensures NextSlot(s, bds, e) < q
    ensures Apply(s, q, ops).1 == RoundRobin(bds, NextSlot(s, bds, e), |Apply(s, q, ops).1|)
    decreases |ops|
  {
    f := e;
    assert |s.enqueued + s.available| == |bds[e..] + bds[..e]|;
    if ops != [] {
      f := OpRotates(s, q, ops[0], bds, e);
      f := RunRotates(AfterOp(s, q, ops[0]), q, ops[1..], bds, f);
    }
  }

  /** The queues right after `configure`. */
  function Configured(channel: nat, q: nat): Queues {
    Queues(Owned(channel, q), [], [])
  }

  /** Conservation: after one `configure`, over every sequence of calls and whatever the
      driver reports, the two FIFOs together hold each of the channel's BDs exactly once, and
      the BDs handed out are the channel's BDs in endless rotation. */
  lemma DescriptorsAreConserved(channel: nat, q: nat, ops: seq<Op>)
    requires q > 0
    ensures var (s, handed) := Apply(Configured(channel, q), q, ops);
            && multiset(s.available) + multiset(s.enqueued) == multiset(Owned(channel, q))
            && handed == RoundRobin(Owned(channel, q), 0, |handed|)
  {
    var bds := Owned(channel, q);
    var s := Configured(channel, q);
    assert Rotated(s, bds, 0) by {
      assert bds[0..] + bds[..0] == bds;
    }
    var f := RunRotates(s, q, ops, bds, 0);
    var t := Apply(s, q, ops).0;
    assert multiset(t.enqueued + t.available) == multiset(bds) by {
      assert bds[..f] + bds[f..] == bds;
    }
  }

  lemma OwnedAt(channel: nat, q: nat, b: int)
    ensures b in Owned(channel, q) <==> channel * q <= b < channel * q + q
  {
    if channel * q <= b < channel * q + q {
      assert Owned(channel, q)[b - channel * q] == b;
    }
  }

  /** Distinct channels with queues of the same size never share a BD. */
  lemma ChannelsAreDisjoint(c: nat, d: nat, q: nat, b: int)
    requires c != d
    ensures !(b in Owned(c, q) && b in Owned(d, q))
  {
    OwnedAt(c, q, b);
    OwnedAt(d, q, b);
    if c < d {
      assert (c + 1) * q <= d * q;
    } else {
      assert (d + 1) * q <= c * q;
    }
  }

  // ----- In-flight safety -------------------------------------------------------------

  /** The hardware's pending BDs are the newest of the enqueued ones, in the same order. */
  predicate InFlight(s: Queues) {
    && |s.pending| <= |s.enqueued|
    && s.pending == s.enqueued[|s.enqueued| - |s.pending|..]
  }

  /** A poll keeps the hardware's BDs enqueued if and only if the driver does not report
      fewer BDs than are pending: a failed query, which reports none, is unsafe exactly when
      something is pending. */
  lemma PollSafeIff(s: Queues, q: nat, p: Poll)
    requires InFlight(s) && |s.enqueued| == q
    ensures InFlight(AfterPoll(s, q, p)) <==> |Drop(s.pending, p.retired)| <= p.reported
  {
    var c := Completed(q, p.reported);
    var pending := Drop(s.pending, p.retired);
    DropIsSuffix(s.pending, s.enqueued, p.retired);
    SuffixOfRest(s.enqueued, c, pending);
  }

  lemma DropIsSuffix(xs: seq<int>, all: seq<int>, n: nat)
    requires |xs| <= |all| && xs == all[|all| - |xs|..]
    ensures var d := Drop(xs, n); |d| <= |all| && d == all[|all| - |d|..]
  {
  }

  lemma SuffixOfRest(all: seq<int>, c: nat, d: seq<int>)
    requires c <= |all| && |d| <= |all| && d == all[|all| - |d|..]
    ensures var rest := all[c..]; |d| <= |rest| ==> d == rest[|rest| - |d|..]
  {
  }

  /** A hand-out keeps it if and only if the push reached the hardware or nothing is pending. */
  lemma HandOutSafeIff(s: Queues, pushed: bool)
    requires InFlight(s) && s.available != [] && s.available[0] !in s.enqueued
    ensures InFlight(HandOut(s, pushed)) <==> pushed || s.pending == []
  {
    var t := HandOut(s, pushed);
    var bd := s.available[0];
    assert t.enqueued[|t.enqueued| - 1] == bd;
    assert s.pending != [] ==> s.pending[|s.pending| - 1] == s.enqueued[|s.enqueued| - 1];
    if pushed {
      assert t.enqueued[|t.enqueued| - |t.pending|..] == s.enqueued[|s.enqueued| - |s.pending|..] + [bd];
    } else if s.pending != [] && InFlight(t) {
      assert false;
    }
  }

  /** A wait keeps it if and only if it is synchronous, or its one query succeeded, or the
      channel had drained by then: a failed non-synchronous wait recycles BDs in flight. */
  lemma {:induction false} WaitSafeIff(s: Queues, sync: bool, tries: seq<Try>)
    requires InFlight(s)
    ensures InFlight(AfterWait(s, sync, tries))
            <==> sync || tries == [] || tries[0].done || |s.pending| <= tries[0].retired
    decreases |tries|
  {
    if tries != [] {
      var t := AfterTry(s, tries[0]);
      assert InFlight(t);
      if sync && !tries[0].done {
        WaitSafeIff(t, sync, tries[1..]);
      }
    }
  }

  /** A failed non-synchronous wait, on the smallest queue: the BD is still pending and is
      handed out again. */
  lemma FailedWaitReusesPending()
    ensures var s := Apply(Configured(0, 1), 1, [Enqueue([], true), Wait(false, [Try(0, false)])]).0;
            && s.pending == [0] && s.available == [0]
            && Handed(s, 1, Enqueue([], true)) == [0]
  {
    var s0 := Configured(0, 1);
    var op0, op1 := Enqueue([], true), Wait(false, [Try(0, false)]);
    assert Owned(0, 1) == [0];
    var s1 := AfterOp(s0, 1, op0);
    assert s1 == Queues([], [0], [0]);
    var s2 := AfterOp(s1, 1, op1);
    assert s2.available == [0] && s2.pending == [0];
    assert Apply(s2, 1, []) == (s2, []);
    assert [op0, op1][1..] == [op1] && [op1][1..] == [];
    assert Apply(s1, 1, [op1]).0 == s2;
  }

  /** The driver tells the truth, or overstates, at every poll that is made. */
  predicate HonestPolls(s: Queues, q: nat, polls: seq<Poll>)
    requires s.available == [] ==> q <= |s.enqueued|
    decreases |polls|
  {
    s.available != [] || polls == [] ||
    (&& |Drop(s.pending, polls[0].retired)| <= polls[0].reported
     && HonestPolls(AfterPoll(s, q, polls[0]), q, polls[1..]))
  }

  predicate HonestOp(s: Queues, q: nat, op: Op)
    requires s.available == [] ==> q <= |s.enqueued|
  {
    match op
    case Enqueue(polls, pushed) => pushed && HonestPolls(s, q, polls)
    case Wait(sync, tries) => sync || tries == [] || tries[0].done
  }

  lemma {:induction false} PollsKeepInFlight(s: Queues, q: nat, polls: seq<Poll>)
    requires InFlight(s) && |s.enqueued| + |s.available| == q && HonestPolls(s, q, polls)
    ensures InFlight(PollUntilFree(s, q, polls))
    decreases |polls|
  {
    if s.available == [] && polls != [] {
      PollSafeIff(s, q, polls[0]);
      PollsKeepInFlight(AfterPoll(s, q, polls[0]), q, polls[1..]);
    }
  }

  lemma RotatedIsDistinct(s: Queues, channel: nat, q: nat, e: nat)
    requires Rotated(s, Owned(channel, q), e) && s.available != []
    ensures s.available[0] !in s.enqueued
  {
    var bds := Owned(channel, q);
    var all := bds[e..] + bds[..e];
    assert forall i, j :: 0 <= i < j < |all| ==> all[i] != all[j];
    assert (s.enqueued + s.available)[|s.enqueued|] == s.available[0];
    assert forall i :: 0 <= i < |s.enqueued| ==> (s.enqueued + s.available)[i] == s.enqueued[i];
  }

  lemma OpKeepsInFlight(s: Queues, channel: nat, q: nat, op: Op, e: nat)
    requires Rotated(s, Owned(channel, q), e) && InFlight(s)
    requires s.available == [] ==> q <= |s.enqueued|
    requires HonestOp(s, q, op)
    ensures InFlight(AfterOp(s, q, op))
    ensures op.Enqueue? ==> forall bd :: bd in Handed(s, q, op) ==>
                              bd !in PollUntilFree(s, q, op.polls).pending
  {
    var bds := Owned(channel, q);
    assert |s.enqueued + s.available| == |bds[e..] + bds[..e]|;
    match op {
      case Enqueue(polls, pushed) =>
        PollsKeepInFlight(s, q, polls);
        var f := PollRotates(s, q, polls, bds, e);
        var t := PollUntilFree(s, q, polls);
        if t.available != [] {
          RotatedIsDistinct(t, channel, q, f);
          HandOutSafeIff(t, pushed);
        }
      case Wait(sync, tries) =>
        WaitSafeIff(s, sync, tries);
    }
  }

  /** Along the run the hardware's BDs stay enqueued, and no BD is handed out while the
      hardware still has it. */
  ghost predicate NeverReused(s: Queues, q: nat, ops: seq<Op>)
    decreases |ops|
  {
    && InFlight(s)
    && (s.available == [] ==> q <= |s.enqueued|)
    && (ops != [] ==>
          && (ops[0].Enqueue? ==> forall bd :: bd in Handed(s, q, ops[0]) ==>
                                    bd !in PollUntilFree(s, q, ops[0].polls).pending)
          && NeverReused(AfterOp(s, q, ops[0]), q, ops[1..]))
  }

  ghost predicate HonestRun(s: Queues, q: nat, ops: seq<Op>)
    decreases |ops|
  {
    ops == [] || (s.available == [] && |s.enqueued| < q) ||
    (HonestOp(s, q, ops[0]) && HonestRun(AfterOp(s, q, ops[0]), q, ops[1..]))
  }

  lemma {:induction false} RunKeepsInFlight(s: Queues, channel: nat, q: nat, ops: seq<Op>, e: nat)
    requires Rotated(s, Owned(channel, q), e) && InFlight(s) && HonestRun(s, q, ops)
    ensures NeverReused(s, q, ops)
    decreases |ops|
  {
    var bds := Owned(channel, q);
    assert |s.enqueued + s.available| == |bds[e..] + bds[..e]|;
    if ops != [] {
      OpKeepsInFlight(s, channel, q, ops[0], e);
      var f := OpRotates(s, q, ops[0], bds, e);
      RunKeepsInFlight(AfterOp(s, q, ops[0]), channel, q, ops[1..], f);
    }
  }

  /** In-flight safety: over every sequence of calls in which the driver's counts, pushes and
      waits are truthful, a BD is never handed out while the hardware has it pending. */
  lemma PendingNeverReused(channel: nat, q: nat, ops: seq<Op>)
    requires q > 0 && HonestRun(Configured(channel, q), q, ops)
    ensures NeverReused(Configured(channel, q), q, ops)
  {
    var bds := Owned(channel, q);
    assert bds[0..] + bds[..0] == bds;
    RunKeepsInFlight(Configured(channel, q), channel, q, ops, 0);
  }

  // ----- Configuring again ------------------------------------------------------------

  /** Some hand-out of the run is of a BD that the hardware has pending. */
  ghost predicate HandsPending(s: Queues, q: nat, ops: seq<Op>)
    decreases |ops|
  {
    && ops != [] && (s.available == [] ==> q <= |s.enqueued|)
    && (|| (ops[0].Enqueue? && exists bd :: bd in Handed(s, q, ops[0]) && bd in PollUntilFree(s, q, ops[0].polls).pending)
        || HandsPending(AfterOp(s, q, ops[0]), q, ops[1..]))
  }

  lemma {:induction false} NeverMeansNever(s: Queues, q: nat, ops: seq<Op>)
    requires NeverReused(s, q, ops)
    ensures !HandsPending(s, q, ops)
    decreases |ops|
  {
    if ops != [] {
      NeverMeansNever(AfterOp(s, q, ops[0]), q, ops[1..]);
    }
  }

  /** `n` calls of `enqueueBD` that find a BD and push it. */
  function Pushes(n: nat): (ops: seq<Op>)
    ensures |ops| == n
  {
    if n == 0 then [] else [Enqueue([], true)] + Pushes(n - 1)
  }

  lemma {:induction false} AfterPushes(s: Queues, q: nat, n: nat)
    requires n <= |s.available|
    ensures HonestRun(s, q, Pushes(n))
    ensures Apply(s, q, Pushes(n)).0 == Queues(s.available[n..], s.enqueued + s.available[..n], s.pending + s.available[..n])
    decreases n
  {
    if n == 0 {
      assert s.enqueued + [] == s.enqueued && s.pending + [] == s.pending;
    } else {
      var t := HandOut(s, true);
      AfterPushes(t, q, n - 1);
      assert Pushes(n)[1..] == Pushes(n - 1);
      MoveOne(s.enqueued, s.available, n);
      MoveOne(s.pending, s.available, n);
      assert AfterOp(s, q, Pushes(n)[0]) == t;
    }
  }

  lemma MoveOne(a: seq<int>, b: seq<int>, n: nat)
    requires 0 < n <= |b|
    ensures b[1..][n - 1..] == b[n..]
    ensures a + [b[0]] + b[1..][..n - 1] == a + b[..n]
  {
    assert [b[0]] + b[1..][..n - 1] == b[..n];
  }

  /** `configure` run twice puts every BD in the queue twice. For every channel and queue size,
      once the hardware has its queue full of them, the next one handed out is one of them. */
  lemma ReconfigureReusesPending(channel: nat, q: nat)
    requires q > 0
    ensures var twice := Queues(Owned(channel, q) + Owned(channel, q), [], []);
            var s := Apply(twice, q, Pushes(q)).0;
            && HonestRun(twice, q, Pushes(q)) && s.pending == Owned(channel, q)
            && s.available != [] && Handed(s, q, Enqueue([], true)) == [s.pending[0]]
  {
    var bds := Owned(channel, q);
    AfterPushes(Queues(bds + bds, [], []), q, q);
    assert (bds + bds)[..q] == bds && (bds + bds)[q..] == bds;
  }

  /** A BD that is pending and waits to be handed out will be. */
  lemma {:induction false} PendingComesUp(s: Queues, q: nat, j: nat)
    requires j < |s.available| && s.available[j] in s.pending
    ensures HonestRun(s, q, Pushes(j + 1)) && HandsPending(s, q, Pushes(j + 1))
    decreases j
  {
    assert Pushes(j + 1)[1..] == Pushes(j);
    AfterPushes(s, q, j + 1);
    if j == 0 {
      assert s.available[0] in Handed(s, q, Pushes(1)[0]);
    } else {
      var t := HandOut(s, true);
      assert t.available[j - 1] == s.available[j];
      PendingComesUp(t, q, j - 1);
    }
  }

  lemma {:induction false} DuplicateComesUp(s: Queues, q: nat, i: nat, j: nat)
    requires i < j < |s.available| && s.available[i] == s.available[j]
    ensures HonestRun(s, q, Pushes(j + 1)) && HandsPending(s, q, Pushes(j + 1))
    decreases i
  {
    assert Pushes(j + 1)[1..] == Pushes(j);
    AfterPushes(s, q, j + 1);
    var t := HandOut(s, true);
    assert t.available[j - 1] == s.available[j];
    if i == 0 {
      assert t.pending[|t.pending| - 1] == s.available[0];
      PendingComesUp(t, q, j - 1);
    } else {
      assert t.available[i - 1] == s.available[i];
      DuplicateComesUp(t, q, i - 1, j - 1);
    }
  }

  ghost predicate Distinct(xs: seq<int>) {
    forall i, j :: 0 <= i < j < |xs| ==> xs[i] != xs[j]
  }

  lemma {:induction false} DistinctFit(xs: seq<int>, ys: seq<int>)
    requires Distinct(xs) && forall x :: x in xs ==> x in ys
    ensures |xs| <= |ys|
    decreases |xs|
  {
    if xs != [] {
      assert xs[0] in xs;
      var k :| 0 <= k < |ys| && ys[k] == xs[0];
      var rest := ys[..k] + ys[k + 1..];
      forall x | x in xs[1..]
        ensures x in rest
      {
        assert x in ys;
        var m :| 0 <= m < |ys| && ys[m] == x;
        assert rest[if m < k then m else m - 1] == x;
      }
      DistinctFit(xs[1..], rest);
    }
  }

  /** What happens to an object: a `configure` past its type check, which the driver accepts or
      not, or a call. */
  datatype Event = Configure(ok: bool) | Call(op: Op)

  datatype Object = Object(configured: bool, queues: Queues)

  /** Calls on an object that is not configured only report an error. The guard on the queue
      sizes is the one of `Apply`, and always holds here. */
  function AfterEvents(channel: nat, q: nat, events: seq<Event>): Object
    decreases |events|
  {
    if events == [] then Object(false, Queues([], [], []))
    else
      var o, e := AfterEvents(channel, q, events[..|events| - 1]), events[|events| - 1];
      var s := o.queues;
      match e
      case Configure(ok) => Object(o.configured || ok, s.(available := s.available + Owned(channel, q)))
      case Call(op) =>
        if !o.configured || (s.available == [] && |s.enqueued| < q) then o else o.(queues := AfterOp(s, q, op))
  }

  function Configures(events: seq<Event>): nat
    decreases |events|
  {
    if events == [] then 0
    else Configures(events[..|events| - 1]) + if events[|events| - 1].Configure? then 1 else 0
  }

  /** The driver was truthful at every call. */
  ghost predicate HonestEvents(channel: nat, q: nat, events: seq<Event>)
    decreases |events|
  {
    events == [] ||
    var before, e := events[..|events| - 1], events[|events| - 1];
    var o := AfterEvents(channel, q, before);
    && HonestEvents(channel, q, before)
    && (e.Call? && o.configured && (o.queues.available == [] ==> q <= |o.queues.enqueued|) ==> HonestOp(o.queues, q, e.op))
  }

  /** The FIFOs hold that many entries, all of them of the channel. */
  ghost predicate Holds(s: Queues, bds: seq<int>, total: nat) {
    && |s.available| + |s.enqueued| == total
    && (forall b :: b in s.available ==> b in bds) && (forall b :: b in s.enqueued ==> b in bds)
  }

  lemma RecycleHolds(s: Queues, bds: seq<int>, total: nat, n: nat)
    requires Holds(s, bds, total) && n <= |s.enqueued|
    ensures Holds(Recycle(s, n), bds, total)
  {
  }

  lemma {:induction false} PollsHold(s: Queues, q: nat, polls: seq<Poll>, bds: seq<int>, total: nat)
    requires Holds(s, bds, total) && q <= total
    ensures Holds(PollUntilFree(s, q, polls), bds, total)
    decreases |polls|
  {
    if s.available == [] && polls != [] {
      RecycleHolds(s, bds, total, Completed(q, polls[0].reported));
      PollsHold(AfterPoll(s, q, polls[0]), q, polls[1..], bds, total);
    }
  }

  lemma {:induction false} WaitHolds(s: Queues, sync: bool, tries: seq<Try>, bds: seq<int>, total: nat)
    requires Holds(s, bds, total)
    ensures Holds(AfterWait(s, sync, tries), bds, total)
    decreases |tries|
  {
    if tries != [] {
      var t := AfterTry(s, tries[0]);
      if sync && !tries[0].done {
        WaitHolds(t, sync, tries[1..], bds, total);
      } else {
        RecycleHolds(t, bds, total, |t.enqueued|);
      }
    }
  }

  lemma OpHolds(s: Queues, q: nat, op: Op, bds: seq<int>, total: nat)
    requires Holds(s, bds, total) && q <= total
    ensures Holds(AfterOp(s, q, op), bds, total)
  {
    match op {
      case Enqueue(polls, pushed) => PollsHold(s, q, polls, bds, total);
      case Wait(sync, tries) => WaitHolds(s, sync, tries, bds, total);
    }
  }

  /** The size of `n` copies of a queue. */
  function Copies(n: nat, q: nat): (c: nat)
    ensures n >= 1 ==> c >= q
    ensures n >= 2 ==> c >= 2 * q
  {
    if n == 0 then 0 else Copies(n - 1, q) + q
  }

  /** After any events the FIFOs hold as many copies of the BDs as there were calls of
      `configure`. */
  lemma {:induction false} EventsHold(channel: nat, q: nat, events: seq<Event>)
    ensures var o := AfterEvents(channel, q, events);
            && Holds(o.queues, Owned(channel, q), Copies(Configures(events), q))
            && (o.configured ==> Configures(events) > 0)
    decreases |events|
  {
    if events != [] {
      var before, e := events[..|events| - 1], events[|events| - 1];
      EventsHold(channel, q, before);
      var o := AfterEvents(channel, q, before);
      if e.Call? && o.configured {
        OpHolds(o.queues, q, e.op, Owned(channel, q), Copies(Configures(before), q));
      }
    }
  }

  ghost predicate OneCopy(s: Queues, channel: nat, q: nat) {
    InFlight(s) && exists e: nat :: Rotated(s, Owned(channel, q), e)
  }

  lemma {:induction false} FirstStaysEmpty(channel: nat, q: nat, events: seq<Event>)
    requires Configures(events) == 0
    ensures AfterEvents(channel, q, events) == Object(false, Queues([], [], []))
    decreases |events|
  {
    if events != [] {
      FirstStaysEmpty(channel, q, events[..|events| - 1]);
    }
  }

  lemma {:induction false} OnceKeepsOneCopy(channel: nat, q: nat, events: seq<Event>)
    requires q > 0 && Configures(events) == 1 && HonestEvents(channel, q, events)
    ensures OneCopy(AfterEvents(channel, q, events).queues, channel, q)
    decreases |events|
  {
    var bds := Owned(channel, q);
    var before, e := events[..|events| - 1], events[|events| - 1];
    if e.Configure? {
      FirstStaysEmpty(channel, q, before);
      assert [] + bds == bds && bds[0..] + bds[..0] == bds;
      assert Rotated(AfterEvents(channel, q, events).queues, bds, 0);
    } else {
      OnceKeepsOneCopy(channel, q, before);
      var s := AfterEvents(channel, q, before).queues;
      if AfterEvents(channel, q, before).configured {
        var r: nat :| Rotated(s, bds, r);
        assert |s.enqueued + s.available| == |bds[r..] + bds[..r]|;
        OpKeepsInFlight(s, channel, q, e.op, r);
        var f := OpRotates(s, q, e.op, bds, r);
      }
    }
  }

  lemma OneCopyNeverReused(s: Queues, channel: nat, q: nat)
    requires OneCopy(s, channel, q)
    ensures forall ops :: HonestRun(s, q, ops) ==> !HandsPending(s, q, ops)
  {
    var e: nat :| Rotated(s, Owned(channel, q), e);
    forall ops | HonestRun(s, q, ops)
      ensures !HandsPending(s, q, ops)
    {
      RunKeepsInFlight(s, channel, q, ops, e);
      NeverMeansNever(s, q, ops);
    }
  }

  /** Wait for everything, then hand out until a BD comes round. */
  lemma TwiceReuses(s: Queues, channel: nat, q: nat, total: nat) returns (ops: seq<Op>)
    requires q > 0 && total > q && Holds(s, Owned(channel, q), total)
    ensures HonestRun(s, q, ops) && HandsPending(s, q, ops) && |ops| <= q + 2
  {
    var wait := Wait(true, [Try(0, true)]);
    var t := AfterOp(s, q, wait);
    var bds := Owned(channel, q);
    OpHolds(s, q, wait, bds, total);
    assert t.enqueued == [];
    var front := t.available[..q + 1];
    if Distinct(front) {
      DistinctFit(front, bds);
      assert false;
    }
    var i, j :| 0 <= i < j < |front| && front[i] == front[j];
    DuplicateComesUp(t, q, i, j);
    ops := [wait] + Pushes(j + 1);
    assert ops[1..] == Pushes(j + 1);
  }

  /** For every channel, queue size and history with a truthful driver: whoever goes on using
      the object can be handed a pending BD, with the driver still truthful, if and only if
      `configure` got past its type check more than once. A first call that the driver fails and
      that is made again counts. */
  lemma ReuseIffConfiguredAgain(channel: nat, q: nat, events: seq<Event>)
    requires q > 0 && HonestEvents(channel, q, events) && AfterEvents(channel, q, events).configured
    ensures var s := AfterEvents(channel, q, events).queues;
            (exists ops :: HonestRun(s, q, ops) && HandsPending(s, q, ops)) <==> Configures(events) >= 2
  {
    var s, n := AfterEvents(channel, q, events).queues, Configures(events);
    EventsHold(channel, q, events);
    if n >= 2 {
      var ops := TwiceReuses(s, channel, q, Copies(n, q));
      assert HonestRun(s, q, ops) && HandsPending(s, q, ops);
    } else {
      OnceKeepsOneCopy(channel, q, events);
      OneCopyNeverReused(s, channel, q);
    }
  }

  // ----- The object -------------------------------------------------------------------

  datatype GmioType = Gm2Aie | Aie2Gm | Gm2Pl | Pl2Gm

  datatype ErrCode = Ok | InternalError | UserError | DriverError | ResourceUnavailable

  datatype Config = NoConfig | Config(kind: GmioType, channelNum: nat)

  /** `Waiting` is a call that has used up the driver answers it was given: it is still in
      its polling loop. */
  datatype Outcome = Returned(err: ErrCode) | Waiting

  class GmioApi {
    const config: Config
    var isConfigured: bool
    var dmaStartQMaxSize: nat
    var availableBDs: seq<int>
    var enqueuedBDs: seq<int>
    var pending: seq<int>  // the shim DMA's own queue

    function View(): Queues
      reads this
    {
      Queues(availableBDs, enqueuedBDs, pending)
    }

    /** What a recycling loop relies on: with nothing available, everything is enqueued. */
    predicate Valid()
      reads this
    {
      isConfigured ==> |availableBDs| + |enqueuedBDs| >= dmaStartQMaxSize
    }

    constructor (config: Config)
      ensures Valid() && !isConfigured && this.config == config
      ensures View() == Queues([], [], [])
    {
      this.config := config;
      isConfigured := false;
      dmaStartQMaxSize := 4;
      availableBDs, enqueuedBDs, pending := [], [], [];
    }

    /** Every `configure` that gets past the type check adds the channel's BDs to the queue,
        also when the driver then reports an error and the object stays unconfigured. */
    method Configure(maxQueue: nat, driverOk: bool) returns (err: ErrCode)
      requires Valid()
      modifies this
      ensures pending == old(pending) && enqueuedBDs == old(enqueuedBDs)
      ensures err == if config.NoConfig? then InternalError
                     else if config.kind.Gm2Pl? || config.kind.Pl2Gm? then DriverError
                     else if driverOk then Ok else DriverError
      ensures if config.NoConfig? || config.kind.Gm2Pl? || config.kind.Pl2Gm?
              then availableBDs == old(availableBDs) && isConfigured == old(isConfigured)
              else availableBDs == old(availableBDs) + Owned(config.channelNum, maxQueue)
                   && dmaStartQMaxSize == maxQueue
                   && isConfigured == (old(isConfigured) || driverOk)
      ensures Valid()
    {
      if config.NoConfig? {
        return InternalError;
      }
      if config.kind.Gm2Pl? || config.kind.Pl2Gm? {
        return DriverError;
      }
      dmaStartQMaxSize := maxQueue;
      ghost var bds := Owned(config.channelNum, maxQueue);
      for j := 0 to maxQueue
        invariant availableBDs == old(availableBDs) + bds[..j]
        invariant enqueuedBDs == old(enqueuedBDs) && pending == old(pending)
        invariant isConfigured == old(isConfigured) && dmaStartQMaxSize == maxQueue
      {
        availableBDs := availableBDs + [config.channelNum * dmaStartQMaxSize + j];
        assert bds[..j + 1] == bds[..j] + [bds[j]];
      }
      assert bds[..maxQueue] == bds;
      if !driverOk {
        return DriverError;
      }
      isConfigured := true;
      return Ok;
    }

    method FrontAndPopEnqueued() returns (bd: int)
      requires enqueuedBDs != []
      modifies this`enqueuedBDs
      ensures bd == old(enqueuedBDs)[0] && enqueuedBDs == old(enqueuedBDs)[1..]
    {
      bd := enqueuedBDs[0];
      enqueuedBDs := enqueuedBDs[1..];
    }

    /** Move the `n` oldest enqueued BDs back, one at a time. */
    method RecycleOldest(n: nat)
      requires n <= |enqueuedBDs|
      modifies this`enqueuedBDs, this`availableBDs
      ensures View() == Recycle(old(View()), n)
    {
      ghost var was := enqueuedBDs;
      var i := 0;
      while i < n
        invariant i <= n <= |was|
        invariant enqueuedBDs == was[i..]
        invariant availableBDs == old(availableBDs) + was[..i]
      {
        var bd := FrontAndPopEnqueued();
        availableBDs := availableBDs + [bd];
        assert was[..i + 1] == was[..i] + [was[i]];
        i := i + 1;
      }
    }

    /** `enqueueBD`, given the driver's answers to its polls, to setting the BD up and to the
        push. A failure of any of them is reported at the end, and changes nothing else. */
    method EnqueueBD(polls: seq<Poll>, setUp: bool, pushed: bool) returns (r: Outcome)
      requires Valid()
      modifies this
      ensures isConfigured == old(isConfigured) && dmaStartQMaxSize == old(dmaStartQMaxSize)
      ensures !isConfigured || config.NoConfig? ==> View() == old(View()) && r == Returned(InternalError)
      ensures isConfigured && !config.NoConfig? ==>
                && View() == AfterEnqueue(old(View()), dmaStartQMaxSize, polls, pushed)
                && (r == Waiting <==> Handed(old(View()), dmaStartQMaxSize, Enqueue(polls, pushed)) == [])
                && (r != Waiting ==>
                      r == Returned(if PollsWork(old(View()), dmaStartQMaxSize, polls) && setUp && pushed
                                    then Ok else DriverError))
      ensures Valid()
    {
      if !isConfigured || config.NoConfig? {
        return Returned(InternalError);
      }
      var q, status := dmaStartQMaxSize, true;
      var k := 0;
      while availableBDs == [] && k < |polls|
        invariant k <= |polls|
        invariant isConfigured && dmaStartQMaxSize == q && Valid()
        invariant PollUntilFree(View(), q, polls[k..]) == PollUntilFree(old(View()), q, polls)
        invariant PollsWork(old(View()), q, polls) == (status && PollsWork(View(), q, polls[k..]))
      {
        ghost var before := View();
        assert polls[k..][1..] == polls[k + 1..];
        status := status && polls[k].ok;
        pending := Drop(pending, polls[k].retired);
        RecycleOldest(Completed(q, polls[k].reported));
        assert View() == AfterPoll(before, q, polls[k]);
        k := k + 1;
      }
      if availableBDs == [] {
        return Waiting;
      }
      var bd := availableBDs[0];
      availableBDs := availableBDs[1..];
      if pushed {
        pending := pending + [bd];
      }
      enqueuedBDs := enqueuedBDs + [bd];
      return Returned(if status && setUp && pushed then Ok else DriverError);
    }

    /** `wait`, given the driver's answers. */
    method Wait(sync: bool, tries: seq<Try>) returns (r: Outcome)
      requires Valid()
      modifies this
      ensures isConfigured == old(isConfigured) && dmaStartQMaxSize == old(dmaStartQMaxSize)
      ensures !isConfigured || config.NoConfig? ==> View() == old(View()) && r == Returned(InternalError)
      ensures isConfigured && config.Config? && (config.kind.Gm2Pl? || config.kind.Pl2Gm?) ==>
                View() == old(View()) && r == Returned(UserError)
      ensures isConfigured && config.Config? && (config.kind.Gm2Aie? || config.kind.Aie2Gm?) ==>
                && View() == AfterWait(old(View()), sync, tries)
                && (r == Waiting <==> tries == [] || (sync && forall t :: t in tries ==> !t.done))
                && (r == Returned(ResourceUnavailable) <==> !sync && tries != [] && !tries[0].done)
                && (r != Waiting && r != Returned(ResourceUnavailable) ==> r == Returned(Ok) && pending == [])
      ensures Valid()
    {
      if !isConfigured || config.NoConfig? {
        return Returned(InternalError);
      }
      if config.kind.Gm2Pl? || config.kind.Pl2Gm? {
        return Returned(UserError);
      }
      var k := 0;
      var done := false;
      while k < |tries| && !done && (sync || k == 0)
        invariant k <= |tries|
        invariant isConfigured == old(isConfigured) && dmaStartQMaxSize == old(dmaStartQMaxSize)
        invariant availableBDs == old(availableBDs) && enqueuedBDs == old(enqueuedBDs)
        invariant done ==> k > 0 && pending == [] && tries[k - 1].done && (sync || k == 1)
        invariant !done ==> forall i :: 0 <= i < k ==> !tries[i].done
        invariant !done && (sync || k == 0) ==>
                    AfterWait(View(), sync, tries[k..]) == AfterWait(old(View()), sync, tries)
        invariant done || (!sync && k > 0) ==>
                    Recycle(View(), |enqueuedBDs|) == AfterWait(old(View()), sync, tries)
      {
        assert tries[k..][1..] == tries[k + 1..];
        pending := if tries[k].done then [] else Drop(pending, tries[k].retired);
        done := tries[k].done;
        k := k + 1;
      }
      if !done && (sync || k == 0) {
        return Waiting;
      }
      RecycleOldest(|enqueuedBDs|);
      return Returned(if done then Ok else ResourceUnavailable);
    }
  }
}
