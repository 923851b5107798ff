/**
 The CERT host queue as a ring shared by the host, which runs `submit_command` or
 `submit_test_command` one after the other, and the microcontroller that consumes it. Steps of
 the two may come in any order that their guards allow.

 The host zeroes the completion signal of the slot at `write_index`, allocates, builds the
 packet in the slot, stores the next index and spins until the signal is not zero.
 */
module CertRing {

  const ENTRIES := 32

  /** What a slot holds: something old, a packet half built, or a packet. */
  datatype Slot<P> = Stale | Partial | Whole(packet: P)

  /** Where the host is in a submission. */
  datatype Host<P> = Idle | Allocating(p: P) | Building(p: P) | Built(p: P) | Waiting

  /** Where the consumer is. */
  datatype Consumer = Looking | Running

  /** The queue memory: the index the host publishes, the slots and the completion signals. */
  datatype Queue<P> = Queue(write: nat, slots: seq<Slot<P>>, signals: seq<nat>)

  /** What has happened: packets published, slot contents the consumer took, statuses it gave,
      statuses that submissions returned. */
  datatype History<P> = History(published: seq<P>, taken: seq<Slot<P>>, given: seq<nat>, returned: seq<nat>)

  /** `index` is the host's copy of the index; `read` is the consumer's position. */
  datatype State<P> = State(queue: Queue<P>, host: Host<P>, index: nat, consumer: Consumer, read: nat, history: History<P>)

  /** `Fail` is an allocation that fails, or a column count that is refused. */
  datatype Step<P> =
    | Begin(p: P) | Fail | StartBuild | FinishBuild | Publish | Return
    | Take | Complete(status: nat)

  predicate Shaped<P>(s: State<P>) {
    |s.queue.slots| == ENTRIES && |s.queue.signals| == ENTRIES && s.queue.write < ENTRIES && s.index < ENTRIES &&
    s.read < ENTRIES
  }

  function Initial<P>(slots: seq<Slot<P>>): State<P> {
    State(Queue(0, slots, seq(ENTRIES, _ => 0)), Idle, 0, Looking, 0, History([], [], [], []))
  }

  predicate Can<P>(s: State<P>, step: Step<P>) {
    Shaped(s) &&
    match step
    case Begin(_) => s.host.Idle?
    case Fail => s.host.Allocating?
    case StartBuild => s.host.Allocating?
    case FinishBuild => s.host.Building?
    case Publish => s.host.Built?
    case Return => s.host.Waiting? && s.queue.signals[s.index] != 0
    case Take => s.consumer.Looking? && s.read != s.queue.write
    case Complete(status) => s.consumer.Running? && status != 0
  }

  function Do<P>(s: State<P>, step: Step<P>): State<P>
    requires Can(s, step)
  {
    var q, h := s.queue, s.history;
    match step
    case Begin(p) =>
      s.(host := Allocating(p), index := q.write, queue := q.(signals := q.signals[q.write := 0]))
    case Fail => s.(host := Idle)
    case StartBuild => s.(host := Building(s.host.p), queue := q.(slots := q.slots[s.index := Partial]))
    case FinishBuild => s.(host := Built(s.host.p), queue := q.(slots := q.slots[s.index := Whole(s.host.p)]))
    case Publish =>
      s.(host := Waiting, queue := q.(write := (s.index + 1) % ENTRIES),
         history := h.(published := h.published + [s.host.p]))
    case Return => s.(host := Idle, history := h.(returned := h.returned + [q.signals[s.index]]))
    case Take => s.(consumer := Running, history := h.(taken := h.taken + [q.slots[s.read]]))
    case Complete(status) =>
      s.(consumer := Looking, read := (s.read + 1) % ENTRIES,
         queue := q.(signals := q.signals[s.read := status]),
         history := h.(given := h.given + [status]))
  }

  predicate IsRun<P>(s: State<P>, steps: seq<Step<P>>)
    decreases |steps|
  {
    steps == [] || (Can(s, steps[0]) && IsRun(Do(s, steps[0]), steps[1..]))
  }

  function After<P>(s: State<P>, steps: seq<Step<P>>): State<P>
    requires IsRun(s, steps)
    decreases |steps|
  {
    if steps == [] then s else After(Do(s, steps[0]), steps[1..])
  }

  // ----- The invariant ----------------------------------------------------------------

  /** Both indices count packets; the consumer takes whole packets in order. */
  ghost predicate Counts<P>(s: State<P>) {
    var n, k, t := |s.history.published|, |s.history.given|, |s.history.taken|;
    && Shaped(s)
    && s.queue.write == n % ENTRIES && s.read == k % ENTRIES
    && k <= n <= k + 1
    && t == (if s.consumer.Running? then k + 1 else k) && t <= n
    && forall j :: 0 <= j < t ==> s.history.taken[j] == Whole(s.history.published[j])
  }

  /** While nothing is published and unfinished, every submission has had its status. */
  ghost predicate Quiet<P>(s: State<P>)
    requires Counts(s)
  {
    !s.host.Waiting? ==>
      && |s.history.published| == |s.history.given| && s.history.returned == s.history.given
      && (!s.host.Idle? ==> s.index == s.queue.write && s.queue.signals[s.index] == 0)
      && (s.host.Built? ==> s.queue.slots[s.index] == Whole(s.host.p))
  }

  /** While the host waits, its slot holds the last packet until the signal has its status. */
  ghost predicate Pending<P>(s: State<P>)
    requires Counts(s)
  {
    s.host.Waiting? ==>
      var n, k := |s.history.published|, |s.history.given|;
      && n > 0 && s.index == (n - 1) % ENTRIES
      && |s.history.returned| == n - 1 && s.history.returned == s.history.given[..n - 1]
      && (k < n ==> s.queue.signals[s.index] == 0 && s.queue.slots[s.index] == Whole(s.history.published[n - 1]))
      && (k == n ==> s.queue.signals[s.index] == s.history.given[n - 1] != 0)
  }

  ghost predicate Inv<P>(s: State<P>) {
    Counts(s) && Quiet(s) && Pending(s)
  }

  lemma InitialInv<P>(slots: seq<Slot<P>>)
    requires |slots| == ENTRIES
    ensures Inv(Initial(slots))
  {
  }

  lemma BuildKeepsInv<P>(s: State<P>, step: Step<P>)
    requires Inv(s) && Can(s, step) && (step.Begin? || step.Fail? || step.StartBuild? || step.FinishBuild?)
    ensures Inv(Do(s, step))
  {
  }

  lemma PublishKeepsInv<P>(s: State<P>)
    requires Inv(s) && Can(s, Publish)
    ensures Inv(Do(s, Publish))
  {
  }

  lemma ReturnKeepsInv<P>(s: State<P>)
    requires Inv(s) && Can(s, Return)
    ensures Inv(Do(s, Return))
  {
  }

  lemma HostKeepsInv<P>(s: State<P>, step: Step<P>)
    requires Inv(s) && Can(s, step) && !step.Take? && !step.Complete?
    ensures Inv(Do(s, step))
  {
    if step.Publish? {
      PublishKeepsInv(s);
    } else if step.Return? {
      ReturnKeepsInv(s);
    } else {
      BuildKeepsInv(s, step);
    }
  }

  lemma ConsumerKeepsInv<P>(s: State<P>, step: Step<P>)
    requires Inv(s) && Can(s, step) && (step.Take? || step.Complete?)
    ensures Inv(Do(s, step))
  {
  }

  lemma {:induction false} RunKeepsInv<P>(s: State<P>, steps: seq<Step<P>>)
    requires Inv(s) && IsRun(s, steps)
    ensures Inv(After(s, steps))
    decreases |steps|
  {
    if steps != [] {
      if steps[0].Take? || steps[0].Complete? {
        ConsumerKeepsInv(s, steps[0]);
      } else {
        HostKeepsInv(s, steps[0]);
      }
      RunKeepsInv(Do(s, steps[0]), steps[1..]);
    }
  }

  // ----- What it says -----------------------------------------------------------------

  /** After any run of any number of submissions: the index counts the published packets modulo
      32; everything the consumer took was a whole packet, the one published in that place; at
      most one packet is unfinished; and every submission returned the status of its own packet. */
  lemma RingIsSafe<P>(slots: seq<Slot<P>>, steps: seq<Step<P>>)
    requires |slots| == ENTRIES && IsRun(Initial(slots), steps)
    ensures var s := After(Initial(slots), steps); var h := s.history;
            && s.queue.write == |h.published| % ENTRIES
            && |h.taken| <= |h.published| <= |h.given| + 1
            && (forall j :: 0 <= j < |h.taken| ==> h.taken[j] == Whole(h.published[j]))
            && |h.returned| <= |h.given| && h.returned == h.given[..|h.returned|]
  {
    InitialInv(slots);
    RunKeepsInv(Initial(slots), steps);
  }

  /** A slot is written only when nothing published is unfinished, so no packet is overwritten
      before the consumer is done with it. */
  lemma WritesOnlyWhenDrained<P>(s: State<P>, step: Step<P>)
    requires Inv(s) && Can(s, step) && Do(s, step).queue.slots != s.queue.slots
    ensures |s.history.published| == |s.history.given| && s.read == s.queue.write && s.consumer.Looking?
  {
  }

  /** A submission that fails leaves the index, the slots and the history alone, and the
      consumer has nothing to do meanwhile. */
  lemma FailureLeavesTheQueue<P(!new)>(s: State<P>, p: P)
    requires Inv(s) && s.host.Idle?
    ensures IsRun(s, [Begin(p), Fail])
    ensures var t := After(s, [Begin(p), Fail]);
            t.queue.write == s.queue.write && t.queue.slots == s.queue.slots && t.history == s.history
    ensures forall step: Step<P> :: (step.Take? || step.Complete?) ==> !Can(s, step) && !Can(Do(s, Begin(p)), step)
  {
    var steps := [Begin(p), Fail];
    var s1 := Do(s, steps[0]);
    assert steps[1..] == [Fail] && steps[1..][1..] == [];
    assert IsRun(s1, [Fail]);
    assert After(s1, [Fail]) == Do(s1, Fail);
  }

  /** How far a waiting submission is from returning. */
  function Rank<P>(s: State<P>): nat {
    if |s.history.given| == |s.history.published| then 1 else if s.consumer.Running? then 2 else 3
  }

  /** A submission that waits returns within three steps of the two sides: one of them can
      always move, and every move is one step nearer. */
  lemma WaitEnds<P(!new)>(s: State<P>) returns (step: Step<P>)
    requires Inv(s) && s.host.Waiting?
    ensures Can(s, step)
    ensures forall other :: Can(s, other) ==> var t := Do(s, other); t.host.Idle? || (t.host.Waiting? && Rank(t) < Rank(s))
  {
    var n, k := |s.history.published|, |s.history.given|;
    if k == n {
      step := Return;
    } else if s.consumer.Running? {
      step := Complete(1);
    } else {
      assert s.read != s.queue.write;
      step := Take;
    }
  }
}
