/**
 The graph life cycle: `graph_api::run`, `wait` and `end` over the graph's set of cores, with
 a driver that may refuse any individual call.

 `Graph` is the state as a value and the functions on it say what each call does; `GraphApi`
 is the object, whose loops visit the cores one at a time.
 */
module GraphLifecycle {

  /** Per core: is it enabled, and how many end words were written since the last successful
      run (the word in front of the iteration counter that tells a core to finish). */
  datatype Graph = Graph(isRunning: bool, enabled: seq<bool>, endWords: seq<nat>)

  /** The driver's answers to one call: the timer, and per core the write of the end word,
      the enable, and the disable. `disable` answers the loop of `wait`, `disableAgain` the
      end sequence. */
  datatype Answers = Answers(timer: bool, word: seq<bool>, enable: seq<bool>,
                             disable: seq<bool>, disableAgain: seq<bool>)

  predicate Sized(g: Graph, triggered: seq<bool>) {
    |g.enabled| == |g.endWords| == |triggered|
  }

  predicate AnswersFor(a: Answers, n: nat) {
    |a.word| == |a.enable| == |a.disable| == |a.disableAgain| == n
  }

  predicate All(xs: seq<bool>) {
    forall i :: 0 <= i < |xs| ==> xs[i]
  }

  /** Every driver call of the answers succeeds. */
  predicate WellBehaved(a: Answers) {
    a.timer && All(a.word) && All(a.enable) && All(a.disable) && All(a.disableAgain)
  }

  /** Did every call made on a non-triggered core succeed? */
  predicate AllWaited(triggered: seq<bool>, ok: seq<bool>)
    requires |ok| == |triggered|
  {
    forall i :: 0 <= i < |ok| ==> triggered[i] || ok[i]
  }

  /** `run()`: enable every core; the graph runs only if the timer and every enable worked. */
  function AfterRun(g: Graph, a: Answers): Graph
    requires |a.enable| == |g.enabled| == |g.endWords|
  {
    var e := seq(|g.enabled|, i requires 0 <= i < |g.enabled| => g.enabled[i] || a.enable[i]);
    if All(a.enable) && (a.timer || |e| == 0)
    then Graph(true, e, seq(|e|, _ => 0))
    else g.(enabled := e)
  }

  function Disabled(enabled: seq<bool>, triggered: seq<bool>, ok: seq<bool>): (r: seq<bool>)
    requires |enabled| == |triggered| == |ok|
    ensures |r| == |enabled|
  {
    seq(|enabled|, i requires 0 <= i < |enabled| => enabled[i] && (triggered[i] || !ok[i]))
  }

  /** `wait()`: disable every non-triggered core once it is done. */
  function AfterWait(g: Graph, triggered: seq<bool>, a: Answers): Graph
    requires Sized(g, triggered) && |a.disable| == |triggered|
  {
    g.(enabled := Disabled(g.enabled, triggered, a.disable),
       isRunning := g.isRunning && !AllWaited(triggered, a.disable))
  }

  /** The end sequence of one core: write the end word, enable, wait, disable. */
  function Restarted(enabled: bool, a: Answers, i: nat): bool
    requires i < |a.enable| && i < |a.disableAgain|
  {
    (enabled || a.enable[i]) && !a.disableAgain[i]
  }

  /** `end()`: wait, and if the graph was running until then, run the end sequence. */
  function AfterEnd(g: Graph, triggered: seq<bool>, a: Answers): Graph
    requires Sized(g, triggered) && AnswersFor(a, |triggered|)
  {
    var w := AfterWait(g, triggered, a);
    if !g.isRunning || !AllWaited(triggered, a.disable) then w
    else Graph(false,
               seq(|triggered|, i requires 0 <= i < |triggered| =>
                 if triggered[i] then w.enabled[i] else Restarted(w.enabled[i], a, i)),
               seq(|triggered|, i requires 0 <= i < |triggered| =>
                 g.endWords[i] + if !triggered[i] && a.word[i] then 1 else 0))
  }

  /** `wait(cycleTimeout)`: disable every core, triggered or not, when the time is up. */
  function AfterWaitTimeout(g: Graph, a: Answers): Graph
    requires |a.disable| == |g.enabled|
  {
    g.(enabled := seq(|g.enabled|, i requires 0 <= i < |g.enabled| => g.enabled[i] && !a.disable[i]),
       isRunning := g.isRunning && !(All(a.disable) && (a.timer || |g.enabled| == 0)))
  }

  /** `end(cycleTimeout)`: then write the end word of every core, every time it is called. */
  function AfterEndTimeout(g: Graph, a: Answers): Graph
    requires |a.disable| == |a.word| == |g.enabled| == |g.endWords|
  {
    var w := AfterWaitTimeout(g, a);
    if !(All(a.disable) && (a.timer || |g.enabled| == 0)) then w
    else w.(endWords := seq(|g.endWords|, i requires 0 <= i < |g.endWords| =>
                          g.endWords[i] + if a.word[i] then 1 else 0))
  }

  // ----- What every call keeps --------------------------------------------------------

  /** A graph that is not running has every core it waits for disabled. */
  predicate Quiet(g: Graph, triggered: seq<bool>)
    requires Sized(g, triggered)
  {
    !g.isRunning ==> forall i :: 0 <= i < |triggered| ==> triggered[i] || !g.enabled[i]
  }

  /** Since the last successful run, no core was told to finish twice, or before its time. */
  predicate EndedOnce(g: Graph) {
    forall i :: 0 <= i < |g.endWords| ==> g.endWords[i] <= if g.isRunning then 0 else 1
  }

  /** With any driver, a run leaves a quiet graph quiet if and only if it succeeded, or the
      graph was already running, or it enabled no core that `wait` would disable. */
  lemma RunQuietIff(g: Graph, triggered: seq<bool>, a: Answers)
    requires Sized(g, triggered) && AnswersFor(a, |triggered|) && Quiet(g, triggered)
    ensures Quiet(AfterRun(g, a), triggered)
            <==> || (All(a.enable) && (a.timer || |triggered| == 0))
                 || g.isRunning
                 || (forall i :: 0 <= i < |triggered| ==> triggered[i] || !a.enable[i])
  {
    var r := AfterRun(g, a);
    if !r.isRunning && Quiet(r, triggered) {
      forall i | 0 <= i < |triggered| && !triggered[i]
        ensures !a.enable[i]
      {
        assert !r.enabled[i];
      }
    }
  }

  /** With any driver, an end leaves a quiet graph quiet if and only if no core that the end
      sequence enabled stayed enabled because its second disable was refused. */
  lemma EndQuietIff(g: Graph, triggered: seq<bool>, a: Answers)
    requires Sized(g, triggered) && AnswersFor(a, |triggered|) && Quiet(g, triggered)
    ensures Quiet(AfterEnd(g, triggered, a), triggered)
            <==> || !g.isRunning || !AllWaited(triggered, a.disable)
                 || (forall i :: 0 <= i < |triggered| ==>
                       triggered[i] || !a.enable[i] || a.disableAgain[i])
  {
    var r := AfterEnd(g, triggered, a);
    if g.isRunning && AllWaited(triggered, a.disable) && Quiet(r, triggered) {
      forall i | 0 <= i < |triggered| && !triggered[i]
        ensures !a.enable[i] || a.disableAgain[i]
      {
        assert !r.enabled[i];
      }
    }
  }

  /** What a run, with any driver, leaves of every core: it is enabled if it was, or if its enable
      worked. The graph runs if and only if it did, or the timer and every enable worked, and only
      then the end words count from nothing again. */
  lemma RunLeaves(g: Graph, triggered: seq<bool>, a: Answers)
    requires Sized(g, triggered) && AnswersFor(a, |triggered|)
    ensures var w, n := AfterRun(g, a), |triggered|;
            var worked := (forall i :: 0 <= i < n ==> a.enable[i]) && (a.timer || n == 0);
            && |w.enabled| == |w.endWords| == n
            && (forall i :: 0 <= i < n ==> (w.enabled[i] <==> g.enabled[i] || a.enable[i]))
            && (w.isRunning <==> g.isRunning || worked)
            && (forall i :: 0 <= i < n ==> w.endWords[i] == if worked then 0 else g.endWords[i])
  {
  }

  /** A whole life on a driver that refuses nothing: `run` and `end` leave every core that is
      waited for disabled with exactly one end word, and every triggered one enabled with none;
      with a `wait` in between there is no end word at all. */
  lemma LifeCycle(g: Graph, triggered: seq<bool>, a: Answers, b: Answers, i: nat)
    requires Sized(g, triggered) && AnswersFor(a, |triggered|) && AnswersFor(b, |triggered|)
    requires WellBehaved(a) && WellBehaved(b) && i < |triggered|
    ensures var r := AfterRun(g, a);
            var e, w := AfterEnd(r, triggered, b), AfterWait(r, triggered, b);
            && r.isRunning && r.enabled[i] && r.endWords[i] == 0
            && !e.isRunning && e.enabled[i] == triggered[i] && e.endWords[i] == (if triggered[i] then 0 else 1)
            && !w.isRunning && w.enabled[i] == triggered[i] && w.endWords[i] == 0
            && AfterEnd(w, triggered, b).endWords[i] == 0
  {
    RunLeaves(g, triggered, a);
  }

  /** A timed wait leaves a core enabled only if its disable was refused, triggered or not, and a
      timed end that gets through writes an end word to every core whose write works. */
  lemma TimedLeaves(g: Graph, triggered: seq<bool>, a: Answers)
    requires Sized(g, triggered) && AnswersFor(a, |triggered|)
    ensures var w, e, n := AfterWaitTimeout(g, a), AfterEndTimeout(g, a), |triggered|;
            var worked := (forall i :: 0 <= i < n ==> a.disable[i]) && (a.timer || n == 0);
            && |w.enabled| == n && w.endWords == g.endWords && e.enabled == w.enabled && |e.endWords| == n
            && (forall i :: 0 <= i < n ==> (w.enabled[i] <==> g.enabled[i] && !a.disable[i]))
            && (w.isRunning <==> g.isRunning && !worked) && e.isRunning == w.isRunning
            && (forall i :: 0 <= i < n ==> e.endWords[i] == g.endWords[i] + if worked && a.word[i] then 1 else 0)
  {
  }

  /** What a wait, with any driver, leaves of every core: a triggered one is left alone, and any
      other one stays enabled only if its disable was refused. The graph goes on running if and
      only if it was, and one was. No end word is written. */
  lemma WaitLeaves(g: Graph, triggered: seq<bool>, a: Answers)
    requires Sized(g, triggered) && AnswersFor(a, |triggered|)
    ensures var w := AfterWait(g, triggered, a);
            && |w.enabled| == |triggered| && w.endWords == g.endWords
            && (forall i :: 0 <= i < |triggered| && triggered[i] ==> w.enabled[i] == g.enabled[i])
            && (forall i :: 0 <= i < |triggered| && !triggered[i] ==> (w.enabled[i] <==> g.enabled[i] && !a.disable[i]))
            && (w.isRunning <==> g.isRunning && exists i :: 0 <= i < |triggered| && !triggered[i] && !a.disable[i])
  {
    if AllWaited(triggered, a.disable) {
      assert forall i :: 0 <= i < |triggered| ==> triggered[i] || a.disable[i];
    }
  }

  /** A wait, with any driver, keeps a quiet graph quiet. */
  lemma WaitStaysQuiet(g: Graph, triggered: seq<bool>, a: Answers)
    requires Sized(g, triggered) && AnswersFor(a, |triggered|) && Quiet(g, triggered)
    ensures Quiet(AfterWait(g, triggered, a), triggered)
  {
  }

  /** The end word reaches exactly the non-triggered cores of a graph that was running when
      `end` was called: after a `wait` it is never written at all. */
  lemma EndWordIffRunning(g: Graph, triggered: seq<bool>, a: Answers, i: nat)
    requires Sized(g, triggered) && AnswersFor(a, |triggered|) && WellBehaved(a) && i < |triggered|
    ensures AfterEnd(g, triggered, a).endWords[i] == g.endWords[i] + 1
            <==> g.isRunning && !triggered[i]
    ensures AfterEnd(AfterWait(g, triggered, a), triggered, a).endWords == g.endWords
  {
  }

  /** Ending a graph that has already ended, or that was waited for, changes nothing. */
  lemma EndAgainChangesNothing(g: Graph, triggered: seq<bool>, a: Answers, b: Answers)
    requires Sized(g, triggered) && Quiet(g, triggered)
    requires AnswersFor(a, |triggered|) && WellBehaved(a)
    requires AnswersFor(b, |triggered|) && WellBehaved(b)
    ensures AfterEnd(AfterEnd(g, triggered, a), triggered, b) == AfterEnd(g, triggered, a)
    ensures AfterEnd(AfterWait(g, triggered, a), triggered, b) == AfterWait(g, triggered, a)
  {
    var e, w := AfterEnd(g, triggered, a), AfterWait(g, triggered, a);
    assert AfterEnd(e, triggered, b).enabled == e.enabled;
    assert AfterEnd(w, triggered, b).enabled == w.enabled;
  }

  /** The timed end keeps the single-end-word rule if and only if every core it writes to has had
      no end word yet, or it gave up before writing. */
  lemma TimedEndOnceIff(g: Graph, a: Answers)
    requires |a.disable| == |a.word| == |g.enabled| == |g.endWords| && EndedOnce(g)
    ensures EndedOnce(AfterEndTimeout(g, a))
            <==> || !(All(a.disable) && (a.timer || |g.enabled| == 0))
                 || (forall i :: 0 <= i < |g.endWords| ==> !a.word[i] || g.endWords[i] == 0)
  {
    var r := AfterEndTimeout(g, a);
    if EndedOnce(r) && All(a.disable) && (a.timer || |g.enabled| == 0) {
      forall i | 0 <= i < |g.endWords| && a.word[i]
        ensures g.endWords[i] == 0
      {
        assert r.endWords[i] <= 1;
      }
    }
  }

  /** A timed wait, with any driver, keeps a quiet graph quiet, and so does a timed end. */
  lemma TimedStaysQuiet(g: Graph, triggered: seq<bool>, a: Answers)
    requires Sized(g, triggered) && AnswersFor(a, |triggered|) && Quiet(g, triggered)
    ensures Quiet(AfterWaitTimeout(g, a), triggered) && Quiet(AfterEndTimeout(g, a), triggered)
  {
    assert g.isRunning && All(a.disable) ==>
        forall i :: 0 <= i < |triggered| ==> !AfterWaitTimeout(g, a).enabled[i];
  }

  datatype Call =
    | Run(a: Answers) | Wait(a: Answers) | End(a: Answers)
    | TimedWait(a: Answers) | TimedEnd(a: Answers)

  function AfterCall(g: Graph, triggered: seq<bool>, c: Call): Graph
    requires Sized(g, triggered) && AnswersFor(c.a, |triggered|)
  {
    match c
    case Run(a) => AfterRun(g, a)
    case Wait(a) => AfterWait(g, triggered, a)
    case End(a) => AfterEnd(g, triggered, a)
    case TimedWait(a) => AfterWaitTimeout(g, a)
    case TimedEnd(a) => AfterEndTimeout(g, a)
  }

  function AfterCalls(g: Graph, triggered: seq<bool>, cs: seq<Call>): (r: Graph)
    requires Sized(g, triggered)
    requires forall c :: c in cs ==> AnswersFor(c.a, |triggered|)
    ensures Sized(r, triggered)
    decreases |cs|
  {
    if cs == [] then g
    else AfterCall(AfterCalls(g, triggered, cs[..|cs| - 1]), triggered, cs[|cs| - 1])
  }

  /** What a call has to meet, in the state it finds, to tell no core to finish twice. */
  predicate EndsOnce(g: Graph, triggered: seq<bool>, c: Call)
    requires Sized(g, triggered) && AnswersFor(c.a, |triggered|)
  {
    c.TimedEnd? ==>
      || !(All(c.a.disable) && (c.a.timer || |triggered| == 0))
      || (forall i :: 0 <= i < |triggered| ==> !c.a.word[i] || g.endWords[i] == 0)
  }

  lemma CallEndsOnceIff(g: Graph, triggered: seq<bool>, c: Call)
    requires Sized(g, triggered) && AnswersFor(c.a, |triggered|) && EndedOnce(g)
    ensures EndedOnce(AfterCall(g, triggered, c)) <==> EndsOnce(g, triggered, c)
  {
    if c.TimedEnd? {
      TimedEndOnceIff(g, c.a);
    }
  }

  /** No core has had a second end word, before or after any of the calls. */
  ghost predicate OnceThroughout(g: Graph, triggered: seq<bool>, cs: seq<Call>)
    requires Sized(g, triggered) && forall c :: c in cs ==> AnswersFor(c.a, |triggered|)
    decreases |cs|
  {
    && EndedOnce(AfterCalls(g, triggered, cs))
    && (cs != [] ==> OnceThroughout(g, triggered, cs[..|cs| - 1]))
  }

  /** Every call meets its condition in the state the calls before it left. */
  ghost predicate EachEndsOnce(g: Graph, triggered: seq<bool>, cs: seq<Call>)
    requires Sized(g, triggered) && forall c :: c in cs ==> AnswersFor(c.a, |triggered|)
    decreases |cs|
  {
    cs != [] ==>
      && EachEndsOnce(g, triggered, cs[..|cs| - 1])
      && EndsOnce(AfterCalls(g, triggered, cs[..|cs| - 1]), triggered, cs[|cs| - 1])
  }

  /** Over every sequence of calls, timed or not, and whatever the driver answers, no core gets a
      second end word before the next successful run if and only if every timed end gives up
      before writing or writes only to cores that have had none. */
  lemma {:induction false} EndedOnceIff(g: Graph, triggered: seq<bool>, cs: seq<Call>)
    requires Sized(g, triggered) && EndedOnce(g)
    requires forall c :: c in cs ==> AnswersFor(c.a, |triggered|)
    ensures OnceThroughout(g, triggered, cs) <==> EachEndsOnce(g, triggered, cs)
    decreases |cs|
  {
    if cs != [] {
      var before := cs[..|cs| - 1];
      EndedOnceIff(g, triggered, before);
      if OnceThroughout(g, triggered, before) {
        CallEndsOnceIff(AfterCalls(g, triggered, before), triggered, cs[|cs| - 1]);
      }
    }
  }

  /** So it never happens without timed ends. */
  lemma {:induction false} NeverEndedTwice(g: Graph, triggered: seq<bool>, cs: seq<Call>)
    requires Sized(g, triggered) && EndedOnce(g)
    requires forall c :: c in cs ==> AnswersFor(c.a, |triggered|) && !c.TimedEnd?
    ensures OnceThroughout(g, triggered, cs)
    decreases |cs|
  {
    if cs != [] {
      var before := cs[..|cs| - 1];
      NeverEndedTwice(g, triggered, before);
      CallEndsOnceIff(AfterCalls(g, triggered, before), triggered, cs[|cs| - 1]);
    }
  }

  /** What a call has to meet, in the state it finds, to leave a quiet graph quiet. */
  predicate StaysQuiet(g: Graph, triggered: seq<bool>, c: Call)
    requires Sized(g, triggered) && AnswersFor(c.a, |triggered|)
  {
    match c
    case Run(a) =>
      || (All(a.enable) && (a.timer || |triggered| == 0))
      || g.isRunning
      || (forall i :: 0 <= i < |triggered| ==> triggered[i] || !a.enable[i])
    case End(a) =>
      || !g.isRunning || !AllWaited(triggered, a.disable)
      || (forall i :: 0 <= i < |triggered| ==> triggered[i] || !a.enable[i] || a.disableAgain[i])
    case _ => true
  }

  lemma CallQuietIff(g: Graph, triggered: seq<bool>, c: Call)
    requires Sized(g, triggered) && AnswersFor(c.a, |triggered|) && Quiet(g, triggered)
    ensures Quiet(AfterCall(g, triggered, c), triggered) <==> StaysQuiet(g, triggered, c)
  {
    match c {
      case Run(a) => RunQuietIff(g, triggered, a);
      case Wait(a) => WaitStaysQuiet(g, triggered, a);
      case End(a) => EndQuietIff(g, triggered, a);
      case TimedWait(a) => TimedStaysQuiet(g, triggered, a);
      case TimedEnd(a) => TimedStaysQuiet(g, triggered, a);
    }
  }

  /** The graph is quiet before and after every one of the calls. */
  ghost predicate QuietThroughout(g: Graph, triggered: seq<bool>, cs: seq<Call>)
    requires Sized(g, triggered) && forall c :: c in cs ==> AnswersFor(c.a, |triggered|)
    decreases |cs|
  {
    && Quiet(AfterCalls(g, triggered, cs), triggered)
    && (cs != [] ==> QuietThroughout(g, triggered, cs[..|cs| - 1]))
  }

  /** Every call meets its condition in the state the calls before it left. */
  ghost predicate EachStaysQuiet(g: Graph, triggered: seq<bool>, cs: seq<Call>)
    requires Sized(g, triggered) && forall c :: c in cs ==> AnswersFor(c.a, |triggered|)
    decreases |cs|
  {
    cs != [] ==>
      && EachStaysQuiet(g, triggered, cs[..|cs| - 1])
      && StaysQuiet(AfterCalls(g, triggered, cs[..|cs| - 1]), triggered, cs[|cs| - 1])
  }

  /** Over every sequence of calls, timed or not, and with every driver, "not running" means "every
      core it waits for is disabled", before and after every call, if and only if every call
      meets its condition in the state it finds. */
  lemma {:induction false} StoppedMeansDisabledIff(g: Graph, triggered: seq<bool>, cs: seq<Call>)
    requires Sized(g, triggered) && Quiet(g, triggered)
    requires forall c :: c in cs ==> AnswersFor(c.a, |triggered|)
    ensures QuietThroughout(g, triggered, cs) <==> EachStaysQuiet(g, triggered, cs)
    decreases |cs|
  {
    if cs != [] {
      var before := cs[..|cs| - 1];
      StoppedMeansDisabledIff(g, triggered, before);
      if QuietThroughout(g, triggered, before) {
        CallQuietIff(AfterCalls(g, triggered, before), triggered, cs[|cs| - 1]);
      }
    }
  }

  /** A driver that refuses nothing meets every condition, so on it the rule always holds. */
  lemma {:induction false} StoppedMeansDisabled(g: Graph, triggered: seq<bool>, cs: seq<Call>)
    requires Sized(g, triggered) && Quiet(g, triggered)
    requires forall c :: c in cs ==> AnswersFor(c.a, |triggered|) && WellBehaved(c.a)
    ensures QuietThroughout(g, triggered, cs)
    decreases |cs|
  {
    if cs != [] {
      var before := cs[..|cs| - 1];
      StoppedMeansDisabled(g, triggered, before);
      CallQuietIff(AfterCalls(g, triggered, before), triggered, cs[|cs| - 1]);
    }
  }

  /** Two timed ends in a row write a core's end word twice. */
  lemma TimedEndRepeats()
    ensures var a := Answers(true, [true], [true], [true], [true]);
            var g := AfterRun(Graph(false, [false], [0]), a);
            AfterEndTimeout(AfterEndTimeout(g, a), a).endWords == [2]
  {
    var a := Answers(true, [true], [true], [true], [true]);
    var g := AfterRun(Graph(false, [false], [0]), a);
    assert g.endWords == [0];
    var e := AfterEndTimeout(g, a);
    assert e.endWords == [1];
    assert AfterEndTimeout(e, a).endWords == [2];
  }

  // ----- The object -------------------------------------------------------------------

  datatype ErrCode = Ok | InternalError | DriverError

  class GraphApi {
    const triggered: seq<bool>
    var isConfigured: bool
    var isRunning: bool
    var enabled: seq<bool>    // the device: one entry per core tile
    var endWords: seq<nat>    // the device, as seen since the last successful run

    function View(): Graph
      reads this
    {
      Graph(isRunning, enabled, endWords)
    }

    predicate Valid()
      reads this
    {
      Sized(View(), triggered)
    }

    constructor (triggered: seq<bool>)
      ensures Valid() && !isConfigured && this.triggered == triggered
      ensures Quiet(View(), triggered) && EndedOnce(View())
    {
      this.triggered := triggered;
      isConfigured, isRunning := false, false;
      enabled := seq(|triggered|, _ => false);
      endWords := seq(|triggered|, _ => 0);
    }

    /** `configure` accepts a configuration whose per-core vectors all have one length. */
    method Configure(lengths: seq<nat>) returns (err: ErrCode)
      requires Valid()
      modifies this`isConfigured
      ensures err == Ok <==> forall n :: n in lengths ==> n == |triggered|
      ensures isConfigured == (old(isConfigured) || err == Ok)
    {
      for i := 0 to |lengths|
        invariant forall k :: 0 <= k < i ==> lengths[k] == |triggered|
        invariant isConfigured == old(isConfigured)
      {
        if lengths[i] != |triggered| {
          assert lengths[i] in lengths;
          return InternalError;
        }
      }
      isConfigured := true;
      return Ok;
    }

    method Run(a: Answers) returns (err: ErrCode)
      requires Valid() && AnswersFor(a, |triggered|)
      modifies this`isRunning, this`enabled, this`endWords
      ensures Valid()
      ensures !isConfigured ==> View() == old(View()) && err == DriverError
      ensures isConfigured ==>
                && View() == AfterRun(old(View()), a)
                && (err == Ok <==> All(a.enable) && (a.timer || |triggered| == 0))
    {
      if !isConfigured {
        return DriverError;
      }
      var ok := |triggered| == 0 || a.timer;
      for i := 0 to |triggered|
        invariant |enabled| == |triggered| && isRunning == old(isRunning) && endWords == old(endWords)
        invariant ok == ((|triggered| == 0 || a.timer) && All(a.enable[..i]))
        invariant forall k :: 0 <= k < |triggered| ==>
                    enabled[k] == (old(enabled)[k] || (k < i && a.enable[k]))
      {
        if a.enable[i] {
          enabled := enabled[i := true];
        }
        ok := ok && a.enable[i];
        assert a.enable[..i + 1] == a.enable[..i] + [a.enable[i]];
      }
      assert a.enable[..|triggered|] == a.enable;
      assert enabled == AfterRun(old(View()), a).enabled;
      if !ok {
        return DriverError;
      }
      isRunning := true;
      endWords := seq(|triggered|, _ => 0);
      return Ok;
    }

    method Wait(a: Answers) returns (err: ErrCode)
      requires Valid() && AnswersFor(a, |triggered|)
      modifies this`isRunning, this`enabled
      ensures Valid()
      ensures !isConfigured ==> View() == old(View()) && err == DriverError
      ensures isConfigured ==>
                && View() == AfterWait(old(View()), triggered, a)
                && (err == Ok <==> AllWaited(triggered, a.disable))
    {
      if !isConfigured {
        return DriverError;
      }
      var ok := true;
      for i := 0 to |triggered|
        invariant |enabled| == |triggered| && isRunning == old(isRunning)
        invariant ok == AllWaited(triggered[..i], a.disable[..i])
        invariant forall k :: 0 <= k < |triggered| ==>
                    enabled[k] == (old(enabled)[k] && (k >= i || triggered[k] || !a.disable[k]))
      {
        if !triggered[i] {
          if a.disable[i] {
            enabled := enabled[i := false];
          }
          ok := ok && a.disable[i];
        }
        assert triggered[..i + 1] == triggered[..i] + [triggered[i]];
        assert a.disable[..i + 1] == a.disable[..i] + [a.disable[i]];
      }
      assert triggered[..|triggered|] == triggered && a.disable[..|triggered|] == a.disable;
      assert enabled == AfterWait(old(View()), triggered, a).enabled;
      if !ok {
        return DriverError;
      }
      isRunning := false;
      return Ok;
    }

    /** The end sequence worked on each of the first `n` cores it visits. */
    predicate EndSequenceOk(a: Answers, n: nat)
      requires n <= |triggered| && AnswersFor(a, |triggered|)
    {
      forall k :: 0 <= k < n ==> triggered[k] || (a.word[k] && a.enable[k] && a.disableAgain[k])
    }

    method End(a: Answers) returns (err: ErrCode)
      requires Valid() && AnswersFor(a, |triggered|)
      modifies this`isRunning, this`enabled, this`endWords
      ensures Valid()
      ensures !isConfigured ==> View() == old(View()) && err == DriverError
      ensures isConfigured ==>
                && View() == AfterEnd(old(View()), triggered, a)
                && (err == Ok <==> AllWaited(triggered, a.disable) && (old(isRunning) ==> EndSequenceOk(a, |triggered|)))
    {
      if !isConfigured {
        return DriverError;
      }
      var isRunningBefore := isRunning;
      err := Wait(a);
      if err != Ok {
        return;
      }
      ghost var waited := enabled;
      var ok := true;
      for i := 0 to |triggered|
        invariant |enabled| == |endWords| == |triggered| && !isRunning
        invariant ok == (isRunningBefore ==> EndSequenceOk(a, i))
        invariant forall k :: 0 <= k < |triggered| ==>
                    enabled[k] == if isRunningBefore && k < i && !triggered[k]
                                  then Restarted(waited[k], a, k) else waited[k]
        invariant forall k :: 0 <= k < |triggered| ==>
                    endWords[k] == old(endWords)[k]
                                   + if isRunningBefore && k < i && !triggered[k] && a.word[k] then 1 else 0
      {
        if isRunningBefore && !triggered[i] {
          if a.word[i] {
            endWords := endWords[i := endWords[i] + 1];
          }
          enabled := enabled[i := Restarted(enabled[i], a, i)];
          ok := ok && a.word[i] && a.enable[i] && a.disableAgain[i];
        }
      }
      assert enabled == AfterEnd(old(View()), triggered, a).enabled;
      assert endWords == AfterEnd(old(View()), triggered, a).endWords;
      return if ok then Ok else DriverError;
    }
  }
}
