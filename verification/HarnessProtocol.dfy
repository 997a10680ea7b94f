// One timed solver run: a child that emits witnesses and at most one result through a queue,
// and a parent that polls, waits and may kill the child at any moment. Steps interleave freely.
module HarnessProtocol {
  import opened Wrappers

  // ----- witnesses -----

  datatype Witness = Witness(version: nat, benchmark: string, solver: string, planningState: string, inputHash: string,
                             referenceReads: int, adapterHints: int, preliminarySolves: int, fallbackEnabled: bool,
                             preassigned: int, prefilled: int, cpHintVars: int, cpHintValues: int, routingHint: bool)

  // What a run is about.
  datatype Job = Job(benchmark: string, solver: string)

  predicate IsDigest(s: string) {
    |s| == 64 && forall i | 0 <= i < |s| :: '0' <= s[i] <= '9' || 'a' <= s[i] <= 'f'
  }

  // A fair start: the right run, a real input, and nothing solved beforehand.
  predicate Passes(job: Job, w: Witness) {
    && w.version == 1 && w.benchmark == job.benchmark && w.solver == job.solver
    && w.planningState != "" && IsDigest(w.inputHash)
    && w.referenceReads == 0 && w.adapterHints == 0 && w.preliminarySolves == 0 && !w.fallbackEnabled
    && w.preassigned == 0 && w.prefilled == 0 && w.cpHintVars == 0 && w.cpHintValues == 0 && !w.routingHint
  }

  // ----- messages and states -----

  datatype Message =
    | Event(fairStart: Witness)
    | Solved(solution: nat, fairStart: Witness)
    | Failed(error: string, fairStart: Witness)
    | Fatal(error: string)
  {
    predicate IsResult() { !Event? }

    function WitnessOf(): Option<Witness> { if Fatal? then None else Some(fairStart) }
  }

  datatype RunError = WatchdogTimeout | NoResult | AdapterError(error: string)

  datatype SolverRun = SolverRun(killed: bool, solution: Option<nat>, fairStart: Option<Witness>, fairStartValid: bool,
                                 runError: Option<RunError>)

  datatype Outcome = Returned(run: SolverRun) | Raised(error: string)

  datatype Child = Working(latest: Option<Witness>) | Finished

  datatype Parent = Polling | AfterKill | AfterExit | Concluded(outcome: Outcome)

  // buffer: put by the child, not yet written; pipe: written, not yet read; message and
  // witness: what the parent has read; produced: the result the child put, if any.
  datatype State = State(child: Child, alive: bool, buffer: seq<Message>, pipe: seq<Message>,
                         message: Option<Message>, fairStart: Option<Witness>, parent: Parent, produced: Option<Message>)

  predicate Init(s: State) {
    s == State(Working(None), true, [], [], None, None, Polling, None)
  }

  // ----- reading the queue -----

  // The parent's result and witness after reading the given messages.
  function Read(messages: seq<Message>, message: Option<Message>, fairStart: Option<Witness>): (Option<Message>, Option<Witness>) {
    if messages == [] then (message, fairStart)
    else
      var last := messages[|messages| - 1];
      var (m, w) := Read(messages[..|messages| - 1], message, fairStart);
      (if last.IsResult() then Some(last) else m, if last.WitnessOf().Some? then last.WitnessOf() else w)
  }

  // Reads until the queue looks empty, which may be before it is.
  method CollectChildMessages(pipe: seq<Message>, seen: nat, resultMessage: Option<Message>, earlier: Option<Witness>)
    returns (message: Option<Message>, fairStart: Option<Witness>)
    requires seen <= |pipe|
    ensures (message, fairStart) == Read(pipe[..seen], resultMessage, earlier)
  {
    message, fairStart := resultMessage, earlier;
    for i := 0 to seen
      invariant (message, fairStart) == Read(pipe[..i], resultMessage, earlier)
    {
      assert pipe[..i + 1][..i] == pipe[..i];
      var next := pipe[i];
      if next.WitnessOf().Some? { fairStart := next.WitnessOf(); }
      if next.Event? { continue; }
      message := Some(next);
    }
  }

  // ----- how a run ends -----

  function KilledRun(fairStart: Option<Witness>): SolverRun {
    SolverRun(true, None, fairStart, fairStart.Some?, Some(WatchdogTimeout))
  }

  function Conclude(message: Option<Message>, fairStart: Option<Witness>): Outcome {
    if message.None? then Returned(SolverRun(false, None, fairStart, fairStart.Some?, Some(NoResult)))
    else match message.value
      case Fatal(error) => Raised(error)
      case Solved(solution, w) => Returned(SolverRun(false, Some(solution), Some(w), true, None))
      case Failed(error, w) => Returned(SolverRun(false, None, Some(w), true, Some(AdapterError(error))))
      case Event(w) => Returned(SolverRun(false, None, fairStart, fairStart.Some?, Some(NoResult)))
  }

  // ----- steps -----

  predicate Put(s: State, s': State, m: Message) {
    s' == s.(child := Finished, buffer := s.buffer + [m], produced := Some(m))
  }

  // The solver emits a witness; a bad one raises, and the solver may swallow that.
  predicate EmitWitness(job: Job, s: State, s': State, w: Witness) {
    && s.alive && s.child.Working?
    && if Passes(job, w) then s' == s.(child := Working(Some(w)), buffer := s.buffer + [Event(w)])
       else s' == s
  }

  // A violation that reaches the child's top level ends it with a fatal message.
  predicate Violate(s: State, s': State, error: string) {
    s.alive && s.child.Working? && Put(s, s', Fatal(error))
  }

  // The solver returns a solution or nothing, with a witness that is checked first.
  predicate ReturnResult(job: Job, s: State, s': State, solution: Option<nat>, w: Witness, error: string) {
    && s.alive && s.child.Working?
    && if !Passes(job, w) then Put(s, s', Fatal(error))
       else if solution.Some? then Put(s, s', Solved(solution.value, w))
       else Put(s, s', Failed(error, w))
  }

  // Any other exception: fatal before the first witness, an ordinary failure after it.
  predicate Throw(s: State, s': State, error: string) {
    && s.alive && s.child.Working?
    && if s.child.latest.None? then Put(s, s', Fatal(error)) else Put(s, s', Failed(error, s.child.latest.value))
  }

  // Leaves without a message.
  predicate Leave(s: State, s': State) {
    s.alive && s.child.Working? && s' == s.(child := Finished)
  }

  predicate Flush(s: State, s': State) {
    s.alive && s.buffer != [] && s' == s.(buffer := s.buffer[1..], pipe := s.pipe + [s.buffer[0]])
  }

  predicate Exit(s: State, s': State) {
    s.alive && s.child.Finished? && s.buffer == [] && s' == s.(alive := false)
  }

  // Dies at any point; what was not written is lost.
  predicate Crash(s: State, s': State) {
    s.alive && s' == s.(alive := false, buffer := [])
  }

  predicate Poll(s: State, s': State, seen: nat) {
    && s.parent.Polling? && seen <= |s.pipe|
    && var (m, w) := Read(s.pipe[..seen], s.message, s.fairStart);
       s' == s.(pipe := s.pipe[seen..], message := m, fairStart := w)
  }

  predicate Kill(s: State, s': State) {
    s.parent.Polling? && s.alive && s' == s.(alive := false, buffer := [], parent := AfterKill)
  }

  predicate SeeExit(s: State, s': State) {
    s.parent.Polling? && !s.alive && s' == s.(parent := AfterExit)
  }

  predicate Finish(s: State, s': State, seen: nat) {
    && (s.parent.AfterKill? || s.parent.AfterExit?) && seen <= |s.pipe|
    && var (m, w) := Read(s.pipe[..seen], s.message, s.fairStart);
       s' == s.(pipe := s.pipe[seen..], message := m, fairStart := w,
                parent := Concluded(if s.parent.AfterKill? then Returned(KilledRun(w)) else Conclude(m, w)))
  }

  ghost predicate Next(job: Job, s: State, s': State) {
    || (exists w :: EmitWitness(job, s, s', w))
    || (exists error :: Violate(s, s', error))
    || (exists solution, w, error :: ReturnResult(job, s, s', solution, w, error))
    || (exists error :: Throw(s, s', error))
    || Leave(s, s') || Flush(s, s') || Exit(s, s') || Crash(s, s')
    || (exists seen :: Poll(s, s', seen))
    || Kill(s, s') || SeeExit(s, s')
    || (exists seen :: Finish(s, s', seen))
  }

  ghost predicate Run(job: Job, t: seq<State>) {
    t != [] && Init(t[0]) && forall i | 0 <= i < |t| - 1 :: Next(job, t[i], t[i + 1])
  }

  // ----- the invariant -----

  ghost predicate AllPass(job: Job, ms: seq<Message>) {
    forall i | 0 <= i < |ms| :: ms[i].Fatal? || Passes(job, ms[i].fairStart)
  }

  // Results among the messages are the one the child put.
  ghost predicate ResultsAre(ms: seq<Message>, produced: Option<Message>) {
    forall i | 0 <= i < |ms| && ms[i].IsResult() :: produced == Some(ms[i])
  }

  ghost function Results(ms: seq<Message>): nat {
    if ms == [] then 0 else Results(ms[..|ms| - 1]) + (if ms[|ms| - 1].IsResult() then 1 else 0)
  }

  function Held(m: Option<Message>): nat { if m.Some? then 1 else 0 }

  ghost predicate Inv(job: Job, s: State) {
    && AllPass(job, s.buffer) && AllPass(job, s.pipe)
    && ResultsAre(s.buffer, s.produced) && ResultsAre(s.pipe, s.produced)
    && (s.message.Some? ==> s.message == s.produced)
    && (s.produced.Some? ==> s.produced.value.IsResult() && (s.produced.value.Fatal? || Passes(job, s.produced.value.fairStart)))
    && (s.fairStart.Some? ==> Passes(job, s.fairStart.value))
    && (s.child.Working? ==> s.produced.None? && (s.child.latest.Some? ==> Passes(job, s.child.latest.value)))
    && Results(s.buffer) + Results(s.pipe) + Held(s.message) <= Held(s.produced)
    && (s.alive ==> s.parent.Polling?)
    && (s.parent.Concluded? ==> OutcomeOk(job, s))
  }

  // What a concluded run says.
  ghost predicate OutcomeOk(job: Job, s: State)
    requires s.parent.Concluded?
  {
    match s.parent.outcome
    case Raised(error) => s.produced == Some(Fatal(error)) && s.message == s.produced
    case Returned(run) =>
      && run.fairStartValid == run.fairStart.Some?
      && (run.fairStart.Some? ==> Passes(job, run.fairStart.value))
      && (run.solution.Some? ==> run.fairStart.Some? && s.produced == Some(Solved(run.solution.value, run.fairStart.value)))
      && (run.runError.None? <==> run.solution.Some?)
      && (run.killed ==> TimedOut(s, run))
      && (!run.killed ==> Reports(s, run))
  }

  // A killed run: no solution whatever was read, and the last witness read.
  ghost predicate TimedOut(s: State, run: SolverRun) {
    run.solution.None? && run.runError == Some(WatchdogTimeout) && run.fairStart == s.fairStart
  }

  // A run that was not killed passes on the result the parent read, with its own witness.
  ghost predicate Reports(s: State, run: SolverRun) {
    match s.message
    case Some(Solved(solution, w)) => run.solution == Some(solution) && run.fairStart == Some(w) && run.runError.None?
    case Some(Failed(error, w)) => run.solution.None? && run.fairStart == Some(w) && run.runError == Some(AdapterError(error))
    case Some(Fatal(_)) => false
    case _ => run.solution.None? && run.fairStart == s.fairStart && run.runError == Some(NoResult)
  }

  lemma {:induction false} ResultsConcat(a: seq<Message>, b: seq<Message>)
    ensures Results(a + b) == Results(a) + Results(b)
  {
    if b == [] {
      assert a + b == a;
    } else {
      ResultsConcat(a, b[..|b| - 1]);
      assert (a + b)[..|a + b| - 1] == a + b[..|b| - 1];
    }
  }

  lemma {:induction false} NoResults(ms: seq<Message>, produced: Option<Message>)
    requires ResultsAre(ms, produced) && produced.None?
    ensures Results(ms) == 0
  {
    if ms != [] { NoResults(ms[..|ms| - 1], produced); }
  }

  lemma {:induction false} ReadKeeps(job: Job, ms: seq<Message>, message: Option<Message>, fairStart: Option<Witness>,
                                     produced: Option<Message>)
    requires AllPass(job, ms) && ResultsAre(ms, produced)
    requires message.Some? ==> message == produced
    requires fairStart.Some? ==> Passes(job, fairStart.value)
    ensures var (m, w) := Read(ms, message, fairStart);
      && (m.Some? ==> m == produced) && (w.Some? ==> Passes(job, w.value))
      && (m.None? <==> message.None? && Results(ms) == 0)
  {
    if ms != [] { ReadKeeps(job, ms[..|ms| - 1], message, fairStart, produced); }
  }

  lemma ReadStep(job: Job, s: State, seen: nat)
    requires Inv(job, s) && seen <= |s.pipe|
    ensures var (m, w) := Read(s.pipe[..seen], s.message, s.fairStart);
      && (m.Some? ==> m == s.produced) && (w.Some? ==> Passes(job, w.value))
      && AllPass(job, s.pipe[seen..]) && ResultsAre(s.pipe[seen..], s.produced)
      && Results(s.buffer) + Results(s.pipe[seen..]) + Held(m) <= Held(s.produced)
  {
    assert s.pipe == s.pipe[..seen] + s.pipe[seen..];
    ResultsConcat(s.pipe[..seen], s.pipe[seen..]);
    ReadKeeps(job, s.pipe[..seen], s.message, s.fairStart, s.produced);
  }

  lemma PutKeeps(job: Job, s: State, s': State, m: Message)
    requires Inv(job, s) && s.alive && s.child.Working? && Put(s, s', m)
    requires m.IsResult() && (m.Fatal? || Passes(job, m.fairStart))
    ensures Inv(job, s')
  {
    NoResults(s.buffer, s.produced);
    NoResults(s.pipe, s.produced);
    ResultsConcat(s.buffer, [m]);
    assert Results([m]) == Results([]) + 1;
  }

  lemma EventKeeps(job: Job, s: State, s': State, w: Witness)
    requires Inv(job, s) && EmitWitness(job, s, s', w)
    ensures Inv(job, s')
  {
    if Passes(job, w) {
      ResultsConcat(s.buffer, [Event(w)]);
      assert Results([Event(w)]) == Results([]);
    }
  }

  lemma FlushKeeps(job: Job, s: State, s': State)
    requires Inv(job, s) && Flush(s, s')
    ensures Inv(job, s')
  {
    assert s.buffer == [s.buffer[0]] + s.buffer[1..];
    ResultsConcat([s.buffer[0]], s.buffer[1..]);
    ResultsConcat(s.pipe, [s.buffer[0]]);
  }

  lemma DropKeeps(job: Job, s: State, s': State)
    requires Inv(job, s) && (Crash(s, s') || Kill(s, s') || Exit(s, s') || Leave(s, s') || SeeExit(s, s'))
    ensures Inv(job, s')
  {
    assert Results([]) == 0;
  }

  lemma PollKeeps(job: Job, s: State, s': State, seen: nat)
    requires Inv(job, s) && Poll(s, s', seen)
    ensures Inv(job, s')
  {
    ReadStep(job, s, seen);
  }

  lemma FinishKeeps(job: Job, s: State, s': State, seen: nat)
    requires Inv(job, s) && Finish(s, s', seen)
    ensures Inv(job, s')
  {
    ReadStep(job, s, seen);
    var m := s'.message;
    if s.parent.AfterExit? && m.Some? { assert m == s.produced; }
  }

  // Every step, in any interleaving, keeps the invariant.
  lemma StepKeeps(job: Job, s: State, s': State)
    requires Inv(job, s) && Next(job, s, s')
    ensures Inv(job, s')
  {
    if w :| EmitWitness(job, s, s', w) {
      EventKeeps(job, s, s', w);
    } else if error :| Violate(s, s', error) {
      PutKeeps(job, s, s', Fatal(error));
    } else if solution, w, error :| ReturnResult(job, s, s', solution, w, error) {
      PutKeeps(job, s, s', if !Passes(job, w) then Fatal(error)
                           else if solution.Some? then Solved(solution.value, w) else Failed(error, w));
    } else if error :| Throw(s, s', error) {
      PutKeeps(job, s, s', if s.child.latest.None? then Fatal(error) else Failed(error, s.child.latest.value));
    } else if Flush(s, s') {
      FlushKeeps(job, s, s');
    } else if seen :| Poll(s, s', seen) {
      PollKeeps(job, s, s', seen);
    } else if seen :| Finish(s, s', seen) {
      FinishKeeps(job, s, s', seen);
    } else {
      DropKeeps(job, s, s');
    }
  }

  lemma {:induction false} RunKeeps(job: Job, t: seq<State>, k: nat)
    requires Run(job, t) && k < |t|
    ensures Inv(job, t[k])
  {
    if k > 0 {
      RunKeeps(job, t, k - 1);
      assert Next(job, t[k - 1], t[k - 1 + 1]);
      StepKeeps(job, t[k - 1], t[k]);
    }
  }

  // ----- what every run guarantees -----

  // At most one result message exists at any time, anywhere between child and parent.
  lemma {:induction false} AtMostOneResult(job: Job, t: seq<State>, k: nat)
    requires Run(job, t) && k < |t|
    ensures Results(t[k].buffer) + Results(t[k].pipe) + Held(t[k].message) <= 1
    ensures t[k].child.Working? ==> Results(t[k].buffer) + Results(t[k].pipe) + Held(t[k].message) == 0
  {
    RunKeeps(job, t, k);
  }

  // A returned run is fair exactly when it carries a witness; every witness it carries
  // passed validation; a run with a solution always carries one, and it is the one the
  // child's single result came with.
  lemma {:induction false} ReturnedRuns(job: Job, t: seq<State>, k: nat)
    requires Run(job, t) && k < |t| && t[k].parent.Concluded? && t[k].parent.outcome.Returned?
    ensures var run := t[k].parent.outcome.run;
      && (run.fairStartValid <==> run.fairStart.Some?)
      && (run.fairStart.Some? ==> Passes(job, run.fairStart.value))
      && (run.solution.Some? ==>
            run.fairStart.Some? && t[k].produced == Some(Solved(run.solution.value, run.fairStart.value)))
      && (run.runError.None? <==> run.solution.Some?)
  {
    RunKeeps(job, t, k);
  }

  // The parent raises only for a violation the child reported.
  lemma {:induction false} RaisedRuns(job: Job, t: seq<State>, k: nat)
    requires Run(job, t) && k < |t| && t[k].parent.Concluded? && t[k].parent.outcome.Raised?
    ensures t[k].produced == Some(Fatal(t[k].parent.outcome.error))
  {
    RunKeeps(job, t, k);
  }

  // A concluded run takes no further step.
  lemma ConcludedIsFinal(job: Job, s: State, s': State)
    requires Inv(job, s) && s.parent.Concluded?
    ensures !Next(job, s, s')
  {
  }

  // ----- a reported violation can still be lost -----

  ghost predicate KilledBefore(t: seq<State>, k: nat)
    requires k <= |t|
  {
    exists i :: 0 <= i < k && t[i].parent.AfterKill?
  }

  ghost predicate ReturnsKilled(p: Parent) {
    p.Concluded? && p.outcome.Returned? && p.outcome.run.killed
  }

  lemma ParentStep(job: Job, s: State, s': State)
    requires Next(job, s, s')
    ensures s.parent.AfterKill? ==> s'.parent.AfterKill? || ReturnsKilled(s'.parent)
    ensures !s.parent.AfterKill? && s'.parent != s.parent ==>
      s'.parent.AfterKill? || s'.parent.AfterExit? || (s.parent.AfterExit? && !ReturnsKilled(s'.parent))
  {
  }

  // The outcome is marked killed exactly when the parent killed the child.
  lemma {:induction false} KillIsMarked(job: Job, t: seq<State>, k: nat)
    requires Run(job, t) && k < |t|
    ensures !t[k].parent.AfterKill? ==> (KilledBefore(t, k) <==> ReturnsKilled(t[k].parent))
  {
    if k > 0 {
      KillIsMarked(job, t, k - 1);
      assert Next(job, t[k - 1], t[k - 1 + 1]);
      ParentStep(job, t[k - 1], t[k]);
      RunKeeps(job, t, k - 1);
      assert t[k - 1].parent.AfterKill? ==> KilledBefore(t, k);
    }
  }

  // How a run ends: after a kill as a timeout with the last witness read; otherwise with the
  // result the parent read and the witness that came with it, with an exception for a reported
  // violation, and for lack of a result with the last witness read.
  lemma {:induction false} ConcludedOutcome(job: Job, t: seq<State>, k: nat)
    requires Run(job, t) && k < |t| && t[k].parent.Concluded?
    ensures var outcome := t[k].parent.outcome;
      if exists i :: 0 <= i < k && t[i].parent.AfterKill? then
        outcome.Returned? && outcome.run.killed && TimedOut(t[k], outcome.run)
      else match t[k].message
        case Some(Fatal(error)) => outcome == Raised(error)
        case _ => outcome.Returned? && !outcome.run.killed && Reports(t[k], outcome.run)
  {
    RunKeeps(job, t, k);
    KillIsMarked(job, t, k);
    assert KilledBefore(t, k) <==> ReturnsKilled(t[k].parent);
  }

  // A concluded run with a reported violation returns exactly when the parent killed the child
  // or read no report; it never returns a solution.
  lemma {:induction false} ViolationOutcome(job: Job, t: seq<State>, k: nat)
    requires Run(job, t) && k < |t| && t[k].parent.Concluded?
    requires t[k].produced.Some? && t[k].produced.value.Fatal?
    ensures var outcome := t[k].parent.outcome;
      && (outcome.Returned? <==> (exists i :: 0 <= i < k && t[i].parent.AfterKill?) || t[k].message.None?)
      && (t[k].message.Some? ==> t[k].message == t[k].produced)
      && (outcome.Returned? ==> outcome.run.solution.None?)
  {
    RunKeeps(job, t, k);
    KillIsMarked(job, t, k);
    assert KilledBefore(t, k) <==> ReturnsKilled(t[k].parent);
  }

  // A child that first emits a good witness and then breaks the rule is returned as a fair
  // watchdog timeout when the deadline strikes before it exits, although the parent reads the
  // report.
  lemma {:induction false} ViolationLost(job: Job, w: Witness) returns (t: seq<State>)
    requires Passes(job, w)
    ensures Run(job, t)
    ensures var last := t[|t| - 1];
      && last.produced == Some(Fatal("")) && last.message == Some(Fatal(""))
      && last.parent.Concluded? && last.parent.outcome.Returned?
      && last.parent.outcome.run.killed && last.parent.outcome.run.fairStartValid
  {
    t := ReportFlushed(job, w);
    var both, s4 := [Event(w), Fatal("")], t[|t| - 1];
    var s5 := s4.(alive := false, parent := AfterKill);
    var s6 := s5.(pipe := [], message := Some(Fatal("")), fairStart := Some(w),
                  parent := Concluded(Returned(KilledRun(Some(w)))));
    assert Kill(s4, s5);
    Extend(job, t, s5);
    ReadBoth(w);
    assert both[..2] == both;
    assert Finish(s5, s6, 2);
    Extend(job, t + [s5], s6);
    t := t + [s5] + [s6];
  }

  lemma {:induction false} ReportFlushed(job: Job, w: Witness) returns (t: seq<State>)
    requires Passes(job, w)
    ensures Run(job, t)
    ensures t[|t| - 1] ==
      State(Child.Finished, true, [], [Event(w), Fatal("")], None, None, Polling, Some(Fatal("")))
  {
    var s0 := State(Working(None), true, [], [], None, None, Polling, None);
    var s1 := s0.(child := Working(Some(w)), buffer := [Event(w)]);
    var s2 := s1.(buffer := [], pipe := [Event(w)]);
    var s3 := s2.(child := Child.Finished, buffer := [Fatal("")], produced := Some(Fatal("")));
    var s4 := s3.(buffer := [], pipe := [Event(w), Fatal("")]);
    t := [s0];
    assert EmitWitness(job, s0, s1, w);
    Extend(job, t, s1);
    t := t + [s1];
    assert Flush(s1, s2);
    Extend(job, t, s2);
    t := t + [s2];
    assert Violate(s2, s3, "");
    Extend(job, t, s3);
    t := t + [s3];
    assert Flush(s3, s4);
    Extend(job, t, s4);
    t := t + [s4];
  }

  lemma ReadBoth(w: Witness)
    ensures Read([Event(w), Fatal("")], None, None) == (Some(Fatal("")), Some(w))
  {
    var both := [Event(w), Fatal("")];
    assert both[..1] == [Event(w)] && both[..1][..0] == [];
    assert Read([Event(w)], None, None) == (None, Some(w));
  }

  // A run goes on with one more step.
  lemma {:induction false} Extend(job: Job, t: seq<State>, s: State)
    requires Run(job, t) && Next(job, t[|t| - 1], s)
    ensures Run(job, t + [s])
  {
    var longer := t + [s];
    forall i | 0 <= i < |longer| - 1 ensures Next(job, longer[i], longer[i + 1]) {
      if i < |t| - 1 { assert Next(job, t[i], t[i + 1]); }
    }
  }
}
