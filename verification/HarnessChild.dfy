// The child process as a program: the solver's emissions and how it ends, turned into queue
// messages. The child's steps in the protocol are exactly its behaviours.
module HarnessChild {
  import opened Wrappers
  import opened HarnessProtocol
  import opened HarnessDelivery

  // The solver emits a witness; it may catch the exception a bad one raises.
  datatype Emission = Emission(fairStart: Witness, caught: bool)

  datatype Ending =
    | Returns(solution: Option<nat>, fairStart: Witness)
    | RaisesViolation
    | RaisesOther
    | Vanishes

  datatype Script = Script(emissions: seq<Emission>, ending: Ending, error: string)

  // ----- validating a witness -----

  method LooksLikeSha256(value: string) returns (ok: bool)
    ensures ok <==> IsDigest(value)
  {
    if |value| != 64 { return false; }
    for i := 0 to |value|
      invariant forall l | 0 <= l < i :: '0' <= value[l] <= '9' || 'a' <= value[l] <= 'f'
    {
      if value[i] !in "0123456789abcdef" {
        HexDigits(value[i]);
        return false;
      }
      HexDigits(value[i]);
    }
    return true;
  }

  lemma HexDigits(c: char)
    ensures c in "0123456789abcdef" <==> '0' <= c <= '9' || 'a' <= c <= 'f'
  {
    var digits := "0123456789abcdef";
    if '0' <= c <= '9' { assert digits[c as int - '0' as int] == c; }
    if 'a' <= c <= 'f' { assert digits[10 + c as int - 'a' as int] == c; }
  }

  // The right run, a readable input.
  ghost predicate Identified(job: Job, w: Witness) {
    && w.version == 1 && w.benchmark == job.benchmark && w.solver == job.solver
    && w.planningState != "" && IsDigest(w.inputHash)
  }

  method IdentityErrors(job: Job, w: Witness) returns (errors: seq<string>)
    ensures errors == [] <==> Identified(job, w)
  {
    errors := [];
    if w.version != 1 { errors := errors + ["version"]; }
    if w.benchmark != job.benchmark { errors := errors + ["benchmark_name"]; }
    if w.solver != job.solver { errors := errors + ["solver"]; }
    if w.planningState == "" { errors := errors + ["planning_state is blank"]; }
    var digest := LooksLikeSha256(w.inputHash);
    if !digest { errors := errors + ["solver_input_hash is not a sha256 hex digest"]; }
  }

  // Counters that must be zero.
  method CounterErrors(fields: seq<(string, int)>) returns (errors: seq<string>)
    ensures errors == [] <==> forall i | 0 <= i < |fields| :: fields[i].1 == 0
  {
    errors := [];
    for i := 0 to |fields|
      invariant errors == [] <==> forall l | 0 <= l < i :: fields[l].1 == 0
    {
      if fields[i].1 != 0 { errors := errors + [fields[i].0]; }
    }
  }

  // The complaints about a witness; none exactly when it passes.
  method FairStartErrors(job: Job, w: Witness) returns (errors: seq<string>)
    ensures errors == [] <==> Passes(job, w)
  {
    errors := IdentityErrors(job, w);
    var zeroFields := [
      ("reference_solution_reads", w.referenceReads), ("adapter_hint_count", w.adapterHints),
      ("preliminary_solve_count", w.preliminarySolves), ("preassigned_scalar_variables", w.preassigned),
      ("prefilled_list_variables", w.prefilled)];
    var counted := CounterErrors(zeroFields);
    assert zeroFields[0].1 == w.referenceReads && zeroFields[1].1 == w.adapterHints;
    assert zeroFields[2].1 == w.preliminarySolves && zeroFields[3].1 == w.preassigned && zeroFields[4].1 == w.prefilled;
    var hintFields := [("cp_sat_solution_hint_vars", w.cpHintVars), ("cp_sat_solution_hint_values", w.cpHintValues)];
    var hints := CounterErrors(hintFields);
    assert hintFields[0].1 == w.cpHintVars && hintFields[1].1 == w.cpHintValues;
    errors := errors + counted + (if w.fallbackEnabled then ["fallback_solution_enabled"] else []) + hints +
      (if w.routingHint then ["routing_assignment_hint_present"] else []);
  }

  // ----- what the child puts -----

  // The solver catches whatever its bad witnesses raise.
  ghost predicate Undisturbed(job: Job, es: seq<Emission>) {
    forall i | 0 <= i < |es| :: Passes(job, es[i].fairStart) || es[i].caught
  }

  // Recorded witnesses, in order.
  ghost function Recorded(job: Job, es: seq<Emission>): seq<Message> {
    if es == [] then []
    else
      var last := es[|es| - 1].fairStart;
      Recorded(job, es[..|es| - 1]) + (if Passes(job, last) then [Event(last)] else [])
  }

  ghost predicate Latest(queue: seq<Message>, w: Option<Witness>) {
    if queue == [] then w.None? else queue[|queue| - 1].Event? && w == Some(queue[|queue| - 1].fairStart)
  }

  // The result message of an ending, after the given recorded witnesses.
  ghost function ResultOf(job: Job, recorded: seq<Message>, ending: Ending, error: string): seq<Message>
    requires forall i | 0 <= i < |recorded| :: recorded[i].Event?
  {
    match ending
    case Returns(solution, w) =>
      if !Passes(job, w) then [Fatal(error)] else if solution.Some? then [Solved(solution.value, w)] else [Failed(error, w)]
    case RaisesViolation => [Fatal(error)]
    case RaisesOther => if recorded == [] then [Fatal(error)] else [Failed(error, recorded[|recorded| - 1].fairStart)]
    case Vanishes => []
  }

  // s puts exactly this queue.
  ghost predicate Puts(job: Job, s: Script, queue: seq<Message>) {
    if Undisturbed(job, s.emissions) then
      AllEvents(Recorded(job, s.emissions)) &&
      queue == Recorded(job, s.emissions) + ResultOf(job, Recorded(job, s.emissions), s.ending, s.error)
    else
      exists i :: 0 <= i < |s.emissions| && FirstUncaught(job, s.emissions, i) &&
        queue == Recorded(job, s.emissions[..i]) + [Fatal(s.error)]
  }

  ghost predicate AllEvents(ms: seq<Message>) {
    forall i | 0 <= i < |ms| :: ms[i].Event?
  }

  ghost predicate FirstUncaught(job: Job, es: seq<Emission>, i: nat)
    requires i < |es|
  {
    Undisturbed(job, es[..i]) && !Passes(job, es[i].fairStart) && !es[i].caught
  }

  lemma {:induction false} RecordedAreEvents(job: Job, es: seq<Emission>)
    ensures AllEvents(Recorded(job, es))
  {
    if es != [] { RecordedAreEvents(job, es[..|es| - 1]); }
  }

  lemma {:induction false} RecordedSnoc(job: Job, es: seq<Emission>, e: Emission)
    ensures Recorded(job, es + [e]) == Recorded(job, es) + (if Passes(job, e.fairStart) then [Event(e.fairStart)] else [])
  {
    assert (es + [e])[..|es|] == es;
  }

  // Reports how the solver ended.
  method PutEnding(job: Job, ending: Ending, error: string, latest: Option<Witness>, recorded: seq<Message>)
    returns (queue: seq<Message>)
    requires AllEvents(recorded) && Latest(recorded, latest)
    ensures queue == recorded + ResultOf(job, recorded, ending, error)
  {
    match ending
    case Returns(solution, w) =>
      var errors := FairStartErrors(job, w);
      if errors != [] {
        queue := recorded + [Fatal(error)];
      } else if solution.None? {
        queue := recorded + [Failed(error, w)];
      } else {
        queue := recorded + [Solved(solution.value, w)];
      }
    case RaisesViolation =>
      queue := recorded + [Fatal(error)];
    case RaisesOther =>
      if latest.None? {
        queue := recorded + [Fatal(error)];
      } else {
        queue := recorded + [Failed(error, latest.value)];
      }
    case Vanishes =>
      queue := recorded;
      assert recorded + [] == recorded;
  }

  // Runs the solver under the recorder and reports how it ended.
  method RunSolverChild(job: Job, s: Script) returns (queue: seq<Message>)
    ensures Puts(job, s, queue)
  {
    queue := [];
    var latest: Option<Witness> := None;
    for i := 0 to |s.emissions|
      invariant queue == Recorded(job, s.emissions[..i]) && Latest(queue, latest)
      invariant Undisturbed(job, s.emissions[..i])
    {
      var e := s.emissions[i];
      assert s.emissions[..i + 1] == s.emissions[..i] + [e];
      RecordedSnoc(job, s.emissions[..i], e);
      var errors := FairStartErrors(job, e.fairStart);
      if errors == [] {
        latest := Some(e.fairStart);
        queue := queue + [Event(e.fairStart)];
      } else if !e.caught {
        queue := queue + [Fatal(s.error)];
        assert FirstUncaught(job, s.emissions, i);
        return;
      }
    }
    assert s.emissions[..|s.emissions|] == s.emissions;
    RecordedAreEvents(job, s.emissions);
    queue := PutEnding(job, s.ending, s.error, latest, queue);
  }

  // ----- the protocol's child is this program -----

  // A child still at work has recorded what its emissions so far record.
  ghost predicate AtWork(job: Job, s: State, script: Script, put: seq<Message>) {
    && script.ending.Vanishes? && Undisturbed(job, script.emissions) && put == Recorded(job, script.emissions)
    && (s.child.Working? ==> Latest(put, s.child.latest))
  }

  lemma {:induction false} WorkPuts(job: Job, s: State, script: Script, put: seq<Message>)
    requires AtWork(job, s, script, put)
    ensures Puts(job, script, put)
  {
    RecordedAreEvents(job, script.emissions);
    assert put + [] == put;
  }

  lemma {:induction false} PutsWithEnding(job: Job, script: Script, put: seq<Message>, ending: Ending, error: string)
    requires Undisturbed(job, script.emissions) && put == Recorded(job, script.emissions) && AllEvents(put)
    ensures Puts(job, script.(ending := ending, error := error), put + ResultOf(job, put, ending, error))
  {
  }

  // A step of a child at work: another recorded witness, the end with a result, or nothing put.
  lemma {:induction false} WorkStep(job: Job, s: State, s': State, script: Script, put: seq<Message>)
    returns (script': Script)
    requires s.child.Working? && Next(job, s, s') && AtWork(job, s, script, put)
    ensures Puts(job, script', put + PutIn(s, s'))
    ensures s'.child.Working? ==> AtWork(job, s', script', put + PutIn(s, s'))
  {
    script' := script;
    RecordedAreEvents(job, script.emissions);
    assert put + [] == put;
    WorkPuts(job, s, script, put);
    if w :| EmitWitness(job, s, s', w) {
      var e := Emission(w, true);
      script' := script.(emissions := script.emissions + [e]);
      RecordedSnoc(job, script.emissions, e);
      assert put + PutIn(s, s') == Recorded(job, script'.emissions);
      WorkPuts(job, s', script', put + PutIn(s, s'));
    } else if error :| Violate(s, s', error) {
      script' := script.(ending := RaisesViolation, error := error);
      PutsWithEnding(job, script, put, RaisesViolation, error);
    } else if solution, w, error :| ReturnResult(job, s, s', solution, w, error) {
      script' := script.(ending := Returns(solution, w), error := error);
      PutsWithEnding(job, script, put, Returns(solution, w), error);
    } else if error :| Throw(s, s', error) {
      script' := script.(ending := RaisesOther, error := error);
      PutsWithEnding(job, script, put, RaisesOther, error);
    }
  }

  lemma IdleStep(job: Job, s: State, s': State)
    requires !s.child.Working? && Next(job, s, s')
    ensures PutIn(s, s') == [] && !s'.child.Working?
  {
  }

  // Whatever has been put in a run is what the program puts for some solver.
  lemma {:induction false} RunsAreScripts(job: Job, t: seq<State>, k: nat) returns (script: Script)
    requires Run(job, t) && k < |t|
    ensures Puts(job, script, PutBy(t, k))
    ensures t[k].child.Working? ==> AtWork(job, t[k], script, PutBy(t, k))
  {
    if k == 0 {
      script := Script([], Vanishes, "");
      WorkPuts(job, t[0], script, []);
    } else {
      script := RunsAreScripts(job, t, k - 1);
      assert Next(job, t[k - 1], t[k - 1 + 1]);
      if t[k - 1].child.Working? {
        script := WorkStep(job, t[k - 1], t[k], script, PutBy(t, k - 1));
      } else {
        IdleStep(job, t[k - 1], t[k]);
        assert PutBy(t, k - 1) + [] == PutBy(t, k - 1);
      }
    }
  }

  // ----- and every behaviour of the program is a run -----

  lemma {:induction false} PutByPrefix(t: seq<State>, s: State, k: nat)
    requires k < |t|
    ensures PutBy(t + [s], k) == PutBy(t, k)
  {
    if k > 0 { PutByPrefix(t, s, k - 1); }
  }

  // A run goes on with one more step.
  lemma {:induction false} RunSnoc(job: Job, t: seq<State>, s: State)
    requires Run(job, t) && Next(job, t[|t| - 1], s)
    ensures Run(job, t + [s]) && PutBy(t + [s], |t|) == PutBy(t, |t| - 1) + PutIn(t[|t| - 1], s)
  {
    Extend(job, t, s);
    PutBySnoc(t, s);
  }

  lemma {:induction false} PutBySnoc(t: seq<State>, s: State)
    requires t != []
    ensures PutBy(t + [s], |t|) == PutBy(t, |t| - 1) + PutIn(t[|t| - 1], s)
  {
    PutByPrefix(t, s, |t| - 1);
    assert (t + [s])[|t|] == s && (t + [s])[|t| - 1] == t[|t| - 1];
  }

  // At work after these emissions, nothing flushed or read yet.
  ghost predicate WorkedThrough(job: Job, t: seq<State>, es: seq<Emission>) {
    && Run(job, t) && PutBy(t, |t| - 1) == Recorded(job, es)
    && var last := t[|t| - 1];
       last.alive && last.child.Working? && last.buffer == Recorded(job, es) && Latest(last.buffer, last.child.latest)
  }

  lemma {:induction false} EmissionsRun(job: Job, es: seq<Emission>) returns (t: seq<State>)
    requires Undisturbed(job, es)
    ensures WorkedThrough(job, t, es)
  {
    if es == [] {
      t := [State(Working(None), true, [], [], None, None, Polling, None)];
    } else {
      var init, e := es[..|es| - 1], es[|es| - 1];
      assert es == init + [e];
      t := EmissionsRun(job, init);
      RecordedSnoc(job, init, e);
      if Passes(job, e.fairStart) {
        var last := t[|t| - 1];
        var next := last.(child := Working(Some(e.fairStart)), buffer := last.buffer + [Event(e.fairStart)]);
        assert EmitWitness(job, last, next, e.fairStart);
        RunSnoc(job, t, next);
        t := t + [next];
      }
    }
  }

  // For every solver some run puts exactly what the program puts, and the child is done.
  lemma {:induction false} ScriptsRun(job: Job, script: Script, queue: seq<Message>) returns (t: seq<State>)
    requires Puts(job, script, queue)
    ensures Run(job, t) && !t[|t| - 1].child.Working? && PutBy(t, |t| - 1) == queue
  {
    if Undisturbed(job, script.emissions) {
      t := EmissionsRun(job, script.emissions);
      t := EndingRun(job, t, script);
    } else {
      var i :| 0 <= i < |script.emissions| && FirstUncaught(job, script.emissions, i) &&
        queue == Recorded(job, script.emissions[..i]) + [Fatal(script.error)];
      t := EmissionsRun(job, script.emissions[..i]);
      var last := t[|t| - 1];
      var next := last.(child := Child.Finished, buffer := last.buffer + [Fatal(script.error)],
                        produced := Some(Fatal(script.error)));
      assert Violate(last, next, script.error);
      RunSnoc(job, t, next);
      t := t + [next];
    }
  }

  lemma {:induction false} EndingRun(job: Job, before: seq<State>, script: Script) returns (t: seq<State>)
    requires WorkedThrough(job, before, script.emissions) && AllEvents(Recorded(job, script.emissions))
    ensures var recorded := Recorded(job, script.emissions);
      && Run(job, t) && !t[|t| - 1].child.Working?
      && PutBy(t, |t| - 1) == recorded + ResultOf(job, recorded, script.ending, script.error)
  {
    var last, recorded := before[|before| - 1], Recorded(job, script.emissions);
    var result := ResultOf(job, recorded, script.ending, script.error);
    var next := last.(child := Child.Finished);
    if result != [] { next := next.(buffer := last.buffer + result, produced := Some(result[0])); }
    match script.ending {
      case Returns(solution, w) => assert ReturnResult(job, last, next, solution, w, script.error);
      case RaisesViolation => assert Violate(last, next, script.error);
      case RaisesOther => assert Throw(last, next, script.error);
      case Vanishes => assert Leave(last, next);
    }
    RunSnoc(job, before, next);
    t := before + [next];
  }
}
