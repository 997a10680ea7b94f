// What reaches the parent: messages arrive in the order they were put, none twice, and only a
// kill or a crash loses any. A child that leaves by itself and is read to the end has its
// result returned.
module HarnessDelivery {
  import opened Wrappers
  import opened HarnessProtocol

  // ----- what one step puts and reads -----

  ghost function PutIn(s: State, s': State): seq<Message> {
    if |s'.buffer| > |s.buffer| then s'.buffer[|s.buffer|..] else []
  }

  ghost function ReadIn(s: State, s': State): seq<Message> {
    if |s'.pipe| < |s.pipe| then s.pipe[..|s.pipe| - |s'.pipe|] else []
  }

  // All messages the child has put in the first k steps.
  ghost function PutBy(t: seq<State>, k: nat): seq<Message>
    requires k < |t|
  {
    if k == 0 then [] else PutBy(t, k - 1) + PutIn(t[k - 1], t[k])
  }

  // All messages the parent has read in the first k steps.
  ghost function ReadBy(t: seq<State>, k: nat): seq<Message>
    requires k < |t|
  {
    if k == 0 then [] else ReadBy(t, k - 1) + ReadIn(t[k - 1], t[k])
  }

  // A step that ends the child with unwritten messages.
  ghost predicate Loses(s: State, s': State) {
    s.alive && !s'.alive && s.buffer != []
  }

  ghost predicate LostBefore(t: seq<State>, k: nat)
    requires k < |t|
  {
    exists i :: 0 <= i < k && Loses(t[i], t[i + 1])
  }

  // ----- first in, first out -----

  // On its way: what was read, is written or waits.
  ghost function Arrived(read: seq<Message>, s: State): seq<Message> {
    read + s.pipe + s.buffer
  }

  // The four things a step can do to buffer and pipe.
  ghost predicate Writes(s: State, s': State, ms: seq<Message>) {
    && s'.pipe == s.pipe && s'.buffer == s.buffer + ms && s'.alive == s.alive
    && if ms == [] then s'.produced == s.produced
       else s.alive && s.child.Working? && |ms| == 1 && s'.produced == if ms[0].Event? then s.produced else Some(ms[0])
  }

  ghost predicate Moves(s: State, s': State) {
    && s.alive && s'.alive && s'.produced == s.produced
    && s.buffer != [] && s'.buffer == s.buffer[1..] && s'.pipe == s.pipe + [s.buffer[0]]
  }

  ghost predicate Reads(s: State, s': State, seen: nat) {
    && s'.buffer == s.buffer && s'.alive == s.alive && s'.produced == s.produced
    && seen <= |s.pipe| && s'.pipe == s.pipe[seen..]
  }

  ghost predicate Ends(s: State, s': State) {
    s.alive && !s'.alive && s'.buffer == [] && s'.pipe == s.pipe && s'.produced == s.produced
  }

  lemma StepKinds(job: Job, s: State, s': State)
    requires Next(job, s, s')
    ensures (exists ms :: Writes(s, s', ms)) || Moves(s, s') || (exists seen :: Reads(s, s', seen)) || Ends(s, s')
  {
    if w :| EmitWitness(job, s, s', w) {
      assert Writes(s, s', if Passes(job, w) then [Event(w)] else []);
    } else if error :| Violate(s, s', error) {
      assert Writes(s, s', [Fatal(error)]);
    } else if solution, w, error :| ReturnResult(job, s, s', solution, w, error) {
      assert Writes(s, s', [if !Passes(job, w) then Fatal(error)
                            else if solution.Some? then Solved(solution.value, w) else Failed(error, w)]);
    } else if error :| Throw(s, s', error) {
      assert Writes(s, s', [if s.child.latest.None? then Fatal(error) else Failed(error, s.child.latest.value)]);
    } else if Flush(s, s') {
    } else if seen: nat :| Poll(s, s', seen) {
      assert Reads(s, s', seen);
    } else if seen: nat :| Finish(s, s', seen) {
      assert Reads(s, s', seen);
    } else if Exit(s, s') || Crash(s, s') || Kill(s, s') {
    } else {
      assert Writes(s, s', []);
    }
  }

  // Whatever has arrived keeps its order; the child's new message comes last.
  ghost predicate Delivers(s: State, s': State, read: seq<Message>) {
    && (!s.alive ==> !s'.alive && PutIn(s, s') == [])
    && if Loses(s, s') then PutIn(s, s') == [] && Arrived(read + ReadIn(s, s'), s') <= Arrived(read, s)
       else Arrived(read + ReadIn(s, s'), s') == Arrived(read, s) + PutIn(s, s')
  }

  lemma {:induction false} StepDelivers(job: Job, s: State, s': State, read: seq<Message>)
    requires Next(job, s, s')
    ensures Delivers(s, s', read)
  {
    StepKinds(job, s, s');
    if ms :| Writes(s, s', ms) {
      WriteDelivers(s, s', ms, read);
    } else if Moves(s, s') {
      MoveDelivers(s, s', read);
    } else if seen: nat :| Reads(s, s', seen) {
      ReadDelivers(s, s', seen, read);
    } else {
      EndDelivers(s, s', read);
    }
  }

  lemma {:induction false} WriteDelivers(s: State, s': State, ms: seq<Message>, read: seq<Message>)
    requires Writes(s, s', ms)
    ensures Delivers(s, s', read)
  {
    assert PutIn(s, s') == ms && read + ReadIn(s, s') == read;
    assert Arrived(read, s') == Arrived(read, s) + ms;
  }

  lemma {:induction false} MoveDelivers(s: State, s': State, read: seq<Message>)
    requires Moves(s, s')
    ensures Delivers(s, s', read)
  {
    assert PutIn(s, s') == [] && read + ReadIn(s, s') == read;
    assert s.pipe + s.buffer == s'.pipe + s'.buffer;
    assert Arrived(read, s') == Arrived(read, s) == Arrived(read, s) + [];
  }

  lemma {:induction false} ReadDelivers(s: State, s': State, seen: nat, read: seq<Message>)
    requires Reads(s, s', seen)
    ensures Delivers(s, s', read)
  {
    assert PutIn(s, s') == [] && ReadIn(s, s') == s.pipe[..seen];
    assert s.pipe == s.pipe[..seen] + s'.pipe;
    assert Arrived(read + s.pipe[..seen], s') == Arrived(read, s) == Arrived(read, s) + [];
  }

  lemma {:induction false} EndDelivers(s: State, s': State, read: seq<Message>)
    requires Ends(s, s')
    ensures Delivers(s, s', read)
  {
    assert PutIn(s, s') == [] && read + ReadIn(s, s') == read;
    assert Arrived(read, s) == Arrived(read, s') + s.buffer;
    if s.buffer == [] { assert Arrived(read, s') == Arrived(read, s') + [] + []; }
  }

  // Nothing is put any more, and nothing waits, once the child is gone.
  lemma {:induction false} GoneIsEmpty(job: Job, t: seq<State>, k: nat)
    requires Run(job, t) && k < |t|
    ensures !t[k].alive ==> t[k].buffer == []
    ensures LostBefore(t, k) ==> !t[k].alive
  {
    if k > 0 {
      GoneIsEmpty(job, t, k - 1);
      assert Next(job, t[k - 1], t[k - 1 + 1]);
      StepKinds(job, t[k - 1], t[k]);
      if !LostBefore(t, k - 1) && LostBefore(t, k) { assert Loses(t[k - 1], t[k - 1 + 1]); }
    }
  }

  // First in, first out: what the parent has read, what is written and what waits is, in this
  // order, a prefix of what the child has put, and all of it unless a kill or a crash lost some.
  lemma {:induction false} InOrder(job: Job, t: seq<State>, k: nat)
    requires Run(job, t) && k < |t|
    ensures ReadBy(t, k) + t[k].pipe + t[k].buffer <= PutBy(t, k)
    ensures !LostBefore(t, k) ==> ReadBy(t, k) + t[k].pipe + t[k].buffer == PutBy(t, k)
  {
    if k > 0 {
      InOrder(job, t, k - 1);
      assert Next(job, t[k - 1], t[k - 1 + 1]);
      GoneIsEmpty(job, t, k - 1);
      StepDelivers(job, t[k - 1], t[k], ReadBy(t, k - 1));
      OrderStep(t[k - 1], t[k], ReadBy(t, k - 1), PutBy(t, k - 1), LostBefore(t, k - 1));
      assert Loses(t[k - 1], t[k - 1 + 1]) ==> LostBefore(t, k);
    }
  }

  lemma {:induction false} OrderStep(s: State, s': State, read: seq<Message>, put: seq<Message>, lost: bool)
    requires Delivers(s, s', read) && Arrived(read, s) <= put
    requires !lost ==> Arrived(read, s) == put
    requires lost ==> !s.alive
    ensures Arrived(read + ReadIn(s, s'), s') <= put + PutIn(s, s')
    ensures !lost && !Loses(s, s') ==> Arrived(read + ReadIn(s, s'), s') == put + PutIn(s, s')
  {
    if lost || Loses(s, s') { assert put + PutIn(s, s') == put; }
    if lost { assert Arrived(read, s) + PutIn(s, s') == Arrived(read, s); }
  }

  // ----- what the parent makes of what it reads -----

  ghost predicate LatestResult(ms: seq<Message>, m: Option<Message>) {
    match m
    case None => forall i | 0 <= i < |ms| :: ms[i].Event?
    case Some(x) => !x.Event? && exists i :: 0 <= i < |ms| && ms[i] == x && forall l | i < l < |ms| :: ms[l].Event?
  }

  ghost predicate LatestWitness(ms: seq<Message>, w: Option<Witness>) {
    match w
    case None => forall i | 0 <= i < |ms| :: ms[i].Fatal?
    case Some(x) =>
      exists i :: 0 <= i < |ms| && !ms[i].Fatal? && ms[i].fairStart == x && forall l | i < l < |ms| :: ms[l].Fatal?
  }

  lemma {:induction false} ReadMeaning(ms: seq<Message>)
    ensures LatestResult(ms, Read(ms, None, None).0) && LatestWitness(ms, Read(ms, None, None).1)
  {
    if ms != [] {
      var front := ms[..|ms| - 1];
      var (m, w) := Read(front, None, None);
      ReadMeaning(front);
      assert ms == front + [ms[|ms| - 1]];
      ResultStep(front, m, ms[|ms| - 1]);
      WitnessStep(front, w, ms[|ms| - 1]);
    }
  }

  lemma {:induction false} ResultStep(ms: seq<Message>, m: Option<Message>, last: Message)
    requires LatestResult(ms, m)
    ensures LatestResult(ms + [last], if last.Event? then m else Some(last))
  {
    var all := ms + [last];
    if !last.Event? {
      assert all[|ms|] == last;
    } else if m.Some? {
      var i :| 0 <= i < |ms| && ms[i] == m.value && forall l | i < l < |ms| :: ms[l].Event?;
      assert all[i] == m.value;
    }
  }

  lemma {:induction false} WitnessStep(ms: seq<Message>, w: Option<Witness>, last: Message)
    requires LatestWitness(ms, w)
    ensures LatestWitness(ms + [last], if last.Fatal? then w else Some(last.fairStart))
  {
    var all := ms + [last];
    if !last.Fatal? {
      assert all[|ms|] == last;
    } else if w.Some? {
      var i :| 0 <= i < |ms| && !ms[i].Fatal? && ms[i].fairStart == w.value && forall l | i < l < |ms| :: ms[l].Fatal?;
      assert all[i] == ms[i];
    }
  }

  lemma {:induction false} ReadConcat(a: seq<Message>, b: seq<Message>, m: Option<Message>, w: Option<Witness>)
    ensures Read(a + b, m, w) == Read(b, Read(a, m, w).0, Read(a, m, w).1)
  {
    if b == [] {
      assert a + b == a;
    } else {
      ReadConcat(a, b[..|b| - 1], m, w);
      assert (a + b)[..|a + b| - 1] == a + b[..|b| - 1];
    }
  }

  lemma StepReads(job: Job, s: State, s': State)
    requires Next(job, s, s')
    ensures (s'.message, s'.fairStart) == Read(ReadIn(s, s'), s.message, s.fairStart)
  {
    if seen: nat :| Poll(s, s', seen) {
      assert ReadIn(s, s') == s.pipe[..seen];
    } else if seen: nat :| Finish(s, s', seen) {
      assert ReadIn(s, s') == s.pipe[..seen];
    }
  }

  lemma {:induction false} ReadSoFar(job: Job, t: seq<State>, k: nat)
    requires Run(job, t) && k < |t|
    ensures (t[k].message, t[k].fairStart) == Read(ReadBy(t, k), None, None)
  {
    if k > 0 {
      ReadSoFar(job, t, k - 1);
      assert Next(job, t[k - 1], t[k - 1 + 1]);
      StepReads(job, t[k - 1], t[k]);
      ReadConcat(ReadBy(t, k - 1), ReadIn(t[k - 1], t[k]), None, None);
    }
  }

  // In every state the parent holds the latest result and the latest witness of what it has
  // read, and that is an initial part of what the child has put.
  lemma {:induction false} ParentHolds(job: Job, t: seq<State>, k: nat)
    requires Run(job, t) && k < |t|
    ensures LatestResult(ReadBy(t, k), t[k].message) && LatestWitness(ReadBy(t, k), t[k].fairStart)
    ensures ReadBy(t, k) <= PutBy(t, k)
  {
    ReadSoFar(job, t, k);
    ReadMeaning(ReadBy(t, k));
    InOrder(job, t, k);
  }

  // ----- the result is the last thing put -----

  // At most one message is put, and none after a result.
  ghost predicate OnePut(ms: seq<Message>, before: Option<Message>, now: Option<Message>) {
    if ms == [] then now == before
    else before.None? && |ms| == 1 && now == if ms[0].Event? then None else Some(ms[0])
  }

  lemma StepPuts(job: Job, s: State, s': State)
    requires Inv(job, s) && Next(job, s, s')
    ensures OnePut(PutIn(s, s'), s.produced, s'.produced)
  {
    StepKinds(job, s, s');
    if ms :| Writes(s, s', ms) {
      assert PutIn(s, s') == ms;
    }
  }

  // The result, if any, is the last message.
  ghost predicate EndsWith(put: seq<Message>, result: Option<Message>) {
    LatestResult(put, result) && (result.Some? ==> put != [] && put[|put| - 1] == result.value)
  }

  lemma {:induction false} ProducedIsLast(job: Job, t: seq<State>, k: nat)
    requires Run(job, t) && k < |t|
    ensures EndsWith(PutBy(t, k), t[k].produced)
  {
    if k > 0 {
      ProducedIsLast(job, t, k - 1);
      RunKeeps(job, t, k - 1);
      assert Next(job, t[k - 1], t[k - 1 + 1]);
      StepPuts(job, t[k - 1], t[k]);
      LastStep(PutBy(t, k - 1), PutIn(t[k - 1], t[k]), t[k - 1].produced, t[k].produced);
      assert PutBy(t, k) == PutBy(t, k - 1) + PutIn(t[k - 1], t[k]);
    }
  }

  lemma {:induction false} LastStep(put: seq<Message>, ms: seq<Message>, before: Option<Message>, now: Option<Message>)
    requires EndsWith(put, before)
    requires OnePut(ms, before, now)
    ensures EndsWith(put + ms, now)
  {
    if ms == [] {
      assert put + ms == put;
    } else {
      assert ms == [ms[0]];
      ResultStep(put, before, ms[0]);
    }
  }

  lemma {:induction false} LatestIsUnique(ms: seq<Message>, a: Option<Message>, b: Option<Message>)
    requires LatestResult(ms, a) && LatestResult(ms, b)
    ensures a == b
  {
  }

  // A child that was neither killed nor lost anything on its way out, read to the end: its
  // result is returned or raised as the child put it, with the witness it came with; without a
  // result the run carries the latest witness the child put.
  lemma {:induction false} Delivered(job: Job, t: seq<State>, k: nat)
    requires Run(job, t) && k < |t| && t[k].parent.Concluded?
    requires !(exists i :: 0 <= i < k && t[i].parent.AfterKill?)
    requires !LostBefore(t, k) && t[k].pipe == []
    ensures match t[k].produced
      case Some(Solved(solution, w)) =>
        t[k].parent.outcome == Returned(SolverRun(false, Some(solution), Some(w), true, None))
      case Some(Failed(error, w)) =>
        t[k].parent.outcome == Returned(SolverRun(false, None, Some(w), true, Some(AdapterError(error))))
      case Some(Fatal(error)) => t[k].parent.outcome == Raised(error)
      case _ =>
        && t[k].parent.outcome == Returned(SolverRun(false, None, t[k].fairStart, t[k].fairStart.Some?, Some(NoResult)))
        && LatestWitness(PutBy(t, k), t[k].fairStart)
  {
    RunKeeps(job, t, k);
    GoneIsEmpty(job, t, k);
    InOrder(job, t, k);
    assert ReadBy(t, k) + [] + [] == ReadBy(t, k) == PutBy(t, k);
    ParentHolds(job, t, k);
    ProducedIsLast(job, t, k);
    LatestIsUnique(PutBy(t, k), t[k].message, t[k].produced);
    ConcludedOutcome(job, t, k);
  }
}
