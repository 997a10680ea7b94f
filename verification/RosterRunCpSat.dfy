// The same run lengths as constraints with enforcement literals, and their least objective.
module RosterRunCpSat {
  import opened RosterRuns
  import opened RosterRunMilp

  // ----- models with enforced constraints -----

  datatype Lit = Lit(index: nat, negated: bool) {
    function Not(): Lit { Lit(index, !negated) }
  }

  datatype Linear = Linear(terms: seq<(nat, int)>, offset: int)

  datatype Constraint =
    | Equal(left: Linear, right: Linear, enforcedBy: seq<Lit>)
    | AtLeast(left: Linear, right: Linear, enforcedBy: seq<Lit>)
    | Implies(a: Lit, b: Lit)
    | AnyOf(lits: seq<Lit>)

  function Const(c: int): Linear { Linear([], c) }

  function Var(i: nat): Linear { Linear([(i, 1)], 0) }

  // weight times a literal: a negated one counts 1 - variable.
  function Term(l: Lit, weight: int): Linear {
    if l.negated then Linear([(l.index, -weight)], weight) else Linear([(l.index, weight)], 0)
  }

  function Plus(a: Linear, b: Linear): Linear { Linear(a.terms + b.terms, a.offset + b.offset) }

  ghost function TermSum(terms: seq<(nat, int)>, x: seq<int>, k: nat): int
    requires k <= |terms|
  {
    if k == 0 then 0
    else TermSum(terms, x, k - 1) + (if terms[k - 1].0 < |x| then terms[k - 1].1 * x[terms[k - 1].0] else 0)
  }

  ghost function Value(l: Linear, x: seq<int>): int {
    TermSum(l.terms, x, |l.terms|) + l.offset
  }

  ghost predicate LitHolds(l: Lit, x: seq<int>) {
    l.index < |x| && ((x[l.index] == 1) != l.negated)
  }

  ghost predicate AllHold(lits: seq<Lit>, x: seq<int>) {
    forall i | 0 <= i < |lits| :: LitHolds(lits[i], x)
  }

  ghost predicate Holds(c: Constraint, x: seq<int>) {
    match c
    case Equal(l, r, lits) => AllHold(lits, x) ==> Value(l, x) == Value(r, x)
    case AtLeast(l, r, lits) => AllHold(lits, x) ==> Value(l, x) >= Value(r, x)
    case Implies(a, b) => LitHolds(a, x) ==> LitHolds(b, x)
    case AnyOf(lits) => exists i :: 0 <= i < |lits| && LitHolds(lits[i], x)
  }

  ghost predicate AllOf(cs: seq<Constraint>, x: seq<int>) {
    forall i | 0 <= i < |cs| :: Holds(cs[i], x)
  }

  lemma AllOfConcat(a: seq<Constraint>, b: seq<Constraint>, x: seq<int>)
    ensures AllOf(a + b, x) <==> AllOf(a, x) && AllOf(b, x)
  {
    if AllOf(a + b, x) {
      assert forall i | 0 <= i < |a| :: a[i] == (a + b)[i];
      assert forall i | 0 <= i < |b| :: b[i] == (a + b)[|a| + i];
    }
  }

  class CpModel {
    var domains: seq<(int, int)>
    var constraints: seq<Constraint>
    var objective: Linear

    constructor ()
      ensures domains == [] && constraints == [] && objective == Const(0)
    {
      domains, constraints, objective := [], [], Const(0);
    }

    method NewVar(lower: int, upper: int) returns (index: nat)
      modifies this`domains
      ensures index == |old(domains)| && domains == old(domains) + [(lower, upper)]
    {
      index := |domains|;
      domains := domains + [(lower, upper)];
    }

    method Add(c: Constraint)
      modifies this`constraints
      ensures constraints == old(constraints) + [c]
    {
      constraints := constraints + [c];
    }

    method Minimize(l: Linear)
      modifies this`objective
      ensures objective == Plus(old(objective), l)
    {
      objective := Plus(objective, l);
    }
  }

  // ----- the conjunction literal -----

  ghost function Implications(combined: Lit, lits: seq<Lit>, k: nat): seq<Constraint>
    requires k <= |lits|
  {
    if k == 0 then [] else Implications(combined, lits, k - 1) + [Implies(combined, lits[k - 1])]
  }

  ghost function Negated(lits: seq<Lit>): (r: seq<Lit>)
    ensures |r| == |lits| && forall i | 0 <= i < |r| :: r[i] == lits[i].Not()
  {
    seq(|lits|, i requires 0 <= i < |lits| => lits[i].Not())
  }

  ghost function AndConstraints(combined: Lit, lits: seq<Lit>): seq<Constraint> {
    Implications(combined, lits, |lits|) + [AnyOf(Negated(lits) + [combined])]
  }

  method AndLiteral(model: CpModel, lits: seq<Lit>) returns (combined: Lit)
    modifies model
    ensures combined == Lit(|old(model.domains)|, false)
    ensures model.domains == old(model.domains) + [(0, 1)] && model.objective == old(model.objective)
    ensures model.constraints == old(model.constraints) + AndConstraints(combined, lits)
  {
    var index := model.NewVar(0, 1);
    combined := Lit(index, false);
    var clauses: seq<Lit> := [];
    for i := 0 to |lits|
      invariant model.domains == old(model.domains) + [(0, 1)] && model.objective == old(model.objective)
      invariant model.constraints == old(model.constraints) + Implications(combined, lits, i)
      invariant clauses == Negated(lits)[..i]
    {
      model.Add(Implies(combined, lits[i]));
      clauses := clauses + [lits[i].Not()];
    }
    assert clauses == Negated(lits);
    model.Add(AnyOf(clauses + [combined]));
  }

  lemma {:induction false} ImplicationsMeaning(combined: Lit, lits: seq<Lit>, x: seq<int>, k: nat)
    requires k <= |lits|
    ensures AllOf(Implications(combined, lits, k), x) <==> forall i | 0 <= i < k :: Holds(Implies(combined, lits[i]), x)
  {
    if k > 0 {
      ImplicationsMeaning(combined, lits, x, k - 1);
      AllOfConcat(Implications(combined, lits, k - 1), [Implies(combined, lits[k - 1])], x);
      assert AllOf([Implies(combined, lits[k - 1])], x) <==> Holds([Implies(combined, lits[k - 1])][0], x);
    }
  }

  // The new literal is equivalent to the conjunction.
  lemma AndMeaning(combined: Lit, lits: seq<Lit>, x: seq<int>)
    requires combined.index < |x| && forall i | 0 <= i < |lits| :: lits[i].index < |x|
    ensures AllOf(AndConstraints(combined, lits), x) <==> (LitHolds(combined, x) <==> AllHold(lits, x))
  {
    var clause := Negated(lits) + [combined];
    ImplicationsMeaning(combined, lits, x, |lits|);
    AllOfConcat(Implications(combined, lits, |lits|), [AnyOf(clause)], x);
    assert AllOf([AnyOf(clause)], x) <==> Holds([AnyOf(clause)][0], x);
    assert LitHolds(clause[|lits|], x) <==> LitHolds(combined, x);
    forall i | 0 <= i < |lits| ensures LitHolds(clause[i], x) <==> !LitHolds(lits[i], x) {
      assert clause[i] == lits[i].Not();
    }
    if LitHolds(combined, x) && AllOf(Implications(combined, lits, |lits|), x) {
      forall i | 0 <= i < |lits| ensures LitHolds(lits[i], x) {
        assert Holds(Implies(combined, lits[i]), x);
      }
    }
  }

  // ----- the run-length block -----

  datatype CpBlock = CpBlock(active: seq<Lit>, historyActive: bool, historyLength: nat, b: Bounds, base: nat) {
    function Days(): nat { |active| }

    // The parameters this block shares with the linear one.
    function Params(): Block { Block(seq(|active|, i => 0), historyActive, historyLength, b, base) }

    function RunVar(d: nat): nat { base + d }

    function CloseVar(d: nat): nat
      requires d > 0
    {
      base + |active| + 2 * (d - 1)
    }

    function PenaltyVar(d: nat): nat
      requires d > 0
    {
      CloseVar(d) + 1
    }

    function EndVar(): nat
      requires active != []
    {
      base + |active| + 2 * (|active| - 1)
    }

    ghost predicate Ok() {
      active != [] && (forall d | 0 <= d < |active| :: active[d].index < base) && 0 <= b.weight && 0 <= b.max
    }
  }

  ghost function UnderLinear(b: Bounds, run: nat): Linear { Linear([(run, -b.weight)], b.min * b.weight) }

  ghost function OverLinear(b: Bounds, run: nat): Linear { Linear([(run, b.weight)], -b.max * b.weight) }

  ghost function RunConstraints(blk: CpBlock, d: nat): seq<Constraint>
    requires d < blk.Days()
  {
    var a := blk.active[d];
    if d == 0 then
      [Equal(Var(blk.RunVar(0)), Const(if blk.historyActive then blk.historyLength + 1 else 1), [a]),
       Equal(Var(blk.RunVar(0)), Const(0), [a.Not()])]
    else
      var before := blk.active[d - 1];
      [Equal(Var(blk.RunVar(d)), Const(0), [a.Not()]),
       Equal(Var(blk.RunVar(d)), Const(1), [a, before.Not()]),
       Equal(Var(blk.RunVar(d)), Linear([(blk.RunVar(d - 1), 1)], 1), [a, before])]
  }

  ghost function AllRuns(blk: CpBlock, k: nat): seq<Constraint>
    requires k <= blk.Days()
  {
    if k == 0 then [] else AllRuns(blk, k - 1) + RunConstraints(blk, k - 1)
  }

  ghost function CloseConstraints(blk: CpBlock, d: nat): seq<Constraint>
    requires 0 < d < blk.Days()
  {
    var closes, penalty, run := Lit(blk.CloseVar(d), false), Var(blk.PenaltyVar(d)), blk.RunVar(d - 1);
    AndConstraints(closes, [blk.active[d - 1], blk.active[d].Not()]) +
    [AtLeast(penalty, UnderLinear(blk.b, run), [closes]), AtLeast(penalty, OverLinear(blk.b, run), [closes]),
     Equal(penalty, Const(0), [closes.Not()])]
  }

  ghost function AllCloses(blk: CpBlock, k: nat): seq<Constraint>
    requires k <= blk.Days()
  {
    if k <= 1 then [] else AllCloses(blk, k - 1) + CloseConstraints(blk, k - 1)
  }

  ghost function EndConstraints(blk: CpBlock): seq<Constraint>
    requires blk.active != []
  {
    var last := blk.active[blk.Days() - 1];
    [AtLeast(Var(blk.EndVar()), OverLinear(blk.b, blk.RunVar(blk.Days() - 1)), [last]),
     Equal(Var(blk.EndVar()), Const(0), [last.Not()])]
  }

  ghost function BlockConstraints(blk: CpBlock): seq<Constraint>
    requires blk.active != []
  {
    AllRuns(blk, blk.Days()) + AllCloses(blk, blk.Days()) + EndConstraints(blk)
  }

  ghost function CloseDomains(blk: CpBlock, k: nat): (ds: seq<(int, int)>)
    ensures |ds| == if k <= 1 then 0 else 2 * (k - 1)
  {
    if k <= 1 then [] else CloseDomains(blk, k - 1) + [(0, 1), (0, MaxClosed(blk.b, blk.Params().MaxLength() + 1))]
  }

  ghost function BlockDomains(blk: CpBlock): (ds: seq<(int, int)>)
    requires blk.active != []
    ensures |ds| == blk.EndVar() + 1 - blk.base
  {
    var most := blk.Params().MaxLength();
    seq(blk.Days(), i => (0, most)) + CloseDomains(blk, blk.Days()) + [(0, MaxEnd(blk.b, most + 1))]
  }

  ghost function PenaltyTerms(blk: CpBlock, k: nat): seq<(nat, int)> {
    if k <= 1 then [] else PenaltyTerms(blk, k - 1) + [(blk.PenaltyVar(k - 1), 1)]
  }

  ghost function HistoryTerm(blk: CpBlock): Linear
    requires blk.active != []
  {
    if blk.Params().HistoryCost() != 0 then Term(blk.active[0].Not(), blk.Params().HistoryCost()) else Const(0)
  }

  ghost function BlockObjectiveTerm(blk: CpBlock): Linear
    requires blk.active != []
  {
    var h := HistoryTerm(blk);
    Linear(h.terms + PenaltyTerms(blk, blk.Days()) + [(blk.EndVar(), 1)], h.offset)
  }

  // ----- the builder -----

  method AddRun(blk: CpBlock, d: nat, model: CpModel)
    requires d < blk.Days() && |model.domains| == blk.RunVar(d)
    modifies model
    ensures model.domains == old(model.domains) + [(0, blk.Params().MaxLength())]
    ensures model.constraints == old(model.constraints) + RunConstraints(blk, d) && model.objective == old(model.objective)
  {
    var run := model.NewVar(0, |blk.active| + blk.historyLength);
    var a := blk.active[d];
    if d == 0 {
      model.Add(Equal(Var(run), Const(if blk.historyActive then blk.historyLength + 1 else 1), [a]));
      model.Add(Equal(Var(run), Const(0), [a.Not()]));
    } else {
      var before := blk.active[d - 1];
      model.Add(Equal(Var(run), Const(0), [a.Not()]));
      model.Add(Equal(Var(run), Const(1), [a, before.Not()]));
      model.Add(Equal(Var(run), Linear([(blk.RunVar(d - 1), 1)], 1), [a, before]));
    }
  }

  method AddRuns(blk: CpBlock, model: CpModel)
    requires |model.domains| == blk.base
    modifies model
    ensures model.domains == old(model.domains) + seq(blk.Days(), i => (0, blk.Params().MaxLength()))
    ensures model.constraints == old(model.constraints) + AllRuns(blk, blk.Days()) && model.objective == old(model.objective)
  {
    for d := 0 to blk.Days()
      invariant model.domains == old(model.domains) + seq(d, i => (0, blk.Params().MaxLength()))
      invariant model.constraints == old(model.constraints) + AllRuns(blk, d) && model.objective == old(model.objective)
    {
      AddRun(blk, d, model);
    }
  }

  method AddClose(blk: CpBlock, d: nat, maxClosed: int, model: CpModel)
    requires 0 < d < blk.Days() && |model.domains| == blk.CloseVar(d)
    modifies model
    ensures model.domains == old(model.domains) + [(0, 1), (0, maxClosed)]
    ensures model.constraints == old(model.constraints) + CloseConstraints(blk, d)
    ensures model.objective == Plus(old(model.objective), Var(blk.PenaltyVar(d)))
  {
    var run := blk.RunVar(d - 1);
    var closes := AndLiteral(model, [blk.active[d - 1], blk.active[d].Not()]);
    var penalty := model.NewVar(0, maxClosed);
    var under := Linear([(run, -blk.b.weight)], blk.b.min * blk.b.weight);
    var over := Linear([(run, blk.b.weight)], -blk.b.max * blk.b.weight);
    model.Add(AtLeast(Var(penalty), under, [closes]));
    model.Add(AtLeast(Var(penalty), over, [closes]));
    model.Add(Equal(Var(penalty), Const(0), [closes.Not()]));
    model.Minimize(Var(penalty));
  }

  ghost predicate Charged(blk: CpBlock, before: Linear, k: nat, now: Linear)
    requires blk.active != []
  {
    var h := HistoryTerm(blk);
    now.terms == before.terms + (h.terms + PenaltyTerms(blk, k)) && now.offset == before.offset + h.offset
  }

  method AddCloses(blk: CpBlock, maxClosed: int, model: CpModel, ghost before: Linear)
    requires blk.active != [] && |model.domains| == blk.base + blk.Days() && Charged(blk, before, 1, model.objective)
    requires maxClosed == MaxClosed(blk.b, blk.Params().MaxLength() + 1)
    modifies model
    ensures model.domains == old(model.domains) + CloseDomains(blk, blk.Days())
    ensures model.constraints == old(model.constraints) + AllCloses(blk, blk.Days())
    ensures Charged(blk, before, blk.Days(), model.objective)
  {
    for d := 1 to blk.Days()
      invariant model.domains == old(model.domains) + CloseDomains(blk, d)
      invariant model.constraints == old(model.constraints) + AllCloses(blk, d)
      invariant Charged(blk, before, d, model.objective)
    {
      AddClose(blk, d, maxClosed, model);
    }
  }

  method AddHistory(blk: CpBlock, model: CpModel)
    requires blk.active != []
    modifies model`objective
    ensures Charged(blk, old(model.objective), 1, model.objective)
  {
    var immediate := if blk.historyActive && blk.historyLength > 0 then ClosedCost(blk.historyLength, blk.b) else 0;
    if immediate != 0 { model.Minimize(Term(blk.active[0].Not(), immediate)); }
    assert model.objective.terms == old(model.objective).terms + HistoryTerm(blk).terms;
  }

  method AddEnd(blk: CpBlock, maxEnd: int, model: CpModel)
    requires blk.active != [] && |model.domains| == blk.EndVar()
    modifies model
    ensures model.domains == old(model.domains) + [(0, maxEnd)]
    ensures model.constraints == old(model.constraints) + EndConstraints(blk)
    ensures model.objective == Plus(old(model.objective), Var(blk.EndVar()))
  {
    var end := model.NewVar(0, maxEnd);
    var last := blk.active[blk.Days() - 1];
    var over := Linear([(blk.RunVar(blk.Days() - 1), blk.b.weight)], -blk.b.max * blk.b.weight);
    model.Add(AtLeast(Var(end), over, [last]));
    model.Add(Equal(Var(end), Const(0), [last.Not()]));
    model.Minimize(Var(end));
  }

  lemma ObjectiveComplete(blk: CpBlock, before: Linear, now: Linear)
    requires blk.active != [] && Charged(blk, before, blk.Days(), now)
    ensures Plus(now, Var(blk.EndVar())) == Plus(before, BlockObjectiveTerm(blk))
  {
    var h := HistoryTerm(blk);
    assert now.terms + [(blk.EndVar(), 1)] ==
      before.terms + (h.terms + PenaltyTerms(blk, blk.Days()) + [(blk.EndVar(), 1)]);
  }

  lemma Assembled(blk: CpBlock, domains0: seq<(int, int)>, domains: seq<(int, int)>, cs0: seq<Constraint>, cs: seq<Constraint>)
    requires blk.active != []
    requires domains == domains0 + seq(blk.Days(), i => (0, blk.Params().MaxLength())) + CloseDomains(blk, blk.Days())
    requires cs == cs0 + AllRuns(blk, blk.Days()) + AllCloses(blk, blk.Days())
    ensures domains0 + BlockDomains(blk) == domains + [(0, MaxEnd(blk.b, blk.Params().MaxLength() + 1))]
    ensures cs0 + BlockConstraints(blk) == cs + EndConstraints(blk)
  {
  }

  method AddRunLengthCosts(blk: CpBlock, model: CpModel)
    requires blk.active != [] && |model.domains| == blk.base
    modifies model
    ensures model.domains == old(model.domains) + BlockDomains(blk)
    ensures model.constraints == old(model.constraints) + BlockConstraints(blk)
    ensures model.objective == Plus(old(model.objective), BlockObjectiveTerm(blk))
  {
    var maxClosed, maxEnd := LargestCosts(blk.b, |blk.active| + blk.historyLength);
    AddRuns(blk, model);
    AddHistory(blk, model);
    AddCloses(blk, maxClosed, model, old(model.objective));
    ObjectiveComplete(blk, old(model.objective), model.objective);
    Assembled(blk, old(model.domains), model.domains, old(model.constraints), model.constraints);
    AddEnd(blk, maxEnd, model);
  }

  // An empty horizon adds nothing.
  method AddBlock(blk: CpBlock, model: CpModel)
    requires |model.domains| == blk.base
    modifies model
    ensures blk.active == [] ==> unchanged(model)
    ensures blk.active != [] ==> model.domains == old(model.domains) + BlockDomains(blk)
    ensures blk.active != [] ==> model.constraints == old(model.constraints) + BlockConstraints(blk)
    ensures blk.active != [] ==> model.objective == Plus(old(model.objective), BlockObjectiveTerm(blk))
  {
    if blk.active == [] { return; }
    AddRunLengthCosts(blk, model);
  }
}
