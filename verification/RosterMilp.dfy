// The whole rostering program of the MILP adapter: assignment binaries, coverage rows, work
// and type indicators, successions, and per nurse the contract, run-length and weekend rows.
module RosterMilp {
  import opened Wrappers
  import opened Milp
  import opened MilpParts
  import opened RosterRuns
  import opened RosterRunMilp
  import opened RosterModel
  import opened RosterSlots
  import opened RosterCoverage

  // The columns in order: one per pair, one per demand, then a work column and one column
  // per shift type for every nurse and day, then each nurse's own columns.
  datatype Layout = Layout(inst: Instance, demands: seq<Need>, pairs: seq<Pair>) {
    function Days(): nat { inst.TotalDays() }

    // Pairs of consecutive days.
    function Gaps(): nat { if Days() == 0 then 0 else Days() - 1 }

    function Types(): nat { |inst.shiftTypes| }

    function CellBase(): nat { |pairs| + |demands| }

    function CellCol(n: nat, g: nat): nat { CellBase() + (n * Days() + g) * (1 + Types()) }

    function TypeCol(n: nat, g: nat, t: nat): nat { CellCol(n, g) + 1 + t }

    function CellsEnd(): nat { CellBase() + |inst.nurses| * Days() * (1 + Types()) }

    ghost predicate Ok() {
      && inst.WellFormed() && TypesKnown()
      && CoverageOf(Slots(Needs(inst)), demands)
      && pairs == AllPairs(inst, demands, |demands|)
    }

    // Every type the rows name is a shift type of the instance.
    ghost predicate TypesKnown() {
      && (forall i | 0 <= i < |demands| :: demands[i].shiftType < Types())
      && (forall i | 0 <= i < |inst.forbidden| :: inst.forbidden[i].0 < Types() &&
            forall k | 0 <= k < |inst.forbidden[i].1| :: inst.forbidden[i].1[k] < Types())
    }
  }

  function GlobalDay(d: Need): nat { d.week * 7 + d.day }

  // ----- which assignment columns a row sums -----

  function ForDemand(l: Layout, j: nat): nat -> bool {
    (p: nat) => p < |l.pairs| && l.pairs[p].demand == j
  }

  function Mine(l: Layout, n: nat): nat -> bool {
    (p: nat) => p < |l.pairs| && l.pairs[p].nurse == n
  }

  function OnDay(l: Layout, n: nat, g: nat): nat -> bool {
    (p: nat) => p < |l.pairs| && l.pairs[p].nurse == n && l.pairs[p].demand < |l.demands| &&
         GlobalDay(l.demands[l.pairs[p].demand]) == g
  }

  function InType(l: Layout, n: nat, g: nat, t: nat): nat -> bool {
    (p: nat) => p < |l.pairs| && l.pairs[p].nurse == n && l.pairs[p].demand < |l.demands| &&
         GlobalDay(l.demands[l.pairs[p].demand]) == g && l.demands[l.pairs[p].demand].shiftType == t
  }

  ghost function Sum(l: Layout, f: nat -> bool, coef: real): seq<(nat, real)> {
    Terms(Where(f, |l.pairs|), coef)
  }

  // ----- assignments and coverage -----

  ghost function RequestCost(l: Layout, p: nat): real
    requires p < |l.pairs| && l.pairs[p].demand < |l.demands|
  {
    var d := l.demands[l.pairs[p].demand];
    (10 * RequestCount(Requests(l.inst), l.pairs[p].nurse, GlobalDay(d), d.shiftType)) as real
  }

  ghost function AssignCol(l: Layout, p: nat): Col
    requires p < |l.pairs| && l.pairs[p].demand < |l.demands|
  {
    Col(0.0, 1.0, RequestCost(l, p), true)
  }

  ghost predicate PairsInRange(l: Layout) {
    forall p | 0 <= p < |l.pairs| :: l.pairs[p].demand < |l.demands| && l.pairs[p].nurse < |l.inst.nurses|
  }

  ghost function AssignPart(l: Layout): Part
    requires PairsInRange(l)
  {
    Part(seq(|l.pairs|, p requires 0 <= p < |l.pairs| => AssignCol(l, p)), [])
  }

  ghost function DemandRows(l: Layout, j: nat): seq<Row>
    requires j < |l.demands|
  {
    var most := At(l.demands[j].optimal as real);
    [Row(Sum(l, ForDemand(l, j), 1.0), At(l.demands[j].minimum as real), most),
     Row([(|l.pairs| + j, 1.0)] + Sum(l, ForDemand(l, j), 1.0), most, most)]
  }

  ghost function CoverRows(l: Layout, j: nat): seq<Row>
    requires j <= |l.demands|
  {
    if j == 0 then [] else CoverRows(l, j - 1) + DemandRows(l, j - 1)
  }

  ghost function CoverCol(l: Layout, j: nat): Col
    requires j < |l.demands|
  {
    Col(0.0, l.demands[j].optimal as real, 30.0, false)
  }

  ghost function CoverCols(l: Layout, j: nat): (cols: seq<Col>)
    requires j <= |l.demands|
    ensures |cols| == j
  {
    seq(j, i requires 0 <= i < j => CoverCol(l, i))
  }

  ghost function CoverPart(l: Layout): Part { Part(CoverCols(l, |l.demands|), CoverRows(l, |l.demands|)) }

  // ----- indicators -----

  ghost function TypeRow(l: Layout, n: nat, g: nat, t: nat): Row {
    Row([(l.TypeCol(n, g, t), 1.0)] + Sum(l, InType(l, n, g, t), -1.0), At(0.0), At(0.0))
  }

  ghost function TypeRows(l: Layout, n: nat, g: nat, t: nat): seq<Row> {
    if t == 0 then [] else TypeRows(l, n, g, t - 1) + [TypeRow(l, n, g, t - 1)]
  }

  ghost function WorkRow(l: Layout, n: nat, g: nat): Row {
    Row([(l.CellCol(n, g), 1.0)] + Sum(l, OnDay(l, n, g), -1.0), At(0.0), At(0.0))
  }

  ghost function CellRows(l: Layout, n: nat, g: nat): seq<Row> {
    if g == 0 then [] else CellRows(l, n, g - 1) + ([WorkRow(l, n, g - 1)] + TypeRows(l, n, g - 1, l.Types()))
  }

  ghost function AllCellRows(l: Layout, n: nat): seq<Row> {
    if n == 0 then [] else AllCellRows(l, n - 1) + CellRows(l, n - 1, l.Days())
  }

  ghost function Free(k: nat): (cols: seq<Col>)
    ensures |cols| == k && forall i | 0 <= i < k :: cols[i] == Col(0.0, 1.0, 0.0, false)
  {
    seq(k, i => Col(0.0, 1.0, 0.0, false))
  }

  ghost function CellsPart(l: Layout): Part {
    Part(Free(|l.inst.nurses| * l.Days() * (1 + l.Types())), AllCellRows(l, |l.inst.nurses|))
  }

  // ----- successions -----

  ghost function SuccessionRow(l: Layout, n: nat, g: nat, previous: nat, next: nat): Row {
    Row([(l.TypeCol(n, g, previous), 1.0), (l.TypeCol(n, g + 1, next), 1.0)], NoBound, At(1.0))
  }

  ghost function SuccessorRows(l: Layout, n: nat, g: nat, entry: (nat, seq<nat>), k: nat): seq<Row>
    requires k <= |entry.1|
  {
    if k == 0 then [] else SuccessorRows(l, n, g, entry, k - 1) + [SuccessionRow(l, n, g, entry.0, entry.1[k - 1])]
  }

  ghost function TableRows(l: Layout, n: nat, g: nat, i: nat): seq<Row>
    requires i <= |l.inst.forbidden|
  {
    if i == 0 then []
    else TableRows(l, n, g, i - 1) + SuccessorRows(l, n, g, l.inst.forbidden[i - 1], |l.inst.forbidden[i - 1].1|)
  }

  ghost function DaySuccessions(l: Layout, n: nat, g: nat): seq<Row> {
    if g == 0 then [] else DaySuccessions(l, n, g - 1) + TableRows(l, n, g - 1, |l.inst.forbidden|)
  }

  ghost function AllSuccessions(l: Layout, n: nat): seq<Row> {
    if n == 0 then [] else AllSuccessions(l, n - 1) + DaySuccessions(l, n - 1, l.Gaps())
  }

  ghost function SuccessionPart(l: Layout): Part { Part([], AllSuccessions(l, |l.inst.nurses|)) }

  // ----- one nurse -----

  ghost predicate NurseOk(l: Layout, n: nat) {
    n < |l.inst.nurses| == |l.inst.history| && l.inst.nurses[n].contract < |l.inst.contracts|
  }

  ghost function BoundsPart(l: Layout, n: nat, at: nat): (p: Part)
    requires NurseOk(l, n)
    ensures |p.cols| == 2
  {
    var c, h := l.inst.ContractOf(n), l.inst.history[n];
    var col := Col(0.0, (h.assignments + l.Days()) as real, 20.0, false);
    Part([col, col],
         [Row([(at, 1.0)] + Sum(l, Mine(l, n), 1.0), At((c.minAssignments - h.assignments) as real), NoBound),
          Row([(at + 1, -1.0)] + Sum(l, Mine(l, n), 1.0), NoBound, At((c.maxAssignments - h.assignments) as real))])
  }

  ghost function BlockPart(blk: Block): Part
    requires blk.active != []
  {
    Part(BlockCols(blk), BlockRows(blk))
  }

  function WorkColumns(l: Layout, n: nat): (cs: seq<nat>)
    ensures |cs| == l.Days() && forall g | 0 <= g < l.Days() :: cs[g] == l.CellCol(n, g)
  {
    seq(l.Days(), g requires 0 <= g < l.Days() => l.CellCol(n, g))
  }

  function TypeColumns(l: Layout, n: nat, t: nat): (cs: seq<nat>)
    ensures |cs| == l.Days() && forall g | 0 <= g < l.Days() :: cs[g] == l.TypeCol(n, g, t)
  {
    seq(l.Days(), g requires 0 <= g < l.Days() => l.TypeCol(n, g, t))
  }

  function From(at: nat, k: nat): (cs: seq<nat>)
    ensures |cs| == k && forall i | 0 <= i < k :: cs[i] == at + i
  {
    seq(k, i requires 0 <= i < k => at + i)
  }

  function WorkBlock(l: Layout, n: nat, at: nat): Block
    requires n < |l.inst.nurses| == |l.inst.history| && l.inst.nurses[n].contract < |l.inst.contracts|
  {
    var (h, c) := (l.inst.history[n], l.inst.ContractOf(n));
    Block(WorkColumns(l, n), h.lastType.Some?, h.work, Bounds(c.minWork, c.maxWork, 30), at)
  }

  // Runs of days off live on the complement columns right before the block.
  function OffBlock(l: Layout, n: nat, at: nat): Block
    requires n < |l.inst.nurses| == |l.inst.history| && l.inst.nurses[n].contract < |l.inst.contracts|
  {
    var (h, c) := (l.inst.history[n], l.inst.ContractOf(n));
    Block(From(at, l.Days()), h.lastType.None?, h.off, Bounds(c.minOff, c.maxOff, 30), at + l.Days())
  }

  function TypeBlock(l: Layout, n: nat, t: nat, at: nat): Block
    requires n < |l.inst.history| && t < l.Types()
  {
    var (h, st) := (l.inst.history[n], l.inst.shiftTypes[t]);
    Block(TypeColumns(l, n, t), h.lastType == Some(t), h.sameType, Bounds(st.minConsecutive, st.maxConsecutive, 15), at)
  }

  ghost function OppositeRows(l: Layout, n: nat, at: nat, g: nat): seq<Row> {
    if g == 0 then []
    else OppositeRows(l, n, at, g - 1) +
         [Row([(at + g - 1, 1.0), (l.CellCol(n, g - 1), 1.0)], At(1.0), At(1.0)),
          Row([(at + g - 1, -1.0), (l.CellCol(n, g - 1), -1.0)], At(-1.0), At(-1.0))]
  }

  ghost function OppositePart(l: Layout, n: nat, at: nat): Part {
    Part(Free(l.Days()), OppositeRows(l, n, at, l.Days()))
  }

  ghost function OffPart(l: Layout, n: nat, at: nat): Part
    requires NurseOk(l, n) && l.Days() > 0
  {
    Then(OppositePart(l, n, at), BlockPart(OffBlock(l, n, at)))
  }

  // One block per shift type.
  ghost function TypeMaker(l: Layout, n: nat): (nat, nat) -> Part {
    (t: nat, at: nat) =>
      if n < |l.inst.history| && t < l.Types() && l.Days() > 0 then BlockPart(TypeBlock(l, n, t, at)) else Part([], [])
  }

  ghost function TypesPart(l: Layout, n: nat, at: nat): Part { Laid(TypeMaker(l, n), l.Types(), at) }

  // Columns per weekend: worked, and split where the contract asks for complete weekends.
  function WeekWidth(c: Contract): nat { if c.completeWeekends then 2 else 1 }

  ghost function WeekRows(l: Layout, n: nat, w: nat, at: nat): seq<Row>
    requires NurseOk(l, n)
  {
    var saturday, sunday := l.CellCol(n, 7 * w + 5), l.CellCol(n, 7 * w + 6);
    [Row([(at, -1.0), (saturday, 1.0)], NoBound, At(0.0)), Row([(at, -1.0), (sunday, 1.0)], NoBound, At(0.0))] +
    (if l.inst.ContractOf(n).completeWeekends then
       [Row([(at + 1, -1.0), (saturday, 1.0), (sunday, -1.0)], NoBound, At(0.0)),
        Row([(at + 1, -1.0), (saturday, -1.0), (sunday, 1.0)], NoBound, At(0.0))]
     else [])
  }

  ghost function WeekPart(l: Layout, n: nat, w: nat, at: nat): (p: Part)
    requires NurseOk(l, n)
    ensures |p.cols| == WeekWidth(l.inst.ContractOf(n))
  {
    Part([Col(0.0, 1.0, 0.0, false)] +
         (if l.inst.ContractOf(n).completeWeekends then [Col(0.0, 1.0, 30.0, false)] else []), WeekRows(l, n, w, at))
  }

  ghost function WeeksPart(l: Layout, n: nat, w: nat, at: nat): (p: Part)
    requires NurseOk(l, n)
    ensures |p.cols| == w * WeekWidth(l.inst.ContractOf(n))
  {
    if w == 0 then Part([], [])
    else Then(WeeksPart(l, n, w - 1, at), WeekPart(l, n, w - 1, at + (w - 1) * WeekWidth(l.inst.ContractOf(n))))
  }

  function WeekendColumns(at: nat, weeks: nat, width: nat): (cs: seq<nat>)
    ensures |cs| == weeks && forall w | 0 <= w < weeks :: cs[w] == at + w * width
  {
    seq(weeks, w requires 0 <= w < weeks => at + w * width)
  }

  // The cap on weekends sums the worked-weekend columns that start at position from.
  ghost function CapPart(l: Layout, n: nat, from: nat, at: nat): (p: Part)
    requires NurseOk(l, n)
    ensures |p.cols| == 1
  {
    var c, h, weeks := l.inst.ContractOf(n), l.inst.history[n], |l.inst.weeks|;
    Part([Col(0.0, (weeks + h.weekends) as real, 30.0, false)],
         [Row([(at, -1.0)] + Terms(WeekendColumns(from, weeks, WeekWidth(c)), 1.0), NoBound,
              At((c.maxWeekends - h.weekends) as real))])
  }

  ghost function WeekendPart(l: Layout, n: nat, at: nat): Part
    requires NurseOk(l, n)
  {
    var weeks := WeeksPart(l, n, |l.inst.weeks|, at);
    Then(weeks, CapPart(l, n, at, at + |weeks.cols|))
  }

  // Contract, work runs, free runs, type runs and weekends of one nurse, one after another.
  ghost function StagePart(l: Layout, n: nat, k: nat, at: nat): Part
    requires NurseOk(l, n) && l.Days() > 0
  {
    match k
    case 0 => BoundsPart(l, n, at)
    case 1 => BlockPart(WorkBlock(l, n, at))
    case 2 => OffPart(l, n, at)
    case 3 => TypesPart(l, n, at)
    case _ => WeekendPart(l, n, at)
  }

  ghost function StageMaker(l: Layout, n: nat): (nat, nat) -> Part {
    (k: nat, at: nat) => if NurseOk(l, n) && l.Days() > 0 then StagePart(l, n, k, at) else Part([], [])
  }

  ghost function NursePart(l: Layout, n: nat, at: nat): Part { Laid(StageMaker(l, n), 5, at) }

  ghost function NurseMaker(l: Layout): (nat, nat) -> Part {
    (n: nat, at: nat) => NursePart(l, n, at)
  }

  ghost function NursesPart(l: Layout, at: nat): Part { Laid(NurseMaker(l), |l.inst.nurses|, at) }

  // The columns every nurse's rows look at, and the rows that pin them.
  ghost function SharedPart(l: Layout): Part
    requires PairsInRange(l)
  {
    Then(Then(Then(AssignPart(l), CoverPart(l)), CellsPart(l)), SuccessionPart(l))
  }

  ghost function ModelPart(l: Layout): Part
    requires PairsInRange(l)
  {
    Then(SharedPart(l), NursesPart(l, l.CellsEnd()))
  }

  lemma PairsAreInRange(l: Layout)
    requires |l.inst.nurses| == |l.inst.history| && l.pairs == AllPairs(l.inst, l.demands, |l.demands|)
    ensures PairsInRange(l)
  {
    AllPairsMeaning(l.inst, l.demands, |l.demands|);
    forall p | 0 <= p < |l.pairs| ensures l.pairs[p].demand < |l.demands| && l.pairs[p].nurse < |l.inst.nurses| {
      assert l.pairs[p] in l.pairs;
    }
  }
}
