// Whether the fleet may start anything new: what the fleet holds, the gate that
// reads it, and what the gate keeps over whole runs of the fleet.
module Admission {
  import opened SessionTable
  import opened Wrappers

  const LIMIT: nat := 0x1_0000_0000_0000_0000

  // 64 bits both for counts and for bytes.
  type u64 = x: int | 0 <= x < LIMIT
  type u32 = x: int | 0 <= x < 0x1_0000_0000

  const MIB: nat := 1024 * 1024
  const ASSUMED_SESSION_BYTES_CLAUDE: u64 := 509 * MIB
  const ASSUMED_SESSION_BYTES_CODEX: u64 := 322 * MIB
  // Seconds.
  const DEFAULT_SPEND_WINDOW: nat := 24 * 60 * 60

  function SaturatingAdd(a: u64, b: u64): u64 {
    if a + b < LIMIT then a + b else LIMIT - 1
  }

  function Saturate(n: nat): u64 {
    if n < LIMIT then n else LIMIT - 1
  }

  function AssumedSessionBytes(agent: Agent): u64 {
    match agent
    case Claude => ASSUMED_SESSION_BYTES_CLAUDE
    case Codex => ASSUMED_SESSION_BYTES_CODEX
  }

  // ---------- Configuration ----------

  // A configured amount of money, which the operator may have made infinite or not a
  // number.
  datatype Figure = Finite(amount: real) | NotFinite

  datatype AdmissionConfig = AdmissionConfig(
    maxLiveSessions: u64,
    defaultBudget: Option<real>,
    spendCeiling: Option<real>,
    spendWindow: nat,
    memoryBudget: Option<u64>,
    sessionMemoryCap: Option<u64>,
    maxProcesses: Option<u32>)

  function NonNegative(figure: Option<Figure>): Option<real> {
    match figure
    case Some(Finite(amount)) => if amount >= 0.0 then Some(amount) else None
    case _ => None
  }

  function Positive(limit: Option<u64>): Option<u64> {
    if limit.Some? && limit.value > 0 then limit else None
  }

  function NewConfig(maxLiveSessions: u64, defaultBudget: Option<Figure>): AdmissionConfig {
    AdmissionConfig(
      if maxLiveSessions > 1 then maxLiveSessions else 1,
      NonNegative(defaultBudget), None, DEFAULT_SPEND_WINDOW, None, None, None)
  }

  function WithSpendCeiling(config: AdmissionConfig, ceiling: Option<Figure>, window: Option<nat>): AdmissionConfig {
    config.(
      spendCeiling := NonNegative(ceiling),
      spendWindow := if window.Some? && window.value > 0 then window.value else DEFAULT_SPEND_WINDOW)
  }

  function WithMemoryLimits(config: AdmissionConfig, budget: Option<u64>, sessionCap: Option<u64>,
                            processes: Option<u32>): AdmissionConfig
  {
    config.(
      memoryBudget := Positive(budget),
      sessionMemoryCap := Positive(sessionCap),
      maxProcesses := if processes.Some? && processes.value > 0 then processes else None)
  }

  // ---------- What the fleet holds ----------

  datatype FleetRow = FleetRow(agent: Agent, status: SessionStatus, memory: Option<u64>)

  datatype Demand = Demand(admitted: u64, resident: u64, projectedMemory: u64, spend: real)

  predicate Live(status: SessionStatus) {
    status != Exited && status != Queued
  }

  predicate HoldsSlot(status: SessionStatus) {
    Live(status) && status != RateLimited
  }

  function ExpectedBytes(row: FleetRow): u64 {
    if row.memory.Some? then row.memory.value else AssumedSessionBytes(row.agent)
  }

  function SlotShare(row: FleetRow): nat {
    if HoldsSlot(row.status) then 1 else 0
  }

  function LiveShare(row: FleetRow): nat {
    if Live(row.status) then 1 else 0
  }

  function MemoryShare(row: FleetRow): nat {
    if Live(row.status) then ExpectedBytes(row) else 0
  }

  function Sum(share: FleetRow -> nat, rows: seq<FleetRow>): nat {
    if rows == [] then 0 else Sum(share, rows[..|rows| - 1]) + share(rows[|rows| - 1])
  }

  function Slots(rows: seq<FleetRow>): nat {
    Sum(SlotShare, rows)
  }

  function Residents(rows: seq<FleetRow>): nat {
    Sum(LiveShare, rows)
  }

  function Memory(rows: seq<FleetRow>): nat {
    Sum(MemoryShare, rows)
  }

  // The summary in unbounded arithmetic, cut off once at the end.
  function DemandOf(rows: seq<FleetRow>, spend: real): Demand {
    Demand(Saturate(Slots(rows)), Saturate(Residents(rows)), Saturate(Memory(rows)), spend)
  }

  // The summary as it is built, saturating at each step.
  class FleetDemand {
    var admitted: u64
    var resident: u64
    var projectedMemory: u64
    var spend: real

    function Value(): Demand
      reads this
    {
      Demand(admitted, resident, projectedMemory, spend)
    }

    constructor ()
      ensures Value() == Demand(0, 0, 0, 0.0)
    {
      admitted, resident, projectedMemory, spend := 0, 0, 0, 0.0;
    }

    // One session that holds a slot.
    method Admit(agent: Agent, memory: Option<u64>)
      modifies this
      ensures Value() == Demand(
        SaturatingAdd(old(admitted), 1),
        SaturatingAdd(old(resident), 1),
        SaturatingAdd(old(projectedMemory), if memory.Some? then memory.value else AssumedSessionBytes(agent)),
        old(spend))
    {
      admitted := SaturatingAdd(admitted, 1);
      Reside(agent, memory);
    }

    // One session that has a process but no slot.
    method Reside(agent: Agent, memory: Option<u64>)
      modifies this
      ensures Value() == Demand(
        old(admitted),
        SaturatingAdd(old(resident), 1),
        SaturatingAdd(old(projectedMemory), if memory.Some? then memory.value else AssumedSessionBytes(agent)),
        old(spend))
    {
      resident := SaturatingAdd(resident, 1);
      projectedMemory :=
        SaturatingAdd(projectedMemory, if memory.Some? then memory.value else AssumedSessionBytes(agent));
    }
  }

  // The registry's walk over its rows.
  method AdmittedDemand(rows: seq<FleetRow>) returns (demand: FleetDemand)
    ensures fresh(demand) && demand.Value() == DemandOf(rows, 0.0)
  {
    demand := new FleetDemand();
    for i := 0 to |rows|
      invariant fresh(demand) && demand.Value() == DemandOf(rows[..i], 0.0)
    {
      assert rows[..i + 1][..i] == rows[..i];
      var row := rows[i];
      if HoldsSlot(row.status) {
        demand.Admit(row.agent, row.memory);
      } else if Live(row.status) {
        demand.Reside(row.agent, row.memory);
      }
    }
    assert rows[..|rows|] == rows;
  }

  // ---------- The summary does not depend on the walk ----------

  lemma {:induction false} SumSplits(share: FleetRow -> nat, a: seq<FleetRow>, b: seq<FleetRow>)
    ensures Sum(share, a + b) == Sum(share, a) + Sum(share, b)
    decreases |b|
  {
    if b == [] {
      assert a + b == a;
    } else {
      assert (a + b)[..|a + b| - 1] == a + b[..|b| - 1];
      SumSplits(share, a, b[..|b| - 1]);
    }
  }

  lemma SumGrows(share: FleetRow -> nat, front: seq<FleetRow>, row: FleetRow)
    ensures Sum(share, front + [row]) == Sum(share, front) + share(row)
  {
    assert (front + [row])[..|front|] == front;
  }

  lemma SumTakesOut(share: FleetRow -> nat, rows: seq<FleetRow>, i: nat)
    requires i < |rows|
    ensures Sum(share, rows) == Sum(share, rows[..i] + rows[i + 1..]) + share(rows[i])
  {
    hide Sum;
    SumSplits(share, rows[..i] + [rows[i]], rows[i + 1..]);
    SumGrows(share, rows[..i], rows[i]);
    SumSplits(share, rows[..i], rows[i + 1..]);
    assert rows == rows[..i] + [rows[i]] + rows[i + 1..];
  }

  lemma SumReplaces(share: FleetRow -> nat, rows: seq<FleetRow>, i: nat, row: FleetRow)
    requires i < |rows|
    ensures Sum(share, rows[i := row]) == Sum(share, rows) - share(rows[i]) + share(row)
  {
    SumTakesOut(share, rows, i);
    SumTakesOut(share, rows[i := row], i);
    assert rows[i := row][..i] + rows[i := row][i + 1..] == rows[..i] + rows[i + 1..];
  }

  lemma WithoutOne(rows: seq<FleetRow>, i: nat)
    requires i < |rows|
    ensures multiset(rows[..i] + rows[i + 1..]) == multiset(rows) - multiset{rows[i]}
  {
    assert rows == rows[..i] + [rows[i]] + rows[i + 1..];
  }

  lemma LastOccurs(a: seq<FleetRow>, b: seq<FleetRow>) returns (i: nat)
    requires a != [] && multiset(a) == multiset(b)
    ensures i < |b| && b[i] == a[|a| - 1]
    ensures multiset(b[..i] + b[i + 1..]) == multiset(a[..|a| - 1])
  {
    var n := |a| - 1;
    assert a[n] in multiset(b);
    i :| 0 <= i < |b| && b[i] == a[n];
    WithoutOne(a, n);
    WithoutOne(b, i);
    assert a[..n] + a[n + 1..] == a[..n];
  }

  lemma {:induction false} SumPermutes(share: FleetRow -> nat, a: seq<FleetRow>, b: seq<FleetRow>)
    requires multiset(a) == multiset(b)
    ensures Sum(share, a) == Sum(share, b)
    decreases |a|
  {
    if a == [] {
      assert |multiset(b)| == 0;
    } else {
      var front, last := a[..|a| - 1], a[|a| - 1];
      var i := LastOccurs(a, b);
      SumPermutes(share, front, b[..i] + b[i + 1..]);
      SumTakesOut(share, b, i);
    }
  }

  // Whatever order the rows are walked in.
  lemma OrderIsIrrelevant(a: seq<FleetRow>, b: seq<FleetRow>, spend: real)
    requires multiset(a) == multiset(b)
    ensures DemandOf(a, spend) == DemandOf(b, spend)
  {
    SumPermutes(SlotShare, a, b);
    SumPermutes(LiveShare, a, b);
    SumPermutes(MemoryShare, a, b);
  }

  function LimitedShare(row: FleetRow): nat {
    if row.status == RateLimited then 1 else 0
  }

  // A slot needs a process, and the difference is exactly the rate-limited rows.
  lemma {:induction false} SlotsAreResident(rows: seq<FleetRow>)
    ensures Residents(rows) == Slots(rows) + Sum(LimitedShare, rows)
    decreases |rows|
  {
    if rows != [] {
      SlotsAreResident(rows[..|rows| - 1]);
    }
  }

  predicate Running(row: FleetRow) {
    row.status !in {Exited, Queued}
  }

  // The rows of a fleet that are counted, by their place.
  function Places(rows: seq<FleetRow>, counted: FleetRow -> bool): set<nat> {
    set k: nat | k < |rows| && counted(rows[k])
  }

  lemma PlacesGrow(front: seq<FleetRow>, row: FleetRow, counted: FleetRow -> bool)
    ensures |Places(front + [row], counted)| == |Places(front, counted)| + if counted(row) then 1 else 0
  {
    var rows := front + [row];
    assert Places(rows, counted) == Places(front, counted) + if counted(row) then {|front|} else {};
  }

  // What is counted: a process for every row that neither ended nor waits to start, and
  // a slot for each of those that is not held up by its provider.
  lemma {:induction false} CountsAre(rows: seq<FleetRow>)
    ensures Residents(rows) == |Places(rows, Running)|
    ensures Slots(rows) == |Places(rows, row => Running(row) && row.status != RateLimited)|
    decreases |rows|
  {
    if rows != [] {
      var front, last := rows[..|rows| - 1], rows[|rows| - 1];
      assert rows == front + [last];
      CountsAre(front);
      PlacesGrow(front, last, Running);
      PlacesGrow(front, last, row => Running(row) && row.status != RateLimited);
    }
  }

  // And the memory: what each of those was last seen to use, or 509 or 322 MiB.
  lemma MemoryIs(rows: seq<FleetRow>, row: FleetRow)
    ensures Memory([]) == 0
    ensures Memory(rows + [row]) == Memory(rows) +
              if row.status in {Exited, Queued} then 0
              else if row.memory.Some? then row.memory.value
              else if row.agent == Claude then 533_725_184 else 337_641_472
  {
    SumGrows(MemoryShare, rows, row);
  }

  // ---------- The gate ----------

  datatype AdmissionBlock = SlotsFull | SpendCeiling | MemoryBudget

  function Block(config: AdmissionConfig, demand: Demand): Option<AdmissionBlock> {
    if demand.admitted >= config.maxLiveSessions then Some(SlotsFull)
    else if config.spendCeiling.Some? && demand.spend >= config.spendCeiling.value then Some(SpendCeiling)
    else if config.memoryBudget.Some? then
      var headroom :=
        if ASSUMED_SESSION_BYTES_CLAUDE < ASSUMED_SESSION_BYTES_CODEX
        then ASSUMED_SESSION_BYTES_CLAUDE
        else ASSUMED_SESSION_BYTES_CODEX;
      var occupied := demand.resident > 0;
      if occupied && SaturatingAdd(demand.projectedMemory, headroom) > config.memoryBudget.value
      then Some(MemoryBudget)
      else None
    else None
  }

  // The gate is open exactly when every limit that is set has room for one Codex
  // session more, in unbounded arithmetic: saturation only matters under a budget that
  // no sum of 64 bits can pass.
  lemma GateIsOpen(config: AdmissionConfig, rows: seq<FleetRow>, spend: real)
    ensures Block(config, DemandOf(rows, spend)).None? <==>
              && Slots(rows) < config.maxLiveSessions
              && (config.spendCeiling.Some? ==> spend < config.spendCeiling.value)
              && (config.memoryBudget.Some? ==>
                    || Residents(rows) == 0
                    || Memory(rows) + ASSUMED_SESSION_BYTES_CODEX <= config.memoryBudget.value
                    || config.memoryBudget.value == LIMIT - 1)
  {
  }

  // And when it is closed it says which limit, the slots before the money and the money
  // before the memory.
  lemma BlockNamesTheLimit(config: AdmissionConfig, rows: seq<FleetRow>, spend: real)
    ensures
      var block := Block(config, DemandOf(rows, spend));
      var full := Slots(rows) >= config.maxLiveSessions;
      var spent := config.spendCeiling.Some? && config.spendCeiling.value <= spend;
      && (block == Some(SlotsFull) <==> full)
      && (block == Some(SpendCeiling) <==> !full && spent)
      && (block == Some(MemoryBudget) <==>
            && !full && !spent && config.memoryBudget.Some? && Residents(rows) > 0
            && Memory(rows) + ASSUMED_SESSION_BYTES_CODEX > config.memoryBudget.value
            && config.memoryBudget.value < LIMIT - 1)
  {
    GateIsOpen(config, rows, spend);
  }

  // Less of everything never closes the gate.
  lemma GateIsMonotone(config: AdmissionConfig, less: Demand, more: Demand)
    requires less.admitted <= more.admitted && less.resident <= more.resident
    requires less.projectedMemory <= more.projectedMemory && less.spend <= more.spend
    ensures Block(config, more).None? ==> Block(config, less).None?
  {
  }

  // Which limits a configuration ends up with: what was asked for, unless it is nothing
  // (for money: negative, infinite or no number), and a day's window if none was.
  lemma LimitsAreKept(
      maxLiveSessions: u64, defaultBudget: Option<Figure>, ceiling: Option<Figure>, window: Option<nat>,
      budget: Option<u64>, sessionCap: Option<u64>, processes: Option<u32>)
    ensures
      var config := WithMemoryLimits(
        WithSpendCeiling(NewConfig(maxLiveSessions, defaultBudget), ceiling, window), budget, sessionCap, processes);
      && config.maxLiveSessions >= 1 && (maxLiveSessions >= 1 ==> config.maxLiveSessions == maxLiveSessions)
      && (maxLiveSessions == 0 ==> config.maxLiveSessions == 1)
      && (forall a :: config.defaultBudget == Some(a) <==> defaultBudget == Some(Finite(a)) && 0.0 <= a)
      && (forall a :: config.spendCeiling == Some(a) <==> ceiling == Some(Finite(a)) && 0.0 <= a)
      && (forall n :: config.memoryBudget == Some(n) <==> budget == Some(n) && n != 0)
      && (forall n :: config.sessionMemoryCap == Some(n) <==> sessionCap == Some(n) && n != 0)
      && (forall n :: config.maxProcesses == Some(n) <==> processes == Some(n) && n != 0)
      && config.spendWindow == (if window in {None, Some(0)} then 86_400 else window.value)
  {
  }

  // Limits that make no sense are dropped, so that they cannot stop an empty fleet
  // that has spent nothing. The exception is a ceiling of zero, which is kept and
  // stops everything for good.
  lemma OnlyAZeroCeilingHaltsAnEmptyFleet(
      maxLiveSessions: u64, defaultBudget: Option<Figure>, ceiling: Option<Figure>, window: Option<nat>,
      budget: Option<u64>, sessionCap: Option<u64>, processes: Option<u32>)
    ensures
      var config := WithMemoryLimits(
        WithSpendCeiling(NewConfig(maxLiveSessions, defaultBudget), ceiling, window), budget, sessionCap, processes);
      Block(config, DemandOf([], 0.0)) == if ceiling == Some(Finite(0.0)) then Some(SpendCeiling) else None
  {
    assert Slots([]) == 0;
  }

  // ---------- Runs of the fleet ----------

  // Start is a queued, crashed or stopped row asking to run again. It keeps the last
  // figure it was sampled at.
  datatype Step =
    | Launch(agent: Agent, spend: real)
    | Start(row: nat, spend: real)
    | Change(row: nat, status: SessionStatus)
    | Sample(row: nat, bytes: u64)
    | Remove(row: nat)

  function StartIn(config: AdmissionConfig, rows: seq<FleetRow>, spend: real): SessionStatus {
    if Block(config, DemandOf(rows, spend)).None? then Starting else Queued
  }

  function Next(config: AdmissionConfig, rows: seq<FleetRow>, step: Step): seq<FleetRow> {
    match step
    case Launch(agent, spend) => rows + [FleetRow(agent, StartIn(config, rows, spend), None)]
    case Start(i, spend) =>
      if i < |rows| && !Live(rows[i].status)
      then rows[i := rows[i].(status := StartIn(config, rows, spend))]
      else rows
    case Change(i, status) =>
      if i < |rows| && (Live(status) ==> Live(rows[i].status))
      then rows[i := rows[i].(status := status)]
      else rows
    case Sample(i, bytes) =>
      if i < |rows| && Live(rows[i].status) then rows[i := rows[i].(memory := Some(bytes))] else rows
    case Remove(i) =>
      if i < |rows| then rows[..i] + rows[i + 1..] else rows
  }

  function RunOf(config: AdmissionConfig, rows: seq<FleetRow>, run: seq<Step>): seq<FleetRow> {
    if run == [] then rows else Next(config, RunOf(config, rows, run[..|run| - 1]), run[|run| - 1])
  }

  // The gate decides a launch and a start alike: it runs at once when every limit that is
  // set has room, and is queued otherwise. Nothing else changes.
  lemma GateDecidesStarts(config: AdmissionConfig, rows: seq<FleetRow>, agent: Agent, i: nat, spend: real)
    ensures
      var room :=
        && Slots(rows) < config.maxLiveSessions
        && (config.spendCeiling.Some? ==> spend < config.spendCeiling.value)
        && (config.memoryBudget.Some? ==>
              || Residents(rows) == 0
              || Memory(rows) + ASSUMED_SESSION_BYTES_CODEX <= config.memoryBudget.value
              || config.memoryBudget.value == LIMIT - 1);
      var status := if room then Starting else Queued;
      && Next(config, rows, Launch(agent, spend)) == rows + [FleetRow(agent, status, None)]
      && (i < |rows| && rows[i].status in {Exited, Queued} ==>
            Next(config, rows, Start(i, spend)) == rows[i := FleetRow(rows[i].agent, status, rows[i].memory)])
  {
    GateIsOpen(config, rows, spend);
  }

  // A rate-limited session gets its slot back without asking the gate.
  function ReturnsAt(rows: seq<FleetRow>, step: Step): nat {
    if step.Change? && step.row < |rows| && rows[step.row].status == RateLimited && HoldsSlot(step.status)
    then 1 else 0
  }

  function Returns(config: AdmissionConfig, rows: seq<FleetRow>, run: seq<Step>): nat {
    if run == [] then 0
    else
      Returns(config, rows, run[..|run| - 1])
      + ReturnsAt(RunOf(config, rows, run[..|run| - 1]), run[|run| - 1])
  }

  // By how much a sample raises what its row is expected to hold.
  function GrowthAt(rows: seq<FleetRow>, step: Step): nat {
    if step.Sample? && step.row < |rows| && Live(rows[step.row].status) && step.bytes > ExpectedBytes(rows[step.row])
    then step.bytes - ExpectedBytes(rows[step.row])
    else 0
  }

  function Growth(config: AdmissionConfig, rows: seq<FleetRow>, run: seq<Step>): nat {
    if run == [] then 0
    else
      Growth(config, rows, run[..|run| - 1])
      + GrowthAt(RunOf(config, rows, run[..|run| - 1]), run[|run| - 1])
  }

  // What the largest session that asks to start is expected to hold.
  function LargestStart(config: AdmissionConfig, rows: seq<FleetRow>, run: seq<Step>): nat {
    if run == [] then 0
    else
      var before := LargestStart(config, rows, run[..|run| - 1]);
      var now := RunOf(config, rows, run[..|run| - 1]);
      var asked :=
        match run[|run| - 1]
        case Launch(agent, _) => AssumedSessionBytes(agent)
        case Start(i, _) => if i < |now| then ExpectedBytes(now[i]) else 0
        case _ => 0;
      if asked > before then asked else before
  }

  lemma StepMovesSums(share: FleetRow -> nat, config: AdmissionConfig, rows: seq<FleetRow>, step: Step)
    ensures
      var next := Next(config, rows, step);
      if step.Launch? then
        Sum(share, next)
        == Sum(share, rows) + share(FleetRow(step.agent, StartIn(config, rows, step.spend), None))
      else if step.Remove? then
        Sum(share, next) <= Sum(share, rows)
      else
        next == rows
        || (step.row < |rows| == |next|
            && Sum(share, next) == Sum(share, rows) - share(rows[step.row]) + share(next[step.row]))
  {
    if step.Launch? {
      assert Next(config, rows, step)[..|rows|] == rows;
    } else if step.row < |rows| {
      if step.Remove? {
        SumTakesOut(share, rows, step.row);
      } else {
        SumReplaces(share, rows, step.row, Next(config, rows, step)[step.row]);
      }
    }
  }

  lemma SlotsStep(config: AdmissionConfig, rows: seq<FleetRow>, step: Step)
    ensures
      var next := Next(config, rows, step);
      Slots(next) <= Slots(rows) + ReturnsAt(rows, step) || Slots(next) <= config.maxLiveSessions
  {
    StepMovesSums(SlotShare, config, rows, step);
  }

  // One step passes the cap exactly when it is such a return into a full fleet.
  lemma CapIsPassedOnlyByAReturn(config: AdmissionConfig, rows: seq<FleetRow>, step: Step)
    requires Slots(rows) <= config.maxLiveSessions
    ensures Slots(Next(config, rows, step)) > config.maxLiveSessions <==>
              ReturnsAt(rows, step) == 1 && Slots(rows) == config.maxLiveSessions
  {
    StepMovesSums(SlotShare, config, rows, step);
  }

  // The cap holds but for the sessions that came back from a provider's limit.
  lemma {:induction false} SlotsOverRuns(config: AdmissionConfig, rows: seq<FleetRow>, run: seq<Step>)
    requires Slots(rows) <= config.maxLiveSessions
    ensures Slots(RunOf(config, rows, run)) <= config.maxLiveSessions + Returns(config, rows, run)
    decreases |run|
  {
    if run != [] {
      SlotsOverRuns(config, rows, run[..|run| - 1]);
      SlotsStep(config, RunOf(config, rows, run[..|run| - 1]), run[|run| - 1]);
    }
  }

  lemma MemoryStep(config: AdmissionConfig, rows: seq<FleetRow>, step: Step, budget: u64, largest: nat)
    requires config.memoryBudget == Some(budget) && budget < LIMIT - 1
    requires step.Launch? ==> AssumedSessionBytes(step.agent) <= largest
    requires step.Start? && step.row < |rows| ==> ExpectedBytes(rows[step.row]) <= largest
    ensures
      var next := Next(config, rows, step);
      || Memory(next) <= Memory(rows) + GrowthAt(rows, step)
      || Memory(next) <= largest
      || Memory(next) <= budget - ASSUMED_SESSION_BYTES_CODEX + largest
  {
    StepMovesSums(MemoryShare, config, rows, step);
    if step.Launch? || step.Start? {
      GateIsOpen(config, rows, step.spend);
      NobodyHoldsNothing(rows);
    }
  }

  lemma {:induction false} NobodyHoldsNothing(rows: seq<FleetRow>)
    ensures Residents(rows) == 0 ==> Memory(rows) == 0
    decreases |rows|
  {
    if rows != [] {
      NobodyHoldsNothing(rows[..|rows| - 1]);
    }
  }

  function Allowance(budget: nat, largest: nat): int {
    if budget >= ASSUMED_SESSION_BYTES_CODEX then budget - ASSUMED_SESSION_BYTES_CODEX + largest else largest
  }

  // The projection stays within the budget, give or take the difference between the
  // largest session that started and the one the gate keeps room for, and whatever the
  // running sessions were seen to grow by.
  lemma {:induction false} MemoryOverRuns(config: AdmissionConfig, run: seq<Step>, budget: u64)
    requires config.memoryBudget == Some(budget) && budget < LIMIT - 1
    ensures Memory(RunOf(config, [], run))
         <= Allowance(budget, LargestStart(config, [], run)) + Growth(config, [], run)
    decreases |run|
  {
    if run != [] {
      var front := run[..|run| - 1];
      MemoryOverRuns(config, front, budget);
      MemoryStep(config, RunOf(config, [], front), run[|run| - 1], budget, LargestStart(config, [], run));
    }
  }

  // A run in which every session that starts is a new one.
  predicate OnlyLaunches(run: seq<Step>) {
    forall k :: 0 <= k < |run| ==> !run[k].Start?
  }

  lemma {:induction false} LaunchesAreAssumed(config: AdmissionConfig, run: seq<Step>)
    requires OnlyLaunches(run)
    ensures LargestStart(config, [], run) <= ASSUMED_SESSION_BYTES_CLAUDE
    ensures (forall k :: 0 <= k < |run| && run[k].Launch? ==> run[k].agent == Codex) ==>
              LargestStart(config, [], run) <= ASSUMED_SESSION_BYTES_CODEX
    decreases |run|
  {
    if run != [] {
      LaunchesAreAssumed(config, run[..|run| - 1]);
      assert run[|run| - 1] in run;
    }
  }

  // With a budget large enough for one session, new sessions keep within it when all
  // are Codex, and within 187 MiB of it otherwise, until they are seen to grow.
  lemma {:induction false} LaunchesStayNearTheBudget(config: AdmissionConfig, run: seq<Step>, budget: u64)
    requires config.memoryBudget == Some(budget) && ASSUMED_SESSION_BYTES_CODEX <= budget < LIMIT - 1
    requires OnlyLaunches(run)
    ensures Memory(RunOf(config, [], run)) <= budget + 187 * MIB + Growth(config, [], run)
    ensures (forall k :: 0 <= k < |run| && run[k].Launch? ==> run[k].agent == Codex) ==>
              Memory(RunOf(config, [], run)) <= budget + Growth(config, [], run)
  {
    MemoryOverRuns(config, run, budget);
    LaunchesAreAssumed(config, run);
  }

  lemma NoSlots()
    ensures Slots([]) == 0
  {
  }

  lemma SlotsOfTwo(first: FleetRow, second: FleetRow)
    ensures Slots([first]) == SlotShare(first)
    ensures Slots([first, second]) == SlotShare(first) + SlotShare(second)
  {
    assert [first][..0] == [] && Sum(SlotShare, []) == 0;
    assert Sum(SlotShare, [first]) == Sum(SlotShare, []) + SlotShare(first);
    assert [first, second][..1] == [first];
  }

  lemma LaunchWhenOpen(config: AdmissionConfig, rows: seq<FleetRow>)
    requires Slots(rows) < config.maxLiveSessions && config.spendCeiling.None? && config.memoryBudget.None?
    ensures Next(config, rows, Launch(Claude, 0.0)) == rows + [FleetRow(Claude, Starting, None)]
  {
    GateIsOpen(config, rows, 0.0);
  }

  // The cap on its own is not kept: one slot, and a second session let in while the
  // first was rate-limited.
  lemma CapIsPassedByAReturn(config: AdmissionConfig)
    requires config.maxLiveSessions == 1 && config.spendCeiling.None? && config.memoryBudget.None?
    ensures
      var launched := Next(config, [], Launch(Claude, 0.0));
      var limited := Next(config, launched, Change(0, RateLimited));
      var second := Next(config, limited, Launch(Claude, 0.0));
      Slots(Next(config, second, Change(0, Working))) == 2
  {
    hide Block, DemandOf, Sum;
    var starting := FleetRow(Claude, Starting, None);
    var limited, working := starting.(status := RateLimited), starting.(status := Working);
    NoSlots();
    LaunchWhenOpen(config, []);
    assert Next(config, [], Launch(Claude, 0.0)) == [starting];
    assert Next(config, [starting], Change(0, RateLimited)) == [limited];
    SlotsOfTwo(limited, starting);
    LaunchWhenOpen(config, [limited]);
    assert Next(config, [limited], Launch(Claude, 0.0)) == [limited, starting];
    SlotsOfTwo(working, starting);
    assert Next(config, [limited, starting], Change(0, Working)) == [working, starting];
  }
}
