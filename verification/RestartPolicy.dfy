// The supervisor's restart policy: what one process exit decides, and what that
// adds up to over a whole run of exits.
module RestartPolicy {
  import opened Wrappers

  type u32 = x: int | 0 <= x < 0x1_0000_0000
  type u64 = x: int | 0 <= x < 0x1_0000_0000_0000_0000

  const STATUS_CONTROL_C_EXIT: u32 := 0xC000_013A
  const MAX_RESTARTS: u32 := 5
  // Milliseconds.
  const RESTART_BACKOFF_BASE: nat := 250
  const RESTART_BACKOFF_MAX: nat := 30_000
  // Nanoseconds: ten minutes.
  const RESTART_WINDOW: nat := 600_000_000_000

  datatype ExitClass = Finished | Abnormal

  // A delay is in milliseconds.
  datatype RestartDecision = Backoff(delay: u64) | Failed | Finished

  // ranFor is in nanoseconds; None when the start was never recorded. draw is what
  // the random source gives if it is asked, None when it fails.
  datatype Exit = Exit(exitCode: Option<u32>, ranFor: Option<nat>, draw: Option<u64>)

  datatype Outcome = Outcome(decision: RestartDecision, restartsSpent: u32)

  // ---------- One exit ----------

  function ClassifyExit(exitCode: Option<u32>): ExitClass {
    if exitCode == Some(0) || exitCode == Some(STATUS_CONTROL_C_EXIT)
    then ExitClass.Finished
    else ExitClass.Abnormal
  }

  function Pow2(n: nat): (p: nat)
    ensures p >= 1
  {
    if n == 0 then 1 else 2 * Pow2(n - 1)
  }

  function Min(a: int, b: int): int {
    if a < b then a else b
  }

  // The exponent is clamped to 63 so that the shift cannot overflow 128 bits.
  function BackoffCeiling(attempt: u32): (ceiling: u64)
    ensures ceiling <= RESTART_BACKOFF_MAX
  {
    var exponent := Min(if attempt == 0 then 0 else attempt - 1, 63);
    Min(RESTART_BACKOFF_BASE * Pow2(exponent), RESTART_BACKOFF_MAX)
  }

  function Jitter(ceiling: u64, draw: Option<u64>): (delay: u64)
    requires ceiling < 0xFFFF_FFFF_FFFF_FFFF
    ensures delay <= ceiling
    ensures draw.None? ==> delay == ceiling
  {
    if ceiling == 0 then 0
    else if draw.None? then ceiling
    else draw.value % (ceiling + 1)
  }

  predicate FullWindow(exit: Exit) {
    exit.ranFor.Some? && exit.ranFor.value >= RESTART_WINDOW
  }

  function Decide(spent: u32, exit: Exit): Outcome {
    var restartsSpent: u32 := if FullWindow(exit) then 0 else spent;
    if ClassifyExit(exit.exitCode) == ExitClass.Finished then
      Outcome(RestartDecision.Finished, restartsSpent)
    else if restartsSpent >= MAX_RESTARTS then
      Outcome(RestartDecision.Failed, restartsSpent)
    else
      var attempt: u32 := restartsSpent + 1;
      Outcome(Backoff(Jitter(BackoffCeiling(attempt), exit.draw)), attempt)
  }

  // ---------- The ceiling ----------

  lemma {:induction false} Pow2Grows(m: nat, n: nat)
    requires m <= n
    ensures Pow2(m) <= Pow2(n)
    decreases n
  {
    if m < n {
      Pow2Grows(m, n - 1);
    }
  }

  // The clamped exponent never shows: the ceiling is the unbounded exponential cut
  // off at the maximum, for every attempt a counter can hold.
  lemma CeilingIsExponential(attempt: u32)
    requires attempt >= 1
    ensures BackoffCeiling(attempt) == Min(RESTART_BACKOFF_BASE * Pow2(attempt - 1), RESTART_BACKOFF_MAX)
  {
    if attempt > 64 {
      Pow2Small();
      Pow2Grows(7, 63);
      Pow2Grows(63, attempt - 1);
    }
  }

  // Waiting longer never lowers it.
  lemma CeilingGrows(m: u32, n: u32)
    requires m <= n
    ensures BackoffCeiling(m) <= BackoffCeiling(n)
  {
    var a := Min(if m == 0 then 0 else m - 1, 63);
    var b := Min(if n == 0 then 0 else n - 1, 63);
    Pow2Grows(a, b);
  }

  lemma Pow2Small()
    ensures Pow2(0) == 1 && Pow2(1) == 2 && Pow2(2) == 4 && Pow2(3) == 8
    ensures Pow2(4) == 16 && Pow2(5) == 32 && Pow2(6) == 64 && Pow2(7) == 128
  {
    assert Pow2(3) == 2 * Pow2(2);
    assert Pow2(5) == 2 * Pow2(4);
    assert Pow2(7) == 2 * Pow2(6);
  }

  // ---------- A run of exits ----------

  function SpentAfter(spent: u32, run: seq<Exit>): u32 {
    if run == [] then spent
    else Decide(SpentAfter(spent, run[..|run| - 1]), run[|run| - 1]).restartsSpent
  }

  function DecisionAt(spent: u32, run: seq<Exit>, k: nat): RestartDecision
    requires k < |run|
  {
    Decide(SpentAfter(spent, run[..k]), run[k]).decision
  }

  function Backoffs(spent: u32, run: seq<Exit>): nat {
    if run == [] then 0
    else Backoffs(spent, run[..|run| - 1]) + (if DecisionAt(spent, run, |run| - 1).Backoff? then 1 else 0)
  }

  function TotalDelay(spent: u32, run: seq<Exit>): nat {
    if run == [] then 0
    else
      var last := DecisionAt(spent, run, |run| - 1);
      TotalDelay(spent, run[..|run| - 1]) + (if last.Backoff? then last.delay else 0)
  }

  function FullWindows(run: seq<Exit>): nat {
    if run == [] then 0
    else FullWindows(run[..|run| - 1]) + (if FullWindow(run[|run| - 1]) then 1 else 0)
  }

  function TotalRunTime(run: seq<Exit>): nat {
    if run == [] then 0
    else
      var last := run[|run| - 1].ranFor;
      TotalRunTime(run[..|run| - 1]) + (if last.Some? then last.value else 0)
  }

  // Where the current spell begins: at the last process that ran a full window.
  function SpellStart(run: seq<Exit>): (start: nat)
    ensures start <= |run|
    ensures start < |run| ==> start == 0 || FullWindow(run[start])
    ensures forall k :: start < k < |run| ==> !FullWindow(run[k])
  {
    if run == [] then 0
    else if FullWindow(run[|run| - 1]) then |run| - 1
    else SpellStart(run[..|run| - 1])
  }

  function Abnormals(run: seq<Exit>): nat {
    if run == [] then 0
    else
      Abnormals(run[..|run| - 1]) + (if ClassifyExit(run[|run| - 1].exitCode) == ExitClass.Abnormal then 1 else 0)
  }

  function SpellCrashes(run: seq<Exit>): nat {
    Abnormals(run[SpellStart(run)..])
  }

  // ---------- What the counter means ----------

  // A process that ran for ten minutes starts a new spell, and every exit but a clean one
  // and an interrupt from the keyboard is a crash, a code that cannot be read included.
  lemma SpellStep(run: seq<Exit>)
    requires run != []
    ensures
      var last := run[|run| - 1];
      SpellCrashes(run)
      == (if last.ranFor.Some? && last.ranFor.value >= 600_000_000_000 then 0 else SpellCrashes(run[..|run| - 1]))
         + (if last.exitCode in {Some(0), Some(0xC000_013A)} then 0 else 1)
  {
    var front, last := run[..|run| - 1], run[|run| - 1];
    if FullWindow(last) {
      assert run[|run| - 1..] == [last];
      assert Abnormals([last][..0]) == 0;
    } else {
      var s := SpellStart(front);
      assert run[s..][..|run[s..]| - 1] == front[s..];
    }
  }

  // Between clean slates the counter is the number of crashes, stopping at five: the
  // sixth crash of one spell is the one that is not restarted, and no other is.
  lemma {:induction false} CounterCountsTheSpell(run: seq<Exit>)
    ensures SpentAfter(0, run) == Min(SpellCrashes(run), MAX_RESTARTS)
  {
    if run != [] {
      CounterCountsTheSpell(run[..|run| - 1]);
      SpellStep(run);
    }
  }

  lemma DecisionCountsTheSpell(run: seq<Exit>)
    requires run != []
    ensures
      var last := run[|run| - 1];
      var decision := DecisionAt(0, run, |run| - 1);
      && (decision.Finished? <==> last.exitCode in {Some(0), Some(0xC000_013A)})
      && (decision.Failed? <==> last.exitCode !in {Some(0), Some(0xC000_013A)} && SpellCrashes(run) > MAX_RESTARTS)
      && (decision.Backoff? ==>
            1 <= SpellCrashes(run) <= MAX_RESTARTS
            && decision.delay <= RESTART_BACKOFF_BASE * Pow2(SpellCrashes(run) - 1) <= 4_000)
  {
    var front := run[..|run| - 1];
    CounterCountsTheSpell(front);
    SpellStep(run);
    Pow2Small();
  }

  // Which draws give a delay: one in every ceiling + 1 of them, and the same ones for all
  // delays up to the ceiling, but for the last, incomplete block of 64-bit values.
  lemma DrawsOfADelay(ceiling: u64, draw: u64, delay: u64)
    requires ceiling < 0xFFFF_FFFF_FFFF_FFFF && delay <= ceiling
    ensures Jitter(ceiling, Some(draw)) == delay <==> exists block: nat :: draw == BlockStart(ceiling, block) + delay
  {
    var q := draw / (ceiling + 1);
    assert draw == BlockStart(ceiling, q) + draw % (ceiling + 1);
    forall block: nat | draw == BlockStart(ceiling, block) + delay ensures draw % (ceiling + 1) == delay {
      BlocksAreApart(ceiling + 1, block, delay, q, draw % (ceiling + 1));
    }
  }

  function BlockStart(ceiling: nat, block: nat): nat {
    block * (ceiling + 1)
  }

  lemma BlocksAreApart(size: nat, p: nat, x: nat, q: nat, y: nat)
    requires x < size && y < size && p * size + x == q * size + y
    ensures p == q && x == y
  {
    AtLeastOne(p - q, size);
    assert (p - q) * size == y - x;
  }

  lemma AtLeastOne(n: int, size: nat)
    ensures n >= 1 ==> n * size >= size
    ensures n <= -1 ==> n * size + size <= 0
  {
  }

  // After any run whose last crash is restarted, every delay up to the exponential
  // ceiling is one that draw can give, and no other is.
  lemma EveryDelayIsPossible(front: seq<Exit>, last: Exit, delay: u64)
    requires DecisionAt(0, front + [last], |front|).Backoff?
    ensures
      var crashes := SpellCrashes(front + [last]);
      && 1 <= crashes <= MAX_RESTARTS
      && (delay <= RESTART_BACKOFF_BASE * Pow2(crashes - 1) <==>
            exists draw :: DecisionAt(0, front + [last.(draw := draw)], |front|) == Backoff(delay))
  {
    var run := front + [last];
    assert run[..|front|] == front;
    DecisionCountsTheSpell(run);
    CounterCountsTheSpell(front);
    SpellStep(run);
    Pow2Small();
    var attempt := SpellCrashes(run);
    CeilingIsExponential(attempt);
    var ceiling := BackoffCeiling(attempt);
    forall draw
      ensures DecisionAt(0, front + [last.(draw := draw)], |front|) == Backoff(Jitter(ceiling, draw))
    {
      assert (front + [last.(draw := draw)])[..|front|] == front;
    }
    if delay <= ceiling {
      assert delay == BlockStart(ceiling, 0) + delay;
      DrawsOfADelay(ceiling, delay, delay);
      assert DecisionAt(0, front + [last.(draw := Some(delay))], |front|) == Backoff(delay);
    }
  }

  lemma {:induction false} CounterStaysInBudget(spent: u32, run: seq<Exit>)
    requires spent <= MAX_RESTARTS
    ensures SpentAfter(spent, run) <= MAX_RESTARTS
  {
    if run != [] {
      CounterStaysInBudget(spent, run[..|run| - 1]);
    }
  }

  // ---------- The amortised budget ----------

  lemma {:induction false} BackoffsAreAmortised(spent: u32, run: seq<Exit>)
    requires spent <= MAX_RESTARTS
    ensures Backoffs(spent, run) + spent <= SpentAfter(spent, run) + MAX_RESTARTS * FullWindows(run)
  {
    if run != [] {
      BackoffsAreAmortised(spent, run[..|run| - 1]);
      CounterStaysInBudget(spent, run[..|run| - 1]);
    }
  }

  lemma {:induction false} FullWindowsTakeTime(run: seq<Exit>)
    ensures RESTART_WINDOW * FullWindows(run) <= TotalRunTime(run)
  {
    if run != [] {
      FullWindowsTakeTime(run[..|run| - 1]);
    }
  }

  // At most five restarts, and five more for each ten minutes of running.
  lemma RestartBudget(run: seq<Exit>)
    ensures Backoffs(0, run) <= MAX_RESTARTS * (1 + FullWindows(run))
    ensures RESTART_WINDOW * Backoffs(0, run) <= MAX_RESTARTS * (RESTART_WINDOW + TotalRunTime(run))
  {
    BackoffsAreAmortised(0, run);
    CounterStaysInBudget(0, run);
    FullWindowsTakeTime(run);
  }

  // Every delay the policy hands out, and what the delays of a run add up to: 7.75
  // seconds for each spell. Potential is what the restarts spent so far could have cost.
  function Potential(spent: u32): int
    requires spent <= MAX_RESTARTS
  {
    RESTART_BACKOFF_BASE * (Pow2(spent) - 1)
  }

  lemma PotentialIsBounded(spent: u32)
    requires spent <= MAX_RESTARTS
    ensures 0 <= Potential(spent) <= 7_750
  {
    Pow2Small();
    Pow2Grows(spent, 5);
  }

  lemma {:induction false} DelaysAreAmortised(spent: u32, run: seq<Exit>)
    requires spent <= MAX_RESTARTS
    ensures SpentAfter(spent, run) <= MAX_RESTARTS
    ensures TotalDelay(spent, run) + Potential(spent) <= Potential(SpentAfter(spent, run)) + 7_750 * FullWindows(run)
  {
    CounterStaysInBudget(spent, run);
    if run != [] {
      var front := run[..|run| - 1];
      DelaysAreAmortised(spent, front);
      var before := SpentAfter(spent, front);
      PotentialIsBounded(before);
      var from: u32 := if FullWindow(run[|run| - 1]) then 0 else before;
      assert Potential(0) == 0;
      if from < MAX_RESTARTS {
        assert Potential(from + 1) == Potential(from) + RESTART_BACKOFF_BASE * Pow2(from);
        CeilingIsExponential(from + 1);
      }
    }
  }

  lemma DelayBudget(run: seq<Exit>)
    ensures TotalDelay(0, run) <= 7_750 * (1 + FullWindows(run))
  {
    DelaysAreAmortised(0, run);
    PotentialIsBounded(SpentAfter(0, run));
    assert Potential(0) == 0;
  }

  // ---------- The bounds are reached ----------

  function Crash(ranFor: nat): Exit {
    Exit(Some(1), Some(ranFor), None)
  }

  function WithFourMore(run: seq<Exit>): seq<Exit> {
    run + [Crash(0)] + [Crash(0)] + [Crash(0)] + [Crash(0)]
  }

  // The worst run with w full windows: five crashes at once, then again after each.
  function WorstRun(w: nat): seq<Exit> {
    WithFourMore(if w == 0 then [Crash(0)] else WorstRun(w - 1) + [Crash(RESTART_WINDOW)])
  }

  lemma RunStep(spent: u32, front: seq<Exit>, last: Exit)
    ensures
      var outcome := Decide(SpentAfter(spent, front), last);
      && SpentAfter(spent, front + [last]) == outcome.restartsSpent
      && Backoffs(spent, front + [last]) == Backoffs(spent, front) + (if outcome.decision.Backoff? then 1 else 0)
      && TotalDelay(spent, front + [last])
         == TotalDelay(spent, front) + (if outcome.decision.Backoff? then outcome.decision.delay else 0)
      && FullWindows(front + [last]) == FullWindows(front) + (if FullWindow(last) then 1 else 0)
  {
    assert (front + [last])[..|front + [last]| - 1] == front;
  }

  lemma OneMoreCrash(run: seq<Exit>)
    requires 1 <= SpentAfter(0, run) < MAX_RESTARTS
    ensures SpentAfter(0, run + [Crash(0)]) == SpentAfter(0, run) + 1
    ensures Backoffs(0, run + [Crash(0)]) == Backoffs(0, run) + 1
    ensures TotalDelay(0, run + [Crash(0)]) == TotalDelay(0, run) + RESTART_BACKOFF_BASE * Pow2(SpentAfter(0, run))
    ensures FullWindows(run + [Crash(0)]) == FullWindows(run)
  {
    RunStep(0, run, Crash(0));
    Pow2Small();
    Pow2Grows(SpentAfter(0, run), 4);
  }

  lemma FourMoreCrashes(run: seq<Exit>)
    requires SpentAfter(0, run) == 1
    ensures SpentAfter(0, WithFourMore(run)) == MAX_RESTARTS
    ensures Backoffs(0, WithFourMore(run)) == Backoffs(0, run) + 4
    ensures TotalDelay(0, WithFourMore(run)) == TotalDelay(0, run) + 7_500
    ensures FullWindows(WithFourMore(run)) == FullWindows(run)
  {
    hide SpentAfter, Backoffs, TotalDelay, FullWindows, Crash;
    Pow2Small();
    OneMoreCrash(run);
    OneMoreCrash(run + [Crash(0)]);
    OneMoreCrash(run + [Crash(0)] + [Crash(0)]);
    OneMoreCrash(run + [Crash(0)] + [Crash(0)] + [Crash(0)]);
  }

  lemma FreshCrash(run: seq<Exit>, ranFor: nat)
    requires ranFor >= RESTART_WINDOW || SpentAfter(0, run) == 0
    ensures SpentAfter(0, run + [Crash(ranFor)]) == 1
    ensures Backoffs(0, run + [Crash(ranFor)]) == Backoffs(0, run) + 1
    ensures TotalDelay(0, run + [Crash(ranFor)]) == TotalDelay(0, run) + 250
    ensures FullWindows(run + [Crash(ranFor)]) == FullWindows(run) + (if ranFor >= RESTART_WINDOW then 1 else 0)
  {
    Pow2Small();
    RunStep(0, run, Crash(ranFor));
  }

  // Neither bound can be lowered, whatever the number of full windows.
  lemma {:induction false} BudgetsAreTight(w: nat)
    ensures FullWindows(WorstRun(w)) == w
    ensures Backoffs(0, WorstRun(w)) == MAX_RESTARTS * (1 + w)
    ensures TotalDelay(0, WorstRun(w)) == 7_750 * (1 + w)
  {
    hide WithFourMore, Decide;
    if w == 0 {
      FreshCrash([], 0);
      assert [] + [Crash(0)] == [Crash(0)];
      FourMoreCrashes([Crash(0)]);
    } else {
      BudgetsAreTight(w - 1);
      FreshCrash(WorstRun(w - 1), RESTART_WINDOW);
      FourMoreCrashes(WorstRun(w - 1) + [Crash(RESTART_WINDOW)]);
    }
  }
}
