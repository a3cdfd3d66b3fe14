/** The simulation driver `run_sim`: initialise, zero the burn counters,
    then cycle. Each cycle first applies the cycle limit, then the
    lightning strike and the transition, then checks the current grid
    (after the strike, before the transition) for fire, and only then
    adopts the next grid and advances the cycle index. Printing and
    pacing are left out. */
module Driver {
  import opened Cells
  import opened Transition
  import opened Lightning
  import opened Initialisation
  import opened Ranking

  /** Why the run stopped. `InitIncomplete` stands for an initialisation
      that ran out of its attempt budget, which the source never does. */
  datatype Halt = CycleLimit | FiresOut | InitIncomplete

  /** The final state: the cycle index, the grid the source holds in
      `grid` at the stop, the burn counters, and the cumulative changes. */
  datatype Run = Run(halt: Halt, cycle: nat, grid: Grid, counters: Counters, changes: nat)

  /** No cell of g is burning: the count of burning cells is zero. */
  predicate NoFire(g: Grid)
  {
    GridCount(g, {Burning}) == 0
  }

  lemma NoFireMeans(g: Grid)
    ensures NoFire(g) <==> forall i, j :: 0 <= i < |g| && 0 <= j < |g[i]| ==> g[i][j] != Burning
  {
    if forall i, j :: 0 <= i < |g| && 0 <= j < |g[i]| ==> g[i][j] != Burning {
      GridCountNone(g, {Burning});
    } else {
      var i, j :| 0 <= i < |g| && 0 <= j < |g[i]| && g[i][j] == Burning;
      GridCountSome(g, i, j, {Burning});
    }
  }

  /** The fires-out scan: true exactly when no cell is burning. */
  method NoneBurning(g: Grid) returns (out: bool)
    requires IsSquare(g, |g|)
    ensures out <==> NoFire(g)
  {
    out := true;
    var r := 0;
    while r < |g| && out
      invariant 0 <= r <= |g|
      invariant out <==> forall i, j :: 0 <= i < r && 0 <= j < |g| ==> g[i][j] != Burning
    {
      var c := 0;
      while c < |g|
        invariant 0 <= c <= |g|
        invariant out <==> forall j :: 0 <= j < c ==> g[r][j] != Burning
        invariant out
      {
        if g[r][c] == Burning {
          out := false;
          break;
        }
        c := c + 1;
      }
      r := r + 1;
    }
    NoFireMeans(g);
  }

  /** Every cell of `a` that is empty or burned is the same in `b`. */
  predicate Settled(a: Grid, b: Grid)
    requires SameShape(a, b)
  {
    forall i, j :: 0 <= i < |a| && 0 <= j < |a[i]| && (a[i][j] == Empty || a[i][j] == Burned) ==> b[i][j] == a[i][j]
  }

  lemma SettledTrans(a: Grid, b: Grid, c: Grid)
    requires SameShape(a, b) && SameShape(a, c) && Settled(a, b) && Settled(b, c)
    ensures Settled(a, c)
  {
  }

  /** What one transition keeps: the shape, and every empty or burned
      cell. From a grid without fire the counters still keep the bound;
      from a grid holding fire the next grid keeps the counter bound,
      ranks strictly lower, and at least one change is counted. */
  lemma TransitionKeeps(cfg: Config, g: Grid, cnt: Counters, rolls: nat -> nat, rc: nat)
    requires IsSquare(g, cfg.size) && IsSquare(cnt, cfg.size) && CountersBounded(g, cnt)
    ensures var next := StepGrid(cfg, g, cnt, rolls, rc);
      var counters := StepCounters(cfg, g, cnt, rolls, rc);
      && IsSquare(next, cfg.size) && IsSquare(counters, cfg.size)
      && Settled(g, next)
      && (NoFire(g) ==> CountersBounded(g, counters))
      && (!NoFire(g) ==> && CountersBounded(next, counters)
                         && Rank(next, counters) < Rank(g, cnt)
                         && StepChanges(cfg, g, rolls, rc) >= 1)
  {
    StepKeepsEmptyAndBurned(cfg, g, cnt, rolls, rc);
    StepLowersRank(cfg, g, cnt, rolls, rc);
    StepKeepsCountersBounded(cfg, g, cnt, rolls, rc);
    NoFireMeans(g);
  }

  /** The variables of `run_sim` at the top of a cycle: grid, counters,
      cycle index, cumulative changes, and the positions reached in the
      pick and roll streams. */
  datatype Progress = Progress(grid: Grid, counters: Counters, cycle: nat, changes: nat, pc: nat, rc: nat)

  /** A cycle's outcome: whether the fires-out test stopped the run, and
      the variables after it. */
  datatype Turn = Turn(out: bool, next: Progress)

  /** The loop body of `run_sim` past the cycle-limit test. The strike
      draws from the pick stream and the transition from the roll stream;
      the changes of the transition are added up; the fires-out test
      looks at the struck grid. When it finds no fire the run stops
      holding the struck grid; otherwise the next grid is adopted and the
      cycle index goes up. */
  function CycleStep(cfg: Config, st: Progress, picks: nat -> nat, rolls: nat -> nat, strikes: nat -> bool): (t: Turn)
    requires ValidConfig(cfg) && IsSquare(st.grid, cfg.size) && IsSquare(st.counters, cfg.size)
  {
    var s := Strike(cfg, st.grid, st.counters, strikes(st.cycle), picks, st.pc);
    var out := NoFire(s.grid);
    Turn(out, Progress(
      if out then s.grid else StepGrid(cfg, s.grid, s.counters, rolls, st.rc),
      StepCounters(cfg, s.grid, s.counters, rolls, st.rc),
      if out then st.cycle else st.cycle + 1,
      st.changes + StepChanges(cfg, s.grid, rolls, st.rc),
      st.pc + s.used,
      st.rc + StepRolls(cfg, s.grid)))
  }

  /** A cycle keeps the grid shape and the counter bound. */
  lemma CycleKeeps(cfg: Config, st: Progress, picks: nat -> nat, rolls: nat -> nat, strikes: nat -> bool)
    requires ValidConfig(cfg) && IsSquare(st.grid, cfg.size) && IsSquare(st.counters, cfg.size)
    requires CountersBounded(st.grid, st.counters)
    ensures var t := CycleStep(cfg, st, picks, rolls, strikes);
      && IsSquare(t.next.grid, cfg.size) && IsSquare(t.next.counters, cfg.size)
      && CountersBounded(t.next.grid, t.next.counters)
  {
    var s := Strike(cfg, st.grid, st.counters, strikes(st.cycle), picks, st.pc);
    StrikeKeepsBounds(cfg, st.grid, st.counters, strikes(st.cycle), picks, st.pc);
    TransitionKeeps(cfg, s.grid, s.counters, rolls, st.rc);
  }

  /** A cycle keeps every empty or burned cell. */
  lemma CycleSettles(cfg: Config, st: Progress, picks: nat -> nat, rolls: nat -> nat, strikes: nat -> bool)
    requires ValidConfig(cfg) && IsSquare(st.grid, cfg.size) && IsSquare(st.counters, cfg.size)
    ensures var t := CycleStep(cfg, st, picks, rolls, strikes);
      SameShape(st.grid, t.next.grid) && Settled(st.grid, t.next.grid)
  {
    var s := Strike(cfg, st.grid, st.counters, strikes(st.cycle), picks, st.pc);
    assert Settled(st.grid, s.grid);
    if !NoFire(s.grid) {
      var next := StepGrid(cfg, s.grid, s.counters, rolls, st.rc);
      StepKeepsEmptyAndBurned(cfg, s.grid, s.counters, rolls, st.rc);
      assert Settled(s.grid, next);
      SettledTrans(st.grid, s.grid, next);
    }
  }

  /** A cycle that stops leaves no burning cell and the cycle index alone;
      a cycle that goes on advances the index, lowers the ranking and
      makes at least one change. */
  lemma CycleProgresses(cfg: Config, st: Progress, picks: nat -> nat, rolls: nat -> nat, strikes: nat -> bool)
    requires ValidConfig(cfg) && IsSquare(st.grid, cfg.size) && IsSquare(st.counters, cfg.size)
    requires CountersBounded(st.grid, st.counters)
    ensures var t := CycleStep(cfg, st, picks, rolls, strikes);
      && (t.out ==> NoFire(t.next.grid) && t.next.cycle == st.cycle && t.next.changes >= st.changes)
      && (!t.out ==> && t.next.cycle == st.cycle + 1 && t.next.changes > st.changes
                     && Rank(t.next.grid, t.next.counters) < Rank(st.grid, st.counters))
  {
    var s := Strike(cfg, st.grid, st.counters, strikes(st.cycle), picks, st.pc);
    StrikeKeepsBounds(cfg, st.grid, st.counters, strikes(st.cycle), picks, st.pc);
    TransitionKeeps(cfg, s.grid, s.counters, rolls, st.rc);
  }

  /** The run of `run_sim` from the top of a cycle: the cycle-limit test,
      then cycles until the limit or the fires-out test stops it. It stops
      at the cycle limit exactly at max_cycles, or before that with no
      burning cell in the grid it holds. It makes at most Rank(start)
      continuing cycles, each with at least one change; the final counters
      keep the counter bound, and empty and burned cells never change. */
  function RunFrom(cfg: Config, st: Progress, picks: nat -> nat, rolls: nat -> nat, strikes: nat -> bool): (run: Run)
    requires ValidConfig(cfg) && IsSquare(st.grid, cfg.size) && IsSquare(st.counters, cfg.size)
    requires CountersBounded(st.grid, st.counters)
    decreases Rank(st.grid, st.counters)
  {
    if cfg.maxCycles != -1 && st.cycle >= cfg.maxCycles then
      Run(CycleLimit, st.cycle, st.grid, st.counters, st.changes)
    else
      var t := CycleStep(cfg, st, picks, rolls, strikes);
      CycleKeeps(cfg, st, picks, rolls, strikes);
      CycleProgresses(cfg, st, picks, rolls, strikes);
      if t.out then Run(FiresOut, t.next.cycle, t.next.grid, t.next.counters, t.next.changes)
      else
        RunFrom(cfg, t.next, picks, rolls, strikes)
  }

  /** At the cycle limit the run stops with the variables as they are. */
  lemma RunAtLimit(cfg: Config, st: Progress, picks: nat -> nat, rolls: nat -> nat, strikes: nat -> bool)
    requires ValidConfig(cfg) && IsSquare(st.grid, cfg.size) && IsSquare(st.counters, cfg.size)
    requires CountersBounded(st.grid, st.counters)
    requires cfg.maxCycles != -1 && st.cycle >= cfg.maxCycles
    ensures RunFrom(cfg, st, picks, rolls, strikes) == Run(CycleLimit, st.cycle, st.grid, st.counters, st.changes)
  {
  }

  /** Below the cycle limit the run makes one cycle, then stops on the
      fires-out test or goes on. */
  lemma RunAfterCycle(cfg: Config, st: Progress, picks: nat -> nat, rolls: nat -> nat, strikes: nat -> bool)
    requires ValidConfig(cfg) && IsSquare(st.grid, cfg.size) && IsSquare(st.counters, cfg.size)
    requires CountersBounded(st.grid, st.counters)
    requires !(cfg.maxCycles != -1 && st.cycle >= cfg.maxCycles)
    ensures var t := CycleStep(cfg, st, picks, rolls, strikes);
      && IsSquare(t.next.grid, cfg.size) && IsSquare(t.next.counters, cfg.size)
      && CountersBounded(t.next.grid, t.next.counters)
      && RunFrom(cfg, st, picks, rolls, strikes)
         == if t.out then Run(FiresOut, t.next.cycle, t.next.grid, t.next.counters, t.next.changes)
            else RunFrom(cfg, t.next, picks, rolls, strikes)
  {
    CycleKeeps(cfg, st, picks, rolls, strikes);
  }

  /** One cycle past the cycle-limit test, as `run_sim` runs it: the
      strike, the `update` loop, and the fires-out scan of the struck
      grid. It computes CycleStep exactly, field by field. */
  method Cycle(cfg: Config, st: Progress, picks: nat -> nat, rolls: nat -> nat, strikes: nat -> bool)
    returns (out: bool, st': Progress)
    requires ValidConfig(cfg) && IsSquare(st.grid, cfg.size) && IsSquare(st.counters, cfg.size)
    requires CountersBounded(st.grid, st.counters)
    ensures Turn(out, st') == CycleStep(cfg, st, picks, rolls, strikes)
  {
    var s := Strike(cfg, st.grid, st.counters, strikes(st.cycle), picks, st.pc);
    var next, nextCounters, delta, rollUsed := Update(cfg, s.grid, s.counters, rolls, st.rc);
    out := NoneBurning(s.grid);
    st' := Progress(if out then s.grid else next, nextCounters, if out then st.cycle else st.cycle + 1,
                    st.changes + delta, st.pc + s.used, st.rc + rollUsed);
  }

  /** The run stops only at the cycle limit, exactly at max_cycles, or on
      the fires-out test before that limit with no burning cell in the
      grid it holds. */
  lemma {:induction false} RunEnds(cfg: Config, st: Progress, picks: nat -> nat, rolls: nat -> nat, strikes: nat -> bool)
    requires ValidConfig(cfg) && IsSquare(st.grid, cfg.size) && IsSquare(st.counters, cfg.size)
    requires CountersBounded(st.grid, st.counters)
    requires cfg.maxCycles == -1 || st.cycle <= cfg.maxCycles
    ensures var run := RunFrom(cfg, st, picks, rolls, strikes);
      && (run.halt == CycleLimit || run.halt == FiresOut)
      && (run.halt == CycleLimit ==> cfg.maxCycles != -1 && run.cycle == cfg.maxCycles)
      && (run.halt == FiresOut ==> (cfg.maxCycles == -1 || run.cycle < cfg.maxCycles) && NoFire(run.grid))
    decreases Rank(st.grid, st.counters)
  {
    if cfg.maxCycles != -1 && st.cycle >= cfg.maxCycles {
      RunAtLimit(cfg, st, picks, rolls, strikes);
    } else {
      RunAfterCycle(cfg, st, picks, rolls, strikes);
      CycleProgresses(cfg, st, picks, rolls, strikes);
      var t := CycleStep(cfg, st, picks, rolls, strikes);
      if !t.out {
        RunEnds(cfg, t.next, picks, rolls, strikes);
      }
    }
  }

  /** The run ends on a square grid and counters within the counter bound. */
  lemma {:induction false} RunKeeps(cfg: Config, st: Progress, picks: nat -> nat, rolls: nat -> nat, strikes: nat -> bool)
    requires ValidConfig(cfg) && IsSquare(st.grid, cfg.size) && IsSquare(st.counters, cfg.size)
    requires CountersBounded(st.grid, st.counters)
    ensures var run := RunFrom(cfg, st, picks, rolls, strikes);
      && IsSquare(run.grid, cfg.size) && IsSquare(run.counters, cfg.size)
      && CountersBounded(run.grid, run.counters)
    decreases Rank(st.grid, st.counters)
  {
    if cfg.maxCycles != -1 && st.cycle >= cfg.maxCycles {
      RunAtLimit(cfg, st, picks, rolls, strikes);
    } else {
      RunAfterCycle(cfg, st, picks, rolls, strikes);
      CycleProgresses(cfg, st, picks, rolls, strikes);
      var t := CycleStep(cfg, st, picks, rolls, strikes);
      if !t.out {
        RunKeeps(cfg, t.next, picks, rolls, strikes);
      }
    }
  }

  /** Every empty or burned cell of the start is still there when the run
      ends. */
  lemma {:induction false} RunSettles(cfg: Config, st: Progress, picks: nat -> nat, rolls: nat -> nat, strikes: nat -> bool)
    requires ValidConfig(cfg) && IsSquare(st.grid, cfg.size) && IsSquare(st.counters, cfg.size)
    requires CountersBounded(st.grid, st.counters)
    ensures var run := RunFrom(cfg, st, picks, rolls, strikes);
      SameShape(st.grid, run.grid) && Settled(st.grid, run.grid)
    decreases Rank(st.grid, st.counters)
  {
    if cfg.maxCycles != -1 && st.cycle >= cfg.maxCycles {
      RunAtLimit(cfg, st, picks, rolls, strikes);
    } else {
      RunAfterCycle(cfg, st, picks, rolls, strikes);
      CycleProgresses(cfg, st, picks, rolls, strikes);
      CycleSettles(cfg, st, picks, rolls, strikes);
      var t := CycleStep(cfg, st, picks, rolls, strikes);
      if !t.out {
        RunSettles(cfg, t.next, picks, rolls, strikes);
        SettledTrans(st.grid, t.next.grid, RunFrom(cfg, t.next, picks, rolls, strikes).grid);
      }
    }
  }

  /** The run makes at most Rank(start) continuing cycles, and each of
      them counts at least one change. */
  lemma {:induction false} RunCycles(cfg: Config, st: Progress, picks: nat -> nat, rolls: nat -> nat, strikes: nat -> bool)
    requires ValidConfig(cfg) && IsSquare(st.grid, cfg.size) && IsSquare(st.counters, cfg.size)
    requires CountersBounded(st.grid, st.counters)
    ensures var run := RunFrom(cfg, st, picks, rolls, strikes);
      && st.cycle <= run.cycle <= st.cycle + Rank(st.grid, st.counters)
      && run.changes >= st.changes + (run.cycle - st.cycle)
    decreases Rank(st.grid, st.counters)
  {
    if cfg.maxCycles != -1 && st.cycle >= cfg.maxCycles {
      RunAtLimit(cfg, st, picks, rolls, strikes);
    } else {
      RunAfterCycle(cfg, st, picks, rolls, strikes);
      CycleProgresses(cfg, st, picks, rolls, strikes);
      var t := CycleStep(cfg, st, picks, rolls, strikes);
      if !t.out {
        RunCycles(cfg, t.next, picks, rolls, strikes);
      }
    }
  }

  /** The cycle loop of `run_sim`, one Cycle per iteration after the
      cycle-limit test; it computes RunFrom. */
  method CycleLoop(cfg: Config, st0: Progress, picks: nat -> nat, rolls: nat -> nat, strikes: nat -> bool)
    returns (run: Run)
    requires ValidConfig(cfg) && IsSquare(st0.grid, cfg.size) && IsSquare(st0.counters, cfg.size)
    requires CountersBounded(st0.grid, st0.counters)
    ensures run == RunFrom(cfg, st0, picks, rolls, strikes)
  {
    var st := st0;
    while true
      invariant IsSquare(st.grid, cfg.size) && IsSquare(st.counters, cfg.size)
      invariant CountersBounded(st.grid, st.counters)
      invariant RunFrom(cfg, st, picks, rolls, strikes) == RunFrom(cfg, st0, picks, rolls, strikes)
      decreases Rank(st.grid, st.counters)
    {
      if cfg.maxCycles != -1 && st.cycle >= cfg.maxCycles {
        RunAtLimit(cfg, st, picks, rolls, strikes);
        return Run(CycleLimit, st.cycle, st.grid, st.counters, st.changes);
      }
      RunAfterCycle(cfg, st, picks, rolls, strikes);
      CycleProgresses(cfg, st, picks, rolls, strikes);
      var out, st' := Cycle(cfg, st, picks, rolls, strikes);
      if out {
        return Run(FiresOut, st'.cycle, st'.grid, st'.counters, st'.changes);
      }
      st := st';
    }
  }

  /** The cycle loop of `run_sim` from grid g0 and counters cnt0, cycle
      index 0 and no changes yet. It computes RunFrom, so it stops at the
      cycle limit without a further transition, or when the grid after
      the strike holds no burning cell; the cycle index never exceeds
      Rank(g0, cnt0). */
  method Simulate(cfg: Config, g0: Grid, cnt0: Counters,
                  picks: nat -> nat, pickCursor: nat, rolls: nat -> nat, rollCursor: nat, strikes: nat -> bool)
    returns (run: Run)
    requires ValidConfig(cfg)
    requires IsSquare(g0, cfg.size) && IsSquare(cnt0, cfg.size) && CountersBounded(g0, cnt0)
    ensures run == RunFrom(cfg, Progress(g0, cnt0, 0, 0, pickCursor, rollCursor), picks, rolls, strikes)
    ensures run.halt == CycleLimit || run.halt == FiresOut
    ensures IsSquare(run.grid, cfg.size) && IsSquare(run.counters, cfg.size)
    ensures CountersBounded(run.grid, run.counters)
    ensures run.halt == CycleLimit ==> cfg.maxCycles != -1 && run.cycle == cfg.maxCycles
    ensures run.halt == FiresOut ==> (cfg.maxCycles == -1 || run.cycle < cfg.maxCycles) && NoFire(run.grid)
    ensures run.cycle <= Rank(g0, cnt0)
    ensures run.changes >= run.cycle
    ensures Settled(g0, run.grid)
    ensures cfg.maxCycles == 0 ==> run == Run(CycleLimit, 0, g0, cnt0, 0)
  {
    var st0 := Progress(g0, cnt0, 0, 0, pickCursor, rollCursor);
    if cfg.maxCycles == 0 {
      RunAtLimit(cfg, st0, picks, rolls, strikes);
    }
    RunEnds(cfg, st0, picks, rolls, strikes);
    RunKeeps(cfg, st0, picks, rolls, strikes);
    RunSettles(cfg, st0, picks, rolls, strikes);
    RunCycles(cfg, st0, picks, rolls, strikes);
    run := CycleLoop(cfg, st0, picks, rolls, strikes);
  }

  /** `run_sim`: initialise with at most `attempts` placement attempts,
      zero the counters, and cycle, the lightning picks going on where the
      initial placement stopped. The run reports an incomplete
      initialisation exactly when trees were left to place; otherwise it
      is RunFrom the initial grid with zero counters, and its cycle index
      stays within BURN_STAGES per tree placed. */
  method RunSim(cfg: Config, picks: nat -> nat, rolls: nat -> nat, strikes: nat -> bool, attempts: nat)
    returns (run: Run)
    requires ValidConfig(cfg)
    ensures var p := Initial(cfg, picks, 0, attempts);
      && (run.halt == InitIncomplete <==> p.treesLeft > 0)
      && (p.treesLeft > 0 ==> run == Run(InitIncomplete, 0, p.grid, ZeroCounters(cfg.size), 0))
      && (p.treesLeft == 0 ==>
            run == RunFrom(cfg, Progress(p.grid, ZeroCounters(cfg.size), 0, 0, p.next, 0), picks, rolls, strikes))
    ensures run.halt != InitIncomplete ==>
      && IsSquare(run.grid, cfg.size)
      && (run.halt == CycleLimit ==> run.cycle == cfg.maxCycles)
      && (run.halt == FiresOut ==> NoFire(run.grid))
      && run.cycle <= BURN_STAGES * TargetTrees(cfg)
  {
    var g, used, complete := InitGrid(cfg, picks, 0, attempts);
    var cnt := ZeroCounters(cfg.size);
    if !complete {
      return Run(InitIncomplete, 0, g, cnt, 0);
    }
    ghost var p := Initial(cfg, picks, 0, attempts);
    assert Progress(g, cnt, 0, 0, used, 0) == Progress(p.grid, ZeroCounters(cfg.size), 0, 0, p.next, 0);
    RankBound(g, cnt);
    run := Simulate(cfg, g, cnt, picks, used, rolls, 0, strikes);
  }

  /** The counter matrix as `run_sim` clears it. */
  function ZeroCounters(n: nat): (cnt: Counters)
    ensures IsSquare(cnt, n)
    ensures forall i, j :: 0 <= i < n && 0 <= j < n ==> cnt[i][j] == 0
  {
    seq(n, i => seq(n, j => 0))
  }
}
