/** The tabular environment's episode state machine: the agent's cell, the
    step counter, the per-cell visited marks and the termination code, with
    the reward policy chosen at construction; and the process-wide cache of
    dense bonus tables. */
module Environment {
  import opened Grid
  import opened Rewards

  /** Episode length bound every environment is built with. */
  const DefaultMaxSteps: int := 200

  /** Termination code: 0 not done, 1 terminal cell reached, 2 step limit
      reached. */
  datatype Done = NotDone | TermReached | MaxReached
  {
    function Code(): nat {
      match this
      case NotDone => 0
      case TermReached => 1
      case MaxReached => 2
    }
  }

  /** Kind of a transition: the terminal cell is checked first, the step
      limit only when the terminal cell was not reached. */
  function Classify(cell: int, terminal: int, stepCount: int, maxSteps: int): (reason: Reason)
    ensures reason == Term <==> cell == terminal
    ensures reason == MaxSteps <==> cell != terminal && stepCount >= maxSteps
    ensures reason == NotClosing <==> cell != terminal && stepCount < maxSteps
  {
    if cell == terminal then Term
    else if stepCount >= maxSteps then MaxSteps
    else NotClosing
  }

  /** Termination code after a transition of kind `reason`: closing records
      why; an ordinary step leaves the previous code as it was. */
  function DoneAfter(reason: Reason, done: Done): (after: Done)
    ensures reason == NotClosing ==> after == done
    ensures reason != NotClosing ==> after != NotDone
    ensures reason != NotClosing ==> (after == TermReached <==> reason == Term)
    ensures reason != NotClosing ==> after.Code() == (if reason == Term then 1 else 2)
  {
    match reason
    case Term => TermReached
    case MaxSteps => MaxReached
    case NotClosing => done
  }

  /** What a step reports as its termination code: reaching the terminal cell
      always reports it, even at the step limit; the step limit reports
      itself otherwise; an ordinary step reports what was there before, so a
      code from an earlier step survives until the next reset. */
  lemma StepDoneCode(cell: int, terminal: int, stepCount: int, maxSteps: int, done: Done)
    ensures cell == terminal ==> DoneAfter(Classify(cell, terminal, stepCount, maxSteps), done) == TermReached
    ensures cell != terminal && stepCount >= maxSteps ==>
      DoneAfter(Classify(cell, terminal, stepCount, maxSteps), done) == MaxReached
    ensures cell != terminal && stepCount < maxSteps ==>
      DoneAfter(Classify(cell, terminal, stepCount, maxSteps), done) == done
    ensures stepCount >= maxSteps ==> DoneAfter(Classify(cell, terminal, stepCount, maxSteps), done) != NotDone
  {
  }

  /** Visited marks at the start of an episode: only the starting cell. */
  function InitialPassed(cells: nat, start: int): (marks: seq<int>)
    ensures |marks| == cells
    ensures forall i :: 0 <= i < cells ==> (marks[i] == 1 <==> i == start)
    ensures forall i :: 0 <= i < cells ==> (marks[i] == 0 <==> i != start)
  {
    seq(cells, i => if i == start then 1 else 0)
  }

  lemma {:induction false} UnvisitedZeros(cells: nat)
    ensures Unvisited(seq(cells, i => 0)) == cells
  {
    if cells > 0 {
      UnvisitedZeros(cells - 1);
      assert seq(cells, i => 0)[1..] == seq(cells - 1, i => 0);
    }
  }

  /** An episode starts with a list of 0/1 marks in which every cell but the
      starting one is unvisited. */
  lemma {:induction false} InitialPassedUnvisited(cells: nat, start: int)
    requires 0 <= start < cells
    ensures IsPassedList(InitialPassed(cells, start))
    ensures InitialPassed(cells, start)[start] == 1
    ensures Unvisited(InitialPassed(cells, start)) == cells - 1
  {
    UnvisitedZeros(cells);
    MarkReducesUnvisited(seq(cells, i => 0), start);
    assert seq(cells, i => 0)[start := 1] == InitialPassed(cells, start);
  }

  /** Over a whole episode, however long, the dense policy pays first-visit
      bonuses worth at most `DenseRange - 1` per cell other than the start. */
  lemma EpisodeDenseBonusBound(p: Params, table: seq<int>, cells: nat, start: int, walk: seq<int>)
    requires 0 <= start < cells
    requires IsBonusTable(cells, table)
    requires forall i :: 0 <= i < |walk| ==> 0 <= walk[i] < cells
    ensures 0 <= DenseBonuses(p, table, InitialPassed(cells, start), walk) <= (DenseRange - 1) * (cells - 1)
  {
    InitialPassedUnvisited(cells, start);
    DenseBonusesBounded(p, table, InitialPassed(cells, start), walk);
  }

  /** The process-wide cache of dense bonus tables, keyed by the number of
      cells of the grid. */
  class StateRewards {
    var tables: map<int, seq<int>>

    ghost predicate Valid()
      reads this
    {
      forall key | key in tables :: IsBonusTable(key, tables[key])
    }

    constructor ()
      ensures Valid() && tables == map[]
    {
      tables := map[];
    }

    /** The table for `key`, created from `draw` only if there is none yet;
        an existing table is never replaced. */
    method TableFor(key: int, draw: seq<int>) returns (table: seq<int>)
      requires Valid()
      requires IsBonusTable(key, draw)
      modifies this
      ensures Valid()
      ensures key in tables && table == tables[key]
      ensures IsBonusTable(key, table)
      ensures key in old(tables) ==> tables == old(tables)
      ensures key !in old(tables) ==> tables == old(tables)[key := draw]
    {
      if key !in tables {
        tables := tables[key := draw];
      }
      table := tables[key];
    }
  }

  class TabularEnv {
    const gridX: int
    const gridY: int
    const maxSteps: int
    const policy: Policy
    const params: Params

    var initState: int
    var currentState: int
    var terminalState: int
    var stepCount: int
    var done: Done
    /** `passed[i]` is 1 when cell `i` was visited in this episode, else 0. */
    var passed: array<int>

    function Cells(): int { gridX * gridY }

    /** The object invariant: the current cell is always marked visited. */
    ghost predicate Valid()
      reads this, passed
    {
      InGrid() && passed[currentState] == 1
    }

    /** Everything in the invariant but the current cell's mark, which a step
        sets only after the reward has been computed. */
    ghost predicate InGrid()
      reads this, passed
    {
      && gridX > 0 && gridY > 0
      && passed.Length == Cells()
      && 0 <= initState < Cells()
      && 0 <= currentState < Cells()
      && terminalState == 0
      && stepCount >= 0
      && IsPassedList(passed[..])
      && passed[initState] == 1
      && (policy.Dense? ==> IsBonusTable(Cells(), policy.stateReward))
    }

    /** The state of a freshly started episode whose first cell is `start`. */
    ghost predicate EpisodeStart(start: int)
      reads this, passed
    {
      && initState == start
      && currentState == start
      && terminalState == 0
      && stepCount == 0
      && done == NotDone
      && passed[..] == InitialPassed(passed.Length, start)
    }

    /** Fresh visited marks with only `start` set. */
    static method NewPassed(cells: int, start: int) returns (a: array<int>)
      requires 0 <= start < cells
      ensures fresh(a)
      ensures a[..] == InitialPassed(cells, start)
    {
      a := new int[cells](i => 0);
      a[start] := 1;
    }

    /** An environment with the given grid, reward parameters and policy; the
        episode starts on `initDraw`, the cell drawn at random. The episode
        length bound is always the default one. */
    constructor (gridX: int, gridY: int, params: Params, policy: Policy, initDraw: int)
      requires gridX > 0 && gridY > 0
      requires 0 <= initDraw < gridX * gridY
      requires policy.Dense? ==> IsBonusTable(gridX * gridY, policy.stateReward)
      ensures Valid() && fresh(passed)
      ensures this.gridX == gridX && this.gridY == gridY && maxSteps == DefaultMaxSteps
      ensures this.params == params && this.policy == policy
      ensures EpisodeStart(initDraw)
    {
      this.gridX, this.gridY := gridX, gridY;
      this.params, this.policy := params, policy;
      maxSteps := DefaultMaxSteps;
      initState, currentState := initDraw, initDraw;
      stepCount, done := 0, NotDone;
      terminalState := 0;
      var marks := NewPassed(gridX * gridY, initDraw);
      passed := marks;
      new;
      InitialPassedUnvisited(gridX * gridY, initDraw);
    }

    /** A dense-policy environment: its bonus table is the cached one for this
        number of cells, created from `bonusDraw` only if the cache had none. */
    static method NewDense(gridX: int, gridY: int, params: Params, initDraw: int,
                           cache: StateRewards, bonusDraw: seq<int>) returns (env: TabularEnv)
      requires gridX > 0 && gridY > 0
      requires 0 <= initDraw < gridX * gridY
      requires cache.Valid()
      requires IsBonusTable(gridX * gridY, bonusDraw)
      modifies cache
      ensures cache.Valid()
      ensures fresh(env) && env.Valid() && fresh(env.passed)
      ensures env.gridX == gridX && env.gridY == gridY && env.maxSteps == DefaultMaxSteps
      ensures env.params == params && env.EpisodeStart(initDraw)
      ensures gridX * gridY in cache.tables && env.policy == Dense(cache.tables[gridX * gridY])
      ensures gridX * gridY in old(cache.tables) ==> cache.tables == old(cache.tables)
      ensures gridX * gridY !in old(cache.tables) ==> cache.tables == old(cache.tables)[gridX * gridY := bonusDraw]
    {
      var table := cache.TableFor(gridX * gridY, bonusDraw);
      env := new TabularEnv(gridX, gridY, params, Dense(table), initDraw);
    }

    /** Starts the visited marks afresh, with only the current cell set. */
    method InitGrid()
      requires gridX > 0 && gridY > 0
      requires 0 <= currentState < Cells()
      modifies this`terminalState, this`passed
      ensures terminalState == 0
      ensures fresh(passed)
      ensures passed[..] == InitialPassed(Cells(), currentState)
    {
      terminalState := 0;
      passed := NewPassed(Cells(), currentState);
    }

    /** The observation for the current position. */
    function GetCurrentState(): (obs: int)
      reads this
      requires gridX > 0 && gridY > 0
      requires 0 <= terminalState < Cells()
      ensures obs / Pow10(Digits(Cells())) == currentState
      ensures obs % Pow10(Digits(Cells())) == terminalState
    {
      Observation(Cells(), currentState, terminalState)
    }

    /** Starts a new episode on `initDraw`, the cell drawn at random. */
    method Reset(initDraw: int) returns (obs: int)
      requires Valid()
      requires 0 <= initDraw < Cells()
      modifies this
      ensures Valid() && fresh(passed)
      ensures EpisodeStart(initDraw)
      ensures obs == Observation(Cells(), initDraw, 0)
    {
      done := NotDone;
      stepCount := 0;
      initState := initDraw;
      currentState := initState;
      InitGrid();
      InitialPassedUnvisited(Cells(), initDraw);
      obs := GetCurrentState();
    }

    /** The policy's reward for a transition of kind `reason` onto the
        current cell, with the visited marks as they are now. */
    function GetReward(reason: Reason, chiDraw: real, noiseDraw: real): (s: Sample)
      reads this, passed
      requires InGrid()
      ensures reason == Term ==> s.reward == (if policy.Sparse? then TermBonus - stepCount else TermBonus)
      ensures reason != Term && policy.SemiSparse? ==> s.reward == StepPenalty
      ensures reason == NotClosing && policy.Sparse? ==> s == Sample(0, 0.0, None)
      ensures reason != Term && policy.Dense? ==>
        s.reward == (if passed[currentState] == 0 then policy.stateReward[currentState] else 0) + StepPenalty
    {
      Compute(PolicyRequest(policy, params, reason, stepCount, currentState, passed[currentState]),
              chiDraw, noiseDraw)
    }

    /** Records why the episode closes, then computes the closing reward. */
    method Close(reason: Reason, chiDraw: real, noiseDraw: real) returns (s: Sample)
      requires InGrid()
      requires reason != NotClosing
      modifies this`done
      ensures done == DoneAfter(reason, old(done))
      ensures s == GetReward(reason, chiDraw, noiseDraw)
    {
      if reason == Term {
        done := TermReached;
      } else {
        done := MaxReached;
      }
      s := GetReward(reason, chiDraw, noiseDraw);
    }

    /** The agent's move on the grid: the coordinate for the action's axis is
        stepped and clamped at the edge, then converted back to an index. */
    static method MoveAgent(gridX: int, gridY: int, cell: int, action: int) returns (next: int)
      requires gridX > 0 && gridY > 0
      requires 0 <= cell < gridX * gridY
      ensures next == MoveCell(gridX, gridY, cell, action)
    {
      var c := IdxToCoords(gridX, cell);
      var x, y := c.x, c.y;
      if action == LEFT {
        x := if x - 1 > 0 then x - 1 else 0;
      } else if action == RIGHT {
        x := if x + 1 < gridX - 1 then x + 1 else gridX - 1;
      } else if action == UP {
        y := if y + 1 < gridY - 1 then y + 1 else gridY - 1;
      } else if action == DOWN {
        y := if y - 1 > 0 then y - 1 else 0;
      }
      IdxRoundTrip(gridX, gridY, cell);
      assert Coords(x, y) == Moved(gridX, gridY, c, action);
      next := CoordsToIdx(gridX, x, y);
    }

    /** One step of the agent. The step is counted, the agent moves (clamped
        to the grid), the transition is classified and rewarded with the
        visited marks from before the move, and only then is the new cell
        marked visited. Stepping after the episode closed is not refused. */
    method Step(action: int, chiDraw: real, noiseDraw: real)
      returns (obs: int, reward: int, rewardNoise: real, rewardVar: Option<real>, doneCode: nat)
      requires Valid()
      requires IsAction(action)
      modifies this`currentState, this`stepCount, this`done, passed
      ensures Valid()
      ensures stepCount == old(stepCount) + 1
      ensures currentState == MoveCell(gridX, gridY, old(currentState), action)
      ensures done == DoneAfter(Classify(currentState, terminalState, stepCount, maxSteps), old(done))
      ensures doneCode == done.Code()
      ensures passed[..] == old(passed[..])[currentState := 1]
      ensures Sample(reward, rewardNoise, rewardVar)
           == Compute(PolicyRequest(policy, params, Classify(currentState, terminalState, stepCount, maxSteps),
                                    stepCount, currentState, old(passed[..])[currentState]),
                      chiDraw, noiseDraw)
      ensures obs == Observation(Cells(), currentState, terminalState)
    {
      stepCount := stepCount + 1;

      currentState := MoveAgent(gridX, gridY, currentState, action);

      var s: Sample;
      if currentState == terminalState {
        s := Close(Term, chiDraw, noiseDraw);
      } else if stepCount >= maxSteps {
        s := Close(MaxSteps, chiDraw, noiseDraw);
      } else {
        s := GetReward(NotClosing, chiDraw, noiseDraw);
      }

      if passed[currentState] == 0 {
        passed[currentState] := 1;
      }
      assert passed[..] == old(passed[..])[currentState := 1];

      obs := GetCurrentState();
      reward, rewardNoise, rewardVar, doneCode := s.reward, s.noise, s.variance, done.Code();
    }
  }
}
