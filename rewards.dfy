/** Reward policies of the tabular environment. A policy turns the kind of
    transition (normal step, step limit reached, terminal reached) into a
    reward mean with optional variance parameters; `ComputeReward` then turns
    those into the reward, its noise and the reported variance. */
module Rewards {

  /** Reward constants. */
  const TermBonus: int := 100
  const StepPenalty: int := -1
  /** Dense first-visit bonuses are drawn from `[0, DenseRange)`. */
  const DenseRange: int := 11

  datatype Option<T> = None | Some(value: T)

  /** The four variance parameters every policy is configured with: the mean
      variance and the variance of the variance, for the terminal reward and
      for the per-step reward. */
  datatype Params = Params(rvarMeanTer: real, rvarVarTer: real, rvarMeanStep: real, rvarVarStep: real)

  /** Why a reward is asked for: an ordinary step, or the episode closing
      because the step limit or the terminal cell was reached. */
  datatype Reason = NotClosing | MaxSteps | Term

  /** A reward mean with its optional variance mean and variance of variance. */
  datatype Request = Request(mean: int, rvarMean: Option<real>, rvarVar: Option<real>)

  /** What the environment hands back: the reward, its noise, and its variance
      (absent when no variance was asked for). */
  datatype Sample = Sample(reward: int, noise: real, variance: Option<real>)

  datatype Policy = Sparse | SemiSparse | Dense(stateReward: seq<int>)

  /** Truthiness of an optional number: absent and zero both count as false. */
  predicate Truthy(o: Option<real>) {
    o.Some? && o.value != 0.0
  }

  /** Turns a mean and optional variance parameters into a reward sample.
      `chiDraw` is the chi-square draw of the variance and `noiseDraw` the
      Gaussian noise draw at that variance; both are used only on the branches
      that draw them. The reward itself is always the mean, unchanged. */
  function ComputeReward(mean: int, rvarMean: Option<real>, rvarVar: Option<real>,
                         chiDraw: real, noiseDraw: real): (s: Sample)
    ensures s.reward == mean
    ensures !Truthy(rvarMean) ==> s.variance == None && s.noise == 0.0
    ensures Truthy(rvarMean) ==> s.noise == noiseDraw && s.variance.Some?
    ensures Truthy(rvarMean) && !Truthy(rvarVar) ==> s.variance == rvarMean
    ensures Truthy(rvarMean) && Truthy(rvarVar) ==> s.variance == Some(chiDraw)
  {
    if Truthy(rvarMean) && Truthy(rvarVar) then
      Sample(mean, noiseDraw, Some(chiDraw))
    else if Truthy(rvarMean) && !Truthy(rvarVar) then
      Sample(mean, noiseDraw, rvarMean)
    else
      Sample(mean, 0.0, None)
  }

  /** `ComputeReward` applied to a policy's request: every `_get_reward`
      ends by passing its mean and variance parameters to it. */
  function Compute(r: Request, chiDraw: real, noiseDraw: real): Sample {
    ComputeReward(r.mean, r.rvarMean, r.rvarVar, chiDraw, noiseDraw)
  }

  /** Sparse policy: nothing on an ordinary step, the step penalty when the
      step limit closes the episode, and at the terminal cell the terminal
      bonus less one step penalty per step taken, with the step variances
      accumulated over those steps. */
  function SparseRequest(p: Params, reason: Reason, stepCount: int): (r: Request)
    ensures reason == NotClosing ==> r == Request(0, None, None)
    ensures reason == MaxSteps ==> r == Request(StepPenalty, Some(p.rvarMeanStep), Some(p.rvarVarStep))
    ensures reason == Term ==> r.mean == TermBonus - stepCount
    ensures reason == Term ==> r.rvarMean == Some(stepCount as real * p.rvarMeanStep + p.rvarMeanTer)
    ensures reason == Term ==> r.rvarVar == Some(stepCount as real * p.rvarVarStep + p.rvarVarTer)
  {
    match reason
    case NotClosing => Request(0, None, None)
    case MaxSteps => Request(StepPenalty, Some(p.rvarMeanStep), Some(p.rvarVarStep))
    case Term =>
      Request(TermBonus + stepCount * StepPenalty,
              Some(stepCount as real * p.rvarMeanStep + p.rvarMeanTer),
              Some(stepCount as real * p.rvarVarStep + p.rvarVarTer))
  }

  /** Semi-sparse policy: it distinguishes only terminal from non-terminal.
      The step limit is paid like an ordinary step, with the step penalty and
      the step variances; the terminal bonus is paid exactly at the terminal
      cell, with the terminal variances. */
  function SemiSparseRequest(p: Params, reason: Reason): (r: Request)
    ensures r.mean == TermBonus <==> reason == Term
    ensures reason != Term ==> r == Request(StepPenalty, Some(p.rvarMeanStep), Some(p.rvarVarStep))
    ensures reason == Term ==> r == Request(TermBonus, Some(p.rvarMeanTer), Some(p.rvarVarTer))
  {
    match reason
    case NotClosing | MaxSteps => Request(StepPenalty, Some(p.rvarMeanStep), Some(p.rvarVarStep))
    case Term => Request(TermBonus, Some(p.rvarMeanTer), Some(p.rvarVarTer))
  }

  /** Dense policy: the terminal bonus at the terminal cell; elsewhere the step
      penalty plus the cell's bonus, the bonus weighted by `1 - passedCell`,
      the cell's visited mark read before this step records it. So the bonus
      is paid on a first visit only: a non-terminal step onto a cell not yet
      visited has mean `bonus - 1`, onto a visited cell `-1`. */
  function DenseRequest(p: Params, reason: Reason, bonus: int, passedCell: int): (r: Request)
    ensures reason == Term ==> r == Request(TermBonus, Some(p.rvarMeanTer), Some(p.rvarVarTer))
    ensures reason != Term ==> r.rvarMean == Some(p.rvarMeanStep) && r.rvarVar == Some(p.rvarVarStep)
    ensures reason != Term && passedCell == 0 ==> r.mean == bonus + StepPenalty
    ensures reason != Term && passedCell == 1 ==> r.mean == StepPenalty
  {
    if reason == Term then
      Request(TermBonus, Some(p.rvarMeanTer), Some(p.rvarVarTer))
    else
      Request((1 - passedCell) * bonus + StepPenalty, Some(p.rvarMeanStep), Some(p.rvarVarStep))
  }

  /** The overridden `_get_reward`: the policy's request for a transition that
      ends on `cell` after `stepCount` steps, with `passedCell` its visited mark
      from before the step. Whatever the policy, a non-terminal transition
      uses the step variances (except the sparse ordinary step, which has
      none) and a terminal one pays the terminal bonus (less the steps, for
      the sparse policy); a dense non-terminal mean stays within the bonus
      range shifted by the step penalty. */
  function PolicyRequest(policy: Policy, p: Params, reason: Reason, stepCount: int,
                         cell: int, passedCell: int): (r: Request)
    requires policy.Dense? ==> 0 <= cell < |policy.stateReward|
    ensures reason == Term ==> r.mean == (if policy.Sparse? then TermBonus - stepCount else TermBonus)
    ensures reason == Term && !policy.Sparse? ==> r.rvarMean == Some(p.rvarMeanTer) && r.rvarVar == Some(p.rvarVarTer)
    ensures reason != Term ==>
      r.rvarMean == (if policy.Sparse? && reason == NotClosing then None else Some(p.rvarMeanStep))
    ensures reason != Term ==>
      r.rvarVar == (if policy.Sparse? && reason == NotClosing then None else Some(p.rvarVarStep))
    ensures policy.Dense? && reason != Term && (passedCell == 0 || passedCell == 1)
            && 0 <= policy.stateReward[cell] < DenseRange
            ==> StepPenalty <= r.mean < DenseRange + StepPenalty
  {
    match policy
    case Sparse => SparseRequest(p, reason, stepCount)
    case SemiSparse => SemiSparseRequest(p, reason)
    case Dense(stateReward) => DenseRequest(p, reason, stateReward[cell], passedCell)
  }

  // ---------------------------------------------------------------------
  // Properties of the policies

  /** Under the sparse policy an ordinary step is silent: mean 0, no noise and
      no variance, whatever is drawn. */
  lemma SparseStepSilent(p: Params, stepCount: int, chiDraw: real, noiseDraw: real)
    ensures Compute(SparseRequest(p, NotClosing, stepCount), chiDraw, noiseDraw) == Sample(0, 0.0, None)
  {
  }

  /** Componentwise sum of requests, an absent variance counting as zero. */
  function Total(rs: seq<Request>): Request
  {
    if rs == [] then Request(0, Some(0.0), Some(0.0))
    else
      var t := Total(rs[1..]);
      Request(rs[0].mean + t.mean,
              Some(ValueOr(rs[0].rvarMean) + t.rvarMean.value),
              Some(ValueOr(rs[0].rvarVar) + t.rvarVar.value))
  }

  function ValueOr(o: Option<real>): real {
    if o.Some? then o.value else 0.0
  }

  function Repeat(r: Request, k: nat): (rs: seq<Request>)
    ensures |rs| == k
  {
    if k == 0 then [] else [r] + Repeat(r, k - 1)
  }

  /** The sparse policy defers the step costs to the end: its terminal request
      after `k` steps is, in mean and in both variance parameters, the sum of
      `k` semi-sparse step requests and one semi-sparse terminal request. */
  lemma {:induction false} SparseTerminalAccumulates(p: Params, k: nat)
    ensures SparseRequest(p, Term, k)
         == Total(Repeat(SemiSparseRequest(p, NotClosing), k) + [SemiSparseRequest(p, Term)])
  {
    var step := SemiSparseRequest(p, NotClosing);
    var ter := SemiSparseRequest(p, Term);
    if k == 0 {
      assert Repeat(step, 0) + [ter] == [ter];
    } else {
      SparseTerminalAccumulates(p, k - 1);
      var rest := Repeat(step, k - 1) + [ter];
      assert Repeat(step, k) + [ter] == [step] + rest;
      TotalCons(step, rest);
      SparseTerminalShift(p, k);
    }
  }

  /** One more step before the terminal cell costs the sparse terminal
      request one step request, in mean and in both variance parameters. */
  lemma SparseTerminalShift(p: Params, k: int)
    ensures SparseRequest(p, Term, k)
         == Request(StepPenalty + SparseRequest(p, Term, k - 1).mean,
                    Some(p.rvarMeanStep + SparseRequest(p, Term, k - 1).rvarMean.value),
                    Some(p.rvarVarStep + SparseRequest(p, Term, k - 1).rvarVar.value))
  {
    var prev, cur := SparseRequest(p, Term, k - 1), SparseRequest(p, Term, k);
    assert prev.rvarMean.value == (k - 1) as real * p.rvarMeanStep + p.rvarMeanTer;
    assert cur.rvarMean.value == k as real * p.rvarMeanStep + p.rvarMeanTer;
    assert prev.rvarVar.value == (k - 1) as real * p.rvarVarStep + p.rvarVarTer;
    assert cur.rvarVar.value == k as real * p.rvarVarStep + p.rvarVarTer;
    ScaleStep(k, p.rvarMeanStep);
    ScaleStep(k, p.rvarVarStep);
    assert cur.rvarMean.value == p.rvarMeanStep + prev.rvarMean.value;
    assert cur.rvarVar.value == p.rvarVarStep + prev.rvarVar.value;
    assert cur.rvarMean == Some(cur.rvarMean.value) && cur.rvarVar == Some(cur.rvarVar.value);
  }

  lemma TotalCons(r: Request, rest: seq<Request>)
    ensures Total([r] + rest)
         == Request(r.mean + Total(rest).mean, Some(ValueOr(r.rvarMean) + Total(rest).rvarMean.value),
                    Some(ValueOr(r.rvarVar) + Total(rest).rvarVar.value))
  {
    assert ([r] + rest)[1..] == rest;
  }

  lemma ScaleStep(k: int, v: real)
    ensures k as real * v == v + (k - 1) as real * v
  {
  }

  /** With every variance parameter zero, every policy's reward is noiseless
      and reports no variance. */
  lemma {:induction false} ZeroParamsNoiseless(policy: Policy, reason: Reason, stepCount: int,
                                               cell: int, passedCell: int, chiDraw: real, noiseDraw: real)
    requires policy.Dense? ==> 0 <= cell < |policy.stateReward|
    ensures var s := Compute(PolicyRequest(policy, Params(0.0, 0.0, 0.0, 0.0), reason, stepCount, cell, passedCell),
                             chiDraw, noiseDraw);
            s.noise == 0.0 && s.variance == None
  {
    var p := Params(0.0, 0.0, 0.0, 0.0);
    if policy == Sparse && reason == Term {
      assert stepCount as real * 0.0 == 0.0;
    }
  }

  // ---------------------------------------------------------------------
  // First-visit bonuses over a walk

  /** Number of cells not yet visited. */
  function Unvisited(passed: seq<int>): nat
  {
    if passed == [] then 0 else (if passed[0] == 0 then 1 else 0) + Unvisited(passed[1..])
  }

  /** Marking a cell removes it from the unvisited cells if it was there. */
  lemma {:induction false} MarkReducesUnvisited(passed: seq<int>, cell: int)
    requires 0 <= cell < |passed|
    ensures Unvisited(passed[cell := 1]) == Unvisited(passed) - (if passed[cell] == 0 then 1 else 0)
  {
    if cell > 0 {
      MarkReducesUnvisited(passed[1..], cell - 1);
      assert passed[cell := 1][1..] == passed[1..][cell - 1 := 1];
    }
  }

  predicate IsBonusTable(cells: int, table: seq<int>) {
    |table| == cells && forall i :: 0 <= i < |table| ==> 0 <= table[i] < DenseRange
  }

  predicate IsPassedList(passed: seq<int>) {
    forall i :: 0 <= i < |passed| ==> passed[i] == 0 || passed[i] == 1
  }

  /** The bonus part of the dense rewards along a walk of non-terminal cells,
      each cell marked visited after its reward is computed. */
  function DenseBonuses(p: Params, table: seq<int>, passed: seq<int>, walk: seq<int>): int
    requires |table| == |passed|
    requires forall i :: 0 <= i < |walk| ==> 0 <= walk[i] < |passed|
    decreases |walk|
  {
    if walk == [] then 0
    else
      var c := walk[0];
      DenseRequest(p, NotClosing, table[c], passed[c]).mean - StepPenalty
        + DenseBonuses(p, table, passed[c := 1], walk[1..])
  }

  /** However long the walk, the dense bonuses it collects are at most the
      largest bonus once per cell that was unvisited at its start: each cell
      pays at most once per episode. */
  lemma {:induction false} DenseBonusesBounded(p: Params, table: seq<int>, passed: seq<int>, walk: seq<int>)
    requires IsBonusTable(|passed|, table) && IsPassedList(passed)
    requires forall i :: 0 <= i < |walk| ==> 0 <= walk[i] < |passed|
    ensures 0 <= DenseBonuses(p, table, passed, walk) <= (DenseRange - 1) * Unvisited(passed)
    decreases |walk|
  {
    if walk != [] {
      var c := walk[0];
      DenseBonusesBounded(p, table, passed[c := 1], walk[1..]);
      MarkReducesUnvisited(passed, c);
    }
  }
}
