/**
  The line-search solver of tensorforce/core/optimizers/solvers/line_search.py.

  It moves from an initial solution x_init back towards the origin x', taking the
  first point whose improvement ratio over x' is acceptable. The four callbacks of
  the iterative scheme (start, step, next_step, end) are pure transitions on a
  threaded state; their only effect is the objective evaluation fn_x, which the
  model records as a log of the arguments it was called with.
*/
module LineSearch {
  import opened Wrappers
  import opened Structured

  /** Mode of movement between x_init and x'. */
  datatype Mode = Linear | Exponential

  /** Construction errors: the accept_ratio assertion and the invalid-mode error. */
  datatype SolverError = AcceptRatioNegative | InvalidMode(mode: string)

  /**
    A constructed solver. The parameter modules accept_ratio and parameter are
    fixed reals for one solve; epsilon stands for the library-wide positive
    constant util.epsilon, whose value is not part of this model.
  */
  datatype Solver = Solver(maxIterations: nat, acceptRatio: real, mode: Mode, parameter: real, epsilon: real)

  ghost predicate Valid(s: Solver) {
    s.acceptRatio >= 0.0 && s.epsilon > 0.0
  }

  /** The mode-dependent payload of the state tuple. */
  datatype Additional =
    | LinearAux(baseValue: real, estimatedIncr: real)
    | ExpAux(baseValue: real)

  /** The tuple (x, deltas, improvement, last_improvement, estimated, additional). */
  datatype State = State(
    x: Values, deltas: Values, improvement: real, lastImprovement: real,
    estimated: real, additional: Additional)

  /** The state fits the solver's mode and x and deltas have the same structure. */
  ghost predicate Fits(s: Solver, st: State) {
    && |st.x| == |st.deltas|
    && (s.mode == Linear <==> st.additional.LinearAux?)
  }

  /**
    The objective fn_x. Since fn_x may have side effects on the variables it
    perturbs, its value may depend on the calls made before in the same solve:
    it is given the earlier arguments and the current one.
  */
  type Objective = (seq<Values>, Values) -> real

  function Max(a: real, b: real): (r: real)
    ensures r >= a && r >= b && (r == a || r == b)
  {
    if a >= b then a else b
  }

  /**
    Improvement ratio `difference / max(estimate, epsilon)`: the difference over
    the estimate, or over epsilon once the estimate falls below it; the ratio has
    the sign of the difference.
  */
  function Ratio(difference: real, estimate: real, epsilon: real): (r: real)
    requires epsilon > 0.0
    ensures estimate >= epsilon ==> r * estimate == difference
    ensures estimate < epsilon ==> r * epsilon == difference
    ensures r > 0.0 <==> difference > 0.0
    ensures r == 0.0 <==> difference == 0.0
  {
    difference / Max(estimate, epsilon)
  }

  /** The constructor's checks: accept_ratio first (an assertion), then the mode string. */
  function NewSolver(maxIterations: nat, acceptRatio: real, mode: string, parameter: real, epsilon: real)
    : (r: Result<Solver, SolverError>)
    requires epsilon > 0.0
    ensures r.Ok? <==> acceptRatio >= 0.0 && (mode == "linear" || mode == "exponential")
    ensures acceptRatio < 0.0 ==> r == Err(AcceptRatioNegative)
    ensures acceptRatio >= 0.0 && mode != "linear" && mode != "exponential" ==> r == Err(InvalidMode(mode))
    ensures r.Ok? ==> Valid(r.value)
    ensures r.Ok? ==> (r.value.mode == Linear <==> mode == "linear")
    ensures r.Ok? ==> r.value == Solver(maxIterations, acceptRatio, r.value.mode, parameter, epsilon)
  {
    if !(acceptRatio >= 0.0) then Err(AcceptRatioNegative)
    else if mode == "linear" then Ok(Solver(maxIterations, acceptRatio, Linear, parameter, epsilon))
    else if mode == "exponential" then Ok(Solver(maxIterations, acceptRatio, Exponential, parameter, epsilon))
    else Err(InvalidMode(mode))
  }

  /**
    `start`: the first state. The improvement of x_init over x' is normalised by
    the estimate, last_improvement is one below it, and the first deltas are
    `-parameter * x_init`; both modes keep x_init and the estimate unchanged.
  */
  function Start(s: Solver, xInit: Values, baseValue: real, targetValue: real, estimatedImprovement: real)
    : (st: State)
    requires Valid(s)
    ensures Fits(s, st)
    ensures st.x == xInit && st.estimated == estimatedImprovement
    ensures st.improvement == Ratio(targetValue - baseValue, estimatedImprovement, s.epsilon)
    ensures st.lastImprovement == st.improvement - 1.0
    ensures st.improvement > st.lastImprovement
    ensures st.deltas == Scale(xInit, -s.parameter)
    ensures st.additional.baseValue == baseValue
    ensures s.mode == Linear ==> st.additional.estimatedIncr == -estimatedImprovement * s.parameter
  {
    var improvement := Ratio(targetValue - baseValue, estimatedImprovement, s.epsilon);
    var deltas := Scale(xInit, -s.parameter);
    var additional :=
      match s.mode
      case Linear => LinearAux(baseValue, -estimatedImprovement * s.parameter)
      case Exponential => ExpAux(baseValue);
    State(xInit, deltas, improvement, improvement - 1.0, estimatedImprovement, additional)
  }

  /** The part of a state that `step` moves: the solution, the deltas and the estimate. */
  datatype Course = Course(x: Values, deltas: Values, estimated: real)

  function CourseOf(st: State): Course {
    Course(st.x, st.deltas, st.estimated)
  }

  /**
    The movement of `step`: x moves by the current deltas; linear mode keeps the
    deltas and adds the constant increment to the estimate, exponential mode
    scales both by the parameter.
  */
  function Advance(s: Solver, c: Course, additional: Additional): (r: Course)
    requires |c.x| == |c.deltas|
    ensures |r.x| == |r.deltas| == |c.x|
    ensures r.x == Add(c.x, c.deltas)
    ensures additional.LinearAux? ==> r.deltas == c.deltas && r.estimated - c.estimated == additional.estimatedIncr
    ensures additional.ExpAux? ==>
              r.estimated == c.estimated * s.parameter
              && forall i :: 0 <= i < |r.deltas| ==> r.deltas[i] == c.deltas[i] * s.parameter
  {
    var nextX := Add(c.x, c.deltas);
    match additional
    case LinearAux(_, incr) => Course(nextX, c.deltas, c.estimated + incr)
    case ExpAux(_) => Course(nextX, Scale(c.deltas, s.parameter), c.estimated * s.parameter)
  }

  /** The result of one `step`: the next state and the arguments fn_x was called with. */
  datatype Stepped = Stepped(state: State, calls: seq<Values>)

  /**
    `step`: the state advances, fn_x is called once, with the next deltas rather
    than the next x, the improvement of its value over the base value is
    normalised by the next estimate, and the previous improvement becomes the
    last improvement.
  */
  function Step(s: Solver, st: State, fnX: Objective, history: seq<Values>): (r: Stepped)
    requires Valid(s) && Fits(s, st)
    ensures Fits(s, r.state)
    ensures CourseOf(r.state) == Advance(s, CourseOf(st), st.additional)
    ensures r.state.x == Add(st.x, st.deltas)
    ensures r.state.lastImprovement == st.improvement
    ensures r.state.additional == st.additional
    ensures r.calls == [r.state.deltas]
    ensures r.state.improvement
         == Ratio(fnX(history, r.state.deltas) - st.additional.baseValue, r.state.estimated, s.epsilon)
    ensures s.mode == Linear ==>
              r.state.deltas == st.deltas && r.state.estimated == st.estimated + st.additional.estimatedIncr
    ensures s.mode == Exponential ==>
              r.state.deltas == Scale(st.deltas, s.parameter) && r.state.estimated == st.estimated * s.parameter
  {
    var next := Advance(s, CourseOf(st), st.additional);
    var targetValue := fnX(history, next.deltas);
    var nextImprovement := Ratio(targetValue - st.additional.baseValue, next.estimated, s.epsilon);
    Stepped(State(next.x, next.deltas, nextImprovement, st.improvement, next.estimated, st.additional),
            [next.deltas])
  }

  /**
    `next_step`: continue only while still improving, not yet acceptable and the
    estimate still above epsilon; all three comparisons are strict.
  */
  predicate NextStep(s: Solver, st: State)
    ensures NextStep(s, st) ==> st.improvement < s.acceptRatio && st.estimated > s.epsilon
    ensures NextStep(s, st) && Fits(s, st) ==> End(s, st) == Ended(Add(st.x, st.deltas), [])
  {
    && st.improvement > st.lastImprovement
    && st.improvement < s.acceptRatio
    && st.estimated > s.epsilon
  }

  /** The result of `end`: the final solution and the arguments fn_x was called with. */
  datatype Ended = Ended(x: Values, calls: seq<Values>)

  /**
    `end`: accept `x + deltas` when the last step improved; otherwise undo it by
    calling fn_x with the negated deltas (its value is discarded) and return x.
  */
  function End(s: Solver, st: State): (r: Ended)
    requires Fits(s, st)
    ensures |r.x| == |st.x|
    ensures st.improvement > st.lastImprovement ==> r.x == Add(st.x, st.deltas) && r.calls == []
    ensures st.improvement <= st.lastImprovement ==> r.x == st.x && r.calls == [Neg(st.deltas)]
  {
    if st.improvement > st.lastImprovement then Ended(Add(st.x, st.deltas), [])
    else Ended(st.x, [Neg(st.deltas)])
  }

  /** Reaching the accept ratio exactly halts the iteration. */
  lemma AcceptRatioReachedHalts(s: Solver, st: State)
    requires st.improvement >= s.acceptRatio
    ensures !NextStep(s, st)
  {
  }

  /** A step that ties the last improvement halts the iteration and is then undone. */
  lemma TieHaltsAndUndoes(s: Solver, st: State)
    requires Fits(s, st) && st.improvement == st.lastImprovement
    ensures !NextStep(s, st)
    ensures End(s, st) == Ended(st.x, [Neg(st.deltas)])
  {
  }

  /**
    When the iteration stops although the last step improved (the ratio became
    acceptable or the estimate fell to epsilon), `end` accepts that step.
  */
  lemma HaltWhileImprovingAccepts(s: Solver, st: State)
    requires Fits(s, st) && !NextStep(s, st) && st.improvement > st.lastImprovement
    ensures st.improvement >= s.acceptRatio || st.estimated <= s.epsilon
    ensures End(s, st).x == Add(st.x, st.deltas) && End(s, st).calls == []
  {
  }

  /** The undo call of `end` exactly cancels the deltas of the step it rejects. */
  lemma UndoCancelsStep(s: Solver, st: State, fnX: Objective, history: seq<Values>)
    requires Valid(s) && Fits(s, st)
    ensures var next := Step(s, st, fnX, history).state;
            var e := End(s, next);
            next.improvement <= next.lastImprovement ==>
              |e.calls| == 1 && Add(next.deltas, e.calls[0]) == Zeros(|next.deltas|) && e.x == next.x
  {
    var next := Step(s, st, fnX, history).state;
    AddNegCancels(next.deltas);
  }

  /** `end(start(...))` without any step accepts, returning `x_init * (1 - parameter)` without calling fn_x. */
  lemma EndOfStartAccepts(s: Solver, xInit: Values, baseValue: real, targetValue: real, estimatedImprovement: real)
    requires Valid(s)
    ensures End(s, Start(s, xInit, baseValue, targetValue, estimatedImprovement))
         == Ended(Scale(xInit, 1.0 - s.parameter), [])
  {
    var st := Start(s, xInit, baseValue, targetValue, estimatedImprovement);
    assert Add(Scale(xInit, 1.0), Scale(xInit, -s.parameter)) == Scale(xInit, 1.0 - s.parameter) by {
      AddScales(xInit, 1.0, -s.parameter, 1.0 - s.parameter);
    }
    assert Scale(xInit, 1.0) == xInit;
  }

  /** The linear scenario x_init = [10], base 0, target 4, estimate 8, parameter 0.5. */
  lemma LinearScenarioStart()
    ensures var s := Solver(5, 0.9, Linear, 0.5, 0.000001);
            var st := Start(s, [10.0], 0.0, 4.0, 8.0);
            && st.improvement == 0.5 && st.deltas == [-5.0]
            && st.additional == LinearAux(0.0, -4.0)
            && NextStep(s, st)
  {
    var s := Solver(5, 0.9, Linear, 0.5, 0.000001);
    var st := Start(s, [10.0], 0.0, 4.0, 8.0);
    assert st.deltas[0] == -5.0;
  }
}
