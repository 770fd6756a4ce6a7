/**
  Running the line search. The Iterative base class that drives the callbacks is
  not part of this model; the loop below is a harness built on an assumption
  about it: start, then step while next_step holds and fewer than max_iterations
  steps were taken, then end. Closed forms of the iterates in both modes are
  proved about Iterate, the specification of the loop.
*/
module LineSearchRun {
  import opened Structured
  import opened LineSearch

  /**
    n steps from st. The calls made accumulate in order and each step's fn_x sees
    the calls made before it.
  */
  function Iterate(s: Solver, st: State, fnX: Objective, history: seq<Values>, n: nat): (r: Stepped)
    requires Valid(s) && Fits(s, st)
    ensures Fits(s, r.state)
    ensures |r.state.x| == |st.x|
    ensures |r.calls| == n
    ensures n > 0 ==> r.calls[n - 1] == r.state.deltas
    ensures r.state.additional == st.additional
    decreases n
  {
    if n == 0 then Stepped(st, [])
    else
      var prev := Iterate(s, st, fnX, history, n - 1);
      var next := Step(s, prev.state, fnX, history + prev.calls);
      Stepped(next.state, prev.calls + next.calls)
  }

  /**
    The solve loop. At most max_iterations steps are taken, every step was
    allowed by next_step, the loop stops early only when next_step fails, and the
    solution and the fn_x calls are those of `end` applied to the last state.
  */
  method Solve(s: Solver, xInit: Values, baseValue: real, targetValue: real, estimatedImprovement: real,
               fnX: Objective)
    returns (x: Values, calls: seq<Values>, steps: nat)
    requires Valid(s)
    ensures steps <= s.maxIterations
    ensures var st0 := Start(s, xInit, baseValue, targetValue, estimatedImprovement);
            forall j :: 0 <= j < steps ==> NextStep(s, Iterate(s, st0, fnX, [], j).state)
    ensures var st0 := Start(s, xInit, baseValue, targetValue, estimatedImprovement);
            steps < s.maxIterations ==> !NextStep(s, Iterate(s, st0, fnX, [], steps).state)
    ensures var st0 := Start(s, xInit, baseValue, targetValue, estimatedImprovement);
            var run := Iterate(s, st0, fnX, [], steps);
            var e := End(s, run.state);
            x == e.x && calls == run.calls + e.calls
    ensures |x| == |xInit|
    ensures s.maxIterations == 0 ==> steps == 0 && x == Scale(xInit, 1.0 - s.parameter) && calls == []
  {
    ghost var st0 := Start(s, xInit, baseValue, targetValue, estimatedImprovement);
    var st := Start(s, xInit, baseValue, targetValue, estimatedImprovement);
    calls := [];
    steps := 0;
    while steps < s.maxIterations && NextStep(s, st)
      invariant steps <= s.maxIterations
      invariant Fits(s, st) && |st.x| == |xInit|
      invariant Iterate(s, st0, fnX, [], steps) == Stepped(st, calls)
      invariant forall j :: 0 <= j < steps ==> NextStep(s, Iterate(s, st0, fnX, [], j).state)
    {
      var r := Step(s, st, fnX, calls);
      assert [] + calls == calls;
      st := r.state;
      calls := calls + r.calls;
      steps := steps + 1;
    }
    var e := End(s, st);
    x := e.x;
    calls := calls + e.calls;
    if s.maxIterations == 0 {
      EndOfStartAccepts(s, xInit, baseValue, targetValue, estimatedImprovement);
    }
  }

  /** The step from Iterate(n - 1) to Iterate(n), unfolded once. */
  lemma IterateUnfold(s: Solver, st: State, fnX: Objective, n: nat)
    requires Valid(s) && Fits(s, st) && n > 0
    ensures var prev := Iterate(s, st, fnX, [], n - 1);
            var next := Step(s, prev.state, fnX, prev.calls);
            Iterate(s, st, fnX, [], n) == Stepped(next.state, prev.calls + next.calls)
  {
    var prev := Iterate(s, st, fnX, [], n - 1);
    assert [] + prev.calls == prev.calls;
  }

  /** p to the power n. */
  function Pow(p: real, n: nat): real {
    if n == 0 then 1.0 else p * Pow(p, n - 1)
  }

  /** p + p^2 + ... + p^n, the total fraction of x_init removed by n exponential moves. */
  function GeomSum(p: real, n: nat): real {
    if n == 0 then 0.0 else GeomSum(p, n - 1) + Pow(p, n)
  }

  /** The arithmetic progression a, a + d, a + 2d, ...: linear-mode coefficients step by step. */
  function Affine(a: real, d: real, n: nat): real {
    if n == 0 then a else Affine(a, d, n - 1) + d
  }

  /** The geometric progression a, a*q, a*q^2, ...: exponential-mode coefficients step by step. */
  function Geometric(a: real, q: real, n: nat): real {
    if n == 0 then a else Geometric(a, q, n - 1) * q
  }

  /** a plus the first n terms of the geometric progression from b with ratio q. */
  function GeometricSum(a: real, b: real, q: real, n: nat): real {
    if n == 0 then a else GeometricSum(a, b, q, n - 1) + Geometric(b, q, n - 1)
  }

  lemma {:induction false} GeometricIs(a: real, q: real, n: nat)
    ensures Geometric(a, q, n) == a * Pow(q, n)
  {
    if n > 0 {
      var m: nat := n - 1;
      GeometricIs(a, q, m);
      assert a * Pow(q, m) * q == a * (q * Pow(q, m));
    }
  }

  lemma {:induction false} GeometricSumIs(p: real, n: nat)
    ensures GeometricSum(1.0, -p, p, n) == 1.0 - GeomSum(p, n)
  {
    if n > 0 {
      var m: nat := n - 1;
      var pm := Pow(p, m);
      assert GeometricSum(1.0, -p, p, n) == GeometricSum(1.0, -p, p, m) + Geometric(-p, p, m);
      assert GeomSum(p, n) == GeomSum(p, m) + p * pm;
      GeometricSumIs(p, m);
      assert Geometric(-p, p, m) == -(p * pm) by {
        GeometricIs(-p, p, m);
        assert -p * pm == -(p * pm);
      }
    }
  }

  /** n advances of a course under fixed additional values. */
  function Courses(s: Solver, c: Course, additional: Additional, n: nat): (r: Course)
    requires |c.x| == |c.deltas|
    ensures |r.x| == |r.deltas| == |c.x|
  {
    if n == 0 then c else Advance(s, Courses(s, c, additional, n - 1), additional)
  }

  /** The states Iterate passes through move along the courses of their start. */
  lemma {:induction false} IterateFollowsCourses(s: Solver, st: State, fnX: Objective, n: nat)
    requires Valid(s) && Fits(s, st)
    ensures CourseOf(Iterate(s, st, fnX, [], n).state) == Courses(s, CourseOf(st), st.additional, n)
  {
    if n > 0 {
      var m: nat := n - 1;
      IterateFollowsCourses(s, st, fnX, m);
      IterateUnfold(s, st, fnX, n);
    }
  }

  /** The course from start in linear mode, coefficient by coefficient. */
  lemma {:induction false} LinearCourses(s: Solver, xInit: Values, baseValue: real, ei: real, n: nat)
    ensures var p := s.parameter;
            var c := Courses(s, Course(xInit, Scale(xInit, -p), ei), LinearAux(baseValue, -ei * p), n);
            && c.deltas == Scale(xInit, -p)
            && c.x == Scale(xInit, Affine(1.0, -p, n))
            && c.estimated == Affine(ei, -ei * p, n)
  {
    var p := s.parameter;
    if n == 0 {
      assert Scale(xInit, 1.0) == xInit;
    } else {
      var m: nat := n - 1;
      LinearCourses(s, xInit, baseValue, ei, m);
      AddScales(xInit, Affine(1.0, -p, m), -p, Affine(1.0, -p, n));
    }
  }

  /** The course from start in exponential mode, coefficient by coefficient. */
  lemma {:induction false} ExponentialCourses(s: Solver, xInit: Values, baseValue: real, ei: real, n: nat)
    ensures var p := s.parameter;
            var c := Courses(s, Course(xInit, Scale(xInit, -p), ei), ExpAux(baseValue), n);
            && c.deltas == Scale(xInit, Geometric(-p, p, n))
            && c.x == Scale(xInit, GeometricSum(1.0, -p, p, n))
            && c.estimated == Geometric(ei, p, n)
  {
    var p := s.parameter;
    if n == 0 {
      assert Scale(xInit, 1.0) == xInit;
    } else {
      var m: nat := n - 1;
      ExponentialCourses(s, xInit, baseValue, ei, m);
      ScaleScale(xInit, Geometric(-p, p, m), p, Geometric(-p, p, n));
      AddScales(xInit, GeometricSum(1.0, -p, p, m), Geometric(-p, p, m), GeometricSum(1.0, -p, p, n));
    }
  }

  /** The linear estimates after n steps: `ei * (1 - n*p)`. */
  lemma {:induction false} LinearEstimateIs(ei: real, p: real, n: nat)
    ensures Affine(ei, -ei * p, n) == ei * (1.0 - n as real * p)
  {
    if n > 0 {
      var m: nat := n - 1;
      LinearEstimateIs(ei, p, m);
      assert ei * (1.0 - m as real * p) + -ei * p == ei * (1.0 - n as real * p);
    }
  }

  /** A progression that steps down by p: `a - n*p`. */
  lemma {:induction false} AffineDown(a: real, p: real, n: nat)
    ensures Affine(a, -p, n) == a - n as real * p
  {
    if n > 0 {
      var m: nat := n - 1;
      AffineDown(a, p, m);
      assert n as real * p == m as real * p + p;
    }
  }

  lemma LinearCoursesX(s: Solver, xInit: Values, baseValue: real, ei: real, n: nat)
    ensures var c := Courses(s, Course(xInit, Scale(xInit, -s.parameter), ei),
                             LinearAux(baseValue, -ei * s.parameter), n);
            c.x == Scale(xInit, 1.0 - n as real * s.parameter)
  {
    var a := Affine(1.0, -s.parameter, n);
    var b := 1.0 - n as real * s.parameter;
    LinearCourses(s, xInit, baseValue, ei, n);
    assert a == b by {
      AffineDown(1.0, s.parameter, n);
    }
    ScaleEq(xInit, a, b);
  }

  lemma LinearCoursesEstimate(s: Solver, xInit: Values, baseValue: real, ei: real, n: nat)
    ensures var c := Courses(s, Course(xInit, Scale(xInit, -s.parameter), ei),
                             LinearAux(baseValue, -ei * s.parameter), n);
            c.estimated == ei * (1.0 - n as real * s.parameter)
  {
    LinearCourses(s, xInit, baseValue, ei, n);
    LinearEstimateIs(ei, s.parameter, n);
  }

  /** The linear course from start in closed form. */
  lemma LinearCoursesClosed(s: Solver, xInit: Values, baseValue: real, ei: real, n: nat)
    ensures var p := s.parameter;
            var c := Courses(s, Course(xInit, Scale(xInit, -p), ei), LinearAux(baseValue, -ei * p), n);
            && c.deltas == Scale(xInit, -p)
            && c.x == Scale(xInit, 1.0 - n as real * p)
            && c.estimated == ei * (1.0 - n as real * p)
  {
    LinearCourses(s, xInit, baseValue, ei, n);
    LinearCoursesX(s, xInit, baseValue, ei, n);
    LinearCoursesEstimate(s, xInit, baseValue, ei, n);
  }

  lemma ExponentialCoursesDeltas(s: Solver, xInit: Values, baseValue: real, ei: real, n: nat)
    ensures var c := Courses(s, Course(xInit, Scale(xInit, -s.parameter), ei), ExpAux(baseValue), n);
            c.deltas == Scale(xInit, -Pow(s.parameter, n + 1))
  {
    ExponentialCourses(s, xInit, baseValue, ei, n);
    assert Geometric(-s.parameter, s.parameter, n) == -Pow(s.parameter, n + 1) by {
      GeometricIs(-s.parameter, s.parameter, n);
      assert -s.parameter * Pow(s.parameter, n) == -Pow(s.parameter, n + 1);
    }
    ScaleEq(xInit, Geometric(-s.parameter, s.parameter, n), -Pow(s.parameter, n + 1));
  }

  lemma ExponentialCoursesX(s: Solver, xInit: Values, baseValue: real, ei: real, n: nat)
    ensures var c := Courses(s, Course(xInit, Scale(xInit, -s.parameter), ei), ExpAux(baseValue), n);
            c.x == Scale(xInit, 1.0 - GeomSum(s.parameter, n))
  {
    ExponentialCourses(s, xInit, baseValue, ei, n);
    GeometricSumIs(s.parameter, n);
    ScaleEq(xInit, GeometricSum(1.0, -s.parameter, s.parameter, n), 1.0 - GeomSum(s.parameter, n));
  }

  lemma ExponentialCoursesEstimate(s: Solver, xInit: Values, baseValue: real, ei: real, n: nat)
    ensures var c := Courses(s, Course(xInit, Scale(xInit, -s.parameter), ei), ExpAux(baseValue), n);
            c.estimated == ei * Pow(s.parameter, n)
  {
    ExponentialCourses(s, xInit, baseValue, ei, n);
    GeometricIs(ei, s.parameter, n);
  }

  /** The exponential course from start in closed form. */
  lemma ExponentialCoursesClosed(s: Solver, xInit: Values, baseValue: real, ei: real, n: nat)
    ensures var p := s.parameter;
            var c := Courses(s, Course(xInit, Scale(xInit, -p), ei), ExpAux(baseValue), n);
            && c.deltas == Scale(xInit, -Pow(p, n + 1))
            && c.x == Scale(xInit, 1.0 - GeomSum(p, n))
            && c.estimated == ei * Pow(p, n)
  {
    ExponentialCoursesDeltas(s, xInit, baseValue, ei, n);
    ExponentialCoursesX(s, xInit, baseValue, ei, n);
    ExponentialCoursesEstimate(s, xInit, baseValue, ei, n);
  }

  /** The start state moves along the course Courses begins with. */
  lemma StartCourse(s: Solver, xInit: Values, baseValue: real, targetValue: real, ei: real)
    requires Valid(s)
    ensures var st0 := Start(s, xInit, baseValue, targetValue, ei);
            && CourseOf(st0) == Course(xInit, Scale(xInit, -s.parameter), ei)
            && st0.additional == (if s.mode == Linear then LinearAux(baseValue, -ei * s.parameter)
                                  else ExpAux(baseValue))
  {
  }

  /**
    Linear mode after n steps from start: the deltas stay `-p * x_init`, x is
    `x_init * (1 - n*p)` and the estimate is `ei * (1 - n*p)`.
  */
  lemma LinearClosedForm(s: Solver, xInit: Values, baseValue: real, targetValue: real,
                         ei: real, fnX: Objective, n: nat)
    requires Valid(s) && s.mode == Linear
    ensures var st := Iterate(s, Start(s, xInit, baseValue, targetValue, ei), fnX, [], n).state;
            && st.deltas == Scale(xInit, -s.parameter)
            && st.x == Scale(xInit, 1.0 - n as real * s.parameter)
            && st.estimated == ei * (1.0 - n as real * s.parameter)
            && st.additional == LinearAux(baseValue, -ei * s.parameter)
  {
    var st0 := Start(s, xInit, baseValue, targetValue, ei);
    StartCourse(s, xInit, baseValue, targetValue, ei);
    IterateFollowsCourses(s, st0, fnX, n);
    LinearCoursesClosed(s, xInit, baseValue, ei, n);
  }

  /** In linear mode every call to fn_x the steps make is with the constant deltas `-p * x_init`. */
  lemma {:induction false} LinearCalls(s: Solver, xInit: Values, baseValue: real, targetValue: real,
                                       ei: real, fnX: Objective, n: nat)
    requires Valid(s) && s.mode == Linear
    ensures var r := Iterate(s, Start(s, xInit, baseValue, targetValue, ei), fnX, [], n);
            forall k :: 0 <= k < n ==> r.calls[k] == Scale(xInit, -s.parameter)
  {
    if n > 0 {
      var st0 := Start(s, xInit, baseValue, targetValue, ei);
      var m: nat := n - 1;
      LinearCalls(s, xInit, baseValue, targetValue, ei, fnX, m);
      LinearClosedForm(s, xInit, baseValue, targetValue, ei, fnX, n);
      IterateUnfold(s, st0, fnX, n);
    }
  }

  /**
    Exponential mode after n steps from start: the deltas are
    `-x_init * p^(n+1)`, the estimate is `ei * p^n` and x is
    `x_init * (1 - (p + ... + p^n))`.
  */
  lemma ExponentialClosedForm(s: Solver, xInit: Values, baseValue: real, targetValue: real,
                              ei: real, fnX: Objective, n: nat)
    requires Valid(s) && s.mode == Exponential
    ensures var p := s.parameter;
            var st := Iterate(s, Start(s, xInit, baseValue, targetValue, ei), fnX, [], n).state;
            && st.deltas == Scale(xInit, -Pow(p, n + 1))
            && st.x == Scale(xInit, 1.0 - GeomSum(p, n))
            && st.estimated == ei * Pow(p, n)
            && st.additional == ExpAux(baseValue)
  {
    var st0 := Start(s, xInit, baseValue, targetValue, ei);
    StartCourse(s, xInit, baseValue, targetValue, ei);
    IterateFollowsCourses(s, st0, fnX, n);
    ExponentialCoursesClosed(s, xInit, baseValue, ei, n);
  }

  /** In exponential mode the k-th call to fn_x the steps make is with `-x_init * p^(k+2)`. */
  lemma {:induction false} ExponentialCalls(s: Solver, xInit: Values, baseValue: real, targetValue: real,
                                            ei: real, fnX: Objective, n: nat)
    requires Valid(s) && s.mode == Exponential
    ensures var r := Iterate(s, Start(s, xInit, baseValue, targetValue, ei), fnX, [], n);
            forall k :: 0 <= k < n ==> r.calls[k] == Scale(xInit, -Pow(s.parameter, k + 2))
  {
    if n > 0 {
      var st0 := Start(s, xInit, baseValue, targetValue, ei);
      var m: nat := n - 1;
      ExponentialCalls(s, xInit, baseValue, targetValue, ei, fnX, m);
      ExponentialClosedForm(s, xInit, baseValue, targetValue, ei, fnX, n);
      IterateUnfold(s, st0, fnX, n);
    }
  }

  /** Accepting the n-th state returns the x of the next course. */
  lemma AcceptedCourse(s: Solver, xInit: Values, baseValue: real, targetValue: real,
                       ei: real, fnX: Objective, n: nat)
    requires Valid(s)
    ensures var st := Iterate(s, Start(s, xInit, baseValue, targetValue, ei), fnX, [], n).state;
            var additional := if s.mode == Linear then LinearAux(baseValue, -ei * s.parameter)
                              else ExpAux(baseValue);
            Add(st.x, st.deltas)
            == Courses(s, Course(xInit, Scale(xInit, -s.parameter), ei), additional, n + 1).x
  {
    var st0 := Start(s, xInit, baseValue, targetValue, ei);
    StartCourse(s, xInit, baseValue, targetValue, ei);
    IterateFollowsCourses(s, st0, fnX, n);
  }

  /** The solution returned when the n-th state is accepted, in both modes. */
  lemma AcceptedSolution(s: Solver, xInit: Values, baseValue: real, targetValue: real,
                         ei: real, fnX: Objective, n: nat)
    requires Valid(s)
    ensures var st := Iterate(s, Start(s, xInit, baseValue, targetValue, ei), fnX, [], n).state;
            var p := s.parameter;
            st.improvement > st.lastImprovement ==>
              && End(s, st).calls == []
              && (s.mode == Linear ==> End(s, st).x == Scale(xInit, 1.0 - (n + 1) as real * p))
              && (s.mode == Exponential ==> End(s, st).x == Scale(xInit, 1.0 - GeomSum(p, n + 1)))
  {
    if s.mode == Linear {
      AcceptedLinear(s, xInit, baseValue, targetValue, ei, fnX, n);
    } else {
      AcceptedExponential(s, xInit, baseValue, targetValue, ei, fnX, n);
    }
  }

  lemma AcceptedLinear(s: Solver, xInit: Values, baseValue: real, targetValue: real,
                       ei: real, fnX: Objective, n: nat)
    requires Valid(s) && s.mode == Linear
    ensures var st := Iterate(s, Start(s, xInit, baseValue, targetValue, ei), fnX, [], n).state;
            Add(st.x, st.deltas) == Scale(xInit, 1.0 - (n + 1) as real * s.parameter)
  {
    var k: nat := n + 1;
    AcceptedCourse(s, xInit, baseValue, targetValue, ei, fnX, n);
    LinearCoursesX(s, xInit, baseValue, ei, k);
    ScaleEq(xInit, 1.0 - k as real * s.parameter, 1.0 - (n + 1) as real * s.parameter);
  }

  lemma AcceptedExponential(s: Solver, xInit: Values, baseValue: real, targetValue: real,
                            ei: real, fnX: Objective, n: nat)
    requires Valid(s) && s.mode == Exponential
    ensures var st := Iterate(s, Start(s, xInit, baseValue, targetValue, ei), fnX, [], n).state;
            Add(st.x, st.deltas) == Scale(xInit, 1.0 - GeomSum(s.parameter, n + 1))
  {
    var k: nat := n + 1;
    AcceptedCourse(s, xInit, baseValue, targetValue, ei, fnX, n);
    ExponentialCoursesX(s, xInit, baseValue, ei, k);
  }

  /**
    `end` can reject only after at least one step, and a rejection's undo call
    exactly cancels the deltas of the last call the steps made.
  */
  lemma RejectionUndoesLastStep(s: Solver, xInit: Values, baseValue: real, targetValue: real,
                                ei: real, fnX: Objective, n: nat)
    requires Valid(s)
    ensures var run := Iterate(s, Start(s, xInit, baseValue, targetValue, ei), fnX, [], n);
            var e := End(s, run.state);
            run.state.improvement <= run.state.lastImprovement ==>
              && n > 0
              && |e.calls| == 1
              && Add(run.calls[n - 1], e.calls[0]) == Zeros(|xInit|)
              && e.x == run.state.x
  {
    var run := Iterate(s, Start(s, xInit, baseValue, targetValue, ei), fnX, [], n);
    if n > 0 {
      AddNegCancels(run.state.deltas);
    }
  }

  /** In exponential mode with 0 <= p < 1 every nonzero delta strictly shrinks in magnitude at each step. */
  lemma ExponentialStepShrinks(s: Solver, st: State, fnX: Objective, history: seq<Values>)
    requires Valid(s) && Fits(s, st) && s.mode == Exponential && 0.0 <= s.parameter < 1.0
    ensures var next := Step(s, st, fnX, history).state;
            forall i :: 0 <= i < |st.deltas| ==>
              Abs(next.deltas[i]) <= Abs(st.deltas[i])
              && (st.deltas[i] != 0.0 ==> Abs(next.deltas[i]) < Abs(st.deltas[i]))
  {
    var next := Step(s, st, fnX, history).state;
    forall i | 0 <= i < |st.deltas|
      ensures Abs(next.deltas[i]) <= Abs(st.deltas[i])
      ensures st.deltas[i] != 0.0 ==> Abs(next.deltas[i]) < Abs(st.deltas[i])
    {
      ScaledAbs(st.deltas[i], s.parameter);
    }
  }

  function Abs(a: real): real {
    if a < 0.0 then -a else a
  }

  lemma ScaledAbs(d: real, p: real)
    requires 0.0 <= p < 1.0
    ensures Abs(d * p) <= Abs(d)
    ensures d != 0.0 ==> Abs(d * p) < Abs(d)
  {
    if d < 0.0 {
      assert d * p - d == (-d) * (1.0 - p);
    } else {
      assert d - d * p == d * (1.0 - p);
    }
  }

  /** 0 <= a*b <= b for 0 <= a <= 1 and b >= 0. */
  lemma MulUnit(a: real, b: real, c: real)
    requires 0.0 <= a <= 1.0 && 0.0 <= b && c == a * b
    ensures 0.0 <= c <= b
  {
    assert b - a * b == (1.0 - a) * b;
  }

  /** Powers of a fraction stay in [0, 1]. */
  lemma {:induction false} PowUnit(p: real, n: nat)
    requires 0.0 <= p <= 1.0
    ensures 0.0 <= Pow(p, n) <= 1.0
  {
    if n > 0 {
      var m: nat := n - 1;
      PowUnit(p, m);
      MulUnit(p, Pow(p, m), Pow(p, n));
    }
  }

  /** Multiplying both sides of `b <= c` by a non-negative factor. */
  lemma MulMono(a: real, b: real, c: real)
    requires 0.0 <= a && b <= c
    ensures a * b <= a * c
  {
    assert a * c - a * b == a * (c - b);
  }

  /** One induction step of Bernoulli's inequality, on plain reals: r = p*q and b = a + (1 - p). */
  lemma BernoulliStep(p: real, q: real, a: real, r: real, b: real)
    requires 0.0 <= p <= 1.0 && 0.0 <= q <= 1.0 && q * a <= 1.0
    requires r == p * q && b == a + (1.0 - p)
    ensures r * b <= 1.0
  {
    MulUnit(p, q, r);
    calc {
      r * b;
    ==
      p * (q * a) + (1.0 - p) * r;
    <= { MulMono(p, q * a, 1.0); }
      p + (1.0 - p) * r;
    <= { MulMono(1.0 - p, r, 1.0); }
      p + (1.0 - p) * 1.0;
    ==
      1.0;
    }
  }

  /**
    With 0 <= p <= 1, `p^n * (1 + n*(1 - p)) <= 1` (Bernoulli's inequality): the
    exponential deltas `-x_init * p^(n+1)` tend to zero when p < 1.
  */
  lemma {:induction false} PowVanishes(p: real, n: nat)
    requires 0.0 <= p <= 1.0
    ensures Pow(p, n) * (1.0 + n as real * (1.0 - p)) <= 1.0
  {
    if n > 0 {
      var m: nat := n - 1;
      PowVanishes(p, m);
      PowUnit(p, m);
      BernoulliStep(p, Pow(p, m), 1.0 + m as real * (1.0 - p), Pow(p, n), 1.0 + n as real * (1.0 - p));
    }
  }
}
