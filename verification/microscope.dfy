/**
 Orthogonal matching pursuit (decompose and explained_variance in
 clozn/analysis/microscope.py), over exact reals and vectors already of unit length.

 numpy's least-squares solver is a parameter: all that is known of it is that no other
 coefficients leave a smaller residual.
 */
module Microscope {
  import opened Common

  type Vector = seq<real>

  // ------------------------------------------------------------- linear algebra

  /** A product, kept as a function so that proofs need no arithmetic of products. */
  function Times(x: real, y: real): real {
    x * y
  }

  lemma TimesLaws(a: real, b: real, x: real)
    ensures Times(a + b, x) == Times(a, x) + Times(b, x)
    ensures Times(x, a + b) == Times(x, a) + Times(x, b)
    ensures Times(a, x) == Times(x, a)
    ensures Times(-a, x) == -Times(a, x)
    ensures Times(x, -a) == -Times(x, a)
    ensures Times(0.0, x) == 0.0 && Times(1.0, x) == x
  {
  }

  lemma Product(a: real, b: real)
    requires a > 0.0 && b > 0.0
    ensures Times(a, b) > 0.0
  {
  }

  lemma Square(x: real)
    ensures Times(x, x) >= 0.0 && (Times(x, x) == 0.0 ==> x == 0.0)
  {
    hide Times;
    TimesLaws(x, 0.0, x);
    TimesLaws(x, 0.0, -x);
    if x > 0.0 {
      Product(x, x);
    } else if x < 0.0 {
      Product(-x, -x);
    }
  }

  lemma TimesAssoc(a: real, b: real, x: real)
    ensures Times(Times(a, b), x) == Times(a, Times(b, x))
  {
  }

  function Dot(u: Vector, v: Vector): real
    requires |u| == |v|
  {
    if u == [] then 0.0
    else
      var last := |u| - 1;
      Dot(u[..last], v[..last]) + Times(u[last], v[last])
  }

  function Norm2(u: Vector): real {
    Dot(u, u)
  }

  /** u + c v */
  function Plus(u: Vector, c: real, v: Vector): (w: Vector)
    requires |u| == |v|
    ensures |w| == |u|
  {
    seq(|u|, i requires 0 <= i < |u| => u[i] + Times(c, v[i]))
  }

  /** u - v */
  function Minus(u: Vector, v: Vector): (w: Vector)
    requires |u| == |v|
    ensures |w| == |u|
  {
    seq(|u|, i requires 0 <= i < |u| => u[i] - v[i])
  }

  function Zero(d: nat): (w: Vector)
    ensures |w| == d
  {
    seq(d, _ => 0.0)
  }

  predicate Rows(rows: seq<Vector>, d: nat) {
    forall i :: 0 <= i < |rows| ==> |rows[i]| == d
  }

  /** alphas @ rows */
  function Combined(alphas: Vector, rows: seq<Vector>, d: nat): (w: Vector)
    requires |alphas| == |rows| && Rows(rows, d)
    ensures |w| == d
  {
    if rows == [] then Zero(d)
    else
      var last := |rows| - 1;
      Plus(Combined(alphas[..last], rows[..last], d), alphas[last], rows[last])
  }

  lemma {:induction false} DotPlus(u: Vector, c: real, v: Vector, w: Vector)
    requires |u| == |v| == |w|
    ensures Dot(Plus(u, c, v), w) == Dot(u, w) + Times(c, Dot(v, w))
  {
    hide Times;
    if u == [] {
      TimesLaws(0.0, 0.0, c);
    } else {
      var last := |u| - 1;
      assert Plus(u, c, v)[..last] == Plus(u[..last], c, v[..last]);
      DotPlus(u[..last], c, v[..last], w[..last]);
      TimesLaws(u[last], Times(c, v[last]), w[last]);
      TimesAssoc(c, v[last], w[last]);
      TimesLaws(Dot(v[..last], w[..last]), Times(v[last], w[last]), c);
    }
  }

  lemma {:induction false} DotCommutes(u: Vector, v: Vector)
    requires |u| == |v|
    ensures Dot(u, v) == Dot(v, u)
  {
    if u != [] {
      DotCommutes(u[..|u| - 1], v[..|u| - 1]);
    }
  }

  lemma {:induction false} Norm2NotNegative(u: Vector)
    ensures Norm2(u) >= 0.0
  {
    hide Times;
    if u != [] {
      Norm2NotNegative(u[..|u| - 1]);
      Square(u[|u| - 1]);
    }
  }

  /** |u + c v|^2 = |u|^2 + 2 c u.v + c^2 |v|^2 */
  lemma Norm2Plus(u: Vector, c: real, v: Vector)
    requires |u| == |v|
    ensures Norm2(Plus(u, c, v)) == Norm2(u) + Times(c, Dot(u, v)) + Times(c, Dot(u, v)) + Times(c, Times(c, Norm2(v)))
  {
    hide Times, Dot, Plus;
    var w := Plus(u, c, v);
    DotPlus(u, c, v, w);
    DotCommutes(u, w);
    DotCommutes(v, w);
    DotPlus(u, c, v, u);
    DotPlus(u, c, v, v);
    DotCommutes(u, v);
    TimesLaws(Dot(u, v), Times(c, Norm2(v)), c);
  }

  lemma {:induction false} DotZero(v: Vector)
    ensures Dot(Zero(|v|), v) == 0.0
  {
    hide Times;
    if v != [] {
      var last := |v| - 1;
      assert Zero(|v|)[..last] == Zero(last);
      DotZero(v[..last]);
      TimesLaws(0.0, 0.0, v[last]);
    }
  }

  /** What is orthogonal to every row is orthogonal to their combinations. */
  lemma {:induction false} CombinedOrthogonal(alphas: Vector, rows: seq<Vector>, d: nat, r: Vector)
    requires |alphas| == |rows| && Rows(rows, d) && |r| == d
    requires forall i :: 0 <= i < |rows| ==> Dot(rows[i], r) == 0.0
    ensures Dot(Combined(alphas, rows, d), r) == 0.0
  {
    hide Times, Dot, Plus;
    if rows == [] {
      DotZero(r);
    } else {
      var last := |rows| - 1;
      CombinedOrthogonal(alphas[..last], rows[..last], d, r);
      DotPlus(Combined(alphas[..last], rows[..last], d), alphas[last], rows[last], r);
      TimesLaws(0.0, 0.0, alphas[last]);
    }
  }

  // ---------------------------------------------------------------- least squares

  function Residual(t: Vector, alphas: Vector, rows: seq<Vector>): (r: Vector)
    requires |alphas| == |rows| && Rows(rows, |t|)
    ensures |r| == |t|
  {
    Minus(t, Combined(alphas, rows, |t|))
  }

  function SquaredError(t: Vector, alphas: Vector, rows: seq<Vector>): real
    requires |alphas| == |rows| && Rows(rows, |t|)
  {
    Norm2(Residual(t, alphas, rows))
  }

  type Solver = (seq<Vector>, Vector) -> Vector

  ghost predicate Minimises(t: Vector, alphas: Vector, rows: seq<Vector>)
    requires Rows(rows, |t|)
  {
    && |alphas| == |rows|
    && forall betas: Vector :: |betas| == |rows| ==> SquaredError(t, alphas, rows) <= SquaredError(t, betas, rows)
  }

  /** Raising one coefficient by c adds c times that row. */
  lemma {:induction false} CombinedShift(alphas: Vector, rows: seq<Vector>, d: nat, i: nat, c: real)
    requires |alphas| == |rows| && Rows(rows, d) && i < |rows|
    ensures Combined(alphas[i := alphas[i] + c], rows, d) == Plus(Combined(alphas, rows, d), c, rows[i])
  {
    hide Times;
    var last := |rows| - 1;
    var more := alphas[i := alphas[i] + c];
    if i < last {
      assert more[..last] == alphas[..last][i := alphas[i] + c];
      CombinedShift(alphas[..last], rows[..last], d, i, c);
    } else {
      assert more[..last] == alphas[..last];
      forall k | 0 <= k < d
        ensures Times(alphas[i] + c, rows[i][k]) == Times(alphas[i], rows[i][k]) + Times(c, rows[i][k])
      {
        TimesLaws(alphas[i], c, rows[i][k]);
      }
    }
  }

  lemma ResidualShift(t: Vector, alphas: Vector, rows: seq<Vector>, i: nat, c: real)
    requires |alphas| == |rows| && Rows(rows, |t|) && i < |rows|
    ensures Residual(t, alphas[i := alphas[i] + c], rows) == Plus(Residual(t, alphas, rows), -c, rows[i])
  {
    hide Times, Combined;
    CombinedShift(alphas, rows, |t|, i, c);
    forall k | 0 <= k < |t| ensures Times(-c, rows[i][k]) == -Times(c, rows[i][k]) {
      TimesLaws(c, 0.0, rows[i][k]);
    }
  }

  /** Taking its own projection from a vector takes the square of the score from its norm. */
  lemma ProjectionTaken(r: Vector, a: Vector)
    requires |r| == |a| && Norm2(a) == 1.0
    ensures Norm2(Plus(r, -Dot(r, a), a)) == Norm2(r) - Times(Dot(r, a), Dot(r, a))
  {
    hide Times, Dot, Plus;
    var c := Dot(r, a);
    Norm2Plus(r, -c, a);
    TimesLaws(c, 0.0, c);
    TimesLaws(c, 0.0, -c);
    TimesLaws(0.0, 0.0, -c);
    TimesLaws(1.0, 0.0, -c);
  }

  /** The residual of a minimiser is orthogonal to every row. */
  lemma ResidualOrthogonal(t: Vector, alphas: Vector, rows: seq<Vector>, i: nat)
    requires Rows(rows, |t|) && Minimises(t, alphas, rows) && i < |rows| && Norm2(rows[i]) == 1.0
    ensures Dot(rows[i], Residual(t, alphas, rows)) == 0.0
  {
    hide Times, Dot, Plus, Residual;
    var r, a := Residual(t, alphas, rows), rows[i];
    var c := Dot(r, a);
    ResidualShift(t, alphas, rows, i, c);
    ProjectionTaken(r, a);
    assert SquaredError(t, alphas, rows) <= SquaredError(t, alphas[i := alphas[i] + c], rows);
    Square(c);
    DotCommutes(r, a);
  }

  lemma ResidualWithZero(t: Vector, alphas: Vector, rows: seq<Vector>, a: Vector)
    requires |alphas| == |rows| && Rows(rows, |t|) && |a| == |t| && Rows(rows + [a], |t|)
    ensures Residual(t, alphas + [0.0], rows + [a]) == Residual(t, alphas, rows)
  {
    hide Times;
    assert (alphas + [0.0])[..|rows|] == alphas && (rows + [a])[..|rows|] == rows;
    forall k | 0 <= k < |t| ensures Times(0.0, a[k]) == 0.0 {
      TimesLaws(0.0, 0.0, a[k]);
    }
    assert Combined(alphas + [0.0], rows + [a], |t|) == Combined(alphas, rows, |t|);
  }

  /** One more atom lowers the squared error at least by the square of its score. */
  lemma AtomLowersError(t: Vector, alphas: Vector, rows: seq<Vector>, a: Vector, betas: Vector)
    requires |alphas| == |rows| && Rows(rows, |t|) && |a| == |t| && Norm2(a) == 1.0
    requires Rows(rows + [a], |t|) && Minimises(t, betas, rows + [a])
    ensures var score := Dot(Residual(t, alphas, rows), a);
      SquaredError(t, betas, rows + [a]) <= SquaredError(t, alphas, rows) - Times(score, score)
  {
    hide Times, Dot, Plus, Residual;
    var wider, same := rows + [a], alphas + [0.0];
    var c := Dot(Residual(t, alphas, rows), a);
    ResidualWithZero(t, alphas, rows, a);
    ResidualShift(t, same, wider, |rows|, c);
    ProjectionTaken(Residual(t, alphas, rows), a);
    assert SquaredError(t, betas, wider) <= SquaredError(t, same[|rows| := same[|rows|] + c], wider);
  }

  lemma ResidualOfAll(t: Vector, alphas: Vector, rows: seq<Vector>)
    requires |alphas| == |rows| && Rows(rows, |t|)
    ensures Plus(Residual(t, alphas, rows), 1.0, Combined(alphas, rows, |t|)) == t
  {
    hide Times, Combined;
    var recon := Combined(alphas, rows, |t|);
    forall k | 0 <= k < |t| ensures Times(1.0, recon[k]) == recon[k] {
      TimesLaws(0.0, 0.0, recon[k]);
    }
  }

  /** For a unit target, reconstruction and residual are the legs of a right triangle. */
  lemma Pythagoras(t: Vector, alphas: Vector, rows: seq<Vector>)
    requires Norm2(t) == 1.0 && Rows(rows, |t|) && Minimises(t, alphas, rows)
    requires forall i :: 0 <= i < |rows| ==> Norm2(rows[i]) == 1.0
    ensures var recon, r := Combined(alphas, rows, |t|), Residual(t, alphas, rows);
      Norm2(recon) + Norm2(r) == 1.0 && Dot(recon, t) == Norm2(recon)
  {
    hide Times, Dot, Plus, Residual, Combined;
    var recon, r := Combined(alphas, rows, |t|), Residual(t, alphas, rows);
    forall i | 0 <= i < |rows| ensures Dot(rows[i], r) == 0.0 {
      ResidualOrthogonal(t, alphas, rows, i);
    }
    CombinedOrthogonal(alphas, rows, |t|, r);
    DotCommutes(recon, r);
    ResidualOfAll(t, alphas, rows);
    Norm2Plus(r, 1.0, recon);
    DotPlus(r, 1.0, recon, recon);
    DotCommutes(recon, t);
    TimesLaws(0.0, 0.0, Norm2(recon));
    TimesLaws(0.0, 0.0, Dot(r, recon));
  }

  // ------------------------------------------------------------------- the pursuit

  predicate Picks(selected: seq<nat>, n: nat) {
    forall i :: 0 <= i < |selected| ==> selected[i] < n
  }

  function Picked(atoms: seq<Vector>, selected: seq<nat>): (rows: seq<Vector>)
    requires Picks(selected, |atoms|)
    ensures |rows| == |selected|
  {
    seq(|selected|, i requires 0 <= i < |selected| => atoms[selected[i]])
  }

  /** A usable dictionary: directions of the target's dimension and of unit length. */
  predicate Dictionary(atoms: seq<Vector>, d: nat) {
    Rows(atoms, d) && forall i :: 0 <= i < |atoms| ==> Norm2(atoms[i]) == 1.0
  }

  lemma PickedRows(atoms: seq<Vector>, d: nat, selected: seq<nat>)
    requires Dictionary(atoms, d) && Picks(selected, |atoms|)
    ensures Rows(Picked(atoms, selected), d)
    ensures forall i :: 0 <= i < |selected| ==> Norm2(Picked(atoms, selected)[i]) == 1.0
  {
  }

  /** The solver finds a minimiser for these picks. */
  ghost predicate Solved(t: Vector, atoms: seq<Vector>, solve: Solver, selected: seq<nat>)
    requires Dictionary(atoms, |t|) && Picks(selected, |atoms|)
  {
    PickedRows(atoms, |t|, selected);
    |solve(Picked(atoms, selected), t)| == |selected|
    && Minimises(t, solve(Picked(atoms, selected), t), Picked(atoms, selected))
  }

  ghost predicate LeastSquares(t: Vector, atoms: seq<Vector>, solve: Solver)
    requires Dictionary(atoms, |t|)
  {
    forall selected: seq<nat> :: Picks(selected, |atoms|) ==> Solved(t, atoms, solve, selected)
  }

  /** What is left of the target after these picks. */
  function Left(t: Vector, atoms: seq<Vector>, solve: Solver, selected: seq<nat>): (r: Vector)
    requires Dictionary(atoms, |t|) && Picks(selected, |atoms|)
    requires |solve(Picked(atoms, selected), t)| == |selected|
    ensures |r| == |t|
  {
    Residual(t, solve(Picked(atoms, selected), t), Picked(atoms, selected))
  }

  /** The first of the atoms not yet picked whose score is largest. */
  predicate Best(atoms: seq<Vector>, selected: seq<nat>, r: Vector, j: nat)
    requires Dictionary(atoms, |r|)
  {
    && j < |atoms| && j !in selected
    && forall i :: 0 <= i < |atoms| && i !in selected ==>
         if i < j then Abs(Dot(atoms[i], r)) < Abs(Dot(atoms[j], r)) else Abs(Dot(atoms[i], r)) <= Abs(Dot(atoms[j], r))
  }

  /** The last of these picks was the best one there was, and its score was above the limit. */
  ghost predicate GoodPick(t: Vector, atoms: seq<Vector>, solve: Solver, stop: real, picks: seq<nat>)
    requires Dictionary(atoms, |t|) && LeastSquares(t, atoms, solve) && picks != [] && Picks(picks, |atoms|)
  {
    var before, j := picks[..|picks| - 1], picks[|picks| - 1];
    assert Solved(t, atoms, solve, before);
    && Best(atoms, before, Left(t, atoms, solve, before), j)
    && Abs(Dot(atoms[j], Left(t, atoms, solve, before))) > stop
  }

  ghost predicate Greedy(t: Vector, atoms: seq<Vector>, solve: Solver, stop: real, selected: seq<nat>)
    requires Dictionary(atoms, |t|) && LeastSquares(t, atoms, solve)
  {
    && Picks(selected, |atoms|)
    && forall n :: 0 < n <= |selected| ==> GoodPick(t, atoms, solve, stop, selected[..n])
  }

  /** np.argmax over the masked scores. */
  method BestAtom(atoms: seq<Vector>, selected: seq<nat>, r: Vector) returns (best: Option<nat>)
    requires Dictionary(atoms, |r|)
    ensures best.Some? ==> Best(atoms, selected, r, best.value)
    ensures best.None? ==> forall i :: 0 <= i < |atoms| ==> i in selected
  {
    hide Dot;
    best := None;
    for i := 0 to |atoms|
      invariant best.None? ==> forall j :: 0 <= j < i ==> j in selected
      invariant best.Some? ==> best.value < i && Best(atoms[..i], selected, r, best.value)
    {
      if i !in selected && (best.None? || Abs(Dot(atoms[i], r)) > Abs(Dot(atoms[best.value], r))) {
        best := Some(i);
      }
    }
    assert atoms[..|atoms|] == atoms;
  }

  /** The loop of decompose and the refit after it. */
  method Pursue(t: Vector, atoms: seq<Vector>, k: int, solve: Solver, stop: real)
    returns (selected: seq<nat>, alphas: Vector, residual: Vector)
    requires Dictionary(atoms, |t|) && LeastSquares(t, atoms, solve)
    ensures Greedy(t, atoms, solve, stop, selected)
    ensures |selected| <= Max(0, Min(k, |atoms|))
    ensures alphas == solve(Picked(atoms, selected), t) && |alphas| == |selected|
    ensures Rows(Picked(atoms, selected), |t|) && residual == Residual(t, alphas, Picked(atoms, selected))
    ensures |selected| == Max(0, Min(k, |atoms|)) ||
      forall i :: 0 <= i < |atoms| && i !in selected ==> Abs(Dot(atoms[i], residual)) <= stop
  {
    hide Dot, LeastSquares, Residual;
    selected := [];
    SolvesPicked(t, atoms, solve, []);
    NothingPicked(t, atoms, solve);
    residual := t;
    var steps := Max(0, Min(k, |atoms|));
    var step := 0;
    while step < steps
      invariant 0 <= step <= steps && |selected| == step
      invariant Greedy(t, atoms, solve, stop, selected)
      invariant |solve(Picked(atoms, selected), t)| == |selected| && residual == Left(t, atoms, solve, selected)
      decreases steps - step
    {
      var best := BestAtom(atoms, selected, residual);
      if best.None? || Abs(Dot(atoms[best.value], residual)) <= stop {
        break;
      }
      GreedyAppend(t, atoms, solve, stop, selected, best.value);
      selected := selected + [best.value];
      SolvesPicked(t, atoms, solve, selected);
      residual := Residual(t, solve(Picked(atoms, selected), t), Picked(atoms, selected));
      step := step + 1;
    }
    alphas := solve(Picked(atoms, selected), t);
    residual := Residual(t, alphas, Picked(atoms, selected));
  }

  lemma SolvesPicked(t: Vector, atoms: seq<Vector>, solve: Solver, selected: seq<nat>)
    requires Dictionary(atoms, |t|) && LeastSquares(t, atoms, solve) && Picks(selected, |atoms|)
    ensures Solved(t, atoms, solve, selected) && |solve(Picked(atoms, selected), t)| == |selected|
  {
    assert Solved(t, atoms, solve, selected);
  }

  lemma NothingPicked(t: Vector, atoms: seq<Vector>, solve: Solver)
    requires Dictionary(atoms, |t|) && |solve(Picked(atoms, []), t)| == 0
    ensures Left(t, atoms, solve, []) == t
  {
  }

  lemma GreedyAppend(t: Vector, atoms: seq<Vector>, solve: Solver, stop: real, selected: seq<nat>, j: nat)
    requires Dictionary(atoms, |t|) && LeastSquares(t, atoms, solve) && Greedy(t, atoms, solve, stop, selected)
    requires |solve(Picked(atoms, selected), t)| == |selected|
    requires Best(atoms, selected, Left(t, atoms, solve, selected), j)
    requires Abs(Dot(atoms[j], Left(t, atoms, solve, selected))) > stop
    ensures Greedy(t, atoms, solve, stop, selected + [j])
  {
    hide Dot, LeastSquares, Left;
    var longer := selected + [j];
    assert longer[..|selected|] == selected;
    assert Picks(longer, |atoms|);
    forall n | 0 < n <= |longer| ensures GoodPick(t, atoms, solve, stop, longer[..n]) {
      if n <= |selected| {
        assert longer[..n] == selected[..n];
      } else {
        assert longer[..n] == longer;
      }
    }
  }

  // ----------------------------------------------------------- what a pursuit keeps

  /** The residual stays orthogonal to every atom picked so far. */
  lemma PickedAreOrthogonal(t: Vector, atoms: seq<Vector>, solve: Solver, selected: seq<nat>, i: nat)
    requires Dictionary(atoms, |t|) && LeastSquares(t, atoms, solve) && Picks(selected, |atoms|) && i < |selected|
    requires |solve(Picked(atoms, selected), t)| == |selected|
    ensures Dot(atoms[selected[i]], Left(t, atoms, solve, selected)) == 0.0
  {
    hide Dot, LeastSquares, Residual, Minimises;
    SolvesPicked(t, atoms, solve, selected);
    var rows := Picked(atoms, selected);
    assert rows[i] == atoms[selected[i]];
    ResidualOrthogonal(t, solve(rows, t), rows, i);
  }

  /** No atom is picked twice. */
  lemma {:induction false} PicksDiffer(t: Vector, atoms: seq<Vector>, solve: Solver, stop: real, selected: seq<nat>)
    requires Dictionary(atoms, |t|) && LeastSquares(t, atoms, solve) && Greedy(t, atoms, solve, stop, selected)
    ensures Distinct(selected)
  {
    hide Dot, LeastSquares, Left, Dictionary;
    forall i, j | 0 <= i < j < |selected| ensures selected[i] != selected[j] {
      assert GoodPick(t, atoms, solve, stop, selected[..j + 1]);
      assert selected[..j + 1][..j] == selected[..j];
      assert selected[i] in selected[..j];
    }
  }

  /**
   The mask over the scores makes no difference: with a limit that is not negative, an
   atom picked before never has a score above it.
   */
  lemma MaskIsNotNeeded(t: Vector, atoms: seq<Vector>, solve: Solver, stop: real, selected: seq<nat>, j: nat)
    requires Dictionary(atoms, |t|) && LeastSquares(t, atoms, solve) && Picks(selected, |atoms|) && stop >= 0.0
    requires |solve(Picked(atoms, selected), t)| == |selected| && j < |atoms|
    requires Abs(Dot(atoms[j], Left(t, atoms, solve, selected))) > stop
    ensures j !in selected
  {
    hide Dot, LeastSquares, Left;
    if j in selected {
      var i :| 0 <= i < |selected| && selected[i] == j;
      PickedAreOrthogonal(t, atoms, solve, selected, i);
    }
  }

  /** The score by which the n-th pick was chosen. */
  ghost function Score(t: Vector, atoms: seq<Vector>, solve: Solver, selected: seq<nat>, n: nat): real
    requires Dictionary(atoms, |t|) && LeastSquares(t, atoms, solve) && Picks(selected, |atoms|) && n < |selected|
  {
    SolvesPicked(t, atoms, solve, selected[..n]);
    Abs(Dot(atoms[selected[n]], Left(t, atoms, solve, selected[..n])))
  }

  ghost function LeftAfter(t: Vector, atoms: seq<Vector>, solve: Solver, selected: seq<nat>, n: nat): Vector
    requires Dictionary(atoms, |t|) && LeastSquares(t, atoms, solve) && Picks(selected, |atoms|) && n <= |selected|
  {
    SolvesPicked(t, atoms, solve, selected[..n]);
    Left(t, atoms, solve, selected[..n])
  }

  lemma SquareOfAbs(x: real)
    ensures Times(Abs(x), Abs(x)) == Times(x, x)
  {
  }

  /** Every step lowers the squared residual at least by the square of the score it went by. */
  lemma StepLowersResidual(t: Vector, atoms: seq<Vector>, solve: Solver, selected: seq<nat>, n: nat)
    requires Dictionary(atoms, |t|) && LeastSquares(t, atoms, solve) && Picks(selected, |atoms|) && n < |selected|
    ensures var score := Score(t, atoms, solve, selected, n);
      Norm2(LeftAfter(t, atoms, solve, selected, n + 1))
        <= Norm2(LeftAfter(t, atoms, solve, selected, n)) - Times(score, score)
  {
    hide Dot, LeastSquares, Residual, Times, Minimises;
    var before, after := selected[..n], selected[..n + 1];
    SolvesPicked(t, atoms, solve, before);
    SolvesPicked(t, atoms, solve, after);
    var rows, a := Picked(atoms, before), atoms[selected[n]];
    assert Picked(atoms, after) == rows + [a];
    AtomLowersError(t, solve(rows, t), rows, a, solve(rows + [a], t));
    DotCommutes(a, Left(t, atoms, solve, before));
    SquareOfAbs(Dot(a, Left(t, atoms, solve, before)));
  }

  lemma SquareAbove(x: real, y: real)
    requires x > y >= 0.0
    ensures Times(x, x) > Times(y, y)
  {
    hide Times;
    var d := x - y;
    TimesLaws(y, d, x);
    TimesLaws(y, d, y);
    TimesLaws(0.0, 0.0, y);
    Product(d, x);
    if y > 0.0 {
      Product(d, y);
    } else {
      TimesLaws(0.0, 0.0, x);
    }
  }

  /** n steps explain more than n times the square of the limit, so a unit target bounds their number. */
  lemma {:induction false} ResidualAfterSteps(t: Vector, atoms: seq<Vector>, solve: Solver, stop: real,
                                              selected: seq<nat>, n: nat)
    requires Dictionary(atoms, |t|) && LeastSquares(t, atoms, solve) && Greedy(t, atoms, solve, stop, selected)
    requires Norm2(t) == 1.0 && stop >= 0.0 && n <= |selected|
    ensures Norm2(LeftAfter(t, atoms, solve, selected, n)) <= 1.0 - Times(n as real, Times(stop, stop))
    ensures n > 0 ==> Norm2(LeftAfter(t, atoms, solve, selected, n)) < 1.0 - Times(stop, stop)
  {
    hide Dot, LeastSquares, Left, Times, Picked;
    TimesLaws(0.0, 0.0, Times(stop, stop));
    Square(stop);
    if n == 0 {
      assert selected[..0] == [];
      SolvesPicked(t, atoms, solve, []);
      NothingPicked(t, atoms, solve);
    } else {
      ResidualAfterSteps(t, atoms, solve, stop, selected, n - 1);
      StepLowersResidual(t, atoms, solve, selected, n - 1);
      assert GoodPick(t, atoms, solve, stop, selected[..n]);
      assert selected[..n][..n - 1] == selected[..n - 1];
      SquareAbove(Score(t, atoms, solve, selected, n - 1), stop);
      TimesLaws((n - 1) as real, 1.0, Times(stop, stop));
      TimesLaws(0.0, 0.0, (n - 1) as real);
      NotNegative(n - 1, Times(stop, stop));
    }
  }

  lemma NotNegative(n: nat, x: real)
    requires x >= 0.0
    ensures Times(n as real, x) >= 0.0
  {
  }

  /** What a decomposition reports; `root` is the norm of the reconstruction. */
  function Cosine(t: Vector, recon: Vector, root: real, zero: real): real
    requires |t| == |recon| && zero >= 0.0
  {
    if root > zero then Dot(recon, t) / root else 0.0
  }

  function ExplainedVariance(cos: real): real {
    if cos * cos < 0.0 then 0.0 else if cos * cos > 1.0 then 1.0 else cos * cos
  }

  lemma Quotient(x: real, root: real)
    requires root > 0.0 && x == root * root
    ensures x / root == root
  {
  }

  /**
   Whatever the pursuit picked, reconstruction and residual split the unit target, the
   cosine is the norm of the reconstruction, and the explained variance is its square: the
   guards against a zero norm and against values outside [0, 1] never act.
   */
  lemma PursuitExplains(t: Vector, atoms: seq<Vector>, solve: Solver, stop: real, selected: seq<nat>, root: real,
                        zero: real)
    requires Dictionary(atoms, |t|) && LeastSquares(t, atoms, solve) && Greedy(t, atoms, solve, stop, selected)
    requires Norm2(t) == 1.0 && stop >= zero >= 0.0 && selected != []
    requires |solve(Picked(atoms, selected), t)| == |selected| && Rows(Picked(atoms, selected), |t|)
    requires var recon := Combined(solve(Picked(atoms, selected), t), Picked(atoms, selected), |t|);
      root >= 0.0 && root * root == Norm2(recon)
    ensures var recon := Combined(solve(Picked(atoms, selected), t), Picked(atoms, selected), |t|);
      && Norm2(recon) + Norm2(Left(t, atoms, solve, selected)) == 1.0
      && Cosine(t, recon, root, zero) == root > zero
      && ExplainedVariance(Cosine(t, recon, root, zero)) == Norm2(recon)
  {
    hide Dot, LeastSquares, Residual, Minimises, Combined;
    SolvesPicked(t, atoms, solve, selected);
    var rows := Picked(atoms, selected);
    Pythagoras(t, solve(rows, t), rows);
    var recon := Combined(solve(rows, t), rows, |t|);
    assert selected[..|selected|] == selected;
    ResidualAfterSteps(t, atoms, solve, stop, selected, |selected|);
    Norm2NotNegative(Left(t, atoms, solve, selected));
    RootAbove(Norm2(recon), root, stop);
    CosineFacts(t, recon, root, zero);
  }

  lemma RootAbove(x: real, root: real, stop: real)
    requires root >= 0.0 && root * root == x && stop >= 0.0 && x > Times(stop, stop)
    ensures root > stop
  {
    if root <= stop {
      NotAbove(root, stop);
    }
  }

  lemma CosineFacts(t: Vector, recon: Vector, root: real, zero: real)
    requires |t| == |recon| && root > zero >= 0.0 && Dot(recon, t) == Norm2(recon) == root * root
    requires Norm2(recon) <= 1.0
    ensures Cosine(t, recon, root, zero) == root && ExplainedVariance(root) == Norm2(recon)
  {
    hide Dot;
    Quotient(Dot(recon, t), root);
    Product(root, root);
    assert Times(root, root) == root * root;
  }

  lemma NotAbove(x: real, y: real)
    requires 0.0 <= x <= y
    ensures x * x <= y * y == Times(y, y)
  {
    assert x * x <= x * y <= y * y;
  }
}
