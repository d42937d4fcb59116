/** The covariance prediction of the error-state Kalman filter: eskf_compute_error of src/lib/utils/math_utils.c. */
module Eskf {
  import opened Matrices
  import opened MatrixKernels

  const N := 6
  const VARIANCE := 0.000001                   // std_rn_w and std_rw_w are 0.001

  /** F: the transposed rotation, -dt, 0 and 1 on its four blocks. */
  function Transition(rot: Mat, dt: real): Mat {
    (i: nat, j: nat) =>
      if i < 3 then (if j < 3 then rot(j, i) else if j == i + 3 then -dt else 0.0)
      else if j == i then 1.0 else 0.0
  }

  function NoiseAt(dt: real): Vec { (i: nat) => if i < 3 then VARIANCE * (dt * dt) else VARIANCE * dt }

  /** Q */
  function Noise(dt: real): Mat { Diagonal(NoiseAt(dt)) }

  /** What one prediction makes of P. */
  function Predicted(P: Mat, rot: Mat, dt: real): Mat {
    Add(Congruence(Transition(rot, dt), P, N), Noise(dt))
  }

  /** The process noise is a covariance exactly for a time step that is not negative. */
  lemma NoiseCovarianceIff(dt: real)
    ensures Covariance(Noise(dt), N) <==> dt >= 0.0
  {
    DiagonalCovarianceIff(NoiseAt(dt), N);
    SquareScaled(VARIANCE, dt);
    NoiseSigns(dt, VARIANCE * (dt * dt));
  }

  lemma NoiseSigns(dt: real, square: real)
    requires square == VARIANCE * (dt * dt) && square >= 0.0
    ensures (forall i: nat | i < N :: NoiseAt(dt)(i) >= 0.0) <==> dt >= 0.0
  {
    assert forall i: nat :: NoiseAt(dt)(i) == if i < 3 then square else VARIANCE * dt;
    assert NoiseAt(dt)(3) == VARIANCE * dt;
  }

  /** One prediction keeps the covariance symmetric and positive semidefinite, whatever the rotation. */
  lemma PredictionStep(P: Mat, rot: Mat, dt: real)
    requires Covariance(P, N) && dt >= 0.0
    ensures Covariance(Predicted(P, rot, dt), N)
  {
    NoiseCovarianceIff(dt);
    PredictionKeepsCovariance(Transition(rot, dt), P, Noise(dt), N, N);
  }

  datatype Step = Step(rot: Mat, dt: real)

  ghost function Run(P: Mat, steps: seq<Step>): Mat {
    if steps == [] then P
    else Predicted(Run(P, steps[..|steps| - 1]), steps[|steps| - 1].rot, steps[|steps| - 1].dt)
  }

  /** Over every run of predictions, from the identity the filter starts with. */
  lemma {:induction false} AlwaysCovariance(steps: seq<Step>)
    requires forall s | s in steps :: s.dt >= 0.0
    ensures Covariance(Run(Diagonal((i: nat) => 1.0), steps), N)
  {
    if steps == [] {
      DiagonalCovarianceIff((i: nat) => 1.0, N);
    } else {
      var last := steps[|steps| - 1];
      AlwaysCovariance(steps[..|steps| - 1]);
      assert last in steps;
      PredictionStep(Run(Diagonal((i: nat) => 1.0), steps[..|steps| - 1]), last.rot, last.dt);
    }
  }

  // ---------------------------------------------------------------- the code

  /** A multiple of the identity. */
  function Scalar(val: real): Mat { Diagonal((i: nat) => val) }

  /** A 3 by 3 multiple of the identity, put in a matrix of six. */
  method PutDiagonal(val: real, res: array<real>, p: nat, q: nat)
    requires res.Length == N * N && p + 3 <= N && q + 3 <= N
    modifies res
    ensures Shows(res[..], N, N, Block(old(View(res[..], N)), Scalar(val), 3, p, q, 3))
  {
    var temp := new real[9];
    ghost var before := View(res[..], N);
    MatSetDiag(temp, val, 3);
    CopiedShows(res[..], temp[..], 3, N, p, q);
    MatCopy(temp, res, 3, 3, N, p, q);
    ShowsSame(res[..], N, N, Block(before, View(temp[..], 3), 3, p, q, 3),
              Block(before, Scalar(val), 3, p, q, 3));
  }

  /** The four blocks of F. */
  lemma TransitionIs(f0: Mat, T: Mat, f1: Mat, f2: Mat, f3: Mat, rot: Mat, dt: real)
    requires Same(T, Transpose(rot), 3, 3) && Same(f1, Block(f0, T, 3, 0, 0, 3), N, N)
    requires Same(f2, Block(f1, Scalar(-1.0 * dt), 3, 0, 3, 3), N, N)
    requires Same(f3, Block(f2, Scalar(0.0), 3, 3, 0, 3), N, N)
    ensures Same(Block(f3, Scalar(1.0), 3, 3, 3, 3), Transition(rot, dt), N, N)
  {
  }

  /** The construction of F from the rotation matrix `rwb`. */
  method BuildTransition(rwb: array<real>, dt: real) returns (F: array<real>)
    requires rwb.Length == 9
    ensures fresh(F) && Shows(F[..], N, N, Transition(View(rwb[..], 3), dt))
  {
    F := new real[N * N];
    var temp := new real[9];
    ghost var rot := View(rwb[..], 3);
    ghost var before := View(F[..], N);
    MatTranspose(rwb, temp, 3, 3);
    CopiedShows(F[..], temp[..], 3, N, 0, 0);
    MatCopy(temp, F, 3, 3, N, 0, 0);
    ghost var f1 := View(F[..], N);
    PutDiagonal(-1.0 * dt, F, 0, 3);
    ghost var f2 := View(F[..], N);
    PutDiagonal(0.0, F, 3, 0);
    ghost var f3 := View(F[..], N);
    PutDiagonal(1.0, F, 3, 3);
    TransitionIs(before, View(temp[..], 3), f1, f2, f3, rot, dt);
    ShowsSame(F[..], N, N, Block(f3, Scalar(1.0), 3, 3, 3, 3), Transition(rot, dt));
  }

  /** The blocks of Q in the order of the double loop. */
  method BuildNoise(dt: real, Q: array<real>)
    requires Q.Length == N * N
    modifies Q
    ensures Shows(Q[..], N, N, Noise(dt))
  {
    PutDiagonal(VARIANCE * (dt * dt), Q, 0, 0);
    ghost var q1 := View(Q[..], N);
    PutDiagonal(0.0, Q, 0, 3);
    ghost var q2 := View(Q[..], N);
    PutDiagonal(0.0, Q, 3, 0);
    ghost var q3 := View(Q[..], N);
    PutDiagonal(VARIANCE * dt, Q, 3, 3);
    ShowsSame(Q[..], N, N, Block(q3, Scalar(VARIANCE * dt), 3, 3, 3, 3), Noise(dt));
  }

  /** The products agree entry by entry when their factors do. */
  lemma MulSame(A: Mat, A': Mat, B: Mat, B': Mat, n: nat, m: nat, k: nat)
    requires Same(A, A', n, m) && Same(B, B', m, k)
    ensures Same(Mul(A, m, B), Mul(A', m, B'), n, k)
  {
    forall i: nat, j: nat | i < n && j < k ensures Mul(A, m, B)(i, j) == Mul(A', m, B')(i, j) {
      DotSame(m, Row(A, i), Col(B, j), Row(A', i), Col(B', j));
    }
  }

  /** F P F^T by the kernels */
  method Propagate(F: array<real>, P: array<real>) returns (FPFt: array<real>)
    requires F.Length == N * N && P.Length == N * N
    ensures fresh(FPFt) && Shows(FPFt[..], N, N, Congruence(View(F[..], N), View(P[..], N), N))
  {
    var Ft := new real[N * N];
    MatTranspose(F, Ft, N, N);
    var FP := new real[N * N];
    MatMatMult(F, P, FP, N, N, N);
    FPFt := new real[N * N];
    MatMatMult(FP, Ft, FPFt, N, N, N);
    MulSame(View(FP[..], N), Mul(View(F[..], N), N, View(P[..], N)),
            View(Ft[..], N), Transpose(View(F[..], N)), N, N, N);
  }

  lemma CongruenceSame(F: Mat, F': Mat, P: Mat)
    requires Same(F, F', N, N)
    ensures Same(Congruence(F, P, N), Congruence(F', P, N), N, N)
  {
    MulSame(F, F', P, P, N, N, N);
    MulSame(Mul(F, N, P), Mul(F', N, P), Transpose(F), Transpose(F'), N, N, N);
  }

  /** eskf_compute_error, from the rotation matrix onwards */
  method ComputeError(rwb: array<real>, dt: real, P: array<real>, Q: array<real>)
    requires rwb.Length == 9 && P.Length == N * N && Q.Length == N * N && P != Q && rwb != P && rwb != Q
    modifies P, Q
    ensures Shows(Q[..], N, N, Noise(dt))
    ensures Shows(P[..], N, N, Predicted(old(View(P[..], N)), View(rwb[..], 3), dt))
    ensures old(Covariance(View(P[..], N), N)) && dt >= 0.0 ==> Covariance(View(P[..], N), N)
  {
    ghost var before, rot := View(P[..], N), View(rwb[..], 3);
    var F := BuildTransition(rwb, dt);
    BuildNoise(dt, Q);
    var FPFt := Propagate(F, P);
    CongruenceSame(View(F[..], N), Transition(rot, dt), before);
    MatMatSum(FPFt, Q, P, N, N);
    ShowsSame(P[..], N, N, Add(View(FPFt[..], N), View(Q[..], N)), Predicted(before, rot, dt));
    if Covariance(before, N) && dt >= 0.0 {
      PredictionStep(before, rot, dt);
      CovarianceSame(Predicted(before, rot, dt), View(P[..], N), N);
    }
  }
}
