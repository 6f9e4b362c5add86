/**
 * The rejection samplers of src/vec3/point.rs. The source redraws until
 * the candidate falls inside the unit ball (or disk); here the draws of
 * `random::<f64>()` are a finite input sequence, consumed three (or two)
 * at a time, and running out of draws yields `None`.
 */
module Points {
  import opened Vectors
  import opened Options

  /** The candidate of `random_in_unit_sphere`: `random_in_range(-1, 1)` on three draws. */
  function BallCandidate(d0: real, d1: real, d2: real): Vec3
  {
    RandomInRange(d0, d1, d2, -1.0, 1.0)
  }

  /** The candidate of `random_in_unit_disk`: two draws mapped to [-1,1), and z = 0. */
  function DiskCandidate(d0: real, d1: real): (p: Vec3)
    ensures p.z == 0.0
    ensures 0.0 <= d0 < 1.0 && 0.0 <= d1 < 1.0 ==> -1.0 <= p.x < 1.0 && -1.0 <= p.y < 1.0
  {
    Vec3(LinearMap(d0, -1.0, 1.0), LinearMap(d1, -1.0, 1.0), 0.0)
  }

  /** The k-th candidate of the ball sampler, made from draws 3k, 3k+1 and 3k+2. */
  function BallCandidateAt(draws: seq<real>, k: nat): Vec3
    requires 3 * k + 3 <= |draws|
  {
    BallCandidate(draws[3 * k], draws[3 * k + 1], draws[3 * k + 2])
  }

  /** The point the ball sampler returns: the first candidate strictly inside the unit ball. */
  function FirstInBall(draws: seq<real>): (p: Option<Vec3>)
    ensures p.Some? ==> LengthSquared(p.value) < 1.0
    decreases |draws|
  {
    if |draws| < 3 then None
    else
      var candidate := BallCandidate(draws[0], draws[1], draws[2]);
      if LengthSquared(candidate) >= 1.0 then FirstInBall(draws[3..]) else Some(candidate)
  }

  /** The point the disk sampler returns: the first candidate strictly inside the unit disk. */
  function FirstInDisk(draws: seq<real>): (p: Option<Vec3>)
    ensures p.Some? ==> p.value.z == 0.0 && LengthSquared(p.value) < 1.0
    decreases |draws|
  {
    if |draws| < 2 then None
    else
      var candidate := DiskCandidate(draws[0], draws[1]);
      if LengthSquared(candidate) >= 1.0 then FirstInDisk(draws[2..]) else Some(candidate)
  }

  /** `random_in_unit_sphere`: redraw until the candidate is inside the unit ball. */
  method RandomInUnitSphere(draws: seq<real>) returns (p: Option<Vec3>)
    ensures p == FirstInBall(draws)
    ensures p.Some? ==> LengthSquared(p.value) < 1.0
  {
    p := None;
    var i := 0;
    while i + 3 <= |draws|
      invariant 0 <= i <= |draws|
      invariant FirstInBall(draws[i..]) == FirstInBall(draws)
      decreases |draws| - i
    {
      var candidate := BallCandidate(draws[i], draws[i + 1], draws[i + 2]);
      if LengthSquared(candidate) < 1.0 {
        p := Some(candidate);
        return;
      }
      assert draws[i..][3..] == draws[i + 3..];
      i := i + 3;
    }
  }

  /** `random_in_unit_disk`: redraw until the candidate is inside the unit disk. */
  method RandomInUnitDisk(draws: seq<real>) returns (p: Option<Vec3>)
    ensures p == FirstInDisk(draws)
    ensures p.Some? ==> p.value.z == 0.0 && LengthSquared(p.value) < 1.0
  {
    p := None;
    var i := 0;
    while i + 2 <= |draws|
      invariant 0 <= i <= |draws|
      invariant FirstInDisk(draws[i..]) == FirstInDisk(draws)
      decreases |draws| - i
    {
      var candidate := DiskCandidate(draws[i], draws[i + 1]);
      if LengthSquared(candidate) < 1.0 {
        p := Some(candidate);
        return;
      }
      assert draws[i..][2..] == draws[i + 2..];
      i := i + 2;
    }
  }

  /** `random_unit_vector`: the ball sample, normalised. */
  method RandomUnitVector(draws: seq<real>, sqrt: real -> real) returns (u: Option<Vec3>)
    ensures u.None? <==> FirstInBall(draws).None?
    ensures u.Some? ==> u.value == Normalize(FirstInBall(draws).value, sqrt)
    ensures IsSqrt(sqrt) && u.Some? && FirstInBall(draws).value != Zero() ==> LengthSquared(u.value) == 1.0
  {
    var p := RandomInUnitSphere(draws);
    if p.Some? {
      NormalizeIsUnitUnlessZero(p.value, sqrt);
      u := Some(Normalize(p.value, sqrt));
    } else {
      u := None;
    }
  }

  lemma NormalizeIsUnitUnlessZero(v: Vec3, sqrt: real -> real)
    ensures IsSqrt(sqrt) && v != Zero() ==> LengthSquared(Normalize(v, sqrt)) == 1.0
  {
    if IsSqrt(sqrt) && v != Zero() {
      NormalizeIsUnit(v, sqrt);
    }
  }

  /**
   * The ball sampler fails only when every candidate it could form lies
   * outside the open unit ball, and otherwise returns the first one inside.
   */
  lemma {:induction false} BallSamplerRejectsOnlyOutside(draws: seq<real>)
    ensures FirstInBall(draws).None? <==>
      forall k: nat | 3 * k + 3 <= |draws| :: LengthSquared(BallCandidateAt(draws, k)) >= 1.0
    ensures FirstInBall(draws).Some? ==>
      exists k: nat :: 3 * k + 3 <= |draws| && FirstInBall(draws).value == BallCandidateAt(draws, k) &&
        forall j: nat | j < k :: LengthSquared(BallCandidateAt(draws, j)) >= 1.0
    decreases |draws|
  {
    if |draws| >= 3 {
      var rest := draws[3..];
      BallSamplerRejectsOnlyOutside(rest);
      forall k: nat | 3 * k + 3 <= |rest|
        ensures BallCandidateAt(rest, k) == BallCandidateAt(draws, k + 1)
      {
      }
      if LengthSquared(BallCandidateAt(draws, 0)) >= 1.0 {
        if FirstInBall(draws).None? {
          forall k: nat | 3 * k + 3 <= |draws|
            ensures LengthSquared(BallCandidateAt(draws, k)) >= 1.0
          {
            if k > 0 {
              assert BallCandidateAt(rest, k - 1) == BallCandidateAt(draws, k);
            }
          }
        } else {
          var k: nat :| 3 * k + 3 <= |rest| && FirstInBall(rest).value == BallCandidateAt(rest, k) &&
            forall j: nat | j < k :: LengthSquared(BallCandidateAt(rest, j)) >= 1.0;
          forall j: nat | j < k + 1
            ensures LengthSquared(BallCandidateAt(draws, j)) >= 1.0
          {
            if j > 0 {
              assert BallCandidateAt(rest, j - 1) == BallCandidateAt(draws, j);
            }
          }
          assert FirstInBall(draws).value == BallCandidateAt(draws, k + 1);
        }
      } else {
        assert FirstInBall(draws).value == BallCandidateAt(draws, 0);
      }
    }
  }

  /**
   * With draws in [0,1), the disk sampler's point lies in the open unit disk
   * and also in the square [-1,1)^2 its candidates are drawn from.
   */
  lemma {:induction false} FirstInDiskInSquare(draws: seq<real>)
    requires forall i | 0 <= i < |draws| :: 0.0 <= draws[i] < 1.0
    ensures var p := FirstInDisk(draws);
      p.Some? ==> -1.0 <= p.value.x < 1.0 && -1.0 <= p.value.y < 1.0
    decreases |draws|
  {
    if 2 <= |draws| {
      var candidate := DiskCandidate(draws[0], draws[1]);
      assert 0.0 <= draws[0] < 1.0 && 0.0 <= draws[1] < 1.0;
      if LengthSquared(candidate) >= 1.0 {
        FirstInDiskInSquare(draws[2..]);
      }
    }
  }
}
