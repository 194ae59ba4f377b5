/** The open-files arithmetic that mainLoop does before it builds the worker pool. */
module OpenFiles {

  const OPEN_FILES_BASE := 50
  const OPEN_FILES_PER_WORKER := 5
  const OPEN_FILES_EXTRA := 1.2

  /** Go's conversion of a float to int: truncation toward zero. */
  function Trunc(x: real): int {
    if x >= 0.0 then x.Floor else -((-x).Floor)
  }

  /** Descriptors that `n` workers are expected to need. */
  function Needed(n: int): real {
    (n * OPEN_FILES_PER_WORKER + OPEN_FILES_BASE) as real * OPEN_FILES_EXTRA
  }

  function MaxPossibleWorker(maxOpenFiles: nat): int {
    Trunc((maxOpenFiles as real / OPEN_FILES_EXTRA - OPEN_FILES_BASE as real) / OPEN_FILES_PER_WORKER as real)
  }

  /** Go's conversion of a float to uint64. The language leaves the result for
      a negative float to the platform: `wrapped` stands for whatever it is. */
  function ToUint64(x: real, wrapped: nat): nat {
    if x < 0.0 then wrapped else x.Floor
  }

  /** Both quantities are linear: 1.2 * (5n + 50) is 6n + 60. */
  lemma Linear(n: int, maxOpenFiles: nat)
    ensures Needed(n) == (6 * n + 60) as real
    ensures maxOpenFiles >= 60 ==> MaxPossibleWorker(maxOpenFiles) == (maxOpenFiles - 60) / 6
    ensures maxOpenFiles < 60 ==> MaxPossibleWorker(maxOpenFiles) == -((60 - maxOpenFiles) / 6)
  {
    var x := (maxOpenFiles as real / OPEN_FILES_EXTRA - OPEN_FILES_BASE as real) / OPEN_FILES_PER_WORKER as real;
    assert x * 6.0 == (maxOpenFiles - 60) as real;
    if maxOpenFiles >= 60 {
      FloorOfSixth(x, maxOpenFiles - 60);
    } else {
      FloorOfSixth(-x, 60 - maxOpenFiles);
    }
  }

  lemma FloorOfSixth(x: real, m: nat)
    requires x * 6.0 == m as real
    ensures x >= 0.0 && x.Floor == m / 6
  {
    var q := m / 6;
    assert 6 * q <= m < 6 * q + 6;
    assert (6 * q) as real <= x * 6.0 < (6 * q + 6) as real;
    assert q as real <= x < (q + 1) as real;
  }

  /** The clamp of the configured maximum to what the descriptor limit allows. */
  method ClampMaxWorker(maxWorker: int, maxOpenFiles: nat, wrapped: nat)
    returns (clamped: int, maxPossible: int)
    ensures maxPossible == MaxPossibleWorker(maxOpenFiles)
    ensures clamped <= maxPossible
    ensures clamped == maxWorker || clamped == maxPossible
    ensures maxWorker >= -10 ==>
      clamped == if 6 * maxWorker + 60 <= maxOpenFiles then maxWorker else maxPossible
    ensures maxWorker < -10 ==> clamped == if wrapped <= maxOpenFiles then maxWorker else maxPossible
    ensures 0 <= maxWorker && Needed(maxWorker) <= maxOpenFiles as real ==> clamped == maxWorker
    ensures 0 <= maxWorker ==> clamped <= maxWorker
  {
    Linear(maxWorker, maxOpenFiles);
    clamped := maxWorker;
    var expectedOpenFiles := ToUint64(Needed(maxWorker), wrapped);
    maxPossible := MaxPossibleWorker(maxOpenFiles);
    if expectedOpenFiles > maxOpenFiles {
      clamped := maxPossible;
    }
  }

  /** From 60 descriptors on, the worker limit is exact. */
  lemma LimitIsExact(n: nat, maxOpenFiles: nat)
    requires maxOpenFiles >= 60
    ensures n <= MaxPossibleWorker(maxOpenFiles) <==> Needed(n) <= maxOpenFiles as real
  {
    Linear(n, maxOpenFiles);
  }

  /** Below that the truncation toward zero still grants zero workers although
      the base alone does not fit: the limit is sound exactly outside 55..59. */
  lemma LimitIsSoundIff(maxOpenFiles: nat)
    ensures (forall n: nat :: n <= MaxPossibleWorker(maxOpenFiles) ==> Needed(n) <= maxOpenFiles as real)
            <==> !(55 <= maxOpenFiles <= 59)
  {
    forall n: nat ensures Needed(n) == (6 * n + 60) as real {
      Linear(n, maxOpenFiles);
    }
    Linear(0, maxOpenFiles);
    if 55 <= maxOpenFiles <= 59 {
      var zero: nat := 0;
      assert zero <= MaxPossibleWorker(maxOpenFiles) && !(Needed(zero) <= maxOpenFiles as real);
    }
  }
}
