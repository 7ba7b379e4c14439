/** The level-up test of the score update: a level is gained when the score passes one of the
    thresholds 10, 20, ..., 1000. */
module Levels {

  /** The i-th threshold of the source's generator `(i + 1) * 10 for i in range(100)`. */
  function Threshold(i: int): int
  {
    (i + 1) * 10
  }

  /** Some threshold e satisfies `score >= e > oldScore`. */
  ghost predicate CrossesThreshold(oldScore: int, score: int)
  {
    exists i :: 0 <= i < 100 && oldScore < Threshold(i) <= score
  }

  /** The source's loop over the thresholds, stopped by `break` at the first one crossed. */
  method NextLevel(oldScore: nat, score: nat) returns (next: bool)
    ensures next <==> CrossesThreshold(oldScore, score)
  {
    next := false;
    var i := 0;
    while i < 100
      invariant 0 <= i <= 100
      invariant !next
      invariant forall j :: 0 <= j < i ==> !(oldScore < Threshold(j) <= score)
    {
      var e := Threshold(i);
      if score >= e > oldScore {
        next := true;
        break;
      }
      i := i + 1;
    }
  }

  /** Closed form of the test: a threshold is crossed exactly when the score, capped at 1000,
      reaches a higher multiple of ten than the old score did. */
  lemma CrossesClosedForm(oldScore: nat, score: nat)
    ensures CrossesThreshold(oldScore, score) <==> (if score < 1000 then score else 1000) / 10 > oldScore / 10
  {
    var capped := if score < 1000 then score else 1000;
    if capped / 10 > oldScore / 10 {
      var i := oldScore / 10;
      assert oldScore < Threshold(i) <= score;
    }
    if CrossesThreshold(oldScore, score) {
      var i :| 0 <= i < 100 && oldScore < Threshold(i) <= score;
      assert Threshold(i) <= capped;
      assert (i + 1) * 10 / 10 == i + 1;
    }
  }

  /** Going from 9 to 10 lines gains a level; going from 10 to 19 does not. */
  lemma FirstThreshold()
    ensures CrossesThreshold(9, 10)
    ensures !CrossesThreshold(10, 19)
  {
    assert 9 < Threshold(0) <= 10;
    CrossesClosedForm(10, 19);
  }

  /** No threshold lies beyond 1000: past it the level never rises again. */
  lemma NoThresholdPastThousand(oldScore: nat, score: nat)
    requires oldScore >= 1000
    ensures !CrossesThreshold(oldScore, score)
  {
    CrossesClosedForm(oldScore, score);
  }
}
