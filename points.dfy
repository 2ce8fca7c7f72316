/**
 * The points table: one point value per question slot of a turn
 * (Assets/QuizGame/Models/PointConfig.cs). The table is configured once
 * and never mutated, so it is a value.
 */
module Points {
  import opened Optional

  /** `points` is the configured array; `None` stands for a null array. */
  datatype PointsConfig = PointsConfig(points: Option<seq<int>>) {

    /** Number of slots per turn: the array length, 0 for a missing array. */
    function Count(): (n: nat)
      ensures points.None? ==> n == 0
      ensures points.Some? ==> n == |points.value|
    {
      if points.Some? then |points.value| else 0
    }

    /** Point value of slot `questionIndex`; only defined on the slots that exist. */
    function Get(questionIndex: int): (p: int)
      requires 0 <= questionIndex < Count()
      ensures p in points.value
    {
      points.value[questionIndex]
    }
  }

  predicate StrictlyIncreasing(s: seq<int>) {
    forall i, j :: 0 <= i < j < |s| ==> s[i] < s[j]
  }

  /** The table a fresh configuration asset carries. */
  function DefaultTable(): (t: PointsConfig)
    ensures t.Count() == 5
    ensures StrictlyIncreasing(t.points.value)
    ensures forall i :: 0 <= i < t.Count() ==> t.Get(i) > 0
  {
    PointsConfig(Some([5, 10, 15, 20, 25]))
  }

  /** Slot i of the default table is worth 5 * (i + 1) points. */
  lemma DefaultTableValues(i: int)
    requires 0 <= i < 5
    ensures DefaultTable().Get(i) == 5 * (i + 1)
  {
  }
}
