/**
 * A contestant record (Assets/QuizGame/Models/Student.cs). The turn engine
 * updates these records in place, so a contestant is an object; its
 * field values at one moment form a `StudentState`.
 */
module Students {

  datatype StudentState = StudentState(name: string, score: int, chooseStarMode: bool, starCount: int)

  /** A record after `AddScore(pts)`: the score moves by the signed `pts`, nothing else moves. */
  function Added(s: StudentState, pts: int): (r: StudentState)
    ensures r.score - s.score == pts
    ensures r.name == s.name && r.chooseStarMode == s.chooseStarMode && r.starCount == s.starCount
  {
    s.(score := s.score + pts)
  }

  /** Adding a then b is adding a + b. */
  lemma AddedTwice(s: StudentState, a: int, b: int)
    ensures Added(Added(s, a), b) == Added(s, a + b)
  {
  }

  /** The scores of a roster, in roster order. */
  function ScoresOf(roster: seq<StudentState>): (r: seq<int>)
    ensures |r| == |roster|
    ensures forall i :: 0 <= i < |roster| ==> r[i] == roster[i].score
  {
    seq(|roster|, i requires 0 <= i < |roster| => roster[i].score)
  }

  class Student {
    var name: string
    var score: int
    var chooseStarMode: bool
    var starCount: int

    function View(): StudentState
      reads this
    {
      StudentState(name, score, chooseStarMode, starCount)
    }

    /** A new contestant: no points, star mode off, one star privilege. */
    constructor (name: string)
      ensures View() == StudentState(name, 0, false, 1)
    {
      this.name := name;
      score := 0;
      chooseStarMode := false;
      starCount := 1;
    }

    method AddScore(pts: int)
      modifies this
      ensures View() == Added(old(View()), pts)
    {
      score := score + pts;
    }
  }
}
