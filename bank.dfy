/**
 * The question bank (Assets/QuizGame/Models/QuestionBank.cs): five tier
 * lists, each turned once into a shuffled queue that draws drain from the
 * front. The five `TierN` lists and the five `_qN` queue fields are held as
 * sequences indexed by tier (0 to 4). UnityEngine.Random.Range is replaced
 * by an oracle: `draws[i]` is the index Random.Range(0, i + 1) returned in
 * the shuffle iteration for position i.
 */
module Bank {
  import opened Optional

  const TierCount := 5

  /**
   * A question. `Placeholder` is the stand-in the turn engine builds when a
   * tier is exhausted; its text names the point value of the slot.
   */
  datatype Question = Question(text: string) | Placeholder(points: int)

  /** A possibly-null list's elements; a null list has none. */
  function Elements(list: Option<seq<Question>>): seq<Question> {
    if list.Some? then list.value else []
  }

  /** What Random.Range promises in the shuffle of an n-element list. */
  predicate IsOracle(draws: seq<int>, n: nat) {
    |draws| >= n && forall i :: 0 < i < n ==> 0 <= draws[i] <= i
  }

  predicate Distinct(s: seq<Question>) {
    forall i, j :: 0 <= i < j < |s| ==> s[i] != s[j]
  }

  /** No duplicates is the same as every multiplicity being at most one. */
  lemma {:induction false} DistinctIffMultiplicityOne(s: seq<Question>)
    ensures Distinct(s) <==> forall x :: multiset(s)[x] <= 1
  {
    if s == [] {
    } else {
      var t := s[1..];
      assert s == [s[0]] + t;
      DistinctIffMultiplicityOne(t);
      if Distinct(s) {
        assert Distinct(t);
        forall k | 0 <= k < |t| ensures t[k] != s[0] {
          assert t[k] == s[k + 1];
        }
        assert s[0] !in t;
        forall x ensures multiset(s)[x] <= 1 {
          assert multiset(s) == multiset([s[0]]) + multiset(t);
        }
      }
      if forall x :: multiset(s)[x] <= 1 {
        assert multiset(s) == multiset([s[0]]) + multiset(t);
        assert forall x :: multiset(t)[x] <= multiset(s)[x];
        assert multiset(t)[s[0]] == 0;
        forall i, j | 0 <= i < j < |s| ensures s[i] != s[j] {
          if i == 0 {
            assert s[j] in t;
          } else {
            assert t[i - 1] == s[i] && t[j - 1] == s[j];
          }
        }
      }
    }
  }

  /** A permutation of a list without duplicates has none either. */
  lemma PermutationKeepsDistinct(a: seq<Question>, b: seq<Question>)
    requires multiset(a) == multiset(b) && Distinct(a)
    ensures Distinct(b)
  {
    DistinctIffMultiplicityOne(a);
    DistinctIffMultiplicityOne(b);
  }

  /**
   * Non-repetition: when a tier holds no duplicates, the questions drawn
   * from its shuffled queue (a prefix of the shuffle) hold none either, and
   * each of them belongs to the tier.
   */
  lemma DrawsNeverRepeat(tier: seq<Question>, loaded: seq<Question>, taken: seq<Question>, rest: seq<Question>)
    requires multiset(loaded) == multiset(tier) && loaded == taken + rest
    requires Distinct(tier)
    ensures Distinct(taken)
    ensures forall q :: q in taken ==> q in tier
  {
    PermutationKeepsDistinct(tier, loaded);
    forall i, j | 0 <= i < j < |taken| ensures taken[i] != taken[j] {
      assert taken[i] == loaded[i] && taken[j] == loaded[j];
    }
    forall q | q in taken ensures q in tier {
      assert q in multiset(loaded);
    }
  }

  /**
   * Once as many questions have been drawn as the tier holds, the queue
   * behind them is empty.
   */
  lemma ExhaustedAfterTierSize(tier: seq<Question>, loaded: seq<Question>, taken: seq<Question>, rest: seq<Question>)
    requires multiset(loaded) == multiset(tier) && loaded == taken + rest
    requires |taken| == |tier|
    ensures rest == []
  {
    assert |loaded| == |multiset(loaded)| == |multiset(tier)| == |tier|;
  }

  /**
   * Fisher–Yates over a copy of the list, walking i from the last index down
   * to 1 and swapping position i with the drawn j in [0, i].
   */
  method Shuffle(list: Option<seq<Question>>, draws: seq<int>) returns (r: seq<Question>)
    requires IsOracle(draws, |Elements(list)|)
    ensures list.None? ==> r == []
    ensures |r| == |Elements(list)|
    ensures multiset(r) == multiset(Elements(list))
  {
    if list.None? {
      return [];
    }
    var src := list.value;
    var arr := new Question[|src|](k requires 0 <= k < |src| => src[k]);
    assert arr[..] == src;
    var i := arr.Length - 1;
    while i > 0
      invariant -1 <= i < arr.Length
      invariant multiset(arr[..]) == multiset(src)
    {
      var j := draws[i];
      arr[i], arr[j] := arr[j], arr[i];
      i := i - 1;
    }
    r := arr[..];
  }

  /** Dequeue that answers None for a null or empty queue instead of throwing. */
  function DequeueSafe(q: Option<seq<Question>>): (res: (Option<Question>, Option<seq<Question>>))
    ensures res.0.None? <==> q.None? || q.value == []
    ensures res.0.None? ==> res.1 == q
    ensures res.0.Some? ==> res.1.Some? && q == Some([res.0.value] + res.1.value)
  {
    if q.Some? && |q.value| > 0 then
      assert q.value == [q.value[0]] + q.value[1..];
      (Some(q.value[0]), Some(q.value[1..]))
    else
      (None, q)
  }

  /** What a draw for `level` returns from the queues `queues`. */
  function FrontOf(queues: seq<Option<seq<Question>>>, level: int): Option<Question>
    requires |queues| == TierCount
  {
    if 0 <= level < TierCount then DequeueSafe(queues[level]).0 else None
  }

  /** The queues after a draw for `level`. */
  function AfterDraw(queues: seq<Option<seq<Question>>>, level: int): seq<Option<seq<Question>>>
    requires |queues| == TierCount
  {
    if 0 <= level < TierCount then queues[level := DequeueSafe(queues[level]).1] else queues
  }

  class QuestionBank {
    const tiers: seq<Option<seq<Question>>>
    var queues: seq<Option<seq<Question>>>
    var initialized: bool
    /** For each tier, the shuffled sequence its queue was built from. */
    ghost var loaded: seq<seq<Question>>
    /** For each tier, the questions drawn so far, in draw order. */
    ghost var taken: seq<seq<Question>>

    /**
     * Five tiers, five queues; a built queue is what is left of its shuffle
     * after the draws so far, and each shuffle is a permutation of its tier.
     */
    ghost predicate Valid()
      reads this`queues, this`loaded, this`taken
    {
      Consistent() && Permuted()
    }

    /** A built queue is what is left of its shuffle after the draws so far; an unbuilt one has had no draws. */
    ghost predicate Consistent()
      reads this`queues, this`loaded, this`taken
    {
      |tiers| == TierCount && |queues| == TierCount &&
      |loaded| == TierCount && |taken| == TierCount &&
      forall k :: 0 <= k < TierCount ==>
        (queues[k].None? ==> taken[k] == []) &&
        (queues[k].Some? ==> loaded[k] == taken[k] + queues[k].value)
    }

    /** The shuffle behind every built queue is a permutation of its tier. */
    ghost predicate Permuted()
      reads this`queues, this`loaded, this`taken
      requires Consistent()
    {
      forall k :: 0 <= k < TierCount && queues[k].Some? ==>
        multiset(loaded[k]) == multiset(Elements(tiers[k]))
    }

    /** A bank as loaded from its asset: the tier lists set, no queue built. */
    constructor (tiers: seq<Option<seq<Question>>>)
      requires |tiers| == TierCount
      ensures Valid() && this.tiers == tiers && !initialized
      ensures queues == [None, None, None, None, None]
    {
      this.tiers := tiers;
      queues := [None, None, None, None, None];
      initialized := false;
      loaded := [[], [], [], [], []];
      taken := [[], [], [], [], []];
    }

    /**
     * Builds every queue from a fresh shuffle of its tier unless the
     * `initialized` flag is set. The flag itself is left to the caller.
     */
    method InitIfNeeded(draws: seq<seq<int>>)
      requires Valid()
      requires |draws| == TierCount
      requires forall k :: 0 <= k < TierCount ==> IsOracle(draws[k], |Elements(tiers[k])|)
      modifies this`queues, this`loaded, this`taken
      ensures Valid()
      ensures old(initialized) ==> queues == old(queues) && taken == old(taken) && loaded == old(loaded)
      ensures !old(initialized) ==> forall k :: 0 <= k < TierCount ==> queues[k].Some? && taken[k] == []
      ensures !old(initialized) ==> forall k :: 0 <= k < TierCount ==>
        multiset(queues[k].value) == multiset(Elements(tiers[k]))
    {
      if initialized {
        return;
      }
      LoadTier(0, draws[0]);
      LoadTier(1, draws[1]);
      LoadTier(2, draws[2]);
      LoadTier(3, draws[3]);
      LoadTier(4, draws[4]);
    }

    /** `_qk = new Queue<Question>(Shuffle(Tierk))` for one tier k. */
    method LoadTier(k: int, draws: seq<int>)
      requires Valid() && 0 <= k < TierCount
      requires IsOracle(draws, |Elements(tiers[k])|)
      modifies this`queues, this`loaded, this`taken
      ensures Valid()
      ensures queues == old(queues)[k := queues[k]] && taken == old(taken)[k := []]
      ensures queues[k].Some?
    {
      var shuffled := Shuffle(tiers[k], draws);
      queues := queues[k := Some(shuffled)];
      loaded := loaded[k := shuffled];
      taken := taken[k := []];
    }

    /**
     * Draws the next question of tier `levels` (slot index 0 to 4). Any other
     * level, or a tier without a queue or with an empty one, gives None.
     */
    method NextForPoints(levels: int) returns (r: Option<Question>)
      requires Consistent()
      modifies this`queues, this`taken
      ensures Consistent()
      ensures old(Permuted()) ==> Permuted()
      ensures r == FrontOf(old(queues), levels) && queues == AfterDraw(old(queues), levels)
      ensures !(0 <= levels < TierCount) ==> queues == old(queues) && taken == old(taken)
      ensures 0 <= levels < TierCount ==>
        (forall k :: 0 <= k < TierCount && k != levels ==> queues[k] == old(queues[k]) && taken[k] == old(taken[k]))
      ensures 0 <= levels < TierCount && r.None? ==> queues == old(queues) && taken == old(taken)
      ensures 0 <= levels < TierCount && r.Some? ==>
        taken[levels] == old(taken[levels]) + [r.value] &&
        r.value == loaded[levels][|old(taken[levels])|] &&
        |queues[levels].value| == |old(queues[levels].value)| - 1
    {
      if !(0 <= levels < TierCount) {
        return None;
      }
      var res := DequeueSafe(queues[levels]);
      r := res.0;
      if r.Some? {
        queues := queues[levels := res.1];
        taken := taken[levels := taken[levels] + [r.value]];
      }
    }
  }
}
