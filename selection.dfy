/** calculate_weight and the weighted draw `random.choices(words_list,
    weights=weights, k=1)` that next_card makes. The draw is modelled on
    exact reals: `random()` becomes a parameter `u` with 0 <= u < 1, and
    the pick is the first index whose cumulative weight exceeds
    `u * total`, searched over indices 0 .. n - 1 as `bisect` is. */
module Selection {
  import opened Vocabulary

  /** calculate_weight: the smoothed ratio (1 + wrong) / (1 + right). */
  function Weight(c: Counts): (w: real)
    ensures w > 0.0
  {
    (1 + c.wrong) as real / (1 + c.right) as real
  }

  /** A word never answered weighs 1. */
  lemma UnansweredWeighsOne()
    ensures Weight(NoAnswers) == 1.0
  {
  }

  /** More wrong answers, with the right answers fixed, weigh more. */
  lemma WeightRisesWithWrong(right: nat, wrong: nat, wrong': nat)
    requires wrong < wrong'
    ensures Weight(Counts(right, wrong)) < Weight(Counts(right, wrong'))
  {
    var d := (1 + right) as real;
    var lo, hi := Weight(Counts(right, wrong)), Weight(Counts(right, wrong'));
    assert lo * d == (1 + wrong) as real;
    assert hi * d == (1 + wrong') as real;
    assert lo * d < hi * d;
  }

  /** More right answers, with the wrong answers fixed, weigh less. */
  lemma WeightFallsWithRight(right: nat, right': nat, wrong: nat)
    requires right < right'
    ensures Weight(Counts(right', wrong)) < Weight(Counts(right, wrong))
  {
    var d, d' := (1 + right) as real, (1 + right') as real;
    var hi, lo := Weight(Counts(right, wrong)), Weight(Counts(right', wrong));
    assert hi * d == (1 + wrong) as real;
    assert lo * d' == (1 + wrong) as real;
    assert lo * d < lo * d';
    assert lo * d < hi * d;
  }

  /** The sum of a sequence of weights; Sum(ws[..i + 1]) is the
      cumulative weight `cum_weights[i]` of random.choices. */
  function Sum(ws: seq<real>): real {
    if ws == [] then 0.0 else Sum(ws[..|ws| - 1]) + ws[|ws| - 1]
  }

  predicate AllPositive(ws: seq<real>) {
    forall i :: 0 <= i < |ws| ==> ws[i] > 0.0
  }

  lemma SumExtend(ws: seq<real>, i: nat)
    requires i < |ws|
    ensures Sum(ws[..i + 1]) == Sum(ws[..i]) + ws[i]
  {
    assert ws[..i + 1][..i] == ws[..i];
  }

  /** With positive weights the cumulative weights rise strictly. */
  lemma {:induction false} PrefixSumsRise(ws: seq<real>, i: nat, j: nat)
    requires AllPositive(ws) && i < j <= |ws|
    ensures Sum(ws[..i]) < Sum(ws[..j])
  {
    SumExtend(ws, j - 1);
    if i < j - 1 {
      PrefixSumsRise(ws, i, j - 1);
    }
  }

  /** The total weight of a non-empty vocabulary is positive, so
      random.choices never finds a zero total. */
  lemma TotalPositive(ws: seq<real>)
    requires AllPositive(ws) && |ws| > 0
    ensures Sum(ws) > 0.0
  {
    PrefixSumsRise(ws, 0, |ws|);
    assert ws[..|ws|] == ws;
  }

  /** `[self.calculate_weight(word) for word in words_list]`. */
  function Weights(words: Table, order: seq<string>): (ws: seq<real>)
    requires forall k :: 0 <= k < |order| ==> order[k] in words
    ensures |ws| == |order| && AllPositive(ws)
  {
    seq(|order|, k requires 0 <= k < |order| => Weight(words[order[k]]))
  }

  /** `bisect(cum_weights, x, i, n - 1)`: the first index from `i` on
      whose cumulative weight exceeds `x`, or the last index n - 1. */
  function ChoiceFrom(ws: seq<real>, x: real, i: nat): (k: nat)
    requires i < |ws|
    ensures i <= k < |ws|
    decreases |ws| - i
  {
    if i == |ws| - 1 || x < Sum(ws[..i + 1]) then i else ChoiceFrom(ws, x, i + 1)
  }

  /** `random() * total`: the point of [0, total) that the draw `u` hits. */
  function Draw(ws: seq<real>, u: real): real {
    u * Sum(ws)
  }

  /** The index random.choices picks when `random()` returned `u`. */
  function Choose(ws: seq<real>, u: real): (k: nat)
    requires |ws| > 0
    ensures k < |ws|
  {
    ChoiceFrom(ws, Draw(ws, u), 0)
  }

  /** Searching from `i` with `x` past the cumulative weight before `i`
      stops at the one index whose weight interval holds `x`. */
  lemma {:induction false} ChoiceFromInInterval(ws: seq<real>, x: real, i: nat)
    requires AllPositive(ws) && i < |ws|
    requires Sum(ws[..i]) <= x < Sum(ws)
    ensures Sum(ws[..ChoiceFrom(ws, x, i)]) <= x < Sum(ws[..ChoiceFrom(ws, x, i) + 1])
    decreases |ws| - i
  {
    if i == |ws| - 1 {
      assert ws[..i + 1] == ws;
    } else if !(x < Sum(ws[..i + 1])) {
      ChoiceFromInInterval(ws, x, i + 1);
    }
  }

  lemma DrawInRange(ws: seq<real>, u: real)
    requires 0.0 <= u < 1.0 && Sum(ws) > 0.0
    ensures 0.0 <= Draw(ws, u) < Sum(ws)
  {
    var total, rest := Sum(ws), 1.0 - u;
    assert rest * total > 0.0;
    assert total - Draw(ws, u) == rest * total;
  }

  /** The weight intervals of two different indices do not overlap. */
  lemma IntervalsDisjoint(ws: seq<real>, x: real, c: nat, k: nat)
    requires AllPositive(ws) && c < k < |ws|
    ensures !(Sum(ws[..c]) <= x < Sum(ws[..c + 1]) && Sum(ws[..k]) <= x < Sum(ws[..k + 1]))
  {
    if c + 1 < k {
      PrefixSumsRise(ws, c + 1, k);
    }
  }

  /** A point `x` below the total is found in index `k`'s interval and
      nowhere else. */
  lemma ChoiceIff(ws: seq<real>, x: real, k: nat)
    requires AllPositive(ws) && k < |ws|
    requires 0.0 <= x < Sum(ws)
    ensures ChoiceFrom(ws, x, 0) == k <==> Sum(ws[..k]) <= x < Sum(ws[..k]) + ws[k]
  {
    assert ws[..0] == [];
    var c := ChoiceFrom(ws, x, 0);
    ChoiceFromInInterval(ws, x, 0);
    SumExtend(ws, k);
    if c < k {
      IntervalsDisjoint(ws, x, c, k);
    } else if k < c {
      IntervalsDisjoint(ws, x, k, c);
    }
  }

  /** The draw `u` picks index `k` exactly when `u * total` falls in the
      interval [Sum(ws[..k]), Sum(ws[..k]) + ws[k]), of width ws[k]: for a
      uniform `u` each word is picked with probability weight / total. */
  lemma ChooseIff(ws: seq<real>, u: real, k: nat)
    requires AllPositive(ws) && k < |ws|
    requires 0.0 <= u < 1.0
    ensures Choose(ws, u) == k <==> Sum(ws[..k]) <= Draw(ws, u) < Sum(ws[..k]) + ws[k]
  {
    TotalPositive(ws);
    DrawInRange(ws, u);
    ChoiceIff(ws, Draw(ws, u), k);
  }
}
