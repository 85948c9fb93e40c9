/**
 The threshold of selective generation (choose_threshold, decide, apply_policy and
 recommend in clozn/eval/policy.py; _clean and risk_coverage in clozn/eval/calibration.py),
 over exact reals.

 Two of the rounded numbers are computed with, and so they are rounded here: the scan
 compares with the rounded coverage of the best cut so far, and recommend compares and
 applies rounded thresholds.
 */
module SelectivePolicy {
  import opened Common

  /** A pair before cleaning: no score stands for one that is no number, no outcome for None. */
  datatype Pair = Pair(score: Option<real>, correct: Option<bool>)

  datatype Item = Item(score: real, correct: bool)

  function Clean(pairs: seq<Pair>): seq<Item> {
    if pairs == [] then []
    else
      var last := pairs[|pairs| - 1];
      Clean(pairs[..|pairs| - 1])
      + if last.correct.Some? && last.score.Some? && 0.0 <= last.score.value <= 1.0
        then [Item(last.score.value, last.correct.value)] else []
  }

  /** Scored and judged, with a score that is a probability. */
  predicate Usable(p: Pair) {
    p.correct.Some? && p.score.Some? && 0.0 <= p.score.value <= 1.0
  }

  /** The places of the usable pairs, in order. */
  function UsablePlaces(pairs: seq<Pair>): (places: seq<nat>)
    ensures forall p :: p in places <==> 0 <= p < |pairs| && Usable(pairs[p])
    ensures forall a, b :: 0 <= a < b < |places| ==> places[a] < places[b]
  {
    if pairs == [] then []
    else
      var before := UsablePlaces(pairs[..|pairs| - 1]);
      assert forall a :: 0 <= a < |before| ==> before[a] in before;
      if Usable(pairs[|pairs| - 1]) then before + [|pairs| - 1] else before
  }

  /** Cleaning keeps the usable pairs, in order, and nothing else. */
  lemma {:induction false} CleanKeeps(pairs: seq<Pair>)
    ensures |Clean(pairs)| == |UsablePlaces(pairs)|
    ensures forall k :: 0 <= k < |Clean(pairs)| ==>
      && UsablePlaces(pairs)[k] in UsablePlaces(pairs)
      && Clean(pairs)[k].score == pairs[UsablePlaces(pairs)[k]].score.value
      && Clean(pairs)[k].correct == pairs[UsablePlaces(pairs)[k]].correct.value
  {
    if pairs != [] {
      CleanKeeps(pairs[..|pairs| - 1]);
    }
  }

  // -------------------------------------------------------------- cuts by a score

  function Answered(items: seq<Item>, tau: real): seq<Item> {
    if items == [] then []
    else
      var last := items[|items| - 1];
      Answered(items[..|items| - 1], tau) + if last.score >= tau then [last] else []
  }

  function Wrong(items: seq<Item>): nat {
    if items == [] then 0
    else Wrong(items[..|items| - 1]) + if items[|items| - 1].correct then 0 else 1
  }

  function ErrorRate(items: seq<Item>): real
    requires items != []
  {
    Wrong(items) as real / |items| as real
  }

  /** The cut answers something, and errs at most so much. */
  predicate Meets(items: seq<Item>, tau: real, target: real) {
    Answered(items, tau) != [] && ErrorRate(Answered(items, tau)) <= target
  }

  /** A lower cut answers at least as much, and more if some score lies between. */
  lemma {:induction false} LowerAnswersMore(items: seq<Item>, low: real, high: real)
    requires low <= high
    ensures |Answered(items, high)| <= |Answered(items, low)|
    ensures (exists i :: 0 <= i < |items| && low <= items[i].score < high) ==>
      |Answered(items, high)| < |Answered(items, low)|
  {
    if items != [] {
      var init := items[..|items| - 1];
      LowerAnswersMore(init, low, high);
      if i :| 0 <= i < |items| && low <= items[i].score < high {
        assert i < |init| ==> init[i] == items[i];
      }
    }
  }

  /** Two cuts that no score lies between answer the same. */
  lemma {:induction false} SameAnswered(items: seq<Item>, low: real, high: real)
    requires low <= high && forall i :: 0 <= i < |items| ==> !(low <= items[i].score < high)
    ensures Answered(items, low) == Answered(items, high)
  {
    if items != [] {
      assert !(low <= items[|items| - 1].score < high);
      SameAnswered(items[..|items| - 1], low, high);
    }
  }

  lemma {:induction false} SomeAnswered(items: seq<Item>, tau: real, i: nat)
    requires i < |items| && items[i].score >= tau
    ensures Answered(items, tau) != []
  {
    if i < |items| - 1 {
      SomeAnswered(items[..|items| - 1], tau, i);
    }
  }

  lemma {:induction false} AnsweredScore(items: seq<Item>, tau: real) returns (i: nat)
    requires Answered(items, tau) != []
    ensures i < |items| && items[i].score >= tau
  {
    i := |items| - 1;
    if items[i].score < tau {
      i := AnsweredScore(items[..i], tau);
    }
  }

  // --------------------------------------------------------- the candidate cuts

  predicate Descending(xs: seq<real>) {
    forall i, j :: 0 <= i < j < |xs| ==> xs[i] > xs[j]
  }

  function Insert(x: real, xs: seq<real>): seq<real> {
    if xs == [] then [x]
    else if x > xs[0] then [x] + xs
    else if x == xs[0] then xs
    else [xs[0]] + Insert(x, xs[1..])
  }

  /** Every distinct score, from high to low. */
  function Scores(items: seq<Item>): seq<real> {
    if items == [] then [] else Insert(items[|items| - 1].score, Scores(items[..|items| - 1]))
  }

  lemma {:induction false} InsertMembers(x: real, xs: seq<real>, y: real)
    ensures y in Insert(x, xs) <==> y in xs || y == x
  {
    if xs != [] {
      var first, rest := xs[0], xs[1..];
      assert xs == [first] + rest;
      InsertMembers(x, rest, y);
      assert y in [first] + Insert(x, rest) <==> y == first || y in Insert(x, rest);
    }
  }

  lemma DescendingCons(first: real, rest: seq<real>)
    requires Descending(rest) && forall y :: y in rest ==> y < first
    ensures Descending([first] + rest)
  {
    var all := [first] + rest;
    forall i, j | 0 <= i < j < |all| ensures all[i] > all[j] {
      assert all[j] == rest[j - 1] && rest[j - 1] in rest;
    }
  }

  lemma {:induction false} InsertKeeps(x: real, xs: seq<real>)
    requires Descending(xs)
    ensures Descending(Insert(x, xs))
    ensures forall y :: y in Insert(x, xs) <==> y in xs || y == x
  {
    forall y ensures y in Insert(x, xs) <==> y in xs || y == x {
      InsertMembers(x, xs, y);
    }
    if xs != [] {
      var first, rest := xs[0], xs[1..];
      assert xs == [first] + rest;
      assert forall y :: y in rest ==> y < first;
      if x > first {
        DescendingCons(x, xs);
      } else if x < first {
        InsertKeeps(x, rest);
        DescendingCons(first, Insert(x, rest));
      }
    }
  }

  predicate HasScore(items: seq<Item>, y: real) {
    exists i :: 0 <= i < |items| && items[i].score == y
  }

  lemma HasScoreAppend(items: seq<Item>, last: Item, y: real)
    ensures HasScore(items + [last], y) <==> HasScore(items, y) || last.score == y
  {
    var all := items + [last];
    if HasScore(items, y) {
      var i :| 0 <= i < |items| && items[i].score == y;
      assert all[i].score == y;
    }
    assert all[|items|].score == last.score;
  }

  lemma {:induction false} ScoresOk(items: seq<Item>)
    ensures Descending(Scores(items))
    ensures forall y :: y in Scores(items) <==> HasScore(items, y)
  {
    hide HasScore, Insert, Descending;
    if items == [] {
      NoScores();
    } else {
      var init, last := items[..|items| - 1], items[|items| - 1];
      ScoresOk(init);
      InsertKeeps(last.score, Scores(init));
      assert items == init + [last];
      forall y ensures y in Scores(items) <==> HasScore(items, y) {
        HasScoreAppend(init, last, y);
      }
    }
  }

  lemma NoScores()
    ensures Descending([]) && forall y :: !HasScore([], y)
  {
  }

  lemma ItemHasScore(items: seq<Item>, i: nat)
    requires i < |items|
    ensures HasScore(items, items[i].score)
  {
  }

  lemma {:induction false} LastAtLeast(scores: seq<real>, tau: real, j: nat) returns (k: nat)
    requires j < |scores| && scores[j] >= tau
    ensures k < |scores| && scores[k] >= tau && forall m :: k < m < |scores| ==> scores[m] < tau
  {
    k := |scores| - 1;
    if scores[k] < tau {
      k := LastAtLeast(scores[..k], tau, j);
    }
  }

  lemma NoScoreBetween(items: seq<Item>, tau: real, scores: seq<real>, k: nat, i: nat)
    requires Descending(scores) && k < |scores| && i < |items| && items[i].score in scores
    requires forall m :: k < m < |scores| ==> scores[m] < tau
    ensures !(tau <= items[i].score < scores[k])
  {
    var m :| 0 <= m < |scores| && scores[m] == items[i].score;
    assert m >= k || scores[m] > scores[k];
  }

  /** Any cut that answers something answers what the cut at some score answers. */
  lemma CutAtScore(items: seq<Item>, tau: real) returns (k: nat)
    requires Answered(items, tau) != []
    ensures k < |Scores(items)| && Scores(items)[k] >= tau && Answered(items, Scores(items)[k]) == Answered(items, tau)
  {
    hide Scores, Answered, HasScore, Descending;
    ScoresOk(items);
    var scores := Scores(items);
    var i := AnsweredScore(items, tau);
    ItemHasScore(items, i);
    var j :| 0 <= j < |scores| && scores[j] == items[i].score;
    k := LastAtLeast(scores, tau, j);
    forall i | 0 <= i < |items| ensures !(tau <= items[i].score < scores[k]) {
      ItemHasScore(items, i);
      NoScoreBetween(items, tau, scores, k, i);
    }
    SameAnswered(items, tau, scores[k]);
  }

  // --------------------------------------------------------------------- the scan

  lemma ScoreAnswers(items: seq<Item>, tau: real)
    requires HasScore(items, tau)
    ensures Answered(items, tau) != []
  {
    var i :| 0 <= i < |items| && items[i].score == tau;
    SomeAnswered(items, tau, i);
  }

  /** The best cut so far, with its coverage as it is reported. */
  datatype Best = Best(cut: real, coverage: real, error: real, answered: nat)

  type Rounding = real -> real

  /** round(x, 4): a nearest multiple of a ten-thousandth. */
  ghost predicate RoundsTo4(round: Rounding) {
    forall x :: Nearest(x, round(x))
  }

  function TenThousandths(k: int): real {
    k as real / 10000.0
  }

  ghost predicate Nearest(x: real, y: real) {
    -0.00005 <= y - x <= 0.00005 && exists k :: y == TenThousandths(k)
  }

  function Coverage(n: nat, total: nat): real
    requires total > 0
  {
    n as real / total as real
  }

  function Try(items: seq<Item>, target: real, round: Rounding, best: Option<Best>, tau: real): Option<Best>
    requires items != []
  {
    var answered := Answered(items, tau);
    if answered != [] && ErrorRate(answered) <= target
       && (best.None? || Coverage(|answered|, |items|) > best.value.coverage)
    then Some(Best(tau, round(Coverage(|answered|, |items|)), ErrorRate(answered), |answered|))
    else best
  }

  function Scan(items: seq<Item>, target: real, round: Rounding, scores: seq<real>): Option<Best>
    requires items != []
  {
    if scores == [] then None
    else Try(items, target, round, Scan(items, target, round, scores[..|scores| - 1]), scores[|scores| - 1])
  }

  /** What is returned: the threshold rounded, and whether any cut meets the target. */
  datatype Choice = Choice(threshold: real, answered: nat, achievable: bool)

  /** The cut behind the returned threshold. */
  function CutOf(items: seq<Item>, target: real, round: Rounding): Option<real> {
    if items == [] then None
    else
      match Scan(items, target, round, Scores(items))
      case Some(b) => Some(b.cut)
      case None => None
  }

  function Choose(items: seq<Item>, target: real, round: Rounding): Choice {
    if items == [] then Choice(1.01, 0, false)
    else
      match Scan(items, target, round, Scores(items))
      case Some(b) => Choice(round(b.cut), b.answered, true)
      case None => Choice(round(Top(items) + 0.01), 0, false)
  }

  function Top(items: seq<Item>): (top: real)
    requires items != []
    ensures forall i :: 0 <= i < |items| ==> items[i].score <= top
  {
    ScoresOk(items);
    ItemHasScore(items, 0);
    assert forall i :: 0 <= i < |items| ==> HasScore(items, items[i].score);
    Scores(items)[0]
  }

  /** choose_threshold on the cleaned items. */
  method ChooseThreshold(items: seq<Item>, target: real, round: Rounding) returns (r: Choice)
    ensures r == Choose(items, target, round)
  {
    hide HasScore, Scores, Answered, ErrorRate, Coverage;
    if items == [] {
      return Choice(1.01, 0, false);
    }
    ScoresOk(items);
    var best: Option<Best> := None;
    var scores := Scores(items);
    for k := 0 to |scores|
      invariant best == Scan(items, target, round, scores[..k])
    {
      assert scores[..k + 1][..k] == scores[..k];
      var tau := scores[k];
      assert tau in scores;
      ScoreAnswers(items, tau);
      var answered := Answered(items, tau);
      var error := ErrorRate(answered);
      if error <= target {
        var coverage := Coverage(|answered|, |items|);
        if best.None? || coverage > best.value.coverage {
          best := Some(Best(tau, round(coverage), error, |answered|));
        }
      }
    }
    assert scores[..|scores|] == scores;
    match best {
      case Some(b) => r := Choice(round(b.cut), b.answered, true);
      case None => r := Choice(round(Top(items) + 0.01), 0, false);
    }
  }

  // ------------------------------------------------------------------ optimality

  lemma CoverageGap(n: nat, m: nat, total: nat)
    requires n < m && total > 0
    ensures Coverage(m, total) - Coverage(n, total) >= 1.0 / total as real
  {
    assert Coverage(m, total) - Coverage(n, total) == (m - n) as real / total as real;
  }

  lemma SmallTotal(total: nat)
    requires 0 < total < 20000
    ensures 1.0 / total as real > 0.00005
  {
  }

  ghost predicate Holds(items: seq<Item>, target: real, best: Option<Best>, round: Rounding)
    requires items != []
  {
    best.Some? ==>
      && Meets(items, best.value.cut, target)
      && best.value.answered == |Answered(items, best.value.cut)|
      && best.value.error == ErrorRate(Answered(items, best.value.cut))
      && best.value.coverage == round(Coverage(best.value.answered, |items|))
  }

  lemma {:induction false} ScanHolds(items: seq<Item>, target: real, round: Rounding, scores: seq<real>)
    requires items != []
    ensures Holds(items, target, Scan(items, target, round, scores), round)
    ensures Scan(items, target, round, scores).Some? ==> Scan(items, target, round, scores).value.cut in scores
  {
    if scores != [] {
      ScanHolds(items, target, round, scores[..|scores| - 1]);
    }
  }

  /** A better cut replaces the best one: below twenty thousand items no rounding hides it. */
  lemma BetterReplaces(items: seq<Item>, target: real, round: Rounding, best: Option<Best>, tau: real)
    requires 0 < |items| < 20000 && RoundsTo4(round) && Holds(items, target, best, round) && Meets(items, tau, target)
    requires best.Some? ==> best.value.answered < |Answered(items, tau)|
    ensures Try(items, target, round, best, tau).Some?
    ensures Try(items, target, round, best, tau).value.answered == |Answered(items, tau)|
  {
    if best.Some? {
      CoverageGap(best.value.answered, |Answered(items, tau)|, |items|);
      SmallTotal(|items|);
      assert Nearest(Coverage(best.value.answered, |items|), best.value.coverage);
    }
  }

  lemma {:induction false} ScanOptimal(items: seq<Item>, target: real, round: Rounding, scores: seq<real>, k: nat)
    requires 0 < |items| < 20000 && RoundsTo4(round) && Descending(scores) && k < |scores|
    requires forall y :: y in scores ==> HasScore(items, y)
    requires Meets(items, scores[k], target)
    ensures Scan(items, target, round, scores).Some?
    ensures Scan(items, target, round, scores).value.answered >= |Answered(items, scores[k])|
  {
    hide Meets, Answered, HasScore, RoundsTo4, Descending, Try, Holds;
    var init, last := scores[..|scores| - 1], scores[|scores| - 1];
    var before := Scan(items, target, round, init);
    ScanHolds(items, target, round, init);
    DescendingInit(scores);
    assert forall y :: y in init ==> y in scores;
    ScoreAnswers(items, last);
    if before.Some? {
      EarlierIsHigher(scores, before.value.cut);
      MoreAnswered(items, last, before.value.cut);
      HoldsCount(items, target, before, round);
    }
    if Meets(items, last, target) {
      BetterReplaces(items, target, round, before, last);
      if k < |init| {
        EarlierIsHigher(scores, scores[k]);
        LowerAnswersMore(items, last, scores[k]);
      }
    } else {
      ScanOptimal(items, target, round, init, k);
      KeepsBest(items, target, round, before, last);
    }
  }

  lemma DescendingInit(scores: seq<real>)
    requires Descending(scores) && scores != []
    ensures Descending(scores[..|scores| - 1])
  {
  }

  lemma EarlierIsHigher(scores: seq<real>, tau: real)
    requires Descending(scores) && scores != [] && tau in scores[..|scores| - 1]
    ensures tau > scores[|scores| - 1]
  {
  }

  lemma MoreAnswered(items: seq<Item>, low: real, high: real)
    requires low < high && HasScore(items, low)
    ensures |Answered(items, high)| < |Answered(items, low)|
  {
    LowerAnswersMore(items, low, high);
  }

  lemma HoldsCount(items: seq<Item>, target: real, best: Option<Best>, round: Rounding)
    requires items != [] && best.Some? && Holds(items, target, best, round)
    ensures best.value.answered == |Answered(items, best.value.cut)|
  {
  }

  lemma KeepsBest(items: seq<Item>, target: real, round: Rounding, best: Option<Best>, tau: real)
    requires items != [] && !Meets(items, tau, target)
    ensures Try(items, target, round, best, tau) == best
  {
  }

  /**
   Below twenty thousand items the chosen cut meets the target and answers most of all
   real cuts that do; it is reported as not achievable only if none does.
   */
  lemma ChooseIsOptimal(items: seq<Item>, target: real, round: Rounding, tau: real)
    requires |items| < 20000 && RoundsTo4(round)
    ensures var r, cut := Choose(items, target, round), CutOf(items, target, round);
      && (r.achievable <==> cut.Some?)
      && (r.achievable ==> Meets(items, cut.value, target) && r.answered == |Answered(items, cut.value)|)
      && (r.achievable ==> r.threshold == round(cut.value))
      && (Meets(items, tau, target) ==> r.achievable && r.answered >= |Answered(items, tau)|)
      && (!r.achievable ==> r.answered == 0 && Answered(items, r.threshold) == [])
  {
    if items != [] {
      ScoresOk(items);
      ScanHolds(items, target, round, Scores(items));
      if Meets(items, tau, target) {
        var k := CutAtScore(items, tau);
        ScanOptimal(items, target, round, Scores(items), k);
      }
      assert Nearest(Top(items) + 0.01, round(Top(items) + 0.01));
      NothingAbove(items, round(Top(items) + 0.01));
    }
  }

  lemma {:induction false} NothingAbove(items: seq<Item>, tau: real)
    requires forall i :: 0 <= i < |items| ==> items[i].score < tau
    ensures Answered(items, tau) == []
  {
    if items != [] {
      NothingAbove(items[..|items| - 1], tau);
    }
  }

  /** The cut is itself a score, so of the cuts that answer the same it is the highest. */
  lemma CutIsAScore(items: seq<Item>, target: real, round: Rounding)
    requires CutOf(items, target, round).Some?
    ensures CutOf(items, target, round).value in Scores(items)
  {
    ScanHolds(items, target, round, Scores(items));
  }

  lemma RoundMonotone(round: Rounding, x: real, y: real)
    requires RoundsTo4(round) && x <= y
    ensures round(x) <= round(y)
  {
    assert Nearest(x, round(x)) && Nearest(y, round(y));
    var j :| round(x) == TenThousandths(j);
    var k :| round(y) == TenThousandths(k);
    assert x < y ==> (j - k) as real < 1.0;
  }

  /** Loosening the target never raises the threshold, when the tighter one can be met. */
  lemma LooserIsLower(items: seq<Item>, tight: real, loose: real, round: Rounding)
    requires |items| < 20000 && RoundsTo4(round) && tight <= loose && Choose(items, tight, round).achievable
    ensures Choose(items, loose, round).achievable && CutOf(items, tight, round).Some?
    ensures CutOf(items, loose, round).Some? && CutOf(items, loose, round).value <= CutOf(items, tight, round).value
    ensures Choose(items, loose, round).threshold <= Choose(items, tight, round).threshold
  {
    hide RoundsTo4, Choose, CutOf, Answered, Wrong, Scores, HasScore;
    ChooseIsOptimal(items, tight, round, 0.0);
    var a := CutOf(items, tight, round).value;
    ChooseIsOptimal(items, loose, round, a);
    var b := CutOf(items, loose, round).value;
    CutIsAScore(items, tight, round);
    ScoresOk(items);
    if b > a {
      MoreAnswered(items, a, b);
    }
    RoundMonotone(round, b, a);
  }

  // ------------------------------------------------------ the threshold as reported

  /** No score lies between a cut and its rounded value, which is not above the cut. */
  ghost predicate KeepsCut(items: seq<Item>, cut: real, round: Rounding) {
    round(cut) <= cut && forall i :: 0 <= i < |items| ==> !(round(cut) <= items[i].score < cut)
  }

  /** The reported threshold answers what the chosen cut answers exactly in this case. */
  lemma ReportedThresholdExactly(items: seq<Item>, target: real, round: Rounding)
    requires CutOf(items, target, round).Some?
    ensures var r, cut := Choose(items, target, round), CutOf(items, target, round).value;
      Answered(items, r.threshold) == Answered(items, cut) <==> KeepsCut(items, cut, round)
  {
    hide Answered, Scores, HasScore;
    var cut := CutOf(items, target, round).value;
    CutIsAScore(items, target, round);
    ScoresOk(items);
    if KeepsCut(items, cut, round) {
      SameAnswered(items, round(cut), cut);
    } else if round(cut) > cut {
      MoreAnswered(items, cut, round(cut));
    } else {
      LowerAnswersMore(items, round(cut), cut);
    }
  }

  ghost predicate FourDecimals(items: seq<Item>) {
    forall i :: 0 <= i < |items| ==> exists k :: items[i].score == TenThousandths(k)
  }

  /** So it does for scores of at most four decimals, which are their own rounding. */
  lemma FourDecimalsKeepCuts(items: seq<Item>, target: real, round: Rounding)
    requires FourDecimals(items) && RoundsTo4(round) && CutOf(items, target, round).Some?
    ensures var cut := CutOf(items, target, round).value; round(cut) == cut && KeepsCut(items, cut, round)
  {
    var cut := CutOf(items, target, round).value;
    CutIsAScore(items, target, round);
    ScoresOk(items);
    var i :| 0 <= i < |items| && items[i].score == cut;
    assert Nearest(cut, round(cut));
    var j :| cut == TenThousandths(j);
    var k :| round(cut) == TenThousandths(k);
    assert -1.0 < (k - j) as real < 1.0;
  }

  // --------------------------------------------------- where rounding hides a cut

  function Sure(n: nat): seq<Item> {
    seq(n, _ => Item(1.0, true))
  }

  lemma {:induction false} SureCuts(n: nat, tau: real)
    requires tau <= 1.0
    ensures Answered(Sure(n), tau) == Sure(n) && Wrong(Sure(n)) == 0
  {
    if n > 0 {
      assert Sure(n)[..n - 1] == Sure(n - 1);
      SureCuts(n - 1, tau);
      assert Sure(n - 1) + [Item(1.0, true)] == Sure(n);
    }
  }

  lemma RoundsToOne(n: nat, round: Rounding)
    requires n > 20000 && RoundsTo4(round)
    ensures round(Coverage(n - 1, n)) == 1.0
  {
    var x := Coverage(n - 1, n);
    assert x == 1.0 - 1.0 / n as real;
    assert 1.0 / n as real < 0.00005;
    assert Nearest(x, round(x));
    var k :| round(x) == TenThousandths(k);
    assert 9999.0 < k as real < 10001.0;
  }

  /** Items with score 1 and a last one below: the cuts there are, and what they answer. */
  lemma OneBelow(front: seq<Item>, items: seq<Item>)
    requires front != [] && items == front + [Item(0.5, true)]
    requires forall i :: 0 <= i < |front| ==> front[i].score == 1.0
    ensures Scores(items) == [1.0, 0.5] && Answered(items, 1.0) == front && Answered(items, 0.5) == items
    ensures Wrong(items) == Wrong(front)
  {
    assert items[..|front|] == front;
    AllAnswered(front, 1.0);
    AllAnswered(items, 0.5);
    TwoScores(items);
  }

  /** If the first of two cuts is admitted, its coverage rounds to 1 and hides the second. */
  lemma FirstOfTwo(front: seq<Item>, items: seq<Item>, target: real, round: Rounding)
    requires |front| >= 20000 && items == front + [Item(0.5, true)] && RoundsTo4(round)
    requires forall i :: 0 <= i < |front| ==> front[i].score == 1.0
    requires ErrorRate(front) <= target
    ensures CutOf(items, target, round) == Some(1.0) && Choose(items, target, round).answered == |front|
  {
    hide Scores, Answered, Wrong;
    OneBelow(front, items);
    RoundsToOne(|items|, round);
    var first := Scan(items, target, round, [1.0]);
    TwoScans(items, target, round);
    assert first == Some(Best(1.0, 1.0, ErrorRate(front), |front|));
    assert Coverage(|items|, |items|) == 1.0;
    assert Scan(items, target, round, [1.0, 0.5]) == first;
  }

  lemma TwoScans(items: seq<Item>, target: real, round: Rounding)
    requires items != []
    ensures Scan(items, target, round, [1.0]) == Try(items, target, round, None, 1.0)
    ensures Scan(items, target, round, [1.0, 0.5])
         == Try(items, target, round, Scan(items, target, round, [1.0]), 0.5)
  {
    hide Try;
    assert [1.0, 0.5][..1] == [1.0] && [1.0][..0] == [];
    assert Scan(items, target, round, []) == None;
  }

  /**
   For every size above twenty thousand the scan fails on some set: here all answers are
   right, yet full coverage is passed over since the cut before rounds to it.
   */
  lemma RoundingHidesACut(n: nat, target: real, round: Rounding) returns (items: seq<Item>)
    requires n > 20000 && RoundsTo4(round) && target >= 0.0
    ensures |items| == n && Meets(items, 0.5, target) && |Answered(items, 0.5)| == n
    ensures Choose(items, target, round).answered == n - 1
  {
    hide Scores, Answered, Choose, Scan;
    var sure := Sure(n - 1);
    items := sure + [Item(0.5, true)];
    SureCuts(n - 1, 1.0);
    OneBelow(sure, items);
    FirstOfTwo(sure, items, target, round);
  }

  /**
   There a looser target can also raise the threshold: one that admits only one cut more,
   whose coverage hides the next.
   */
  lemma LooserCanBeHigher(n: nat, round: Rounding) returns (items: seq<Item>, tight: real, loose: real)
    requires n > 20000 && RoundsTo4(round)
    ensures |items| == n && tight <= loose && Choose(items, tight, round).achievable
    ensures CutOf(items, tight, round) == Some(0.5) && CutOf(items, loose, round) == Some(1.0)
    ensures Choose(items, loose, round).threshold > Choose(items, tight, round).threshold
  {
    hide Scores, Answered, Wrong;
    var front := [Item(1.0, false)] + Sure(n - 2);
    items := front + [Item(0.5, true)];
    OneWrongAmong(n - 2);
    OneBelow(front, items);
    tight, loose := ErrorRate(items), ErrorRate(front);
    FewerAreWorse(n);
    FirstOfTwo(front, items, loose, round);
    TwoScans(items, tight, round);
    assert Scan(items, tight, round, [1.0]) == None;
    assert Scan(items, tight, round, [1.0, 0.5]).Some?;
    assert Nearest(0.5, round(0.5)) && Nearest(1.0, round(1.0));
  }

  lemma FewerAreWorse(n: nat)
    requires n > 1
    ensures 1.0 / n as real < 1.0 / (n - 1) as real
  {
  }

  lemma OneWrongAmong(n: nat)
    ensures Wrong([Item(1.0, false)] + Sure(n)) == 1
  {
    SureCuts(n, 1.0);
    WrongConcat([Item(1.0, false)], Sure(n));
    OneMore([], Item(1.0, false), 1.0);
    assert [] + [Item(1.0, false)] == [Item(1.0, false)];
  }

  predicate OneOf(k: nat, a: nat, b: nat) {
    k == a || k == b
  }

  lemma DescendingPair(s: seq<real>, a: nat, b: nat)
    requires Descending(s) && a < |s| && b < |s| && s[a] == 1.0 && s[b] == 0.5
    requires forall k :: 0 <= k < |s| ==> s[k] == 1.0 || s[k] == 0.5
    ensures s == [1.0, 0.5]
  {
    forall k: nat | k < |s| ensures OneOf(k, a, b) {
      assert k == a || s[Min(k, a)] > s[Max(k, a)];
      assert k == b || s[Min(k, b)] > s[Max(k, b)];
    }
    assert OneOf(0, a, b) && OneOf(1, a, b) && (|s| > 2 ==> OneOf(2, a, b));
  }

  lemma TwoScores(items: seq<Item>)
    requires |items| >= 2 && items[0].score == 1.0 && items[|items| - 1].score == 0.5
    requires forall i :: 0 <= i < |items| ==> items[i].score == 1.0 || items[i].score == 0.5
    ensures Scores(items) == [1.0, 0.5]
  {
    hide Scores, Descending;
    ScoresOk(items);
    var s := Scores(items);
    ItemHasScore(items, 0);
    ItemHasScore(items, |items| - 1);
    forall k | 0 <= k < |s| ensures s[k] == 1.0 || s[k] == 0.5 {
      assert s[k] in s;
    }
    var a :| 0 <= a < |s| && s[a] == 1.0;
    var b :| 0 <= b < |s| && s[b] == 0.5;
    DescendingPair(s, a, b);
  }

  // ------------------------------------------------------- the risk-coverage curve

  /** Before the first item with a lower score: a stable sort by descending score. */
  function InsertItem(x: Item, items: seq<Item>): seq<Item> {
    if items == [] then [x]
    else if x.score > items[0].score then [x] + items
    else [items[0]] + InsertItem(x, items[1..])
  }

  function Sorted(items: seq<Item>): seq<Item> {
    if items == [] then [] else InsertItem(items[|items| - 1], Sorted(items[..|items| - 1]))
  }

  predicate FromHighToLow(items: seq<Item>) {
    forall i, j :: 0 <= i < j < |items| ==> items[i].score >= items[j].score
  }

  lemma {:induction false} InsertPlace(x: Item, items: seq<Item>) returns (k: nat)
    ensures k <= |items| && InsertItem(x, items) == items[..k] + [x] + items[k..]
    ensures forall i :: 0 <= i < k ==> items[i].score >= x.score
    ensures k < |items| ==> x.score > items[k].score
  {
    k := 0;
    if items != [] && x.score <= items[0].score {
      var j := InsertPlace(x, items[1..]);
      k := j + 1;
      assert items[..k] == [items[0]] + items[1..][..j] && items[k..] == items[1..][j..];
      assert [items[0]] + (items[1..][..j] + [x] + items[1..][j..]) == items[..k] + [x] + items[k..];
    } else {
      assert items[..0] + [x] + items[0..] == [x] + items;
    }
  }

  lemma {:induction false} AnsweredConcat(a: seq<Item>, b: seq<Item>, tau: real)
    ensures Answered(a + b, tau) == Answered(a, tau) + Answered(b, tau)
  {
    if b == [] {
      assert a + b == a;
    } else {
      assert (a + b)[..|a + b| - 1] == a + b[..|b| - 1];
      AnsweredConcat(a, b[..|b| - 1], tau);
    }
  }

  lemma {:induction false} WrongConcat(a: seq<Item>, b: seq<Item>)
    ensures Wrong(a + b) == Wrong(a) + Wrong(b)
  {
    if b == [] {
      assert a + b == a;
    } else {
      assert (a + b)[..|a + b| - 1] == a + b[..|b| - 1];
      WrongConcat(a, b[..|b| - 1]);
    }
  }

  lemma InsertCounts(x: Item, items: seq<Item>, tau: real)
    ensures |Answered(InsertItem(x, items), tau)| == |Answered(items, tau)| + |Answered([x], tau)|
    ensures Wrong(Answered(InsertItem(x, items), tau)) == Wrong(Answered(items, tau)) + Wrong(Answered([x], tau))
  {
    hide Answered, Wrong, InsertItem;
    var k := InsertPlace(x, items);
    var a, b := items[..k], items[k..];
    assert items == a + b;
    AnsweredConcat(a, b, tau);
    AnsweredConcat(a, [x], tau);
    AnsweredConcat(a + [x], b, tau);
    WrongConcat(Answered(a, tau), Answered(b, tau));
    WrongConcat(Answered(a, tau), Answered([x], tau));
    WrongConcat(Answered(a, tau) + Answered([x], tau), Answered(b, tau));
  }

  /** Sorting changes no count of a cut. */
  lemma {:induction false} SortedCounts(items: seq<Item>, tau: real)
    ensures |Answered(Sorted(items), tau)| == |Answered(items, tau)|
    ensures Wrong(Answered(Sorted(items), tau)) == Wrong(Answered(items, tau))
  {
    if items != [] {
      SortedStep(items);
      hide Answered, Wrong, InsertItem, Sorted;
      var init, last := items[..|items| - 1], items[|items| - 1];
      SortedCounts(init, tau);
      InsertCounts(last, Sorted(init), tau);
      LastCounts(items, tau);
    }
  }

  lemma SortedStep(items: seq<Item>)
    requires items != []
    ensures Sorted(items) == InsertItem(items[|items| - 1], Sorted(items[..|items| - 1]))
  {
  }

  lemma LastCounts(items: seq<Item>, tau: real)
    requires items != []
    ensures var init, last := items[..|items| - 1], items[|items| - 1];
      && |Answered(items, tau)| == |Answered(init, tau)| + |Answered([last], tau)|
      && Wrong(Answered(items, tau)) == Wrong(Answered(init, tau)) + Wrong(Answered([last], tau))
  {
    hide Answered, Wrong;
    var init, last := items[..|items| - 1], items[|items| - 1];
    assert items == init + [last];
    AnsweredConcat(init, [last], tau);
    WrongConcat(Answered(init, tau), Answered([last], tau));
  }

  lemma {:induction false} SortedOrder(items: seq<Item>)
    ensures FromHighToLow(Sorted(items)) && |Sorted(items)| == |items|
  {
    if items != [] {
      hide InsertItem;
      var init, last := items[..|items| - 1], items[|items| - 1];
      SortedOrder(init);
      var k := InsertPlace(last, Sorted(init));
    }
  }

  datatype Point = Point(threshold: real, answered: nat, wrong: nat)

  function PointAt(sorted: seq<Item>, k: nat): Point
    requires 0 < k <= |sorted|
  {
    Point(sorted[k - 1].score, k, Wrong(sorted[..k]))
  }

  method RiskCoverage(items: seq<Item>) returns (points: seq<Point>)
    ensures |points| == |items| == |Sorted(items)|
    ensures forall k :: 0 < k <= |items| ==> points[k - 1] == PointAt(Sorted(items), k)
  {
    SortedOrder(items);
    var sorted := Sorted(items);
    var wrong := 0;
    points := [];
    for k := 0 to |sorted|
      invariant |points| == k && wrong == Wrong(sorted[..k])
      invariant forall j :: 0 < j <= k ==> points[j - 1] == PointAt(sorted, j)
    {
      assert sorted[..k + 1][..k] == sorted[..k];
      if !sorted[k].correct {
        wrong := wrong + 1;
      }
      points := points + [Point(sorted[k].score, k + 1, wrong)];
    }
  }

  /** The k-th point ends a class of equal scores, so it is what a cut answers. */
  predicate EndsTie(sorted: seq<Item>, k: nat) {
    0 < k <= |sorted| && (k < |sorted| ==> sorted[k].score < sorted[k - 1].score)
  }

  lemma {:induction false} AllAnswered(items: seq<Item>, tau: real)
    requires forall i :: 0 <= i < |items| ==> items[i].score >= tau
    ensures Answered(items, tau) == items
  {
    if items != [] {
      AllAnswered(items[..|items| - 1], tau);
    }
  }

  lemma FirstAtLeast(sorted: seq<Item>, tau: real, k: nat)
    requires FromHighToLow(sorted) && k <= |sorted| && (k > 0 ==> sorted[k - 1].score >= tau)
    ensures forall i :: 0 <= i < k ==> sorted[..k][i].score >= tau
  {
    forall i | 0 <= i < k ensures sorted[..k][i].score >= tau {
      assert i == k - 1 || sorted[i].score >= sorted[k - 1].score;
    }
  }

  lemma RestBelow(sorted: seq<Item>, tau: real, k: nat)
    requires FromHighToLow(sorted) && k <= |sorted| && (k < |sorted| ==> sorted[k].score < tau)
    ensures forall i :: 0 <= i < |sorted| - k ==> sorted[k..][i].score < tau
  {
    forall i | 0 <= i < |sorted| - k ensures sorted[k..][i].score < tau {
      assert i == 0 || sorted[k].score >= sorted[k + i].score;
    }
  }

  /** In a sorted list a cut that separates the first k from the rest answers just those. */
  lemma PrefixAnswered(sorted: seq<Item>, tau: real, k: nat)
    requires FromHighToLow(sorted) && k <= |sorted|
    requires k > 0 ==> sorted[k - 1].score >= tau
    requires k < |sorted| ==> sorted[k].score < tau
    ensures Answered(sorted, tau) == sorted[..k]
  {
    hide Answered, FromHighToLow;
    FirstAtLeast(sorted, tau, k);
    RestBelow(sorted, tau, k);
    AllAnswered(sorted[..k], tau);
    NothingAbove(sorted[k..], tau);
    assert sorted[..k] + sorted[k..] == sorted;
    AnsweredConcat(sorted[..k], sorted[k..], tau);
    assert sorted[..k] + [] == sorted[..k];
  }

  lemma {:induction false} Separates(sorted: seq<Item>, tau: real) returns (k: nat)
    ensures k <= |sorted|
    ensures forall i :: 0 <= i < k ==> sorted[i].score >= tau
    ensures k < |sorted| ==> sorted[k].score < tau
  {
    k := 0;
    while k < |sorted| && sorted[k].score >= tau
      invariant k <= |sorted| && forall i :: 0 <= i < k ==> sorted[i].score >= tau
    {
      k := k + 1;
    }
  }

  /**
   The chosen cut is the point of the curve with the highest coverage among those that end
   a class of equal scores and meet the target.
   */
  lemma ChoiceIsOnCurve(items: seq<Item>, target: real, round: Rounding)
    requires |items| < 20000 && RoundsTo4(round) && Choose(items, target, round).achievable
    ensures var r, sorted := Choose(items, target, round), Sorted(items);
      && EndsTie(sorted, r.answered) && Some(sorted[r.answered - 1].score) == CutOf(items, target, round)
      && ErrorRate(sorted[..r.answered]) <= target
      && forall k: nat :: EndsTie(sorted, k) && ErrorRate(sorted[..k]) <= target ==> k <= r.answered
  {
    hide Choose, CutOf, Answered, Wrong, HasScore, Scores, Sorted, FromHighToLow;
    var r, sorted := Choose(items, target, round), Sorted(items);
    ChooseIsOptimal(items, target, round, 0.0);
    var cut := CutOf(items, target, round).value;
    SortedOrder(items);
    var k := Separates(sorted, cut);
    PrefixAnswered(sorted, cut, k);
    SortedCounts(items, cut);
    assert k == r.answered;
    CutIsAScore(items, target, round);
    ScoreIsReached(items, cut, k);
    forall k: nat | EndsTie(sorted, k) && ErrorRate(sorted[..k]) <= target ensures k <= r.answered {
      CurvePointMeets(items, target, k);
      ChooseIsOptimal(items, target, round, sorted[k - 1].score);
    }
  }

  /** A point that ends a tie is the cut at its score. */
  lemma CurvePointMeets(items: seq<Item>, target: real, k: nat)
    requires EndsTie(Sorted(items), k) && ErrorRate(Sorted(items)[..k]) <= target
    ensures var tau := Sorted(items)[k - 1].score;
      Meets(items, tau, target) && |Answered(items, tau)| == k
  {
    hide Answered, Wrong, Sorted, FromHighToLow;
    SortedOrder(items);
    var tau := Sorted(items)[k - 1].score;
    PrefixAnswered(Sorted(items), tau, k);
    SortedCounts(items, tau);
  }

  /** A cut at a score ends at an item with that score. */
  lemma ScoreIsReached(items: seq<Item>, tau: real, k: nat)
    requires tau in Scores(items) && k <= |items| && |Sorted(items)| == |items|
    requires Answered(Sorted(items), tau) == Sorted(items)[..k]
    requires forall i :: 0 <= i < k ==> Sorted(items)[i].score >= tau
    requires FromHighToLow(Sorted(items))
    ensures k > 0 && Sorted(items)[k - 1].score == tau
  {
    hide Answered, Wrong, Scores, Sorted;
    ScoresOk(items);
    ScoreAnswers(items, tau);
    SortedCounts(items, tau);
    var sorted := Sorted(items);
    if sorted[k - 1].score > tau {
      var i :| 0 <= i < |items| && items[i].score == tau;
      var above := sorted[k - 1].score;
      AllAnswered(sorted[..k], above);
      LowerAnswersMore(items, tau, above);
      AtLeastPrefix(sorted, above, k);
      SortedCounts(items, above);
    }
  }

  lemma AtLeastPrefix(sorted: seq<Item>, tau: real, k: nat)
    requires k <= |sorted| && forall i :: 0 <= i < k ==> sorted[i].score >= tau
    ensures |Answered(sorted, tau)| >= k
  {
    assert sorted == sorted[..k] + sorted[k..];
    AnsweredConcat(sorted[..k], sorted[k..], tau);
    AllAnswered(sorted[..k], tau);
  }

  // ------------------------------------------------------------ applying a policy

  datatype Band = Answer | Ask | Abstain

  function Decide(score: real, answerAt: real, askAt: Option<real>): Band {
    if score >= answerAt then Answer else if askAt.Some? && score >= askAt.value then Ask else Abstain
  }

  datatype Summary = Summary(
    n: nat, answers: nat, asks: nat, abstentions: nat, answeredWrong: nat, errorsCaught: nat, correctWithheld: nat)

  /** Items, wrong answers and right answers are each split between what is emitted and what is withheld. */
  ghost predicate Conserves(r: Summary, items: seq<Item>) {
    && r.n == |items| == r.answers + r.asks + r.abstentions
    && Wrong(items) == r.answeredWrong + r.errorsCaught
    && |items| - Wrong(items) == (r.answers - r.answeredWrong) + r.correctWithheld
  }

  function LowerOf(answerAt: real, askAt: Option<real>): real {
    if askAt.Some? && askAt.value < answerAt then askAt.value else answerAt
  }

  /** The three buckets after these items. */
  ghost predicate Bucketed(items: seq<Item>, answerAt: real, askAt: Option<real>,
                           answer: seq<Item>, ask: seq<Item>, abstain: seq<Item>) {
    && answer == Answered(items, answerAt)
    && |answer| + |ask| == |Answered(items, LowerOf(answerAt, askAt))|
    && |answer| + |ask| + |abstain| == |items|
    && Wrong(answer) + Wrong(ask) + Wrong(abstain) == Wrong(items)
  }

  method ApplyPolicy(items: seq<Item>, answerAt: real, askAt: Option<real>) returns (r: Summary)
    ensures Conserves(r, items)
    ensures r.answers == |Answered(items, answerAt)| && r.answeredWrong == Wrong(Answered(items, answerAt))
    ensures r.answers + r.asks == |Answered(items, LowerOf(answerAt, askAt))|
  {
    assert items[..0] == [] && Bucketed([], answerAt, askAt, [], [], []);
    hide Wrong, Answered, Bucketed, Conserves;
    var answer: seq<Item>, ask: seq<Item>, abstain: seq<Item> := [], [], [];
    for k := 0 to |items|
      invariant Bucketed(items[..k], answerAt, askAt, answer, ask, abstain)
    {
      BucketOne(items[..k], items[k], answerAt, askAt, answer, ask, abstain);
      assert items[..k + 1] == items[..k] + [items[k]];
      match Decide(items[k].score, answerAt, askAt) {
        case Answer => answer := answer + [items[k]];
        case Ask => ask := ask + [items[k]];
        case Abstain => abstain := abstain + [items[k]];
      }
    }
    assert items[..|items|] == items;
    Withhold(items, answerAt, askAt, answer, ask, abstain);
    var withheld := ask + abstain;
    r := Summary(|items|, |answer|, |ask|, |abstain|, Wrong(answer), Wrong(withheld), |withheld| - Wrong(withheld));
  }

  lemma Withhold(items: seq<Item>, answerAt: real, askAt: Option<real>,
                 answer: seq<Item>, ask: seq<Item>, abstain: seq<Item>)
    requires Bucketed(items, answerAt, askAt, answer, ask, abstain)
    ensures var withheld := ask + abstain;
      && Wrong(withheld) <= |withheld|
      && Conserves(Summary(|items|, |answer|, |ask|, |abstain|, Wrong(answer), Wrong(withheld),
                           |withheld| - Wrong(withheld)), items)
    ensures answer == Answered(items, answerAt) && |answer| + |ask| == |Answered(items, LowerOf(answerAt, askAt))|
  {
    hide Wrong, Answered;
    WrongConcat(ask, abstain);
    WrongBound(ask + abstain);
  }

  lemma BucketOne(items: seq<Item>, x: Item, answerAt: real, askAt: Option<real>,
                  answer: seq<Item>, ask: seq<Item>, abstain: seq<Item>)
    requires Bucketed(items, answerAt, askAt, answer, ask, abstain)
    ensures match Decide(x.score, answerAt, askAt)
      case Answer => Bucketed(items + [x], answerAt, askAt, answer + [x], ask, abstain)
      case Ask => Bucketed(items + [x], answerAt, askAt, answer, ask + [x], abstain)
      case Abstain => Bucketed(items + [x], answerAt, askAt, answer, ask, abstain + [x])
  {
    hide Wrong, Answered;
    OneMore(items, x, answerAt);
    OneMore(items, x, LowerOf(answerAt, askAt));
    match Decide(x.score, answerAt, askAt) {
      case Answer => OneMore(answer, x, answerAt);
      case Ask => OneMore(ask, x, answerAt);
      case Abstain => OneMore(abstain, x, answerAt);
    }
  }

  lemma OneMore(items: seq<Item>, x: Item, tau: real)
    ensures Wrong(items + [x]) == Wrong(items) + if x.correct then 0 else 1
    ensures Answered(items + [x], tau) == Answered(items, tau) + if x.score >= tau then [x] else []
  {
    assert (items + [x])[..|items|] == items;
  }

  lemma {:induction false} WrongBound(items: seq<Item>)
    ensures Wrong(items) <= |items|
  {
    if items != [] {
      WrongBound(items[..|items| - 1]);
    }
  }

  /** min(1.0, target * 3) */
  function LooserTarget(target: real): (looser: real)
    ensures looser <= 1.0 && looser <= target * 3.0 && (looser == 1.0 || looser == target * 3.0)
    ensures 0.0 <= target <= 1.0 ==> looser >= target
  {
    if target * 3.0 < 1.0 then target * 3.0 else 1.0
  }

  /** The two thresholds of recommend. */
  function Bands(items: seq<Item>, target: real, round: Rounding): (real, Option<real>) {
    var picked, looser := Choose(items, target, round), Choose(items, LooserTarget(target), round);
    var asks := looser.achievable && looser.threshold < picked.threshold;
    (picked.threshold, if asks then Some(looser.threshold) else None)
  }

  /** The ask band reaches down to the threshold for three times the target, or for 1, if that is lower. */
  lemma BandsExactly(items: seq<Item>, target: real, round: Rounding)
    ensures var (answerAt, askAt) := Bands(items, target, round);
      var looser := Choose(items, if target * 3.0 < 1.0 then target * 3.0 else 1.0, round);
      && answerAt == Choose(items, target, round).threshold
      && (askAt.Some? <==> looser.achievable && looser.threshold < answerAt)
      && (askAt.Some? ==> askAt.value == looser.threshold)
  {
    hide Choose;
  }

  method Recommend(pairs: seq<Pair>, target: real, round: Rounding)
    returns (answerAt: real, askAt: Option<real>, r: Summary)
    ensures (answerAt, askAt) == Bands(Clean(pairs), target, round)
    ensures Conserves(r, Clean(pairs)) && r.answers == |Answered(Clean(pairs), answerAt)|
    ensures r.answeredWrong == Wrong(Answered(Clean(pairs), answerAt))
  {
    var items := Clean(pairs);
    var picked := ChooseThreshold(items, target, round);
    var looser := ChooseThreshold(items, LooserTarget(target), round);
    answerAt := picked.threshold;
    askAt := if looser.achievable && looser.threshold < answerAt then Some(looser.threshold) else None;
    r := ApplyPolicy(items, answerAt, askAt);
  }

  /** The reported threshold, if there is a cut behind it, answers what the cut answers. */
  ghost predicate ReportsCut(items: seq<Item>, target: real, round: Rounding) {
    var cut := CutOf(items, target, round);
    cut.Some? ==> KeepsCut(items, cut.value, round)
  }

  /**
   With recommended thresholds that answer what their cuts answer, the answered error meets
   the target, and what is answered or asked about errs at most by the looser target.
   */
  lemma RecommendedBands(items: seq<Item>, target: real, round: Rounding)
    requires |items| < 20000 && RoundsTo4(round) && 0.0 <= target <= 1.0
    requires ReportsCut(items, target, round) && ReportsCut(items, LooserTarget(target), round)
    ensures var (answerAt, askAt) := Bands(items, target, round);
      && (askAt.Some? ==> askAt.value < answerAt)
      && (Answered(items, answerAt) != [] ==> ErrorRate(Answered(items, answerAt)) <= target)
      && (Answered(items, answerAt) != [] <==> Choose(items, target, round).achievable)
      && (var low := LowerOf(answerAt, askAt);
          Answered(items, low) != [] ==> ErrorRate(Answered(items, low)) <= LooserTarget(target))
      && (Choose(items, target, round).achievable && askAt.None? ==>
            Choose(items, LooserTarget(target), round).threshold == answerAt)
  {
    hide Choose, CutOf, Answered, Wrong, RoundsTo4, KeepsCut;
    var loose := LooserTarget(target);
    ChooseIsOptimal(items, target, round, 0.0);
    ChooseIsOptimal(items, loose, round, 0.0);
    if Choose(items, loose, round).achievable {
      ReportedThresholdExactly(items, loose, round);
    }
    if Choose(items, target, round).achievable {
      LooserIsLower(items, target, loose, round);
      ReportedThresholdExactly(items, target, round);
    }
  }

  /** Scores of at most four decimals meet the condition. */
  lemma FourDecimalsReportCuts(items: seq<Item>, target: real, round: Rounding)
    requires FourDecimals(items) && RoundsTo4(round)
    ensures ReportsCut(items, target, round)
  {
    if CutOf(items, target, round).Some? {
      FourDecimalsKeepCuts(items, target, round);
    }
  }

  lemma RoundsTo(x: real, k: int, round: Rounding)
    requires RoundsTo4(round) && -0.00005 < TenThousandths(k) - x < 0.00005
    ensures round(x) == TenThousandths(k)
  {
    assert Nearest(x, round(x));
    var j :| round(x) == TenThousandths(j);
    assert -1.0 < (j - k) as real < 1.0;
  }

  /** Without it a threshold rounded down can answer what its cut excludes: half of it wrong. */
  lemma RoundedDownAnswersMore(round: Rounding) returns (pairs: seq<Pair>)
    requires RoundsTo4(round)
    ensures var items := Clean(pairs);
      && CutOf(items, 0.05, round) == Some(0.90004) && Bands(items, 0.05, round) == (0.9, None)
      && Answered(items, 0.9) == items != [] && ErrorRate(items) == 0.5
  {
    hide Clean, Scan, Choose, CutOf, Scores, Meets, Answered, Wrong, Nearest, RoundsTo4;
    var right, wrong := Item(0.90004, true), Item(0.90001, false);
    pairs := [Pair(Some(0.90004), Some(true)), Pair(Some(0.90001), Some(false))];
    TwoClean(pairs[0], pairs[1]);
    TwoItems(right, wrong);
    HalfWrong(right, wrong, 0.05);
    HalfWrong(right, wrong, LooserTarget(0.05));
    TwoCuts(Clean(pairs), 0.90004, 0.90001, 0.05, round);
    TwoCuts(Clean(pairs), 0.90004, 0.90001, LooserTarget(0.05), round);
    RoundsTo(0.90004, 9000, round);
    AllAnswered(Clean(pairs), 0.9);
  }

  lemma TwoClean(first: Pair, second: Pair)
    requires first.correct.Some? && first.score.Some? && 0.0 <= first.score.value <= 1.0
    requires second.correct.Some? && second.score.Some? && 0.0 <= second.score.value <= 1.0
    ensures Clean([first, second])
         == [Item(first.score.value, first.correct.value), Item(second.score.value, second.correct.value)]
  {
    assert [first, second][..1] == [first] && [first][..0] == [];
    assert Clean([first]) == [Item(first.score.value, first.correct.value)];
  }

  lemma HalfWrong(right: Item, wrong: Item, target: real)
    requires right.correct && !wrong.correct && right.score > wrong.score && 0.0 <= target < 0.5
    ensures Meets([right, wrong], right.score, target) && !Meets([right, wrong], wrong.score, target)
    ensures ErrorRate([right, wrong]) == 0.5
  {
    hide Answered, Wrong;
    TwoItems(right, wrong);
  }

  lemma TwoItems(right: Item, wrong: Item)
    requires right.correct && !wrong.correct && right.score > wrong.score
    ensures Scores([right, wrong]) == [right.score, wrong.score]
    ensures Answered([right, wrong], right.score) == [right] && Wrong([right]) == 0
    ensures Answered([right, wrong], wrong.score) == [right, wrong] && Wrong([right, wrong]) == 1
  {
    assert [right, wrong][..1] == [right] && [right][..0] == [];
    assert Scores([right]) == [right.score];
    assert [right.score][1..] == [];
    assert Insert(wrong.score, []) == [wrong.score];
    assert Insert(wrong.score, [right.score]) == [right.score] + [wrong.score];
    assert Answered([right], right.score) == [right] && Answered([right], wrong.score) == [right];
  }

  /** The scan over two cuts of which only the first meets the target. */
  lemma TwoCuts(items: seq<Item>, high: real, low: real, target: real, round: Rounding)
    requires items != [] && Scores(items) == [high, low]
    requires Meets(items, high, target) && !Meets(items, low, target)
    ensures CutOf(items, target, round) == Some(high) && Choose(items, target, round).threshold == round(high)
  {
    hide Meets, Answered, Scores;
    assert [high, low][..1] == [high] && [high][..0] == [];
    assert Scan(items, target, round, []) == None;
    MeetingIsTaken(items, target, round, high);
    var first := Scan(items, target, round, [high]);
    KeepsBest(items, target, round, first, low);
    assert Scan(items, target, round, [high, low]) == Try(items, target, round, first, low);
  }

  lemma MeetingIsTaken(items: seq<Item>, target: real, round: Rounding, tau: real)
    requires items != [] && Meets(items, tau, target)
    ensures Try(items, target, round, None, tau).Some? && Try(items, target, round, None, tau).value.cut == tau
  {
  }

  /** And one rounded up can answer nothing, though it is reported as achievable. */
  lemma RoundedUpAnswersNothing(round: Rounding) returns (items: seq<Item>)
    requires RoundsTo4(round)
    ensures CutOf(items, 0.05, round) == Some(0.90006) && Choose(items, 0.05, round).achievable
    ensures Choose(items, 0.05, round).answered == 1 && Answered(items, Choose(items, 0.05, round).threshold) == []
  {
    var only := Item(0.90006, true);
    items := [only];
    OneItem(only);
    hide Scores, Answered, Wrong;
    assert [0.90006][..0] == [] && Scan(items, 0.05, round, []) == None;
    assert Scan(items, 0.05, round, [0.90006]) == Try(items, 0.05, round, None, 0.90006);
    RoundsTo(0.90006, 9001, round);
    NothingAbove(items, round(0.90006));
  }

  lemma OneItem(only: Item)
    requires only.correct
    ensures Scores([only]) == [only.score] && Answered([only], only.score) == [only] && Wrong([only]) == 0
  {
    assert [only][..0] == [] && Scores([]) == [] && Answered([], only.score) == [] && Wrong([]) == 0;
    assert Insert(only.score, []) == [only.score];
  }
}
