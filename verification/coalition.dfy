/**
 Exact Shapley credit, its second-order approximation and the interaction gap
 (clozn/receipts/coalition.py). A game maps a coalition, the set of influences
 removed together, to the change this causes. Floats are exact reals here.
 */
module Coalition {
  import opened Common

  type Key = string
  type Game = set<Key> -> real

  // ---------------------------------------------------------------- coalitions

  function AddToAll(k: Key, cs: seq<set<Key>>): seq<set<Key>> {
    if cs == [] then [] else [cs[0] + {k}] + AddToAll(k, cs[1..])
  }

  /** itertools.combinations(xs, r), each combination as a frozenset. */
  function Combinations(xs: seq<Key>, r: nat): seq<set<Key>> {
    if r == 0 then [{}]
    else if xs == [] then []
    else AddToAll(xs[0], Combinations(xs[1..], r - 1)) + Combinations(xs[1..], r)
  }

  /** [k for k in xs if k != i] */
  function Without(xs: seq<Key>, i: Key): (r: seq<Key>)
    ensures forall x :: x in r <==> x in xs && x != i
  {
    if xs == [] then []
    else if xs[0] == i then Without(xs[1..], i)
    else [xs[0]] + Without(xs[1..], i)
  }

  lemma {:induction false} WithoutAbsent(xs: seq<Key>, i: Key)
    requires i !in xs
    ensures Without(xs, i) == xs
  {
    if xs != [] {
      WithoutAbsent(xs[1..], i);
    }
  }

  lemma {:induction false} WithoutDistinct(xs: seq<Key>, i: Key)
    requires Distinct(xs)
    ensures Distinct(Without(xs, i))
    ensures |Without(xs, i)| == if i in xs then |xs| - 1 else |xs|
  {
    if xs != [] {
      assert xs[0] !in xs[1..];
      WithoutDistinct(xs[1..], i);
      if xs[0] != i {
        DistinctConcat([xs[0]], Without(xs[1..], i));
      }
    }
  }

  lemma {:induction false} WithoutTwice(xs: seq<Key>, i: Key, j: Key)
    ensures Without(Without(xs, i), j) == Without(Without(xs, j), i)
  {
    if xs != [] {
      WithoutTwice(xs[1..], i, j);
      assert xs[0] != i ==> Without(xs, i)[1..] == Without(xs[1..], i);
      assert xs[0] != j ==> Without(xs, j)[1..] == Without(xs[1..], j);
    }
  }

  lemma {:induction false} AddToAllMembers(k: Key, cs: seq<set<Key>>, s: set<Key>)
    requires forall c :: c in cs ==> k !in c
    ensures s in AddToAll(k, cs) <==> k in s && s - {k} in cs
  {
    if cs != [] {
      AddToAllMembers(k, cs[1..], s);
      assert cs[0] in cs;
      assert s == cs[0] + {k} <==> k in s && s - {k} == cs[0];
    }
  }

  predicate IsCombination(xs: seq<Key>, r: nat, s: set<Key>) {
    s <= ToSet(xs) && |s| == r
  }

  /** The combinations of size r are exactly the subsets of size r. */
  lemma {:induction false} CombinationsAreSubsets(xs: seq<Key>, r: nat)
    requires Distinct(xs)
    ensures forall s :: s in Combinations(xs, r) <==> IsCombination(xs, r, s)
  {
    if r > 0 && xs != [] {
      var k, rest := xs[0], xs[1..];
      assert xs == [k] + rest && k !in rest;
      assert ToSet(xs) == {k} + ToSet(rest);
      var smaller := Combinations(rest, r - 1);
      CombinationsAreSubsets(rest, r);
      CombinationsAreSubsets(rest, r - 1);
      forall c | c in smaller ensures k !in c {
        assert IsCombination(rest, r - 1, c);
      }
      forall s ensures s in Combinations(xs, r) <==> IsCombination(xs, r, s) {
        AddToAllMembers(k, smaller, s);
        assert s in Combinations(xs, r) <==> s in AddToAll(k, smaller) || s in Combinations(rest, r);
        CombinationOfMore(k, rest, xs, r, s);
      }
    }
  }

  lemma CombinationOfMore(k: Key, rest: seq<Key>, xs: seq<Key>, r: nat, s: set<Key>)
    requires k !in rest && ToSet(xs) == {k} + ToSet(rest) && r > 0
    ensures IsCombination(xs, r, s)
      <==> (k in s && IsCombination(rest, r - 1, s - {k})) || IsCombination(rest, r, s)
  {
    if k in s {
      assert s == (s - {k}) + {k};
    }
  }

  lemma {:induction false} CombinationsDistinct(xs: seq<Key>, r: nat)
    requires Distinct(xs)
    ensures Distinct(Combinations(xs, r))
  {
    if r > 0 && xs != [] {
      var k, rest := xs[0], xs[1..];
      assert xs == [k] + rest && k !in rest;
      CombinationsDistinct(rest, r - 1);
      CombinationsDistinct(rest, r);
      CombinationsAreSubsets(rest, r - 1);
      CombinationsAreSubsets(rest, r);
      forall c | c in Combinations(rest, r - 1) ensures k !in c {
        assert IsCombination(rest, r - 1, c);
      }
      forall c | c in Combinations(rest, r) ensures k !in c {
        assert IsCombination(rest, r, c);
      }
      AddToAllDistinct(k, Combinations(rest, r - 1), Combinations(rest, r));
    }
  }

  lemma {:induction false} AddToAllDistinct(k: Key, cs: seq<set<Key>>, ds: seq<set<Key>>)
    requires Distinct(cs) && Distinct(ds)
    requires (forall s :: s in cs ==> k !in s) && (forall s :: s in ds ==> k !in s)
    ensures Distinct(AddToAll(k, cs) + ds)
  {
    if cs == [] {
      assert AddToAll(k, cs) + ds == ds;
    } else {
      var first, rest := cs[0] + {k}, AddToAll(k, cs[1..]) + ds;
      AddToAllDistinct(k, cs[1..], ds);
      AddToAllMembers(k, cs[1..], first);
      assert cs[0] in cs && first - {k} == cs[0];
      assert cs[0] !in cs[1..];
      DistinctConcat([first], rest);
      assert AddToAll(k, cs) + ds == [first] + rest;
    }
  }

  // ------------------------------------------------------------ sums over them

  function SumSeq(cs: seq<set<Key>>, f: Game): real {
    if cs == [] then 0.0 else SumSeq(cs[..|cs| - 1], f) + f(cs[|cs| - 1])
  }

  /** The sum over combinations of every size below `ranks`: the double loop of exact_shapley. */
  function RankSum(xs: seq<Key>, ranks: nat, f: Game): real {
    if ranks == 0 then 0.0
    else RankSum(xs, ranks - 1, f) + SumSeq(Combinations(xs, ranks - 1), f)
  }

  /** The sum of f over the whole power set of xs. */
  function SubsetSum(xs: seq<Key>, f: Game): real {
    if xs == [] then f({})
    else SubsetSum(xs[1..], f) + SubsetSum(xs[1..], Shifted(f, xs[0]))
  }

  function Shifted(f: Game, k: Key): Game {
    s => f(s + {k})
  }

  lemma {:induction false} SumSeqConcat(a: seq<set<Key>>, b: seq<set<Key>>, f: Game)
    ensures SumSeq(a + b, f) == SumSeq(a, f) + SumSeq(b, f)
  {
    if b == [] {
      assert a + b == a;
    } else {
      assert (a + b)[..|a + b| - 1] == a + b[..|b| - 1];
      SumSeqConcat(a, b[..|b| - 1], f);
    }
  }

  lemma SumSeqAppend(cs: seq<set<Key>>, s: set<Key>, f: Game)
    ensures SumSeq(cs + [s], f) == SumSeq(cs, f) + f(s)
  {
    assert (cs + [s])[..|cs|] == cs;
  }

  lemma {:induction false} SumSeqShifted(cs: seq<set<Key>>, k: Key, f: Game)
    ensures SumSeq(AddToAll(k, cs), f) == SumSeq(cs, Shifted(f, k))
  {
    if cs != [] {
      SumSeqShifted(cs[1..], k, f);
      SumSeqConcat([cs[0] + {k}], AddToAll(k, cs[1..]), f);
      SumSeqConcat([cs[0]], cs[1..], Shifted(f, k));
      assert [cs[0]] + cs[1..] == cs;
      SumSeqAppend([], cs[0] + {k}, f);
      SumSeqAppend([], cs[0], Shifted(f, k));
      assert [] + [cs[0]] == [cs[0]] && [] + [cs[0] + {k}] == [cs[0] + {k}];
    }
  }

  lemma {:induction false} RankSumStep(xs: seq<Key>, ranks: nat, f: Game)
    requires xs != []
    ensures RankSum(xs, ranks + 1, f)
         == RankSum(xs[1..], ranks + 1, f) + RankSum(xs[1..], ranks, Shifted(f, xs[0]))
  {
    if ranks > 0 {
      RankSumStep(xs, ranks - 1, f);
      var withK := AddToAll(xs[0], Combinations(xs[1..], ranks - 1));
      SumSeqConcat(withK, Combinations(xs[1..], ranks), f);
      SumSeqShifted(Combinations(xs[1..], ranks - 1), xs[0], f);
    } else {
      assert RankSum(xs, 1, f) == RankSum(xs, 0, f) + SumSeq(Combinations(xs, 0), f);
      assert RankSum(xs[1..], 1, f) == RankSum(xs[1..], 0, f) + SumSeq(Combinations(xs[1..], 0), f);
    }
  }

  lemma {:induction false} NoLargerCombinations(xs: seq<Key>, r: nat)
    requires r > |xs|
    ensures Combinations(xs, r) == []
  {
    if xs != [] {
      NoLargerCombinations(xs[1..], r - 1);
      NoLargerCombinations(xs[1..], r);
    }
  }

  /** Going through the sizes 0, 1, .., |xs| visits every subset exactly once. */
  lemma {:induction false} RankSumIsSubsetSum(xs: seq<Key>, f: Game)
    ensures RankSum(xs, |xs| + 1, f) == SubsetSum(xs, f)
  {
    if xs == [] {
      assert Combinations(xs, 0) == [{}];
      var one: seq<set<Key>> := [{}];
      assert one[..0] == [];
      assert RankSum(xs, 1, f) == RankSum(xs, 0, f) + SumSeq([{}], f);
    } else {
      var rest := xs[1..];
      RankSumStep(xs, |xs|, f);
      RankSumIsSubsetSum(rest, f);
      RankSumIsSubsetSum(rest, Shifted(f, xs[0]));
      NoLargerCombinations(rest, |xs|);
      assert RankSum(rest, |xs| + 1, f) == RankSum(rest, |xs|, f) + SumSeq([], f);
    }
  }

  ghost predicate AgreeAt(f: Game, g: Game, s: set<Key>) {
    f(s) == g(s)
  }

  ghost predicate AddsUpAt(f: Game, g: Game, h: Game, s: set<Key>) {
    h(s) == f(s) + g(s)
  }

  lemma {:induction false} SubsetSumSame(xs: seq<Key>, f: Game, g: Game)
    requires forall s :: s <= ToSet(xs) ==> AgreeAt(f, g, s)
    ensures SubsetSum(xs, f) == SubsetSum(xs, g)
  {
    if xs == [] {
      assert AgreeAt(f, g, {});
    } else {
      var k, rest := xs[0], xs[1..];
      assert ToSet(xs) == {k} + ToSet(rest);
      SubsetSumSame(rest, f, g);
      forall s | s <= ToSet(rest) ensures AgreeAt(Shifted(f, k), Shifted(g, k), s) {
        assert s + {k} <= ToSet(xs) && AgreeAt(f, g, s + {k});
      }
      SubsetSumSame(rest, Shifted(f, k), Shifted(g, k));
    }
  }

  lemma {:induction false} SubsetSumAdd(xs: seq<Key>, f: Game, g: Game, h: Game)
    requires forall s :: s <= ToSet(xs) ==> AddsUpAt(f, g, h, s)
    ensures SubsetSum(xs, h) == SubsetSum(xs, f) + SubsetSum(xs, g)
  {
    if xs == [] {
      assert AddsUpAt(f, g, h, {});
    } else {
      var k, rest := xs[0], xs[1..];
      assert ToSet(xs) == {k} + ToSet(rest);
      SubsetSumAdd(rest, f, g, h);
      forall s | s <= ToSet(rest) ensures AddsUpAt(Shifted(f, k), Shifted(g, k), Shifted(h, k), s) {
        assert s + {k} <= ToSet(xs) && AddsUpAt(f, g, h, s + {k});
      }
      SubsetSumAdd(rest, Shifted(f, k), Shifted(g, k), Shifted(h, k));
    }
  }

  /** A sum over all subsets may be folded along any one element. */
  lemma {:induction false} SubsetSumSplit(xs: seq<Key>, i: Key, f: Game)
    requires Distinct(xs) && i in xs
    ensures SubsetSum(xs, f)
         == SubsetSum(Without(xs, i), f) + SubsetSum(Without(xs, i), Shifted(f, i))
  {
    var k, rest := xs[0], xs[1..];
    assert xs == [k] + rest;
    if k == i {
      WithoutAbsent(rest, i);
    } else {
      SubsetSumSplit(rest, i, f);
      SubsetSumSplit(rest, i, Shifted(f, k));
      var left := Without(rest, i);
      assert Without(xs, i) == [k] + left;
      assert ([k] + left)[1..] == left;
      forall s | s <= ToSet(left)
        ensures AgreeAt(Shifted(Shifted(f, k), i), Shifted(Shifted(f, i), k), s)
      {
        assert s + {i} + {k} == s + {k} + {i};
      }
      SubsetSumSame(left, Shifted(Shifted(f, k), i), Shifted(Shifted(f, i), k));
    }
  }

  lemma {:induction false} SubsetSumOnlyFull(xs: seq<Key>, f: Game)
    requires Distinct(xs)
    requires forall s :: s < ToSet(xs) ==> f(s) == 0.0
    ensures SubsetSum(xs, f) == f(ToSet(xs))
  {
    if xs == [] {
      assert ToSet(xs) == {};
    } else {
      var k, rest := xs[0], xs[1..];
      assert xs == [k] + rest && k !in rest;
      assert ToSet(xs) == {k} + ToSet(rest);
      assert forall s :: s < ToSet(rest) ==> s < ToSet(xs);
      SubsetSumOnlyFull(rest, f);
      assert ToSet(rest) < ToSet(xs);
      forall s | s < ToSet(rest) ensures Shifted(f, k)(s) == 0.0 {
        assert s + {k} < ToSet(xs) by {
          var m :| m in ToSet(rest) && m !in s;
          assert m !in s + {k} && m in ToSet(xs);
        }
      }
      SubsetSumOnlyFull(rest, Shifted(f, k));
      assert Shifted(f, k)(ToSet(rest)) == f(ToSet(rest) + {k});
      assert ToSet(rest) + {k} == ToSet(xs);
    }
  }

  // ---------------------------------------------------------------- the weights

  function Factorial(n: nat): (f: nat)
    ensures f >= 1
  {
    if n == 0 then 1 else
      assert n * Factorial(n - 1) >= 1;
      n * Factorial(n - 1)
  }

  /** The number of orders that put a given a influences first and a given b last. */
  function Orders(a: nat, b: nat): nat {
    Factorial(a) * Factorial(b)
  }

  /** The fraction p/d of a contribution x. */
  function Part(p: nat, d: nat, x: real): real
    requires d != 0
  {
    p as real / d as real * x
  }

  /** weigh(r, x) is what a contribution x to a coalition of r others counts for. */
  type Weighing = (int, real) -> real

  /** The weight r! (n-r-1)! / n! of a coalition of r others among n influences. */
  function WeighingFor(n: nat): Weighing {
    (r, x) => if 0 <= r < n then Part(Orders(r, n - r - 1), Factorial(n), x) else 0.0
  }

  function Repeated(times: nat, x: real): real {
    if times == 0 then 0.0 else Repeated(times - 1, x) + x
  }

  ghost predicate AdditiveAt(weigh: Weighing, r: int, x: real, y: real) {
    weigh(r, x + y) == weigh(r, x) + weigh(r, y)
  }

  ghost predicate BalancedAt(weigh: Weighing, n: nat, t: nat, x: real)
    requires 0 < t <= n
  {
    Repeated(t, weigh(t - 1, x)) == if t < n then Repeated(n - t, weigh(t, x)) else x
  }

  /** All that the proofs below need to know about the weights. */
  ghost predicate Fair(weigh: Weighing, n: nat) {
    && (forall r, x, y :: AdditiveAt(weigh, r, x, y))
    && (forall t: nat, x | 0 < t <= n :: BalancedAt(weigh, n, t, x))
  }

  lemma {:induction false} RepeatedIsTimes(times: nat, x: real)
    ensures Repeated(times, x) == times as real * x
  {
    if times > 0 {
      RepeatedIsTimes(times - 1, x);
      assert (times - 1) as real * x == times as real * x - x;
    }
  }

  lemma WeighingIsFair(n: nat)
    ensures Fair(WeighingFor(n), n)
  {
    var weigh := WeighingFor(n);
    forall r, x, y ensures AdditiveAt(weigh, r, x, y) {
      if 0 <= r < n {
        PartAdds(Orders(r, n - r - 1), Factorial(n), x, y);
      }
    }
    forall t: nat, x | 0 < t <= n ensures BalancedAt(weigh, n, t, x) {
      WeightBalance(n, t, x);
    }
  }

  lemma WeightBalance(n: nat, t: nat, x: real)
    requires 0 < t <= n
    ensures BalancedAt(WeighingFor(n), n, t, x)
  {
    OrdersShift(t, n - t);
    RepeatedPart(t, Orders(t - 1, n - t), Factorial(n), x);
    assert WeighingFor(n)(t - 1, x) == Part(Orders(t - 1, n - t), Factorial(n), x);
    if t < n {
      RepeatedPart(n - t, Orders(t, n - t - 1), Factorial(n), x);
    }
  }

  lemma OrdersShift(t: nat, u: nat)
    requires 0 < t
    ensures t * Orders(t - 1, u) == Orders(t, u)
    ensures u > 0 ==> u * Orders(t, u - 1) == Orders(t, u)
    ensures u == 0 ==> Orders(t, u) == Factorial(t)
  {
    MulAssoc(t, Factorial(t - 1), Factorial(u));
    if u > 0 {
      MulAssoc(u, Factorial(u - 1), Factorial(t));
    }
  }

  lemma MulAssoc(a: int, b: int, c: int)
    ensures a * (b * c) == (a * b) * c
    ensures a * (c * b) == c * (a * b)
  {
  }

  lemma PartAdds(p: nat, d: nat, x: real, y: real)
    requires d != 0
    ensures Part(p, d, x + y) == Part(p, d, x) + Part(p, d, y)
  {
    var q := p as real / d as real;
    assert q * (x + y) == q * x + q * y;
  }

  lemma RepeatedPart(a: nat, b: nat, d: nat, x: real)
    requires d != 0
    ensures Repeated(a, Part(b, d, x)) == Part(a * b, d, x)
    ensures Part(d, d, x) == x
  {
    RepeatedIsTimes(a, Part(b, d, x));
    var q := b as real / d as real;
    assert a as real * q == (a * b) as real / d as real by {
      assert a as real * b as real == (a * b) as real;
    }
    TimesAssoc(a as real, q, x);
  }

  lemma TimesAssoc(a: real, b: real, x: real)
    ensures a * (b * x) == (a * b) * x
  {
  }

  // ---------------------------------------------------------- the Shapley value

  /** The weighted marginal contribution of i to the coalition s. */
  function Marginal(weigh: Weighing, v: Game, i: Key): Game {
    s => weigh(|s|, v(s + {i}) - v(s))
  }

  function Credit(weigh: Weighing, keys: seq<Key>, v: Game, i: Key): real {
    SubsetSum(Without(keys, i), Marginal(weigh, v, i))
  }

  function CreditTotal(weigh: Weighing, keys: seq<Key>, v: Game, who: seq<Key>): real {
    if who == [] then 0.0
    else CreditTotal(weigh, keys, v, who[..|who| - 1]) + Credit(weigh, keys, v, who[|who| - 1])
  }

  /** What t contributes to the credit of i, once the sum runs over all subsets of keys. */
  function Signed(weigh: Weighing, v: Game, i: Key): Game {
    t => if i in t then weigh(|t| - 1, v(t)) else -weigh(|t|, v(t))
  }

  lemma CreditAsSigned(keys: seq<Key>, weigh: Weighing, v: Game, i: Key)
    requires Distinct(keys) && i in keys && Fair(weigh, |keys|)
    ensures Credit(weigh, keys, v, i) == SubsetSum(keys, Signed(weigh, v, i))
  {
    var others, f := Without(keys, i), Signed(weigh, v, i);
    SubsetSumSplit(keys, i, f);
    forall s | s <= ToSet(others) ensures AddsUpAt(f, Shifted(f, i), Marginal(weigh, v, i), s) {
      MarginalAsSigned(weigh, v, i, s, |keys|);
    }
    SubsetSumAdd(others, f, Shifted(f, i), Marginal(weigh, v, i));
  }

  lemma MarginalAsSigned(weigh: Weighing, v: Game, i: Key, s: set<Key>, n: nat)
    requires i !in s && Fair(weigh, n)
    ensures AddsUpAt(Signed(weigh, v, i), Shifted(Signed(weigh, v, i), i), Marginal(weigh, v, i), s)
  {
    assert |s + {i}| - 1 == |s|;
    assert AdditiveAt(weigh, |s|, v(s + {i}) - v(s), v(s));
  }

  function Hits(who: seq<Key>, t: set<Key>): nat {
    if who == [] then 0 else Hits(who[..|who| - 1], t) + if who[|who| - 1] in t then 1 else 0
  }

  lemma {:induction false} HitsCountMembers(who: seq<Key>, t: set<Key>)
    requires Distinct(who) && t <= ToSet(who)
    ensures Hits(who, t) == |t| && Misses(who, t) == |who| - |t|
  {
    if who == [] {
      assert t == {};
    } else {
      hide Distinct, ToSet;
      var init, last := who[..|who| - 1], who[|who| - 1];
      LastKeyIsNew(who, t);
      HitsCountMembers(init, t - {last});
      HitsIgnore(init, t, last);
      assert last in t ==> t == (t - {last}) + {last};
      assert last !in t ==> t == t - {last};
    }
  }

  lemma LastKeyIsNew(who: seq<Key>, t: set<Key>)
    requires who != [] && Distinct(who) && t <= ToSet(who)
    ensures var init, last := who[..|who| - 1], who[|who| - 1];
      Distinct(init) && last !in init && t - {last} <= ToSet(init)
  {
    assert who == who[..|who| - 1] + [who[|who| - 1]];
  }

  lemma {:induction false} HitsIgnore(who: seq<Key>, t: set<Key>, k: Key)
    requires k !in who
    ensures Hits(who, t) == Hits(who, t - {k}) && Misses(who, t) == Misses(who, t - {k})
  {
    if who != [] {
      HitsIgnore(who[..|who| - 1], t, k);
    }
  }

  function Misses(who: seq<Key>, t: set<Key>): nat {
    if who == [] then 0 else Misses(who[..|who| - 1], t) + if who[|who| - 1] in t then 0 else 1
  }

  /** The part t plays in the total credit of `who`. */
  function SignedTotal(weigh: Weighing, v: Game, who: seq<Key>): Game {
    t => Repeated(Hits(who, t), weigh(|t| - 1, v(t)))
         - Repeated(Misses(who, t), weigh(|t|, v(t)))
  }

  /** Exchange of the two sums: over influences, and over coalitions. */
  lemma {:induction false} TotalAsSubsetSum(keys: seq<Key>, weigh: Weighing, v: Game, who: seq<Key>)
    requires Distinct(keys) && Fair(weigh, |keys|)
    requires forall i :: i in who ==> i in keys
    ensures CreditTotal(weigh, keys, v, who) == SubsetSum(keys, SignedTotal(weigh, v, who))
  {
    var f := SignedTotal(weigh, v, who);
    if who == [] {
      forall t ensures AddsUpAt(f, f, f, t) {
        SignedParts(weigh, v, who, t);
      }
      SubsetSumAdd(keys, f, f, f);
    } else {
      var init, last := who[..|who| - 1], who[|who| - 1];
      TotalAsSubsetSum(keys, weigh, v, init);
      CreditAsSigned(keys, weigh, v, last);
      forall t ensures AddsUpAt(SignedTotal(weigh, v, init), Signed(weigh, v, last), f, t) {
        SignedStep(weigh, v, who, t);
      }
      SubsetSumAdd(keys, SignedTotal(weigh, v, init), Signed(weigh, v, last), f);
    }
  }

  lemma SignedStep(weigh: Weighing, v: Game, who: seq<Key>, t: set<Key>)
    requires who != []
    ensures SignedTotal(weigh, v, who)(t)
         == SignedTotal(weigh, v, who[..|who| - 1])(t) + Signed(weigh, v, who[|who| - 1])(t)
  {
    var init, up, down := who[..|who| - 1], weigh(|t| - 1, v(t)), weigh(|t|, v(t));
    SignedParts(weigh, v, who, t);
    SignedParts(weigh, v, init, t);
    if who[|who| - 1] in t {
      assert Repeated(Hits(who, t), up) == Repeated(Hits(init, t), up) + up;
    } else {
      assert Repeated(Misses(who, t), down) == Repeated(Misses(init, t), down) + down;
    }
  }

  lemma SignedParts(weigh: Weighing, v: Game, who: seq<Key>, t: set<Key>)
    ensures SignedTotal(weigh, v, who)(t)
         == Repeated(Hits(who, t), weigh(|t| - 1, v(t))) - Repeated(Misses(who, t), weigh(|t|, v(t)))
    ensures who == [] ==> SignedTotal(weigh, v, who)(t) == 0.0
  {
  }

  /** Efficiency: the credits of all influences add up to the joint effect. */
  lemma Efficiency(keys: seq<Key>, weigh: Weighing, v: Game)
    requires Distinct(keys) && v({}) == 0.0 && Fair(weigh, |keys|)
    ensures CreditTotal(weigh, keys, v, keys) == v(ToSet(keys))
  {
    var f := SignedTotal(weigh, v, keys);
    TotalAsSubsetSum(keys, weigh, v, keys);
    forall t | t <= ToSet(keys) ensures f(t) == if t == ToSet(keys) then v(t) else 0.0 {
      CoalitionShare(keys, weigh, v, t);
    }
    SubsetSumOnlyFull(keys, f);
  }

  /** Every coalition but the full one cancels out of the total. */
  lemma CoalitionShare(keys: seq<Key>, weigh: Weighing, v: Game, t: set<Key>)
    requires Distinct(keys) && v({}) == 0.0 && t <= ToSet(keys) && Fair(weigh, |keys|)
    ensures SignedTotal(weigh, v, keys)(t) == if t == ToSet(keys) then v(t) else 0.0
  {
    DistinctSize(keys);
    HitsCountMembers(keys, t);
    SmallerSubset(t, ToSet(keys));
    if t == {} {
      assert AdditiveAt(weigh, 0, 0.0, 0.0);
      RepeatedIsTimes(|keys|, weigh(0, v(t)));
    } else {
      assert BalancedAt(weigh, |keys|, |t|, v(t));
    }
  }

  lemma {:induction false} SmallerSubset(s: set<Key>, t: set<Key>)
    requires s <= t
    ensures |s| <= |t| && (|s| == |t| ==> s == t)
  {
    assert t == s + (t - s);
  }

  ghost predicate NoEffectAt(v: Game, i: Key, s: set<Key>) {
    v(s + {i}) == v(s)
  }

  /** An influence that never changes anything gets nothing. */
  lemma NullInfluence(keys: seq<Key>, weigh: Weighing, v: Game, i: Key)
    requires Fair(weigh, |keys|)
    requires forall s :: s <= ToSet(keys) - {i} ==> NoEffectAt(v, i, s)
    ensures Credit(weigh, keys, v, i) == 0.0
  {
    var others, f := Without(keys, i), Marginal(weigh, v, i);
    forall s | s <= ToSet(others) ensures AddsUpAt(f, f, f, s) {
      assert NoEffectAt(v, i, s);
      assert AdditiveAt(weigh, |s|, 0.0, 0.0);
    }
    SubsetSumAdd(others, f, f, f);
  }

  ghost predicate SameEffectAt(v: Game, i: Key, j: Key, s: set<Key>) {
    v(s + {i}) == v(s + {j})
  }

  /** Two influences that are interchangeable get the same credit. */
  lemma Symmetry(keys: seq<Key>, weigh: Weighing, v: Game, i: Key, j: Key)
    requires Distinct(keys) && i in keys && j in keys && i != j
    requires forall s :: s <= ToSet(keys) - {i, j} ==> SameEffectAt(v, i, j, s)
    ensures Credit(weigh, keys, v, i) == Credit(weigh, keys, v, j)
  {
    var f, g := Marginal(weigh, v, i), Marginal(weigh, v, j);
    var both := Without(Without(keys, i), j);
    WithoutTwice(keys, i, j);
    WithoutDistinct(keys, i);
    WithoutDistinct(keys, j);
    SubsetSumSplit(Without(keys, i), j, f);
    SubsetSumSplit(Without(keys, j), i, g);
    forall s | s <= ToSet(both)
      ensures AgreeAt(f, g, s) && AgreeAt(Shifted(f, j), Shifted(g, i), s)
    {
      assert SameEffectAt(v, i, j, s);
      MarginalsAgree(weigh, v, i, j, s);
    }
    SubsetSumSame(both, f, g);
    SubsetSumSame(both, Shifted(f, j), Shifted(g, i));
  }

  lemma MarginalsAgree(weigh: Weighing, v: Game, i: Key, j: Key, s: set<Key>)
    requires i !in s && j !in s && v(s + {i}) == v(s + {j})
    ensures Marginal(weigh, v, i)(s) == Marginal(weigh, v, j)(s)
    ensures Shifted(Marginal(weigh, v, i), j)(s) == Shifted(Marginal(weigh, v, j), i)(s)
  {
    assert s + {j} + {i} == s + {i} + {j};
    assert |s + {j}| == |s| + 1 == |s + {i}|;
  }

  // ------------------------------------------- games of solo and pairwise terms

  function Unanimity(members: set<Key>, c: real): Game {
    s => if members <= s then c else 0.0
  }

  /** Only i and j (possibly the same) have any credit, so the total is theirs. */
  lemma {:induction false} TotalOfTwo(keys: seq<Key>, weigh: Weighing, v: Game, who: seq<Key>, i: Key, j: Key)
    requires Distinct(keys) && Distinct(who)
    requires forall k :: k in who && k != i && k != j ==> Credit(weigh, keys, v, k) == 0.0
    ensures CreditTotal(weigh, keys, v, who)
         == (if i in who then Credit(weigh, keys, v, i) else 0.0)
            + (if j != i && j in who then Credit(weigh, keys, v, j) else 0.0)
  {
    if who != [] {
      var init, last := who[..|who| - 1], who[|who| - 1];
      assert who == init + [last] && last !in init;
      TotalOfTwo(keys, weigh, v, init, i, j);
    }
  }

  lemma UnanimityCredit(keys: seq<Key>, weigh: Weighing, i: Key, j: Key, c: real)
    requires Distinct(keys) && i in keys && j in keys && Fair(weigh, |keys|)
    ensures Credit(weigh, keys, Unanimity({i, j}, c), i) == if i == j then c else c / 2.0
  {
    var v := Unanimity({i, j}, c);
    forall k | k in keys && k != i && k != j ensures Credit(weigh, keys, v, k) == 0.0 {
      forall s | s <= ToSet(keys) - {k} ensures NoEffectAt(v, k, s) {
        assert (i in s + {k} <==> i in s) && (j in s + {k} <==> j in s);
      }
      NullInfluence(keys, weigh, v, k);
    }
    TotalOfTwo(keys, weigh, v, keys, i, j);
    Efficiency(keys, weigh, v);
    if i != j {
      forall s | s <= ToSet(keys) - {i, j} ensures SameEffectAt(v, i, j, s) {
        assert i !in s && j !in s && j !in s + {i} && i !in s + {j};
      }
      Symmetry(keys, weigh, v, i, j);
    }
  }

  function WeighedWhen(weigh: Weighing, j: Option<Key>, c: real): Game {
    s => if j.None? || j.value in s then weigh(|s|, c) else 0.0
  }

  /** A constant weighed over all coalitions of others gives itself back, over those with a given j half. */
  lemma WeighedConstant(keys: seq<Key>, weigh: Weighing, i: Key, j: Option<Key>, c: real)
    requires Distinct(keys) && i in keys && Fair(weigh, |keys|)
    requires j.Some? ==> j.value in keys && j.value != i
    ensures SubsetSum(Without(keys, i), WeighedWhen(weigh, j, c)) == if j.None? then c else c / 2.0
  {
    var k := if j.None? then i else j.value;
    var v := Unanimity({i, k}, c);
    UnanimityCredit(keys, weigh, i, k, c);
    forall s | s <= ToSet(Without(keys, i))
      ensures AgreeAt(Marginal(weigh, v, i), WeighedWhen(weigh, j, c), s)
    {
      assert i !in s;
      assert AdditiveAt(weigh, |s|, 0.0, 0.0);
      assert v(s) == 0.0 && v(s + {i}) == if j.None? || k in s then c else 0.0;
    }
    SubsetSumSame(Without(keys, i), Marginal(weigh, v, i), WeighedWhen(weigh, j, c));
  }

  type Solo = Key -> real
  type Inter = set<Key> -> real

  /** The interactions of i with the members of s among `others`. */
  function InterSum(others: seq<Key>, b: Inter, i: Key, s: set<Key>): real {
    if others == [] then 0.0
    else if others[0] !in s then InterSum(others[1..], b, i, s)
    else InterSum(others[1..], b, i, s) + b({i, others[0]})
  }

  /** The game whose effects are a solo term per influence and an interaction per pair. */
  function PairwiseValue(keys: seq<Key>, a: Solo, b: Inter, s: set<Key>): real {
    if keys == [] then 0.0
    else if keys[0] !in s then PairwiseValue(keys[1..], a, b, s)
    else PairwiseValue(keys[1..], a, b, s) + (a(keys[0]) + InterSum(keys[1..], b, keys[0], s))
  }

  function PairwiseGame(keys: seq<Key>, a: Solo, b: Inter): Game {
    s => PairwiseValue(keys, a, b, s)
  }

  lemma {:induction false} InterSumGrows(others: seq<Key>, b: Inter, k: Key, s: set<Key>, i: Key)
    requires Distinct(others) && i !in s
    ensures InterSum(others, b, k, s + {i})
         == InterSum(others, b, k, s) + if i in others then b({k, i}) else 0.0
  {
    if others != [] {
      assert others == [others[0]] + others[1..];
      InterSumGrows(others[1..], b, k, s, i);
    }
  }

  lemma {:induction false} PairwiseMarginal(keys: seq<Key>, a: Solo, b: Inter, s: set<Key>, i: Key)
    requires Distinct(keys) && i !in s
    ensures PairwiseValue(keys, a, b, s + {i})
         == PairwiseValue(keys, a, b, s)
            + if i in keys then a(i) + InterSum(Without(keys, i), b, i, s) else 0.0
  {
    if keys != [] {
      var k, rest := keys[0], keys[1..];
      assert keys == [k] + rest;
      PairwiseMarginal(rest, a, b, s, i);
      InterSumGrows(rest, b, k, s, i);
      if k != i {
        assert Without(keys, i) == [k] + Without(rest, i);
        assert ([k] + Without(rest, i))[1..] == Without(rest, i);
        assert {k, i} == {i, k};
      } else {
        WithoutAbsent(rest, i);
        PairwiseAbsent(rest, a, b, s, i);
      }
    }
  }

  lemma PairwiseAbsent(keys: seq<Key>, a: Solo, b: Inter, s: set<Key>, i: Key)
    requires Distinct(keys) && i !in s && i !in keys
    ensures InterSum(keys, b, i, s + {i}) == InterSum(keys, b, i, s)
  {
    InterSumGrows(keys, b, i, s, i);
  }

  function InterTotal(others: seq<Key>, b: Inter, i: Key): real {
    if others == [] then 0.0 else InterTotal(others[1..], b, i) + b({i, others[0]})
  }

  function InterGame(weigh: Weighing, others: seq<Key>, b: Inter, i: Key): Game {
    s => weigh(|s|, InterSum(others, b, i, s))
  }

  /** Averaged over all coalitions, each interaction of i counts one half. */
  lemma {:induction false} InterHalved(keys: seq<Key>, weigh: Weighing, others: seq<Key>, b: Inter, i: Key)
    requires Distinct(keys) && i in keys && Fair(weigh, |keys|)
    requires forall j :: j in others ==> j in keys && j != i
    ensures SubsetSum(Without(keys, i), InterGame(weigh, others, b, i)) == InterTotal(others, b, i) / 2.0
  {
    var base, f := Without(keys, i), InterGame(weigh, others, b, i);
    if others == [] {
      forall s ensures AddsUpAt(f, f, f, s) {
        InterGameStep(keys, weigh, others, b, i, s);
      }
      SubsetSumAdd(base, f, f, f);
    } else {
      var j, rest := others[0], others[1..];
      var c := b({i, j});
      InterHalved(keys, weigh, rest, b, i);
      WeighedConstant(keys, weigh, i, Some(j), c);
      var g, h := InterGame(weigh, rest, b, i), WeighedWhen(weigh, Some(j), c);
      forall s | s <= ToSet(base) ensures AddsUpAt(g, h, f, s) {
        InterGameStep(keys, weigh, others, b, i, s);
      }
      SubsetSumAdd(base, g, h, f);
    }
  }

  lemma InterGameStep(keys: seq<Key>, weigh: Weighing, others: seq<Key>, b: Inter, i: Key, s: set<Key>)
    requires Fair(weigh, |keys|)
    ensures InterGame(weigh, others, b, i)(s)
         == if others == [] then 0.0
            else InterGame(weigh, others[1..], b, i)(s)
                 + WeighedWhen(weigh, Some(others[0]), b({i, others[0]}))(s)
  {
    assert InterGame(weigh, others, b, i)(s) == weigh(|s|, InterSum(others, b, i, s));
    if others == [] {
      assert AdditiveAt(weigh, |s|, 0.0, 0.0);
    } else {
      assert AdditiveAt(weigh, |s|, InterSum(others[1..], b, i, s), b({i, others[0]}));
      assert InterGame(weigh, others[1..], b, i)(s) == weigh(|s|, InterSum(others[1..], b, i, s));
    }
  }

  /** The credit in such a game: the solo term plus half the SUM of the interactions. */
  lemma CreditOfPairwise(keys: seq<Key>, weigh: Weighing, a: Solo, b: Inter, i: Key)
    requires Distinct(keys) && i in keys && Fair(weigh, |keys|)
    ensures Credit(weigh, keys, PairwiseGame(keys, a, b), i)
         == a(i) + InterTotal(Without(keys, i), b, i) / 2.0
  {
    var others, v := Without(keys, i), PairwiseGame(keys, a, b);
    var f, g, h := Marginal(weigh, v, i), WeighedWhen(weigh, None, a(i)), InterGame(weigh, others, b, i);
    forall s | s <= ToSet(others) ensures AddsUpAt(g, h, f, s) {
      PairwiseMarginalParts(keys, weigh, a, b, i, s);
    }
    SubsetSumAdd(others, g, h, f);
    WeighedConstant(keys, weigh, i, None, a(i));
    InterHalved(keys, weigh, others, b, i);
  }

  lemma PairwiseMarginalParts(keys: seq<Key>, weigh: Weighing, a: Solo, b: Inter, i: Key, s: set<Key>)
    requires Distinct(keys) && i in keys && i !in s && Fair(weigh, |keys|)
    ensures AddsUpAt(WeighedWhen(weigh, None, a(i)), InterGame(weigh, Without(keys, i), b, i),
                     Marginal(weigh, PairwiseGame(keys, a, b), i), s)
  {
    PairwiseMarginal(keys, a, b, s, i);
    MarginalOfSum(weigh, |keys|, PairwiseGame(keys, a, b), i, s, a(i), InterSum(Without(keys, i), b, i, s));
  }

  lemma MarginalOfSum(weigh: Weighing, n: nat, v: Game, i: Key, s: set<Key>, x: real, y: real)
    requires Fair(weigh, n) && v(s + {i}) == v(s) + (x + y)
    ensures Marginal(weigh, v, i)(s) == weigh(|s|, x) + weigh(|s|, y)
  {
    assert v(s + {i}) - v(s) == x + y;
    assert AdditiveAt(weigh, |s|, x, y);
  }

  // --------------------------------------------------------- the two estimators

  type Effects = map<set<Key>, real>

  /** The empty coalition changes nothing and is never looked up. */
  function GameOf(values: Effects): Game {
    s => if s == {} || s !in values then 0.0 else values[s]
  }

  ghost predicate Complete(keys: seq<Key>, values: Effects) {
    forall s :: s != {} && s <= ToSet(keys) ==> s in values
  }

  function Shapley(keys: seq<Key>, values: Effects, i: Key): real {
    Credit(WeighingFor(|keys|), keys, GameOf(values), i)
  }

  /** The two lookups for the marginal contribution of i to s succeed. */
  predicate Known(values: Effects, s: set<Key>, i: Key) {
    s + {i} in values && (s != {} ==> s in values)
  }

  /** Every lookup that the value of i needs succeeds. */
  ghost predicate Measured(values: Effects, others: seq<Key>, i: Key, ranks: nat) {
    forall s :: s <= ToSet(others) && |s| < ranks ==> Known(values, s, i)
  }

  // What exact_shapley looks up, in its order.

  function Lookups(combos: seq<set<Key>>, i: Key): seq<set<Key>> {
    if combos == [] then []
    else
      var s := combos[|combos| - 1];
      Lookups(combos[..|combos| - 1], i) + if s == {} then [{i}] else [s, s + {i}]
  }

  function LookupsOf(others: seq<Key>, i: Key, ranks: nat): seq<set<Key>> {
    if ranks == 0 then []
    else LookupsOf(others, i, ranks - 1) + Lookups(Combinations(others, ranks - 1), i)
  }

  /** The lookups for the first n influences. */
  function AllLookups(keys: seq<Key>, n: nat): seq<set<Key>>
    requires n <= |keys|
  {
    if n == 0 then []
    else AllLookups(keys, n - 1) + LookupsOf(Without(keys, keys[n - 1]), keys[n - 1], |keys|)
  }

  predicate IsFirst(values: Effects, lookups: seq<set<Key>>, k: int, s: set<Key>) {
    0 <= k < |lookups| && lookups[k] == s && forall j :: 0 <= j < k ==> lookups[j] in values
  }

  /** The first coalition looked up that was not measured. */
  function FirstMissing(values: Effects, lookups: seq<set<Key>>): Option<set<Key>> {
    if lookups == [] then None
    else if lookups[0] !in values then Some(lookups[0])
    else FirstMissing(values, lookups[1..])
  }

  lemma {:induction false} FirstMissingIs(values: Effects, lookups: seq<set<Key>>)
    ensures FirstMissing(values, lookups).None? <==> forall s :: s in lookups ==> s in values
    ensures FirstMissing(values, lookups).Some? ==>
      var s := FirstMissing(values, lookups).value; s !in values && exists k :: IsFirst(values, lookups, k, s)
  {
    if lookups != [] {
      var rest := lookups[1..];
      assert lookups == [lookups[0]] + rest;
      FirstMissingIs(values, rest);
      if lookups[0] !in values {
        assert IsFirst(values, lookups, 0, lookups[0]);
      } else if FirstMissing(values, rest).Some? {
        var s := FirstMissing(values, rest).value;
        var k :| IsFirst(values, rest, k, s);
        assert forall j :: 0 < j < k + 1 ==> lookups[j] == rest[j - 1];
        assert IsFirst(values, lookups, k + 1, s);
      }
    }
  }

  /** No lookup before these was missing, so the first that is missing is among these. */
  lemma {:induction false} MissingAfter(values: Effects, before: seq<set<Key>>, these: seq<set<Key>>)
    requires FirstMissing(values, before).None?
    ensures FirstMissing(values, before + these) == FirstMissing(values, these)
  {
    if before == [] {
      assert before + these == these;
    } else {
      MissingAfter(values, before[1..], these);
      assert (before + these)[1..] == before[1..] + these;
    }
  }

  /** Lookups after one that is missing are never made. */
  lemma {:induction false} MissingBefore(values: Effects, before: seq<set<Key>>, these: seq<set<Key>>)
    requires FirstMissing(values, before).Some?
    ensures FirstMissing(values, before + these) == FirstMissing(values, before)
  {
    assert (before + these)[0] == before[0];
    if before[0] in values {
      MissingBefore(values, before[1..], these);
      assert (before + these)[1..] == before[1..] + these;
    }
  }

  /** exact_shapley; the error is the KeyError on the first coalition looked up that was not measured. */
  method ExactShapley(keys: seq<Key>, values: Effects) returns (phi: Result<map<Key, real>, set<Key>>)
    requires Distinct(keys)
    ensures phi.Success? <==> Complete(keys, values)
    ensures phi.Success? ==> phi.value.Keys == ToSet(keys)
    ensures phi.Success? ==> forall i :: i in keys ==> phi.value[i] == Shapley(keys, values, i)
    ensures phi.Failure? ==> phi.error != {} && phi.error <= ToSet(keys)
    ensures phi.Failure? ==> phi.error !in values
    ensures phi.Failure? ==> FirstMissing(values, AllLookups(keys, |keys|)) == Some(phi.error)
  {
    NoLookups(keys, values, "");
    hide FirstMissing, AllLookups, LookupsOf, Measured, Shapley, Complete, Without, Distinct;
    var found: map<Key, real> := map[];
    for k := 0 to |keys|
      invariant found.Keys == ToSet(keys[..k])
      invariant forall i :: i in found ==> found[i] == Shapley(keys, values, i)
      invariant forall j :: 0 <= j < k ==> Measured(values, Without(keys, keys[j]), keys[j], |keys|)
      invariant FirstMissing(values, AllLookups(keys, k)).None?
    {
      var i := keys[k];
      var total := ShapleyOf(keys, values, i);
      NextLookups(keys, values, k);
      if total.Failure? {
        LaterLookups(keys, values, k + 1, |keys|);
        NotComplete(keys, values, total.error);
        return Failure(total.error);
      }
      found := found[i := total.value];
      assert keys[..k + 1] == keys[..k] + [i];
      ToSetAppend(keys[..k], i);
    }
    assert keys[..|keys|] == keys;
    MeasuredIsComplete(keys, values);
    return Success(found);
  }

  lemma NotComplete(keys: seq<Key>, values: Effects, s: set<Key>)
    requires s != {} && s <= ToSet(keys) && s !in values
    ensures !Complete(keys, values)
  {
  }

  lemma NextLookups(keys: seq<Key>, values: Effects, k: nat)
    requires k < |keys| && FirstMissing(values, AllLookups(keys, k)).None?
    ensures FirstMissing(values, AllLookups(keys, k + 1))
         == FirstMissing(values, LookupsOf(Without(keys, keys[k]), keys[k], |keys|))
  {
    hide FirstMissing, LookupsOf;
    MissingAfter(values, AllLookups(keys, k), LookupsOf(Without(keys, keys[k]), keys[k], |keys|));
  }

  lemma {:induction false} LaterLookups(keys: seq<Key>, values: Effects, k: nat, n: nat)
    requires k <= n <= |keys| && FirstMissing(values, AllLookups(keys, k)).Some?
    ensures FirstMissing(values, AllLookups(keys, n)) == FirstMissing(values, AllLookups(keys, k))
  {
    hide FirstMissing, LookupsOf;
    if k < n {
      LaterLookups(keys, values, k, n - 1);
      MissingBefore(values, AllLookups(keys, n - 1), LookupsOf(Without(keys, keys[n - 1]), keys[n - 1], |keys|));
    }
  }

  lemma NextRank(others: seq<Key>, values: Effects, i: Key, r: nat)
    requires FirstMissing(values, LookupsOf(others, i, r)).None?
    ensures FirstMissing(values, LookupsOf(others, i, r + 1))
         == FirstMissing(values, Lookups(Combinations(others, r), i))
  {
    hide FirstMissing, Lookups, Combinations;
    MissingAfter(values, LookupsOf(others, i, r), Lookups(Combinations(others, r), i));
  }

  lemma {:induction false} LaterRanks(others: seq<Key>, values: Effects, i: Key, r: nat, ranks: nat)
    requires r <= ranks && FirstMissing(values, LookupsOf(others, i, r)).Some?
    ensures FirstMissing(values, LookupsOf(others, i, ranks)) == FirstMissing(values, LookupsOf(others, i, r))
  {
    hide FirstMissing, Lookups, Combinations;
    if r < ranks {
      LaterRanks(others, values, i, r, ranks - 1);
      MissingBefore(values, LookupsOf(others, i, ranks - 1), Lookups(Combinations(others, ranks - 1), i));
    }
  }

  /** Of the two lookups for s, the one that fails first. */
  function Absent(values: Effects, s: set<Key>, i: Key): set<Key> {
    if s != {} && s !in values then s else s + {i}
  }

  lemma NextCombination(combos: seq<set<Key>>, values: Effects, i: Key, c: nat)
    requires c < |combos| && FirstMissing(values, Lookups(combos[..c], i)).None?
    ensures FirstMissing(values, Lookups(combos[..c + 1], i))
         == if Known(values, combos[c], i) then None else Some(Absent(values, combos[c], i))
  {
    var s := combos[c];
    var these := if s == {} then [{i}] else [s, s + {i}];
    assert combos[..c + 1][..c] == combos[..c];
    MissingAfter(values, Lookups(combos[..c], i), these);
    assert s == {} ==> s + {i} == {i};
    assert these[1..] == if s == {} then [] else [s + {i}];
    assert [s + {i}][1..] == [];
    assert FirstMissing(values, [s + {i}]) == if s + {i} in values then None else Some(s + {i});
  }

  lemma {:induction false} NoneMissing(combos: seq<set<Key>>, values: Effects, i: Key, c: nat)
    requires c <= |combos| && forall s :: s in combos[..c] ==> Known(values, s, i)
    ensures FirstMissing(values, Lookups(combos[..c], i)).None?
  {
    if c > 0 {
      assert combos[c - 1] in combos[..c];
      assert combos[..c] == combos[..c - 1] + [combos[c - 1]];
      NoneMissing(combos, values, i, c - 1);
      NextCombination(combos, values, i, c - 1);
    } else {
      assert combos[..c] == [];
    }
  }

  lemma MissingAt(combos: seq<set<Key>>, values: Effects, i: Key, at: nat)
    requires at <= |combos| && forall s :: s in combos[..at] ==> Known(values, s, i)
    requires at < |combos| ==> !Known(values, combos[at], i)
    ensures FirstMissing(values, Lookups(combos, i))
         == if at < |combos| then Some(Absent(values, combos[at], i)) else None
  {
    hide FirstMissing, Lookups, Known, Absent;
    NoneMissing(combos, values, i, at);
    if at < |combos| {
      NextCombination(combos, values, i, at);
      LaterCombinations(combos, values, i, at + 1);
    } else {
      assert combos[..at] == combos;
    }
  }

  lemma {:induction false} LaterCombinations(combos: seq<set<Key>>, values: Effects, i: Key, c: nat)
    requires c <= |combos| && FirstMissing(values, Lookups(combos[..c], i)).Some?
    ensures FirstMissing(values, Lookups(combos, i)) == FirstMissing(values, Lookups(combos[..c], i))
  {
    hide FirstMissing;
    if c < |combos| {
      var init := combos[..|combos| - 1];
      assert init[..c] == combos[..c];
      LaterCombinations(init, values, i, c);
      var s := combos[|combos| - 1];
      MissingBefore(values, Lookups(init, i), if s == {} then [{i}] else [s, s + {i}]);
    } else {
      assert combos[..c] == combos;
    }
  }

  lemma MeasuredIsComplete(keys: seq<Key>, values: Effects)
    requires Distinct(keys)
    requires forall i :: i in keys ==> Measured(values, Without(keys, i), i, |keys|)
    ensures Complete(keys, values)
  {
    forall s | s != {} && s <= ToSet(keys) ensures s in values {
      var i :| i in s;
      CoalitionMeasured(keys, values, s, i);
    }
  }

  lemma CoalitionMeasured(keys: seq<Key>, values: Effects, s: set<Key>, i: Key)
    requires Distinct(keys) && i in s && s <= ToSet(keys)
    requires Measured(values, Without(keys, i), i, |keys|)
    ensures s in values
  {
    var rest := s - {i};
    assert |rest| < |keys| by {
      DistinctSize(keys);
      SmallerSubset(s, ToSet(keys));
    }
    assert rest <= ToSet(Without(keys, i)) && Known(values, rest, i);
    assert s == rest + {i};
  }

  function ErrorOf(r: Result<real, set<Key>>): Option<set<Key>> {
    if r.Failure? then Some(r.error) else None
  }

  /** The body of the outer loop of exact_shapley. */
  method ShapleyOf(keys: seq<Key>, values: Effects, i: Key) returns (total: Result<real, set<Key>>)
    requires Distinct(keys) && i in keys
    ensures total.Success? ==> total.value == Shapley(keys, values, i)
    ensures total.Success? ==> Measured(values, Without(keys, i), i, |keys|)
    ensures total.Failure? ==> total.error != {} && total.error <= ToSet(keys)
    ensures total.Failure? ==> total.error !in values
    ensures FirstMissing(values, LookupsOf(Without(keys, i), i, |keys|)) == ErrorOf(total)
  {
    hide FirstMissing, LookupsOf;
    WithoutDistinct(keys, i);
    total := WeightedMarginals(WeighingFor(|keys|), Without(keys, i), values, i);
  }

  method WeightedMarginals(weigh: Weighing, others: seq<Key>, values: Effects, i: Key)
    returns (total: Result<real, set<Key>>)
    requires Distinct(others) && i !in others
    ensures total.Success? ==> total.value == SubsetSum(others, Marginal(weigh, GameOf(values), i))
    ensures total.Success? ==> Measured(values, others, i, |others| + 1)
    ensures total.Failure? ==> total.error != {} && total.error <= ToSet(others) + {i}
    ensures total.Failure? ==> total.error !in values
    ensures FirstMissing(values, LookupsOf(others, i, |others| + 1)) == ErrorOf(total)
  {
    NoLookups(others, values, i);
    hide FirstMissing, Lookups, Combinations;
    var sum := 0.0;
    ghost var f := Marginal(weigh, GameOf(values), i);
    for r := 0 to |others| + 1
      invariant sum == RankSum(others, r, f)
      invariant Measured(values, others, i, r)
      invariant FirstMissing(values, LookupsOf(others, i, r)).None?
    {
      var rank := MarginalsOfRank(weigh, others, values, i, r);
      NextRank(others, values, i, r);
      if rank.Failure? {
        LaterRanks(others, values, i, r + 1, |others| + 1);
        return rank;
      }
      sum := sum + rank.value;
    }
    RankSumIsSubsetSum(others, f);
    return Success(sum);
  }

  lemma MarginalOfEffects(weigh: Weighing, values: Effects, i: Key, s: set<Key>, gain: real)
    requires Known(values, s, i)
    requires gain == values[s + {i}] - if s == {} then 0.0 else values[s]
    ensures Marginal(weigh, GameOf(values), i)(s) == weigh(|s|, gain)
  {
    var t := s + {i};
    assert i in t;
    assert GameOf(values)(t) == values[t];
  }

  /** The two inner loops of exact_shapley, for the coalitions of size r. */
  method MarginalsOfRank(weigh: Weighing, others: seq<Key>, values: Effects, i: Key, r: nat)
    returns (sum: Result<real, set<Key>>)
    requires Distinct(others) && i !in others
    ensures sum.Success? ==>
      sum.value == SumSeq(Combinations(others, r), Marginal(weigh, GameOf(values), i))
    ensures sum.Success? ==> forall s :: IsCombination(others, r, s) ==> Known(values, s, i)
    ensures sum.Failure? ==> sum.error != {} && sum.error <= ToSet(others) + {i}
    ensures sum.Failure? ==> sum.error !in values
    ensures FirstMissing(values, Lookups(Combinations(others, r), i)) == ErrorOf(sum)
  {
    hide FirstMissing, Lookups, Combinations;
    var combos := Combinations(others, r);
    CombinationsAreSubsets(others, r);
    assert forall s :: s in combos ==> IsCombination(others, r, s);
    ghost var at;
    sum, at := SumOfMarginals(weigh, combos, values, i, r);
    MissingAt(combos, values, i, at);
    assert combos[..|combos|] == combos;
    assert sum.Failure? ==> IsCombination(others, r, combos[at]);
  }

  lemma NoLookups(keys: seq<Key>, values: Effects, i: Key)
    ensures Lookups([], i) == LookupsOf(keys, i, 0) == AllLookups(keys, 0) == [] && FirstMissing(values, []).None?
  {
  }

  lemma KnownIs(values: Effects, s: set<Key>, i: Key)
    ensures Known(values, s, i) <==> (s == {} || s in values) && s + {i} in values
    ensures Absent(values, s, i) == if s != {} && s !in values then s else s + {i}
  {
  }

  /** The innermost loop; `at` is the place of the coalition where it stops. */
  method SumOfMarginals(weigh: Weighing, combos: seq<set<Key>>, values: Effects, i: Key, r: nat)
    returns (sum: Result<real, set<Key>>, ghost at: nat)
    requires forall s :: s in combos ==> |s| == r && i !in s
    ensures sum.Success? ==> sum.value == SumSeq(combos, Marginal(weigh, GameOf(values), i))
    ensures sum.Success? <==> forall s :: s in combos ==> Known(values, s, i)
    ensures sum.Failure? ==> sum.error !in values
    ensures at <= |combos| && forall s :: s in combos[..at] ==> Known(values, s, i)
    ensures if sum.Success? then at == |combos| else at < |combos| && !Known(values, combos[at], i)
    ensures sum.Failure? ==> sum.error == Absent(values, combos[at], i)
  {
    hide Marginal, GameOf, Known, Absent;
    var total := 0.0;
    ghost var f := Marginal(weigh, GameOf(values), i);
    at := |combos|;
    for c := 0 to |combos|
      invariant total == SumSeq(combos[..c], f)
      invariant forall s :: s in combos[..c] ==> Known(values, s, i)
    {
      var s := combos[c];
      assert s in combos;
      KnownIs(values, s, i);
      if s != {} && s !in values {
        return Failure(s), c;
      }
      if s + {i} !in values {
        return Failure(s + {i}), c;
      }
      var before := if s == {} then 0.0 else values[s];
      var gain := values[s + {i}] - before;
      MarginalOfEffects(weigh, values, i, s, gain);
      total := total + weigh(r, gain);
      assert combos[..c + 1] == combos[..c] + [s];
      SumSeqAppend(combos[..c], s, f);
    }
    assert combos[..|combos|] == combos;
    sum := Success(total);
  }

  function Total(keys: seq<Key>, x: map<Key, real>): real
    requires forall k :: k in keys ==> k in x
  {
    if keys == [] then 0.0 else Total(keys[..|keys| - 1], x) + x[keys[|keys| - 1]]
  }

  datatype Gap = Gap(jointValue: real, sumSolo: real, gap: real, ratio: Option<real>)

  function InteractionGap(joint: real, keys: seq<Key>, solo: map<Key, real>): (g: Gap)
    requires forall k :: k in keys ==> k in solo
  {
    var sum := Total(keys, solo);
    Gap(joint, sum, joint - sum, if sum == 0.0 then None else Some((joint - sum) / sum))
  }

  lemma {:induction false} TotalIsCreditTotal(keys: seq<Key>, values: Effects, phi: map<Key, real>, who: seq<Key>)
    requires Distinct(keys) && forall i :: i in who ==> i in phi && phi[i] == Shapley(keys, values, i)
    ensures Total(who, phi) == CreditTotal(WeighingFor(|keys|), keys, GameOf(values), who)
  {
    if who != [] {
      TotalIsCreditTotal(keys, values, phi, who[..|who| - 1]);
    }
  }

  /**
   The exact values add up to the joint effect, whatever was measured, so the
   interaction gap is all that separates them from the solo effects.
   */
  lemma ShapleySumsToJoint(keys: seq<Key>, values: Effects, phi: map<Key, real>, solo: map<Key, real>)
    requires Distinct(keys) && keys != [] && Complete(keys, values)
    requires phi.Keys == solo.Keys == ToSet(keys)
    requires forall i :: i in keys ==> phi[i] == Shapley(keys, values, i)
    ensures ToSet(keys) in values && Total(keys, phi) == values[ToSet(keys)]
    ensures InteractionGap(values[ToSet(keys)], keys, solo).gap == Total(keys, phi) - Total(keys, solo)
  {
    assert keys[0] in ToSet(keys);
    WeighingIsFair(|keys|);
    Efficiency(keys, WeighingFor(|keys|), GameOf(values));
    TotalIsCreditTotal(keys, values, phi, keys);
  }

  /** The ratio says by which factor the solo effects overcount the exact values. */
  lemma RatioIsOvercounting(keys: seq<Key>, joint: real, solo: map<Key, real>)
    requires forall k :: k in keys ==> k in solo
    ensures InteractionGap(joint, keys, solo).ratio.Some? <==> Total(keys, solo) != 0.0
    ensures Total(keys, solo) != 0.0 ==>
      (1.0 + InteractionGap(joint, keys, solo).ratio.value) * Total(keys, solo) == joint
  {
    if Total(keys, solo) != 0.0 {
      Undivide(joint - Total(keys, solo), Total(keys, solo));
    }
  }

  lemma Undivide(x: real, d: real)
    requires d != 0.0
    ensures (1.0 + x / d) * d == d + x
  {
    assert x / d * d == x;
  }

  lemma ShapleyOfNull(keys: seq<Key>, values: Effects, i: Key)
    requires Distinct(keys) && i in keys
    requires forall s :: s <= ToSet(keys) - {i} ==> NoEffectAt(GameOf(values), i, s)
    ensures Shapley(keys, values, i) == 0.0
  {
    WeighingIsFair(|keys|);
    NullInfluence(keys, WeighingFor(|keys|), GameOf(values), i);
  }

  lemma ShapleyOfInterchangeable(keys: seq<Key>, values: Effects, i: Key, j: Key)
    requires Distinct(keys) && i in keys && j in keys && i != j
    requires forall s :: s <= ToSet(keys) - {i, j} ==> SameEffectAt(GameOf(values), i, j, s)
    ensures Shapley(keys, values, i) == Shapley(keys, values, j)
  {
    Symmetry(keys, WeighingFor(|keys|), GameOf(values), i, j);
  }

  function MeasuredSum(partners: seq<Key>, solo: map<Key, real>, pairs: Effects, i: Key): real
    requires i in solo && forall j :: j in partners ==> j in solo
  {
    if partners == [] then 0.0
    else
      var init, j := partners[..|partners| - 1], partners[|partners| - 1];
      MeasuredSum(init, solo, pairs, i)
      + if {i, j} in pairs then pairs[{i, j}] - solo[i] - solo[j] else 0.0
  }

  function MeasuredCount(partners: seq<Key>, pairs: Effects, i: Key): nat {
    if partners == [] then 0
    else
      var init, j := partners[..|partners| - 1], partners[|partners| - 1];
      MeasuredCount(init, pairs, i) + if {i, j} in pairs then 1 else 0
  }

  /** The solo effect of i plus half the MEAN of its interactions that were measured. */
  function TaylorValue(keys: seq<Key>, solo: map<Key, real>, pairs: Effects, i: Key): real
    requires Distinct(keys) && i in keys && forall k :: k in keys ==> k in solo
  {
    var count := MeasuredCount(Without(keys, i), pairs, i);
    if count == 0 then solo[i]
    else solo[i] + Part(1, 2 * count, MeasuredSum(Without(keys, i), solo, pairs, i))
  }

  method ShapleyTaylor(keys: seq<Key>, solo: map<Key, real>, pairs: Effects)
    returns (phi: map<Key, real>, nPartners: map<Key, nat>)
    requires Distinct(keys) && forall k :: k in keys ==> k in solo
    ensures phi.Keys == nPartners.Keys == ToSet(keys)
    ensures forall i :: i in keys ==> nPartners[i] == MeasuredCount(Without(keys, i), pairs, i)
    ensures forall i :: i in keys ==> phi[i] == TaylorValue(keys, solo, pairs, i)
  {
    phi, nPartners := map[], map[];
    for k := 0 to |keys|
      invariant phi.Keys == nPartners.Keys == ToSet(keys[..k])
      invariant forall i :: i in phi ==> i in keys && phi[i] == TaylorValue(keys, solo, pairs, i)
      invariant forall i :: i in phi ==> nPartners[i] == MeasuredCount(Without(keys, i), pairs, i)
    {
      var i := keys[k];
      var value, count := MeanInteraction(keys, solo, pairs, i);
      phi := phi[i := value];
      nPartners := nPartners[i := count];
      assert keys[..k + 1] == keys[..k] + [i];
      ToSetAppend(keys[..k], i);
    }
    assert keys[..|keys|] == keys;
  }

  /** The body of the outer loop of shapley_taylor. */
  method MeanInteraction(keys: seq<Key>, solo: map<Key, real>, pairs: Effects, i: Key)
    returns (value: real, count: nat)
    requires Distinct(keys) && i in keys && forall k :: k in keys ==> k in solo
    ensures value == TaylorValue(keys, solo, pairs, i)
    ensures count == MeasuredCount(Without(keys, i), pairs, i)
  {
    var partners, sum := Without(keys, i), 0.0;
    count := 0;
    for p := 0 to |partners|
      invariant sum == MeasuredSum(partners[..p], solo, pairs, i)
      invariant count == MeasuredCount(partners[..p], pairs, i)
    {
      var j := partners[p];
      assert partners[..p + 1][..p] == partners[..p];
      if {i, j} in pairs {
        sum, count := sum + (pairs[{i, j}] - solo[i] - solo[j]), count + 1;
      }
    }
    assert partners[..|partners|] == partners;
    if count == 0 {
      value := solo[i];
    } else {
      HalveMean(sum, count);
      value := solo[i] + sum / count as real / 2.0;
    }
  }

  lemma UnitPart(d: nat, x: real, q: real)
    requires d > 0 && q * d as real == x
    ensures Part(1, d, x) == q
  {
    var u := 1 as real / d as real;
    assert u * d as real == 1.0;
    assert u * x == (u * d as real) * q;
  }

  lemma HalveMean(x: real, n: nat)
    requires n > 0
    ensures x / n as real / 2.0 == Part(1, 2 * n, x)
  {
    var q := x / n as real;
    assert q * n as real == x;
    assert q / 2.0 * (2 * n) as real == q * n as real;
    UnitPart(2 * n, x, q / 2.0);
  }

  // ------------------------------------- when the approximation is the exact value

  /** Every pair was measured, and there are only solo effects and interactions of pairs. */
  ghost predicate OnlyPairwise(keys: seq<Key>, a: Solo, b: Inter, values: Effects, solo: map<Key, real>, pairs: Effects)
  {
    && (forall s :: s <= ToSet(keys) ==> AgreeAt(GameOf(values), PairwiseGame(keys, a, b), s))
    && (forall k :: k in keys ==> k in solo && solo[k] == GameOf(values)({k}))
    && (forall k, l :: k in keys && l in keys && k != l ==>
          {k, l} in pairs && pairs[{k, l}] == GameOf(values)({k, l}))
  }

  lemma {:induction false} PairwiseOutside(keys: seq<Key>, a: Solo, b: Inter, s: set<Key>)
    requires s !! ToSet(keys)
    ensures PairwiseValue(keys, a, b, s) == 0.0
  {
    if keys != [] {
      assert ToSet(keys) == {keys[0]} + ToSet(keys[1..]);
      PairwiseOutside(keys[1..], a, b, s);
    }
  }

  lemma {:induction false} InterSumOutside(others: seq<Key>, b: Inter, i: Key, s: set<Key>)
    requires s !! ToSet(others)
    ensures InterSum(others, b, i, s) == 0.0
  {
    if others != [] {
      assert others[0] in ToSet(others);
      assert ToSet(others[1..]) <= ToSet(others);
      InterSumOutside(others[1..], b, i, s);
    }
  }

  /** The interaction read off a pair and its two members is the interaction of the game. */
  lemma PairInteraction(keys: seq<Key>, a: Solo, b: Inter, i: Key, j: Key)
    requires Distinct(keys) && i in keys && j in keys && i != j
    ensures PairwiseValue(keys, a, b, {i}) == a(i)
    ensures PairwiseValue(keys, a, b, {i, j}) == a(i) + a(j) + b({i, j})
  {
    PairwiseOutside(keys, a, b, {});
    PairwiseMarginal(keys, a, b, {}, i);
    InterSumOutside(Without(keys, i), b, i, {});
    assert {} + {i} == {i};
    PairwiseMarginal(keys, a, b, {i}, j);
    assert {i} + {j} == {i, j} && {j, i} == {i, j};
    InterSumOutside(Without(keys, j), b, j, {});
    WithoutDistinct(keys, j);
    InterSumGrows(Without(keys, j), b, j, {}, i);
  }

  lemma {:induction false} InterTotalSplit(left: seq<Key>, right: seq<Key>, b: Inter, i: Key)
    ensures InterTotal(left + right, b, i) == InterTotal(left, b, i) + InterTotal(right, b, i)
  {
    if left == [] {
      assert left + right == right;
    } else {
      assert (left + right)[1..] == left[1..] + right;
      InterTotalSplit(left[1..], right, b, i);
    }
  }

  lemma {:induction false} AllMeasured(keys: seq<Key>, a: Solo, b: Inter, values: Effects, solo: map<Key, real>,
                                       pairs: Effects, i: Key, partners: seq<Key>)
    requires Distinct(keys) && i in keys && OnlyPairwise(keys, a, b, values, solo, pairs)
    requires forall j :: j in partners ==> j in keys && j != i
    ensures MeasuredCount(partners, pairs, i) == |partners|
    ensures MeasuredSum(partners, solo, pairs, i) == InterTotal(partners, b, i)
  {
    if partners != [] {
      var init, j := partners[..|partners| - 1], partners[|partners| - 1];
      AllMeasured(keys, a, b, values, solo, pairs, i, init);
      assert partners == init + [j];
      InterTotalSplit(init, [j], b, i);
      assert InterTotal([j], b, i) == b({i, j}) by { assert [j][1..] == []; }
      OneInteraction(keys, a, b, values, solo, pairs, i, j);
    }
  }

  lemma OneInteraction(keys: seq<Key>, a: Solo, b: Inter, values: Effects, solo: map<Key, real>,
                       pairs: Effects, i: Key, j: Key)
    requires Distinct(keys) && i in keys && j in keys && i != j
    requires OnlyPairwise(keys, a, b, values, solo, pairs)
    ensures {i, j} in pairs && pairs[{i, j}] - solo[i] - solo[j] == b({i, j})
  {
    PairInteraction(keys, a, b, i, j);
    PairInteraction(keys, a, b, j, i);
    assert {i} <= ToSet(keys) && {j} <= ToSet(keys) && {i, j} <= ToSet(keys);
  }

  /**
   With all pairs measured and nothing beyond pairs, the exact value adds half the SUM of
   the interactions of i to its solo effect, the approximation half their MEAN.
   */
  lemma TaylorAgainstExact(keys: seq<Key>, a: Solo, b: Inter, values: Effects, solo: map<Key, real>,
                           pairs: Effects, i: Key)
    requires Distinct(keys) && i in keys && OnlyPairwise(keys, a, b, values, solo, pairs)
    ensures Shapley(keys, values, i) == solo[i] + InterTotal(Without(keys, i), b, i) / 2.0
    ensures |keys| > 1 ==>
      TaylorValue(keys, solo, pairs, i)
      == solo[i] + Part(1, 2 * (|keys| - 1), InterTotal(Without(keys, i), b, i))
    ensures |keys| == 1 ==> TaylorValue(keys, solo, pairs, i) == Shapley(keys, values, i) == solo[i]
  {
    WithoutDistinct(keys, i);
    AllMeasured(keys, a, b, values, solo, pairs, i, Without(keys, i));
    WeighingIsFair(|keys|);
    CreditOfPairwise(keys, WeighingFor(|keys|), a, b, i);
    SameGameSameCredit(keys, WeighingFor(|keys|), GameOf(values), PairwiseGame(keys, a, b), i);
    SoloOfPairwise(keys, a, b, i);
    assert {i} <= ToSet(keys);
  }

  lemma SoloOfPairwise(keys: seq<Key>, a: Solo, b: Inter, i: Key)
    requires Distinct(keys) && i in keys
    ensures PairwiseGame(keys, a, b)({i}) == a(i)
  {
    PairwiseOutside(keys, a, b, {});
    PairwiseMarginal(keys, a, b, {}, i);
    InterSumOutside(Without(keys, i), b, i, {});
    assert {} + {i} == {i};
  }

  lemma SameGameSameCredit(keys: seq<Key>, weigh: Weighing, v: Game, u: Game, i: Key)
    requires Distinct(keys) && i in keys
    requires forall s :: s <= ToSet(keys) ==> AgreeAt(v, u, s)
    ensures Credit(weigh, keys, v, i) == Credit(weigh, keys, u, i)
  {
    var others := Without(keys, i);
    forall s | s <= ToSet(others) ensures AgreeAt(Marginal(weigh, v, i), Marginal(weigh, u, i), s) {
      assert AgreeAt(v, u, s) && AgreeAt(v, u, s + {i});
    }
    SubsetSumSame(others, Marginal(weigh, v, i), Marginal(weigh, u, i));
  }

  /**
   So the approximation equals the exact value precisely for at most two influences or for
   an influence whose interactions cancel; else they differ by (n-2)/(2(n-1)) of the sum.
   */
  lemma TaylorExactness(keys: seq<Key>, a: Solo, b: Inter, values: Effects, solo: map<Key, real>,
                        pairs: Effects, i: Key)
    requires Distinct(keys) && i in keys && OnlyPairwise(keys, a, b, values, solo, pairs)
    ensures TaylorValue(keys, solo, pairs, i) == Shapley(keys, values, i)
      <==> |keys| <= 2 || InterTotal(Without(keys, i), b, i) == 0.0
    ensures |keys| > 1 ==>
      Shapley(keys, values, i) - TaylorValue(keys, solo, pairs, i)
      == Part(|keys| - 2, 2 * (|keys| - 1), InterTotal(Without(keys, i), b, i))
  {
    TaylorAgainstExact(keys, a, b, values, solo, pairs, i);
    if |keys| > 1 {
      HalfAgainstMean(InterTotal(Without(keys, i), b, i), |keys|);
    }
  }

  lemma HalfAgainstMean(x: real, n: nat)
    requires n > 1
    ensures x / 2.0 == Part(1, 2 * (n - 1), x) + Part(n - 2, 2 * (n - 1), x)
    ensures Part(n - 2, 2 * (n - 1), x) == 0.0 <==> n == 2 || x == 0.0
  {
    var d := 2 * (n - 1);
    var q := x / d as real;
    assert q * d as real == x;
    UnitPart(d, x, q);
    var p := (n - 2) as real / d as real;
    assert p * d as real == (n - 2) as real;
    assert p * x == (p * d as real) * q;
    assert p * x == q * (n - 1) as real - q;
  }

  /** Three influences that interact pairwise: the approximation gives half the exact value. */
  lemma TaylorIsNotExact() returns (keys: seq<Key>, a: Solo, b: Inter, values: Effects, solo: map<Key, real>)
    ensures |keys| == 3 && Distinct(keys) && OnlyPairwise(keys, a, b, values, solo, values)
    ensures TaylorValue(keys, solo, values, keys[0]) == 0.5
    ensures Shapley(keys, values, keys[0]) == 1.0
  {
    keys, a, b := ["x", "y", "z"], _ => 0.0, _ => 1.0;
    values, solo := EffectsOf(keys, a, b);
    ThreeInteracting(keys, a, b, values, solo);
  }

  lemma ThreeInteracting(keys: seq<Key>, a: Solo, b: Inter, values: Effects, solo: map<Key, real>)
    requires Distinct(keys) && |keys| == 3 && OnlyPairwise(keys, a, b, values, solo, values)
    requires (forall k :: a(k) == 0.0) && (forall p :: b(p) == 1.0)
    ensures TaylorValue(keys, solo, values, keys[0]) == 0.5
    ensures Shapley(keys, values, keys[0]) == 1.0
  {
    var i := keys[0];
    InterTotalOfThree(keys, b);
    TaylorAgainstExact(keys, a, b, values, solo, values, i);
    SoloOfPairwise(keys, a, b, i);
    assert {i} <= ToSet(keys);
    QuarterOfTwo(|keys|, InterTotal(Without(keys, i), b, i));
  }

  lemma QuarterOfTwo(n: nat, x: real)
    requires n == 3 && x == 2.0
    ensures Part(1, 2 * (n - 1), x) == 0.5
  {
    UnitPart(2 * (n - 1), x, 0.5);
  }

  lemma InterTotalOfThree(keys: seq<Key>, b: Inter)
    requires |keys| == 3 && Distinct(keys) && forall p :: b(p) == 1.0
    ensures InterTotal(Without(keys, keys[0]), b, keys[0]) == 2.0
  {
    var others := keys[1..];
    WithoutAbsent(others, keys[0]);
    assert others[1..] == [keys[2]] && [keys[2]][1..] == [];
    assert InterTotal([keys[2]], b, keys[0]) == 1.0;
  }

  lemma EffectsOf(keys: seq<Key>, a: Solo, b: Inter) returns (values: Effects, solo: map<Key, real>)
    requires Distinct(keys)
    ensures OnlyPairwise(keys, a, b, values, solo, values)
    ensures forall k :: k in keys ==> solo[k] == PairwiseGame(keys, a, b)({k})
  {
    var v := PairwiseGame(keys, a, b);
    values := map s | s <= ToSet(keys) :: v(s);
    solo := map k | k in keys :: v({k});
    PairwiseOutside(keys, a, b, {});
    forall k | k in keys ensures {k} in values {
      assert {k} <= ToSet(keys);
    }
    forall k, l | k in keys && l in keys && k != l ensures {k, l} in values {
      assert {k, l} <= ToSet(keys);
    }
  }

  // -------------------------------------------------- which arms a report runs

  const EXACT_SHAPLEY_MAX_N := 4
  const EXHAUSTIVE_PAIRS_MAX_N := 5

  /** _missing_subsets_for_exact_shapley */
  method MissingSubsets(keys: seq<Key>, already: set<set<Key>>) returns (missing: seq<set<Key>>)
    requires Distinct(keys)
    ensures Distinct(missing)
    ensures forall s :: s in missing <==> s != {} && s < ToSet(keys) && s !in already
  {
    missing := [];
    DistinctSize(keys);
    var size := 1;
    while size < |keys|
      invariant Distinct(missing) && (keys != [] ==> size <= |keys|)
      invariant forall s :: s in missing <==> s <= ToSet(keys) && 1 <= |s| < size && s !in already
    {
      var combos := Combinations(keys, size);
      CombinationsAreSubsets(keys, size);
      CombinationsDistinct(keys, size);
      var unseen := NotIn(combos, already);
      assert forall s :: s in unseen ==> |s| == size;
      DistinctConcat(missing, unseen);
      missing, size := missing + unseen, size + 1;
    }
    forall s | s <= ToSet(keys) ensures |s| < |keys| <==> s < ToSet(keys) {
      SmallerSubset(s, ToSet(keys));
      assert |s| < |keys| ==> s != ToSet(keys);
    }
  }

  method NotIn(combos: seq<set<Key>>, already: set<set<Key>>) returns (kept: seq<set<Key>>)
    requires Distinct(combos)
    ensures Distinct(kept)
    ensures forall s :: s in kept <==> s in combos && s !in already
  {
    kept := [];
    for c := 0 to |combos|
      invariant Distinct(kept)
      invariant forall s :: s in kept <==> s in combos[..c] && s !in already
    {
      if combos[c] !in already {
        kept := kept + [combos[c]];
      }
    }
  }

  // The pairs sampled: the strongest first, equally strong ones in the order of their names.

  /** The sum of the solo effects of the members, without their signs. */
  function Strength(keys: seq<Key>, solo: map<Key, real>, s: set<Key>): real
    requires forall k :: k in keys ==> k in solo
  {
    if keys == [] then 0.0
    else
      var last := keys[|keys| - 1];
      Strength(keys[..|keys| - 1], solo, s) + if last in s then Abs(solo[last]) else 0.0
  }

  /** The strength of the pair at each place of the list of all pairs. */
  function Strengths(keys: seq<Key>, solo: map<Key, real>): nat -> real
    requires forall k :: k in keys ==> k in solo
  {
    (p: nat) => if p < |Combinations(keys, 2)| then Strength(keys, solo, Combinations(keys, 2)[p]) else 0.0
  }

  /** The strength of a pair is the sum of the magnitudes of its two solo effects. */
  lemma {:induction false} PairStrength(keys: seq<Key>, solo: map<Key, real>, a: Key, b: Key)
    requires Distinct(keys) && a != b && forall k :: k in keys ==> k in solo
    ensures Strength(keys, solo, {a, b})
         == (if a in keys then Abs(solo[a]) else 0.0) + (if b in keys then Abs(solo[b]) else 0.0)
  {
    if keys != [] {
      var init, last := keys[..|keys| - 1], keys[|keys| - 1];
      assert keys == init + [last] && last !in init;
      PairStrength(init, solo, a, b);
    }
  }

  /** Place i comes before place j in the ranking of these strengths. */
  predicate Ahead(w: nat -> real, i: nat, j: nat) {
    w(i) > w(j) || (w(i) == w(j) && i < j)
  }

  predicate AheadInOrder(w: nat -> real, ranked: seq<nat>) {
    forall a, b :: 0 <= a < b < |ranked| ==> Ahead(w, ranked[a], ranked[b])
  }

  /** A stable sort: x goes in behind all that are at least as strong. */
  function InsertPlace(w: nat -> real, ranked: seq<nat>, x: nat): seq<nat> {
    if ranked == [] then [x]
    else if w(x) > w(ranked[|ranked| - 1])
    then InsertPlace(w, ranked[..|ranked| - 1], x) + [ranked[|ranked| - 1]]
    else ranked + [x]
  }

  function RankedPlaces(w: nat -> real, n: nat): seq<nat> {
    if n == 0 then [] else InsertPlace(w, RankedPlaces(w, n - 1), n - 1)
  }

  lemma {:induction false} InsertPlaceMembers(w: nat -> real, ranked: seq<nat>, x: nat)
    ensures |InsertPlace(w, ranked, x)| == |ranked| + 1
    ensures forall p: nat :: p in InsertPlace(w, ranked, x) <==> p in ranked || p == x
  {
    if ranked != [] {
      assert ranked == ranked[..|ranked| - 1] + [ranked[|ranked| - 1]];
      InsertPlaceMembers(w, ranked[..|ranked| - 1], x);
    }
  }

  lemma AheadAppend(w: nat -> real, ranked: seq<nat>, last: nat)
    requires AheadInOrder(w, ranked) && forall p: nat :: p in ranked ==> Ahead(w, p, last)
    ensures AheadInOrder(w, ranked + [last])
  {
  }

  lemma AheadOfLast(w: nat -> real, init: seq<nat>, last: nat)
    requires AheadInOrder(w, init + [last])
    ensures AheadInOrder(w, init) && forall p: nat :: p in init ==> Ahead(w, p, last)
  {
    var ranked := init + [last];
    forall a, b | 0 <= a < b < |init| ensures Ahead(w, init[a], init[b]) {
      assert Ahead(w, ranked[a], ranked[b]);
    }
    forall p: nat | p in init ensures Ahead(w, p, last) {
      var a :| 0 <= a < |init| && init[a] == p;
      assert Ahead(w, ranked[a], ranked[|init|]);
    }
  }

  lemma {:induction false} InsertPlaceInOrder(w: nat -> real, ranked: seq<nat>, x: nat)
    requires AheadInOrder(w, ranked) && forall p: nat :: p in ranked ==> p < x
    ensures AheadInOrder(w, InsertPlace(w, ranked, x))
  {
    if ranked != [] {
      hide AheadInOrder;
      var init, last := ranked[..|ranked| - 1], ranked[|ranked| - 1];
      assert ranked == init + [last];
      assert forall p: nat :: p in init ==> p in ranked;
      AheadOfLast(w, init, last);
      if w(x) > w(last) {
        InsertPlaceInOrder(w, init, x);
        InsertPlaceMembers(w, init, x);
        AheadAppend(w, InsertPlace(w, init, x), last);
      } else {
        assert forall p: nat :: p in ranked ==> p in init || p == last;
        AheadAppend(w, ranked, x);
      }
    }
  }

  lemma {:induction false} RankedPlacesOk(w: nat -> real, n: nat)
    ensures var r := RankedPlaces(w, n);
      |r| == n && AheadInOrder(w, r) && forall p: nat :: p in r <==> p < n
  {
    if n > 0 {
      hide AheadInOrder, InsertPlace;
      RankedPlacesOk(w, n - 1);
      InsertPlaceInOrder(w, RankedPlaces(w, n - 1), n - 1);
      InsertPlaceMembers(w, RankedPlaces(w, n - 1), n - 1);
    }
  }

  /** How many pairs are taken: ranked[:max(0, k)]. */
  function TakenCount(k: int, n: nat): nat {
    Min(Max(0, k), n)
  }

  function PairsAt(pairs: seq<set<Key>>, places: seq<nat>): seq<set<Key>>
    requires forall p: nat :: p in places ==> p < |pairs|
  {
    seq(|places|, a requires 0 <= a < |places| => assert places[a] in places; pairs[places[a]])
  }

  /** The places of the pairs that are taken. */
  function TopPlaces(keys: seq<Key>, solo: map<Key, real>, k: int): (r: seq<nat>)
    requires forall i :: i in keys ==> i in solo
    ensures forall p: nat :: p in r ==> p < |Combinations(keys, 2)|
  {
    var n := |Combinations(keys, 2)|;
    RankedPlacesOk(Strengths(keys, solo), n);
    var ranked := RankedPlaces(Strengths(keys, solo), n);
    assert forall p: nat :: p in ranked[..TakenCount(k, n)] ==> p in ranked;
    ranked[..TakenCount(k, n)]
  }

  /** _top_k_pairs, for names in their order. */
  function TopPairs(keys: seq<Key>, solo: map<Key, real>, k: int): seq<set<Key>>
    requires forall i :: i in keys ==> i in solo
  {
    PairsAt(Combinations(keys, 2), TopPlaces(keys, solo, k))
  }

  /**
   So many pairs are taken as asked for, or all, each once, in order, and every pair that is
   taken ranks before every pair that is not.
   */
  lemma TopPairsAreStrongest(keys: seq<Key>, solo: map<Key, real>, k: int)
    requires Distinct(keys) && forall i :: i in keys ==> i in solo
    ensures var all, top := Combinations(keys, 2), TopPairs(keys, solo, k);
      var w, places := Strengths(keys, solo), TopPlaces(keys, solo, k);
      && |top| == |places| == (if k <= 0 then 0 else if k < |all| then k else |all|)
      && Distinct(top) && AheadInOrder(w, places)
      && (forall p: nat :: p < |all| ==> (all[p] in top <==> p in places))
      && (forall s :: s in top ==> s in all)
      && (forall p: nat, q: nat :: p in places && q !in places && q < |all| ==> Ahead(w, p, q))
  {
    var all, w, places := Combinations(keys, 2), Strengths(keys, solo), TopPlaces(keys, solo, k);
    hide Combinations, RankedPlaces, Strengths, Ahead;
    RankedPlacesOk(w, |all|);
    CombinationsDistinct(keys, 2);
    TakenAhead(w, RankedPlaces(w, |all|), TakenCount(k, |all|));
    PlacesDistinct(w, RankedPlaces(w, |all|));
    PairsAtDistinct(all, places);
  }

  lemma TakenAhead(w: nat -> real, ranked: seq<nat>, n: nat)
    requires AheadInOrder(w, ranked) && n <= |ranked|
    ensures AheadInOrder(w, ranked[..n])
    ensures forall p: nat, q: nat :: p in ranked[..n] && q !in ranked[..n] && q in ranked ==> Ahead(w, p, q)
  {
    hide Ahead;
    assert forall c :: 0 <= c < n ==> ranked[c] in ranked[..n];
    forall p: nat, q: nat | p in ranked[..n] && q !in ranked[..n] && q in ranked ensures Ahead(w, p, q) {
      var a :| 0 <= a < n && ranked[a] == p;
      var b :| 0 <= b < |ranked| && ranked[b] == q;
      assert Ahead(w, ranked[a], ranked[b]);
    }
  }

  lemma PlacesDistinct(w: nat -> real, ranked: seq<nat>)
    requires AheadInOrder(w, ranked)
    ensures Distinct(ranked)
  {
    forall a, b | 0 <= a < b < |ranked| ensures ranked[a] != ranked[b] {
      assert Ahead(w, ranked[a], ranked[b]);
    }
  }

  lemma PairsAtDistinct(pairs: seq<set<Key>>, places: seq<nat>)
    requires Distinct(pairs) && Distinct(places) && forall p: nat :: p in places ==> p < |pairs|
    ensures Distinct(PairsAt(pairs, places))
    ensures forall s :: s in PairsAt(pairs, places) ==> s in pairs
    ensures forall p: nat :: p < |pairs| ==> (pairs[p] in PairsAt(pairs, places) <==> p in places)
  {
    var top := PairsAt(pairs, places);
    forall a | 0 <= a < |places| ensures places[a] < |pairs| && top[a] == pairs[places[a]] {
      assert places[a] in places;
    }
    forall p: nat | p < |pairs| ensures pairs[p] in top <==> p in places {
      if pairs[p] in top {
        var a :| 0 <= a < |top| && top[a] == pairs[p];
        assert places[a] == p;
      }
      if p in places {
        var a :| 0 <= a < |places| && places[a] == p;
        assert top[a] == pairs[p];
      }
    }
  }

  /** The arms of a report beyond the solo ones, for names in their order. */
  method PlanArms(keys: seq<Key>, solo: map<Key, real>, topKPairs: int) returns (work: seq<set<Key>>)
    requires Distinct(keys) && |keys| >= 2 && forall i :: i in keys ==> i in solo
    ensures Distinct(work)
    ensures |keys| <= EXACT_SHAPLEY_MAX_N ==> forall s :: s in work <==> s <= ToSet(keys) && |s| >= 2
    ensures |keys| == EXHAUSTIVE_PAIRS_MAX_N ==>
      forall s :: s in work <==> s <= ToSet(keys) && (|s| == 2 || s == ToSet(keys))
    ensures |keys| > EXHAUSTIVE_PAIRS_MAX_N ==> work == TopPairs(keys, solo, topKPairs) + [ToSet(keys)]
  {
    hide TopPairs;
    CombinationsAreSubsets(keys, 2);
    CombinationsDistinct(keys, 2);
    DistinctSize(keys);
    TopPairsAreStrongest(keys, solo, topKPairs);
    var full := ToSet(keys);
    if |keys| > EXHAUSTIVE_PAIRS_MAX_N {
      work := TopPairs(keys, solo, topKPairs);
      assert forall s :: s in work ==> IsCombination(keys, 2, s);
    } else {
      work := Combinations(keys, 2);
    }
    if full !in work {
      work := work + [full];
    }
    if |keys| <= EXACT_SHAPLEY_MAX_N {
      var already := Singles(keys) + ToSet(work);
      var missing := MissingSubsets(keys, already);
      forall s ensures s in work + missing <==> s <= full && |s| >= 2 {
        PlannedSubset(keys, work, missing, already, s);
      }
      DistinctConcat(work, missing);
      work := work + missing;
    }
  }

  function Singles(keys: seq<Key>): set<set<Key>> {
    set k | k in keys :: {k}
  }

  lemma PlannedSubset(keys: seq<Key>, work: seq<set<Key>>, missing: seq<set<Key>>,
                      already: set<set<Key>>, s: set<Key>)
    requires Distinct(keys) && |keys| >= 2 && already == Singles(keys) + ToSet(work)
    requires forall t :: t in work <==> t <= ToSet(keys) && (|t| == 2 || t == ToSet(keys))
    requires forall t :: t in missing <==> t != {} && t < ToSet(keys) && t !in already
    ensures s in work + missing <==> s <= ToSet(keys) && |s| >= 2
  {
    DistinctSize(keys);
    if s <= ToSet(keys) && |s| == 1 {
      var k :| k in s;
      assert s == {k} by { SmallerSubset({k}, s); }
      assert s in Singles(keys);
    }
    if s in Singles(keys) {
      assert |s| == 1;
    }
  }

  /** The coalitions a report knows: the solo ones and every arm that could be generated. */
  function PowerSet(keys: seq<Key>, solo: map<Key, real>, results: Effects): (values: Effects)
    requires forall k :: k in keys ==> k in solo
  {
    (map k | k in keys :: {k} := solo[k]) + results
  }

  /** Up to four influences, exact credit is available exactly when no planned arm failed. */
  lemma ExactWhenEveryArmRan(keys: seq<Key>, work: seq<set<Key>>, solo: map<Key, real>, results: Effects)
    requires Distinct(keys) && forall k :: k in keys ==> k in solo
    requires forall s :: s in work <==> s <= ToSet(keys) && |s| >= 2
    ensures Complete(keys, PowerSet(keys, solo, results)) <==> forall s :: s in work ==> s in results
  {
    var values := PowerSet(keys, solo, results);
    forall s | s <= ToSet(keys) && s != {} ensures s in values <==> s in results || |s| == 1 {
      if |s| == 1 {
        var k :| k in s;
        assert s == {k} by { SmallerSubset({k}, s); }
        assert k in keys;
      }
    }
    forall s | s in work ensures s in values <==> s in results {
      assert s != {};
    }
  }
}
