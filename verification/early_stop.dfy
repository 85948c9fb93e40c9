/**
 Leave-one-out receipts and the pairwise redundancy guard, with ablated replies that stop
 at the first token off the baseline (_ablated_child and _prove_all_regen in
 clozn/receipts/core.py; _key, _ablation_changes, _merge_ablation_changes and
 _build_receipt in clozn/receipts/deltas.py).

 The engine is a pair of functions: replay without and with a reference to stop at.
 */
module EarlyStop {
  import opened Common

  datatype Influence = Influence(cardId: Option<string>, dial: Option<string>, memoryOff: bool, behaviorOff: bool)

  datatype Changes = Changes(ids: seq<string>, overrides: map<string, real>, memoryOff: bool, behaviorOff: bool)

  const NO_CHANGES := Changes([], map[], false, false)

  predicate Given(s: Option<string>) {
    s.Some? && s.value != ""
  }

  function Key(inf: Influence): string {
    if Given(inf.cardId) then "card:" + inf.cardId.value
    else if Given(inf.dial) then "dial:" + inf.dial.value
    else if inf.memoryOff then "memory_off"
    else if inf.behaviorOff then "behavior_off"
    else "unknown"
  }

  /** The replay changes that ablate one influence; NO_CHANGES where there are none. */
  function Ablation(inf: Influence): Changes {
    if Given(inf.cardId) then NO_CHANGES.(ids := [inf.cardId.value])
    else if Given(inf.dial) then NO_CHANGES.(overrides := map[inf.dial.value := 0.0])
    else if inf.memoryOff then NO_CHANGES.(memoryOff := true)
    else if inf.behaviorOff then NO_CHANGES.(behaviorOff := true)
    else NO_CHANGES
  }

  /** An influence is ablated by its card, else by its dial, else by the memory, else by the behavior. */
  lemma AblatesExactly(inf: Influence, id: string, dial: string)
    ensures var c := Ablation(inf);
      && (id in c.ids <==> Given(inf.cardId) && id == inf.cardId.value)
      && (dial in c.overrides <==> !Given(inf.cardId) && Given(inf.dial) && dial == inf.dial.value)
      && (c.memoryOff <==> !Given(inf.cardId) && !Given(inf.dial) && inf.memoryOff)
      && (c.behaviorOff <==> !Given(inf.cardId) && !Given(inf.dial) && !inf.memoryOff && inf.behaviorOff)
      && (c == NO_CHANGES <==> !Given(inf.cardId) && !Given(inf.dial) && !inf.memoryOff && !inf.behaviorOff)
  {
    var c := Ablation(inf);
    assert Given(inf.cardId) ==> c.ids == [inf.cardId.value];
    assert !Given(inf.cardId) && Given(inf.dial) ==> inf.dial.value in c.overrides;
  }

  function Both(a: Changes, b: Changes): Changes {
    Changes(a.ids + b.ids, a.overrides + b.overrides, a.memoryOff || b.memoryOff, a.behaviorOff || b.behaviorOff)
  }

  function MergedAblation(infs: seq<Influence>): Changes {
    if infs == [] then NO_CHANGES else Both(MergedAblation(infs[..|infs| - 1]), Ablation(infs[|infs| - 1]))
  }

  method MergeAblations(infs: seq<Influence>) returns (merged: Changes)
    ensures merged == MergedAblation(infs)
  {
    var ids: seq<string>, overrides: map<string, real> := [], map[];
    var memoryOff, behaviorOff := false, false;
    for k := 0 to |infs|
      invariant Changes(ids, overrides, memoryOff, behaviorOff) == MergedAblation(infs[..k])
    {
      assert infs[..k + 1][..k] == infs[..k];
      var c := Ablation(infs[k]);
      ids := ids + c.ids;
      overrides := overrides + c.overrides;
      memoryOff := memoryOff || c.memoryOff;
      behaviorOff := behaviorOff || c.behaviorOff;
    }
    assert infs[..|infs|] == infs;
    merged := Changes(ids, overrides, memoryOff, behaviorOff);
  }

  predicate NamesCard(infs: seq<Influence>, id: string) {
    exists k :: 0 <= k < |infs| && id in Ablation(infs[k]).ids
  }

  predicate NamesDial(infs: seq<Influence>, dial: string) {
    exists k :: 0 <= k < |infs| && dial in Ablation(infs[k]).overrides
  }

  predicate AnyMemoryOff(infs: seq<Influence>) {
    exists k :: 0 <= k < |infs| && Ablation(infs[k]).memoryOff
  }

  predicate AnyBehaviorOff(infs: seq<Influence>) {
    exists k :: 0 <= k < |infs| && Ablation(infs[k]).behaviorOff
  }

  lemma NamesAppend(infs: seq<Influence>, last: Influence, id: string, dial: string)
    ensures NamesCard(infs + [last], id) <==> NamesCard(infs, id) || id in Ablation(last).ids
    ensures NamesDial(infs + [last], dial) <==> NamesDial(infs, dial) || dial in Ablation(last).overrides
    ensures AnyMemoryOff(infs + [last]) <==> AnyMemoryOff(infs) || Ablation(last).memoryOff
    ensures AnyBehaviorOff(infs + [last]) <==> AnyBehaviorOff(infs) || Ablation(last).behaviorOff
  {
    hide Ablation;
    var all := infs + [last];
    assert all[|infs|] == last && forall k :: 0 <= k < |infs| ==> all[k] == infs[k];
  }

  /** The joint changes ablate what the influences ablate, and nothing else. */
  lemma {:induction false} MergedAblatesAll(infs: seq<Influence>, id: string, dial: string)
    ensures var m := MergedAblation(infs);
      && (id in m.ids <==> NamesCard(infs, id))
      && (dial in m.overrides <==> NamesDial(infs, dial))
      && (dial in m.overrides ==> m.overrides[dial] == 0.0)
      && (m.memoryOff <==> AnyMemoryOff(infs))
      && (m.behaviorOff <==> AnyBehaviorOff(infs))
  {
    if infs != [] {
      hide Ablation, NamesCard, NamesDial, AnyMemoryOff, AnyBehaviorOff;
      var init, last := infs[..|infs| - 1], infs[|infs| - 1];
      assert infs == init + [last];
      MergedAblatesAll(init, id, dial);
      NamesAppend(init, last, id, dial);
      AblatesToZero(last, dial);
    }
  }

  lemma AblatesToZero(inf: Influence, dial: string)
    ensures dial in Ablation(inf).overrides ==> Ablation(inf).overrides[dial] == 0.0
  {
  }

  /** Influences with the same key are ablated in the same way. */
  lemma KeyDecidesAblation(a: Influence, b: Influence)
    requires Key(a) == Key(b)
    ensures Ablation(a) == Ablation(b)
  {
    KeyParts(a);
    KeyParts(b);
  }

  lemma KeyParts(inf: Influence)
    ensures Given(inf.cardId) ==> |Key(inf)| > 5 && Key(inf)[0] == 'c' && Key(inf)[5..] == inf.cardId.value
    ensures !Given(inf.cardId) && Given(inf.dial) ==>
      |Key(inf)| > 5 && Key(inf)[0] == 'd' && Key(inf)[5..] == inf.dial.value
    ensures !Given(inf.cardId) && !Given(inf.dial) ==> Key(inf)[0] != 'c' && Key(inf)[0] != 'd'
  {
  }

  // ------------------------------------------------------------------ one arm

  datatype Child = Child(response: string, diverged: bool)

  datatype Engine = Engine(full: Changes -> Option<string>, stopped: Changes -> Option<Child>)

  predicate StartsWith(s: string, prefix: string) {
    prefix <= s
  }

  /** With `stops` the arm gives the baseline's tokens to the engine as a reference. */
  function AblatedChild(e: Engine, stops: bool, baseline: string, changes: Changes): Option<Child> {
    if changes == NO_CHANGES then None
    else if !stops then Whole(e.full(changes))
    else
      match e.stopped(changes)
      case None => None
      case Some(child) =>
        if child.diverged && StartsWith(baseline, child.response) && e.full(changes).Some?
        then Whole(e.full(changes))
        else Some(child)
  }

  function Whole(reply: Option<string>): Option<Child> {
    if reply.Some? then Some(Child(reply.value, false)) else None
  }

  method RunArm(e: Engine, stops: bool, baseline: string, changes: Changes) returns (r: Option<Child>)
    ensures r == AblatedChild(e, stops, baseline, changes)
  {
    if changes == NO_CHANGES {
      return None;
    }
    r := if stops then e.stopped(changes) else Whole(e.full(changes));
    if r.None? {
      return;
    }
    if r.value.diverged {
      if StartsWith(baseline, r.value.response) {
        var again := e.full(changes);
        if again.Some? {
          r := Whole(again);
        }
      }
    }
  }

  /**
   What is known of the engine: its replies are those of one greedy decoder. An unstopped
   reply is the whole one, a stopped one is a prefix of it.
   */
  ghost predicate Greedy(e: Engine, truth: Changes -> string) {
    && (forall c :: e.full(c).Some? ==> e.full(c).value == truth(c))
    && (forall c :: e.stopped(c).Some? ==> Consistent(e.stopped(c).value, truth(c)))
  }

  ghost predicate Consistent(child: Child, reply: string) {
    if child.diverged then child.response <= reply else child.response == reply
  }

  /** Replay is possible with and without a reference, or neither way. */
  ghost predicate Available(e: Engine) {
    forall c :: e.full(c).Some? <==> e.stopped(c).Some?
  }

  /** The verdict on the whole reply is that on the part. */
  ghost predicate SameVerdict(partial: string, whole: string, baseline: string) {
    partial <= whole ==> (partial != baseline <==> whole != baseline)
  }

  /**
   The guard is exact: a stopped reply decides the comparison, whatever the whole reply is,
   if and only if the baseline does not start with it.
   */
  lemma PrefixDecides(partial: string, baseline: string)
    ensures (forall whole :: SameVerdict(partial, whole, baseline)) <==> !(partial <= baseline)
  {
    if partial <= baseline {
      assert !SameVerdict(partial, if partial == baseline then partial + "x" else baseline, baseline);
    }
  }

  /** Whether the arm changes the answer; None where it could not be generated. */
  function Effect(e: Engine, stops: bool, baseline: string, changes: Changes): Option<bool> {
    match AblatedChild(e, stops, baseline, changes)
    case None => None
    case Some(child) => Some(child.response != baseline)
  }

  /** Stopping early does not change a verdict. */
  lemma SameEffect(e: Engine, truth: Changes -> string, baseline: string, changes: Changes)
    requires Greedy(e, truth) && Available(e)
    ensures Effect(e, true, baseline, changes) == Effect(e, false, baseline, changes)
  {
    if e.stopped(changes).Some? {
      var child := e.stopped(changes).value;
      assert Consistent(child, truth(changes));
      PrefixDecides(child.response, baseline);
      assert SameVerdict(child.response, truth(changes), baseline) || child.response <= baseline;
    }
  }

  // ------------------------------------------------------------------- prove-all

  datatype Receipt = Receipt(
    influence: Influence, changes: Changes, ablatedReply: string, hasEffect: bool, truncated: bool)

  function BuildReceipt(inf: Influence, baseline: string, child: Child, changes: Changes): Receipt {
    Receipt(inf, changes, child.response, baseline != child.response, child.diverged)
  }

  /** The lists and the insertion-ordered dictionary that prove-all fills. */
  datatype Progress = Progress(
    receipts: seq<Receipt>,
    skipped: seq<Influence>,
    keys: seq<string>,
    table: map<string, (Influence, bool)>)

  const START := Progress([], [], [], map[])

  function Prove(e: Engine, stops: bool, baseline: string, p: Progress, inf: Influence): Progress {
    match AblatedChild(e, stops, baseline, Ablation(inf))
    case None => p.(skipped := p.skipped + [inf])
    case Some(child) =>
      var rec := BuildReceipt(inf, baseline, child, Ablation(inf));
      var keys := if Key(inf) in p.keys then p.keys else p.keys + [Key(inf)];
      Progress(p.receipts + [rec], p.skipped, keys, p.table[Key(inf) := (inf, rec.hasEffect)])
  }

  function ProveEach(e: Engine, stops: bool, baseline: string, infs: seq<Influence>): (p: Progress)
    ensures forall k :: k in p.keys <==> k in p.table
  {
    if infs == [] then START
    else Prove(e, stops, baseline, ProveEach(e, stops, baseline, infs[..|infs| - 1]), infs[|infs| - 1])
  }

  /** The keys without an effect of their own, in order. */
  function NoEffect(keys: seq<string>, table: map<string, (Influence, bool)>): (r: seq<string>)
    requires forall k :: k in keys ==> k in table
    ensures forall k :: k in r <==> k in keys && !table[k].1
  {
    if keys == [] then []
    else
      var last := keys[|keys| - 1];
      assert forall k :: k in keys <==> k in keys[..|keys| - 1] || k == last;
      NoEffect(keys[..|keys| - 1], table) + if table[last].1 then [] else [last]
  }

  predicate Redundant(e: Engine, stops: bool, baseline: string, table: map<string, (Influence, bool)>,
                      a: string, b: string)
  {
    && a in table && b in table
    && Effect(e, stops, baseline, MergedAblation([table[a].0, table[b].0])) == Some(true)
  }

  function Guard(e: Engine, stops: bool, baseline: string, table: map<string, (Influence, bool)>)
    : (string, string) -> bool
  {
    (a, b) => Redundant(e, stops, baseline, table, a, b)
  }

  /** The pairs (keys[i], keys[j]) with i < j that the guard finds, row by row from (i, j) on. */
  function PairsFrom(guard: (string, string) -> bool, keys: seq<string>, i: nat, j: nat): seq<(string, string)>
    requires i < j
    decreases |keys| - i, |keys| - j
  {
    if i + 1 >= |keys| then []
    else if j >= |keys| then PairsFrom(guard, keys, i + 1, i + 2)
    else (if guard(keys[i], keys[j]) then [(keys[i], keys[j])] else []) + PairsFrom(guard, keys, i, j + 1)
  }

  datatype Report = Report(receipts: seq<Receipt>, skipped: seq<Influence>, pairs: seq<(string, string)>)

  function ProveAll(e: Engine, stops: bool, baseline: string, infs: seq<Influence>): Report {
    var p := ProveEach(e, stops, baseline, infs);
    Report(p.receipts, p.skipped, PairsFrom(Guard(e, stops, baseline, p.table), NoEffect(p.keys, p.table), 0, 1))
  }

  /** The leave-one-out loop. */
  method LeaveOneOut(e: Engine, stops: bool, baseline: string, infs: seq<Influence>) returns (p: Progress)
    ensures p == ProveEach(e, stops, baseline, infs)
  {
    hide Ablation, Key;
    var receipts: seq<Receipt>, skipped: seq<Influence> := [], [];
    var keys: seq<string>, table: map<string, (Influence, bool)> := [], map[];
    for n := 0 to |infs|
      invariant Progress(receipts, skipped, keys, table) == ProveEach(e, stops, baseline, infs[..n])
    {
      assert infs[..n + 1][..n] == infs[..n];
      var inf := infs[n];
      var child := RunArm(e, stops, baseline, Ablation(inf));
      if child.None? {
        skipped := skipped + [inf];
        continue;
      }
      var rec := BuildReceipt(inf, baseline, child.value, Ablation(inf));
      receipts := receipts + [rec];
      if Key(inf) !in keys {
        keys := keys + [Key(inf)];
      }
      table := table[Key(inf) := (inf, rec.hasEffect)];
    }
    assert infs[..|infs|] == infs;
    p := Progress(receipts, skipped, keys, table);
  }

  lemma PairsStep(guard: (string, string) -> bool, keys: seq<string>, i: nat, j: nat, pairs: seq<(string, string)>)
    requires i < j < |keys|
    ensures pairs + PairsFrom(guard, keys, i, j)
         == (if guard(keys[i], keys[j]) then pairs + [(keys[i], keys[j])] else pairs)
            + PairsFrom(guard, keys, i, j + 1)
  {
    var rest := PairsFrom(guard, keys, i, j + 1);
    assert pairs + ([(keys[i], keys[j])] + rest) == pairs + [(keys[i], keys[j])] + rest;
    assert pairs + ([] + rest) == pairs + rest;
  }

  lemma NextRow(guard: (string, string) -> bool, keys: seq<string>, i: nat)
    ensures i >= |keys| ==> forall j :: i < j ==> PairsFrom(guard, keys, i, j) == []
    ensures i < |keys| ==>
      forall j :: i < j && j >= |keys| ==> PairsFrom(guard, keys, i, j) == PairsFrom(guard, keys, i + 1, i + 2)
  {
  }

  method CheckPair(e: Engine, stops: bool, baseline: string, table: map<string, (Influence, bool)>,
                   a: string, b: string)
    returns (found: bool)
    requires a in table && b in table
    ensures found == Guard(e, stops, baseline, table)(a, b)
  {
    var joint := MergeAblations([table[a].0, table[b].0]);
    var child := RunArm(e, stops, baseline, joint);
    found := child.Some? && child.value.response != baseline;
  }

  /** The nested loops of the redundancy guard. */
  method RedundantPairs(e: Engine, stops: bool, baseline: string, table: map<string, (Influence, bool)>,
                        keys: seq<string>)
    returns (pairs: seq<(string, string)>)
    requires forall k :: k in keys ==> k in table
    ensures pairs == PairsFrom(Guard(e, stops, baseline, table), keys, 0, 1)
  {
    hide Guard, PairsFrom;
    pairs := [];
    ghost var guard := Guard(e, stops, baseline, table);
    ghost var all := PairsFrom(guard, keys, 0, 1);
    assert all == [] + all;
    var i := 0;
    while i < |keys|
      invariant i <= |keys| && all == pairs + PairsFrom(guard, keys, i, i + 1)
    {
      var j := i + 1;
      while j < |keys|
        invariant i < j <= |keys|
        invariant all == pairs + PairsFrom(guard, keys, i, j)
      {
        PairsStep(guard, keys, i, j, pairs);
        var found := CheckPair(e, stops, baseline, table, keys[i], keys[j]);
        if found {
          pairs := pairs + [(keys[i], keys[j])];
        }
        j := j + 1;
      }
      NextRow(guard, keys, i);
      i := i + 1;
    }
    NextRow(guard, keys, i);
  }

  method ProveAllRegen(e: Engine, stops: bool, baseline: string, infs: seq<Influence>) returns (r: Report)
    ensures r == ProveAll(e, stops, baseline, infs)
  {
    var p := LeaveOneOut(e, stops, baseline, infs);
    var pairs := RedundantPairs(e, stops, baseline, p.table, NoEffect(p.keys, p.table));
    r := Report(p.receipts, p.skipped, pairs);
  }

  // --------------------------------------------------------------- the refinement

  /** The same verdicts; the replies behind them may differ. */
  ghost predicate SameVerdicts(a: seq<Receipt>, b: seq<Receipt>) {
    && |a| == |b|
    && forall k :: 0 <= k < |a| ==>
         a[k].influence == b[k].influence && a[k].changes == b[k].changes && a[k].hasEffect == b[k].hasEffect
  }

  ghost predicate SameSoFar(a: Progress, b: Progress) {
    SameVerdicts(a.receipts, b.receipts) && a.skipped == b.skipped && a.keys == b.keys && a.table == b.table
  }

  lemma SameStep(e: Engine, baseline: string, a: Progress, b: Progress, inf: Influence)
    requires SameSoFar(a, b)
    requires Effect(e, true, baseline, Ablation(inf)) == Effect(e, false, baseline, Ablation(inf))
    ensures SameSoFar(Prove(e, true, baseline, a, inf), Prove(e, false, baseline, b, inf))
  {
    hide AblatedChild, Ablation, Key;
  }

  lemma {:induction false} SameProgress(e: Engine, truth: Changes -> string, baseline: string, infs: seq<Influence>)
    requires Greedy(e, truth) && Available(e)
    ensures SameSoFar(ProveEach(e, true, baseline, infs), ProveEach(e, false, baseline, infs))
  {
    hide Greedy, Available, Key, Ablation, Prove, Effect;
    if infs != [] {
      var inf, init := infs[|infs| - 1], infs[..|infs| - 1];
      SameProgress(e, truth, baseline, init);
      SameEffect(e, truth, baseline, Ablation(inf));
      SameStep(e, baseline, ProveEach(e, true, baseline, init), ProveEach(e, false, baseline, init), inf);
    }
  }

  ghost predicate Alike(f: (string, string) -> bool, g: (string, string) -> bool) {
    forall a, b :: f(a, b) == g(a, b)
  }

  lemma AlikeAt(f: (string, string) -> bool, g: (string, string) -> bool, a: string, b: string)
    requires Alike(f, g)
    ensures f(a, b) == g(a, b)
  {
  }

  lemma NextPairs(f: (string, string) -> bool, keys: seq<string>, i: nat, j: nat)
    requires i < j
    ensures i + 1 >= |keys| ==> PairsFrom(f, keys, i, j) == []
    ensures i + 1 < |keys| && j >= |keys| ==> PairsFrom(f, keys, i, j) == PairsFrom(f, keys, i + 1, i + 2)
    ensures j < |keys| ==>
      var first := if f(keys[i], keys[j]) then [(keys[i], keys[j])] else [];
      PairsFrom(f, keys, i, j) == first + PairsFrom(f, keys, i, j + 1)
  {
  }

  lemma {:induction false} SamePairs(f: (string, string) -> bool, g: (string, string) -> bool,
                                     keys: seq<string>, i: nat, j: nat)
    requires i < j && Alike(f, g)
    ensures PairsFrom(f, keys, i, j) == PairsFrom(g, keys, i, j)
    decreases |keys| - i, |keys| - j
  {
    hide Alike, PairsFrom;
    NextPairs(f, keys, i, j);
    NextPairs(g, keys, i, j);
    if i + 1 < |keys| {
      if j < |keys| {
        AlikeAt(f, g, keys[i], keys[j]);
        SamePairs(f, g, keys, i, j + 1);
      } else {
        SamePairs(f, g, keys, i + 1, i + 2);
      }
    }
  }

  lemma SameGuard(e: Engine, truth: Changes -> string, baseline: string, table: map<string, (Influence, bool)>,
                  a: string, b: string)
    requires Greedy(e, truth) && Available(e)
    ensures Guard(e, true, baseline, table)(a, b) == Guard(e, false, baseline, table)(a, b)
  {
    if a in table && b in table {
      SameEffect(e, truth, baseline, MergedAblation([table[a].0, table[b].0]));
    }
  }

  /** prove-all with early stopping says what prove-all with whole replies says. */
  lemma EarlyStopRefines(e: Engine, truth: Changes -> string, baseline: string, infs: seq<Influence>)
    requires Greedy(e, truth) && Available(e)
    ensures var a, b := ProveAll(e, true, baseline, infs), ProveAll(e, false, baseline, infs);
      SameVerdicts(a.receipts, b.receipts) && a.skipped == b.skipped && a.pairs == b.pairs
  {
    SameProgress(e, truth, baseline, infs);
    var p := ProveEach(e, true, baseline, infs);
    forall a, b ensures Guard(e, true, baseline, p.table)(a, b) == Guard(e, false, baseline, p.table)(a, b) {
      SameGuard(e, truth, baseline, p.table, a, b);
    }
    SamePairs(Guard(e, true, baseline, p.table), Guard(e, false, baseline, p.table), NoEffect(p.keys, p.table), 0, 1);
  }

  /** A receipt that is not truncated shows the whole reply; a truncated one a part that is not the baseline's. */
  lemma TruncationIsHonest(e: Engine, truth: Changes -> string, baseline: string, changes: Changes)
    requires Greedy(e, truth) && Available(e) && AblatedChild(e, true, baseline, changes).Some?
    ensures var child := AblatedChild(e, true, baseline, changes).value;
      if child.diverged then child.response <= truth(changes) && !(child.response <= baseline)
      else child.response == truth(changes)
  {
    assert e.stopped(changes).Some? ==> Consistent(e.stopped(changes).value, truth(changes));
  }

  // ------------------------------------------------------- what the receipts say

  /** The places of the influences whose arm was generated, in order. */
  function ArmPlaces(e: Engine, stops: bool, baseline: string, infs: seq<Influence>): (places: seq<nat>)
    ensures forall p :: p in places <==>
      0 <= p < |infs| && AblatedChild(e, stops, baseline, Ablation(infs[p])).Some?
    ensures forall a, b :: 0 <= a < b < |places| ==> places[a] < places[b]
  {
    if infs == [] then []
    else
      var before := ArmPlaces(e, stops, baseline, infs[..|infs| - 1]);
      assert forall a :: 0 <= a < |before| ==> before[a] in before;
      if AblatedChild(e, stops, baseline, Ablation(infs[|infs| - 1])).Some? then before + [|infs| - 1] else before
  }

  /** A receipt tells of this arm, and whether its reply is the baseline. */
  predicate TellsOf(r: Receipt, inf: Influence, child: Child, baseline: string) {
    && r.influence == inf && r.changes == Ablation(inf)
    && r.ablatedReply == child.response && r.truncated == child.diverged
    && (r.hasEffect <==> r.ablatedReply != baseline)
  }

  ghost predicate ReceiptAt(e: Engine, stops: bool, baseline: string, infs: seq<Influence>, r: Receipt, p: nat) {
    && p < |infs| && AblatedChild(e, stops, baseline, Ablation(infs[p])).Some?
    && TellsOf(r, infs[p], AblatedChild(e, stops, baseline, Ablation(infs[p])).value, baseline)
  }

  /** One receipt for each influence whose arm was generated, in order, with the verdict on its reply. */
  lemma {:induction false} ReceiptsTell(e: Engine, stops: bool, baseline: string, infs: seq<Influence>)
    ensures var receipts, places := ProveEach(e, stops, baseline, infs).receipts, ArmPlaces(e, stops, baseline, infs);
      && |receipts| == |places|
      && forall k :: 0 <= k < |places| ==> ReceiptAt(e, stops, baseline, infs, receipts[k], places[k])
  {
    if infs != [] {
      var init := infs[..|infs| - 1];
      hide AblatedChild, Ablation, Key;
      ReceiptsTell(e, stops, baseline, init);
      var before, places := ProveEach(e, stops, baseline, init).receipts, ArmPlaces(e, stops, baseline, init);
      forall k | 0 <= k < |places| ensures ReceiptAt(e, stops, baseline, infs, before[k], places[k]) {
        assert ReceiptAt(e, stops, baseline, init, before[k], places[k]);
        assert init[places[k]] == infs[places[k]];
      }
    }
  }

  /** With an engine that replays, in either mode, the verdict is that on the true reply. */
  lemma VerdictsAreTrue(e: Engine, truth: Changes -> string, stops: bool, baseline: string, infs: seq<Influence>,
                        k: nat)
    requires Greedy(e, truth) && Available(e) && k < |ProveAll(e, stops, baseline, infs).receipts|
    ensures var r := ProveAll(e, stops, baseline, infs).receipts[k];
      r.hasEffect <==> truth(Ablation(r.influence)) != baseline
  {
    hide Ablation;
    ReceiptsTell(e, stops, baseline, infs);
    var r := ProveEach(e, stops, baseline, infs).receipts[k];
    var p := ArmPlaces(e, stops, baseline, infs)[k];
    assert ReceiptAt(e, stops, baseline, infs, r, p);
    SameEffect(e, truth, baseline, Ablation(infs[p]));
    assert Effect(e, stops, baseline, Ablation(infs[p])) == Some(r.hasEffect);
    assert Effect(e, false, baseline, Ablation(infs[p])) == Some(truth(Ablation(infs[p])) != baseline);
  }

  /** Receipt k is the last with its key. */
  predicate LastWithKey(receipts: seq<Receipt>, k: nat, key: string) {
    && k < |receipts| && Key(receipts[k].influence) == key
    && forall j :: k < j < |receipts| ==> Key(receipts[j].influence) != key
  }

  lemma LastStays(receipts: seq<Receipt>, r: Receipt, k: nat, key: string)
    requires Key(r.influence) != key
    ensures LastWithKey(receipts + [r], k, key) <==> LastWithKey(receipts, k, key)
  {
    assert forall j :: 0 <= j < |receipts| ==> (receipts + [r])[j] == receipts[j];
    if LastWithKey(receipts, k, key) {
      assert Key((receipts + [r])[|receipts|].influence) != key;
    }
  }

  /** The table has, for each key, what the last receipt with that key says. */
  ghost predicate TableIsLast(p: Progress) {
    && (forall key :: key in p.table <==> exists k: nat :: LastWithKey(p.receipts, k, key))
    && forall key, k: nat :: LastWithKey(p.receipts, k, key) && key in p.table ==>
         p.table[key] == (p.receipts[k].influence, p.receipts[k].hasEffect)
  }

  lemma TableAfter(p: Progress, r: Receipt, q: Progress)
    requires TableIsLast(p) && q.receipts == p.receipts + [r]
    requires q.table == p.table[Key(r.influence) := (r.influence, r.hasEffect)]
    ensures TableIsLast(q)
  {
    hide Key;
    var own := Key(r.influence);
    assert LastWithKey(q.receipts, |p.receipts|, own) && q.receipts[|p.receipts|] == r;
    forall key ensures key in q.table <==> exists k: nat :: LastWithKey(q.receipts, k, key) {
      if key != own {
        forall k: nat { LastStays(p.receipts, r, k, key); }
      }
    }
    forall key, k: nat | LastWithKey(q.receipts, k, key) && key in q.table
      ensures q.table[key] == (q.receipts[k].influence, q.receipts[k].hasEffect)
    {
      if key != own {
        LastStays(p.receipts, r, k, key);
      }
    }
  }

  lemma {:induction false} TableTells(e: Engine, stops: bool, baseline: string, infs: seq<Influence>)
    ensures TableIsLast(ProveEach(e, stops, baseline, infs))
  {
    if infs != [] {
      hide AblatedChild, Ablation, Key, TableIsLast;
      var init, inf := infs[..|infs| - 1], infs[|infs| - 1];
      var p := ProveEach(e, stops, baseline, init);
      TableTells(e, stops, baseline, init);
      var child := AblatedChild(e, stops, baseline, Ablation(inf));
      if child.Some? {
        TableAfter(p, BuildReceipt(inf, baseline, child.value, Ablation(inf)), ProveEach(e, stops, baseline, infs));
      }
    }
  }

  /** The guard looks at exactly the keys whose last receipt shows no change. */
  lemma NoEffectExactly(e: Engine, stops: bool, baseline: string, infs: seq<Influence>, key: string)
    ensures var p := ProveEach(e, stops, baseline, infs);
      key in NoEffect(p.keys, p.table) <==>
        exists k: nat :: LastWithKey(p.receipts, k, key) && p.receipts[k].ablatedReply == baseline
  {
    hide ProveEach, NoEffect, Key;
    var p := ProveEach(e, stops, baseline, infs);
    TableTells(e, stops, baseline, infs);
    ReceiptsTell(e, stops, baseline, infs);
    var places := ArmPlaces(e, stops, baseline, infs);
    forall k: nat | LastWithKey(p.receipts, k, key)
      ensures key in p.table && (p.table[key].1 <==> p.receipts[k].ablatedReply != baseline)
    {
      assert ReceiptAt(e, stops, baseline, infs, p.receipts[k], places[k]);
    }
  }

  /** Every other influence is skipped. */
  lemma {:induction false} SkippedAreTheRest(e: Engine, stops: bool, baseline: string, infs: seq<Influence>)
    ensures var p := ProveEach(e, stops, baseline, infs);
      && |p.skipped| + |p.receipts| == |infs|
      && forall inf :: inf in p.skipped <==> inf in infs && AblatedChild(e, stops, baseline, Ablation(inf)).None?
  {
    hide AblatedChild, Ablation, Key;
    if infs != [] {
      assert infs == infs[..|infs| - 1] + [infs[|infs| - 1]];
      SkippedAreTheRest(e, stops, baseline, infs[..|infs| - 1]);
    }
  }

  // ------------------------------------------------------ what the guard reports

  lemma {:induction false} PairsComplete(guard: (string, string) -> bool, keys: seq<string>, i: nat, j: nat,
                                         x: nat, y: nat)
    requires i < j <= |keys| && x < y < |keys| && (i < x || (i == x && j <= y)) && guard(keys[x], keys[y])
    ensures (keys[x], keys[y]) in PairsFrom(guard, keys, i, j)
    decreases |keys| - i, |keys| - j
  {
    hide PairsFrom;
    if j >= |keys| {
      NextRow(guard, keys, i);
      PairsComplete(guard, keys, i + 1, i + 2, x, y);
    } else {
      PairsStep(guard, keys, i, j, []);
      var all, rest := PairsFrom(guard, keys, i, j), PairsFrom(guard, keys, i, j + 1);
      assert all == [] + all;
      assert rest == [] + rest;
      if i != x || j != y {
        PairsComplete(guard, keys, i, j + 1, x, y);
      }
    }
  }

  lemma {:induction false} PairsSound(guard: (string, string) -> bool, keys: seq<string>, i: nat, j: nat, k: nat)
    returns (x: nat, y: nat)
    requires i < j && k < |PairsFrom(guard, keys, i, j)|
    ensures x < y < |keys| && PairsFrom(guard, keys, i, j)[k] == (keys[x], keys[y]) && guard(keys[x], keys[y])
    decreases |keys| - i, |keys| - j
  {
    hide PairsFrom;
    NextRow(guard, keys, i);
    if j >= |keys| {
      x, y := PairsSound(guard, keys, i + 1, i + 2, k);
    } else {
      PairsStep(guard, keys, i, j, []);
      var all, rest := PairsFrom(guard, keys, i, j), PairsFrom(guard, keys, i, j + 1);
      assert all == [] + all && rest == [] + rest;
      assert guard(keys[i], keys[j]) ==> all == [(keys[i], keys[j])] + rest;
      if !guard(keys[i], keys[j]) {
        x, y := PairsSound(guard, keys, i, j + 1, k);
      } else if k > 0 {
        x, y := PairsSound(guard, keys, i, j + 1, k - 1);
      } else {
        x, y := i, j;
      }
    }
  }

  lemma {:induction false} KeysDistinct(e: Engine, stops: bool, baseline: string, infs: seq<Influence>)
    ensures Distinct(ProveEach(e, stops, baseline, infs).keys)
  {
    hide AblatedChild, Key, Ablation;
    if infs != [] {
      KeysDistinct(e, stops, baseline, infs[..|infs| - 1]);
    }
  }

  lemma {:induction false} NoEffectDistinct(keys: seq<string>, table: map<string, (Influence, bool)>)
    requires Distinct(keys) && forall k :: k in keys ==> k in table
    ensures Distinct(NoEffect(keys, table))
  {
    if keys != [] {
      var init, last := keys[..|keys| - 1], keys[|keys| - 1];
      assert forall k :: k in init ==> k in keys;
      NoEffectDistinct(init, table);
      assert last !in init;
      DistinctConcat(NoEffect(init, table), if table[last].1 then [] else [last]);
    }
  }

  /**
   Of two influences without an effect of their own, the earlier and the later are
   reported as a pair if and only if ablating both changes the answer.
   */
  lemma ReportedExactly(e: Engine, stops: bool, baseline: string, infs: seq<Influence>, i: nat, j: nat)
    requires var p := ProveEach(e, stops, baseline, infs); i < j < |NoEffect(p.keys, p.table)|
    ensures var p := ProveEach(e, stops, baseline, infs);
      var keys := NoEffect(p.keys, p.table);
      var redundant := Redundant(e, stops, baseline, p.table, keys[i], keys[j]);
      redundant <==> (keys[i], keys[j]) in ProveAll(e, stops, baseline, infs).pairs
  {
    hide ProveEach, NoEffect, Redundant, PairsFrom;
    var p := ProveEach(e, stops, baseline, infs);
    var keys, guard := NoEffect(p.keys, p.table), Guard(e, stops, baseline, p.table);
    KeysDistinct(e, stops, baseline, infs);
    NoEffectDistinct(p.keys, p.table);
    if guard(keys[i], keys[j]) {
      PairsComplete(guard, keys, 0, 1, i, j);
    }
    if (keys[i], keys[j]) in PairsFrom(guard, keys, 0, 1) {
      var k :| 0 <= k < |PairsFrom(guard, keys, 0, 1)| && PairsFrom(guard, keys, 0, 1)[k] == (keys[i], keys[j]);
      var x, y := PairsSound(guard, keys, 0, 1, k);
    }
  }

  // ----------------------------------------------------- the hypotheses are needed

  /** The arm stopped inside the baseline, and generating it again failed. */
  predicate FallbackFailed(e: Engine, baseline: string, changes: Changes) {
    && e.stopped(changes).Some? && e.stopped(changes).value.diverged
    && StartsWith(baseline, e.stopped(changes).value.response)
    && e.full(changes).None?
  }

  /**
   Whatever fails, an arm that was generated has the right verdict if and only if it did not
   lose its fallback, or lost it where the part and the whole reply both are the baseline or
   both are not.
   */
  lemma VerdictExactly(e: Engine, truth: Changes -> string, baseline: string, changes: Changes)
    requires Greedy(e, truth) && changes != NO_CHANGES && e.stopped(changes).Some?
    ensures var partial := e.stopped(changes).value.response;
      Effect(e, true, baseline, changes) == Some(truth(changes) != baseline)
      <==> (FallbackFailed(e, baseline, changes) ==> (partial == baseline <==> truth(changes) == baseline))
  {
    var child := e.stopped(changes).value;
    assert Consistent(child, truth(changes));
    PrefixDecides(child.response, baseline);
    assert SameVerdict(child.response, truth(changes), baseline) || child.response <= baseline;
  }

  /** If the regeneration fails, a verdict may be wrong: here the answer did not change. */
  lemma FailedFallbackMisleads() returns (e: Engine, truth: Changes -> string, baseline: string, changes: Changes)
    ensures Greedy(e, truth) && !Available(e)
    ensures Effect(e, true, baseline, changes) == Some(true) && truth(changes) == baseline
  {
    truth := (c: Changes) => "tea";
    e := Engine((c: Changes) => None, (c: Changes) => Some(Child("te", true)));
    baseline, changes := "tea", NO_CHANGES.(memoryOff := true);
    assert "te" <= "tea";
    assert e.full(changes).None? && e.stopped(changes).Some?;
    assert AblatedChild(e, true, baseline, changes) == Some(Child("te", true));
  }

  /** The shown replies, and with them the delta numbers, are not those of whole replies. */
  lemma DeltasDiffer() returns (e: Engine, truth: Changes -> string, baseline: string, inf: Influence)
    ensures Greedy(e, truth) && Available(e)
    ensures var a, b := ProveAll(e, true, baseline, [inf]), ProveAll(e, false, baseline, [inf]);
      a.receipts != [] && b.receipts != [] && a.receipts[0].ablatedReply != b.receipts[0].ablatedReply
  {
    truth := (c: Changes) => "milk";
    e := Engine((c: Changes) => Some("milk"), (c: Changes) => Some(Child("m", true)));
    baseline, inf := "tea", Influence(None, None, true, false);
    assert "m" <= "milk" && "m"[0] != "tea"[0];
    assert ProveEach(e, true, baseline, [inf]) == Prove(e, true, baseline, START, inf) by {
      assert [inf][..0] == [];
    }
    assert ProveEach(e, false, baseline, [inf]) == Prove(e, false, baseline, START, inf) by {
      assert [inf][..0] == [];
    }
    assert AblatedChild(e, true, baseline, Ablation(inf)) == Some(Child("m", true));
    assert AblatedChild(e, false, baseline, Ablation(inf)) == Some(Child("milk", false));
  }
}
