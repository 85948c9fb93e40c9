/**
 What one transaction does to the list of memory cards
 (create, update, delete, bump_usage and merge_import in clozn/memory/cards.py).
 */
module CardOps {
  import opened Common
  import opened Cards
  import opened CardImport

  const STATUSES := {"pending", "active", "disabled", "rejected"}

  /**
   How texts and whole numbers convert: int and float of a text, which may be refused, and
   float of a whole number, which no double may hold.
   */
  datatype Numbers = Numbers(
    parseInt: string -> Option<int>, parseFloat: string -> Option<Value>, double: int -> Option<real>)

  predicate Truthy(v: Value) {
    match v
    case Str(s) => s != ""
    case Int(n) => n != 0
    case Real(x) => x != 0.0
    case NonFinite => true
    case Flag(b) => b
    case Compound(empty) => !empty
    case Null => false
  }

  /** int(v), or None where it raises. */
  function AsInt(numbers: Numbers, v: Value): Option<int> {
    match v
    case Str(s) => numbers.parseInt(s)
    case Int(n) => Some(n)
    case Real(x) => Some(if x < 0.0 then -((-x).Floor) else x.Floor)
    case Flag(b) => Some(if b then 1 else 0)
    case _ => None
  }

  /** int(x or 0) of the usage count. */
  function CountOf(numbers: Numbers, c: Card): Option<int> {
    var v := Get(c, "usage_count");
    if Truthy(v) then AsInt(numbers, v) else Some(0)
  }

  // ------------------------------------------------------------- updating a card

  datatype Coerced = Coerced(value: Value) | Malformed | TooLarge

  /** float(v): a malformed value is caught, a whole number too large for a double is not. */
  function AsFloat(numbers: Numbers, v: Value): Coerced {
    match v
    case Str(s) => if numbers.parseFloat(s).Some? then Coerced(numbers.parseFloat(s).value) else Malformed
    case Int(n) => if numbers.double(n).Some? then Coerced(Real(numbers.double(n).value)) else TooLarge
    case Real(_) => Coerced(v)
    case NonFinite => Coerced(v)
    case Flag(b) => Coerced(Real(if b then 1.0 else 0.0))
    case _ => Malformed
  }

  /** One assignment of update: what may not be changed or is malformed is skipped. */
  function PatchField(numbers: Numbers, c: Card, k: string, v: Value): Option<Card> {
    if k == "id" || k == "created_at" then Some(c)
    else if k == "status" && !(v.Str? && v.text in STATUSES) then Some(c)
    else if k == "strength" then
      match AsFloat(numbers, v)
      case Coerced(x) => Some(c[k := x])
      case Malformed => Some(c)
      case TooLarge => None
    else Some(c[k := v])
  }

  /** All assignments, or None if one raises. */
  function Patched(numbers: Numbers, c: Card, fields: Fields): Option<Card> {
    if fields == [] then Some(c)
    else
      var last := fields[|fields| - 1];
      match Patched(numbers, c, fields[..|fields| - 1])
      case Some(before) => PatchField(numbers, before, last.0, last.1)
      case None => None
  }

  /** The strength given is a whole number that no double holds. */
  predicate Overflows(numbers: Numbers, field: (string, Value)) {
    field.0 == "strength" && field.1.Int? && numbers.double(field.1.count).None?
  }

  predicate SomeOverflows(numbers: Numbers, fields: Fields) {
    exists i :: 0 <= i < |fields| && Overflows(numbers, fields[i])
  }

  /** An assignment raises if and only if it is a strength that is too large. */
  lemma {:induction false} PatchRaisesExactly(numbers: Numbers, c: Card, fields: Fields)
    ensures Patched(numbers, c, fields).None? <==> SomeOverflows(numbers, fields)
  {
    if fields != [] {
      var init, last := fields[..|fields| - 1], fields[|fields| - 1];
      PatchRaisesExactly(numbers, c, init);
      assert fields == init + [last];
      if SomeOverflows(numbers, init) {
        var i :| 0 <= i < |init| && Overflows(numbers, init[i]);
        assert Overflows(numbers, fields[i]);
      }
      assert SomeOverflows(numbers, fields) <==> SomeOverflows(numbers, init) || Overflows(numbers, last);
    }
  }

  predicate DistinctFields(fields: Fields) {
    forall i, j :: 0 <= i < j < |fields| ==> fields[i].0 != fields[j].0
  }

  predicate Names(fields: Fields, k: string) {
    exists i :: 0 <= i < |fields| && fields[i].0 == k
  }

  /** Fields that are not named stay, and so do the id and the creation time. */
  lemma {:induction false} PatchKeepsTheRest(numbers: Numbers, c: Card, fields: Fields, k: string)
    requires Patched(numbers, c, fields).Some?
    requires !Names(fields, k) || k == "id" || k == "created_at"
    ensures k in Patched(numbers, c, fields).value <==> k in c
    ensures k in c ==> Patched(numbers, c, fields).value[k] == c[k]
  {
    if fields != [] {
      var init := fields[..|fields| - 1];
      assert Names(init, k) ==> Names(fields, k);
      assert !Names(fields, k) ==> fields[|fields| - 1].0 != k;
      PatchKeepsTheRest(numbers, c, init, k);
    }
  }

  predicate Holding(c: Card, k: string, v: Value) {
    k in c && c[k] == v
  }

  predicate SameField(c: Card, d: Card, k: string) {
    (k in c <==> k in d) && (k in c ==> c[k] == d[k])
  }

  /** Every other named field has the new value afterwards, unless that is malformed. */
  lemma {:induction false} PatchAssigns(numbers: Numbers, c: Card, fields: Fields, i: nat)
    requires DistinctFields(fields) && i < |fields| && Patched(numbers, c, fields).Some?
    ensures var (k, v) := fields[i];
      var d := Patched(numbers, c, fields).value;
      && (k !in {"id", "created_at", "status", "strength"} ==> Holding(d, k, v))
      && (k == "status" ==> if v.Str? && v.text in STATUSES then Holding(d, k, v) else SameField(d, c, k))
      && (k == "strength" ==>
            match AsFloat(numbers, v)
            case Coerced(x) => Holding(d, k, x)
            case Malformed => SameField(d, c, k)
            case TooLarge => false)
  {
    var last := |fields| - 1;
    if i < last {
      PatchAssigns(numbers, c, fields[..last], i);
      assert fields[last].0 != fields[i].0;
    } else {
      assert !Names(fields[..last], fields[i].0);
      PatchKeepsTheRest(numbers, c, fields[..last], fields[i].0);
    }
  }

  // ---------------------------------------------------------------- operations

  datatype Op =
    | Create(card: Card)
    | Update(id: string, fields: Fields, numbers: Numbers)
    | Delete(id: string)
    | Bump(id: string, now: string, numbers: Numbers)
    | BulkImport(rules: Rules, mode: Mode, imported: Cards, dryRun: bool)

  datatype Outcome =
    | Returned(card: Card)
    | Removed
    | NotFound
    | Raised
    | Imported(added: seq<string>, skipped: seq<string>)

  /** The list afterwards, what the call returns, and whether the list is saved at all. */
  datatype Effect = Effect(cards: Cards, outcome: Outcome, saves: bool)

  /** The position of the first card with this id, or the number of cards. */
  function FirstWith(cards: Cards, id: string): (i: nat)
    ensures i <= |cards| && (i < |cards| ==> HasId(cards[i], id))
    ensures forall j :: 0 <= j < i ==> !HasId(cards[j], id)
  {
    if cards == [] then 0
    else if HasId(cards[0], id) then 0
    else
      var rest := FirstWith(cards[1..], id);
      assert forall j :: 0 <= j < rest ==> !HasId(cards[1..][j], id);
      rest + 1
  }

  function Others(cards: Cards, id: string): Cards {
    if cards == [] then []
    else if HasId(cards[|cards| - 1], id) then Others(cards[..|cards| - 1], id)
    else Others(cards[..|cards| - 1], id) + [cards[|cards| - 1]]
  }

  function Bumped(numbers: Numbers, c: Card, now: string): Option<Card> {
    match CountOf(numbers, c)
    case Some(n) => Some(c["usage_count" := Int(n + 1)]["last_used_at" := Str(now)])
    case None => None
  }

  /** The card at i changed and saved, or nothing where the change raises. */
  function Replaced(cards: Cards, i: nat, changed: Option<Card>): Effect
    requires i < |cards|
  {
    match changed
    case Some(c) => Effect(cards[i := c], Returned(c), true)
    case None => Effect(cards, Raised, false)
  }

  function Apply(op: Op, cards: Cards): Effect {
    match op
    case Create(card) => Effect(cards + [card], Returned(card), true)
    case Update(id, fields, numbers) =>
      var i := FirstWith(cards, id);
      if i == |cards| then Effect(cards, NotFound, false)
      else Replaced(cards, i, Patched(numbers, cards[i], fields))
    case Delete(id) =>
      if FirstWith(cards, id) == |cards| then Effect(cards, NotFound, false)
      else Effect(Others(cards, id), Removed, true)
    case Bump(id, now, numbers) =>
      var i := FirstWith(cards, id);
      if i == |cards| then Effect(cards, NotFound, false)
      else Replaced(cards, i, Bumped(numbers, cards[i], now))
    case BulkImport(rules, mode, imported, dryRun) =>
      match Import(rules, mode, cards, imported)
      case Failure(_) => Effect(cards, Raised, false)
      case Success(m) =>
        if dryRun || m.added == [] then Effect(cards, Imported(m.added, m.skipped), false)
        else Effect(m.merged, Imported(m.added, m.skipped), true)
  }

  /** The state after a serial order of transactions. */
  function Replay(start: Cards, log: seq<Op>): Cards {
    if log == [] then start else Apply(log[|log| - 1], Replay(start, log[..|log| - 1])).cards
  }

  // ------------------------------------------- the operations as the source runs them

  /** The loops of update over the loaded list. */
  method PatchFirst(cards: Cards, id: string, fields: Fields, numbers: Numbers) returns (e: Effect)
    ensures e == Apply(Update(id, fields, numbers), cards)
  {
    for i := 0 to |cards|
      invariant forall j :: 0 <= j < i ==> !HasId(cards[j], id)
    {
      if HasId(cards[i], id) {
        assert FirstWith(cards, id) == i;
        var c := PatchCard(cards[i], fields, numbers);
        return Replaced(cards, i, c);
      }
    }
    e := Effect(cards, NotFound, false);
  }

  method PatchCard(card: Card, fields: Fields, numbers: Numbers) returns (patched: Option<Card>)
    ensures patched == Patched(numbers, card, fields)
  {
    var c := card;
    for f := 0 to |fields|
      invariant Patched(numbers, card, fields[..f]) == Some(c)
    {
      assert fields[..f + 1][..f] == fields[..f];
      match PatchField(numbers, c, fields[f].0, fields[f].1)
      case Some(next) => c := next;
      case None =>
        assert Overflows(numbers, fields[f]);
        PatchRaisesExactly(numbers, card, fields);
        return None;
    }
    assert fields[..|fields|] == fields;
    patched := Some(c);
  }

  /** The comprehension and the length test of delete. */
  method RemoveAll(cards: Cards, id: string) returns (kept: Cards, removed: bool)
    ensures var e := Apply(Delete(id), cards); removed == e.saves && (removed ==> kept == e.cards)
  {
    kept := [];
    for i := 0 to |cards|
      invariant kept == Others(cards[..i], id)
      invariant |kept| <= i
      invariant |kept| == i <==> forall j :: 0 <= j < i ==> !HasId(cards[j], id)
    {
      assert cards[..i + 1][..i] == cards[..i];
      if !HasId(cards[i], id) {
        kept := kept + [cards[i]];
      }
    }
    assert cards[..|cards|] == cards;
    removed := |kept| != |cards|;
  }

  /** The loop of bump_usage. */
  method BumpFirst(cards: Cards, id: string, now: string, numbers: Numbers) returns (e: Effect)
    ensures e == Apply(Bump(id, now, numbers), cards)
  {
    for i := 0 to |cards|
      invariant forall j :: 0 <= j < i ==> !HasId(cards[j], id)
    {
      if HasId(cards[i], id) {
        assert FirstWith(cards, id) == i;
        match CountOf(numbers, cards[i])
        case None => return Effect(cards, Raised, false);
        case Some(n) =>
          var c := cards[i]["usage_count" := Int(n + 1)]["last_used_at" := Str(now)];
          return Effect(cards[i := c], Returned(c), true);
      }
    }
    e := Effect(cards, NotFound, false);
  }

  // ------------------------------------------------------------- which calls raise

  /** The first card with the id has a count that is true but converts to no integer. */
  predicate CountStuck(numbers: Numbers, c: Card) {
    var v := Get(c, "usage_count");
    || (v.Str? && v.text != "" && numbers.parseInt(v.text).None?)
    || v.NonFinite?
    || (v.Compound? && !v.empty)
  }

  /** What makes an operation raise once it has the lock and the cards. */
  predicate Stumbles(op: Op, cards: Cards) {
    match op
    case Create(_) => false
    case Update(id, fields, numbers) => Holds(cards, id) && SomeOverflows(numbers, fields)
    case Delete(_) => false
    case Bump(id, _, numbers) => Holds(cards, id) && CountStuck(numbers, cards[FirstWith(cards, id)])
    case BulkImport(rules, mode, imported, _) => Import(rules, mode, cards, imported).Failure?
  }

  /**
   Not every operation returns: an update raises if and only if it finds its card and gives
   it a strength too large for a double, a bump if and only if it finds its card and the
   count of that is true but no number. A creation and a deletion never raise.
   */
  lemma RaisesExactly(op: Op, cards: Cards)
    ensures Apply(op, cards).outcome.Raised? <==> Stumbles(op, cards)
    ensures Stumbles(op, cards) ==> Apply(op, cards).cards == cards && !Apply(op, cards).saves
  {
    if op.Update? && Holds(cards, op.id) {
      PatchRaisesExactly(op.numbers, cards[FirstWith(cards, op.id)], op.fields);
    }
  }

  /** Such inputs: a count that is the word "many", and a whole strength that no double holds. */
  lemma SomeCallsRaise(id: string, now: string, numbers: Numbers, n: int)
    requires numbers.parseInt("many").None? && numbers.double(n).None?
    ensures Apply(Bump(id, now, numbers), [map["id" := Str(id), "usage_count" := Str("many")]]).outcome.Raised?
    ensures Apply(Update(id, [("strength", Int(n))], numbers), [map["id" := Str(id)]]).outcome.Raised?
  {
    var counted: Card := map["id" := Str(id), "usage_count" := Str("many")];
    assert HasId(counted, id) && CountStuck(numbers, counted);
    RaisesExactly(Bump(id, now, numbers), [counted]);
    var plain: Card := map["id" := Str(id)];
    assert HasId(plain, id) && Overflows(numbers, [("strength", Int(n))][0]);
    RaisesExactly(Update(id, [("strength", Int(n))], numbers), [plain]);
  }

  // ------------------------------------------------- what an operation leaves behind

  /** Every card but the one at i is as it was. */
  predicate OnlyAt(cards: Cards, after: Cards, i: nat) {
    i < |cards| == |after| && forall j :: 0 <= j < |cards| && j != i ==> after[j] == cards[j]
  }

  /** Only these fields of a card may differ. */
  ghost predicate OnlyFields(c: Card, d: Card, changed: set<string>) {
    forall k :: k !in changed ==> SameField(d, c, k)
  }

  /** A bump saves if it finds its card and can count; then it changes count and time of that card, and nothing else. */
  lemma BumpChanges(op: Op, cards: Cards)
    requires op.Bump?
    ensures var e := Apply(op, cards);
      e.saves <==> Holds(cards, op.id) && !CountStuck(op.numbers, cards[FirstWith(cards, op.id)])
    ensures var e := Apply(op, cards);
      e.saves ==>
        var i := FirstWith(cards, op.id);
        && OnlyAt(cards, e.cards, i) && e.outcome == Returned(e.cards[i])
        && OnlyFields(cards[i], e.cards[i], {"usage_count", "last_used_at"})
        && Holding(e.cards[i], "last_used_at", Str(op.now))
        && CountOf(op.numbers, cards[i]).Some?
        && Holding(e.cards[i], "usage_count", Int(CountOf(op.numbers, cards[i]).value + 1))
  {
  }

  /** An update changes named fields of the first card with the id, but never id or creation time. */
  lemma UpdateChanges(op: Op, cards: Cards)
    requires op.Update?
    ensures var e := Apply(op, cards);
      e.saves <==> Holds(cards, op.id) && !SomeOverflows(op.numbers, op.fields)
    ensures var e := Apply(op, cards);
      e.saves ==>
        var i := FirstWith(cards, op.id);
        && OnlyAt(cards, e.cards, i) && e.outcome == Returned(e.cards[i])
        && Patched(op.numbers, cards[i], op.fields) == Some(e.cards[i])
        && forall k :: !Names(op.fields, k) || k == "id" || k == "created_at" ==> SameField(e.cards[i], cards[i], k)
  {
    var i := FirstWith(cards, op.id);
    if i < |cards| {
      PatchRaisesExactly(op.numbers, cards[i], op.fields);
      if Patched(op.numbers, cards[i], op.fields).Some? {
        forall k | !Names(op.fields, k) || k == "id" || k == "created_at"
          ensures SameField(Patched(op.numbers, cards[i], op.fields).value, cards[i], k)
        {
          PatchKeepsTheRest(op.numbers, cards[i], op.fields, k);
        }
      }
    }
  }

  /** The places of the cards without the id, in order. */
  function PlacesWithout(cards: Cards, id: string): (places: seq<nat>)
    ensures forall p :: p in places <==> 0 <= p < |cards| && !HasId(cards[p], id)
    ensures forall a, b :: 0 <= a < b < |places| ==> places[a] < places[b]
  {
    if cards == [] then []
    else
      var before := PlacesWithout(cards[..|cards| - 1], id);
      assert forall a :: 0 <= a < |before| ==> before[a] in before;
      if HasId(cards[|cards| - 1], id) then before else before + [|cards| - 1]
  }

  lemma {:induction false} OthersAtPlaces(cards: Cards, id: string)
    ensures |Others(cards, id)| == |PlacesWithout(cards, id)|
    ensures forall a :: 0 <= a < |Others(cards, id)| ==>
      PlacesWithout(cards, id)[a] < |cards| && Others(cards, id)[a] == cards[PlacesWithout(cards, id)[a]]
  {
    if cards != [] {
      OthersAtPlaces(cards[..|cards| - 1], id);
    }
  }

  /** A deletion leaves exactly the cards without the id, in order, and saves if there is one with it. */
  lemma DeleteChanges(op: Op, cards: Cards)
    requires op.Delete?
    ensures var e := Apply(op, cards);
      && (e.saves <==> Holds(cards, op.id))
      && e.outcome == (if e.saves then Removed else NotFound)
    ensures var e, places := Apply(op, cards), PlacesWithout(cards, op.id);
      && |e.cards| == |places|
      && forall a :: 0 <= a < |places| ==> places[a] < |cards| && e.cards[a] == cards[places[a]]
  {
    OthersAtPlaces(cards, op.id);
    if !Holds(cards, op.id) {
      NoneWithout(cards, op.id);
    }
  }

  /** An import saves what it merged, unless it only tries, adds nothing or is refused. */
  lemma ImportChanges(op: Op, cards: Cards)
    requires op.BulkImport?
    ensures var e, r := Apply(op, cards), Import(op.rules, op.mode, cards, op.imported);
      && (r.Failure? ==> e == Effect(cards, Raised, false))
      && (r.Success? ==>
            && e.outcome == Imported(r.value.added, r.value.skipped)
            && (e.saves <==> !op.dryRun && |r.value.added| > 0)
            && e.cards == if e.saves then r.value.merged else cards)
    ensures Import(op.rules, op.mode, cards, op.imported).Success? ==>
      var m := Import(op.rules, op.mode, cards, op.imported).value;
      |m.merged| == |cards| + |m.added| && cards <= m.merged
  {
    if Import(op.rules, op.mode, cards, op.imported).Success? {
      ImportExtends(op.rules, op.mode, Merge(cards, [], []), op.imported);
    }
  }

  lemma {:induction false} NoneWithout(cards: Cards, id: string)
    requires forall j :: 0 <= j < |cards| ==> !HasId(cards[j], id)
    ensures |PlacesWithout(cards, id)| == |cards|
    ensures forall a :: 0 <= a < |cards| ==> PlacesWithout(cards, id)[a] == a
  {
    if cards != [] {
      NoneWithout(cards[..|cards| - 1], id);
    }
  }

  // --------------------------------------------------- what a serial order keeps

  lemma {:induction false} OthersMembers(cards: Cards, id: string)
    ensures forall c :: c in Others(cards, id) <==> c in cards && !HasId(c, id)
  {
    if cards != [] {
      assert cards == cards[..|cards| - 1] + [cards[|cards| - 1]];
      OthersMembers(cards[..|cards| - 1], id);
    }
  }

  predicate Holds(cards: Cards, id: string) {
    FirstWith(cards, id) < |cards|
  }

  lemma HeldBy(cards: Cards, id: string, i: nat)
    requires i < |cards| && HasId(cards[i], id)
    ensures Holds(cards, id)
  {
  }

  lemma ReplacedCard(cards: Cards, i: nat, c: Card, id: string)
    requires i < |cards| && forall other :: HasId(c, other) <==> HasId(cards[i], other)
    ensures FirstWith(cards[i := c], id) == FirstWith(cards, id)
  {
    var a, b := FirstWith(cards, id), FirstWith(cards[i := c], id);
    assert a < |cards| ==> HasId(cards[i := c][a], id);
    assert b < |cards| ==> HasId(cards[b], id);
  }

  lemma PatchedId(numbers: Numbers, c: Card, fields: Fields)
    requires Patched(numbers, c, fields).Some?
    ensures forall other :: HasId(Patched(numbers, c, fields).value, other) <==> HasId(c, other)
  {
    PatchKeepsTheRest(numbers, c, fields, "id");
  }

  /** No transaction but its own deletion removes a card. */
  lemma OnlyDeleteRemoves(op: Op, cards: Cards, id: string)
    requires Holds(cards, id) && !(op.Delete? && op.id == id)
    ensures Holds(Apply(op, cards).cards, id)
  {
    var i := FirstWith(cards, id);
    match op
    case Create(card) => HeldBy(cards + [card], id, i);
    case Update(other, fields, numbers) =>
      var j := FirstWith(cards, other);
      if j < |cards| && Patched(numbers, cards[j], fields).Some? {
        PatchedId(numbers, cards[j], fields);
        ReplacedCard(cards, j, Patched(numbers, cards[j], fields).value, id);
      }
    case Delete(other) =>
      OthersMembers(cards, other);
      assert cards[i] in cards && !HasId(cards[i], other);
      if Apply(op, cards).saves {
        var k :| 0 <= k < |Others(cards, other)| && Others(cards, other)[k] == cards[i];
        HeldBy(Others(cards, other), id, k);
      }
    case Bump(other, now, numbers) =>
      var j := FirstWith(cards, other);
      if j < |cards| && Bumped(numbers, cards[j], now).Some? {
        ReplacedCard(cards, j, Bumped(numbers, cards[j], now).value, id);
      }
    case BulkImport(_, _, _, _) =>
      ImportAppends(op, cards);
      HeldBy(Apply(op, cards).cards, id, i);
  }

  /** An import appends; the cards of the store stay where they are. */
  lemma ImportAppends(op: Op, cards: Cards)
    requires op.BulkImport?
    ensures cards <= Apply(op, cards).cards
  {
    if Import(op.rules, op.mode, cards, op.imported).Success? {
      ImportExtends(op.rules, op.mode, Merge(cards, [], []), op.imported);
    }
  }

  /** A committed creation is never lost: its card is there until its own deletion commits. */
  lemma {:induction false} CreatedCardSurvives(start: Cards, log: seq<Op>, k: nat, id: string)
    requires k < |log| && log[k].Create? && HasId(log[k].card, id)
    requires forall j :: k < j < |log| ==> !(log[j].Delete? && log[j].id == id)
    ensures Holds(Replay(start, log), id)
  {
    var init, before := log[..|log| - 1], Replay(start, log[..|log| - 1]);
    if k == |log| - 1 {
      HeldBy(before + [log[k].card], id, |before|);
    } else {
      CreatedCardSurvives(start, init, k, id);
      OnlyDeleteRemoves(log[|log| - 1], before, id);
    }
  }

  /** The usage count that the first card with this id shows. */
  function Usage(numbers: Numbers, cards: Cards, id: string): Option<int> {
    if Holds(cards, id) then CountOf(numbers, cards[FirstWith(cards, id)]) else None
  }

  ghost predicate LeavesUsage(numbers: Numbers, op: Op, id: string) {
    && !(op.Delete? && op.id == id)
    && (op.Update? && op.id == id ==> !Names(op.fields, "usage_count"))
    && (op.Bump? && op.id == id ==> op.numbers == numbers)
  }

  function BumpsOf(log: seq<Op>, id: string): nat {
    if log == [] then 0
    else BumpsOf(log[..|log| - 1], id) + if log[|log| - 1].Bump? && log[|log| - 1].id == id then 1 else 0
  }

  lemma UsageStep(numbers: Numbers, op: Op, cards: Cards, id: string, n: int)
    requires Usage(numbers, cards, id) == Some(n) && LeavesUsage(numbers, op, id)
    ensures Usage(numbers, Apply(op, cards).cards, id) == Some(n + if op.Bump? && op.id == id then 1 else 0)
  {
    match op
    case Create(card) => FirstOfLonger(cards, cards + [card], id);
    case BulkImport(_, _, _, _) =>
      ImportAppends(op, cards);
      FirstOfLonger(cards, Apply(op, cards).cards, id);
    case Update(_, _, _) => UsageAfterUpdate(numbers, op, cards, id);
    case Delete(other) =>
      if Apply(op, cards).saves {
        FirstOfOthers(cards, other, id);
      }
    case Bump(_, _, _) => UsageAfterBump(numbers, op, cards, id);
  }

  lemma UsageAfterUpdate(numbers: Numbers, op: Op, cards: Cards, id: string)
    requires op.Update? && Holds(cards, id) && (op.id == id ==> !Names(op.fields, "usage_count"))
    ensures Usage(numbers, Apply(op, cards).cards, id) == Usage(numbers, cards, id)
  {
    var i, j := FirstWith(cards, id), FirstWith(cards, op.id);
    if j < |cards| && Patched(op.numbers, cards[j], op.fields).Some? {
      PatchedId(op.numbers, cards[j], op.fields);
      ReplacedCard(cards, j, Patched(op.numbers, cards[j], op.fields).value, id);
      if i == j {
        SameId(cards[i], id, op.id);
        PatchKeepsTheRest(op.numbers, cards[j], op.fields, "usage_count");
      }
    }
  }

  lemma UsageAfterBump(numbers: Numbers, op: Op, cards: Cards, id: string)
    requires op.Bump? && Usage(numbers, cards, id).Some? && LeavesUsage(numbers, op, id)
    ensures Usage(numbers, Apply(op, cards).cards, id)
         == Some(Usage(numbers, cards, id).value + if op.id == id then 1 else 0)
  {
    var i, j := FirstWith(cards, id), FirstWith(cards, op.id);
    if j < |cards| && Bumped(op.numbers, cards[j], op.now).Some? {
      ReplacedCard(cards, j, Bumped(op.numbers, cards[j], op.now).value, id);
      if i == j {
        SameId(cards[i], id, op.id);
      }
    }
  }

  lemma SameId(c: Card, a: string, b: string)
    requires HasId(c, a) && HasId(c, b)
    ensures a == b
  {
  }

  lemma FirstOfLonger(cards: Cards, longer: Cards, id: string)
    requires Holds(cards, id) && cards <= longer
    ensures FirstWith(longer, id) == FirstWith(cards, id)
  {
    var i, k := FirstWith(cards, id), FirstWith(longer, id);
    assert HasId(longer[i], id);
    assert k < |cards| ==> HasId(cards[k], id);
  }

  lemma {:induction false} FirstOfOthers(cards: Cards, other: string, id: string)
    requires Holds(cards, id) && other != id
    ensures Holds(Others(cards, other), id)
    ensures Others(cards, other)[FirstWith(Others(cards, other), id)] == cards[FirstWith(cards, id)]
  {
    var init, last := cards[..|cards| - 1], cards[|cards| - 1];
    var i := FirstWith(cards, id);
    if i < |init| {
      assert HasId(init[i], id);
      FirstOfOthers(init, other, id);
      FirstInit(cards, id);
      var rest := Others(init, other);
      if !HasId(last, other) {
        FirstOfLonger(rest, rest + [last], id);
        assert Others(cards, other) == rest + [last];
      } else {
        assert Others(cards, other) == rest;
      }
    } else {
      assert !HasId(last, other);
      NoneLeft(init, other, id);
      FirstAtEnd(Others(init, other), last, id);
    }
  }

  lemma FirstInit(cards: Cards, id: string)
    requires FirstWith(cards, id) < |cards| - 1
    ensures FirstWith(cards[..|cards| - 1], id) == FirstWith(cards, id)
  {
    var init := cards[..|cards| - 1];
    assert HasId(init[FirstWith(cards, id)], id);
    assert HasId(cards[FirstWith(init, id)], id);
  }

  lemma NoneLeft(cards: Cards, other: string, id: string)
    requires forall j :: 0 <= j < |cards| ==> !HasId(cards[j], id)
    ensures forall j :: 0 <= j < |Others(cards, other)| ==> !HasId(Others(cards, other)[j], id)
  {
    OthersMembers(cards, other);
    forall j | 0 <= j < |Others(cards, other)| ensures !HasId(Others(cards, other)[j], id) {
      assert Others(cards, other)[j] in cards;
    }
  }

  lemma FirstAtEnd(cards: Cards, card: Card, id: string)
    requires HasId(card, id) && forall j :: 0 <= j < |cards| ==> !HasId(cards[j], id)
    ensures FirstWith(cards + [card], id) == |cards|
  {
    var k := FirstWith(cards + [card], id);
    assert HasId((cards + [card])[|cards|], id);
    assert (cards + [card])[..|cards|] == cards;
  }

  lemma {:induction false} UsageGrows(numbers: Numbers, cards: Cards, log: seq<Op>, id: string)
    requires Usage(numbers, cards, id).Some? && forall j :: 0 <= j < |log| ==> LeavesUsage(numbers, log[j], id)
    ensures Usage(numbers, Replay(cards, log), id) == Some(Usage(numbers, cards, id).value + BumpsOf(log, id))
  {
    hide Usage, Apply, LeavesUsage;
    if log != [] {
      var init := log[..|log| - 1];
      UsageGrows(numbers, cards, init, id);
      var n := Usage(numbers, cards, id).value + BumpsOf(init, id);
      UsageStep(numbers, log[|log| - 1], Replay(cards, init), id, n);
    }
  }

  lemma {:induction false} ReplayConcat(start: Cards, a: seq<Op>, b: seq<Op>)
    ensures Replay(start, a + b) == Replay(Replay(start, a), b)
  {
    if b == [] {
      assert a + b == a;
    } else {
      ReplayConcat(start, a, b[..|b| - 1]);
      assert (a + b)[..|a + b| - 1] == a + b[..|b| - 1];
    }
  }

  /**
   From the creation of a card with a new id on, its usage count is the number of its
   committed bumps, as long as it is not deleted and no update patches the count.
   */
  lemma UsageCountsBumps(
    numbers: Numbers, start: Cards, before: seq<Op>, card: Card, after: seq<Op>, id: string)
    requires HasId(card, id) && CountOf(numbers, card) == Some(0)
    requires !Holds(Replay(start, before), id)
    requires forall j :: 0 <= j < |after| ==> LeavesUsage(numbers, after[j], id)
    ensures Usage(numbers, Replay(start, before + [Create(card)] + after), id) == Some(BumpsOf(after, id))
  {
    hide Usage, Holds, Apply, Replay, LeavesUsage, BumpsOf;
    var cards := Replay(start, before);
    CreateAppends(cards, card);
    ReplayConcat(start, before + [Create(card)], after);
    ReplayAppend(start, before, Create(card));
    UsageOfNew(numbers, cards, card, id);
    UsageGrows(numbers, cards + [card], after, id);
  }

  lemma CreateAppends(cards: Cards, card: Card)
    ensures Apply(Create(card), cards).cards == cards + [card]
  {
  }

  lemma UsageOfNew(numbers: Numbers, cards: Cards, card: Card, id: string)
    requires HasId(card, id) && CountOf(numbers, card) == Some(0) && !Holds(cards, id)
    ensures Usage(numbers, cards + [card], id) == Some(0)
  {
    FirstAtEnd(cards, card, id);
  }

  lemma ReplayAppend(start: Cards, log: seq<Op>, op: Op)
    ensures Replay(start, log + [op]) == Apply(op, Replay(start, log)).cards
  {
    assert (log + [op])[..|log|] == log;
  }
}
