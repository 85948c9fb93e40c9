/**
 The bulk import of cards (load_strict and merge_import in clozn/memory/cards.py).

 The rules an import goes by are parameters: the normal form of a text that duplicates
 are found by, and the normal form of a card's scope, if its scope is valid.
 */
module CardImport {
  import opened Common
  import opened Cards

  datatype Mode = Skip | Error

  datatype ImportError =
    | BadStore
    | BadScope
    | MissingId
    | IdHasOtherText(id: string)
    | DuplicateText(id: string)

  /** The list so far, the ids added and the ids skipped. */
  datatype Merge = Merge(merged: Cards, added: seq<string>, skipped: seq<string>)

  datatype Rules = Rules(textKey: Value -> string, scope: Card -> Option<Value>)

  function KeyOf(rules: Rules, c: Card): string {
    rules.textKey(Get(c, "text"))
  }

  predicate UsableId(c: Card) {
    IdOf(c).Some? && IdOf(c).value != ""
  }

  /** What load_strict insists on. */
  predicate StrictOk(cards: Cards) {
    && (forall i :: 0 <= i < |cards| ==> UsableId(cards[i]))
    && (forall i, j :: 0 <= i < j < |cards| ==> IdOf(cards[i]) != IdOf(cards[j]))
  }

  predicate IdTaken(cards: Cards, id: string) {
    exists i :: 0 <= i < |cards| && HasId(cards[i], id)
  }

  predicate TextTaken(rules: Rules, cards: Cards, text: string) {
    exists i :: 0 <= i < |cards| && KeyOf(rules, cards[i]) == text
  }

  /** Some card of the list has this id, and a different text. */
  predicate Clashes(rules: Rules, cards: Cards, c: Card) {
    exists i :: 0 <= i < |cards| && IdOf(cards[i]) == IdOf(c) && KeyOf(rules, cards[i]) != KeyOf(rules, c)
  }

  /** The card with its scope in normal form. */
  function Scoped(rules: Rules, c: Card): (scoped: Card)
    requires rules.scope(c).Some?
    ensures IdOf(scoped) == IdOf(c) && KeyOf(rules, scoped) == KeyOf(rules, c)
  {
    c["scope" := rules.scope(c).value]
  }

  function MergeOne(rules: Rules, mode: Mode, m: Merge, c: Card): Result<Merge, ImportError> {
    if rules.scope(c).None? then Failure(BadScope)
    else if !UsableId(c) then Failure(MissingId)
    else
      var id, text := IdOf(c).value, KeyOf(rules, c);
      if IdTaken(m.merged, id) then
        if Clashes(rules, m.merged, c) then Failure(IdHasOtherText(id))
        else Success(m.(skipped := m.skipped + [id]))
      else if text != "" && TextTaken(rules, m.merged, text) then
        if mode == Error then Failure(DuplicateText(id)) else Success(m.(skipped := m.skipped + [id]))
      else Success(Merge(m.merged + [Scoped(rules, c)], m.added + [id], m.skipped))
  }

  function MergeMany(rules: Rules, mode: Mode, m: Merge, imported: Cards): Result<Merge, ImportError> {
    if imported == [] then Success(m)
    else
      match MergeMany(rules, mode, m, imported[..|imported| - 1])
      case Success(before) => MergeOne(rules, mode, before, imported[|imported| - 1])
      case Failure(e) => Failure(e)
  }

  function Import(rules: Rules, mode: Mode, existing: Cards, imported: Cards): Result<Merge, ImportError> {
    if !StrictOk(existing) then Failure(BadStore)
    else MergeMany(rules, mode, Merge(existing, [], []), imported)
  }

  // --------------------------------------------------------- the indexed loop

  /** The two dictionaries that merge_import keeps beside the list. */
  ghost predicate Indexed(rules: Rules, cards: Cards, byId: map<string, Card>, byText: set<string>) {
    && (forall id :: id in byId <==> IdTaken(cards, id))
    && (forall id :: id in byId ==> byId[id] in cards && HasId(byId[id], id))
    && (forall text :: text in byText <==> text != "" && TextTaken(rules, cards, text))
  }

  /** merge_import up to the write; an error leaves the store as it is. */
  method MergeImport(rules: Rules, mode: Mode, existing: Cards, imported: Cards)
    returns (r: Result<Merge, ImportError>)
    ensures r == Import(rules, mode, existing, imported)
  {
    if !StrictOk(existing) {
      return Failure(BadStore);
    }
    var byId, byText := IndexCards(rules, existing);
    var merged, added: seq<string>, skipped: seq<string> := existing, [], [];
    for k := 0 to |imported|
      invariant StrictOk(merged) && Indexed(rules, merged, byId, byText)
      invariant MergeMany(rules, mode, Merge(existing, [], []), imported[..k]) == Success(Merge(merged, added, skipped))
    {
      assert imported[..k + 1][..k] == imported[..k];
      ghost var next := MergeOne(rules, mode, Merge(merged, added, skipped), imported[k]);
      PrefixFails(rules, mode, Merge(existing, [], []), imported, k + 1);
      if rules.scope(imported[k]).None? {
        return Failure(BadScope);
      }
      var c := Scoped(rules, imported[k]);
      if !UsableId(c) {
        return Failure(MissingId);
      }
      var id, text := IdOf(c).value, KeyOf(rules, c);
      if id in byId {
        ClashIsWithOwner(rules, merged, byId[id], c);
        if KeyOf(rules, byId[id]) != text {
          return Failure(IdHasOtherText(id));
        }
        skipped := skipped + [id];
      } else if text != "" && text in byText {
        if mode == Error {
          return Failure(DuplicateText(id));
        }
        skipped := skipped + [id];
      } else {
        AppendIndexed(rules, merged, byId, byText, c);
        merged, added := merged + [c], added + [id];
        byId := byId[id := c];
        byText := if text != "" then byText + {text} else byText;
      }
    }
    assert imported[..|imported|] == imported;
    r := Success(Merge(merged, added, skipped));
  }

  method IndexCards(rules: Rules, cards: Cards) returns (byId: map<string, Card>, byText: set<string>)
    requires StrictOk(cards)
    ensures Indexed(rules, cards, byId, byText)
  {
    byId, byText := map[], {};
    for k := 0 to |cards|
      invariant Indexed(rules, cards[..k], byId, byText)
    {
      var c := cards[k];
      assert cards[..k + 1] == cards[..k] + [c];
      AppendIndexed(rules, cards[..k], byId, byText, c);
      byId := byId[IdOf(c).value := c];
      var text := KeyOf(rules, c);
      byText := if text != "" then byText + {text} else byText;
    }
    assert cards[..|cards|] == cards;
  }

  lemma TakenAppend(rules: Rules, cards: Cards, c: Card)
    ensures forall id :: IdTaken(cards + [c], id) <==> IdTaken(cards, id) || HasId(c, id)
    ensures forall text ::
      TextTaken(rules, cards + [c], text) <==> TextTaken(rules, cards, text) || KeyOf(rules, c) == text
  {
    forall id ensures IdTaken(cards + [c], id) <==> IdTaken(cards, id) || HasId(c, id) {
      if IdTaken(cards, id) {
        var i :| 0 <= i < |cards| && HasId(cards[i], id);
        assert HasId((cards + [c])[i], id);
      }
      if HasId(c, id) {
        assert HasId((cards + [c])[|cards|], id);
      }
    }
    forall text
      ensures TextTaken(rules, cards + [c], text) <==> TextTaken(rules, cards, text) || KeyOf(rules, c) == text
    {
      if TextTaken(rules, cards, text) {
        var i :| 0 <= i < |cards| && KeyOf(rules, cards[i]) == text;
        assert KeyOf(rules, (cards + [c])[i]) == text;
      }
      if KeyOf(rules, c) == text {
        assert KeyOf(rules, (cards + [c])[|cards|]) == text;
      }
    }
  }

  lemma AppendIndexed(rules: Rules, cards: Cards, byId: map<string, Card>, byText: set<string>, c: Card)
    requires UsableId(c) && Indexed(rules, cards, byId, byText)
    ensures Indexed(rules, cards + [c], byId[IdOf(c).value := c],
                    if KeyOf(rules, c) != "" then byText + {KeyOf(rules, c)} else byText)
  {
    TakenAppend(rules, cards, c);
  }

  lemma ClashIsWithOwner(rules: Rules, cards: Cards, owner: Card, c: Card)
    requires StrictOk(cards) && owner in cards && UsableId(c) && IdOf(owner) == IdOf(c)
    ensures Clashes(rules, cards, c) <==> KeyOf(rules, owner) != KeyOf(rules, c)
  {
    var j :| 0 <= j < |cards| && cards[j] == owner;
    forall i | 0 <= i < |cards| ensures IdOf(cards[i]) == IdOf(c) ==> i == j {
      OneCardPerId(cards, i, j);
    }
  }

  lemma OneCardPerId(cards: Cards, i: nat, j: nat)
    requires StrictOk(cards) && i < |cards| && j < |cards|
    ensures IdOf(cards[i]) == IdOf(cards[j]) ==> i == j
  {
    assert i == j || IdOf(cards[Min(i, j)]) != IdOf(cards[Max(i, j)]);
  }

  /** An error on a prefix is the error of the whole import. */
  lemma {:induction false} PrefixFails(rules: Rules, mode: Mode, m: Merge, imported: Cards, k: nat)
    requires k <= |imported|
    ensures MergeMany(rules, mode, m, imported[..k]).Failure? ==>
      MergeMany(rules, mode, m, imported) == MergeMany(rules, mode, m, imported[..k])
    decreases |imported| - k
  {
    if k == |imported| {
      assert imported[..k] == imported;
    } else {
      assert imported[..k + 1][..k] == imported[..k];
      PrefixFails(rules, mode, m, imported, k + 1);
    }
  }

  // ------------------------------------------------------- what an import keeps

  /** m' comes from m by appending one new card per added id. */
  ghost predicate Extends(m: Merge, m': Merge) {
    && m.merged <= m'.merged && m.added <= m'.added && m.skipped <= m'.skipped
    && |m'.merged| - |m.merged| == |m'.added| - |m.added|
    && forall i :: |m.merged| <= i < |m'.merged| ==>
         IdOf(m'.merged[i]) == Some(m'.added[i - |m.merged| + |m.added|])
  }

  /**
   A successful import keeps the existing list as a prefix and the ids unique, and
   accounts for every imported card as added or skipped.
   */
  lemma {:induction false} ImportExtends(rules: Rules, mode: Mode, m: Merge, imported: Cards)
    requires StrictOk(m.merged) && MergeMany(rules, mode, m, imported).Success?
    ensures var m' := MergeMany(rules, mode, m, imported).value;
      && StrictOk(m'.merged) && Extends(m, m')
      && |m'.added| + |m'.skipped| == |m.added| + |m.skipped| + |imported|
  {
    if imported != [] {
      var init, c := imported[..|imported| - 1], imported[|imported| - 1];
      ImportExtends(rules, mode, m, init);
      var before := MergeMany(rules, mode, m, init).value;
      var after := MergeOne(rules, mode, before, c).value;
      if after.merged != before.merged {
        forall i | 0 <= i < |before.merged| ensures IdOf(before.merged[i]) != IdOf(c) {
          assert IdTaken(before.merged, IdOf(c).value) || !HasId(before.merged[i], IdOf(c).value);
        }
      }
    }
  }

  ghost predicate ComesFrom(rules: Rules, card: Card, imported: Cards) {
    exists j :: 0 <= j < |imported| && rules.scope(imported[j]).Some? && card == Scoped(rules, imported[j])
  }

  /** Every new card is one of the imported ones, with its scope in normal form. */
  lemma {:induction false} NewCardsAreImported(rules: Rules, mode: Mode, m: Merge, imported: Cards, i: nat)
    requires MergeMany(rules, mode, m, imported).Success?
    requires |m.merged| <= i < |MergeMany(rules, mode, m, imported).value.merged|
    ensures ComesFrom(rules, MergeMany(rules, mode, m, imported).value.merged[i], imported)
  {
    var init := imported[..|imported| - 1];
    var before := MergeMany(rules, mode, m, init).value;
    if i < |before.merged| {
      NewCardsAreImported(rules, mode, m, init, i);
    }
  }

  /** A card that a further import will not add. */
  ghost predicate Settled(rules: Rules, mode: Mode, cards: Cards, c: Card) {
    && rules.scope(c).Some? && UsableId(c)
    && (IdTaken(cards, IdOf(c).value)
        || (mode == Skip && KeyOf(rules, c) != "" && TextTaken(rules, cards, KeyOf(rules, c))))
  }

  lemma SettledStays(rules: Rules, mode: Mode, m: Merge, next: Card, c: Card)
    requires Settled(rules, mode, m.merged, c) && MergeOne(rules, mode, m, next).Success?
    ensures Settled(rules, mode, MergeOne(rules, mode, m, next).value.merged, c)
  {
    TakenAppend(rules, m.merged, Scoped(rules, next));
  }

  lemma {:induction false} AllSettled(rules: Rules, mode: Mode, m: Merge, imported: Cards)
    requires MergeMany(rules, mode, m, imported).Success?
    ensures forall i :: 0 <= i < |imported| ==>
      Settled(rules, mode, MergeMany(rules, mode, m, imported).value.merged, imported[i])
  {
    if imported != [] {
      var init, last := imported[..|imported| - 1], imported[|imported| - 1];
      AllSettled(rules, mode, m, init);
      var before := MergeMany(rules, mode, m, init).value;
      TakenAppend(rules, before.merged, Scoped(rules, last));
      forall i | 0 <= i < |imported|
        ensures Settled(rules, mode, MergeOne(rules, mode, before, last).value.merged, imported[i])
      {
        if i < |init| {
          assert imported[i] == init[i];
          SettledStays(rules, mode, before, last, imported[i]);
        }
      }
    }
  }

  ghost predicate NoClash(rules: Rules, cards: Cards, imported: Cards) {
    forall i :: 0 <= i < |imported| ==> !Clashes(rules, cards, imported[i])
  }

  /** Importing settled cards changes nothing, and fails exactly on a clash. */
  lemma {:induction false} ImportSettled(rules: Rules, mode: Mode, m: Merge, imported: Cards)
    requires forall i :: 0 <= i < |imported| ==> Settled(rules, mode, m.merged, imported[i])
    ensures MergeMany(rules, mode, m, imported).Success? <==> NoClash(rules, m.merged, imported)
    ensures MergeMany(rules, mode, m, imported).Success? ==>
      MergeMany(rules, mode, m, imported).value.merged == m.merged
      && MergeMany(rules, mode, m, imported).value.added == m.added
  {
    if imported != [] {
      var init, last := imported[..|imported| - 1], imported[|imported| - 1];
      assert forall i :: 0 <= i < |init| ==> init[i] == imported[i];
      ImportSettled(rules, mode, m, init);
      assert Settled(rules, mode, m.merged, imported[|init|]);
      assert NoClash(rules, m.merged, imported) <==> NoClash(rules, m.merged, init) && !Clashes(rules, m.merged, last);
      NoClashNoError(rules, mode, m.merged, last);
    }
  }

  lemma NoClashNoError(rules: Rules, mode: Mode, cards: Cards, c: Card)
    requires Settled(rules, mode, cards, c)
    ensures Clashes(rules, cards, c) ==> IdTaken(cards, IdOf(c).value)
  {
    if Clashes(rules, cards, c) {
      var i :| 0 <= i < |cards| && IdOf(cards[i]) == IdOf(c) && KeyOf(rules, cards[i]) != KeyOf(rules, c);
      assert HasId(cards[i], IdOf(c).value);
    }
  }

  /**
   Importing the same cards again adds nothing; it succeeds if and only if no imported
   card shares its id with a card of the list that has another text.
   */
  lemma SecondImport(rules: Rules, mode: Mode, existing: Cards, imported: Cards)
    requires Import(rules, mode, existing, imported).Success?
    ensures var cards := Import(rules, mode, existing, imported).value.merged;
      && (Import(rules, mode, cards, imported).Success? <==> NoClash(rules, cards, imported))
      && (Import(rules, mode, cards, imported).Success? ==>
            Import(rules, mode, cards, imported).value.merged == cards
            && Import(rules, mode, cards, imported).value.added == [])
  {
    var first := Merge(existing, [], []);
    ImportExtends(rules, mode, first, imported);
    AllSettled(rules, mode, first, imported);
    var cards := MergeMany(rules, mode, first, imported).value.merged;
    ImportSettled(rules, mode, Merge(cards, [], []), imported);
  }

  ghost predicate DistinctIds(imported: Cards) {
    forall i, j :: 0 <= i < j < |imported| ==> IdOf(imported[i]) != IdOf(imported[j])
  }

  lemma ClashesAppend(rules: Rules, cards: Cards, next: Card, c: Card)
    requires IdOf(next) != IdOf(c) || KeyOf(rules, next) == KeyOf(rules, c)
    ensures Clashes(rules, cards + [next], c) <==> Clashes(rules, cards, c)
  {
    if Clashes(rules, cards, c) {
      var i :| 0 <= i < |cards| && IdOf(cards[i]) == IdOf(c) && KeyOf(rules, cards[i]) != KeyOf(rules, c);
      assert (cards + [next])[i] == cards[i];
    }
  }

  /** Clashes cannot arise where ids are distinct, nor where a duplicate text is an error. */
  lemma {:induction false} NoClashArises(rules: Rules, mode: Mode, m: Merge, imported: Cards)
    requires StrictOk(m.merged) && MergeMany(rules, mode, m, imported).Success?
    requires DistinctIds(imported) || mode == Error
    ensures NoClash(rules, MergeMany(rules, mode, m, imported).value.merged, imported)
  {
    if imported != [] {
      var init, last := imported[..|imported| - 1], imported[|imported| - 1];
      NoClashArises(rules, mode, m, init);
      ImportExtends(rules, mode, m, init);
      AllSettled(rules, mode, m, init);
      var before := MergeMany(rules, mode, m, init).value;
      var after := MergeOne(rules, mode, before, last).value;
      NoOwnerNoClash(rules, before.merged, last);
      forall i | 0 <= i < |imported| ensures !Clashes(rules, after.merged, imported[i]) {
        if i < |init| {
          assert Settled(rules, mode, before.merged, init[i]);
          NoClashKept(rules, mode, before, last, init[i]);
        } else if after.merged != before.merged {
          ClashesAppend(rules, before.merged, Scoped(rules, last), last);
        }
      }
    }
  }

  lemma NoClashKept(rules: Rules, mode: Mode, m: Merge, next: Card, c: Card)
    requires Settled(rules, mode, m.merged, c) && !Clashes(rules, m.merged, c)
    requires MergeOne(rules, mode, m, next).Success?
    requires IdTaken(m.merged, IdOf(c).value) || IdOf(next) != IdOf(c)
    ensures !Clashes(rules, MergeOne(rules, mode, m, next).value.merged, c)
  {
    if MergeOne(rules, mode, m, next).value.merged != m.merged {
      ClashesAppend(rules, m.merged, Scoped(rules, next), c);
    }
  }

  lemma NoOwnerNoClash(rules: Rules, cards: Cards, c: Card)
    requires UsableId(c)
    ensures !IdTaken(cards, IdOf(c).value) ==> !Clashes(rules, cards, c)
  {
    if Clashes(rules, cards, c) {
      var i :| 0 <= i < |cards| && IdOf(cards[i]) == IdOf(c) && KeyOf(rules, cards[i]) != KeyOf(rules, c);
      assert HasId(cards[i], IdOf(c).value);
    }
  }

  /** With distinct ids a repeated import always succeeds and adds nothing. */
  lemma ImportTwice(rules: Rules, mode: Mode, existing: Cards, imported: Cards)
    requires Import(rules, mode, existing, imported).Success?
    requires DistinctIds(imported) || mode == Error
    ensures var cards := Import(rules, mode, existing, imported).value.merged;
      && Import(rules, mode, cards, imported).Success?
      && Import(rules, mode, cards, imported).value.merged == cards
      && Import(rules, mode, cards, imported).value.added == []
  {
    NoClashArises(rules, mode, Merge(existing, [], []), imported);
    SecondImport(rules, mode, existing, imported);
  }

  /** Without them it may fail: a card skipped for its text, then another card with its id. */
  lemma RepeatedIdsFailTheSecondTime() returns (rules: Rules, existing: Cards, imported: Cards)
    ensures forall card :: card in existing + imported ==> "scope" !in card
    ensures forall card: Card :: "scope" in card && card["scope"].Null? ==> rules.scope(card) == None
    ensures Import(rules, Skip, existing, imported).Success?
    ensures Import(rules, Skip, Import(rules, Skip, existing, imported).value.merged, imported)
         == Failure(IdHasOtherText("b"))
  {
    rules := Rules((v: Value) => if v.Str? then v.text else "",
                   (c: Card) => if "scope" !in c || c["scope"] == Compound(false) then Some(Compound(false)) else None);
    var a: Card := map["id" := Str("a"), "text" := Str("tea")];
    var b: Card := map["id" := Str("b"), "text" := Str("tea")];
    var c: Card := map["id" := Str("b"), "text" := Str("milk")];
    var d := c["scope" := Compound(false)];
    existing, imported := [a], [b, c];
    assert imported[..1] == [b] && [b][..0] == [];
    var first, second := Merge([a], [], []), Merge([a, d], [], []);
    assert KeyOf(rules, existing[0]) == "tea" && KeyOf(rules, b) == "tea";
    assert Scoped(rules, c) == d;
    assert UsableId(b) && IdOf(b).value == "b" && !HasId(a, "b");
    assert !IdTaken(first.merged, "b") && TextTaken(rules, first.merged, "tea");
    assert first.skipped + ["b"] == ["b"];
    assert MergeOne(rules, Skip, first, b) == Success(Merge([a], [], ["b"]));
    assert MergeMany(rules, Skip, first, [b]) == MergeOne(rules, Skip, first, b);
    assert MergeOne(rules, Skip, Merge([a], [], ["b"]), c) == Success(Merge([a] + [d], ["b"], ["b"]));
    assert [a] + [d] == [a, d];
    assert HasId(second.merged[1], "b") && KeyOf(rules, second.merged[1]) == "milk";
    assert Clashes(rules, second.merged, b);
    assert MergeMany(rules, Skip, second, [b]) == MergeOne(rules, Skip, second, b);
  }
}
