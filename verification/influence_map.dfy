/**
 The arms of one influence map: every coarse span is scored, then the strongest of them
 that clear the floor are split and their pieces scored; then the two strongest spans of all
 are replaced together (the arm loops of context_answer_influence and the choice of
 _redundancy_check in clozn/receipts/context_answer_influence.py).

 Scoring, splitting and the order of span ids are functions; None is a score call that
 failed or did not align.
 */
module InfluenceMap {
  import opened Common
  import opened SpanEdits

  datatype Span = Span(id: string, place: Edit)

  type Row = seq<real>

  datatype Lab = Lab(score: Span -> Option<Row>, refine: Span -> seq<Span>, order: string -> int)

  /** max(abs(delta) for delta in row), 0 for an empty row */
  function Magnitude(row: Row): (m: real)
    ensures m >= 0.0 && forall i :: 0 <= i < |row| ==> Abs(row[i]) <= m
    ensures row == [] ==> m == 0.0
    ensures row != [] ==> exists i :: 0 <= i < |row| && m == Abs(row[i])
  {
    if row == [] then 0.0
    else
      var before, last := Magnitude(row[..|row| - 1]), Abs(row[|row| - 1]);
      assert forall i :: 0 <= i < |row| - 1 ==> row[..|row| - 1][i] == row[i];
      assert |row| == 1 ==> before == 0.0;
      assert last > before ==> last == Abs(row[|row| - 1]);
      if last > before then last else before
  }

  function Strength(lab: Lab, span: Span): real {
    match lab.score(span)
    case Some(row) => Magnitude(row)
    case None => 0.0
  }

  /** The sort key: strongest first, equally strong ones by id. */
  predicate Precedes(lab: Lab, a: Span, b: Span) {
    || Strength(lab, a) > Strength(lab, b)
    || (Strength(lab, a) == Strength(lab, b) && lab.order(a.id) < lab.order(b.id))
  }

  function InsertSpan(lab: Lab, x: Span, spans: seq<Span>): seq<Span> {
    if spans == [] then [x]
    else if Precedes(lab, x, spans[0]) then [x] + spans
    else [spans[0]] + InsertSpan(lab, x, spans[1..])
  }

  function Ranked(lab: Lab, spans: seq<Span>): seq<Span> {
    if spans == [] then [] else InsertSpan(lab, spans[|spans| - 1], Ranked(lab, spans[..|spans| - 1]))
  }

  predicate InOrder(lab: Lab, spans: seq<Span>) {
    forall i, j :: 0 <= i < j < |spans| ==> !Precedes(lab, spans[j], spans[i])
  }

  lemma {:induction false} InsertMembers(lab: Lab, x: Span, spans: seq<Span>)
    ensures multiset(InsertSpan(lab, x, spans)) == multiset(spans) + multiset{x}
  {
    if spans != [] {
      assert spans == [spans[0]] + spans[1..];
      InsertMembers(lab, x, spans[1..]);
    }
  }

  lemma {:induction false} InsertInOrder(lab: Lab, x: Span, spans: seq<Span>)
    requires InOrder(lab, spans)
    ensures InOrder(lab, InsertSpan(lab, x, spans))
  {
    if spans != [] {
      var first, rest := spans[0], spans[1..];
      if Precedes(lab, x, first) {
        AheadOfAll(lab, x, spans);
        ConsInOrder(lab, x, spans);
      } else {
        InsertInOrder(lab, x, rest);
        InsertMembers(lab, x, rest);
        forall s | s in InsertSpan(lab, x, rest) ensures !Precedes(lab, s, first) {
          assert s in multiset(InsertSpan(lab, x, rest));
          assert s == x || s in rest;
        }
        ConsInOrder(lab, first, InsertSpan(lab, x, rest));
      }
    }
  }

  lemma AheadOfAll(lab: Lab, x: Span, spans: seq<Span>)
    requires InOrder(lab, spans) && spans != [] && Precedes(lab, x, spans[0])
    ensures forall s :: s in spans ==> !Precedes(lab, s, x)
  {
    forall i | 0 <= i < |spans| ensures !Precedes(lab, spans[i], x) {
      assert i == 0 || !Precedes(lab, spans[i], spans[0]);
    }
  }

  lemma ConsInOrder(lab: Lab, first: Span, rest: seq<Span>)
    requires InOrder(lab, rest) && forall s :: s in rest ==> !Precedes(lab, s, first)
    ensures InOrder(lab, [first] + rest)
  {
    hide Precedes;
    var all := [first] + rest;
    forall i, j | 0 <= i < j < |all| ensures !Precedes(lab, all[j], all[i]) {
      assert all[j] == rest[j - 1];
    }
  }

  lemma {:induction false} RankedOk(lab: Lab, spans: seq<Span>)
    ensures InOrder(lab, Ranked(lab, spans)) && multiset(Ranked(lab, spans)) == multiset(spans)
  {
    if spans != [] {
      var init, last := spans[..|spans| - 1], spans[|spans| - 1];
      RankedOk(lab, init);
      InsertInOrder(lab, last, Ranked(lab, init));
      InsertMembers(lab, last, Ranked(lab, init));
      assert spans == init + [last];
    }
  }

  // ------------------------------------------------------------ which are refined

  predicate Refinable(lab: Lab, floor: real, span: Span) {
    Strength(lab, span) >= floor && |lab.refine(span)| >= 2
  }

  function Refining(lab: Lab, floor: real): Span -> bool {
    s => Refinable(lab, floor, s)
  }

  function Filtered(keep: Span -> bool, spans: seq<Span>): seq<Span> {
    if spans == [] then []
    else
      var last := spans[|spans| - 1];
      Filtered(keep, spans[..|spans| - 1]) + if keep(last) then [last] else []
  }

  /** The strongest refinable spans, as many as permitted. */
  function Selected(lab: Lab, floor: real, limit: nat, spans: seq<Span>): seq<Span> {
    var all := Filtered(Refining(lab, floor), Ranked(lab, spans));
    if |all| <= limit then all else all[..limit]
  }

  function Pieces(lab: Lab, parents: seq<Span>): seq<Span> {
    if parents == [] then [] else Pieces(lab, parents[..|parents| - 1]) + lab.refine(parents[|parents| - 1])
  }

  predicate AllScore(lab: Lab, arms: seq<Span>) {
    forall i :: 0 <= i < |arms| ==> lab.score(arms[i]).Some?
  }

  /** Every arm that a map consists of, in the order of scoring. */
  function Arms(lab: Lab, floor: real, limit: nat, spans: seq<Span>): seq<Span> {
    if AllScore(lab, spans) then spans + Pieces(lab, Selected(lab, floor, limit, spans)) else spans
  }

  lemma {:induction false} FilteredMembers(keep: Span -> bool, spans: seq<Span>, s: Span)
    ensures s in Filtered(keep, spans) <==> s in spans && keep(s)
  {
    if spans != [] {
      FilteredMembers(keep, spans[..|spans| - 1], s);
      assert spans == spans[..|spans| - 1] + [spans[|spans| - 1]];
    }
  }

  lemma {:induction false} FilteredPrefix(keep: Span -> bool, spans: seq<Span>, n: nat)
    requires n <= |spans|
    ensures Filtered(keep, spans[..n]) <= Filtered(keep, spans)
    decreases |spans| - n
  {
    if n == |spans| {
      assert spans[..n] == spans;
    } else {
      assert spans[..n + 1][..n] == spans[..n];
      FilteredPrefix(keep, spans, n + 1);
    }
  }

  /** Behind the first one below the floor there is nothing to refine. */
  lemma {:induction false} NoneBelow(lab: Lab, floor: real, ranked: seq<Span>, n: nat, k: nat)
    requires InOrder(lab, ranked) && n <= k <= |ranked| && n < |ranked| && Strength(lab, ranked[n]) < floor
    ensures Filtered(Refining(lab, floor), ranked[..k]) == Filtered(Refining(lab, floor), ranked[..n])
    decreases k - n
  {
    if k > n {
      assert ranked[..k][..k - 1] == ranked[..k - 1];
      assert k - 1 == n || !Precedes(lab, ranked[k - 1], ranked[n]);
      NoneBelow(lab, floor, ranked, n, k - 1);
    }
  }

  /**
   Only refinable spans are refined, never more than permitted, and none is passed over
   for one that it precedes; below the limit none is passed over at all.
   */
  lemma StrongestAreRefined(lab: Lab, floor: real, limit: nat, spans: seq<Span>, a: Span, b: Span)
    ensures var selected := Selected(lab, floor, limit, spans);
      && |selected| <= limit
      && (a in selected ==> a in spans && Refinable(lab, floor, a))
      && (a in selected && b in spans && Refinable(lab, floor, b) && Precedes(lab, b, a) ==> b in selected)
      && (|selected| < limit && b in spans && Refinable(lab, floor, b) ==> b in selected)
  {
    hide Refinable, Precedes, Ranked, Filtered;
    var ranked := Ranked(lab, spans);
    var all := Filtered(Refining(lab, floor), ranked);
    RankedOk(lab, spans);
    assert forall s :: s in spans <==> s in multiset(spans);
    assert forall s :: s in ranked <==> s in multiset(ranked);
    FilteredMembers(Refining(lab, floor), ranked, a);
    FilteredMembers(Refining(lab, floor), ranked, b);
    FilteredInOrder(lab, Refining(lab, floor), ranked);
    var selected := Selected(lab, floor, limit, spans);
    assert selected <= all;
    if a in selected && b in all && Precedes(lab, b, a) {
      var i :| 0 <= i < |selected| && selected[i] == a;
      var j :| 0 <= j < |all| && all[j] == b;
      assert all[i] == a;
      assert i == j || !Precedes(lab, all[Max(i, j)], all[Min(i, j)]);
      assert selected[j] == b;
    }
  }

  lemma {:induction false} FilteredInOrder(lab: Lab, keep: Span -> bool, spans: seq<Span>)
    requires InOrder(lab, spans)
    ensures InOrder(lab, Filtered(keep, spans))
  {
    hide Precedes;
    if spans != [] {
      var init, last := spans[..|spans| - 1], spans[|spans| - 1];
      FilteredInOrder(lab, keep, init);
      var kept := Filtered(keep, init);
      forall i | 0 <= i < |kept| ensures !Precedes(lab, last, kept[i]) {
        FilteredMembers(keep, init, kept[i]);
        var k :| 0 <= k < |init| && init[k] == kept[i];
        assert spans[k] == kept[i];
      }
    }
  }

  lemma {:induction false} PiecesPrefix(lab: Lab, parents: seq<Span>, n: nat)
    requires n <= |parents|
    ensures Pieces(lab, parents[..n]) <= Pieces(lab, parents)
    decreases |parents| - n
  {
    if n == |parents| {
      assert parents[..n] == parents;
    } else {
      assert parents[..n + 1][..n] == parents[..n];
      PiecesPrefix(lab, parents, n + 1);
    }
  }

  /** The coarse spans come first; if all of them score, the pieces of each refined span follow in its turn. */
  lemma ArmsInOrder(lab: Lab, floor: real, limit: nat, spans: seq<Span>, n: nat)
    requires n < |Selected(lab, floor, limit, spans)|
    ensures var arms, selected := Arms(lab, floor, limit, spans), Selected(lab, floor, limit, spans);
      && At(arms, 0, spans)
      && (!AllScore(lab, spans) ==> arms == spans)
      && (AllScore(lab, spans) ==> At(arms, |spans| + |Pieces(lab, selected[..n])|, lab.refine(selected[n])))
      && (AllScore(lab, spans) && n == |selected| - 1 ==>
            |arms| == |spans| + |Pieces(lab, selected[..n])| + |lab.refine(selected[n])|)
  {
    hide Selected;
    var selected := Selected(lab, floor, limit, spans);
    var arms, before := Arms(lab, floor, limit, spans), Pieces(lab, selected[..n]);
    AtWhole(arms);
    if AllScore(lab, spans) {
      PiecesPrefix(lab, selected, n + 1);
      assert selected[..n + 1][..n] == selected[..n];
      var upTo := Pieces(lab, selected[..n + 1]);
      assert upTo == before + lab.refine(selected[n]);
      var rest := Pieces(lab, selected)[|upTo|..];
      assert Pieces(lab, selected) == upTo + rest;
      AtSplit(arms, 0, spans, upTo + rest);
      AtSplit(arms, |spans|, upTo, rest);
      AtSplit(arms, |spans|, before, lab.refine(selected[n]));
      if n == |selected| - 1 {
        assert selected[..n + 1] == selected;
      }
    }
  }

  // ------------------------------------------------------------------- the loops

  ghost predicate Scored(lab: Lab, done: seq<Span>, matrix: seq<Row>) {
    |matrix| == |done| && forall i :: 0 <= i < |done| ==> lab.score(done[i]) == Some(matrix[i])
  }

  /** Scores arms one after the other, up to the first that fails. */
  method ScoreEach(lab: Lab, arms: seq<Span>) returns (matrix: seq<Row>, ok: bool)
    ensures |matrix| <= |arms| && Scored(lab, arms[..|matrix|], matrix)
    ensures ok <==> |matrix| == |arms|
    ensures !ok ==> lab.score(arms[|matrix|]).None?
  {
    matrix := [];
    for k := 0 to |arms|
      invariant |matrix| == k && Scored(lab, arms[..k], matrix)
    {
      var row := lab.score(arms[k]);
      if row.None? {
        return matrix, false;
      }
      matrix := matrix + [row.value];
    }
    ok := true;
  }

  /** Where the selection stands after n spans in rank order, none of them below the floor. */
  ghost predicate SelectedSoFar(lab: Lab, floor: real, limit: nat, ranked: seq<Span>, n: nat, refined: seq<Span>) {
    n <= |ranked| && refined == Filtered(Refining(lab, floor), ranked[..n]) && |refined| <= limit
  }

  lemma SelectionStep(lab: Lab, floor: real, limit: nat, spans: seq<Span>, n: nat, refined: seq<Span>)
    requires var ranked := Ranked(lab, spans);
      n < |ranked| && SelectedSoFar(lab, floor, limit, ranked, n, refined) && |refined| < limit
      && Refinable(lab, floor, ranked[n])
    ensures var ranked := Ranked(lab, spans);
      SelectedSoFar(lab, floor, limit, ranked, n + 1, refined + [ranked[n]])
      && refined + [ranked[n]] <= Selected(lab, floor, limit, spans)
  {
    var ranked := Ranked(lab, spans);
    assert ranked[..n + 1][..n] == ranked[..n];
    FilteredPrefix(Refining(lab, floor), ranked, n + 1);
  }

  /** Where the loop stops, the selection is complete. */
  lemma SelectionEnds(lab: Lab, floor: real, limit: nat, spans: seq<Span>, n: nat, refined: seq<Span>)
    requires SelectedSoFar(lab, floor, limit, Ranked(lab, spans), n, refined)
    requires n == |Ranked(lab, spans)| || |refined| == limit || Strength(lab, Ranked(lab, spans)[n]) < floor
    ensures refined == Selected(lab, floor, limit, spans)
  {
    var ranked := Ranked(lab, spans);
    RankedOk(lab, spans);
    assert ranked[..|ranked|] == ranked;
    FilteredPrefix(Refining(lab, floor), ranked, n);
    if n < |ranked| && Strength(lab, ranked[n]) < floor {
      NoneBelow(lab, floor, ranked, n, |ranked|);
    }
  }

  /** The pieces of one more parent are arms of the map. */
  lemma PiecesAreArms(lab: Lab, floor: real, limit: nat, spans: seq<Span>, refined: seq<Span>, parent: Span)
    requires AllScore(lab, spans) && refined + [parent] <= Selected(lab, floor, limit, spans)
    ensures spans + Pieces(lab, refined) + lab.refine(parent) <= Arms(lab, floor, limit, spans)
  {
    hide Selected;
    var selected, next := Selected(lab, floor, limit, spans), refined + [parent];
    assert next == selected[..|next|] && next[..|refined|] == refined;
    PiecesPrefix(lab, selected, |next|);
    assert Pieces(lab, next) == Pieces(lab, refined) + lab.refine(parent);
    assert spans + Pieces(lab, refined) + lab.refine(parent) == spans + Pieces(lab, next);
  }

  /**
   The two arm loops. A map that comes out has exactly one row for each of its arms, the
   coarse ones first; one that fails has scored the arms before the first that failed.
   */
  method BuildMap(lab: Lab, floor: real, limit: nat, spans: seq<Span>)
    returns (done: seq<Span>, matrix: seq<Row>, refined: seq<Span>, failed: Option<Span>)
    ensures Scored(lab, done, matrix)
    ensures failed.None? ==> done == Arms(lab, floor, limit, spans) && refined == Selected(lab, floor, limit, spans)
    ensures failed.Some? ==> lab.score(failed.value).None?
    ensures failed.Some? ==> done + [failed.value] <= Arms(lab, floor, limit, spans)
  {
    hide Selected, Ranked, Pieces, Arms, Refinable, Filtered;
    refined := [];
    var ok: bool;
    matrix, ok := ScoreEach(lab, spans);
    done := spans[..|matrix|];
    if !ok {
      CoarseFailure(lab, floor, limit, spans, |matrix|);
      return done, matrix, refined, Some(spans[|matrix|]);
    }
    CoarseDone(lab, floor, spans, matrix);
    var ranked := Ranked(lab, spans);
    var n := 0;
    while n < |ranked| && |refined| < limit && Strength(lab, ranked[n]) >= floor
      invariant SelectedSoFar(lab, floor, limit, ranked, n, refined)
      invariant done == spans + Pieces(lab, refined) && Scored(lab, done, matrix)
      decreases |ranked| - n
    {
      var parent := ranked[n];
      var fine := lab.refine(parent);
      if |fine| < 2 {
        Skipped(lab, floor, ranked, n);
      } else {
        SplitIsRefinable(lab, floor, parent);
        SelectionStep(lab, floor, limit, spans, n, refined);
        PiecesAreArms(lab, floor, limit, spans, refined, parent);
        var rows, all := ScoreEach(lab, fine);
        ScoredConcat(lab, done, matrix, fine[..|rows|], rows);
        if !all {
          done, matrix := done + fine[..|rows|], matrix + rows;
          assert done + [fine[|rows|]] == spans + Pieces(lab, refined) + fine[..|rows| + 1];
          return done, matrix, refined, Some(fine[|rows|]);
        }
        assert fine[..|rows|] == fine;
        MorePieces(lab, refined, parent);
        assert done + fine == spans + Pieces(lab, refined + [parent]);
        done, matrix, refined := done + fine, matrix + rows, refined + [parent];
      }
      n := n + 1;
    }
    SelectionEnds(lab, floor, limit, spans, n, refined);
    AllArms(lab, floor, limit, spans);
    failed := None;
  }

  lemma CoarseFailure(lab: Lab, floor: real, limit: nat, spans: seq<Span>, k: nat)
    requires k < |spans| && lab.score(spans[k]).None?
    ensures spans[..k] + [spans[k]] <= Arms(lab, floor, limit, spans)
  {
    hide Selected, Pieces;
    assert spans[..k] + [spans[k]] == spans[..k + 1];
  }

  lemma CoarseDone(lab: Lab, floor: real, spans: seq<Span>, matrix: seq<Row>)
    requires |matrix| == |spans| && Scored(lab, spans[..|matrix|], matrix)
    ensures AllScore(lab, spans) && spans[..|matrix|] == spans + Pieces(lab, [])
    ensures Filtered(Refining(lab, floor), Ranked(lab, spans)[..0]) == []
  {
    assert spans[..|matrix|] == spans;
  }

  lemma Skipped(lab: Lab, floor: real, ranked: seq<Span>, n: nat)
    requires n < |ranked| && |lab.refine(ranked[n])| < 2
    ensures Filtered(Refining(lab, floor), ranked[..n + 1]) == Filtered(Refining(lab, floor), ranked[..n])
  {
    assert ranked[..n + 1][..n] == ranked[..n];
  }

  lemma SplitIsRefinable(lab: Lab, floor: real, span: Span)
    requires Strength(lab, span) >= floor && |lab.refine(span)| >= 2
    ensures Refinable(lab, floor, span)
  {
  }

  lemma MorePieces(lab: Lab, refined: seq<Span>, parent: Span)
    ensures Pieces(lab, refined + [parent]) == Pieces(lab, refined) + lab.refine(parent)
  {
    assert (refined + [parent])[..|refined|] == refined;
  }

  lemma ScoredConcat(lab: Lab, a: seq<Span>, m: seq<Row>, b: seq<Span>, n: seq<Row>)
    requires Scored(lab, a, m) && Scored(lab, b, n)
    ensures Scored(lab, a + b, m + n)
  {
  }

  lemma AllArms(lab: Lab, floor: real, limit: nat, spans: seq<Span>)
    requires AllScore(lab, spans)
    ensures Arms(lab, floor, limit, spans) == spans + Pieces(lab, Selected(lab, floor, limit, spans))
  {
  }

  // ------------------------------------------------------------- the joint arm

  function Clearing(lab: Lab, floor: real): Span -> bool {
    s => Strength(lab, s) >= floor
  }

  /** The two spans that _redundancy_check replaces together: the strongest of all, coarse and fine. */
  function JointPair(lab: Lab, floor: real, done: seq<Span>): Option<(Span, Span)> {
    var clearing := Filtered(Clearing(lab, floor), Ranked(lab, done));
    if |clearing| < 2 then None else Some((clearing[0], clearing[1]))
  }

  /** Both clear the floor, and no other span that clears it precedes them. */
  lemma JointPairIsStrongest(lab: Lab, floor: real, done: seq<Span>, s: Span)
    requires JointPair(lab, floor, done).Some?
    ensures var (a, b) := JointPair(lab, floor, done).value;
      && a in done && b in done && Strength(lab, a) >= floor && Strength(lab, b) >= floor
      && !Precedes(lab, b, a)
      && (s in done && Strength(lab, s) >= floor && s != a && s != b ==> !Precedes(lab, s, a) && !Precedes(lab, s, b))
  {
    hide Precedes, Ranked, Filtered;
    var ranked := Ranked(lab, done);
    var clearing := Filtered(Clearing(lab, floor), ranked);
    RankedOk(lab, done);
    assert forall x :: x in done <==> x in multiset(done);
    assert forall x :: x in ranked <==> x in multiset(ranked);
    FilteredInOrder(lab, Clearing(lab, floor), ranked);
    FilteredMembers(Clearing(lab, floor), ranked, clearing[0]);
    FilteredMembers(Clearing(lab, floor), ranked, clearing[1]);
    FilteredMembers(Clearing(lab, floor), ranked, s);
    if s in clearing && s != clearing[0] && s != clearing[1] {
      var k :| 0 <= k < |clearing| && clearing[k] == s;
      assert k > 1 && !Precedes(lab, clearing[k], clearing[0]) && !Precedes(lab, clearing[k], clearing[1]);
    }
  }

  predicate Apart(a: Edit, b: Edit) {
    a.target != b.target || Disjoint(a, b)
  }

  predicate PieceOf(child: Edit, parent: Edit) {
    child.target == parent.target && child.start < child.end && Within(child, parent)
  }

  ghost predicate SpansApart(spans: seq<Span>) {
    && (forall i :: 0 <= i < |spans| ==> spans[i].place.start < spans[i].place.end)
    && forall i, j :: 0 <= i < j < |spans| ==> Apart(spans[i].place, spans[j].place)
  }

  /**
   What segment_context and _refine_span promise (see MapSpans): coarse spans apart, pieces
   apart and inside their parents.
   */
  ghost predicate WellPlaced(lab: Lab, spans: seq<Span>) {
    && SpansApart(spans)
    && forall p :: p in spans ==>
         SpansApart(lab.refine(p)) && forall s :: s in lab.refine(p) ==> PieceOf(s.place, p.place)
  }

  predicate ParentOf(lab: Lab, spans: seq<Span>, parent: Span, child: Span) {
    parent in spans && child in lab.refine(parent)
  }

  lemma SpansDiffer(spans: seq<Span>, a: Span, b: Span)
    requires SpansApart(spans) && a in spans && b in spans && a != b
    ensures Apart(a.place, b.place)
  {
    var i :| 0 <= i < |spans| && spans[i] == a;
    var j :| 0 <= j < |spans| && spans[j] == b;
    assert Apart(spans[Min(i, j)].place, spans[Max(i, j)].place);
  }

  lemma {:induction false} PieceHasParent(lab: Lab, parents: seq<Span>, s: Span) returns (parent: Span)
    requires s in Pieces(lab, parents)
    ensures parent in parents && s in lab.refine(parent)
  {
    var init, last := parents[..|parents| - 1], parents[|parents| - 1];
    assert parents == init + [last];
    if s in lab.refine(last) {
      parent := last;
    } else {
      parent := PieceHasParent(lab, init, s);
    }
  }

  /** Every arm is a coarse span or a piece of one. */
  lemma ArmKinds(lab: Lab, floor: real, limit: nat, spans: seq<Span>, s: Span) returns (top: Span)
    requires s in Arms(lab, floor, limit, spans)
    ensures top in spans && (s == top || s in lab.refine(top))
  {
    hide Selected, Pieces;
    var selected := Selected(lab, floor, limit, spans);
    if s in spans {
      top := s;
    } else {
      top := PieceHasParent(lab, selected, s);
      StrongestAreRefined(lab, floor, limit, spans, top, top);
    }
  }

  /** Two different arms overlap only if one is a piece of the other. */
  lemma ApartUnlessParent(lab: Lab, spans: seq<Span>, a: Span, b: Span, p: Span, q: Span)
    requires WellPlaced(lab, spans) && a != b
    requires p in spans && (a == p || a in lab.refine(p))
    requires q in spans && (b == q || b in lab.refine(q))
    ensures Apart(a.place, b.place) || ParentOf(lab, spans, a, b) || ParentOf(lab, spans, b, a)
  {
    hide SpansApart;
    if p == q {
      if a != p && b != p {
        SpansDiffer(lab.refine(p), a, b);
      }
    } else {
      SpansDiffer(spans, p, q);
    }
  }

  lemma ParentOverlaps(lab: Lab, spans: seq<Span>, parent: Span, child: Span)
    requires WellPlaced(lab, spans) && ParentOf(lab, spans, parent, child)
    ensures !Apart(parent.place, child.place)
  {
    hide SpansApart;
    assert PieceOf(child.place, parent.place);
  }

  // ------------------------------------------------------- no arm comes twice

  lemma {:induction false} DistinctOnce(xs: seq<Span>, x: Span)
    requires Distinct(xs)
    ensures multiset(xs)[x] <= 1
  {
    if xs != [] {
      var init, last := xs[..|xs| - 1], xs[|xs| - 1];
      assert xs == init + [last];
      DistinctOnce(init, x);
      if x == last {
        assert x !in init;
        assert x !in multiset(init);
      }
    }
  }

  lemma {:induction false} OnceDistinct(xs: seq<Span>)
    requires forall x :: multiset(xs)[x] <= 1
    ensures Distinct(xs)
  {
    if xs != [] {
      var init, last := xs[..|xs| - 1], xs[|xs| - 1];
      assert xs == init + [last];
      forall x ensures multiset(init)[x] <= 1 {
        assert multiset(xs)[x] == multiset(init)[x] + multiset([last])[x];
      }
      OnceDistinct(init);
      assert multiset(xs)[last] == multiset(init)[last] + 1;
      assert last !in multiset(init);
      assert last !in init;
    }
  }

  lemma RankedDistinct(lab: Lab, spans: seq<Span>)
    requires Distinct(spans)
    ensures Distinct(Ranked(lab, spans))
  {
    RankedOk(lab, spans);
    forall x ensures multiset(Ranked(lab, spans))[x] <= 1 {
      DistinctOnce(spans, x);
    }
    OnceDistinct(Ranked(lab, spans));
  }

  lemma {:induction false} FilteredDistinct(keep: Span -> bool, spans: seq<Span>)
    requires Distinct(spans)
    ensures Distinct(Filtered(keep, spans))
  {
    if spans != [] {
      var init, last := spans[..|spans| - 1], spans[|spans| - 1];
      FilteredDistinct(keep, init);
      FilteredMembers(keep, init, last);
      assert last !in init;
      DistinctConcat(Filtered(keep, init), if keep(last) then [last] else []);
    }
  }

  lemma ApartDistinct(spans: seq<Span>)
    requires SpansApart(spans)
    ensures Distinct(spans)
  {
    forall i, j | 0 <= i < j < |spans| ensures spans[i] != spans[j] {
      assert Apart(spans[i].place, spans[j].place);
    }
  }

  /** Pieces of different coarse spans differ. */
  lemma PiecesApart(lab: Lab, spans: seq<Span>, p: Span, q: Span, s: Span)
    requires WellPlaced(lab, spans) && p in spans && q in spans && p != q
    requires s in lab.refine(p)
    ensures s !in lab.refine(q)
  {
    SpansDiffer(spans, p, q);
    assert PieceOf(s.place, p.place);
    assert s in lab.refine(q) ==> PieceOf(s.place, q.place);
  }

  lemma {:induction false} PiecesDistinct(lab: Lab, spans: seq<Span>, parents: seq<Span>)
    requires WellPlaced(lab, spans) && Distinct(parents) && forall p :: p in parents ==> p in spans
    ensures Distinct(Pieces(lab, parents))
  {
    hide WellPlaced;
    if parents != [] {
      var init, last := parents[..|parents| - 1], parents[|parents| - 1];
      assert last !in init && last in spans && forall p :: p in init ==> p in spans;
      PiecesDistinct(lab, spans, init);
      OwnPiecesDistinct(lab, spans, last);
      forall s | s in Pieces(lab, init) ensures s !in lab.refine(last) {
        var p := PieceHasParent(lab, init, s);
        PiecesApart(lab, spans, p, last, s);
      }
      DistinctConcat(Pieces(lab, init), lab.refine(last));
    }
  }

  lemma OwnPiecesDistinct(lab: Lab, spans: seq<Span>, p: Span)
    requires WellPlaced(lab, spans) && p in spans
    ensures Distinct(lab.refine(p))
  {
    ApartDistinct(lab.refine(p));
  }

  /** A piece of a span that is split is smaller than the span. */
  lemma PieceIsSmaller(lab: Lab, spans: seq<Span>, p: Span, s: Span)
    requires WellPlaced(lab, spans) && p in spans && |lab.refine(p)| >= 2 && s in lab.refine(p)
    ensures s != p
  {
    var fine := lab.refine(p);
    ApartDistinct(fine);
    var other := if fine[0] == s then fine[1] else fine[0];
    assert other in fine && other != s;
    SpansDiffer(fine, s, other);
    assert PieceOf(other.place, p.place) && PieceOf(s.place, p.place);
  }

  /** So it is no coarse span. */
  lemma PieceIsNotCoarse(lab: Lab, spans: seq<Span>, p: Span, s: Span)
    requires WellPlaced(lab, spans) && p in spans && |lab.refine(p)| >= 2 && s in lab.refine(p)
    ensures s !in spans
  {
    PieceIsSmaller(lab, spans, p, s);
    PieceNeedsRoom(lab, spans, p, s);
  }

  /** A piece overlaps its own parent, so it cannot be another coarse span. */
  lemma PieceNeedsRoom(lab: Lab, spans: seq<Span>, p: Span, s: Span)
    requires WellPlaced(lab, spans) && p in spans && s in lab.refine(p)
    ensures s in spans ==> s == p
  {
    assert PieceOf(s.place, p.place) && !Apart(s.place, p.place);
    if s in spans && s != p {
      SpansDiffer(spans, s, p);
    }
  }

  lemma ArmsDistinct(lab: Lab, floor: real, limit: nat, spans: seq<Span>)
    requires WellPlaced(lab, spans)
    ensures Distinct(Arms(lab, floor, limit, spans))
  {
    hide WellPlaced, Pieces, Filtered, Ranked;
    var all := Filtered(Refining(lab, floor), Ranked(lab, spans));
    var selected := Selected(lab, floor, limit, spans);
    CoarseDistinct(lab, spans);
    RankedDistinct(lab, spans);
    FilteredDistinct(Refining(lab, floor), Ranked(lab, spans));
    assert Distinct(selected) && selected <= all;
    forall p | p in selected ensures p in spans && |lab.refine(p)| >= 2 {
      StrongestAreRefined(lab, floor, limit, spans, p, p);
    }
    PiecesDistinct(lab, spans, selected);
    forall s | s in spans ensures s !in Pieces(lab, selected) {
      if s in Pieces(lab, selected) {
        var p := PieceHasParent(lab, selected, s);
        PieceIsNotCoarse(lab, spans, p, s);
      }
    }
    DistinctConcat(spans, Pieces(lab, selected));
  }

  lemma CoarseDistinct(lab: Lab, spans: seq<Span>)
    requires WellPlaced(lab, spans)
    ensures Distinct(spans)
  {
    ApartDistinct(spans);
  }

  lemma PairDiffers(lab: Lab, floor: real, done: seq<Span>)
    requires Distinct(done) && JointPair(lab, floor, done).Some?
    ensures JointPair(lab, floor, done).value.0 != JointPair(lab, floor, done).value.1
  {
    RankedDistinct(lab, done);
    FilteredDistinct(Clearing(lab, floor), Ranked(lab, done));
  }

  lemma ApartSymmetric(a: Edit, b: Edit)
    ensures Apart(a, b) <==> Apart(b, a)
  {
  }

  /**
   In every map the joint arm replaces two different spans, and these are disjoint if and
   only if neither is a piece of the other.
   */
  lemma JointPairExactly(lab: Lab, floor: real, limit: nat, spans: seq<Span>)
    requires WellPlaced(lab, spans)
    requires JointPair(lab, floor, Arms(lab, floor, limit, spans)).Some?
    ensures var (a, b) := JointPair(lab, floor, Arms(lab, floor, limit, spans)).value;
      && a != b
      && (Apart(a.place, b.place) <==> !ParentOf(lab, spans, a, b) && !ParentOf(lab, spans, b, a))
  {
    hide Arms, WellPlaced, Apart, ParentOf;
    var done := Arms(lab, floor, limit, spans);
    var (a, b) := JointPair(lab, floor, done).value;
    JointPairIsStrongest(lab, floor, done, a);
    ArmsDistinct(lab, floor, limit, spans);
    PairDiffers(lab, floor, done);
    var p := ArmKinds(lab, floor, limit, spans, a);
    var q := ArmKinds(lab, floor, limit, spans, b);
    ApartUnlessParent(lab, spans, a, b, p, q);
    if ParentOf(lab, spans, a, b) {
      ParentOverlaps(lab, spans, a, b);
    }
    if ParentOf(lab, spans, b, a) {
      ParentOverlaps(lab, spans, b, a);
    }
    ApartSymmetric(a.place, b.place);
  }

  /** The filler of a piece is what the filler of its parent puts there. */
  ghost predicate PieceRepeats(filler: string, parent: Edit, child: Edit)
    requires filler != ""
  {
    Within(child, parent) && child.start < child.end
    && RepeatsAfter(filler, child.start - parent.start, child.end - child.start)
  }

  /**
   So the joint arm replaces both spans at once if and only if neither is a piece of the
   other, or the filler happens to repeat itself.
   */
  lemma JointArmExactly(lab: Lab, floor: real, limit: nat, spans: seq<Span>, text: string, filler: string, out: string)
    requires filler != "" && WellPlaced(lab, spans)
    requires JointPair(lab, floor, Arms(lab, floor, limit, spans)).Some?
    requires var (a, b) := JointPair(lab, floor, Arms(lab, floor, limit, spans)).value;
      && a.place.target == b.place.target && AllFit(text, [a.place, b.place])
      && RightToLeft(text, [a.place, b.place], filler, out)
    ensures var (a, b) := JointPair(lab, floor, Arms(lab, floor, limit, spans)).value;
      Simultaneous(text, [a.place, b.place], filler, out) <==>
        (ParentOf(lab, spans, a, b) ==> PieceRepeats(filler, a.place, b.place))
        && (ParentOf(lab, spans, b, a) ==> PieceRepeats(filler, b.place, a.place))
  {
    hide Arms, WellPlaced, RightToLeft, Simultaneous, RepeatsAfter, JointPair;
    var (a, b) := JointPair(lab, floor, Arms(lab, floor, limit, spans)).value;
    var pair := [a.place, b.place];
    assert Fits(text, pair[0]) && Fits(text, pair[1]);
    JointPairExactly(lab, floor, limit, spans);
    if ParentOf(lab, spans, a, b) {
      ParentContains(lab, spans, a, b);
      ParentAndChild(text, a.place, b.place, pair, filler, out);
    }
    if ParentOf(lab, spans, b, a) {
      ParentContains(lab, spans, b, a);
      ParentAndChild(text, b.place, a.place, pair, filler, out);
    }
    if !ParentOf(lab, spans, a, b) && !ParentOf(lab, spans, b, a) {
      assert PairwiseDisjoint(pair);
      DisjointEditsAreSimultaneous(text, pair, filler, out);
    }
  }

  lemma ParentContains(lab: Lab, spans: seq<Span>, parent: Span, child: Span)
    requires WellPlaced(lab, spans) && ParentOf(lab, spans, parent, child)
    ensures Within(child.place, parent.place) && child.place.start < child.place.end
  {
    assert PieceOf(child.place, parent.place);
  }

  /** A span that is stronger than its second piece, which alone clears the floor. */
  lemma PieceIsPaired(lab: Lab, floor: real, whole: Span, left: Span, right: Span)
    requires lab.refine(whole) == [left, right] && lab.score(whole).Some?
    requires Strength(lab, whole) > Strength(lab, right) >= floor > Strength(lab, left)
    ensures JointPair(lab, floor, Arms(lab, floor, 1, [whole])) == Some((whole, right))
  {
    hide Ranked, Selected, Pieces, Strength;
    OneSpan(lab, floor, whole);
    var done := Arms(lab, floor, 1, [whole]);
    assert done == [whole] + [left, right] == [whole, left, right];
    ThreeRanked(lab, whole, left, right);
    ClearedTwo(lab, floor, whole, right, left);
  }

  /** And such a pair there can be: a strong span of two sentences, the second stronger than the first. */
  lemma JointPairCanOverlap() returns (lab: Lab, whole: Span, left: Span, right: Span)
    ensures whole.place == Edit(Block, 0, 8) && left.place == Edit(Block, 0, 4) && right.place == Edit(Block, 5, 8)
    ensures WellPlaced(lab, [whole]) && lab.refine(whole) == [left, right]
    ensures JointPair(lab, 0.5, Arms(lab, 0.5, 1, [whole])) == Some((whole, right))
    ensures ParentOf(lab, [whole], whole, right) && !Apart(whole.place, right.place)
  {
    hide Magnitude, JointPair, Arms;
    whole := Span("p.b000.c000", Edit(Block, 0, 8));
    left, right := Span("p.b000.c000.f000", Edit(Block, 0, 4)), Span("p.b000.c000.f001", Edit(Block, 5, 8));
    lab := Lab((s: Span) => Some([if s == whole then 2.0 else if s == right then 1.0 else 0.0]),
               (s: Span) => if s == whole then [left, right] else [],
               (id: string) => 0);
    OneCell(2.0);
    OneCell(1.0);
    OneCell(0.0);
    assert lab.refine(whole) == [left, right];
    assert Strength(lab, whole) == 2.0 && Strength(lab, right) == 1.0 && Strength(lab, left) == 0.0;
    PieceIsPaired(lab, 0.5, whole, left, right);
  }

  lemma OneCell(x: real)
    requires x >= 0.0
    ensures Magnitude([x]) == x
  {
    assert [x][..0] == [];
  }

  /** One refinable span is selected. */
  lemma OneSpan(lab: Lab, floor: real, s: Span)
    requires Refinable(lab, floor, s)
    ensures Ranked(lab, [s]) == [s] && Selected(lab, floor, 1, [s]) == [s] && Pieces(lab, [s]) == lab.refine(s)
  {
    assert [s][..0] == [];
    assert Filtered(Refining(lab, floor), [s]) == [s];
    assert [] + lab.refine(s) == lab.refine(s);
  }

  lemma ThreeRanked(lab: Lab, a: Span, b: Span, c: Span)
    requires Strength(lab, a) > Strength(lab, c) > Strength(lab, b)
    ensures Ranked(lab, [a, b, c]) == [a, c, b]
  {
    assert [a, b, c][..2] == [a, b] && [a, b][..1] == [a] && [a][..0] == [];
    assert Ranked(lab, [a]) == [a];
    assert InsertSpan(lab, b, [a]) == [a] + InsertSpan(lab, b, []);
    assert Ranked(lab, [a, b]) == [a, b];
    assert [a, b][1..] == [b];
    assert InsertSpan(lab, c, [b]) == [c] + [b];
    assert InsertSpan(lab, c, [a, b]) == [a] + InsertSpan(lab, c, [b]);
  }

  lemma ClearedTwo(lab: Lab, floor: real, a: Span, b: Span, c: Span)
    requires Strength(lab, a) >= floor && Strength(lab, b) >= floor && Strength(lab, c) < floor
    ensures Filtered(Clearing(lab, floor), [a, b, c]) == [a, b]
  {
    var keep := Clearing(lab, floor);
    assert [a, b, c][..2] == [a, b] && [a, b][..1] == [a] && [a][..0] == [];
    assert Filtered(keep, [a]) == [a];
    assert Filtered(keep, [a, b]) == [a] + [b];
  }
}
