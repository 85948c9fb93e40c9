/**
 The spans of segment_context and _refine_span as arms of an influence map
 (clozn/receipts/context_answer_influence.py): each source stands in a text of its own,
 and a span is the place of its range in that text.
 */
module MapSpans {
  import opened Common
  import opened TextRanges
  import opened SpanEdits
  import opened InfluenceMap
  import C = ContextSpans

  /** Each message, and the block, is the text of at most one source. */
  ghost predicate SeparateTexts(sources: seq<C.Source>, target: string -> Target) {
    forall a, b :: a in sources && b in sources && a.id != b.id ==> target(a.id) != target(b.id)
  }

  function PlaceOf(target: Target, r: Range): Edit {
    Edit(target, r.start, r.end)
  }

  /** The range lies on word boundaries of a source and in the text of that source. */
  ghost predicate InSource(sources: seq<C.Source>, target: string -> Target, place: Edit) {
    exists s :: s in sources && place.target == target(s.id) && Aligned(s.text, place)
  }

  predicate Aligned(text: string, place: Edit) {
    C.WordAligned(text, Range(place.start, place.end, Chunk))
  }

  // ------------------------------------------------------------- coarse spans

  lemma ChainApart(text: string, rs: seq<Range>, from: nat, to: nat, i: nat, j: nat)
    requires Chain(text, rs, from, to) && i < j < |rs|
    ensures from <= rs[i].start < rs[i].end <= rs[j].start < rs[j].end <= to
  {
    ChainInside(text, rs, from, to, i);
    ChainInside(text, rs, from, to, j);
    ChainOrdered(text, rs, from, to, i, j);
  }

  /** The range of a span is at some place among the ranges of its parent. */
  lemma {:induction false} PlaceInRanges(spans: seq<C.Span>, i: nat) returns (a: nat)
    requires i < |spans|
    ensures var rs := C.RangesOf(spans, spans[i].parent); a < |rs| && rs[a] == spans[i].range
  {
    var init, last := spans[..|spans| - 1], spans[|spans| - 1];
    if i < |init| {
      a := PlaceInRanges(init, i);
    } else {
      a := |C.RangesOf(init, last.parent)|;
    }
  }

  /** Two spans of one parent come in the order of their ranges. */
  lemma {:induction false} PlacesInRanges(spans: seq<C.Span>, i: nat, j: nat) returns (a: nat, b: nat)
    requires i < j < |spans| && spans[i].parent == spans[j].parent
    ensures var rs := C.RangesOf(spans, spans[i].parent);
      a < b < |rs| && rs[a] == spans[i].range && rs[b] == spans[j].range
  {
    var init := spans[..|spans| - 1];
    if j < |init| {
      a, b := PlacesInRanges(init, i, j);
    } else {
      a := PlaceInRanges(init, i);
      b := |C.RangesOf(init, spans[j].parent)|;
    }
  }

  lemma CoarseApart(sources: seq<C.Source>, target: string -> Target, spans: seq<C.Span>, i: nat, j: nat)
    requires SeparateTexts(sources, target) && i < j < |spans|
    requires forall k :: 0 <= k < |sources| ==> C.Segmented(sources[k], spans)
    requires C.HasParent(sources, spans[i]) && C.HasParent(sources, spans[j])
    ensures Apart(PlaceOf(target(spans[i].parent), spans[i].range), PlaceOf(target(spans[j].parent), spans[j].range))
  {
    hide Chain;
    var p :| 0 <= p < |sources| && sources[p].id == spans[i].parent;
    var q :| 0 <= q < |sources| && sources[q].id == spans[j].parent;
    if spans[i].parent == spans[j].parent {
      assert C.Segmented(sources[p], spans);
      var a, b := PlacesInRanges(spans, i, j);
      var rs := C.RangesOf(spans, spans[i].parent);
      ChainApart(sources[p].text, rs, 0, |sources[p].text|, a, b);
    } else {
      assert sources[p] in sources && sources[q] in sources;
    }
  }

  lemma CoarseInSource(sources: seq<C.Source>, target: string -> Target, spans: seq<C.Span>, i: nat)
    requires i < |spans| && C.HasParent(sources, spans[i])
    requires forall k :: 0 <= k < |sources| ==> C.Segmented(sources[k], spans)
    ensures InSource(sources, target, PlaceOf(target(spans[i].parent), spans[i].range))
  {
    hide Chain;
    var p :| 0 <= p < |sources| && sources[p].id == spans[i].parent;
    assert C.Segmented(sources[p], spans) && sources[p] in sources;
    assert Aligned(sources[p].text, PlaceOf(target(spans[i].parent), spans[i].range));
  }

  /** The coarse spans of a map, as segment_context places them; `ids` names them. */
  method CoarseArms(sources: seq<C.Source>, target: string -> Target, ids: nat -> string, maxSpans: int, chunk: int)
    returns (arms: seq<Span>)
    requires C.Usable(sources) && SeparateTexts(sources, target)
    ensures |arms| <= Max(1, maxSpans) && (sources != [] ==> arms != [])
    ensures SpansApart(arms)
    ensures forall i :: 0 <= i < |arms| ==> arms[i].id == ids(i) && InSource(sources, target, arms[i].place)
  {
    hide *;
    var spans, selected, omitted, keep, units, slots := C.SegmentContext(sources, maxSpans, chunk);
    SelectedAreSources(sources, keep);
    arms := Arranged(spans, target, ids);
    ArrangedApart(sources, selected, target, ids, spans);
    SomeSelected(sources, selected, maxSpans, |spans|);
  }

  lemma SomeSelected(sources: seq<C.Source>, selected: seq<C.Source>, maxSpans: int, n: nat)
    requires |selected| == Min(Max(1, maxSpans), |sources|) && |selected| <= n
    ensures sources != [] ==> n > 0
  {
  }

  function Arranged(spans: seq<C.Span>, target: string -> Target, ids: nat -> string): (arms: seq<Span>)
    ensures |arms| == |spans|
  {
    seq(|spans|, i requires 0 <= i < |spans| => Span(ids(i), PlaceOf(target(spans[i].parent), spans[i].range)))
  }

  lemma ArrangedApart(sources: seq<C.Source>, selected: seq<C.Source>, target: string -> Target, ids: nat -> string,
                      spans: seq<C.Span>)
    requires SeparateTexts(sources, target) && forall s :: s in selected ==> s in sources
    requires forall k :: 0 <= k < |selected| ==> C.Segmented(selected[k], spans)
    requires forall i :: 0 <= i < |spans| ==> C.HasParent(selected, spans[i])
    ensures var arms := Arranged(spans, target, ids);
      && SpansApart(arms)
      && forall i :: 0 <= i < |arms| ==> arms[i].id == ids(i) && InSource(sources, target, arms[i].place)
  {
    hide C.Segmented, C.HasParent, Apart;
    var arms := Arranged(spans, target, ids);
    assert SeparateTexts(selected, target);
    forall i | 0 <= i < |arms| ensures InSource(sources, target, arms[i].place) && NotEmpty(arms[i].place) {
      CoarseInSource(selected, target, spans, i);
      InMoreSources(selected, sources, target, arms[i].place);
    }
    forall i, j | 0 <= i < j < |arms| ensures Apart(arms[i].place, arms[j].place) {
      CoarseApart(selected, target, spans, i, j);
    }
  }

  predicate NotEmpty(place: Edit) {
    place.start < place.end
  }

  lemma InMoreSources(selected: seq<C.Source>, sources: seq<C.Source>, target: string -> Target, place: Edit)
    requires InSource(selected, target, place) && forall s :: s in selected ==> s in sources
    ensures InSource(sources, target, place) && NotEmpty(place)
  {
  }

  lemma SelectedAreSources(sources: seq<C.Source>, keep: set<nat>)
    requires C.Usable(sources)
    ensures forall s :: s in C.Kept(sources, keep, |sources|) ==> s in sources
  {
    C.KeptIsUsable(sources, keep, |sources|);
    assert sources[..|sources|] == sources;
  }

  // --------------------------------------------------------------- fine spans

  /** What _refine_span promises for a span of this text: nothing, or pieces that cover it. */
  ghost predicate RefinedInto(text: string, parent: Edit, fine: seq<Range>) {
    && (fine != [] ==> 2 <= |fine| && Chain(text, fine, parent.start, parent.end))
    && forall i :: 0 <= i < |fine| ==> C.WordAligned(text, fine[i])
  }

  predicate PlacedAs(pieces: seq<Span>, target: Target, fine: seq<Range>) {
    |pieces| == |fine| && forall i :: 0 <= i < |fine| ==> pieces[i].place == PlaceOf(target, fine[i])
  }

  /** Such pieces are apart and inside the span. */
  lemma FineApart(text: string, parent: Edit, fine: seq<Range>, pieces: seq<Span>)
    requires RefinedInto(text, parent, fine) && PlacedAs(pieces, parent.target, fine)
    ensures SpansApart(pieces) && forall s :: s in pieces ==> PieceOf(s.place, parent)
  {
    hide Chain;
    forall i | 0 <= i < |pieces| ensures PieceOf(pieces[i].place, parent) {
      ChainInside(text, fine, parent.start, parent.end, i);
    }
    forall i, j | 0 <= i < j < |pieces| ensures Apart(pieces[i].place, pieces[j].place) {
      ChainApart(text, fine, parent.start, parent.end, i, j);
    }
  }

  /** The fine spans of one coarse span, as _refine_span places them. */
  method FineArms(text: string, coarse: Span, ids: nat -> string, chunk: int, maxFine: int) returns (pieces: seq<Span>)
    requires Aligned(text, coarse.place)
    ensures pieces != [] ==> 2 <= |pieces| <= maxFine
    ensures SpansApart(pieces)
    ensures forall i :: 0 <= i < |pieces| ==>
      pieces[i].id == ids(i) && PieceOf(pieces[i].place, coarse.place) && Aligned(text, pieces[i].place)
  {
    hide Chain, IsSplit, C.FineAt;
    var target := coarse.place.target;
    var fine, units := C.RefineSpan(text, Range(coarse.place.start, coarse.place.end, Chunk), chunk, maxFine);
    pieces := seq(|fine|, i requires 0 <= i < |fine| => Span(ids(i), PlaceOf(target, fine[i])));
    FineApart(text, coarse.place, fine, pieces);
    assert forall i :: 0 <= i < |pieces| ==> pieces[i] in pieces;
  }

  /** So every map over such coarse spans that splits them so meets the hypothesis on maps. */
  lemma MapsAreWellPlaced(lab: Lab, spans: seq<Span>, text: Target -> string)
    requires SpansApart(spans)
    requires forall p :: p in spans ==>
      exists fine :: RefinedInto(text(p.place.target), p.place, fine) && PlacedAs(lab.refine(p), p.place.target, fine)
    ensures WellPlaced(lab, spans)
  {
    hide RefinedInto, SpansApart;
    forall p | p in spans
      ensures SpansApart(lab.refine(p)) && forall s :: s in lab.refine(p) ==> PieceOf(s.place, p.place)
    {
      var fine :| RefinedInto(text(p.place.target), p.place, fine) && PlacedAs(lab.refine(p), p.place.target, fine);
      FineApart(text(p.place.target), p.place, fine, lab.refine(p));
    }
  }

  // ---------------------------------------------- a joint arm that is not both at once

  const TWO_SENTENCES := "Yes. No."

  /** Where only one span is allowed, segment_context makes it the whole of this text. */
  lemma OnlySpan(source: C.Source, spans: seq<C.Span>)
    requires source.text == TWO_SENTENCES && C.Segmented(source, spans)
    requires |spans| == 1 && spans[0].parent == source.id
    ensures spans[0].range.start == 0 && spans[0].range.end == 8
  {
    assert spans[..0] == [] && C.RangesOf([], source.id) == [];
    assert C.RangesOf(spans, source.id) == [] + [spans[0].range] == [spans[0].range];
    WholeRange(spans[0].range);
  }

  lemma WholeRange(r: Range)
    requires Chain(TWO_SENTENCES, [r], 0, |TWO_SENTENCES|) && C.WordAligned(TWO_SENTENCES, r)
    ensures r.start == 0 && r.end == 8
  {
    assert [r][..0] == [] && |TWO_SENTENCES| == 8;
    assert !IsSpace(TWO_SENTENCES[0]) && !IsSpace(TWO_SENTENCES[7]);
  }

  lemma Ends(r: Range)
    requires C.WordAligned(TWO_SENTENCES, r)
    ensures (r.start == 0 || r.start == 5) && (r.end == 4 || r.end == 8)
  {
    var text := TWO_SENTENCES;
    assert text == ['Y', 'e', 's', '.', ' ', 'N', 'o', '.'];
  }

  /** And however it is split, these are its pieces. */
  lemma OnlySplit(fine: seq<Range>)
    requires RefinedInto(TWO_SENTENCES, Edit(Block, 0, 8), fine) && fine != []
    ensures |fine| == 2 && fine[0].start == 0 && fine[0].end == 4 && fine[1].start == 5 && fine[1].end == 8
  {
    hide Chain, C.WordAligned;
    Ends(fine[0]);
    Ends(fine[1]);
    ChainApart(TWO_SENTENCES, fine, 0, 8, 0, 1);
    if |fine| > 2 {
      Ends(fine[2]);
      ChainApart(TWO_SENTENCES, fine, 0, 8, 1, 2);
    }
  }

  lemma TwoSentences()
    ensures var text := TWO_SENTENCES;
      && Aligned(text, Edit(Block, 0, 8)) && Aligned(text, Edit(Block, 0, 4)) && Aligned(text, Edit(Block, 5, 8))
      && RefinedInto(text, Edit(Block, 0, 8), [Range(0, 4, Sentence), Range(5, 8, Sentence)])
  {
    var text := TWO_SENTENCES;
    assert text == ['Y', 'e', 's', '.', ' ', 'N', 'o', '.'];
    var first, second := Range(0, 4, Sentence), Range(5, 8, Sentence);
    assert [first, second][..1] == [first] && [first][..0] == [];
    assert Chain(text, [first], 0, 5);
  }

  /**
   A map of this text, coarse span, pieces and all, whose joint arm does not replace its two
   spans at once: with any filler whose first and sixth characters differ.
   */
  lemma JointArmCanFail(filler: string)
    returns (lab: Lab, whole: Span, left: Span, right: Span, out: string)
    requires filler != "" && FillChar(filler, 5) != FillChar(filler, 0)
    ensures var text := TWO_SENTENCES;
      && Aligned(text, whole.place) && Aligned(text, left.place) && Aligned(text, right.place)
      && PlacedAs([left, right], Block, [Range(0, 4, Sentence), Range(5, 8, Sentence)])
      && RefinedInto(text, whole.place, [Range(0, 4, Sentence), Range(5, 8, Sentence)])
    ensures WellPlaced(lab, [whole]) && lab.refine(whole) == [left, right]
    ensures JointPair(lab, 0.5, Arms(lab, 0.5, 1, [whole])) == Some((whole, right))
    ensures RightToLeft(TWO_SENTENCES, [whole.place, right.place], filler, out)
    ensures !Simultaneous(TWO_SENTENCES, [whole.place, right.place], filler, out)
  {
    hide WellPlaced, JointPair, Arms, Simultaneous, Chain, Aligned, RefinedInto;
    TwoSentences();
    lab, whole, left, right := JointPairCanOverlap();
    var pair := [whole.place, right.place];
    out := seq(8, p requires 0 <= p < 8 => Painted(TWO_SENTENCES, SortByStart(pair), filler, p));
    assert |TWO_SENTENCES| == 8;
    PieceSpoilsTheJointArm(TWO_SENTENCES, whole.place, right.place, pair, filler, out);
  }
}
