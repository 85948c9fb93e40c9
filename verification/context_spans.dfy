/**
 Coarse spans over the prompt sources, and their refinement
 (_select_sources, segment_context and _refine_span in
 clozn/receipts/context_answer_influence.py).
 */
module ContextSpans {
  import opened Common
  import opened TextRanges
  import opened Slots

  datatype Source = Source(id: string, role: string, text: string)
  datatype Span = Span(parent: string, range: Range, unitCount: nat)

  predicate DistinctSources(sources: seq<Source>) {
    forall i, j :: 0 <= i < j < |sources| ==> sources[i].id != sources[j].id
  }

  // ------------------------------------------------------------- selection

  predicate IsPolicy(s: Source) {
    s.role == "system" || s.role == "developer"
  }

  function FirstPolicy(sources: seq<Source>, from: nat): (p: nat)
    requires from <= |sources|
    ensures from <= p <= |sources|
    ensures forall i :: from <= i < p ==> !IsPolicy(sources[i])
    ensures p < |sources| ==> IsPolicy(sources[p])
    decreases |sources| - from
  {
    if from == |sources| || IsPolicy(sources[from]) then from else FirstPolicy(sources, from + 1)
  }

  /** The sources in order whose index is kept. */
  function Kept(sources: seq<Source>, keep: set<nat>, upTo: nat): seq<Source>
    requires upTo <= |sources|
  {
    if upTo == 0 then []
    else Kept(sources, keep, upTo - 1) + if upTo - 1 in keep then [sources[upTo - 1]] else []
  }

  function Left(sources: seq<Source>, keep: set<nat>, upTo: nat): seq<string>
    requires upTo <= |sources|
  {
    if upTo == 0 then []
    else Left(sources, keep, upTo - 1) + if upTo - 1 in keep then [] else [sources[upTo - 1].id]
  }

  /** The earliest policy source and, besides it, only the most recent sources. */
  ghost predicate PolicyThenRecent(sources: seq<Source>, keep: set<nat>) {
    && (forall i :: i in keep ==> i < |sources|)
    && (FirstPolicy(sources, 0) < |sources| && keep != {} ==> FirstPolicy(sources, 0) in keep)
    && forall i, j :: i in keep && i < j < |sources| && j !in keep ==> i == FirstPolicy(sources, 0)
  }

  method SelectSources(sources: seq<Source>, limit: nat)
    returns (chosen: seq<Source>, omitted: seq<string>, keep: set<nat>)
    requires limit >= 1
    ensures chosen == Kept(sources, keep, |sources|) && omitted == Left(sources, keep, |sources|)
    ensures PolicyThenRecent(sources, keep)
    ensures |keep| == Min(limit, |sources|)
  {
    var selected: set<nat> := {};
    if |sources| <= limit {
      selected := Indices(|sources|);
    } else {
      var policy := FirstPolicy(sources, 0);
      if policy < |sources| {
        selected := {policy};
      }
      var i := |sources|;
      while i > 0 && |selected| < limit
        invariant i <= |sources| && |selected| <= limit
        invariant forall j :: j in selected ==> j < |sources|
        invariant policy < |sources| ==> policy in selected
        invariant forall j :: i <= j < |sources| ==> j in selected
        invariant forall j :: j in selected && j < i ==> j == policy
        invariant |selected| == |sources| - i + if policy < i then 1 else 0
      {
        i := i - 1;
        selected := selected + {i};
      }
    }
    keep := selected;
    chosen, omitted := [], [];
    for k := 0 to |sources|
      invariant chosen == Kept(sources, keep, k) && omitted == Left(sources, keep, k)
    {
      if k in selected {
        chosen := chosen + [sources[k]];
      } else {
        omitted := omitted + [sources[k].id];
      }
    }
  }

  function Indices(n: nat): (s: set<nat>)
    ensures |s| == n && forall i: nat :: i in s <==> i < n
  {
    if n == 0 then {} else Indices(n - 1) + {n - 1}
  }

  // ------------------------------------------------------- merging whole groups

  function Ends(rs: seq<Range>): nat
    requires rs != []
  {
    rs[|rs| - 1].end
  }

  /** One span per group, from the start of its first unit to the end of its last. */
  function Merged(group: seq<Range>): (r: Range)
    requires group != []
    ensures r.start == group[0].start && r.end == group[|group| - 1].end
    ensures r.kind == Sentence <==> |group| == 1 && group[0].kind == Sentence
  {
    Range(group[0].start, Ends(group), if |group| == 1 then group[0].kind else Chunk)
  }

  predicate NonEmpty(groups: seq<seq<Range>>) {
    forall i :: 0 <= i < |groups| ==> groups[i] != []
  }

  function MergedAll(groups: seq<seq<Range>>): seq<Range>
    requires NonEmpty(groups)
  {
    if groups == [] then []
    else MergedAll(groups[..|groups| - 1]) + [Merged(groups[|groups| - 1])]
  }

  lemma {:induction false} ChainSplit(text: string, a: seq<Range>, g: seq<Range>, from: nat, to: nat)
    requires g != [] && Chain(text, a + g, from, to)
    ensures Chain(text, a, from, g[0].start)
    ensures g[0].start < Ends(g) <= to && AllSpace(text, Ends(g), to)
  {
    var init, last := g[..|g| - 1], g[|g| - 1];
    assert (a + g)[..|a + g| - 1] == a + init;
    if init == [] {
      assert a + init == a;
    } else {
      ChainSplit(text, a, init, from, last.start);
    }
  }

  /** Merging consecutive units keeps them ordered and still leaves out nothing but whitespace. */
  lemma {:induction false} MergedChain(text: string, groups: seq<seq<Range>>, from: nat, to: nat)
    requires NonEmpty(groups)
    requires Chain(text, Flatten(groups), from, to)
    ensures Chain(text, MergedAll(groups), from, to)
  {
    if groups != [] {
      var init, last := groups[..|groups| - 1], groups[|groups| - 1];
      ChainSplit(text, Flatten(init), last, from, to);
      MergedChain(text, init, from, last[0].start);
      assert MergedAll(groups)[..|MergedAll(groups)| - 1] == MergedAll(init);
    }
  }

  lemma {:induction false} MergedCount(groups: seq<seq<Range>>)
    requires NonEmpty(groups)
    ensures |MergedAll(groups)| == |groups|
    ensures forall i :: 0 <= i < |groups| ==> MergedAll(groups)[i] == Merged(groups[i])
  {
    if groups != [] {
      MergedCount(groups[..|groups| - 1]);
    }
  }

  lemma {:induction false} GroupIsPart(groups: seq<seq<Range>>, i: nat, j: nat)
    requires i < |groups| && j < |groups[i]|
    ensures groups[i][j] in Flatten(groups)
  {
    if i < |groups| - 1 {
      GroupIsPart(groups[..|groups| - 1], i, j);
    }
  }

  /** A span starts and ends with a whole word. */
  predicate WordAligned(text: string, r: Range) {
    && r.start < r.end <= |text|
    && Solid(text, r.start) && Solid(text, r.end - 1)
    && (r.start == 0 || IsSpace(text[r.start - 1]))
    && (r.end == |text| || IsSpace(text[r.end]))
  }

  lemma MergedIsAligned(text: string, groups: seq<seq<Range>>, limit: nat, from: nat, to: nat, i: nat)
    requires NonEmpty(groups) && i < |groups| && Chain(text, Flatten(groups), from, to)
    requires forall r :: r in Flatten(groups) ==> Piece(text, r, limit)
    ensures WordAligned(text, Merged(groups[i]))
  {
    GroupIsPart(groups, i, 0);
    GroupIsPart(groups, i, |groups[i]| - 1);
    MergedChain(text, groups, from, to);
    MergedCount(groups);
    ChainInside(text, MergedAll(groups), from, to, i);
  }

  /** Dealing the units of a text out to at most `count` spans. */
  lemma DealtOut(text: string, units: seq<Range>, count: int, limit: nat, from: nat, to: nat)
    requires units != [] && Chain(text, units, from, to)
    requires forall r :: r in units ==> Piece(text, r, limit)
    ensures NonEmpty(PartitionUnits(units, count))
    ensures Chain(text, MergedAll(PartitionUnits(units, count)), from, to)
    ensures |MergedAll(PartitionUnits(units, count))| == PartCount(|units|, count)
    ensures forall i :: 0 <= i < PartCount(|units|, count) ==>
      MergedAll(PartitionUnits(units, count))[i] == Merged(PartitionUnits(units, count)[i])
      && WordAligned(text, Merged(PartitionUnits(units, count)[i]))
  {
    var groups := PartitionUnits(units, count);
    PartitionIsBalanced(units, count);
    assert NonEmpty(groups) by {
      assert forall i :: 0 <= i < |groups| ==> groups[i] in groups;
    }
    MergedChain(text, groups, from, to);
    MergedCount(groups);
    forall i | 0 <= i < |groups| ensures WordAligned(text, Merged(groups[i])) {
      MergedIsAligned(text, groups, limit, from, to, i);
    }
  }

  // ------------------------------------------------------------ segmentation

  function RangesOf(spans: seq<Span>, parent: string): seq<Range> {
    if spans == [] then []
    else
      var last := spans[|spans| - 1];
      RangesOf(spans[..|spans| - 1], parent) + if last.parent == parent then [last.range] else []
  }

  lemma {:induction false} RangesOfConcat(a: seq<Span>, b: seq<Span>, parent: string)
    ensures RangesOf(a + b, parent) == RangesOf(a, parent) + RangesOf(b, parent)
  {
    if b == [] {
      assert a + b == a;
    } else {
      assert (a + b)[..|a + b| - 1] == a + b[..|b| - 1];
      RangesOfConcat(a, b[..|b| - 1], parent);
    }
  }

  /** One span per group of units, in order. */
  function SpansOf(id: string, groups: seq<seq<Range>>): (spans: seq<Span>)
    requires NonEmpty(groups)
    ensures |spans| == |groups|
    ensures forall i :: 0 <= i < |groups| ==> spans[i] == Span(id, Merged(groups[i]), |groups[i]|)
  {
    seq(|groups|, i requires 0 <= i < |groups| => Span(id, Merged(groups[i]), |groups[i]|))
  }

  /** The spans of one source, in order. */
  method ToSpans(id: string, groups: seq<seq<Range>>) returns (spans: seq<Span>)
    requires NonEmpty(groups)
    ensures spans == SpansOf(id, groups)
  {
    spans := [];
    for k := 0 to |groups|
      invariant |spans| == k
      invariant forall i :: 0 <= i < k ==> spans[i] == Span(id, Merged(groups[i]), |groups[i]|)
    {
      spans := spans + [Span(id, Merged(groups[k]), |groups[k]|)];
    }
  }

  lemma {:induction false} RangesOfOne(id: string, groups: seq<seq<Range>>, spans: seq<Span>)
    requires NonEmpty(groups) && |spans| == |groups|
    requires forall i :: 0 <= i < |groups| ==> spans[i] == Span(id, Merged(groups[i]), |groups[i]|)
    ensures RangesOf(spans, id) == MergedAll(groups)
    ensures forall other :: other != id ==> RangesOf(spans, other) == []
  {
    if groups != [] {
      var last := |groups| - 1;
      RangesOfOne(id, groups[..last], spans[..last]);
    }
  }

  /** What a segmentation promises about each chosen source. */
  ghost predicate Segmented(source: Source, spans: seq<Span>) {
    && Chain(source.text, RangesOf(spans, source.id), 0, |source.text|)
    && forall i :: 0 <= i < |spans| && spans[i].parent == source.id ==> WordAligned(source.text, spans[i].range)
  }

  /** The ranges of one source, each within it and on word boundaries. */
  method SegmentSource(source: Source, units: seq<Range>, count: nat, ghost limit: nat) returns (spans: seq<Span>)
    requires units != [] && 1 <= count <= |units| && Chain(source.text, units, 0, |source.text|)
    requires forall r :: r in units ==> Piece(source.text, r, limit)
    ensures |spans| == count && Segmented(source, spans)
    ensures NonEmpty(PartitionUnits(units, count)) && spans == SpansOf(source.id, PartitionUnits(units, count))
    ensures forall s :: s in spans ==> s.parent == source.id
    ensures forall id :: id != source.id ==> RangesOf(spans, id) == []
  {
    hide Chain, Piece, RangesOf, MergedAll, Segmented, Merged, SpansOf, WordAligned;
    var groups := PartitionUnits(units, count);
    DealtOut(source.text, units, count, limit, 0, |source.text|);
    spans := ToSpans(source.id, groups);
    GroupsSegment(source, groups, spans);
  }

  lemma GroupsSegment(source: Source, groups: seq<seq<Range>>, spans: seq<Span>)
    requires NonEmpty(groups) && spans == SpansOf(source.id, groups)
    requires Chain(source.text, MergedAll(groups), 0, |source.text|)
    requires forall i :: 0 <= i < |groups| ==> WordAligned(source.text, Merged(groups[i]))
    ensures Segmented(source, spans)
    ensures forall s :: s in spans ==> s.parent == source.id
    ensures forall id :: id != source.id ==> RangesOf(spans, id) == []
  {
    hide Chain, RangesOf, MergedAll, Merged, WordAligned;
    RangesOfOne(source.id, groups, spans);
  }

  function UnitsOf(units: seq<seq<Range>>, sources: seq<Source>): (claims: seq<Claim>)
    requires |units| == |sources|
    ensures |claims| == |sources|
    ensures forall i :: 0 <= i < |claims| ==>
      claims[i] == Claim(sources[i].id, |sources[i].text|, |units[i]|)
  {
    seq(|sources|, i requires 0 <= i < |sources| => Claim(sources[i].id, |sources[i].text|, |units[i]|))
  }

  /** The units of each source. */
  method CutSources(sources: seq<Source>, target: int) returns (units: seq<seq<Range>>)
    ensures |units| == |sources|
    ensures forall i :: 0 <= i < |sources| ==> IsSplit(sources[i].text, units[i], Max(64, target))
  {
    hide IsSplit;
    units := [];
    for k := 0 to |sources|
      invariant |units| == k
      invariant forall i :: 0 <= i < k ==> IsSplit(sources[i].text, units[i], Max(64, target))
    {
      var ranges := SplitText(sources[k].text, target);
      units := units + [ranges];
    }
  }

  predicate UnitsFit(text: string, units: seq<Range>, limit: nat) {
    Chain(text, units, 0, |text|) && forall r :: r in units ==> Piece(text, r, limit)
  }

  lemma SplitFits(text: string, units: seq<Range>, limit: nat)
    requires IsSplit(text, units, limit)
    ensures UnitsFit(text, units, limit)
  {
  }

  /** The first k of the selected sources have their spans, and there are no others. */
  ghost predicate DoneUpTo(selected: seq<Source>, spans: seq<Span>, k: nat)
    requires k <= |selected|
  {
    && (forall i :: 0 <= i < k ==> Segmented(selected[i], spans))
    && (forall i :: k <= i < |selected| ==> RangesOf(spans, selected[i].id) == [])
    && (forall i :: 0 <= i < |spans| ==> HasParent(selected[..k], spans[i]))
  }

  ghost predicate HasParent(selected: seq<Source>, span: Span) {
    exists i :: 0 <= i < |selected| && selected[i].id == span.parent
  }

  lemma AddSource(selected: seq<Source>, spans: seq<Span>, more: seq<Span>, k: nat)
    requires DistinctSources(selected) && k < |selected| && DoneUpTo(selected, spans, k)
    requires Segmented(selected[k], more) && forall s :: s in more ==> s.parent == selected[k].id
    requires forall id :: id != selected[k].id ==> RangesOf(more, id) == []
    ensures DoneUpTo(selected, spans + more, k + 1)
  {
    var id := selected[k].id;
    NoneOf(spans, id);
    forall i | 0 <= i < |selected|
      ensures i <= k ==> Segmented(selected[i], spans + more)
      ensures i > k ==> RangesOf(spans + more, selected[i].id) == []
    {
      RangesOfConcat(spans, more, selected[i].id);
      if i < k {
        SegmentedBefore(selected[i], spans, more);
      } else if i == k {
        SegmentedAfter(selected[i], spans, more);
      }
    }
    forall i | 0 <= i < |spans + more| ensures HasParent(selected[..k + 1], (spans + more)[i]) {
      if i < |spans| {
        assert HasParent(selected[..k], spans[i]);
        var j :| 0 <= j < k && selected[..k][j].id == spans[i].parent;
        assert selected[..k + 1][j].id == spans[i].parent;
      } else {
        assert selected[..k + 1][k].id == more[i - |spans|].parent;
      }
    }
  }

  lemma SegmentedBefore(source: Source, a: seq<Span>, b: seq<Span>)
    requires Segmented(source, a) && RangesOf(b, source.id) == []
    ensures Segmented(source, a + b)
  {
    RangesOfConcat(a, b, source.id);
    assert RangesOf(a, source.id) + [] == RangesOf(a, source.id);
    NoneOf(b, source.id);
  }

  lemma SegmentedAfter(source: Source, a: seq<Span>, b: seq<Span>)
    requires Segmented(source, b) && RangesOf(a, source.id) == []
    ensures Segmented(source, a + b)
  {
    RangesOfConcat(a, b, source.id);
    assert [] + RangesOf(b, source.id) == RangesOf(b, source.id);
    NoneOf(a, source.id);
  }

  /** The units that were dealt out, and how many spans each source got for them. */
  ghost predicate DealtBy(selected: seq<Source>, units: seq<seq<Range>>, slots: Allocation, limit: nat, target: nat) {
    && |units| == |selected|
    && (forall i :: 0 <= i < |selected| ==> units[i] != [] && IsSplit(selected[i].text, units[i], target))
    && var claims := UnitsOf(units, selected);
       && Allocated(claims, slots) && Fair(claims, slots)
       && TotalSlots(claims, slots) == Max(|selected|, Min(limit, TotalUnits(claims)))
  }

  /** The spans of the first k sources: the units of each in as many groups as it has slots. */
  ghost function AllSpans(selected: seq<Source>, units: seq<seq<Range>>, slots: Allocation, k: nat): seq<Span>
    requires |units| == |selected| && k <= |selected|
    requires forall i :: 0 <= i < |selected| ==> selected[i].id in slots
  {
    if k == 0 then []
    else
      var groups := PartitionUnits(units[k - 1], slots[selected[k - 1].id]);
      AllSpans(selected, units, slots, k - 1) + if NonEmpty(groups) then SpansOf(selected[k - 1].id, groups) else []
  }

  /** segment_context from the point where its sources are selected, none of them blank. */
  method SegmentSelected(selected: seq<Source>, limit: nat, target: int)
    returns (spans: seq<Span>, ghost units: seq<seq<Range>>, ghost slots: Allocation)
    requires DistinctSources(selected) && |selected| <= limit
    requires forall i :: 0 <= i < |selected| ==> !AllSpace(selected[i].text, 0, |selected[i].text|)
    ensures |selected| <= |spans| <= limit
    ensures forall i :: 0 <= i < |selected| ==> Segmented(selected[i], spans)
    ensures forall i :: 0 <= i < |spans| ==> HasParent(selected, spans[i])
    ensures DealtBy(selected, units, slots, limit, Max(64, target))
    ensures forall i :: 0 <= i < |selected| ==> selected[i].id in slots
    ensures spans == AllSpans(selected, units, slots, |selected|)
    ensures |spans| == Max(|selected|, Min(limit, TotalUnits(UnitsOf(units, selected))))
  {
    hide IsSplit, Fair, Chain, Segmented, HasParent, AllSpans, UnitsFit;
    var cut := CutSources(selected, target);
    units := cut;
    forall i | 0 <= i < |selected| ensures units[i] != [] && UnitsFit(selected[i].text, units[i], Max(64, target)) {
      SplitFits(selected[i].text, units[i], Max(64, target));
      SomeUnits(selected[i].text, units[i], Max(64, target));
    }
    var counts, given := SlotCounts(selected, cut, limit);
    slots := given;
    spans := EmitSpans(selected, cut, counts, slots, Max(64, target));
  }

  /** The loop over the sources. */
  method EmitSpans(selected: seq<Source>, units: seq<seq<Range>>, counts: seq<nat>, ghost slots: Allocation,
                   ghost limit: nat) returns (spans: seq<Span>)
    requires DistinctSources(selected) && |units| == |selected| == |counts|
    requires forall i :: 0 <= i < |selected| ==> UnitsFit(selected[i].text, units[i], limit)
    requires forall i :: 0 <= i < |selected| ==>
      1 <= counts[i] <= |units[i]| && selected[i].id in slots && slots[selected[i].id] == counts[i]
    ensures |spans| == Sum(counts)
    ensures forall i :: 0 <= i < |selected| ==> Segmented(selected[i], spans)
    ensures forall i :: 0 <= i < |spans| ==> HasParent(selected, spans[i])
    ensures spans == AllSpans(selected, units, slots, |selected|)
  {
    spans := [];
    assert Emitted(selected, units, counts, slots, spans, 0);
    for k := 0 to |selected|
      invariant Emitted(selected, units, counts, slots, spans, k)
    {
      hide Emitted, Segmented, Chain, DistinctSources, RangesOf, SpansOf;
      assert UnitsFit(selected[k].text, units[k], limit);
      var more := SegmentSource(selected[k], units[k], counts[k], limit);
      EmitMore(selected, units, counts, slots, spans, more, k);
      spans := spans + more;
    }
    assert counts[..|selected|] == counts && selected[..|selected|] == selected;
  }

  /** The spans of the first k sources, as many as they have slots. */
  ghost predicate Emitted(selected: seq<Source>, units: seq<seq<Range>>, counts: seq<nat>, slots: Allocation,
                          spans: seq<Span>, k: nat) {
    && k <= |selected| == |units| == |counts|
    && (forall i :: 0 <= i < |selected| ==> selected[i].id in slots)
    && |spans| == Sum(counts[..k]) && DoneUpTo(selected, spans, k) && spans == AllSpans(selected, units, slots, k)
  }

  lemma EmitMore(selected: seq<Source>, units: seq<seq<Range>>, counts: seq<nat>, slots: Allocation,
                 spans: seq<Span>, more: seq<Span>, k: nat)
    requires k < |selected| && Emitted(selected, units, counts, slots, spans, k) && DistinctSources(selected)
    requires selected[k].id in slots && slots[selected[k].id] == counts[k] == |more|
    requires NonEmpty(PartitionUnits(units[k], counts[k]))
    requires more == SpansOf(selected[k].id, PartitionUnits(units[k], counts[k]))
    requires Segmented(selected[k], more) && forall s :: s in more ==> s.parent == selected[k].id
    requires forall id :: id != selected[k].id ==> RangesOf(more, id) == []
    ensures Emitted(selected, units, counts, slots, spans + more, k + 1)
  {
    hide DoneUpTo, Segmented, Chain, RangesOf, SpansOf, NonEmpty, DistinctSources;
    AddSource(selected, spans, more, k);
    assert counts[..k + 1][..k] == counts[..k];
  }

  lemma SomeUnits(text: string, units: seq<Range>, limit: nat)
    requires UnitsFit(text, units, limit) && !AllSpace(text, 0, |text|)
    ensures units != []
  {
  }

  /** These promises leave no choice: any two such segmentations of the same sources agree. */
  lemma SegmentationIsUnique(selected: seq<Source>, units: seq<seq<Range>>, slots: Allocation,
                             units': seq<seq<Range>>, slots': Allocation, limit: nat, target: nat)
    requires DealtBy(selected, units, slots, limit, target) && DealtBy(selected, units', slots', limit, target)
    ensures forall i :: 0 <= i < |selected| ==> selected[i].id in slots && selected[i].id in slots'
    ensures AllSpans(selected, units, slots, |selected|) == AllSpans(selected, units', slots', |selected|)
  {
    hide IsSplit, Fair;
    forall i | 0 <= i < |selected| ensures units[i] == units'[i] {
      SplitIsUnique(selected[i].text, units[i], units'[i], 0, target);
    }
    assert units == units';
    var claims := UnitsOf(units, selected);
    FairAllocationIsUnique(claims, slots, slots');
    forall i | 0 <= i < |selected|
      ensures selected[i].id in slots && selected[i].id in slots' && slots[selected[i].id] == slots'[selected[i].id]
    {
      assert claims[i].id == selected[i].id;
    }
    SameSpans(selected, units, slots, slots', |selected|);
  }

  lemma {:induction false} SameSpans(selected: seq<Source>, units: seq<seq<Range>>, slots: Allocation,
                                     slots': Allocation, k: nat)
    requires |units| == |selected| && k <= |selected|
    requires forall i :: 0 <= i < |selected| ==>
      selected[i].id in slots && selected[i].id in slots' && slots[selected[i].id] == slots'[selected[i].id]
    ensures AllSpans(selected, units, slots, k) == AllSpans(selected, units, slots', k)
  {
    if k > 0 {
      SameSpans(selected, units, slots, slots', k - 1);
    }
  }

  function Sum(counts: seq<nat>): nat {
    if counts == [] then 0 else Sum(counts[..|counts| - 1]) + counts[|counts| - 1]
  }

  /** The slots of each source, in order. */
  method SlotCounts(selected: seq<Source>, units: seq<seq<Range>>, limit: nat)
    returns (counts: seq<nat>, slots: Allocation)
    requires DistinctSources(selected) && |units| == |selected| <= limit
    requires forall i :: 0 <= i < |selected| ==> |units[i]| > 0
    ensures |counts| == |selected| <= Sum(counts) <= limit
    ensures forall i :: 0 <= i < |counts| ==> 1 <= counts[i] <= |units[i]|
    ensures forall i :: 0 <= i < |counts| ==> selected[i].id in slots && counts[i] == slots[selected[i].id]
    ensures var claims := UnitsOf(units, selected);
      && Allocated(claims, slots) && Fair(claims, slots)
      && Sum(counts) == TotalSlots(claims, slots) == Max(|selected|, Min(limit, TotalUnits(claims)))
  {
    var claims := UnitsOf(units, selected);
    slots := AllocateSlots(claims, limit);
    WithinUnits(claims, slots);
    counts := seq(|claims|, i requires 0 <= i < |claims| => slots[claims[i].id]);
    CountsAddUp(claims, slots, counts);
  }

  lemma {:induction false} CountsAddUp(claims: seq<Claim>, slots: Allocation, counts: seq<nat>)
    requires Allocated(claims, slots) && |counts| == |claims|
    requires forall i :: 0 <= i < |claims| ==> counts[i] == slots[claims[i].id]
    ensures Sum(counts) == TotalSlots(claims, slots)
  {
    if claims != [] {
      CountsAddUp(claims[..|claims| - 1], slots, counts[..|claims| - 1]);
    }
  }

  lemma {:induction false} NoneOf(spans: seq<Span>, id: string)
    requires RangesOf(spans, id) == []
    ensures forall i :: 0 <= i < |spans| ==> spans[i].parent != id
  {
    if spans != [] {
      NoneOf(spans[..|spans| - 1], id);
    }
  }

  // -------------------------------------------------------- the whole operation

  /** _sources leaves out blank texts. */
  predicate Usable(sources: seq<Source>) {
    DistinctSources(sources) && forall i :: 0 <= i < |sources| ==> !AllSpace(sources[i].text, 0, |sources[i].text|)
  }

  lemma {:induction false} KeptIsUsable(sources: seq<Source>, keep: set<nat>, upTo: nat)
    requires Usable(sources) && upTo <= |sources|
    ensures Usable(Kept(sources, keep, upTo)) && |Kept(sources, keep, upTo)| <= upTo
    ensures forall i :: 0 <= i < |Kept(sources, keep, upTo)| ==> Kept(sources, keep, upTo)[i] in sources[..upTo]
  {
    if upTo > 0 {
      KeptIsUsable(sources, keep, upTo - 1);
      var init, last := Kept(sources, keep, upTo - 1), sources[upTo - 1];
      forall i | 0 <= i < |init| ensures init[i].id != last.id && init[i] in sources[..upTo] {
        var j :| 0 <= j < upTo - 1 && sources[..upTo - 1][j] == init[i];
        assert sources[..upTo][j] == init[i];
      }
    }
  }

  lemma {:induction false} KeptCount(sources: seq<Source>, keep: set<nat>, upTo: nat)
    requires upTo <= |sources|
    ensures |Kept(sources, keep, upTo)| == |Below(keep, upTo)|
  {
    if upTo == 0 {
      assert Below(keep, 0) == {};
    } else {
      KeptCount(sources, keep, upTo - 1);
      assert Below(keep, upTo) == Below(keep, upTo - 1) + if upTo - 1 in keep then {upTo - 1} else {};
    }
  }

  function Below(keep: set<nat>, upTo: nat): set<nat> {
    set i | i in keep && i < upTo
  }

  /**
   segment_context: at most max(1, maxSpans) spans; in every source that is kept they are
   ordered, disjoint, on word boundaries, and miss nothing but whitespace.
   */
  method SegmentContext(sources: seq<Source>, maxSpans: int, target: int)
    returns (spans: seq<Span>, selected: seq<Source>, omitted: seq<string>, keep: set<nat>,
             ghost units: seq<seq<Range>>, ghost slots: Allocation)
    requires Usable(sources)
    ensures selected == Kept(sources, keep, |sources|) && omitted == Left(sources, keep, |sources|)
    ensures PolicyThenRecent(sources, keep) && |selected| == Min(Max(1, maxSpans), |sources|)
    ensures |selected| <= |spans| <= Max(1, maxSpans)
    ensures forall i :: 0 <= i < |selected| ==> Segmented(selected[i], spans)
    ensures forall i :: 0 <= i < |spans| ==> HasParent(selected, spans[i])
    ensures DealtBy(selected, units, slots, Max(1, maxSpans), Max(64, target))
    ensures forall i :: 0 <= i < |selected| ==> selected[i].id in slots
    ensures spans == AllSpans(selected, units, slots, |selected|)
    ensures |spans| == Max(|selected|, Min(Max(1, maxSpans), TotalUnits(UnitsOf(units, selected))))
  {
    hide DealtBy, Segmented;
    var limit := Max(1, maxSpans);
    selected, omitted, keep := SelectSources(sources, limit);
    KeptIsUsable(sources, keep, |sources|);
    KeptCount(sources, keep, |sources|);
    assert Below(keep, |sources|) == keep;
    spans, units, slots := SegmentSelected(selected, limit, target);
  }

  // ------------------------------------------------------------- refinement

  function Moved(rs: seq<Range>, offset: nat): (moved: seq<Range>)
    ensures |moved| == |rs|
    ensures forall i :: 0 <= i < |rs| ==> moved[i] == Range(rs[i].start + offset, rs[i].end + offset, rs[i].kind)
  {
    seq(|rs|, i requires 0 <= i < |rs| => Range(rs[i].start + offset, rs[i].end + offset, rs[i].kind))
  }

  predicate IsExcerpt(text: string, excerpt: string, at: nat) {
    at + |excerpt| <= |text| && forall p :: 0 <= p < |excerpt| ==> excerpt[p] == text[at + p]
  }

  /** Ranges of an excerpt, moved to where the excerpt stands. */
  lemma {:induction false} MovedChain(text: string, excerpt: string, at: nat, rs: seq<Range>, from: nat, to: nat)
    requires IsExcerpt(text, excerpt, at) && to <= |excerpt| && Chain(excerpt, rs, from, to)
    ensures Chain(text, Moved(rs, at), from + at, to + at)
  {
    if rs == [] {
      MovedSpace(text, excerpt, at, from, to);
    } else {
      var last := rs[|rs| - 1];
      MovedSpace(text, excerpt, at, last.end, to);
      MovedChain(text, excerpt, at, rs[..|rs| - 1], from, last.start);
      assert Moved(rs, at)[..|rs| - 1] == Moved(rs[..|rs| - 1], at);
    }
  }

  lemma MovedSpace(text: string, excerpt: string, at: nat, from: nat, to: nat)
    requires IsExcerpt(text, excerpt, at) && to <= |excerpt| && AllSpace(excerpt, from, to)
    ensures AllSpace(text, from + at, to + at)
  {
    forall p | from + at <= p < to + at && p < |text| ensures IsSpace(text[p]) {
      assert excerpt[p - at] == text[at + (p - at)];
    }
  }

  /**
   _refine_span: nothing for a span that cannot be split; otherwise two or more fine spans
   that stay inside the coarse one and together still cover all its words.
   */
  method RefineSpan(text: string, span: Range, target: int, maxFine: int)
    returns (fine: seq<Range>, ghost units: seq<Range>)
    requires WordAligned(text, span)
    ensures fine != [] ==> 2 <= |fine| <= maxFine && Chain(text, fine, span.start, span.end)
    ensures forall i :: 0 <= i < |fine| ==> WordAligned(text, fine[i])
    ensures IsSplit(text[span.start..span.end], units, Max(64, target))
    ensures |fine| == if |units| <= 1 || maxFine <= 1 then 0 else Min(maxFine, |units|)
    ensures forall i :: 0 <= i < |fine| ==> FineAt(fine[i], span, units, maxFine, i)
  {
    var excerpt := text[span.start..span.end];
    assert IsExcerpt(text, excerpt, span.start);
    fine, units := RefineExcerpt(text, excerpt, span, target, maxFine);
  }

  /** The i-th fine span is the i-th group of units, where it stands in the text. */
  ghost predicate FineAt(r: Range, span: Range, units: seq<Range>, maxFine: nat, i: nat) {
    var groups := PartitionUnits(units, maxFine);
    && i < |groups| && groups[i] != []
    && var local := Merged(groups[i]);
       r == Range(local.start + span.start, local.end + span.start, local.kind)
  }

  method RefineExcerpt(text: string, excerpt: string, span: Range, target: int, maxFine: int)
    returns (fine: seq<Range>, ghost units: seq<Range>)
    requires WordAligned(text, span) && |excerpt| == span.end - span.start
    requires IsExcerpt(text, excerpt, span.start)
    ensures fine != [] ==> 2 <= |fine| <= maxFine && Chain(text, fine, span.start, span.end)
    ensures forall i :: 0 <= i < |fine| ==> WordAligned(text, fine[i])
    ensures IsSplit(excerpt, units, Max(64, target))
    ensures |fine| == if |units| <= 1 || maxFine <= 1 then 0 else Min(maxFine, |units|)
    ensures forall i :: 0 <= i < |fine| ==> FineAt(fine[i], span, units, maxFine, i)
  {
    hide IsSplit, Chain, IsExcerpt, WordAligned, UnitsFit;
    var local := SplitText(excerpt, target);
    units := local;
    if |local| <= 1 {
      return [], units;
    }
    var count := Min(Max(1, maxFine), |local|);
    if count <= 1 {
      return [], units;
    }
    SplitFits(excerpt, units, Max(64, target));
    var merged := DealOut(excerpt, local, count, Max(64, target));
    fine := MoveAll(text, excerpt, span, merged);
    SameGroups(local, maxFine);
  }

  lemma SameGroups<T>(units: seq<T>, count: int)
    ensures PartitionUnits(units, count) == PartitionUnits(units, Min(Max(1, count), |units|))
  {
  }

  method DealOut(text: string, units: seq<Range>, count: nat, ghost limit: nat) returns (merged: seq<Range>)
    requires 1 <= count <= |units| && UnitsFit(text, units, limit)
    ensures |merged| == count && Chain(text, merged, 0, |text|)
    ensures forall i :: 0 <= i < |merged| ==> WordAligned(text, merged[i])
    ensures |PartitionUnits(units, count)| == count
    ensures forall i :: 0 <= i < count ==>
      PartitionUnits(units, count)[i] != [] && merged[i] == Merged(PartitionUnits(units, count)[i])
  {
    DealtOut(text, units, count, limit, 0, |text|);
    merged := MergedAll(PartitionUnits(units, count));
  }

  method MoveAll(text: string, excerpt: string, span: Range, local: seq<Range>) returns (fine: seq<Range>)
    requires WordAligned(text, span) && |excerpt| == span.end - span.start
    requires IsExcerpt(text, excerpt, span.start) && Chain(excerpt, local, 0, |excerpt|)
    requires forall i :: 0 <= i < |local| ==> WordAligned(excerpt, local[i])
    ensures fine == Moved(local, span.start) && Chain(text, fine, span.start, span.end)
    ensures forall i :: 0 <= i < |fine| ==> WordAligned(text, fine[i])
  {
    hide Chain, IsExcerpt, WordAligned;
    fine := Moved(local, span.start);
    MovedChain(text, excerpt, span.start, local, 0, |excerpt|);
    AllMovedAligned(text, excerpt, span, local);
  }

  lemma AllMovedAligned(text: string, excerpt: string, span: Range, local: seq<Range>)
    requires WordAligned(text, span) && |excerpt| == span.end - span.start
    requires IsExcerpt(text, excerpt, span.start)
    requires forall i :: 0 <= i < |local| ==> WordAligned(excerpt, local[i])
    ensures forall i :: 0 <= i < |local| ==> WordAligned(text, Moved(local, span.start)[i])
  {
    forall i | 0 <= i < |local| ensures WordAligned(text, Moved(local, span.start)[i]) {
      MovedAligned(text, excerpt, span, local[i]);
    }
  }

  lemma MovedAligned(text: string, excerpt: string, span: Range, r: Range)
    requires WordAligned(text, span) && |excerpt| == span.end - span.start
    requires IsExcerpt(text, excerpt, span.start) && WordAligned(excerpt, r)
    ensures WordAligned(text, Range(r.start + span.start, r.end + span.start, r.kind))
  {
    assert excerpt[r.start] == text[span.start + r.start];
    assert excerpt[r.end - 1] == text[span.start + (r.end - 1)];
    assert r.start > 0 ==> excerpt[r.start - 1] == text[span.start + (r.start - 1)];
    assert r.end < |excerpt| ==> excerpt[r.end] == text[span.start + r.end];
  }
}
