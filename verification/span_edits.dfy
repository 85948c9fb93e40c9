/**
 Neutral-filler replacement of several spans in one arm
 (_replace_spans in clozn/receipts/context_answer_influence.py).
 */
module SpanEdits {
  import opened Common

  datatype Target = Block | Message(index: nat)
  datatype Edit = Edit(target: Target, start: nat, end: nat)

  predicate Covers(e: Edit, p: nat) {
    e.start <= p < e.end
  }

  predicate Disjoint(a: Edit, b: Edit) {
    a.end <= b.start || b.end <= a.start
  }

  ghost predicate PairwiseDisjoint(edits: seq<Edit>) {
    forall i, j :: 0 <= i < j < |edits| ==> Disjoint(edits[i], edits[j])
  }

  predicate Fits(text: string, e: Edit) {
    e.start < e.end <= |text|
  }

  predicate AllFit(text: string, edits: seq<Edit>) {
    forall i :: 0 <= i < |edits| ==> Fits(text, edits[i])
  }

  /** _matched_length_filler: the filler text, repeated and cut to length, but never empty. */
  function MatchedLengthFiller(n: nat, filler: string): (r: string)
    requires filler != ""
    ensures |r| == Max(1, n)
    ensures forall k :: 0 <= k < |r| ==> r[k] == filler[k % |filler|]
  {
    seq(Max(1, n), k requires 0 <= k < Max(1, n) => filler[k % |filler|])
  }

  function ReplaceOne(text: string, e: Edit, filler: string): (r: string)
    requires filler != "" && Fits(text, e)
    ensures |r| == |text|
    ensures forall p :: 0 <= p < |text| ==>
      r[p] == if Covers(e, p) then filler[(p - e.start) % |filler|] else text[p]
  {
    text[..e.start] + MatchedLengthFiller(e.end - e.start, filler) + text[e.end..]
  }

  // ------------------------------------------------------- stable sort, descending

  function InsertByStart(sorted: seq<Edit>, e: Edit): (r: seq<Edit>)
    ensures multiset(r) == multiset(sorted) + multiset{e}
  {
    if sorted == [] then [e]
    else
      var init, last := sorted[..|sorted| - 1], sorted[|sorted| - 1];
      assert sorted == init + [last];
      if last.start >= e.start then sorted + [e] else InsertByStart(init, e) + [last]
  }

  /** sorted(group, key=lambda item: -item["start"]) */
  function SortByStart(group: seq<Edit>): (r: seq<Edit>)
    ensures multiset(r) == multiset(group)
  {
    if group == [] then []
    else
      assert group == group[..|group| - 1] + [group[|group| - 1]];
      InsertByStart(SortByStart(group[..|group| - 1]), group[|group| - 1])
  }

  lemma SortKeepsMembers(group: seq<Edit>)
    ensures forall e :: e in SortByStart(group) <==> e in group
  {
    forall e ensures e in SortByStart(group) <==> e in group {
      assert e in multiset(group) <==> e in multiset(SortByStart(group));
    }
  }

  // -------------------------------------------------------------- one text

  /** The k-th character of a filler. */
  function FillChar(filler: string, k: nat): char
    requires filler != ""
  {
    filler[k % |filler|]
  }

  /** The filler character that an edit puts at a position. */
  function FillerAt(e: Edit, filler: string, p: nat): char
    requires filler != "" && Covers(e, p)
  {
    FillChar(filler, p - e.start)
  }

  /** The character that the last of the edits to cover p leaves there. */
  function Painted(text: string, edits: seq<Edit>, filler: string, p: nat): char
    requires filler != "" && p < |text|
  {
    if edits == [] then text[p]
    else
      var last := edits[|edits| - 1];
      if Covers(last, p) then FillerAt(last, filler, p)
      else Painted(text, edits[..|edits| - 1], filler, p)
  }

  /** All edits at once, each on the original text. */
  ghost predicate Simultaneous(text: string, edits: seq<Edit>, filler: string, out: string)
    requires filler != ""
  {
    && |out| == |text|
    && forall p :: 0 <= p < |text| ==>
         && (forall e :: e in edits && Covers(e, p) ==> out[p] == FillerAt(e, filler, p))
         && ((forall e :: e in edits ==> !Covers(e, p)) ==> out[p] == text[p])
  }

  /** The edits one after the other from right to left: the last to cover a position shows there. */
  ghost predicate RightToLeft(text: string, edits: seq<Edit>, filler: string, out: string)
    requires filler != ""
  {
    |out| == |text| && forall p :: 0 <= p < |text| ==> out[p] == Painted(text, SortByStart(edits), filler, p)
  }

  /** The edits of one text, from right to left: later ones paint over earlier ones. */
  method ApplyEdits(text: string, group: seq<Edit>, filler: string) returns (out: string)
    requires filler != "" && AllFit(text, group)
    ensures RightToLeft(text, group, filler, out)
  {
    var order := SortByStart(group);
    SortKeepsMembers(group);
    assert AllFit(text, order) by {
      assert forall i :: 0 <= i < |order| ==> order[i] in group;
    }
    out := text;
    for k := 0 to |order|
      invariant |out| == |text|
      invariant forall p :: 0 <= p < |text| ==> out[p] == Painted(text, order[..k], filler, p)
    {
      assert Fits(text, order[k]) && order[..k + 1][..k] == order[..k];
      out := ReplaceOne(out, order[k], filler);
    }
    assert order[..|order|] == order;
  }

  /** Where two edits overlap they put the same characters. */
  ghost predicate OverlapAgrees(d: Edit, e: Edit, filler: string)
    requires filler != ""
  {
    forall p: nat :: Covers(d, p) && Covers(e, p) ==> FillerAt(d, filler, p) == FillerAt(e, filler, p)
  }

  ghost predicate OverlapsAgree(edits: seq<Edit>, filler: string)
    requires filler != ""
  {
    forall d, e :: d in edits && e in edits ==> OverlapAgrees(d, e, filler)
  }

  lemma {:induction false} PaintedAlike(text: string, edits: seq<Edit>, filler: string, p: nat, e: Edit)
    requires filler != "" && p < |text| && e in edits && Covers(e, p)
    requires forall d :: d in edits && Covers(d, p) ==> FillerAt(d, filler, p) == FillerAt(e, filler, p)
    ensures Painted(text, edits, filler, p) == FillerAt(e, filler, p)
  {
    hide FillerAt;
    var last := edits[|edits| - 1];
    if Covers(last, p) {
      assert last in edits;
    } else {
      assert e in edits[..|edits| - 1];
      PaintedAlike(text, edits[..|edits| - 1], filler, p, e);
    }
  }

  lemma {:induction false} NotPainted(text: string, edits: seq<Edit>, filler: string, p: nat)
    requires filler != "" && p < |text| && forall e :: e in edits ==> !Covers(e, p)
    ensures Painted(text, edits, filler, p) == text[p]
  {
    if edits != [] {
      assert edits[|edits| - 1] in edits;
      NotPainted(text, edits[..|edits| - 1], filler, p);
    }
  }

  /**
   The edits from right to left come to the same as all of them at once if and only if
   overlapping edits agree in their filler characters.
   */
  lemma SimultaneousExactly(text: string, group: seq<Edit>, filler: string, out: string)
    requires filler != "" && AllFit(text, group) && RightToLeft(text, group, filler, out)
    ensures Simultaneous(text, group, filler, out) <==> OverlapsAgree(group, filler)
  {
    hide FillerAt, Painted;
    if OverlapsAgree(group, filler) {
      AgreeingIsSimultaneous(text, group, filler, out);
    }
    if Simultaneous(text, group, filler, out) {
      forall d, e | d in group && e in group ensures OverlapAgrees(d, e, filler) {
        forall p: nat | Covers(d, p) && Covers(e, p) ensures FillerAt(d, filler, p) == FillerAt(e, filler, p) {
          assert Fits(text, d) && 0 <= p < |text|;
          assert out[p] == FillerAt(d, filler, p);
        }
      }
    }
  }

  lemma AgreeingIsSimultaneous(text: string, group: seq<Edit>, filler: string, out: string)
    requires filler != "" && RightToLeft(text, group, filler, out) && OverlapsAgree(group, filler)
    ensures Simultaneous(text, group, filler, out)
  {
    hide FillerAt, Painted;
    var order := SortByStart(group);
    SortKeepsMembers(group);
    forall p | 0 <= p < |text|
      ensures forall e :: e in group && Covers(e, p) ==> out[p] == FillerAt(e, filler, p)
      ensures (forall e :: e in group ==> !Covers(e, p)) ==> out[p] == text[p]
    {
      forall e | e in group && Covers(e, p) ensures out[p] == FillerAt(e, filler, p) {
        assert forall d :: d in order && Covers(d, p) ==> OverlapAgrees(d, e, filler);
        PaintedAlike(text, order, filler, p, e);
      }
      if forall e :: e in group ==> !Covers(e, p) {
        NotPainted(text, order, filler, p);
      }
    }
  }

  /** Disjoint edits, in any order, come to the same as all of them at once. */
  lemma DisjointEditsAreSimultaneous(text: string, group: seq<Edit>, filler: string, out: string)
    requires filler != "" && AllFit(text, group) && PairwiseDisjoint(group)
    requires RightToLeft(text, group, filler, out)
    ensures Simultaneous(text, group, filler, out)
  {
    DisjointAgree(group, filler);
    AgreeingIsSimultaneous(text, group, filler, out);
  }

  lemma DisjointAgree(group: seq<Edit>, filler: string)
    requires filler != "" && PairwiseDisjoint(group)
    ensures OverlapsAgree(group, filler)
  {
    forall d, e | d in group && e in group ensures OverlapAgrees(d, e, filler) {
      SameOrDisjoint(group, d, e);
    }
  }

  lemma SameOrDisjoint(group: seq<Edit>, d: Edit, e: Edit)
    requires PairwiseDisjoint(group) && d in group && e in group
    ensures d == e || Disjoint(d, e)
  {
    var i :| 0 <= i < |group| && group[i] == d;
    var j :| 0 <= j < |group| && group[j] == e;
    assert i == j || Disjoint(group[Min(i, j)], group[Max(i, j)]);
  }

  /** A span together with one of its own fine spans. */
  predicate Within(child: Edit, parent: Edit) {
    parent.start <= child.start && child.end <= parent.end
  }

  /**
   The joint arm of a span and one of its own fine spans is, in either order, the arm of
   the span alone.
   */
  lemma ParentHidesChild(text: string, parent: Edit, child: Edit, pair: seq<Edit>, filler: string, p: nat)
    requires filler != "" && Fits(text, parent) && Fits(text, child) && Within(child, parent)
    requires (pair == [parent, child] || pair == [child, parent]) && p < |text|
    ensures Painted(text, SortByStart(pair), filler, p) == Painted(text, SortByStart([parent]), filler, p)
  {
    SortPair(pair[0], pair[1]);
    SortOne(parent);
    PaintedSingle(text, parent, filler, p);
    if parent.start >= child.start && pair == [parent, child] {
      PaintedPair(text, parent, child, filler, p);
    } else {
      PaintedPair(text, child, parent, filler, p);
    }
  }

  /** The filler repeats itself after `shift` characters, as far as n characters go. */
  ghost predicate RepeatsAfter(filler: string, shift: nat, n: nat)
    requires filler != ""
  {
    forall k: nat :: k < n ==> RepeatsAt(filler, shift, k)
  }

  predicate RepeatsAt(filler: string, shift: nat, k: nat)
    requires filler != ""
  {
    FillChar(filler, shift + k) == FillChar(filler, k)
  }

  lemma ParentAndChildAgree(parent: Edit, child: Edit, filler: string)
    requires filler != "" && Within(child, parent) && child.start < child.end
    ensures OverlapAgrees(parent, child, filler) && OverlapAgrees(child, parent, filler)
        <==> RepeatsAfter(filler, child.start - parent.start, child.end - child.start)
  {
    hide FillChar;
    var shift, n := child.start - parent.start, child.end - child.start;
    if RepeatsAfter(filler, shift, n) {
      forall p: nat | Covers(child, p) ensures FillerAt(parent, filler, p) == FillerAt(child, filler, p) {
        assert RepeatsAt(filler, shift, p - child.start);
      }
    }
    if OverlapAgrees(parent, child, filler) {
      forall k: nat | k < n ensures RepeatsAt(filler, shift, k) {
        var p := child.start + k;
        assert Covers(parent, p) && Covers(child, p) && FillerAt(parent, filler, p) == FillerAt(child, filler, p);
      }
    }
  }

  /** So it is not both replacements at once, unless the filler happens to repeat itself. */
  lemma ParentAndChild(text: string, parent: Edit, child: Edit, pair: seq<Edit>, filler: string, out: string)
    requires filler != "" && Fits(text, parent) && Fits(text, child) && Within(child, parent)
    requires pair == [parent, child] || pair == [child, parent]
    requires RightToLeft(text, pair, filler, out)
    ensures Simultaneous(text, pair, filler, out)
        <==> RepeatsAfter(filler, child.start - parent.start, child.end - child.start)
  {
    hide Simultaneous, RightToLeft, FillerAt, RepeatsAfter;
    SimultaneousExactly(text, pair, filler, out);
    ParentAndChildAgree(parent, child, filler);
    assert parent in pair && child in pair && forall e :: e in pair ==> e == parent || e == child;
    assert OverlapAgrees(parent, parent, filler) && OverlapAgrees(child, child, filler);
  }

  /** So not if the filler of the piece begins with another character than its parent shows there. */
  lemma PieceSpoilsTheJointArm(text: string, parent: Edit, child: Edit, pair: seq<Edit>, filler: string, out: string)
    requires filler != "" && Fits(text, parent) && Fits(text, child) && Within(child, parent)
    requires pair == [parent, child] || pair == [child, parent]
    requires FillChar(filler, child.start - parent.start) != FillChar(filler, 0)
    requires RightToLeft(text, pair, filler, out)
    ensures !Simultaneous(text, pair, filler, out)
  {
    hide Simultaneous, RightToLeft, FillerAt;
    ParentAndChild(text, parent, child, pair, filler, out);
    assert !RepeatsAt(filler, child.start - parent.start, 0);
  }

  lemma PaintedSingle(text: string, a: Edit, filler: string, p: nat)
    requires filler != "" && p < |text|
    ensures Painted(text, [a], filler, p) == if Covers(a, p) then filler[(p - a.start) % |filler|] else text[p]
  {
    assert [a][..0] == [];
  }

  lemma PaintedPair(text: string, a: Edit, b: Edit, filler: string, p: nat)
    requires filler != "" && p < |text|
    ensures Painted(text, [a, b], filler, p)
         == if Covers(b, p) then filler[(p - b.start) % |filler|] else Painted(text, [a], filler, p)
    ensures Painted(text, [a], filler, p) == if Covers(a, p) then filler[(p - a.start) % |filler|] else text[p]
  {
    assert [a, b][..1] == [a];
    PaintedSingle(text, a, filler, p);
  }

  lemma SortOne(a: Edit)
    ensures SortByStart([a]) == [a]
  {
    assert [a][..0] == [];
  }

  lemma SortPair(a: Edit, b: Edit)
    ensures SortByStart([a, b]) == if a.start >= b.start then [a, b] else [b, a]
  {
    assert [a, b][..1] == [a] && [a][..0] == [];
    SortOne(a);
  }

  // ------------------------------------------------------- all the messages

  function EditsOf(spans: seq<Edit>, target: Target): seq<Edit> {
    if spans == [] then []
    else
      var last := spans[|spans| - 1];
      EditsOf(spans[..|spans| - 1], target) + if last.target == target then [last] else []
  }

  lemma {:induction false} EditsOfMembers(spans: seq<Edit>, target: Target)
    ensures forall e :: e in EditsOf(spans, target) <==> e in spans && e.target == target
  {
    if spans != [] {
      var init, last := spans[..|spans| - 1], spans[|spans| - 1];
      assert spans == init + [last];
      EditsOfMembers(init, target);
    }
  }

  /** Spans may overlap only if they lie in different texts. */
  ghost predicate DisjointPerText(spans: seq<Edit>) {
    forall i, j :: 0 <= i < j < |spans| && spans[i].target == spans[j].target ==> Disjoint(spans[i], spans[j])
  }

  lemma {:induction false} EditsOfDisjoint(spans: seq<Edit>, target: Target)
    requires DisjointPerText(spans)
    ensures PairwiseDisjoint(EditsOf(spans, target))
  {
    if spans != [] {
      var init, last := spans[..|spans| - 1], spans[|spans| - 1];
      EditsOfDisjoint(init, target);
      EditsOfMembers(init, target);
      var group := EditsOf(init, target);
      forall i | 0 <= i < |group| && last.target == target ensures Disjoint(group[i], last) {
        assert group[i] in init;
      }
    }
  }

  /** For spans that are disjoint in each text ReplaceSpans replaces all of them at once. */
  lemma DisjointSpansAgree(spans: seq<Edit>, target: Target, filler: string)
    requires filler != "" && DisjointPerText(spans)
    ensures OverlapsAgree(EditsOf(spans, target), filler)
  {
    EditsOfDisjoint(spans, target);
    DisjointAgree(EditsOf(spans, target), filler);
  }

  function TextAt(messages: seq<string>, block: Option<string>, target: Target): string
    requires target.Message? ==> target.index < |messages|
  {
    match target
    case Block => if block.Some? then block.value else ""
    case Message(i) => messages[i]
  }

  ghost predicate SpansFit(messages: seq<string>, block: Option<string>, spans: seq<Edit>) {
    forall e :: e in spans ==>
      (e.target.Message? ==> e.target.index < |messages|) && Fits(TextAt(messages, block, e.target), e)
  }

  /**
   _replace_spans: in every text its own spans are replaced from right to left, which is
   all of them at once if and only if overlapping spans agree in their filler.
   */
  method ReplaceSpans(messages: seq<string>, block: Option<string>, spans: seq<Edit>, filler: string)
    returns (copied: seq<string>, copiedBlock: Option<string>)
    requires filler != "" && SpansFit(messages, block, spans)
    ensures |copied| == |messages|
    ensures forall i :: 0 <= i < |messages| ==> Replaced(messages[i], EditsOf(spans, Message(i)), filler, copied[i])
    ensures copiedBlock.Some? <==> block.Some?
    ensures block.Some? ==> Replaced(block.value, EditsOf(spans, Block), filler, copiedBlock.value)
  {
    hide Replaced;
    copied := [];
    for i := 0 to |messages|
      invariant |copied| == i
      invariant forall j :: 0 <= j < i ==> Replaced(messages[j], EditsOf(spans, Message(j)), filler, copied[j])
    {
      var text := ReplaceIn(messages[i], spans, Message(i), filler);
      copied := copied + [text];
    }
    copiedBlock := block;
    if block.Some? {
      var text := ReplaceIn(block.value, spans, Block, filler);
      copiedBlock := Some(text);
    }
  }

  ghost predicate Replaced(text: string, edits: seq<Edit>, filler: string, out: string)
    requires filler != ""
  {
    && RightToLeft(text, edits, filler, out)
    && (Simultaneous(text, edits, filler, out) <==> OverlapsAgree(edits, filler))
  }

  method ReplaceIn(text: string, spans: seq<Edit>, target: Target, filler: string) returns (out: string)
    requires filler != "" && forall e :: e in spans && e.target == target ==> Fits(text, e)
    ensures Replaced(text, EditsOf(spans, target), filler, out)
  {
    hide RightToLeft, Simultaneous, OverlapsAgree;
    var group := EditsOf(spans, target);
    EditsOfMembers(spans, target);
    assert AllFit(text, group) by {
      assert forall i :: 0 <= i < |group| ==> group[i] in spans;
    }
    out := ApplyEdits(text, group, filler);
    SimultaneousExactly(text, group, filler, out);
  }
}
