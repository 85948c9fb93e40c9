/**
 Sentence and hard-chunk ranges of a context text
 (_text_ranges in clozn/receipts/context_answer_influence.py).
 */
module TextRanges {
  import opened Common

  datatype Kind = Sentence | Chunk
  datatype Range = Range(start: nat, end: nat, kind: Kind)

  /** str.isspace, which is also what \s matches. */
  predicate IsSpace(c: char) {
    var n := c as int;
    || 0x09 <= n <= 0x0D || 0x1C <= n <= 0x20 || n == 0x85 || n == 0xA0 || n == 0x1680
    || 0x2000 <= n <= 0x200A || n == 0x2028 || n == 0x2029 || n == 0x202F || n == 0x205F || n == 0x3000
  }

  predicate AllSpace(text: string, a: nat, b: nat) {
    forall p :: a <= p < b && p < |text| ==> IsSpace(text[p])
  }

  predicate NoSpace(text: string, a: nat, b: nat) {
    forall p :: a <= p < b && p < |text| ==> !IsSpace(text[p])
  }

  predicate Solid(text: string, p: nat) {
    p < |text| && !IsSpace(text[p])
  }

  /** A position at which a word cannot be cut. */
  predicate Boundary(text: string, p: nat) {
    p == 0 || p >= |text| || IsSpace(text[p])
  }

  /** A range that starts and ends with a whole word and keeps the size limit, unless it is one word. */
  predicate Piece(text: string, r: Range, limit: nat) {
    && r.start < r.end <= |text|
    && Solid(text, r.start) && Solid(text, r.end - 1)
    && (r.start == 0 || IsSpace(text[r.start - 1]))
    && (r.end == |text| || IsSpace(text[r.end]))
    && (r.end - r.start <= limit || NoSpace(text, r.start, r.end))
  }

  /** Ordered, disjoint ranges inside from..to that leave out nothing but whitespace. */
  predicate Chain(text: string, rs: seq<Range>, from: nat, to: nat) {
    if rs == [] then from <= to && AllSpace(text, from, to)
    else
      var last := rs[|rs| - 1];
      && last.start < last.end <= to && AllSpace(text, last.end, to)
      && Chain(text, rs[..|rs| - 1], from, last.start)
  }

  /** What a range may be, given the bounds c..d of the sentence it was taken from. */
  ghost predicate FromSentence(text: string, r: Range, c: nat, d: nat, limit: nat) {
    && c <= r.start && r.end <= d
    && (r.kind == Sentence ==>
          r.end - r.start <= limit && AllSpace(text, c, r.start) && AllSpace(text, r.end, d))
    && (r.kind == Chunk ==>
          exists a: nat, b: nat :: c <= a && b <= d && Overlong(text, a, b, limit))
  }

  /** Text that is longer than the limit between its first and its last word. */
  predicate Overlong(text: string, a: nat, b: nat, limit: nat) {
    a < b && Solid(text, a) && Solid(text, b - 1) && b - a > limit
  }

  // ------------------------------------------------------------- sentence ends

  predicate IsCloser(c: char) {
    c in "\"')]"
  }

  /** text[..e] ends in sentence punctuation, possibly followed by closing quotes and brackets. */
  predicate EndsSentence(text: string, e: nat)
    requires e <= |text|
  {
    e > 0 && (text[e - 1] in ".!?" || (IsCloser(text[e - 1]) && EndsSentence(text, e - 1)))
  }

  /** That is, after the last mark up to here there are only closers. */
  lemma {:induction false} EndsSentenceExactly(text: string, e: nat)
    requires e <= |text|
    ensures EndsSentence(text, e) <==> exists k :: 0 < k <= e && MarkThenClosers(text, k, e)
  {
    if e > 0 {
      EndsSentenceExactly(text, e - 1);
      if EndsSentence(text, e) {
        if text[e - 1] in ".!?" {
          assert MarkThenClosers(text, e, e);
        } else {
          var k :| 0 < k <= e - 1 && MarkThenClosers(text, k, e - 1);
          assert MarkThenClosers(text, k, e);
        }
      }
      if k :| 0 < k < e && MarkThenClosers(text, k, e) {
        assert text[e - 1] in "\"')]" && MarkThenClosers(text, k, e - 1);
      }
    }
  }

  predicate MarkThenClosers(text: string, k: int, e: nat) {
    0 < k <= e <= |text| && text[k - 1] in ".!?" && forall j :: k <= j < e ==> text[j] in "\"')]"
  }

  predicate IsSentenceEnd(text: string, e: nat) {
    e <= |text| && EndsSentence(text, e) && (e == |text| || IsSpace(text[e]))
  }

  function SentenceEnds(text: string, upTo: nat): (ends: seq<nat>)
    requires upTo <= |text|
    ensures forall e: nat :: e in ends <==> e <= upTo && IsSentenceEnd(text, e)
    ensures Increasing(ends)
  {
    var rest := if upTo == 0 then [] else SentenceEnds(text, upTo - 1);
    assert forall i :: 0 <= i < |rest| ==> rest[i] in rest;
    if IsSentenceEnd(text, upTo) then rest + [upTo] else rest
  }

  /** c..d is one sentence of a text of length n: no sentence ends strictly inside it. */
  ghost predicate SentenceBounds(ends: seq<nat>, n: nat, c: nat, d: nat) {
    && c < d <= n && (c == 0 || c in ends) && (d == n || d in ends)
    && forall e :: e in ends ==> !(c < e < d)
  }

  /**
   A chunk takes every word that ends before the limit, and no word that ends at it or
   later, unless that is its only word; `next` is the chunk after it.
   */
  predicate Takes(text: string, r: Range, next: Range, limit: nat) {
    && NoSpace(text, next.start, r.start + limit)
    && (r.end < r.start + limit || NoSpace(text, r.start, r.end))
  }

  /** A chunk is cut off only where what is left of its sentence, which ends at d, is too long. */
  ghost predicate CutOff(text: string, r: Range, next: Range, d: nat, limit: nat) {
    Takes(text, r, next, limit) && exists q: nat :: r.start + limit <= q < d && Solid(text, q)
  }

  ghost predicate AllCutOff(text: string, rs: seq<Range>, d: nat, limit: nat) {
    forall i :: 0 <= i < |rs| - 1 ==> CutOff(text, rs[i], rs[i + 1], d, limit)
  }

  // ---------------------------------------------------------------- the method

  ghost predicate Part(text: string, r: Range, c: nat, d: nat, limit: nat) {
    Piece(text, r, limit) && FromSentence(text, r, c, d, limit)
  }

  /** All the ranges of one sentence. */
  method SplitSentence(text: string, rawStart: nat, rawEnd: nat, target: nat) returns (ranges: seq<Range>)
    requires rawStart < rawEnd <= |text| && target > 0
    requires Boundary(text, rawStart) && Boundary(text, rawEnd)
    ensures Chain(text, ranges, rawStart, rawEnd)
    ensures forall r :: r in ranges ==> Part(text, r, rawStart, rawEnd, target)
    ensures AllCutOff(text, ranges, rawEnd, target)
  {
    var start := SkipSpaces(text, rawStart, rawEnd);
    var end := TrimSpaces(text, start, rawEnd);
    if start >= end {
      return [];
    }
    if end - start <= target {
      ranges := [Range(start, end, Sentence)];
      assert ranges[..0] == [];
      return;
    }
    ranges := SplitLong(text, rawStart, rawEnd, start, end, target);
    ChainConcat(text, ranges, [], rawStart, end, rawEnd);
    assert ranges + [] == ranges;
  }

  method SkipSpaces(text: string, from: nat, end: nat) returns (p: nat)
    requires from <= end <= |text|
    ensures from <= p <= end && AllSpace(text, from, p)
    ensures p < end ==> Solid(text, p)
  {
    p := from;
    while p < end && IsSpace(text[p])
      invariant from <= p <= end && AllSpace(text, from, p)
    {
      p := p + 1;
    }
  }

  method TrimSpaces(text: string, start: nat, to: nat) returns (p: nat)
    requires start <= to <= |text|
    ensures start <= p <= to && AllSpace(text, p, to)
    ensures p > start ==> Solid(text, p - 1)
  {
    p := to;
    while p > start && IsSpace(text[p - 1])
      invariant start <= p <= to && AllSpace(text, p, to)
    {
      p := p - 1;
    }
  }

  /** The hard chunks of a sentence whose words fill start..end, which is longer than the target. */
  method SplitLong(text: string, ghost c: nat, ghost d: nat, start: nat, end: nat, target: nat)
    returns (ranges: seq<Range>)
    requires c <= start && end <= d <= |text| && target > 0 && Overlong(text, start, end, target)
    requires AllSpace(text, c, start) && (start == 0 || IsSpace(text[start - 1])) && Boundary(text, end)
    ensures Chain(text, ranges, c, end)
    ensures forall r :: r in ranges ==> Part(text, r, c, d, target)
    ensures AllCutOff(text, ranges, d, target)
  {
    ranges := [];
    var partStart := start;
    assert ChunksTo(text, [], c, d, start, target);
    while end - partStart > target
      invariant start <= partStart <= end && PartStart(text, partStart, end)
      invariant ChunksTo(text, ranges, c, d, partStart, target)
      decreases end - partStart
    {
      hide ChunksTo, Overlong, Piece;
      var partEnd, next := CutChunk(text, partStart, end, target);
      ChunkMore(text, ranges, Range(partStart, partEnd, Chunk), next, start, end, c, d, target);
      ranges := ranges + [Range(partStart, partEnd, Chunk)];
      partStart := next;
    }
    if partStart < end {
      LastChunk(text, ranges, Range(partStart, end, Chunk), start, end, c, d, target);
      ranges := ranges + [Range(partStart, end, Chunk)];
    }
  }

  /** The chunks of a sentence up to the start of the next one. */
  ghost predicate ChunksTo(text: string, rs: seq<Range>, c: nat, d: nat, p: nat, limit: nat) {
    && Chain(text, rs, c, p) && AllCutOff(text, rs, d, limit) && LastCutOff(text, rs, p, d, limit)
    && forall r :: r in rs ==> Part(text, r, c, d, limit)
  }

  lemma ChunkMore(text: string, rs: seq<Range>, r: Range, next: nat, start: nat, end: nat, c: nat, d: nat, limit: nat)
    requires ChunksTo(text, rs, c, d, r.start, limit) && r.kind == Chunk && Piece(text, r, limit)
    requires Overlong(text, start, end, limit) && c <= start <= r.start && r.start + limit < end <= d <= |text|
    requires r.end <= next <= end && AllSpace(text, r.end, next)
    requires Takes(text, r, Range(next, next, Chunk), limit)
    ensures ChunksTo(text, rs + [r], c, d, next, limit)
  {
    hide Takes, Piece, AllCutOff, LastCutOff, CutOff, Part;
    PieceBounds(text, r, limit);
    ChunkIsPart(text, c, d, start, end, r.start, r.end, limit);
    OneMoreCutOff(text, rs, r, d, limit);
    SolidEnd(text, start, end, limit);
    NextCutOff(text, rs + [r], r, next, end, d, limit);
    assert (rs + [r])[..|rs|] == rs;
  }

  lemma PieceBounds(text: string, r: Range, limit: nat)
    requires Piece(text, r, limit)
    ensures r.start < r.end
  {
  }

  lemma LastChunk(text: string, rs: seq<Range>, r: Range, start: nat, end: nat, c: nat, d: nat, limit: nat)
    requires ChunksTo(text, rs, c, d, r.start, limit) && r.kind == Chunk && r.end == end
    requires Overlong(text, start, end, limit) && c <= start <= r.start < end <= d <= |text|
    requires end - r.start <= limit && Boundary(text, end) && PartStart(text, r.start, end)
    ensures Chain(text, rs + [r], c, end) && AllCutOff(text, rs + [r], d, limit)
    ensures forall t :: t in rs + [r] ==> Part(text, t, c, d, limit)
  {
    hide AllCutOff, LastCutOff, Part;
    ChunkIsPart(text, c, d, start, end, r.start, end, limit);
    OneMoreCutOff(text, rs, r, d, limit);
    assert (rs + [r])[..|rs|] == rs;
  }

  lemma SolidEnd(text: string, start: nat, end: nat, limit: nat)
    requires Overlong(text, start, end, limit)
    ensures Solid(text, end - 1)
  {
  }

  /** The last chunk is cut off, if the next one starts here. */
  ghost predicate LastCutOff(text: string, rs: seq<Range>, next: nat, d: nat, limit: nat) {
    rs != [] ==> CutOff(text, rs[|rs| - 1], Range(next, next, Chunk), d, limit)
  }

  lemma NextCutOff(text: string, rs: seq<Range>, r: Range, next: nat, end: nat, d: nat, limit: nat)
    requires rs != [] && rs[|rs| - 1] == r && Takes(text, r, Range(next, next, Chunk), limit)
    requires r.start + limit < end <= d && Solid(text, end - 1)
    ensures LastCutOff(text, rs, next, d, limit)
  {
    hide Takes, Solid;
    var q := end - 1;
    assert r.start + limit <= q < d && Solid(text, q);
  }

  lemma OneMoreCutOff(text: string, rs: seq<Range>, r: Range, d: nat, limit: nat)
    requires AllCutOff(text, rs, d, limit) && LastCutOff(text, rs, r.start, d, limit)
    ensures AllCutOff(text, rs + [r], d, limit)
  {
    hide NoSpace;
    var all := rs + [r];
    forall i | 0 <= i < |all| - 1 ensures CutOff(text, all[i], all[i + 1], d, limit) {
      assert i < |rs| - 1 ==> CutOff(text, rs[i], rs[i + 1], d, limit);
    }
  }

  ghost predicate PartStart(text: string, p: nat, end: nat) {
    p < end ==> Solid(text, p) && (p == 0 || IsSpace(text[p - 1]))
  }

  lemma ChunkIsPart(text: string, c: nat, d: nat, start: nat, end: nat, a: nat, b: nat, limit: nat)
    requires c <= start <= a < b <= end <= d <= |text| && Overlong(text, start, end, limit)
    requires Piece(text, Range(a, b, Chunk), limit)
    ensures Part(text, Range(a, b, Chunk), c, d, limit)
  {
  }

  /** One chunk of a sentence that is too long from here on, and where the next one starts. */
  method CutChunk(text: string, partStart: nat, end: nat, target: nat) returns (partEnd: nat, next: nat)
    requires partStart + target < end <= |text| && target > 0 && Boundary(text, end)
    requires Solid(text, partStart) && (partStart == 0 || IsSpace(text[partStart - 1]))
    ensures partStart < partEnd <= next <= end && AllSpace(text, partEnd, next) && PartStart(text, next, end)
    ensures Piece(text, Range(partStart, partEnd, Chunk), target)
    ensures Takes(text, Range(partStart, partEnd, Chunk), Range(next, next, Chunk), target)
  {
    var cut := FindCut(text, partStart, end, target);
    partEnd := TrimSpaces(text, partStart, cut);
    next := SkipSpaces(text, cut, end);
  }

  /** Just after the last whitespace within the target, or at the end of an overlong word. */
  method FindCut(text: string, partStart: nat, end: nat, target: nat) returns (cut: nat)
    requires partStart + target < end <= |text| && target > 0
    requires Solid(text, partStart)
    ensures partStart < cut <= end
    ensures (cut <= partStart + target && IsSpace(text[cut - 1]) && NoSpace(text, cut, partStart + target))
      || (cut >= partStart + target && NoSpace(text, partStart, cut) && (cut == end || IsSpace(text[cut])))
  {
    var candidate := partStart + target;
    cut := candidate;
    while cut > partStart && !IsSpace(text[cut - 1])
      invariant partStart <= cut <= candidate && NoSpace(text, cut, candidate)
    {
      cut := cut - 1;
    }
    if cut == partStart {
      cut := candidate;
      while cut < end && !IsSpace(text[cut])
        invariant candidate <= cut <= end && NoSpace(text, partStart, cut)
      {
        cut := cut + 1;
      }
    }
  }

  lemma {:induction false} ChainConcat(text: string, a: seq<Range>, b: seq<Range>, from: nat, mid: nat, to: nat)
    requires Chain(text, a, from, mid) && Chain(text, b, mid, to)
    ensures Chain(text, a + b, from, to)
  {
    if b == [] {
      assert a + b == a;
    } else {
      var last := b[|b| - 1];
      ChainConcat(text, a, b[..|b| - 1], from, mid, last.start);
      assert (a + b)[..|a + b| - 1] == a + b[..|b| - 1];
    }
  }

  /** A sentence ends between the two ranges, or the first is cut off. */
  ghost predicate Follows(text: string, r: Range, next: Range, limit: nat) {
    || (exists e :: e in SentenceEnds(text, |text|) && r.end <= e <= next.start)
    || exists c: nat, d: nat :: SentenceBounds(SentenceEnds(text, |text|), |text|, c, d)
                      && c <= r.start && r.end <= d && CutOff(text, r, next, d, limit)
  }

  ghost predicate AllFollow(text: string, rs: seq<Range>, limit: nat) {
    forall i :: 0 <= i < |rs| - 1 ==> Follows(text, rs[i], rs[i + 1], limit)
  }

  /** What the ranges of a text are, up to the end of some sentence. */
  ghost predicate IsSplitTo(text: string, rs: seq<Range>, to: nat, limit: nat) {
    && Chain(text, rs, 0, to) && AllFollow(text, rs, limit)
    && forall r :: r in rs ==> Piece(text, r, limit) && InOneSentence(text, r, limit)
  }

  ghost predicate IsSplit(text: string, rs: seq<Range>, limit: nat) {
    IsSplitTo(text, rs, |text|, limit)
  }

  lemma SplitMore(text: string, rs: seq<Range>, parts: seq<Range>, from: nat, to: nat, limit: nat)
    requires IsSplitTo(text, rs, from, limit) && SentenceBounds(SentenceEnds(text, |text|), |text|, from, to)
    requires Chain(text, parts, from, to) && AllCutOff(text, parts, to, limit)
    requires forall r :: r in parts ==> Part(text, r, from, to, limit)
    ensures IsSplitTo(text, rs + parts, to, limit)
  {
    hide SentenceEnds, Piece, FromSentence, AllCutOff, AllFollow, SentenceBounds;
    if rs != [] {
      ChainInside(text, rs, 0, from, 0);
    }
    BoundsStart(SentenceEnds(text, |text|), |text|, from, to);
    FollowAcross(text, rs, parts, 0, from, to, limit);
    ChainConcat(text, rs, parts, 0, from, to);
    forall r | r in parts ensures Piece(text, r, limit) && InOneSentence(text, r, limit) {
      assert Part(text, r, from, to, limit);
    }
  }

  lemma BoundsStart(ends: seq<nat>, n: nat, c: nat, d: nat)
    requires SentenceBounds(ends, n, c, d)
    ensures c == 0 || c in ends
  {
  }

  lemma FollowAcross(text: string, a: seq<Range>, b: seq<Range>, from: nat, mid: nat, to: nat, limit: nat)
    requires Chain(text, a, from, mid) && Chain(text, b, mid, to) && AllFollow(text, a, limit)
    requires SentenceBounds(SentenceEnds(text, |text|), |text|, mid, to)
    requires AllCutOff(text, b, to, limit) && (a != [] ==> mid in SentenceEnds(text, |text|))
    ensures AllFollow(text, a + b, limit)
  {
    hide CutOff, SentenceEnds, SentenceBounds;
    var all := a + b;
    forall i | 0 <= i < |all| - 1 ensures Follows(text, all[i], all[i + 1], limit) {
      if i < |a| - 1 {
        assert Follows(text, a[i], a[i + 1], limit);
      } else if i == |a| - 1 {
        ChainInside(text, a, from, mid, i);
        ChainInside(text, b, mid, to, 0);
      } else {
        var j := i - |a|;
        ChainInside(text, b, mid, to, j);
        assert CutOff(text, b[j], b[j + 1], to, limit);
      }
    }
  }

  /** _text_ranges, for the sentence ends that the pattern finds. */
  method SplitText(text: string, targetChunkChars: int) returns (ranges: seq<Range>)
    ensures Chain(text, ranges, 0, |text|)
    ensures IsSplit(text, ranges, Max(64, targetChunkChars))
    ensures forall r :: r in ranges ==> Piece(text, r, Max(64, targetChunkChars))
    ensures forall r :: r in ranges ==> InOneSentence(text, r, Max(64, targetChunkChars))
  {
    ranges := [];
    if AllSpace(text, 0, |text|) {
      return;
    }
    var ends := SentenceEnds(text, |text|);
    SentenceEndsAreBoundaries(text);
    var raw := Sentences(text, ends);
    var target := Max(64, targetChunkChars);
    assert IsSplitTo(text, [], 0, target);
    for k := 0 to |raw|
      invariant IsSplitTo(text, ranges, RawEnd(raw, k), target)
    {
      hide IsSplitTo, AllCutOff, Part;
      assert RawAt(text, ends, raw, k);
      var parts := SplitSentence(text, raw[k].0, raw[k].1, target);
      SplitMore(text, ranges, parts, raw[k].0, raw[k].1, target);
      ranges := ranges + parts;
    }
  }

  /** The bounds of the sentences, which leave no gap. */
  method Sentences(text: string, ends: seq<nat>) returns (raw: seq<(nat, nat)>)
    requires text != [] && Increasing(ends)
    requires forall e :: e in ends ==> 0 < e <= |text| && Boundary(text, e)
    ensures RawEnd(raw, |raw|) == |text|
    ensures forall k :: 0 <= k < |raw| ==> RawAt(text, ends, raw, k)
  {
    var cursor := 0;
    raw := [];
    for k := 0 to |ends|
      invariant cursor == RawEnd(raw, |raw|) == if k == 0 then 0 else ends[k - 1]
      invariant cursor <= |text| && Boundary(text, cursor)
      invariant forall j :: 0 <= j < |raw| ==> RawAt(text, ends, raw, j)
    {
      NextSentence(ends, |text|, k);
      raw := AppendRaw(text, ends, raw, ends[k]);
      cursor := ends[k];
    }
    if cursor < |text| {
      NextSentence(ends, |text|, |ends|);
      raw := AppendRaw(text, ends, raw, |text|);
    }
  }

  predicate Increasing(ends: seq<nat>) {
    forall i, j :: 0 <= i < j < |ends| ==> ends[i] < ends[j]
  }

  lemma NextSentence(ends: seq<nat>, n: nat, k: nat)
    requires Increasing(ends) && k <= |ends| && forall e :: e in ends ==> 0 < e <= n
    ensures k < |ends| ==> ends[k] in ends
    ensures (if k == 0 then 0 else ends[k - 1]) < (if k < |ends| then ends[k] else n) ==>
      SentenceBounds(ends, n, if k == 0 then 0 else ends[k - 1], if k < |ends| then ends[k] else n)
    ensures 0 < k < |ends| ==> ends[k - 1] < ends[k]
    ensures k == 0 < |ends| ==> 0 < ends[0]
  {
    if 0 < k {
      assert ends[k - 1] in ends;
    }
  }

  function RawEnd(raw: seq<(nat, nat)>, k: nat): nat
    requires k <= |raw|
  {
    if k == 0 then 0 else raw[k - 1].1
  }

  ghost predicate RawAt(text: string, ends: seq<nat>, raw: seq<(nat, nat)>, k: nat)
    requires k < |raw|
  {
    && raw[k].0 == RawEnd(raw, k)
    && Boundary(text, raw[k].0) && Boundary(text, raw[k].1)
    && SentenceBounds(ends, |text|, raw[k].0, raw[k].1)
  }

  method AppendRaw(text: string, ends: seq<nat>, raw: seq<(nat, nat)>, end: nat) returns (longer: seq<(nat, nat)>)
    requires forall j :: 0 <= j < |raw| ==> RawAt(text, ends, raw, j)
    requires Boundary(text, RawEnd(raw, |raw|)) && Boundary(text, end)
    requires SentenceBounds(ends, |text|, RawEnd(raw, |raw|), end)
    ensures longer == raw + [(RawEnd(raw, |raw|), end)]
    ensures forall j :: 0 <= j < |longer| ==> RawAt(text, ends, longer, j)
  {
    longer := raw + [(RawEnd(raw, |raw|), end)];
    forall j | 0 <= j < |longer| ensures RawAt(text, ends, longer, j) {
      if j < |raw| {
        assert RawAt(text, ends, raw, j);
      }
    }
  }

  lemma SentenceEndsAreBoundaries(text: string)
    ensures forall e :: e in SentenceEnds(text, |text|) ==> 0 < e <= |text| && Boundary(text, e)
  {
    forall e | e in SentenceEnds(text, |text|) ensures 0 < e <= |text| && Boundary(text, e) {
      assert IsSentenceEnd(text, e);
    }
  }

  ghost predicate InOneSentence(text: string, r: Range, limit: nat) {
    exists c, d :: SentenceBounds(SentenceEnds(text, |text|), |text|, c, d) && FromSentence(text, r, c, d, limit)
  }

  // ------------------------------------------------------------ what it means

  predicate Holds(r: Range, p: nat) {
    r.start <= p < r.end
  }

  lemma {:induction false} ChainInside(text: string, rs: seq<Range>, from: nat, to: nat, i: nat)
    requires Chain(text, rs, from, to) && i < |rs|
    ensures from <= rs[i].start < rs[i].end <= to
  {
    if i < |rs| - 1 {
      ChainInside(text, rs[..|rs| - 1], from, rs[|rs| - 1].start, i);
    } else {
      ChainBounds(text, rs[..i], from, rs[i].start);
    }
  }

  lemma {:induction false} ChainBounds(text: string, rs: seq<Range>, from: nat, to: nat)
    requires Chain(text, rs, from, to)
    ensures from <= to
  {
    if rs != [] {
      ChainBounds(text, rs[..|rs| - 1], from, rs[|rs| - 1].start);
    }
  }

  /** Earlier ranges end before later ones start. */
  lemma {:induction false} ChainOrdered(text: string, rs: seq<Range>, from: nat, to: nat, i: nat, j: nat)
    requires Chain(text, rs, from, to) && i < j < |rs|
    ensures rs[i].end <= rs[j].start
  {
    var init := rs[..|rs| - 1];
    if j < |rs| - 1 {
      ChainOrdered(text, init, from, rs[|rs| - 1].start, i, j);
    } else {
      ChainInside(text, init, from, rs[j].start, i);
    }
  }

  /** Every character that is not whitespace lies in some range. */
  lemma {:induction false} ChainCovers(text: string, rs: seq<Range>, from: nat, to: nat, p: nat) returns (i: nat)
    requires Chain(text, rs, from, to) && from <= p < to && Solid(text, p)
    ensures i < |rs| && Holds(rs[i], p)
  {
    var last := rs[|rs| - 1];
    if Holds(last, p) {
      i := |rs| - 1;
    } else {
      i := ChainCovers(text, rs[..|rs| - 1], from, last.start, p);
    }
  }

  /** Every character that is not whitespace lies in exactly one range, and whole words stay together. */
  lemma CoveredOnce(text: string, rs: seq<Range>, limit: nat, p: nat)
    requires Chain(text, rs, 0, |text|) && Solid(text, p)
    requires forall r :: r in rs ==> Piece(text, r, limit)
    ensures exists i :: 0 <= i < |rs| && Holds(rs[i], p)
    ensures forall i, j :: 0 <= i < |rs| && 0 <= j < |rs| && Holds(rs[i], p) && Holds(rs[j], p) ==> i == j
    ensures forall i, q :: 0 <= i < |rs| && Holds(rs[i], p) && p <= q < |text| && NoSpace(text, p, q + 1) ==>
      Holds(rs[i], q)
  {
    var i := ChainCovers(text, rs, 0, |text|, p);
    forall a, b | 0 <= a < b < |rs| ensures !(Holds(rs[a], p) && Holds(rs[b], p)) {
      ChainOrdered(text, rs, 0, |text|, a, b);
    }
    forall a, q | 0 <= a < |rs| && Holds(rs[a], p) && p <= q < |text| && NoSpace(text, p, q + 1)
      ensures Holds(rs[a], q)
    {
      assert rs[a] in rs;
    }
  }

  // ------------------------------------------------------------- there is no choice

  /** A position lies in one sentence only. */
  lemma SameSentence(ends: seq<nat>, n: nat, c: nat, d: nat, c': nat, d': nat, p: nat)
    requires SentenceBounds(ends, n, c, d) && SentenceBounds(ends, n, c', d') && c <= p < d && c' <= p < d'
    ensures c == c' && d == d'
  {
  }

  /** The next range starts at the next word. */
  lemma StartsAtWord(text: string, a: seq<Range>, b: seq<Range>, k: nat, limit: nat)
    requires IsSplit(text, a, limit) && IsSplit(text, b, limit)
    requires k < |a| && k <= |b| && a[..k] == b[..k]
    ensures k < |b| && b[k].start <= a[k].start
  {
    hide AllFollow, InOneSentence, Piece;
    ChainInside(text, a, 0, |text|, k);
    assert Piece(text, a[k], limit);
    var p := a[k].start;
    assert Solid(text, p) by { PieceSolid(text, a[k], limit); }
    var j := ChainCovers(text, b, 0, |text|, p);
    if j < k {
      assert a[..k][j] == b[..k][j];
      ChainOrdered(text, a, 0, |text|, j, k);
    } else if j > k {
      ChainInside(text, b, 0, |text|, k);
      ChainOrdered(text, b, 0, |text|, k, j);
    }
  }

  lemma PieceSolid(text: string, r: Range, limit: nat)
    requires Piece(text, r, limit)
    ensures r.start < r.end <= |text| && Solid(text, r.start) && Solid(text, r.end - 1)
    ensures r.end == |text| || IsSpace(text[r.end])
    ensures r.end - r.start <= limit || NoSpace(text, r.start, r.end)
  {
  }

  /** A range that goes on after a word that another one ends with keeps the limit. */
  lemma LongerKeepsLimit(text: string, r: Range, t: Range, limit: nat)
    requires Piece(text, r, limit) && Piece(text, t, limit) && r.start == t.start && r.end < t.end
    ensures t.end <= t.start + limit && !NoSpace(text, t.start, t.end)
  {
    assert IsSpace(text[r.end]);
  }

  /** The range that comes after a shorter one starts inside the longer one. */
  lemma NextInside(text: string, rs: seq<Range>, k: nat, t: Range, limit: nat)
    requires IsSplit(text, rs, limit) && k < |rs| && Piece(text, t, limit)
    requires rs[k].start == t.start && rs[k].end < t.end
    ensures k + 1 < |rs| && rs[k].end <= rs[k + 1].start < t.end
  {
    hide AllFollow, InOneSentence, Piece;
    PieceSolid(text, t, limit);
    ChainInside(text, rs, 0, |text|, k);
    var j := ChainCovers(text, rs, 0, |text|, t.end - 1);
    if j < k {
      ChainOrdered(text, rs, 0, |text|, j, k);
    } else if j > k {
      ChainOrdered(text, rs, 0, |text|, k, k + 1);
      if j > k + 1 {
        ChainInside(text, rs, 0, |text|, k + 1);
        ChainOrdered(text, rs, 0, |text|, k + 1, j);
      }
    }
  }

  /** What follows the last word of a longer range is at the limit or beyond, or nothing. */
  lemma EndsAtLimit(text: string, r: Range, next: Range, t: Range, limit: nat)
    requires Piece(text, r, limit) && Piece(text, t, limit) && r.start == t.start && r.end < t.end
    requires next.start < t.end && Takes(text, r, next, limit)
    ensures t.end == |text| || t.end == t.start + limit
  {
    LongerKeepsLimit(text, r, t, limit);
    PieceSolid(text, t, limit);
  }

  /** Such a range is the last of its sentence. */
  lemma NothingLeft(text: string, rs: seq<Range>, k: nat, r: Range, next: Range, c: nat, d: nat, limit: nat)
    requires IsSplit(text, rs, limit) && k < |rs| && Piece(text, r, limit)
    requires r.start == rs[k].start && r.end < rs[k].end && next.start < rs[k].end && Takes(text, r, next, limit)
    requires SentenceBounds(SentenceEnds(text, |text|), |text|, c, d) && c <= rs[k].start && rs[k].end <= d
    ensures AllSpace(text, rs[k].end, d) && rs[k].end <= rs[k].start + limit
  {
    hide Piece, SentenceEnds, NoSpace, Takes, AllFollow, InOneSentence;
    var t := rs[k];
    SplitParts(text, rs, k, limit);
    LongerKeepsLimit(text, r, t, limit);
    EndsAtLimit(text, r, next, t, limit);
    if k + 1 < |rs| {
      GapIsSpace(text, rs, 0, |text|, k);
      ChainInside(text, rs, 0, |text|, k + 1);
      FollowsAt(text, rs, k, limit);
      var e := EndsBetween(text, t, rs[k + 1], limit);
      NoEndBefore(SentenceEnds(text, |text|), |text|, c, d, e);
    } else {
      RestIsSpace(text, rs, 0, |text|);
    }
  }

  lemma FollowsAt(text: string, rs: seq<Range>, k: nat, limit: nat)
    requires IsSplit(text, rs, limit) && k + 1 < |rs|
    ensures Follows(text, rs[k], rs[k + 1], limit)
  {
  }

  lemma NoEndBefore(ends: seq<nat>, n: nat, c: nat, d: nat, e: nat)
    requires SentenceBounds(ends, n, c, d) && e in ends && c < e
    ensures d <= e
  {
  }

  /** A range of several words that reaches the limit is not cut off, so its sentence ends with it. */
  lemma EndsBetween(text: string, t: Range, next: Range, limit: nat) returns (e: nat)
    requires Follows(text, t, next, limit) && t.end >= t.start + limit && !NoSpace(text, t.start, t.end)
    ensures e in SentenceEnds(text, |text|) && t.end <= e <= next.start
  {
    hide NoSpace, SentenceEnds, SentenceBounds;
    e :| e in SentenceEnds(text, |text|) && t.end <= e <= next.start;
  }

  lemma RestIsSpace(text: string, rs: seq<Range>, from: nat, to: nat)
    requires Chain(text, rs, from, to) && rs != []
    ensures AllSpace(text, rs[|rs| - 1].end, to)
  {
  }

  lemma {:induction false} GapIsSpace(text: string, rs: seq<Range>, from: nat, to: nat, k: nat)
    requires Chain(text, rs, from, to) && k + 1 < |rs|
    ensures AllSpace(text, rs[k].end, rs[k + 1].start)
  {
    var init := rs[..|rs| - 1];
    if k + 1 < |init| {
      GapIsSpace(text, init, from, rs[|rs| - 1].start, k);
    } else {
      RestIsSpace(text, init, from, rs[|rs| - 1].start);
    }
  }

  /** Two ranges that start at the same place end at the same place. */
  lemma NoLonger(text: string, a: seq<Range>, b: seq<Range>, k: nat, limit: nat)
    requires IsSplit(text, a, limit) && IsSplit(text, b, limit)
    requires k < |a| && k < |b| && a[k].start == b[k].start
    ensures a[k].end >= b[k].end
  {
    hide Piece, SentenceEnds, Chain, Takes, SentenceBounds, FromSentence;
    var r, t := a[k], b[k];
    assert Piece(text, r, limit) && Piece(text, t, limit) && InOneSentence(text, t, limit);
    if r.end < t.end {
      NextInside(text, a, k, t, limit);
      var next := a[k + 1];
      var c, d := SentenceOf(text, t, limit);
      assert Follows(text, r, next, limit);
      PieceSolid(text, r, limit);
      NoEndInside(text, c, d, r, next);
      var c2: nat, d2: nat :| SentenceBounds(SentenceEnds(text, |text|), |text|, c2, d2)
        && c2 <= r.start && r.end <= d2 && CutOff(text, r, next, d2, limit);
      var q: nat :| r.start + limit <= q < d2 && Solid(text, q);
      SameSentence(SentenceEnds(text, |text|), |text|, c, d, c2, d2, r.start);
      NothingLeft(text, b, k, r, next, c, d, limit);
    }
  }

  lemma SentenceOf(text: string, r: Range, limit: nat) returns (c: nat, d: nat)
    requires InOneSentence(text, r, limit)
    ensures SentenceBounds(SentenceEnds(text, |text|), |text|, c, d) && FromSentence(text, r, c, d, limit)
    ensures c <= r.start && r.end <= d
  {
    hide SentenceEnds;
    c, d :| SentenceBounds(SentenceEnds(text, |text|), |text|, c, d) && FromSentence(text, r, c, d, limit);
  }

  lemma NoEndInside(text: string, c: nat, d: nat, r: Range, next: Range)
    requires SentenceBounds(SentenceEnds(text, |text|), |text|, c, d)
    requires c <= r.start < r.end && next.start < d
    ensures !exists e :: e in SentenceEnds(text, |text|) && r.end <= e <= next.start
  {
    hide SentenceEnds;
  }

  /** And they are of the same kind. */
  lemma SameKind(text: string, r: Range, t: Range, limit: nat)
    requires Piece(text, r, limit) && InOneSentence(text, r, limit) && InOneSentence(text, t, limit)
    requires r.start == t.start && r.end == t.end
    ensures r == t
  {
    hide SentenceEnds, SentenceBounds, Piece;
    PieceSolid(text, r, limit);
    var c, d := SentenceOf(text, r, limit);
    var c2, d2 := SentenceOf(text, t, limit);
    SameSentence(SentenceEnds(text, |text|), |text|, c, d, c2, d2, r.start);
  }

  /** The ranges of a text are determined by what is promised of them. */
  lemma {:induction false} SplitIsUnique(text: string, a: seq<Range>, b: seq<Range>, k: nat, limit: nat)
    requires IsSplit(text, a, limit) && IsSplit(text, b, limit)
    requires k <= |a| && k <= |b| && a[..k] == b[..k]
    ensures a == b
    decreases |a| - k
  {
    hide IsSplitTo;
    if k < |a| {
      StartsAtWord(text, a, b, k, limit);
      StartsAtWord(text, b, a, k, limit);
      NoLonger(text, a, b, k, limit);
      NoLonger(text, b, a, k, limit);
      SplitParts(text, a, k, limit);
      SplitParts(text, b, k, limit);
      SameKind(text, a[k], b[k], limit);
      assert a[..k + 1] == a[..k] + [a[k]] && b[..k + 1] == b[..k] + [b[k]];
      SplitIsUnique(text, a, b, k + 1, limit);
    } else if k < |b| {
      StartsAtWord(text, b, a, k, limit);
    } else {
      assert a[..k] == a && b[..k] == b;
    }
  }

  lemma SplitParts(text: string, rs: seq<Range>, k: nat, limit: nat)
    requires IsSplit(text, rs, limit) && k < |rs|
    ensures Piece(text, rs[k], limit) && InOneSentence(text, rs[k], limit)
  {
  }
}
