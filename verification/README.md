# Clozn in Dafny

This project models the parts of Clozn that are algorithms and state machines of their
own, and proves what they promise.

- `coalition.dfy`: credit for influences on an answer: exact Shapley values, their
  second-order approximation and the interaction gap.
- `text_ranges.dfy`, `slots.dfy`, `context_spans.dfy`, `span_edits.dfy`,
  `influence_map.dfy`, `map_spans.dfy`: cutting a prompt into spans, replacing spans, and the
  arms of an influence map.
- `json_text.dfy`, `text_lines.dfy`, `markdown_cards.dfy`: memory cards as Markdown, printed
  and parsed, down to the JSON of each metadata line.
- `gguf.dfy`, `gguf_layout.dfy`, `fit_planner.dfy`: the parser of GGUF headers (ggml's GGUF
  specification, section "File Structure") over a cursor, the headers that it reads, and reads
  that grow until the header fits.
- `cards.dfy`, `card_ops.dfy`, `card_import.dfy`, `card_protocol.dfy`: the card store, as a
  list and as a file that crashing clients share.
- `microscope.dfy`: orthogonal matching pursuit.
- `corrective_retries.dfy`: session policies with revisions, expiry and compare-and-swap undo.
- `early_stop.dfy`: ablations that stop early, against whole ones.
- `experiment_suite.dfy`, `dial_state.dfy`: the experiment matrix, its checks and summary,
  and dials set for a variant.
- `selective_policy.dfy`: the threshold for abstaining, and the risk-coverage curve.
- `runtime_supervisor.dfy`: the limit on worker restarts.

Code that computes with loops or changes fields in place is a method or a class here, proved
against a function; what the functions and runs satisfy is proved as lemmas. Numbers that
are floats in the program are exact reals here. The engine, the operating system and the
clock are functions or parameters. Checking everything:

    dafny verify dfyconfig.toml --resource-limit 2000000 --verification-time-limit 0

## Where code and documentation disagree

- `shapley_taylor` says that it reduces to the exact Shapley value when all pairs were
  measured and there are no higher effects. It averages where the exact value sums, so this
  holds for at most two influences or cancelling interactions only (`TaylorExactness`,
  `TaylorIsNotExact`).
- `choose_threshold` says that it maximises coverage. It compares with the rounded coverage
  of the best cut so far, so this holds below twenty thousand items and fails for some set
  of every size above (`ChooseIsOptimal`, `RoundingHidesACut`; at exactly twenty thousand it
  depends on how ties are rounded).
- `recommend` promises a threshold that hits the target error. It applies the threshold
  after rounding it to four decimals, and the rounded one may answer an item that its cut
  excludes, or nothing (`RoundedDownAnswersMore`, `RoundedUpAnswersNothing`). It answers what
  the cut answers if and only if no score lies between the two (`ReportedThresholdExactly`),
  and then the target is met (`RecommendedBands`); so it is for scores of four decimals.
- The joint check of an influence map says that it replaces its two spans simultaneously.
  They may be a span and one of its own pieces (`JointPairCanOverlap`), and then the joint arm
  is that of the span alone (`ParentHidesChild`). It replaces both if and only if neither is a
  piece of the other, or the filler repeats itself (`JointPairExactly`, `JointArmExactly`). For
  the text "Yes. No.", one coarse span and a filler like the program's, which begins with "The
  user", it does not (`JointArmCanFail`).
- `undo` says that it refuses if a newer policy changed the target. After an expiry it may
  not (`ExpiryDefeatsTheCheck`).
- `_load` passes an unreadable store off as empty, under the lock too, so a `create` whose
  read fails saves its card alone (`FailedReadLosesTheStore`). The theorems about runs of the
  store suppose that this does not happen.
- The card store promises that its operations never raise. Over cards that are objects,
  `update` raises if and only if it finds its card and gives it a strength that is a whole
  number too large for a double, `bump_usage` if and only if it finds its card and the count is
  true but no number (`RaisesExactly`, `SomeCallsRaise`). All but `create` also raise where
  the lock cannot be had (`CallRaisesExactly`).
- A repeated import may fail if the import itself repeats an id
  (`RepeatedIdsFailTheSecondTime`).

## Model

| member | source | states |
|---|---|---|
| `Coalition.CombinationsAreSubsets` | clozn/receipts/coalition.py:149 | the combinations of size r are exactly the subsets of size r |
| `Coalition.RankSumIsSubsetSum` | clozn/receipts/coalition.py:147-149 | going through the sizes 0..n-1 visits every coalition of the others exactly once |
| `Coalition.SubsetSumSplit` | clozn/receipts/coalition.py:144-153 | a sum over all coalitions folds along any one influence |
| `Coalition.WeighingIsFair` | clozn/receipts/coalition.py:148 | the factorial weights of all orders balance: what one more member gains, one fewer loses |
| `Coalition.ExactShapley` | clozn/receipts/coalition.py:136-155 | the value of every influence, or the first coalition, in the order of the lookups, that was not measured |
| `Coalition.FirstMissingIs` | clozn/receipts/coalition.py:149-152 | which lookup that is: every earlier one finds its coalition |
| `Coalition.ShapleyOf` | clozn/receipts/coalition.py:144-154 | one influence: its weighted marginals over all coalitions of the others, or the first of its lookups that fails |
| `Coalition.SumOfMarginals` | clozn/receipts/coalition.py:149-153 | the innermost loop adds up the weighted marginals of one size |
| `Coalition.Efficiency` | clozn/receipts/coalition.py:136-155 | for any game and any set of influences the credits add up to the joint effect |
| `Coalition.NullInfluence` | clozn/receipts/coalition.py:136-155 | an influence that changes no coalition gets 0 |
| `Coalition.Symmetry` | clozn/receipts/coalition.py:136-155 | interchangeable influences get equal credit |
| `Coalition.ShapleySumsToJoint` | clozn/receipts/coalition.py:136-188 | the computed values sum to the joint effect, so their sum less the solo sum is the gap of interaction_gap |
| `Coalition.RatioIsOvercounting` | clozn/receipts/coalition.py:180-188 | the ratio exists unless the solo sum is 0 and then relates solo sum and joint effect |
| `Coalition.ShapleyOfNull` | clozn/receipts/coalition.py:136-155 | the null law for the measured values, with the empty coalition never read |
| `Coalition.ShapleyOfInterchangeable` | clozn/receipts/coalition.py:136-155 | the symmetry law for the measured values |
| `Coalition.CreditOfPairwise` | clozn/receipts/coalition.py:142-155 | in a game of solo and pairwise terms the credit is solo plus half the SUM of the interactions |
| `Coalition.ShapleyTaylor` | clozn/receipts/coalition.py:158-177 | every influence gets solo plus half the mean of its measured interactions, and the number of them |
| `Coalition.MeanInteraction` | clozn/receipts/coalition.py:168-176 | one influence of that loop, pairs that were not measured left out |
| `Coalition.PairInteraction` | clozn/receipts/coalition.py:170-174 | the term read off a pair and its members is the interaction of the game |
| `Coalition.TaylorAgainstExact` | clozn/receipts/coalition.py:158-177 | with all pairs measured: the exact value adds half the sum, the approximation half the mean |
| `Coalition.TaylorExactness` | clozn/receipts/coalition.py:158-177 | the two agree if and only if there are at most two influences or the interactions cancel; else they differ by (n-2)/(2(n-1)) of the sum |
| `Coalition.TaylorIsNotExact` | clozn/receipts/coalition.py:158-165 | three influences for which the docstring's claim of exactness fails: 0.5 against 1 |
| `Coalition.MissingSubsets` | clozn/receipts/coalition.py:119-131 | exactly the proper non-empty subsets not yet planned, each once |
| `Coalition.PlanArms` | clozn/receipts/coalition.py:295-312 | which arms a report runs, for each range of sizes, each once; for many influences the pairs that were ranked and the joint arm |
| `Coalition.TopPairsAreStrongest` | clozn/receipts/coalition.py:107-116 | as many pairs as asked for, in order of their summed solo effects and then of their names; none taken ranks behind one that was not |
| `Coalition.PairStrength` | clozn/receipts/coalition.py:114 | the strength of a pair is the sum of the magnitudes of its two solo effects |
| `Coalition.ExactWhenEveryArmRan` | clozn/receipts/coalition.py:347-359 | up to four influences, exact credit is possible if and only if no planned arm failed |
| `TextRanges.SplitText` | clozn/receipts/context_answer_influence.py:117-177 | the ranges chain through the text with only whitespace left out, start and end on whole words, respect the limit unless they are one word, stay in one sentence, and are cut off only where the rest of the sentence is too long, after every word that ends before the limit |
| `TextRanges.SplitIsUnique` | clozn/receipts/context_answer_influence.py:117-177 | these promises determine the ranges and their kinds |
| `TextRanges.SplitSentence` | clozn/receipts/context_answer_influence.py:143-176 | the same for one sentence |
| `TextRanges.SplitLong` | clozn/receipts/context_answer_influence.py:155-176 | the hard chunks of a sentence that is too long; every round makes progress |
| `TextRanges.FindCut` | clozn/receipts/context_answer_influence.py:159-166 | the cut follows the last whitespace within the target, or ends an overlong word |
| `TextRanges.Sentences` | clozn/receipts/context_answer_influence.py:131-139 | the raw sentences cover the text without gap |
| `TextRanges.EndsSentenceExactly` | clozn/receipts/context_answer_influence.py:127-130 | a sentence ends after a mark and any closing quotes and brackets |
| `TextRanges.SentenceEndsAreBoundaries` | clozn/receipts/context_answer_influence.py:127-130 | a sentence end never cuts a word |
| `TextRanges.ChainOrdered` | clozn/receipts/context_answer_influence.py:141-177 | earlier ranges end before later ones start |
| `TextRanges.ChainCovers` | clozn/receipts/context_answer_influence.py:141-177 | every character that is not whitespace lies in some range |
| `TextRanges.CoveredOnce` | clozn/receipts/context_answer_influence.py:117-177 | and in exactly one, words kept whole |
| `Slots.Choose` | clozn/receipts/context_answer_influence.py:258-269 | the first source with room whose prospective average is largest |
| `Slots.AllocateSlots` | clozn/receipts/context_answer_influence.py:254-272 | min(limit, units) slots in all, 1 to its units for each source, and the allocation is highest-averages fair |
| `Slots.FairAllocationIsUnique` | clozn/receipts/context_answer_influence.py:254-272 | fairness and the number of slots determine the allocation |
| `Slots.PartitionUnits` | clozn/receipts/context_answer_influence.py:275-281 | how many groups: as many as asked for, at least one, and no more than there are units |
| `Slots.PartitionIsBalanced` | clozn/receipts/context_answer_influence.py:275-281 | groups are non-empty, concatenate back to the units, and differ in size by at most one |
| `ContextSpans.SelectSources` | clozn/receipts/context_answer_influence.py:228-251 | which sources are kept: the earliest policy source and the most recent others, in order, the rest reported as omitted |
| `ContextSpans.MergedChain` | clozn/receipts/context_answer_influence.py:308-322 | merging consecutive units keeps order and coverage |
| `ContextSpans.DealtOut` | clozn/receipts/context_answer_influence.py:306-309 | dealing units out to spans: count, order and word boundaries |
| `ContextSpans.SegmentSource` | clozn/receipts/context_answer_influence.py:306-324 | the spans of one source: its units in as many balanced groups as it has slots |
| `ContextSpans.SegmentSelected` | clozn/receipts/context_answer_influence.py:297-324 | every selected source gets the spans of its units, dealt out by the fair allocation of the slots, in order; they are ordered, disjoint and complete; nothing else is emitted |
| `ContextSpans.SegmentContext` | clozn/receipts/context_answer_influence.py:284-342 | so for the sources kept: max(sources, min(limit, units)) spans, the units those of the text ranges, the slots the fair allocation |
| `ContextSpans.SegmentationIsUnique` | clozn/receipts/context_answer_influence.py:284-342 | these promises leave no choice: any two such segmentations agree, span by span |
| `ContextSpans.MovedChain` | clozn/receipts/context_answer_influence.py:384-401 | ranges of an excerpt keep their order and coverage where the excerpt stands |
| `ContextSpans.RefineSpan` | clozn/receipts/context_answer_influence.py:370-401 | nothing exactly where there is one unit or one fine span is allowed; otherwise min(max_fine_spans, units) pieces inside the span, the balanced groups of its units, which cover its words |
| `SpanEdits.ApplyEdits` | clozn/receipts/context_answer_influence.py:415-428 | right-to-left edits keep the length, and each position shows the last edit that covers it |
| `SpanEdits.SimultaneousExactly` | clozn/receipts/context_answer_influence.py:404-428 | this is replacing all of them at once on the original if and only if overlapping edits agree in their filler characters |
| `SpanEdits.DisjointEditsAreSimultaneous` | clozn/receipts/context_answer_influence.py:404-428 | so it is for disjoint spans, in any list order |
| `SpanEdits.ParentHidesChild` | clozn/receipts/context_answer_influence.py:543-559 | a span paired with a piece of its own gives the arm of the span alone |
| `SpanEdits.ParentAndChild` | clozn/receipts/context_answer_influence.py:415-428 | and that is both replacements at once if and only if the filler repeats itself after the distance of the two |
| `SpanEdits.PieceSpoilsTheJointArm` | clozn/receipts/context_answer_influence.py:415-428 | so it is not if the filler of the piece begins with another character than the filler of its span shows there |
| `SpanEdits.ReplaceSpans` | clozn/receipts/context_answer_influence.py:404-443 | every message and the block, each edited with its own group of spans, overlapping or not; nothing else changed |
| `SpanEdits.DisjointSpansAgree` | clozn/receipts/context_answer_influence.py:404-443 | for spans disjoint in each text these are simultaneous replacements |
| `InfluenceMap.RankedOk` | clozn/receipts/context_answer_influence.py:736-742 | the ranking is a permutation of the spans in the order of the sort key |
| `InfluenceMap.StrongestAreRefined` | clozn/receipts/context_answer_influence.py:743-778 | only spans that clear the floor and split are refined, at most the permitted number, none passed over for a weaker one |
| `InfluenceMap.ArmsInOrder` | clozn/receipts/context_answer_influence.py:705-778 | coarse spans first; if all score, the pieces of each refined span in its turn |
| `InfluenceMap.ScoreEach` | clozn/receipts/context_answer_influence.py:708-726 | scores arms up to the first that fails |
| `InfluenceMap.SelectionEnds` | clozn/receipts/context_answer_influence.py:743-747 | the two early exits of the loop lose no selected span |
| `InfluenceMap.BuildMap` | clozn/receipts/context_answer_influence.py:705-778 | a map has exactly one row per arm, coarse spans first, then the pieces of the selected ones; a failed map scored a prefix of these arms |
| `InfluenceMap.JointPairIsStrongest` | clozn/receipts/context_answer_influence.py:543-556 | the joint check takes two spans that clear the floor, coarse or fine, and no other that clears it precedes them |
| `InfluenceMap.JointPairExactly` | clozn/receipts/context_answer_influence.py:543-559 | in every map these two differ, and they are disjoint if and only if neither is a piece of the other |
| `InfluenceMap.JointArmExactly` | clozn/receipts/context_answer_influence.py:543-559 | so the joint arm replaces both at once if and only if neither is a piece of the other or the filler repeats itself |
| `InfluenceMap.JointPairCanOverlap` | clozn/receipts/context_answer_influence.py:543-559 | a map whose joint check takes a span of two sentences and the second of them |
| `MapSpans.CoarseArms` | clozn/receipts/context_answer_influence.py:297-324 | the spans of segment_context as arms: apart, each on word boundaries of a source, in the text of that source |
| `MapSpans.FineArms` | clozn/receipts/context_answer_influence.py:380-401 | the spans of _refine_span as arms: nothing, or pieces apart and inside their span |
| `MapSpans.MapsAreWellPlaced` | clozn/receipts/context_answer_influence.py:370-401 | so every map over such spans meets the hypothesis of the results on the joint check |
| `MapSpans.OnlySpan` | clozn/receipts/context_answer_influence.py:297-324 | a text of two sentences, where one coarse span is allowed, is that span |
| `MapSpans.OnlySplit` | clozn/receipts/context_answer_influence.py:370-401 | and it can be split in one way only, into the two sentences |
| `MapSpans.JointArmCanFail` | clozn/receipts/context_answer_influence.py:543-559 | the map of this text whose joint arm does not replace both spans at once, for any filler whose first and sixth characters differ |
| `JsonText.DecimalReads` | clozn/memory/markdown_cards.py:171-172 | the decimal text of a count has no leading zero and reads back |
| `JsonText.EscapedReads` | clozn/memory/markdown_cards.py:171-172 | every string reads back from its escaped form (RFC 8259, section 7) |
| `JsonText.LoadsQuote` | clozn/memory/markdown_cards.py:240 | json.loads of a written string is the string |
| `JsonText.LoadsDecimal` | clozn/memory/markdown_cards.py:240 | json.loads of a written count is the count |
| `JsonText.LoadsFloat` | clozn/memory/markdown_cards.py:240 | json.loads of a written double is the double, if repr does its part |
| `JsonText.LoadsObject` | clozn/memory/markdown_cards.py:240 | json.loads of a written object of strings is that object |
| `TextLines.SplitJoin` | clozn/memory/markdown_cards.py:222 | splitting joined lines gives the lines |
| `TextLines.JoinSplit` | clozn/memory/markdown_cards.py:206 | joining the lines of a text gives the text |
| `TextLines.LfWindows` | clozn/memory/markdown_cards.py:79-80 | a carriage return and line feed become one line feed, wherever they stand |
| `TextLines.LfReturn` | clozn/memory/markdown_cards.py:79-80 | so does a carriage return alone |
| `TextLines.LfOfWindows` | clozn/memory/markdown_cards.py:79-80 | a text with every line end written as on Windows becomes the text again |
| `TextLines.LfKeeps` | clozn/memory/markdown_cards.py:79-80 | a text without carriage returns is not changed |
| `TextLines.LongestIsARun` | clozn/memory/markdown_cards.py:147 | the length that the fence goes by is that of some run of tildes |
| `TextLines.LongestAtLeast` | clozn/memory/markdown_cards.py:147 | and no run is longer |
| `TextLines.FenceIsNoLine` | clozn/memory/markdown_cards.py:146-148 | no line of a value is its own fence |
| `TextLines.FenceIsShortest` | clozn/memory/markdown_cards.py:146-148 | a fence has four tildes, or one more than some run of the value; no run is as long |
| `MarkdownCards.NormalizeValidates` | clozn/memory/markdown_cards.py:93-143 | whatever validation lets through meets every condition on a card |
| `MarkdownCards.NormalizeExactly` | clozn/memory/markdown_cards.py:93-143 | validation gives a card if and only if the card is valid and the object has exactly its fields, line ends apart, with a missing scope for the global one |
| `MarkdownCards.ScopeExactly` | clozn/memory/scope.py:110-132 | which objects are accepted as which scope, a label being missing or null |
| `MarkdownCards.NormalizeAgain` | clozn/memory/markdown_cards.py:93-143 | validation leaves a validated card as it is |
| `MarkdownCards.ScopeAgain` | clozn/memory/scope.py:110-132 | every valid scope is accepted and kept |
| `MarkdownCards.EncodedLoads` | clozn/memory/markdown_cards.py:170-173 | every metadata line reads back as the field it was written from |
| `MarkdownCards.MetadataReads` | clozn/memory/markdown_cards.py:233-243 | the metadata loop reads what the printer wrote, field by field |
| `MarkdownCards.BlockReads` | clozn/memory/markdown_cards.py:189-210 | a printed literal block reads as its value, whatever the value contains |
| `MarkdownCards.CardReads` | clozn/memory/markdown_cards.py:228-247 | a printed card reads as itself |
| `MarkdownCards.OlderCardReads` | clozn/memory/markdown_cards.py:231-236 | a card printed without a scope line reads as the same card with global scope |
| `MarkdownCards.SectionsRead` | clozn/memory/markdown_cards.py:226-250 | all printed cards up to the end of the document read as themselves, in order |
| `MarkdownCards.DocumentSplits` | clozn/memory/markdown_cards.py:219-222 | normalising and splitting a printed document gives the lines it was printed from |
| `MarkdownCards.FormatThenParse` | clozn/memory/markdown_cards.py:93-255 | parse_cards(format_cards(cs)) equals the normalised cards, whenever format_cards succeeds |
| `MarkdownCards.WindowsDocumentReads` | clozn/memory/markdown_cards.py:213-255 | with the line ends of Windows a formatted document parses to the same cards, unless it is too long then |
| `MarkdownCards.MarkedDocumentReads` | clozn/memory/markdown_cards.py:219-221 | and so with a byte order mark in front |
| `MarkdownCards.ParseThenFormat` | clozn/memory/markdown_cards.py:156-255 | a parsed document formats again unless the result is too long, and that text parses to the same cards |
| `MarkdownCards.FormatIsCanonical` | clozn/memory/markdown_cards.py:156-180 | formatting parsed cards gives the same text again |
| `MarkdownCards.SkipBlankExactly` | clozn/memory/markdown_cards.py:183-186 | exactly the blank lines up to the next other line are skipped |
| `MarkdownCards.FindLineExactly` | clozn/memory/markdown_cards.py:200-203 | the first closing line is found, or none |
| `MarkdownCards.CardLayout` | clozn/memory/markdown_cards.py:168-176 | the lines of a printed card, written out |
| `MarkdownCards.FormatCard` | clozn/memory/markdown_cards.py:168-176 | one section, built as a list of lines |
| `MarkdownCards.FormatCards` | clozn/memory/markdown_cards.py:156-180 | the loops of the printer compute the document, with its three refusals |
| `MarkdownCards.ParseBlock` | clozn/memory/markdown_cards.py:189-210 | the search for the closing fence and the check of the fence |
| `MarkdownCards.ParseMetadata` | clozn/memory/markdown_cards.py:233-243 | the metadata loop, with the optional scope |
| `MarkdownCards.ParseOne` | clozn/memory/markdown_cards.py:229-247 | one card section |
| `MarkdownCards.ParseCards` | clozn/memory/markdown_cards.py:213-255 | the loops of the parser compute the parse, with its refusals |
| `FitPlanner.Reader.Take` | clozn/cli/fit_planner.py:86-100 | takes bytes and moves the cursor, or asks for the exact end |
| `FitPlanner.Reader.Value` | clozn/cli/fit_planner.py:118-135 | any value, nested arrays included, read as the specification reads it |
| `FitPlanner.Reader.Pairs` | clozn/cli/fit_planner.py:171-175 | the key/value loop, a later value for a key replacing an earlier one |
| `FitPlanner.Reader.Tensors` | clozn/cli/fit_planner.py:177-184 | the tensor loop |
| `FitPlanner.ParseGgufHeader` | clozn/cli/fit_planner.py:154-210 | the cursor-based parser computes the parse of the bytes, which is exact by the next rows |
| `GgufLayout.WrittenHeaderReads` | clozn/cli/fit_planner.py:154-210 | every header written by the layout, whatever follows, is read as it is meant: counts, strings, all value types, nested arrays, tensors |
| `GgufLayout.ParsedIsWritten` | clozn/cli/fit_planner.py:154-210 | bytes that parse begin with a written header, and the result is what that means |
| `GgufLayout.ParsesExactly` | clozn/cli/fit_planner.py:154-210 | so bytes parse if and only if they begin with a header of the layout |
| `GgufLayout.ValueRead` | clozn/cli/fit_planner.py:118-135 | a written value is read as itself, with its type tag, width, sign and byte order |
| `GgufLayout.ValueWritten` | clozn/cli/fit_planner.py:118-135 | and nothing else is read as a value |
| `GgufLayout.UnsignedIsWeighted` | clozn/cli/fit_planner.py:86-115 | numbers are the sums of their bytes times powers of 256, the lowest byte first |
| `GgufLayout.DictionaryHasLast` | clozn/cli/fit_planner.py:171-175 | a key has the last of its values |
| `FitPlanner.PairsAreMany` | clozn/cli/fit_planner.py:171-175 | the dictionary loop is the counted read of pairs |
| `FitPlanner.HeaderFromFile` | clozn/cli/fit_planner.py:213-233 | the grow-and-retry loop returns what one parse of its longest read returns; attempts grow logarithmically |
| `FitPlanner.CappedReadSuffices` | clozn/cli/fit_planner.py:213-233 | a header that ends within the cap is found as in the whole file; below it a request for more is honest |
| `FitPlanner.DefaultAttempts` | clozn/cli/fit_planner.py:213-229 | with the default sizes no file takes more than seven reads |
| `Gguf.StableValue` | clozn/cli/fit_planner.py:118-135 | a value read from a prefix is the value read from any extension |
| `Gguf.StableArray` | clozn/cli/fit_planner.py:128-131 | the same through nested arrays |
| `Gguf.StableMany` | clozn/cli/fit_planner.py:171-184 | the same through a count-driven loop |
| `Gguf.StableTensor` | clozn/cli/fit_planner.py:178-184 | the same for a tensor record |
| `Gguf.ParsingIsStable` | clozn/cli/fit_planner.py:154-210 | a parsed header or a rejection is final; a request for n bytes has n beyond the prefix, and no extension parses with a header below n bytes |
| `CardImport.MergeImport` | clozn/memory/cards.py:134-182 | the loop with its two dictionaries computes the merge, errors included |
| `CardImport.ImportExtends` | clozn/memory/cards.py:134-182 | existing cards stay as a prefix, ids stay unique, every imported card is accounted for as added or skipped |
| `CardImport.NewCardsAreImported` | clozn/memory/cards.py:147-175 | each new card is an imported one with its scope normalised |
| `CardImport.ImportSettled` | clozn/memory/cards.py:158-170 | importing cards that are already settled changes nothing and fails exactly on a clash |
| `CardImport.SecondImport` | clozn/memory/cards.py:134-182 | an identical second import adds nothing, and succeeds if and only if no imported id belongs to a card with another text |
| `CardImport.ImportTwice` | clozn/memory/cards.py:134-182 | with distinct imported ids, or in error mode, the second import always succeeds |
| `CardImport.RepeatedIdsFailTheSecondTime` | clozn/memory/cards.py:158-173 | repeated ids can make it fail: a text-skipped card and a later card with its id |
| `CardOps.PatchFirst` | clozn/memory/cards.py:283-297 | the loops of update patch the first card with the id, if any, or raise |
| `CardOps.RemoveAll` | clozn/memory/cards.py:316-319 | delete keeps the other cards in order and knows whether it removed one |
| `CardOps.BumpFirst` | clozn/memory/cards.py:326-331 | bump_usage changes the first card with the id, raises on a count that is no number, or finds none |
| `CardOps.BumpChanges` | clozn/memory/cards.py:322-331 | a bump saves if and only if it finds its card and can count; the card then has the count read plus one and the time, all its other fields and all other cards as before |
| `CardOps.UpdateChanges` | clozn/memory/cards.py:280-300 | an update changes the first card with the id only, and only in named fields |
| `CardOps.DeleteChanges` | clozn/memory/cards.py:314-319 | a deletion leaves exactly the cards without the id, in order, and saves if and only if there was one with it |
| `CardOps.ImportChanges` | clozn/memory/cards.py:134-182 | an import saves what it merged if and only if it adds something and is no trial |
| `CardOps.PatchRaisesExactly` | clozn/memory/cards.py:285-295 | the assignments of an update raise if and only if a strength is a whole number that no double holds |
| `CardOps.RaisesExactly` | clozn/memory/cards.py:217-331 | over its cards an operation raises if and only if it finds its card and a strength overflows, or the count to be bumped is true but no number; nothing is saved then |
| `CardOps.SomeCallsRaise` | clozn/memory/cards.py:285-328 | a bump and an update that raise |
| `CardOps.PatchKeepsTheRest` | clozn/memory/cards.py:285-295 | fields not named, the id and the creation time stay |
| `CardOps.PatchAssigns` | clozn/memory/cards.py:285-295 | every other named field gets its value, strengths as floats, malformed status and strength excepted |
| `CardOps.OnlyDeleteRemoves` | clozn/memory/cards.py:217-331 | no operation but its own deletion removes a card |
| `CardOps.CreatedCardSurvives` | clozn/memory/cards.py:217-331 | in any serial order a created card stays until its deletion |
| `CardOps.UsageGrows` | clozn/memory/cards.py:322-331 | over any serial order without its deletion or patch the usage count grows by the number of bumps |
| `CardOps.UsageCountsBumps` | clozn/memory/cards.py:217-331 | from its creation on the count is the number of committed bumps |
| `CardProtocol.StepPreserves` | clozn/memory/cards.py:54-110 | every step of every client, crashes included, keeps the invariant of the protocol |
| `CardProtocol.FileIsSerial` | clozn/memory/cards.py:54-110 | on every run the file is complete and holds the result of a serial order of the committed operations |
| `CardProtocol.OneInside` | clozn/memory/cards.py:54-81 | at most one client is between lock and unlock |
| `CardProtocol.ReadersSeeWholeFiles` | clozn/memory/cards.py:88-97 | a lock-free reader never sees part of a file; what it reads was the whole store at its opening |
| `CardProtocol.LogsGrow` | clozn/memory/cards.py:99-110 | commits and returned replies are never taken back |
| `CardProtocol.CallRaisesExactly` | clozn/memory/cards.py:54-81 | on every run a call raises if and only if it is not a creation and cannot have the lock, or it stumbles over the cards it read |
| `CardProtocol.CallsAreLinearizable` | clozn/memory/cards.py:217-331 | every call that could read the store takes effect at one point between its begin and end, and no two calls share a commit; a call without effect for a failure says not found after a failed read, or failed, and promises nothing more |
| `CardProtocol.ReturnedCardIsKept` | clozn/memory/cards.py:217-222 | a card that create returned is in the file until a later deletion of it commits |
| `CardProtocol.FileCountsBumps` | clozn/memory/cards.py:322-331 | the usage count in the file is the number of committed bumps |
| `CardProtocol.NoLitter` | clozn/_io.py:36-48 | without crashes and failed removals no temporary file outlives its call |
| `CardProtocol.FailedReadLosesTheStore` | clozn/memory/cards.py:88-97 | a create whose read fails under the lock keeps the store if and only if it was empty |
| `CardProtocol.FailedReadSavesNothing` | clozn/memory/cards.py:88-97 | in every other operation a failed read saves nothing |
| `CardProtocol.CommittedCardsCanBeLost` | clozn/memory/cards.py:88-97 | a run in which committed cards are lost that way |
| `CardProtocol.SaveEffects` | clozn/_io.py:33-48 | the directory after a save, wherever it failed |
| `CardProtocol.Directory.AtomicWrite` | clozn/_io.py:25-48 | the write does the steps of the protocol; a failure leaves the path and all earlier files as they were |
| `Microscope.ResidualOrthogonal` | clozn/analysis/microscope.py:149-151 | the residual of a least-squares minimiser is orthogonal to every selected atom |
| `Microscope.AtomLowersError` | clozn/analysis/microscope.py:145-151 | one more atom lowers the squared error at least by the square of its score |
| `Microscope.Pythagoras` | clozn/analysis/microscope.py:156-161 | for a unit target |recon|^2 + |residual|^2 = 1 and recon.t = |recon|^2 |
| `Microscope.BestAtom` | clozn/analysis/microscope.py:141-144 | the first unselected atom with the largest score |
| `Microscope.Pursue` | clozn/analysis/microscope.py:137-161 | every pick is the best at its time and above the limit, the number of picks is bounded, and at an early stop no score is above the limit |
| `Microscope.PickedAreOrthogonal` | clozn/analysis/microscope.py:140-151 | after every step the residual is orthogonal to all atoms picked so far |
| `Microscope.PicksDiffer` | clozn/analysis/microscope.py:142-147 | no atom is picked twice |
| `Microscope.MaskIsNotNeeded` | clozn/analysis/microscope.py:142-145 | a picked atom has score 0, so the mask never decides |
| `Microscope.StepLowersResidual` | clozn/analysis/microscope.py:145-151 | every step lowers the squared residual by at least the square of the score chosen |
| `Microscope.ResidualAfterSteps` | clozn/analysis/microscope.py:140-151 | after n picks the squared residual is at most 1 - n times the squared limit |
| `Microscope.PursuitExplains` | clozn/analysis/microscope.py:156-190 | the cosine is |recon| and explained_variance is |recon|^2; the guards against zero norm and against values outside [0, 1] never act |
| `CorrectiveRetries.StepPreserves` | clozn/behavior/corrective_retries.py:158-239 | every activate and undo, with expiry, keeps the invariant of store and history |
| `CorrectiveRetries.RunInvariant` | clozn/behavior/corrective_retries.py:158-239 | so it holds after every run |
| `CorrectiveRetries.LoadKeeps` | clozn/behavior/corrective_retries.py:43-67 | the live entries and the last 200 transactions |
| `CorrectiveRetries.ActivationEffect` | clozn/behavior/corrective_retries.py:158-185 | when a preset is activated, and what changes: one session, alive for thirty more days, and one more transaction |
| `CorrectiveRetries.UndoEffect` | clozn/behavior/corrective_retries.py:214-239 | an undo succeeds if and only if its last transaction is not undone and still in effect; it sets back one session, for thirty more days, and marks the transaction |
| `CorrectiveRetries.UndoTakesBackTheLastChange` | clozn/behavior/corrective_retries.py:214-239 | a successful undo is for the session's last change, and restores exactly the presets before it, if and only if the entry was not dropped since |
| `CorrectiveRetries.UndoWithoutExpiry` | clozn/behavior/corrective_retries.py:214-239 | for a session that never expired: undo succeeds if and only if it is for the last change, the entry is alive and the transaction on record |
| `CorrectiveRetries.UndoFrame` | clozn/behavior/corrective_retries.py:214-239 | a refused undo changes nothing, a successful one only its own session |
| `CorrectiveRetries.UndoOnlyOnce` | clozn/behavior/corrective_retries.py:222-223 | no undo succeeds twice |
| `CorrectiveRetries.ExpiryDefeatsTheCheck` | clozn/behavior/corrective_retries.py:59-66 | the hypothesis is needed: activate, expire, activate again, and the first undo id passes |
| `CorrectiveRetries.Store.LoadStored` | clozn/behavior/corrective_retries.py:43-67 | loading drops expired entries and all but the last 200 transactions |
| `CorrectiveRetries.Store.ActivatePreset` | clozn/behavior/corrective_retries.py:158-185 | the in-place activate does the specified step |
| `CorrectiveRetries.Store.UndoTransaction` | clozn/behavior/corrective_retries.py:214-239 | the in-place undo does the specified step |
| `EarlyStop.MergeAblations` | clozn/receipts/deltas.py:44-64 | the loop computes the merged changes |
| `EarlyStop.MergedAblatesAll` | clozn/receipts/deltas.py:44-64 | the joint changes ablate what the influences ablate, and nothing else |
| `EarlyStop.KeyDecidesAblation` | clozn/receipts/deltas.py:14-41 | influences with the same key have the same ablation |
| `EarlyStop.AblatesExactly` | clozn/receipts/deltas.py:27-41 | what ablates an influence: its card, else its dial, else memory, else behavior |
| `EarlyStop.RunArm` | clozn/receipts/core.py:24-52 | the arm with its reassigned child |
| `EarlyStop.PrefixDecides` | clozn/receipts/core.py:33-37 | a stopped reply decides the verdict if and only if the baseline does not start with it |
| `EarlyStop.SameEffect` | clozn/receipts/core.py:24-52 | an early-stopped arm has the verdict of the whole reply |
| `EarlyStop.LeaveOneOut` | clozn/receipts/core.py:147-164 | the leave-one-out loop with its insertion-ordered dictionary |
| `EarlyStop.ReceiptsTell` | clozn/receipts/core.py:147-164 | one receipt for each influence whose arm was generated, in order, with its reply and whether that differs from the baseline |
| `EarlyStop.VerdictsAreTrue` | clozn/receipts/core.py:147-164 | with an engine that replays, in either mode, has_effect says whether the true ablated reply differs from the baseline |
| `EarlyStop.SkippedAreTheRest` | clozn/receipts/core.py:150-153 | every other influence is skipped |
| `EarlyStop.NoEffectExactly` | clozn/receipts/core.py:164-166 | the guard looks at exactly the keys whose last receipt shows the baseline |
| `EarlyStop.RedundantPairs` | clozn/receipts/core.py:166-181 | the nested loops of the redundancy guard |
| `EarlyStop.EarlyStopRefines` | clozn/receipts/core.py:109-190 | prove_all with early stopping gives the same verdicts, skips and redundant pairs as with whole replies |
| `EarlyStop.TruncationIsHonest` | clozn/receipts/deltas.py:100-111 | an untruncated receipt shows the whole reply, a truncated one a part that the baseline does not start with |
| `EarlyStop.ReportedExactly` | clozn/receipts/core.py:166-181 | two influences without effect are reported if and only if ablating both changes the answer |
| `EarlyStop.FailedFallbackMisleads` | clozn/receipts/core.py:46-51 | if the regeneration fails the verdict can be wrong |
| `EarlyStop.VerdictExactly` | clozn/receipts/core.py:24-52 | whatever fails, a verdict is right if and only if the fallback did not fail or the part and the whole reply both are the baseline or both are not |
| `EarlyStop.DeltasDiffer` | clozn/receipts/deltas.py:100-104 | the shown replies, so the deltas, are not preserved |
| `ExperimentSuite.RunManifest` | clozn/experiments/suite.py:410-446 | the loops with their exception handlers emit the cell of each coordinate in order |
| `ExperimentSuite.MatrixIsComplete` | clozn/experiments/suite.py:410-446 | whichever calls raise, every coordinate has exactly one cell |
| `ExperimentSuite.MatrixTells` | clozn/experiments/suite.py:410-446 | one cell for each coordinate: an error without evidence where a call raised, else what was generated |
| `ExperimentSuite.CellsValid` | clozn/experiments/suite.py:203-244 | validation accepts exactly the cell lists that are a bijection with the matrix and well formed |
| `ExperimentSuite.RunValidates` | clozn/experiments/suite.py:232-237 | a produced result passes these checks if and only if every generated run has an id and an allowed status |
| `ExperimentSuite.Compare` | clozn/experiments/suite.py:377-395 | the comparison loop of _summarize |
| `ExperimentSuite.PassesBalance` | clozn/experiments/suite.py:364-396 | candidate passes less baseline passes are gains less regressions, corrected by cells that only one side scored |
| `ExperimentSuite.GainsAndRegressions` | clozn/experiments/suite.py:364-396 | when all compared cells pass or fail, gains and regressions account for the change in each suite |
| `DialState.Gateway.Enter` | clozn/experiments/suite.py:307-323 | the dials have exactly the desired state at the yield, which is reached if and only if every dial is known and every request answered |
| `DialState.Gateway.Restore` | clozn/experiments/suite.py:324-329 | every dial whose request arrives gets its prior value, whether or not it is answered |
| `DialState.Gateway.Session` | clozn/experiments/suite.py:307-329 | whatever the body does to the dials: afterwards each dial of an axis has its value back unless its restoring request was lost, and the others are as the body left them |
| `SelectivePolicy.ChooseThreshold` | clozn/eval/policy.py:26-48 | the scan over the distinct scores, with the threshold as it is returned, rounded |
| `SelectivePolicy.CleanKeeps` | clozn/eval/calibration.py:27-41 | cleaning keeps exactly the judged pairs whose score is a probability, in order |
| `SelectivePolicy.CutAtScore` | clozn/eval/policy.py:36-37 | any real cut answers what the cut at some score answers |
| `SelectivePolicy.ChooseIsOptimal` | clozn/eval/policy.py:26-48 | below twenty thousand items the cut behind the returned threshold meets the target and has the largest coverage of any real cut that does |
| `SelectivePolicy.RoundingHidesACut` | clozn/eval/policy.py:41-43 | above twenty thousand items, for every size, a set on which a larger coverage is passed over since the compared coverage is rounded |
| `SelectivePolicy.LooserIsLower` | clozn/eval/policy.py:26-48 | below twenty thousand items, loosening the target never raises the cut, nor the threshold, when the tighter one is achievable |
| `SelectivePolicy.LooserCanBeHigher` | clozn/eval/policy.py:41-43 | above, for every size, a set and two targets for which it does |
| `SelectivePolicy.ReportedThresholdExactly` | clozn/eval/policy.py:42 | the returned threshold answers what its cut answers if and only if no score lies between the two |
| `SelectivePolicy.FourDecimalsKeepCuts` | clozn/eval/policy.py:42 | so it does for scores of at most four decimals |
| `SelectivePolicy.RiskCoverage` | clozn/eval/calibration.py:182-198 | the sorted sweep computes the points |
| `SelectivePolicy.SortedCounts` | clozn/eval/calibration.py:189 | sorting changes no count of a cut |
| `SelectivePolicy.ChoiceIsOnCurve` | clozn/eval/policy.py:26-45 | the choice is the highest-coverage point that ends a class of equal scores and meets the target |
| `SelectivePolicy.ApplyPolicy` | clozn/eval/policy.py:51-71 | items, wrong answers and right answers are conserved between what is emitted and withheld |
| `SelectivePolicy.Recommend` | clozn/eval/policy.py:155-165 | the two thresholds, rounded as they are compared and applied, and their summary |
| `SelectivePolicy.BandsExactly` | clozn/eval/policy.py:155-165 | the ask band exists if and only if the threshold for min(1, three times the target) is achievable and lower |
| `SelectivePolicy.RecommendedBands` | clozn/eval/policy.py:155-165 | if the thresholds answer what their cuts answer, the answered error meets the target, and the answered and asked error the looser one |
| `SelectivePolicy.FourDecimalsReportCuts` | clozn/eval/policy.py:155-165 | scores of at most four decimals are such a case |
| `SelectivePolicy.RoundedDownAnswersMore` | clozn/eval/policy.py:155-165 | it is needed: two scores for which recommend answers a wrong item and errs by half, above both targets |
| `SelectivePolicy.RoundedUpAnswersNothing` | clozn/eval/policy.py:42 | and a score for which the threshold reported as achievable answers nothing |
| `RuntimeSupervisor.PrunedIsEnough` | clozn/cli/runtime_process.py:113 | pruning loses nothing that a later check needs |
| `RuntimeSupervisor.WindowBound` | clozn/cli/runtime_process.py:112-119 | no closed interval as long as the window holds more attempts than the limit |
| `RuntimeSupervisor.RuntimeStack.RestartWorker` | clozn/cli/runtime_process.py:109-127 | it gives up if and only if as many attempts as the limit lie in the current window |
| `RuntimeSupervisor.RuntimeStack.Wait` | clozn/cli/runtime_process.py:129-139 | over any polls: which attempts were made and why watching ended |
| `RuntimeSupervisor.RuntimeStack.NeverTooMany` | clozn/cli/runtime_process.py:109-139 | the limit holds in every reachable state |
| `RuntimeSupervisor.ClockGoingBackMisleads` | clozn/cli/runtime_process.py:112-113 | a clock that goes back lets more attempts into a window |

## Left out

- Engine, HTTP, subprocesses and file locking: engine answers are functions, the lock is an abstract exclusive lock that a crash releases, a rename is one step.
- Rounding of reported numbers that nothing is computed with; the coverage and the thresholds of `choose_threshold` are rounded as in the code.
- Floating-point error, NaN and infinite scores.
- Coalition.PlanArms: the names come sorted; sorting them, batching and bootstrap intervals are not modelled.
- Slots.PartitionUnits: says how many groups there are; that they are contiguous and balanced is `PartitionIsBalanced`.
- TextRanges.SplitText: the sentence pattern is a function on positions with the same meaning; regular expressions as such are not modelled.
- ContextSpans.SegmentContext: span ids and the copied source fields are left out.
- SpanEdits.ReplaceSpans: the filler text is an argument and the control records are left out.
- InfluenceMap.BuildMap: the order of ids is an argument; links, summaries and timing are left out.
- InfluenceMap.JointArmExactly: which spans are replaced together and what that does to the text; the deltas of the joint arm are left out.
- MarkdownCards.ParseCards: error messages are not distinguished; characters are Unicode scalar values, so strings with lone surrogates are refused here; Python's recursion limit and the overflow of a whole number that no double can hold raise nothing else here than None.
- JsonText.LoadsFloat: how a double is written and read is an argument, with the law that reading gives back what was written.
- `parse_plain_cards`: easy line classification.
- FitPlanner.Reader.Value: Python's recursion limit on nested arrays is not modelled.
- JsonText.LoadsDecimal: Python's limit on the digits of a whole number is not modelled.
- FitPlanner.ParseGgufHeader: strings stay bytes, and the fields derived from the metadata (architecture, quantisation label) are left out; so is reading by URL.
- CardOps.RaisesExactly: the items of the store are objects; `int` and `float` of a text and `float` of a whole number are arguments of the operation.
- CardOps.PatchAssigns: a scope is normalised before the transaction and is an ordinary field here.
- CardProtocol.CallRaisesExactly: giving the lock back never fails.
- CardProtocol.CallsAreLinearizable: of a call that failed, or that found nothing after a read that failed, only its kind of reply is promised, not an effect.
- CardProtocol.FileIsSerial: the store starts missing or complete; a file that another program left damaged is not modelled, nor is `migrate_from_rules`, whose test for an empty store is outside the lock.
- Microscope.Pursue: target and atoms are already of unit length; skipping unusable atoms and sorting the terms are left out. Numpy's solver is only known to find a minimiser.
- CorrectiveRetries.Store.ActivatePreset: session scope only; profiles live in another store. Fresh transaction ids are a hypothesis on runs.
- EarlyStop.ProveAllRegen: notes, metrics and coalition reports are left out.
- ExperimentSuite.RunManifest: request parameters and messages are part of the generation function; a client factory that raises is not modelled.
- ExperimentSuite.CellsValid: digests and the stored summary are left out.
- DialState.Gateway.Session: with no dials asked for the context does nothing; that case is not modelled.
- `fit_temperature`, `ece`, `brier` and `aurc`: numeric fitting and averages.
