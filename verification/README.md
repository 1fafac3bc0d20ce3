# ConText-aware tokenizing and scoring, modelled in Dafny

This project models the core of the OHNLP Elasticsearch NLP plugin. The
plugin annotates clinical text with ConText information for every token:
negation, certainty, temporality and experiencer. It then uses that
information to weigh query matches. The model covers five pieces.

- **Priority merge and keyword fan-out** (`priority.dfy`). Dictionary hits
  of one priority tier become triggers. Several tiers are flattened into
  one trigger map. A trigger survives when no strictly higher tier holds a
  colliding span.
- **Propagation** (`context.dfy`, `propagation.dfy`). One sentence's
  triggers become a status per character. Pseudo spans are marked first,
  then terminal spans. Then every rightward and every leftward trigger tags
  its own span and scans until an exit test fires. Pure functions give the
  reference semantics. An array-based method that follows the source loops
  is proved to compute exactly the reference result.
- **Payloads** (`payload.dfy`, `assignor.dfy`). These cover the two-byte
  token payload, its encoder and its two decoders, the `isQueryTerm` test
  with the query builder's clause loop, and the token loop that turns the
  status at a token's first character into its payload.
- **Scoring** (`scoring.dfy`, `doc_scorer.dfy`). The weight function
  compares a query payload with an index payload and returns a
  multiplier. The document scorer averages the multipliers of a term's
  occurrences, drops the excluded ones from the frequency, and applies the
  negated-query rule. `score` and `explain` are both modelled.
- **Annotation index** (`annotation_index.dfy`, `annotation_leaf.dfy`,
  `annotation_node.dfy`). This is the interval index the priority merge
  uses. A leaf is a lazily sorted list. A node is a split tree that stores
  crossing spans on both sides and removes repeats from its answers. The
  main theorem: after any history of inserts, removes and queries, a tree
  answers every query (with qs <= qe) with the same spans as one flat leaf.

Some parts of the source are left to the caller or outside the model:

- The weights are a record of twelve reals.
- ConText support is a boolean parameter.
- The base similarity scorer is a function parameter.
- The index payloads of a term's occurrences are a sequence.

Floating point is modelled by `real`. Bytes are `bv8`.

Two properties of the code worth stating:

- **Round-tripping.** Decoding then re-encoding a byte pair does not give
  it back. Both decoders read only bits 0 to 3 of each byte, and `toBytes`
  writes only those bits. So `Encode(Decode(b)) == b` holds exactly when
  bits 4 to 7 of both bytes are clear (`Payload.EncodeDecode`,
  `Payload.HighBitsAreDropped`).
- **Temporal factor.** The weight function applies the temporal factor
  (light or heavy, match or mismatch), so the multiplier is the product of
  four factors. There are not three.

## Model

| member | source | states |
|---|---|---|
| Priority.FlattenMembers | src/main/java/org/ohnlp/elasticsearchnlp/analyzers/ConTexTAwareTokenizer.java:223-245 | for tiers whose spans the priority index accepts (with two or more tiers, every span has 0 <= start <= end, since the index's span constructor throws otherwise), a trigger ends up filed under a category exactly when some tier files it there and no trigger of a strictly higher tier, of any category, collides with it; same-tier triggers never suppress each other, and the single-tier case keeps every trigger |
| Priority.FlattenKeys | src/main/java/org/ohnlp/elasticsearchnlp/analyzers/ConTexTAwareTokenizer.java:223-245 | the flattened map has a category exactly when some tier has it, even when all of that category's triggers were suppressed (computeIfAbsent runs before any trigger is kept) |
| Priority.TopTierSurvives | src/main/java/org/ohnlp/elasticsearchnlp/analyzers/ConTexTAwareTokenizer.java:227-243 | the highest tier survives whole and in order: each of its lists is a prefix of the flattened list |
| Priority.MergeMembers | src/main/java/org/ohnlp/elasticsearchnlp/analyzers/ConTexTAwareTokenizer.java:230-243 | invariant of the pollLast loop: a trigger is in the result exactly when it was already kept, or it belongs to a remaining tier, collides with nothing indexed so far and with no remaining tier above its own |
| Priority.MergeExtends | src/main/java/org/ohnlp/elasticsearchnlp/analyzers/ConTexTAwareTokenizer.java:230-243 | the merge only appends: every list already kept is a prefix of its final list |
| Priority.Retain | src/main/java/org/ohnlp/elasticsearchnlp/analyzers/ConTexTAwareTokenizer.java:232-237 | the retained list holds every copy of each trigger of the tier's list whose span collides with nothing in the index, and no copy of any other trigger |
| Priority.RetainInOrder | src/main/java/org/ohnlp/elasticsearchnlp/analyzers/ConTexTAwareTokenizer.java:232-237 | the retained triggers are picked from the tier's list at strictly increasing positions, so they keep its order, which the later propagation loops depend on |
| Priority.BoundaryCollisionSuppresses | src/main/java/org/ohnlp/elasticsearchnlp/analyzers/ConTexTAwareTokenizer.java:227-243 | a lower-tier trigger over [0, 5) is dropped when a higher tier holds [5, 8), because the collision test counts a span starting at the query end |
| Priority.BoundaryCollisionOneWay | src/main/java/org/ohnlp/elasticsearchnlp/analyzers/ConTexTAwareTokenizer.java:227-243 | the converse fails: a lower-tier [5, 8) survives a higher-tier [0, 5), so the collision rule at a shared boundary is not symmetric |
| Priority.HitTriggers | src/main/java/org/ohnlp/elasticsearchnlp/analyzers/ConTexTAwareTokenizer.java:449-457 | a hit over [first, last] yields triggers over [first, last + 1): a single context-less one for a pseudo category, otherwise one per context type, in the dictionary's order |
| Priority.AddHit | src/main/java/org/ohnlp/elasticsearchnlp/analyzers/ConTexTAwareTokenizer.java:448-459 | adding a hit appends its triggers to each of its categories and creates a category only when it yields a trigger; no other list changes |
| Priority.FanOutMembers | src/main/java/org/ohnlp/elasticsearchnlp/analyzers/ConTexTAwareTokenizer.java:446-459 | the tier built from a list of hits holds under a category exactly the triggers some hit yields there |
| Priority.FanOutFits | src/main/java/org/ohnlp/elasticsearchnlp/analyzers/ConTexTAwareTokenizer.java:450-456 | hits inside a sentence yield non-empty in-range spans, and every non-pseudo trigger carries a context type |
| Propagation.AnnotateStatuses | src/main/java/org/ohnlp/elasticsearchnlp/analyzers/ConTexTAwareTokenizer.java:255-341 | the status array has one entry per character and equals the reference annotation; a character is pseudo exactly when a pseudo trigger covers it, and has the terminal flag of axis c exactly when a terminal trigger of context c covers it |
| Propagation.Transpose | src/main/java/org/ohnlp/elasticsearchnlp/analyzers/ConTexTAwareTokenizer.java:256-289 | the fresh sentence with every pseudo span marked, then every terminal span, equals the reference transposition |
| Propagation.PseudoAllExact | src/main/java/org/ohnlp/elasticsearchnlp/analyzers/ConTexTAwareTokenizer.java:261-265 | after the pseudo phase a character is pseudo exactly when it was or some pseudo trigger covers it, and nothing else about it changed |
| Propagation.TerminalAllExact | src/main/java/org/ohnlp/elasticsearchnlp/analyzers/ConTexTAwareTokenizer.java:267-289 | the terminal phase adds to a character exactly the axes of the terminal triggers covering it; values, pseudo and trigger flags are untouched |
| Propagation.Propagate | src/main/java/org/ohnlp/elasticsearchnlp/analyzers/ConTexTAwareTokenizer.java:291-339 | the trigger loop of one direction processes the triggers in list order, skips one whose first or last character is pseudo, and otherwise tags and scans; the result equals the reference |
| Propagation.ScanForward | src/main/java/org/ohnlp/elasticsearchnlp/analyzers/ConTexTAwareTokenizer.java:302-313 | the rightward loop, with its space counter, changes the array exactly as the step-by-step reference scan does |
| Propagation.ScanBackward | src/main/java/org/ohnlp/elasticsearchnlp/analyzers/ConTexTAwareTokenizer.java:327-338 | the leftward loop, with its space counter, changes the array exactly as the step-by-step reference scan does |
| Propagation.ScanRightShape | src/main/java/org/ohnlp/elasticsearchnlp/analyzers/ConTexTAwareTokenizer.java:304-313 | a rightward scan from i mutates exactly the characters from i up to, not including, the first one meeting the exit test; nothing else changes |
| Propagation.ScanLeftShape | src/main/java/org/ohnlp/elasticsearchnlp/analyzers/ConTexTAwareTokenizer.java:329-338 | a leftward scan from i mutates exactly the characters from i down to, not including, the first one to its left meeting the exit test; nothing else changes |
| Propagation.ForwardShape | src/main/java/org/ohnlp/elasticsearchnlp/analyzers/ConTexTAwareTokenizer.java:292-314 | a rightward trigger that is not skipped sets its axis's trigger flag on exactly its span and mutates the characters from its end up to the first exit character; every other character is unchanged |
| Propagation.BackwardShape | src/main/java/org/ohnlp/elasticsearchnlp/analyzers/ConTexTAwareTokenizer.java:317-339 | a leftward trigger that is not skipped sets its axis's trigger flag on exactly its span and mutates the characters from start - 1 down to the first exit character to its left; every other character is unchanged |
| Propagation.TerminalBlocksBothWays | src/main/java/org/ohnlp/elasticsearchnlp/analyzers/ConTexTAwareTokenizer.java:352-387 | a terminal of a trigger's axis stops its scan: neither a rightward trigger before it nor a leftward trigger after it changes the terminal character or anything beyond it |
| Propagation.AnnotationMarks | src/main/java/org/ohnlp/elasticsearchnlp/analyzers/ConTexTAwareTokenizer.java:255-341 | the directional phases never change pseudo or terminal flags, so in the finished sentence they are exactly the transposed spans |
| Propagation.ExitByAxis | src/main/java/org/ohnlp/elasticsearchnlp/analyzers/ConTexTAwareTokenizer.java:355-380 | a scan stops on its own axis's terminal or trigger flag; a POSSIBLE scan also stops on HYPOTHETICAL flags, and every HYPOTHETICAL stop is a POSSIBLE stop but not conversely |
| Propagation.WindowNeverExits | src/main/java/org/ohnlp/elasticsearchnlp/analyzers/ConTexTAwareTokenizer.java:354 | with the window bound at -1 the word window never ends a scan, whatever the space count |
| Propagation.Mutate | src/main/java/org/ohnlp/elasticsearchnlp/analyzers/ConTexTAwareTokenizer.java:389-406 | a scan step clears the value of its own axis only, except that HYPOTHETICAL clears assertedness and forces presence; pseudo, terminal and trigger flags are untouched |
| Propagation.MutateKeepsExit | src/main/java/org/ohnlp/elasticsearchnlp/analyzers/ConTexTAwareTokenizer.java:389-406 | a mutation never changes the outcome of any axis's exit test |
| PayloadAssignor.PayloadOf | src/main/java/org/ohnlp/elasticsearchnlp/analyzers/ConTexTAwareTokenizer.java:184-209 | the payload copies the four context values of the status, and each trigger bit is the OR of the terminal and trigger flags of its axis; the assertion bit listens to both POSSIBLE and HYPOTHETICAL |
| PayloadAssignor.TriggerBitsAreExits | src/main/java/org/ohnlp/elasticsearchnlp/analyzers/ConTexTAwareTokenizer.java:198-209 | each trigger bit is set exactly when a scan on that axis would stop at the character; the assertion bit is the POSSIBLE exit test |
| PayloadAssignor.QueryTermIffNoExit | src/main/java/org/ohnlp/elasticsearchnlp/payloads/NLPPayload.java:135-137 | a token is left out of query coordination exactly when a NEGATED, POSSIBLE or HISTORICAL scan would stop at its first character |
| PayloadAssignor.AssignPayloads | src/main/java/org/ohnlp/elasticsearchnlp/analyzers/ConTexTAwareTokenizer.java:183-211 | one pair per token, in order, holding the token and the payload of the status at its first character |
| PayloadAssignor.SentencePayloads | src/main/java/org/ohnlp/elasticsearchnlp/analyzers/ConTexTAwareTokenizer.java:161-211 | for a one-sentence document, each token's payload is that of the annotated status at its first character, and its negation bit is set exactly when a NEGATED terminal covers that character or a NEGATED trigger tagged it |
| Payload.Encode | src/main/java/org/ohnlp/elasticsearchnlp/payloads/NLPPayload.java:98-127 | a context-byte bit is set exactly when its value is false, a trigger-byte bit exactly when its flag is true, bits 4 to 7 are clear, and decoding gives the payload back for all 256 payloads |
| Payload.Decode | src/main/java/org/ohnlp/elasticsearchnlp/payloads/NLPPayload.java:82-93 | a context value is true exactly when its bit of byte 0 is clear, and a trigger flag exactly when its bit of byte 1 is set |
| Payload.DecodeRef | src/main/java/org/ohnlp/elasticsearchnlp/payloads/NLPPayload.java:64-80 | decoding at an offset, including the early return on a zero trigger byte, agrees with decoding the byte array from that offset |
| Payload.NewPayload | src/main/java/org/ohnlp/elasticsearchnlp/payloads/NLPPayload.java:60-62 | the default payload is positive, asserted, present, about the patient, with no trigger, and encodes to {0, 0} |
| Payload.EncodeDecode | src/main/java/org/ohnlp/elasticsearchnlp/payloads/NLPPayload.java:82-127 | re-encoding a decoded byte pair keeps only the low four bits of each byte, so it gives the pair back exactly when both high nibbles are zero |
| Payload.HighBitsAreDropped | src/main/java/org/ohnlp/elasticsearchnlp/payloads/NLPPayload.java:84-92 | the pair [0, 0x10] decodes to the default payload and does not re-encode to itself |
| Payload.Set | src/main/java/org/ohnlp/elasticsearchnlp/payloads/NLPPayload.java:144-206 | each setter writes its own field and leaves the other seven unchanged |
| Payload.QueryClauses | src/main/java/org/ohnlp/elasticsearchnlp/elasticsearch/NLPNaiveBooleanESQueryBuilder.java:148-154 | the clause loop adds one clause per occurrence of a term whose payload is a query term, and none for any other term: each term appears among the clauses exactly as often as in the input when it is a query term and not at all otherwise, the clauses keep the input order (strictly increasing positions), and on the wire the query terms are those whose trigger byte has bits 0 to 2 clear |
| Payload.QueryTermsCount | src/main/java/org/ohnlp/elasticsearchnlp/elasticsearch/NLPNaiveBooleanESQueryBuilder.java:148-154 | the loop's kept terms hold every occurrence of a query term and no occurrence of any other term |
| Payload.QueryTermsInOrder | src/main/java/org/ohnlp/elasticsearchnlp/elasticsearch/NLPNaiveBooleanESQueryBuilder.java:148-154 | the loop's kept terms are picked from the input at strictly increasing positions |
| Payload.QueryTermBits | src/main/java/org/ohnlp/elasticsearchnlp/payloads/NLPPayload.java:135-137 | isQueryTerm is false exactly when the negation, assertion or historical trigger bit is set; the experiencer bit plays no part |
| Scoring.Multiplier | src/main/java/org/ohnlp/elasticsearchnlp/scoring/NLPPayloadScoringWeightFunction.java:82-110 | with ConText support off the multiplier is 1; with it on, a zero negation mismatch weight excludes every occurrence of opposite polarity, and a zero subject mismatch weight every occurrence about another subject |
| Scoring.MultiplierIsProduct | src/main/java/org/ohnlp/elasticsearchnlp/scoring/NLPPayloadScoringWeightFunction.java:86-108 | with ConText support on, the multiplier is the product of four independently defined factors: per axis, the match weight when the payloads agree and the mismatch weight otherwise, the light variant when the query's own flag is true |
| Scoring.QueryChoosesLevel | src/main/java/org/ohnlp/elasticsearchnlp/scoring/NLPPayloadScoringWeightFunction.java:98-102 | the light/heavy choice follows the query, so swapping query and index payloads changes the multiplier when the temporal mismatch weights differ |
| Scoring.PositiveWeightsKeepEveryOccurrence | src/main/java/org/ohnlp/elasticsearchnlp/scoring/NLPPayloadScoringWeightFunction.java:82-110 | when all twelve weights are positive no occurrence is ever excluded |
| Scoring.SelfMatch | src/main/java/org/ohnlp/elasticsearchnlp/scoring/NLPPayloadScoringWeightFunction.java:86-108 | a payload compared with itself takes the match weight on every axis |
| Scoring.OnlyValuesMatter | src/main/java/org/ohnlp/elasticsearchnlp/scoring/NLPPayloadScoringWeightFunction.java:86-108 | the trigger flags take no part in scoring |
| Scoring.MultiplierOfRefs | src/main/java/org/ohnlp/elasticsearchnlp/scoring/NLPPayloadScoringWeightFunction.java:80-110 | on stored payloads, the multiplier is the one of the two payloads decoded from their offsets |
| Scoring.RefsReadContextNibble | src/main/java/org/ohnlp/elasticsearchnlp/scoring/NLPPayloadScoringWeightFunction.java:80-110 | the multiplier depends only on the low four bits of the two context bytes |
| Scoring.GenerateExplanation | src/main/java/org/ohnlp/elasticsearchnlp/scoring/NLPPayloadScoringWeightFunction.java:144-156 | the explanation is a match exactly when the multiplier is positive; it then carries the multiplier, otherwise the value 0 |
| DocScorer.Tally | src/main/java/org/ohnlp/elasticsearchnlp/lucene/similarity/NLPDocScorer.java:102-116 | counting down from the document frequency once per excluded occurrence leaves the number of accepted occurrences; the sum is that of the accepted multipliers; one detail per occurrence, in order |
| DocScorer.AcceptedPlusExcluded | src/main/java/org/ohnlp/elasticsearchnlp/lucene/similarity/NLPDocScorer.java:67-79 | every occurrence is either accepted or excluded |
| DocScorer.Aggregate | src/main/java/org/ohnlp/elasticsearchnlp/lucene/similarity/NLPDocScorer.java:64-86 | the count is 0 exactly when the query term is positive and nothing was accepted, the weight is 0 exactly when the count is, and both are never negative |
| DocScorer.Score | src/main/java/org/ohnlp/elasticsearchnlp/lucene/similarity/NLPDocScorer.java:60-92 | score computes the reference count and weight over the occurrences' multipliers and returns the base score of that count scaled by the weight |
| DocScorer.Explain | src/main/java/org/ohnlp/elasticsearchnlp/lucene/similarity/NLPDocScorer.java:94-138 | explain computes the same count and weight as score; it hands the corrected count to the base scorer when the incoming frequency matches (then its value equals the score); it puts the base explanation first, then one matching detail per occurrence |
| DocScorer.Report | src/main/java/org/ohnlp/elasticsearchnlp/lucene/similarity/NLPDocScorer.java:119-137 | the tail of explain: the frequency explanation is 1 for a negated absent term, the corrected count when the incoming frequency matches and a no-match otherwise; the base explanation goes first, then the details in order; the value is the base value scaled by the weight |
| DocScorer.DetailIsGenerated | src/main/java/org/ohnlp/elasticsearchnlp/lucene/similarity/NLPDocScorer.java:108-115 | the detail of an accepted occurrence is its generateExplanation; that of an excluded one is a match of value 1 |
| DocScorer.FreqExplanation | src/main/java/org/ohnlp/elasticsearchnlp/lucene/similarity/NLPDocScorer.java:120-129 | the frequency handed to the base scorer is a match of 1 for a negated term found nowhere, the corrected count when the incoming frequency matches, and a no-match otherwise |
| DocScorer.WeightIsMean | src/main/java/org/ohnlp/elasticsearchnlp/lucene/similarity/NLPDocScorer.java:74-82 | when something was accepted the weight is a mean: it lies between any bounds of the accepted multipliers |
| DocScorer.NegatedAbsentIsOne | src/main/java/org/ohnlp/elasticsearchnlp/lucene/similarity/NLPDocScorer.java:83-86 | a negated query term none of whose occurrences is accepted scores as one occurrence with weight 1 |
| DocScorer.PositiveAbsentIsZero | src/main/java/org/ohnlp/elasticsearchnlp/lucene/similarity/NLPDocScorer.java:64-88 | a positive query term none of whose occurrences is accepted gets count 0, weight 0 and score 0 |
| DocScorer.DisabledIsPlainFrequency | src/main/java/org/ohnlp/elasticsearchnlp/lucene/similarity/NLPDocScorer.java:64-88 | with ConText support off, a document where the term occurs gets its plain frequency and weight 1 |
| AnnotationIndex.SortSpans | src/main/java/org/ohnlp/elasticsearchnlp/perf/AnnotationLeaf.java:99-112 | the leaf's sort yields a permutation of the stored spans ordered by start, then end |
| AnnotationIndex.Select | src/main/java/org/ohnlp/elasticsearchnlp/perf/AnnotationLeaf.java:54-97 | the filter keeps every stored span that passes the query, with its multiplicity, and nothing else |
| AnnotationIndex.RemoveFirst | src/main/java/org/ohnlp/elasticsearchnlp/perf/AnnotationLeaf.java:49-52 | List.remove deletes one occurrence of the span, when there is one, and nothing else |
| AnnotationIndex.DedupFrom | src/main/java/org/ohnlp/elasticsearchnlp/perf/AnnotationNode.java:70-89 | the HashSet-guarded list building keeps exactly the spans not yet seen, without repeats, and keeps a sorted input sorted |
| AnnotationIndex.DedupAppend | src/main/java/org/ohnlp/elasticsearchnlp/perf/AnnotationNode.java:70-89 | deduplicating the left answer followed by the right answer is the left answer deduplicated, followed by the new spans of the right answer |
| AnnotationLeaf.Insert | src/main/java/org/ohnlp/elasticsearchnlp/perf/AnnotationLeaf.java:43-47 | insert adds one occurrence of the span and marks the leaf dirty |
| AnnotationLeaf.Remove | src/main/java/org/ohnlp/elasticsearchnlp/perf/AnnotationLeaf.java:49-52 | remove deletes one occurrence, keeps the dirty flag, and keeps a clean leaf sorted |
| AnnotationLeaf.Settle | src/main/java/org/ohnlp/elasticsearchnlp/perf/AnnotationLeaf.java:99-112 | a query leaves the leaf clean, with the same spans, and sorted when the leaf was valid |
| AnnotationLeaf.Query | src/main/java/org/ohnlp/elasticsearchnlp/perf/AnnotationLeaf.java:54-97 | getCovering, getCovered and getCollisions return every stored span passing their filter, with its multiplicity, sorted by (start, end); the collision filter includes a span starting at the query end |
| AnnotationLeaf.InsertThenFound | src/main/java/org/ohnlp/elasticsearchnlp/perf/AnnotationLeaf.java:43-97 | a span inserted into a leaf is found by every later query it matches |
| AnnotationLeaf.RemoveOnlyThat | src/main/java/org/ohnlp/elasticsearchnlp/perf/AnnotationLeaf.java:49-97 | after a remove every query loses exactly one occurrence of the removed span and nothing else |
| AnnotationNode.JavaHalf | src/main/java/org/ohnlp/elasticsearchnlp/perf/AnnotationNode.java:40 | Java's halving truncates toward zero: the floor of the half for a non-negative sum, and for a negative sum the value r with sum <= 2r <= sum + 1, so -3 halves to -1 and not to -2 |
| AnnotationNode.Build | src/main/java/org/ohnlp/elasticsearchnlp/perf/AnnotationNode.java:39-48 | for offsets whose sum fits a Java int, the constructor splits at the truncated midpoint, and both children are nodes exactly when the left half is wider than MIN_LEAF_SIZE (20) |
| AnnotationNode.RoutingCoversWellFormed | src/main/java/org/ohnlp/elasticsearchnlp/perf/AnnotationNode.java:50-58 | a well-formed span goes to at least one child, and a span crossing the split goes to both |
| AnnotationNode.InsertStores | src/main/java/org/ohnlp/elasticsearchnlp/perf/AnnotationNode.java:50-58 | an insert routed down the tree leaves it storing the old spans plus the new one |
| AnnotationNode.RemoveStores | src/main/java/org/ohnlp/elasticsearchnlp/perf/AnnotationNode.java:60-68 | a remove, with the same routing as insert, leaves the tree storing the old spans less one occurrence of the removed one |
| AnnotationNode.Query | src/main/java/org/ohnlp/elasticsearchnlp/perf/AnnotationNode.java:70-131 | a node's answer holds no span twice |
| AnnotationNode.QueryCorrect | src/main/java/org/ohnlp/elasticsearchnlp/perf/AnnotationNode.java:70-131 | a tree answers each query, with qs <= qe, with exactly the stored spans passing the leaf filter, sorted by (start, end) |
| AnnotationNode.TreeAgreesWithLeaf | src/main/java/org/ohnlp/elasticsearchnlp/perf/AnnotationNode.java:39-131 | after the same history of inserts, removes and queries, a tree built over any range and a single leaf give the same spans to every query with qs <= qe; the tree's answer has no repeats and is sorted |
| AnnotationNode.InsertVisible | src/main/java/org/ohnlp/elasticsearchnlp/perf/AnnotationIndex.java:40-45 | after insert the span is visible to every query (qs <= qe) whose filter it passes |
| AnnotationNode.RemoveInvisible | src/main/java/org/ohnlp/elasticsearchnlp/perf/AnnotationIndex.java:47-52 | after removing a span that was stored once, no query returns it |

## Left out

- Trigger detection is not modelled. This covers the regex battery, the
  per-priority rule settings and the keyword trie (ConTexTAwareTokenizer
  lines 446 and 461-606). The fan-out takes the trie's hits as a list and
  the dictionary as a map. The tiers reach the merge as input.
- Sentence and token detection are not modelled. They are external
  statistical models. Newline re-splitting, reading the input, and copying
  each sentence's statuses into the document array (lines 161-181) are
  also left out. `SentencePayloads` covers a document of one sentence, and
  tokens are given as character spans.
- The Tokenizer lifecycle (`reset`, `incrementToken`, attributes) is Lucene
  plumbing, and it is left out.
- `AnnotationRoot` is not part of this model, nor are `grow` and `clear`.
  The priority merge models its index as the set of inserted spans under
  the leaf's collision filter. `TreeAgreesWithLeaf` shows that a tree
  answers the same way for queries with qs <= qe. Under
  `Priority.Indexable` every span the merge inserts or queries has
  start <= end, so that is the only case the merge uses. `grow` only
  throws on a leaf or a node.
- The script engine, the Lucene query, weight, scorer and similarity
  classes, and the query builders' parsing are left out. Their only core
  logic is the `isQueryTerm` filter, which `Payload.QueryClauses` covers.
- Configuration loading, plugin registration and the busy-wait lazy
  initialisation of the weights are left out. This includes the lock in
  NLPPayloadScoringWeightFunction lines 63-78 and 113-136, which is
  concurrency. The weights are a parameter.
- Float and double rounding are not modelled; every weight, sum and mean
  is a `real`.
- The `IOException` path of `score` and `explain` is left out. It
  rethrows. The postings are a sequence of payloads given up front.
- The text of explanations (descriptions) is left out. Explanations keep
  only whether they match and their value.
- Malformed input is a precondition. The source throws on it instead of
  handling it:
  - a directional trigger whose `start` or `end - 1` lies outside the
    sentence, as the pseudo test reads both characters;
  - with two or more priority tiers, a trigger with a negative start or an
    end before its start, which the priority index's span constructor
    rejects (`Priority.Flatten` and the lemmas about it require
    `Indexable`);
  - a payload shorter than two bytes;
  - a token starting outside the text.

  Empty or reversed spans are otherwise accepted, because the source loops
  simply do nothing for them. An empty directional span [k, k) with
  0 < k < n passes the pseudo test, tags nothing and then scans.
- Propagation.AnnotateStatuses: every terminal and directional trigger is
  required to carry a context type (`WellFormedTriggers`), although the
  source reads it only when it tags or scans a character. A context-less
  terminal with an empty span, or a context-less directional trigger that
  the pseudo test skips or that has an empty span and nothing to scan, goes
  through the source unharmed but is outside the model. The trigger
  detection never produces such triggers (`Priority.FanOutFits`).
- AnnotationNode.Build: offsets are unbounded integers. Every span offset
  is taken to fit a Java `int`, and `start + end` in the node constructor
  is taken not to overflow. In Java a sum above 2^31 - 1 wraps to a
  negative split; the model returns the true half instead. The collision
  and routing comparisons rest on the same assumption.
- Offsets and lengths are taken to count UTF-16 code units, as Java's
  `String.length`, `toCharArray` and span offsets do. The text is a Dafny
  `string`, whose characters are Unicode scalar values, so a text with a
  character outside the Basic Multilingual Plane is taken to be given as
  its UTF-16 code units.
- `HashMap` iteration order is not modelled. Within one tier the merge
  files each category's list separately, and it adds the tier's spans to
  the index only after the whole tier. So the order in which categories
  are visited does not change the result. The order of a keyword's context
  types is the order of the dictionary's sequence.
- DocScorer.Explain: the base scorer's explanation is taken to carry the
  value of the base score for the frequency it explains. Its description
  and nested details are not modelled.
