# Verified model of the review pipeline

A Dafny model of the parts of the review bot in which correctness is not visible in one function body:
the publication protocol and its store, redundancy grouping, budget selection and the decisions that
are persisted, the diff parser and the iterative review engine behind it, the agent fan-out loop, the
webhook rate limiter, the priority queue, decayed feedback shares and the learned ranking. Each part is
modelled after the code, branch by branch, and the properties are stated for all inputs, all runs or
all interleavings.

`dafny verify dfyconfig.toml` checks everything.

## How the pieces fit

* **Publication.** `Records` holds the value-level effect of every store operation on a review and its
  findings. `Protocol` is a labelled transition system: any number of attempts, a clock, crashes before or
  after a POST takes effect, retryable and permanent refusals, other exceptions and takeover of stale
  claims. One step is one store call or one POST. `MemoryStore` (class `Store`) and `Publisher` (method
  `PublishReview`) are the imperative code; `PublishReview` returns a ghost trace, and replaying that trace
  in the protocol gives exactly the store it leaves behind. `ProtocolSafety`, `NothingLost` and `PostOnce`
  hold the theorems over whole runs. `SqlClaim` is the claim as a read followed by a conditional UPDATE.
* **From findings to decisions.** `Normalisation` drops invalid items and exact duplicates.
  `Similarity`, `IndependentSets`, `Grouping` and `GroupingCanonical` are the redundancy layer, `Selection`
  and `SelectionProperties` the budget controller. `Decisions`, `DecisionOutcome`, `EndToEnd`,
  `ReviewDecided` and `Orchestrator` follow the findings through the store: rows, groups, candidates,
  decisions, final statuses.
* **Iterative reviews.** `Text` is `splitlines`, `join` and `strip`. `DiffParser` reads hunks with the
  line-tracking loop, `DiffHeader` says which lines are headers and what they announce, `DiffRoundTrip`
  prints and re-parses hunks, `Iteration` cuts slices and plans a delta, `IterationProperties` connects patch
  text to what is carried forward.
* **Schedulers.** `FanOut` is the fan-out and retry loop and the task rows written after it.
  `RateLimiter` prunes, and is proved against a limiter that forgets nothing. `Decimal` and
  `PriorityQueue` are the sorted set with zero-padded members, `PriorityRace` interleaves the three Redis
  commands of a pop.
* **Feedback and learning.** `Decay`, `Memory` and `LearnedRanking`.
* `Common` and `Ordering` are the shared vocabulary (options, string order, stable sorting).

Assumptions, written as preconditions or parameter types: agent plan keys are distinct and an agent runner
answers for the agent it was asked to run; the monotonic clock does not go back; agent keys contain no `|`,
and review ids none where different reviews are compared; `uuid5` and SHA-256 are injective; `exp` is
positive, increasing and turns sums into products; `sqrt` is the square root. Floats are reals and the final
rounding is dropped. A store call that raises is taken to have changed nothing.

## Where the code and its documentation disagree

The model follows the code. These documented claims do not hold, and the members named say when they do.

* "Never double-post": while no live attempt outlasts the stale window, a review can be posted once more
  exactly as long as one of its findings is still scheduled and the payload names a place to post to
  (`CanPostAgainIff`). So it is posted at most once unless the answer to an accepted POST is lost or
  `mark_findings_published` fails (`PostedAtMostOnce`, `PostedTwiceReachable`); a failure of
  `mark_review_published` is harmless. A holder that outlasts the window posts a second time without any
  failure (`SlowHolderPostsTwice`), and two SQL workers can both take over one stale claim
  (`StaleClaimTakenTwice`).
* Permanent failures, and any refusal of the body-only POST, leave the review PUBLISHING; nothing marks it
  FAILED. It is recovered by takeover only (`NeverStuck`).
* Overlapping line ranges are not always close (`CloseAsDocumentedIff`, `DeepOverlapIsNotClose`).
* The selection result is not in rank order, gated items come first; it is exactly when no ungated decision
  outranks a gated one (`RankOrderIff`, `RankOrderBroken`).
* A finding on a changed line can be carried forward: hunks past the twelfth are not sliced (`KeptIff`,
  `PastTheLimit`, `ThirteenthHunkIsMissed`). A patch without a well-formed header has no slices at all, not
  even for a removed file (`UnparsedPatchIsKept`).
* Members of the priority queue are documented to order as they were inserted; that holds for all ordinals
  below a bound exactly up to 10^20 (`OrderedBelowIff`).

The documentation assumes a single dispatcher for the priority queue. With several, a pop can come back
empty-handed although a review is queued, exactly when the entry it had seen was taken in between
(`RemoveMissesIff`, `ReadFirstMissesIff`, `ReadTopMissesIff`, `PopMayMiss`). And `max_pairwise_similarity`
says less than its name: each member is compared with itself too, so it is 1 for every group with a vector
that is not null (`MaxSimilarityIsOne`).

## Model

| member | source | states |
|---|---|---|
| `Records.OperationsKeepLinks` | backend/app/orchestrator/persistence.py:554-581 | claim, release, transition and mark each keep the status history a chain: every event starts at the status the previous one ended in, and the last one ends in the current status |
| `Records.PayloadMember` | backend/app/orchestrator/persistence.py:808-843 | the publication payload holds a row if and only if the row is in the store, belongs to the review and is SCHEDULED |
| `Records.PayloadSorted` | backend/app/orchestrator/persistence.py:833 | a finding of greater utility comes first, a missing utility counts as 0, equal ones come by id, and each scheduled row is listed as often as the store has it |
| `ProtocolSafety.OneLiveHolder` | backend/app/publisher/service.py:136-153 | over every run of any number of attempts with ticks, crashes and failures, at most one live attempt holds the claim as long as no holder outlives the stale window; taking over a dead worker's claim never makes a second one |
| `ProtocolSafety.SlowHolderIsJoined` | backend/app/orchestrator/persistence.py:761-790 | the window assumption is needed: a holder that outlives it is joined by a second holder, from every initial state |
| `ProtocolSafety.PublishedAbsorbs` | backend/app/orchestrator/persistence.py:761-806 | once PUBLISHED, every protocol step keeps the review PUBLISHED, also late releases and marks of superseded attempts, and no step grants a claim |
| `ProtocolSafety.PublishedForever` | backend/app/publisher/service.py:230-251 | the same over every continuation of a run |
| `ProtocolSafety.PostsNeverExceedClaims` | backend/app/publisher/service.py:191-222 | in every reachable state each attempt has at most one accepted POST although it may call twice, only attempts that were granted a claim have one, and accepted POSTs never outnumber granted claims |
| `ProtocolSafety.HistoryStaysLinked` | backend/app/orchestrator/persistence.py:554-581 | in every reachable state of every interleaving the status history is a linked chain ending in the current status |
| `ProtocolSafety.NeverStuck` | backend/app/publisher/service.py:245-251 | in every reachable state, a new attempt after the stale window is granted the claim if and only if the review is not PUBLISHED |
| `NothingLost.SplitPartitions` | backend/app/publisher/service.py:172-182 | the inline comments and the body entries built from the payload are together exactly the payload, as multisets, and at most the capacity are inline |
| `NothingLost.SplitAtCapacity` | backend/app/publisher/service.py:172-182 | of the first `capacity` findings (counted from the back when negative) exactly those with a first line other than 0 or with a last line are inline; the body holds exactly the others and everything behind |
| `NothingLost.OverflowRanksLast` | backend/app/publisher/service.py:172-182 | every payload finding before the capacity cut is at least as useful as every overflowing one, and equally useful ones overflow by id |
| `NothingLost.InlineAreMostUseful` | backend/app/publisher/service.py:172-182 | no finding behind the first `capacity` ones has a greater utility than one sent inline |
| `NothingLost.PublishedMeansDelivered` | backend/app/publisher/service.py:191-230 | over every interleaving with crashes and takeovers: when the review is PUBLISHED, no row is still SCHEDULED; each row that was scheduled is in some accepted post and carries the comment id of its position there; other rows are untouched |
| `NothingLost.MarkedMeansPosted` | backend/app/orchestrator/persistence.py:845-856 | in every reachable state a row marked PUBLISHED was accepted by GitHub in some post |
| `NothingLost.RecordingDelivers` | backend/app/publisher/service.py:111-120 | recording a post on the normal, overflow or degraded path publishes exactly the scheduled rows; the i-th inline finding gets the i-th returned id, or none if fewer came back, and a body finding gets none |
| `NothingLost.PositionDecides` | backend/app/publisher/service.py:220-225 | the row at position p of the post ends up with the p-th update and no other one competes |
| `NothingLost.MarkAllSpec` | backend/app/orchestrator/persistence.py:845-856 | after marking, a row named by an update is PUBLISHED with the id of one of its updates and every other row is as before |
| `PostOnce.PostedAtMostOnce` | backend/app/publisher/service.py:123-251 | in every run without overlong holders in which no answer to an accepted POST is lost and marking the findings does not fail, the review is posted at most once, whatever else fails or crashes |
| `PostOnce.CanPostAgainIff` | backend/app/publisher/service.py:123-251 | after every run without overlong holders, some such continuation brings a further accepted POST if and only if a finding is still scheduled and the payload has an owner/repo name and a pull request number |
| `PostOnce.PostableIff` | backend/app/orchestrator/persistence.py:838-840 | there is a place to post to exactly if a pull request number is set and the repository row's name, or the record's own when the row has none, is owner/repo with both parts not empty |
| `Protocol.OwnerAndRepoIff` | backend/app/publisher/service.py:64-71 | a name is accepted if and only if it splits at its first slash into two parts that are not empty |
| `PostOnce.HandlerReleases` | backend/app/publisher/service.py:247-251 | when marking raises while the review is PUBLISHING, the handler gives the claim back although the post was accepted |
| `PostOnce.StoreFailureReposts` | backend/app/publisher/service.py:220-251 | when an attempt has posted and marking the findings raises, its handler's steps and a new attempt post every still scheduled finding again |
| `PostOnce.PostedTwiceReachable` | backend/app/publisher/service.py:220-251 | from every start with something to post, one failure while marking the findings leads to two accepted posts with the same findings |
| `PostOnce.SlowHolderPostsTwice` | backend/app/publisher/service.py:136-222 | from every start with something to post, a holder that outlasts the stale window and its successor both post the same findings, with no failure at all |
| `PostOnce.NewAttemptPosts` | backend/app/publisher/service.py:136-222 | a new attempt on a claimable review with findings, a pull request number and an owner/repo name is granted the claim and posts exactly the payload |
| `MemoryStore.Store.Transition` | backend/app/orchestrator/persistence.py:554-581 | the new store state, including the record created for an unknown review, the details that are given and the history entry |
| `MemoryStore.Store.ClaimReviewForPublication` | backend/app/orchestrator/persistence.py:761-790 | granted exactly for an existing review that is DECIDING, ITERATING or in a stale PUBLISHING; only then does the store change |
| `MemoryStore.Store.ReleaseReviewFromPublication` | backend/app/orchestrator/persistence.py:792-806 | only a PUBLISHING review goes back to DECIDING, everything else stays |
| `MemoryStore.Store.PublicationPayload` | backend/app/orchestrator/persistence.py:808-843 | nothing for an unknown review; otherwise exactly the rows of the review that are SCHEDULED, each as often as the store has it, greater utility first and equal ones by id |
| `MemoryStore.Store.MarkFindingsPublished` | backend/app/orchestrator/persistence.py:845-856 | the loops over updates and findings have the effect of the value-level marking |
| `MemoryStore.Store.MarkReviewPublished` | backend/app/orchestrator/persistence.py:858-873 | the review after marking, unknown reviews left alone |
| `MemoryStore.Store.CreateFindings` | backend/app/orchestrator/persistence.py:625-650 | one new candidate row per finding, behind the existing ones |
| `MemoryStore.Store.UpdateFindingDuplicates` | backend/app/orchestrator/persistence.py:684-693 | each update sets the group of the first row with its id and review |
| `MemoryStore.Store.ApplyDecision` | backend/app/orchestrator/persistence.py:718-742 | the decided finding is SCHEDULED or SUPPRESSED, and the rest of its group is suppressed |
| `Publisher.SplitFindings` | backend/app/publisher/service.py:172-182 | the two lists the loop builds are the inline and body parts of the payload |
| `Publisher.PostBodyOnly` | backend/app/publisher/service.py:254-284 | one more request with all findings in the body; a refusal becomes a publish error, retryable exactly when the refusal was |
| `Publisher.Submit` | backend/app/publisher/service.py:191-218 | the submission for every pair of GitHub answers, the requests sent, and a protocol run up to recording, releasing or giving up |
| `Publisher.PostAndRecord` | backend/app/publisher/service.py:191-251 | requests sent, result and store for every pair of GitHub answers; its ghost trace is a protocol run that ends in this store |
| `Publisher.PublishClaimed` | backend/app/publisher/service.py:154-251 | the same from the granted claim on, for an empty payload, a payload without a place to post to, and a posted one |
| `Publisher.PublishReview` | backend/app/publisher/service.py:123-251 | one whole attempt: what it returns, what it sends and what the store holds afterwards on each path, and a protocol run with the same outcome, so the theorems about runs apply to it |
| `SqlClaim.StepRefinesIff` | backend/app/orchestrator/persistence.py:1635-1680 | the read followed by the guarded UPDATE has the effect of the atomic claim if and only if it is not a takeover of a row that was refreshed after the read |
| `SqlClaim.LoneClaimIff` | backend/app/orchestrator/persistence.py:1635-1680 | a worker on its own wins if and only if the review is DECIDING, ITERATING, or PUBLISHING and last updated before the cut-off; it then is PUBLISHING with a new history entry, and otherwise as before |
| `SqlClaim.RunRefines` | backend/app/orchestrator/persistence.py:1635-1680 | every run whose UPDATEs are guarded by DECIDING or ITERATING maps to a run of the atomic claim with the same row and the same winners |
| `SqlClaim.AtMostOneWinner` | backend/app/orchestrator/persistence.py:1635-1680 | under any interleaving of reads and guarded updates at most one worker wins between two hand-backs, even if the status left and came back in between |
| `SqlClaim.StaleClaimTakenTwice` | backend/app/orchestrator/persistence.py:1652-1659 | from every stale PUBLISHING row, the run in which two workers read it and then update it lets both win |
| `Similarity.CosineSimilarity` | backend/app/consolidation/similarity.py:17-34 | the accumulation loop computes the cosine of the two vectors, 0 for unequal, empty or zero vectors |
| `Similarity.CosineSymmetric` | backend/app/consolidation/similarity.py:17-34 | the cosine is symmetric |
| `Similarity.CosineAtMostOne` | backend/app/consolidation/similarity.py:17-34 | with a true square root no cosine exceeds 1 (Cauchy-Schwarz) |
| `Similarity.LineRangesCloseSymmetric` | backend/app/consolidation/similarity.py:37-58 | the proximity test is symmetric, also with missing bounds |
| `Similarity.CloseAsDocumentedIff` | backend/app/consolidation/similarity.py:37-58 | for ordered ranges the test means "at most max_line_gap lines strictly between" if and only if one range ends at most max_line_gap + 1 lines after the other begins |
| `Similarity.DeepOverlapIsNotClose` | backend/app/consolidation/similarity.py:47-58 | [1,100] and [50,50] with gap 5 overlap and are not close |
| `Similarity.MissingBounds` | backend/app/consolidation/similarity.py:37-58 | a missing bound is read as the other one, and a finding without lines is close to every other |
| `Similarity.CategoriesAlignedSymmetric` | backend/app/consolidation/similarity.py:61-70 | category alignment is symmetric |
| `Similarity.CategoriesAlignedIff` | backend/app/consolidation/similarity.py:61-70 | two categories are aligned if and only if they are equal or one is the other followed by a slash and more |
| `IndependentSets.GreedyUnique` | backend/app/consolidation/redundancy.py:69-116 | first-come leaders are determined by the relation and the order alone |
| `IndependentSets.LeadersIndependentAndMaximal` | backend/app/consolidation/redundancy.py:69-116 | leaders are pairwise not close and everybody else is close to an earlier leader |
| `IndependentSets.FirstComeSetUnique` | backend/app/consolidation/redundancy.py:69-116 | the only set that takes an element exactly when no earlier member is close to it is the set of leaders |
| `IndependentSets.JoinsIff` | backend/app/consolidation/redundancy.py:81-92 | the inner loop's test on unassigned elements picks exactly the followers of the current leader; this uses symmetry |
| `Grouping.GroupableSymmetric` | backend/app/consolidation/redundancy.py:119-141 | groupability is symmetric in findings and vectors |
| `Grouping.ApplyGroups` | backend/app/consolidation/redundancy.py:50-116 | the nested loops over mutable lists yield the grouping of the first-come leaders: which finding gets which group id, and one row per group of two or more with representative, member count and greatest pairwise similarity; what this means for members and representatives is in the two rows on heads and representatives |
| `Grouping.MaxSimilarityIsGreatest` | backend/app/consolidation/redundancy.py:101-103 | the recorded maximum is attained by some pair of members, possibly one with itself, and exceeded by no pair |
| `Grouping.MaxSimilarityIsOne` | backend/app/consolidation/redundancy.py:101-103 | with a true square root the recorded maximum is 1 if some member's vector is not null, and 0 otherwise |
| `GroupingCanonical.HeadsAreIndependentAndDominate` | backend/app/consolidation/redundancy.py:69-116 | two findings that represent a group or are ungrouped fail one of the four duplicate tests; every other finding passes them with its own representative, which is more confident, or as confident and earlier by first line and id |
| `GroupingCanonical.RepresentativeIsMostConfident` | backend/app/consolidation/redundancy.py:69-80 | on the result: the representative has at least the confidence of every member, the least first line (-1 when missing) among equally confident ones, and then the least id; every other member has its path and passes the similarity, category and line tests with it |
| `GroupingCanonical.GroupsByRepresentative` | backend/app/consolidation/redundancy.py:69-112 | groups are returned by their representatives' confidence descending, then path, first line and id |
| `GroupingCanonical.InputOrderIsIrrelevant` | backend/app/consolidation/redundancy.py:69-80 | permuting the findings together with their vectors changes neither the groups nor any finding's group |
| `GroupingCanonical.GroupIdInjective` | backend/app/consolidation/redundancy.py:144-146 | within a review, equal group ids mean equal representatives |
| `GroupingCanonical.ReviewsShareNoGroup` | backend/app/consolidation/redundancy.py:144-146 | groups of different reviews have different ids when review ids contain no bar |
| `GroupingCanonical.GroupRowsDistinct` | backend/app/consolidation/redundancy.py:99-112 | the group rows of a review have pairwise distinct, non-empty ids |
| `Selection.RankSpec` | backend/app/adaptive/scoring.py:74-76 | ranking is a permutation sorted by utility descending, then id |
| `Selection.RankByUtility` | backend/app/adaptive/scoring.py:74-76 | a decision ranked earlier has a greater utility, or the same and not a greater id |
| `Selection.ApplyGates` | backend/app/adaptive/selection.py:78-97 | the first loop settles the gated decisions, each as its severity, confidence and redundancy demand, counts them by gate, and hands on the others in rank order |
| `Selection.FillBudget` | backend/app/adaptive/selection.py:99-109 | the second loop selects the first remaining slots and truncates the others |
| `Selection.SelectDecisions` | backend/app/adaptive/selection.py:52-121 | fails exactly on a negative cap or a threshold outside 0..1; otherwise decisions and all counters, and every decision that comes out obeys the gates |
| `Selection.GatesDecide` | backend/app/adaptive/selection.py:136-155 | severity of at least 1.0 comes out selected as critical; at least 0.8 with high confidence selected as protected; at most 0.2 with low confidence and high redundancy not selected; every other one without a gate; for every cap and thresholds |
| `SelectionProperties.GatesDecideInput` | backend/app/adaptive/selection.py:84-121 | each decision that goes in comes out with only its annotations changed, selected, not selected or ungated by the same conditions on its own features |
| `SelectionProperties.InputOrderIsIrrelevant` | backend/app/adaptive/selection.py:78-121 | permuting distinct decisions does not change the outcome |
| `SelectionProperties.CountsAddUp` | backend/app/adaptive/selection.py:78-121 | selected_count is the number of selected decisions and equals m + p + min(ungated, max(cap - m - p, 0)); selected, gate-suppressed and truncated decisions add up to the input |
| `SelectionProperties.EveryDecisionOnce` | backend/app/adaptive/selection.py:84-133 | the result is the input as a multiset, up to the three annotations |
| `SelectionProperties.PrefixIsBest` | backend/app/adaptive/selection.py:99-109 | exchange argument: no choice of k elements of a ranked list has a greater total utility than its first k |
| `SelectionProperties.UngatedChoiceIsBest` | backend/app/adaptive/selection.py:99-109 | the selected ungated decisions have the greatest total utility among all ungated choices of that size |
| `SelectionProperties.PassedOverIsNoBetter` | backend/app/adaptive/selection.py:99-109 | no ungated decision is left out for one of smaller utility, nor of the same utility and greater id |
| `SelectionProperties.RaisingTheCapKeepsSelections` | backend/app/adaptive/selection.py:78-121 | with a higher cap every decision that was selected still is |
| `SelectionProperties.OverBudgetOnlyByGate` | backend/app/adaptive/selection.py:78-121 | if more than cap decisions are selected, each of them was gated in as critical or protected |
| `SelectionProperties.RankOrderIff` | backend/app/adaptive/selection.py:43-121 | the result is in rank order if and only if no decision of the input without a gate outranks one with a gate |
| `SelectionProperties.RankOrderBroken` | backend/app/adaptive/selection.py:43-121 | two decisions, a critical one of utility 0 and a plain one of utility 1, come out of rank order for every cap and thresholds |
| `Decisions.ScoreCandidates` | backend/app/orchestrator/service.py:749-796 | one decision per group, about its representative and scored from its members, then one per ungrouped finding; fails exactly when a group has no member |
| `DecisionOutcome.ApplyAllPointwise` | backend/app/orchestrator/service.py:493-509 | applying a list of decisions works row by row: ids, reviews and groups stay and each row steps through all decisions on its own |
| `DecisionOutcome.OneDecision` | backend/app/orchestrator/persistence.py:718-742 | one decision gives its own row the utility and, when it says so, SCHEDULED or SUPPRESSED, then suppresses the rest of a named group, and changes nothing else; without a row for it nothing changes |
| `DecisionOutcome.UncontestedOrder` | backend/app/orchestrator/persistence.py:718-742 | a row reached by one own decision, or only by suppressions, comes out the same in whatever order decisions are applied |
| `DecisionOutcome.FinalStatus` | backend/app/orchestrator/persistence.py:718-742 | with decisions that cover a well-formed grouping, every finding ends SCHEDULED or SUPPRESSED, and SCHEDULED exactly by its own selected decision |
| `DecisionOutcome.ScheduledMemberIsRepresentative` | backend/app/orchestrator/persistence.py:734-740 | a scheduled member of a group is its representative |
| `EndToEnd.PersistedRows` | backend/app/orchestrator/service.py:865-880 | creating rows and then writing groups leaves one candidate row per finding with its path, lines and own group, and no utility yet |
| `EndToEnd.GroupDecisionSpec` | backend/app/orchestrator/service.py:749-779 | the decision of a group is about its recorded representative, with the features and utility scored for it, all members and the recorded member count |
| `EndToEnd.CandidatesCover` | backend/app/orchestrator/service.py:749-796 | the candidates have distinct findings and groups, each group is decided once through its representative and each single once |
| `EndToEnd.GroupingIsWellFormed` | backend/app/consolidation/redundancy.py:50-116 | whatever `apply_groups` returns is fit for the decision layer: group ids distinct, every grouped finding has its row, every representative is a member |
| `EndToEnd.SelectionDecidesAll` | backend/app/adaptive/selection.py:84-121 | no decision leaves selection undecided |
| `ReviewDecided.EveryFindingDecided` | backend/app/orchestrator/service.py:444-509 | from grouping to persisted decisions, in a store with any other rows: every finding of the review is SCHEDULED or SUPPRESSED, SCHEDULED exactly when its own decision was selected, and its row carries that decision's utility and otherwise what was persisted; older rows are as they were, and the whole store is the same in whatever order the decisions are applied |
| `ReviewDecided.ScheduledAsSelected` | backend/app/orchestrator/service.py:493-540 | in a store with any other rows and for any order of the decisions, the rows scheduled for publication grow by exactly the reported selected_count |
| `ReviewDecided.OnePerGroupIsScheduled` | backend/app/orchestrator/persistence.py:734-740 | only the representative of a redundancy group can be scheduled, so a group has at most one scheduled member |
| `Orchestrator.PersistFindings` | backend/app/orchestrator/service.py:865-880 | rows first, then groups: on an empty store it leaves exactly the persisted rows |
| `Orchestrator.DecideFindings` | backend/app/orchestrator/service.py:444-509 | fails exactly on a memberless group or bad arguments and then writes nothing; otherwise the store is the old one with the selected decisions applied and the count is selection's |
| `Normalisation.NormaliseFindings` | backend/app/consolidation/consolidate.py:45-118 | the rows written repeat the kept findings in input order; a valid input is dropped if and only if an earlier valid one of the same agent has the same path, lines, category and text; every dropped input is reported once as invalid or duplicate; kept plus dropped is the number consumed |
| `Normalisation.DuplicateIff` | backend/app/consolidation/consolidate.py:70-87 | a valid input is dropped if and only if an earlier valid one of the same agent agrees in path, lines, category and the joined title and description, whatever the severities and confidences |
| `Normalisation.DifferentTextsAreKept` | backend/app/consolidation/consolidate.py:176-193 | two findings that differ only in the title, or only in the description, are both kept |
| `Normalisation.FirstsAre` | backend/app/consolidation/consolidate.py:60-89 | the kept positions are exactly those that are valid and the first of their key, in increasing order |
| `Normalisation.KeptKeysDistinct` | backend/app/consolidation/consolidate.py:72-87 | kept keys are pairwise distinct |
| `Normalisation.SameIdSameKey` | backend/app/consolidation/redundancy.py:31-47 | two findings of one review with the same derived id have the same dedupe key, even if category or path contain the separator |
| `Normalisation.SameIdIff` | backend/app/consolidation/redundancy.py:31-47 | within a review two findings have the same id if and only if agent, path, lines, category, text and severity agree |
| `Normalisation.ReviewsShareNoId` | backend/app/consolidation/redundancy.py:31-47 | findings of different reviews have different ids when review ids contain no bar |
| `Normalisation.KeptAreFresh` | backend/app/consolidation/consolidate.py:45-118 | the kept findings have distinct ids, one review and no group: what grouping and the end-to-end theorems require |
| `Normalisation.NormaliseTwice` | backend/app/consolidation/consolidate.py:45-118 | running it again on what was kept keeps all of it in order and drops nothing |
| `Text.PiecesOfJoin` | backend/app/agents/diff_utils.py:58-63 | splitting undoes joining for lines without line boundaries |
| `Text.PiecesAfterBreak` | backend/app/agents/diff_utils.py:58-63 | a newline, a carriage return and the two together each end exactly one line |
| `Text.StripCore` | backend/app/agents/diff_utils.py:59-61 | stripping removes the blanks on both sides and nothing else |
| `DiffHeader.HeaderIff` | backend/app/agents/diff_utils.py:15 | a line is a hunk header with these four numbers if and only if it is written as `@@ -start[,count] +start[,count] @@` with digits, whatever follows; a missing count is 1 |
| `DiffHeader.WrittenHeaderReads` | backend/app/agents/diff_utils.py:15 | all four forms of a header, with decimal numbers and any tail, read back as the numbers written |
| `DiffHeader.HunksAnnounce` | backend/app/agents/diff_utils.py:34-100 | every hunk parsed from any patch text carries exactly the start and count numbers written in its header line |
| `DiffHeader.MarkerIff` | backend/app/agents/diff_utils.py:59 | a line opens a new segment if and only if it starts with two at signs after any blanks |
| `DiffHeader.OneHunkParsed` | backend/app/agents/diff_utils.py:34-100 | a header line followed by lines without markers is one hunk with the header's numbers, the body lines and the added numbers from the new start on |
| `DiffHeader.AddedLinesLocated` | backend/app/agents/diff_utils.py:85-97 | in every hunk of any patch, the j-th added number is the place of the j-th added line among the new-file lines, counted from the header's new start |
| `DiffParser.TrackLine` | backend/app/agents/diff_utils.py:82-97 | one line of an open hunk: body lines are kept, added lines numbered with the new-file position, which moves on added and context lines only |
| `DiffParser.ParseLines` | backend/app/agents/diff_utils.py:34-100 | the line-tracking loop returns the hunks of the marker-to-marker specification, whose headers, numbers and bodies the `DiffHeader` and `DiffRoundTrip` rows pin down |
| `DiffParser.ParsePatch` | backend/app/agents/diff_utils.py:34-100 | the same from patch text |
| `DiffRoundTrip.PrintThenParse` | backend/app/agents/diff_utils.py:117-131 | for arbitrary patch text, parsing the printed hunks of its parse gives the same hunks: header text, ranges, added numbers, bodies |
| `DiffRoundTrip.PrintOneThenParse` | backend/app/agents/diff_utils.py:117-131 | the text of each hunk reads back as that hunk on its own |
| `IterationProperties.SliceShowsHunk` | backend/app/agents/diff_utils.py:117-131 | the text of the i-th slice is the i-th hunk with at most the allowed number of body characters, and a patch of exactly that hunk when the body fits |
| `DiffRoundTrip.AddedNumbersFacts` | backend/app/agents/diff_utils.py:85-97 | added line numbers are strictly increasing, as many as the added lines, and within the new-file lines of the hunk |
| `DiffRoundTrip.AddedInRange` | backend/app/agents/diff_utils.py:63-97 | in a parsed hunk whose header announces at least its new-file lines the added ones lie in the header's range |
| `Iteration.ChangedFileSlices` | backend/app/agents/diff_utils.py:103-132 | the loop cuts one slice per hunk up to the limit, with window and truncated text; a file without patch gives one slice without a window |
| `Iteration.FileSlicesFromPatches` | backend/app/agents/diff_utils.py:161-177 | the slices of all files, file by file |
| `Iteration.IndexSlices` | backend/app/orchestrator/iteration.py:113-118 | the index has exactly the paths with slices, each with its slices in order, and the removed paths |
| `Iteration.PlanReviewDelta` | backend/app/orchestrator/iteration.py:98-191 | the loops compute the specified plan: one resolution per finding with id and path, the agents to target, the changed and removed paths |
| `Iteration.AgentsForCategories` | backend/app/orchestrator/iteration.py:221-237 | the targeted agents in registry order |
| `IterationProperties.OverlapsIff` | backend/app/orchestrator/iteration.py:208-218 | for ordered ranges and a gap of at least 0 the end-point test holds if and only if some finding line and some window line are at most the gap apart |
| `IterationProperties.KeptIff` | backend/app/orchestrator/iteration.py:122-218 | a finding is kept if and only if every slice of its file is not a removal, the finding has lines, and none of them comes near a numbered slice |
| `IterationProperties.ResolvedOrStaleIff` | backend/app/orchestrator/iteration.py:122-189 | a finding is resolved if and only if a slice removes its file, and stale if and only if no slice does and it has no lines while its file changed, or they come near a numbered slice |
| `IterationProperties.RemovalResolves` | backend/app/agents/diff_utils.py:135-158 | from the change list: a file with status removed or deleted whose patch is missing or has a hunk resolves all its findings |
| `IterationProperties.ChangeWithoutPatch` | backend/app/agents/diff_utils.py:112-143 | a change without patch text resolves the findings of a removed file; otherwise it keeps those with lines and makes the others stale |
| `IterationProperties.NoFalseCarryForward` | backend/app/orchestrator/iteration.py:98-191 | from patch text to disposition: a finding whose lines include a line added by one of the first twelve hunks is never kept, whatever else changes, if that hunk's header announces at least as many new-file lines as the body has |
| `IterationProperties.UnparsedPatchIsKept` | backend/app/agents/diff_utils.py:112-132 | a non-empty patch without a well-formed hunk header gives no slices, and its file's findings are kept whatever the status says |
| `IterationProperties.PastTheLimit` | backend/app/agents/diff_utils.py:117-131 | a finding near none of the first twelve hunks is kept whatever the later hunks add |
| `IterationProperties.ThirteenthHunkIsMissed` | backend/app/agents/diff_utils.py:117 | a patch of thirteen hunks with sufficient headers exists whose last one adds the finding's line, and the finding is kept |
| `IterationProperties.CountsPartition` | backend/app/orchestrator/iteration.py:70-80 | resolved, stale and keep counts add up to the resolutions |
| `IterationProperties.ResolutionsCover` | backend/app/orchestrator/iteration.py:122-189 | every finding with id and path has its resolution, and every resolution is of such a finding with the action of its disposition |
| `IterationProperties.TargetedIff` | backend/app/orchestrator/iteration.py:182-245 | an agent is targeted if and only if one of its categories owns the category of a finding to re-evaluate |
| `IterationProperties.OwnsIff` | backend/app/orchestrator/iteration.py:240-245 | a category of an agent, with or without a final slash, owns exactly itself and what lies below it |
| `FanOut.UnfinishedAgents` | backend/app/orchestrator/graph.py:65-68 | filtering the plan by existing results and failures gives exactly the agents that would still be waiting on their own |
| `FanOut.RunAgent` | backend/app/orchestrator/graph.py:77-124 | success, transient, permanent and timeout outcomes each go to their own list, with the attempt count |
| `FanOut.FanOut` | backend/app/orchestrator/graph.py:61-133 | a pass runs every waiting agent once in plan order and no finished one |
| `FanOut.Retry` | backend/app/orchestrator/graph.py:136-177 | the counts of the pending agents go up by one and no other; those that reach the bound fail; nothing stays pending |
| `FanOut.VerdictReached` | backend/app/orchestrator/graph.py:136-186 | alone, an agent is decided after at most max(1, max_retries) runs, and a failure reports the runs it took |
| `FanOut.VerdictExplained` | backend/app/orchestrator/graph.py:77-177 | an agent's verdict is what its last run came to: its findings, its error or a default one, a timeout, or exhaustion once the retries are used up; all runs before were transient failures |
| `FanOut.DecidedStays` | backend/app/orchestrator/graph.py:65-68 | once decided, an agent never runs again |
| `FanOut.OutcomesSplit` | backend/app/orchestrator/graph.py:77-124 | the agents of a pass are split into results, failures and pending without loss |
| `FanOut.RoundKeeps` | backend/app/orchestrator/graph.py:61-177 | every round keeps: entries are the agent's own verdict, results, failures and waiting agents partition the plan, and run and retry counts are those of the agent alone, so all waiting agents have the same count |
| `FanOut.RunGraph` | backend/app/orchestrator/graph.py:180-249 | the loop terminates for every runner; at the end each agent has the result or failure it would have alone, results and failures partition the plan, and COMPLETE holds if and only if no agent's verdict is a failure |
| `FanOut.EntriesUnique` | backend/app/orchestrator/graph.py:61-177 | no agent has two results or two failures |
| `FanOut.PersistTasks` | backend/app/orchestrator/service.py:248-284 | one task row per planned agent in plan order, SUCCESS exactly for an agent with a recorded result, with an error exactly for one with a recorded failure and then its cause, and with that agent's retry count; findings are collected in plan order whatever round produced them |
| `RateLimiter.MemoryRateLimiter.Allow` | backend/app/webhooks/ratelimit.py:36-50 | the answer is that of a limiter that keeps every approval; a call is recorded only when approved; afterwards the lists of the requested pairs are exactly their approvals in the live window |
| `RateLimiter.MemoryRateLimiter.Reset` | backend/app/webhooks/ratelimit.py:52-53 | all approvals are forgotten |
| `RateLimiter.Prune` | backend/app/webhooks/ratelimit.py:39-42 | popping old events from the front leaves exactly the live approvals |
| `RateLimiter.DecideIff` | backend/app/webhooks/ratelimit.py:43-46 | a call passes if and only if every pair is known and has room, and is refused if and only if a pair really has its cap in the window and all earlier ones have room |
| `RateLimiter.StepKeeps` | backend/app/webhooks/ratelimit.py:36-50 | one call keeps every pruned list equal to its full history but for approvals that are no longer live |
| `RateLimiter.NeverMoreThanCap` | backend/app/webhooks/ratelimit.py:36-50 | over any sequence of calls with non-decreasing times, approvals of one pair less than a window apart are at most its cap |
| `RateLimiter.EveryWindowHoldsAtMostCap` | backend/app/webhooks/ratelimit.py:36-50 | no half-open window of the configured length, wherever it starts, holds more than the cap |
| `RateLimiter.RepeatedPairOvershoots` | backend/app/webhooks/ratelimit.py:47-49 | naming one pair twice in a call records two approvals against a cap of one |
| `Decimal.FormatReads` | backend/app/queue/priority.py:33-37 | reading a zero-padded number gives it back, for every width |
| `Decimal.FormatOrders` | backend/app/queue/priority.py:33-37 | below the width, numbers order as text the way they order as numbers |
| `PriorityQueue.MemberRoundTrip` | backend/app/queue/priority.py:33-42 | ordinal and review id are recovered from every member |
| `PriorityQueue.MembersOrderAsOrdinals` | backend/app/queue/priority.py:33-37 | below 10^20, members order as their ordinals, whatever the review ids |
| `PriorityQueue.OrderBreaksAtTheWidth` | backend/app/queue/priority.py:33-37 | the member of ordinal 10^20 sorts before that of 10^20 - 1 |
| `PriorityQueue.OrderedBelowIff` | backend/app/queue/priority.py:33-37 | all members of ordinals below a bound order as their ordinals if and only if the bound is at most 10^20 |
| `PriorityQueue.ZAddSpec` | backend/app/queue/priority.py:66-67 | adding keeps the set sorted with one entry per member: the new entry replaces an old one of the same member, all others stay |
| `PriorityQueue.TopThenFirst` | backend/app/queue/priority.py:69-84 | reading the top and then the first of its score finds the entry with the highest score and the earliest member |
| `PriorityQueue.RedisPriorityStore.Enqueue` | backend/app/queue/priority.py:33-67 | fails exactly on a negative ordinal and then changes nothing; otherwise the entry is added, the set holds it, and only an entry of the same member is replaced |
| `PriorityQueue.RedisPriorityStore.PopHighest` | backend/app/queue/priority.py:69-92 | returns nothing exactly on an empty set; otherwise removes and returns the next entry, decoded |
| `PriorityQueue.PopAll` | backend/app/queue/priority.py:69-92 | popping until nothing comes back empties the store and returns, decoded, the entries in draining order |
| `PriorityQueue.DrainIsByScoreThenFifo` | backend/app/queue/priority.py:66-92 | for ordinals below 10^20, draining what was enqueued returns a permutation of it, sorted by score descending and then by ordinal |
| `PriorityRace.NothingLostOrDoubled` | backend/app/queue/priority.py:69-92 | under any interleaving of the three commands of any poppers with crashes and fresh enqueues, what was removed and what remains is what was enqueued, as multisets |
| `PriorityRace.TakenAtMostOnce` | backend/app/queue/priority.py:86-92 | no member is removed by two poppers or twice by one, and none that was removed is still queued |
| `PriorityRace.AlonePopsNext` | backend/app/queue/priority.py:69-92 | without interference the three commands remove the next entry |
| `PriorityRace.RemoveMissesIff` | backend/app/queue/priority.py:86-88 | in every reachable state the last command of a pop removes nothing if and only if the entry the popper saw was taken in between |
| `PriorityRace.ReadFirstMissesIff` | backend/app/queue/priority.py:80-84 | in every reachable state the middle command finds nothing if and only if every entry enqueued with the score it saw was taken |
| `PriorityRace.ReadTopMissesIff` | backend/app/queue/priority.py:75-77 | in every reachable state the first command finds nothing if and only if everything enqueued was taken |
| `PriorityRace.PopMayMiss` | backend/app/queue/priority.py:86-88 | two racing poppers, both reading before either removes: one returns nothing although another review is queued |
| `Decay.WeightedShare` | backend/app/adaptive/decay.py:25-46 | fails exactly if some event cannot be weighed, with a bad-parameter error if the first event's age is fine and a negative-age error otherwise; if not, the decayed share, 0 without evidence |
| `Decay.ShareBounded` | backend/app/adaptive/decay.py:37-46 | every share lies in [0,1] and is the positive weight over the total |
| `Decay.OlderWeighsLess` | backend/app/adaptive/decay.py:16-22 | with a positive rate, older evidence weighs strictly less |
| `Decay.WeightIsDecay` | backend/app/adaptive/decay.py:16-22 | fresh evidence weighs 1, and exp(lam * age / tau) undoes every weight |
| `Decay.YoungerPrevails` | backend/app/adaptive/decay.py:25-46 | of one positive and one negative event the share exceeds one half if and only if the positive one is younger |
| `Decay.SumsPermute` | backend/app/adaptive/decay.py:37-46 | the order of the evidence is irrelevant |
| `Decay.AgeingKeepsShare` | backend/app/adaptive/decay.py:16-46 | when all evidence ages by the same time its share does not move |
| `Memory.AggregateCategoryShares` | backend/app/adaptive/memory.py:52-94 | one entry per category with live evidence, its own or a direct child's, and its two shares; bad parameters fail exactly if there is a live event |
| `Memory.SharesBounded` | backend/app/adaptive/memory.py:67-94 | both shares of a category lie in [0,1] and their sum is at most 1 |
| `Memory.SharesIff` | backend/app/adaptive/memory.py:20-26 | the accepted share is positive if and only if a live accepted or fixed event of the category or of one directly below it exists, the rejected share likewise for rejected and dismissed ones |
| `Memory.EvidenceIff` | backend/app/adaptive/memory.py:70-82 | a category has evidence if and only if some event younger than the horizon is of it or of one directly below it |
| `Memory.DefaultHorizon` | backend/app/adaptive/memory.py:67 | without a given horizon, evidence is what is younger than three time constants |
| `Memory.CountsForIff` | backend/app/adaptive/memory.py:73-75 | an event counts for its own category and for the one obtained by dropping its last segment |
| `Memory.EventOrderIsIrrelevant` | backend/app/adaptive/memory.py:67-82 | permuting the events changes no share |
| `Memory.AgeingKeepsShares` | backend/app/adaptive/memory.py:67-94 | ageing all events alike changes no share while none crosses the horizon |
| `Memory.ParentShareBetween` | backend/app/adaptive/memory.py:73-82 | a category's share lies between the least and the greatest share of its own and of its direct children's events |
| `LearnedRanking.UtilityIsScoreWithoutBias` | backend/app/experiments/runner.py:246-265 | utility with the synthesised weights is the fitted linear score minus its bias |
| `LearnedRanking.BranchesAgree` | backend/app/adaptive/training.py:83-87 | both branches of the sigmoid compute the same function |
| `LearnedRanking.SigmoidIncreases` | backend/app/adaptive/training.py:83-93 | the sigmoid is strictly increasing |
| `LearnedRanking.RankRescored` | backend/app/adaptive/scoring.py:74-76 | a strictly increasing change of all scores changes no rank |
| `LearnedRanking.SameRanking` | backend/app/experiments/runner.py:220-265 | for every coefficient vector and candidate set, ranking by probability and by utility gives the same order |

## Left out

- Markdown bodies, comment texts, notes, severity tables, budget caps and other clamps: texts and lookups with easy properties only.
- HTTP, webhook signatures, Celery, LangGraph, Redis and SQLAlchemy plumbing, LLM providers: calls into code outside the repository; their answers are parameters.
- Commit-ambiguous database failures: a store call that raises is taken to have been rolled back.
- The SQL store apart from the claim: its other operations mirror the in-memory ones.
- Float rounding: scores, shares and utilities are reals, so ties that only `round` creates do not appear.
- Clocks, randomness and hashes: times are parameters; `uuid5`, SHA-256, `sqrt` and `exp` are functions of which only the properties named above are used.
- Pydantic validation of agent output: an item is valid or not, as a parameter.
- Candidate features and repository memory behind the utility: a scoring function is a parameter of `ScoreCandidates`.
- MemoryStore.Store.ApplyDecision: does not model the copies of features and weight version on the row, which nothing here reads.
- Orchestrator.PersistFindings: does not model the group rows and embeddings written between and after, which no later step here reads.
- Orchestrator.DecideFindings: does not model a store call that raises in the middle of the loop, which the source turns into an error text.
- Publisher.PublishReview: does not model store calls that raise; those are steps of `Protocol`, with their handlers.
- DiffParser.ParseLines: does not model digits outside ASCII, which the header pattern also accepts.
- DiffParser.ParsePatch: the same.
- FanOut.RunGraph: does not model notes, the retry history, agent statistics and a runner that answers under another agent's key.
- Iteration.PlanReviewDelta: the sorted order of the path lists and the reason texts are not modelled, and line numbers are already integers.
- Iteration.ChangedFileSlices: change statuses and digits are ASCII; other Unicode digits and case mappings are not modelled.
- RateLimiter.MemoryRateLimiter.Allow: the pairs are a list; a one-shot iterator, which the source would read only once, is not modelled.
- PriorityQueue.RedisPriorityStore.PopHighest: members not written by `enqueue` are not modelled, nor are infinite scores.
- Per-review budgets in the ablation runner, `fit_logistic`, LightGBM and metrics: grouping by review adds only easy members, and convergence does not follow from the code.
- The iteration rows, administration, feedback and reporting queries of the stores: single reads and writes.
