# Patent evidence: verified core

This project models the deterministic core of the patent evidence system and proves properties of it with
Dafny 4.11. `dafny verify dfyconfig.toml` checks everything.

| File | Subject |
|---|---|
| `ClaimTree.dfy`, `DependencyPaths.dfy` | claims, references, circular references; the exponential search for dependency paths with its limit |
| `ClaimCharts.dfy`, `ClaimTheorems.dfy` | the all-elements conclusion: memoised recursion with a cycle guard, its soundness and its exactness |
| `CircularReferences.dfy` | the claim sets on which the conclusion is exact, and sets with circular references on which it is not |
| `Trimming.dfy`, `EpClaims.dfy`, `UsClaims.dfy`, `UsLeadingNumber.dfy`, `ProductSplit.dfy` | parsers that cut claims and descriptions into spans without losing text |
| `Calendar.dfy`, `UsLegalStatus.dfy`, `EpLegalStatus.dfy`, `EpTheorems.dfy`, `OpsExtract.dfy` | legal status of patents, the fold over events, and extracts that keep the assessment |
| `Corpus.dfy` | the filing-date filter of the corpus and why what it drops has expired |
| `Priority.dfy`, `Gates.dfy` | priority dates, date classes, novelty and combination gates, the three-step scaffold |
| `Totp.dfy` | base32 and one-time codes |
| `FeatureSets.dfy` | tables, constraints and triggers that freeze a confirmed feature set |
| `DocumentBlocks.dfy` | paragraph blocks with running offsets |
| `Basics.dfy` | shared vocabulary |

Code that changes things step by step is a class or a method with loops, proved against a specification function;
the theorems are lemmas about those functions. Python exceptions and rejected rows are `None`. Regular expressions,
XML, DOCX, PDF and JSON decoding and the keyed hash are parameters: the proofs hold for whatever they return, and
where a parser needs something of them (a cut lies inside the text, a number parses), it is a named predicate such as
`WellBehaved`.

Where code and documentation differ, the model follows the code:

- `claim_conclusion` is described as exact. It is sound on every set. Whatever the features, it is exact for a claim if
  and only if the references above it lead neither round a circle nor to a missing claim
  (`ExactForAllFeaturesExactly`). `CircularReferencesCanHideAReading` is a set on which the cycle guard hides a
  reading, and on the same references raising a feature can lower a conclusion (`RaisingCanLowerOnCircle`).
- `dependency_paths` is described as truncated when the limit was reached. The flag is set only when there is one more
  path than the limit (`LimitedSearchIsPrefix`).
- The leading number of a US claim is described as dropped. It is dropped if and only if the text starts with it and
  its first character is text of the first clause itself (`NumberIsCutExactly`); ` 1. A device` and a number inside a
  nested clause keep theirs (`IndentedNumberIsKept`, `NestedNumberIsKept`).
- The EP extract is described as the kept fields of the kept events. When a kept field holds another "ops:legal" list,
  its items are listed again; the decision stays the same, extracting twice does not
  (`IdempotentExactlyWithoutNestedItems`, `NestedItemIsListedTwice`).
- The default reference date is described as the earliest valid one. Claims are looked up by id, so an invalid claim
  with the id of a valid one can move it (`DefaultIsEarliestValidExactly`, `InvalidNamesakeMovesDefault`).
- A reference to claim 0 raises no warning (`ClaimZeroIsKept`).

## Model

| member | source | states |
|---|---|---|
| `ClaimTree.FindIn` | modules/fto/model.py:57-61 | a claim is found exactly when its number occurs, and it carries that number |
| `ClaimTree.CircleFreeHasLevels` | modules/fto/model.py:84-85 | when following the references of a claim meets neither a circle nor a missing claim, the claims met can be levelled: each sits above all claims it refers to |
| `ClaimTree.LevelsRuleOutCircles` | modules/fto/model.py:84-85 | the converse: with levels no chain of references above a claim returns to its start or leads to a missing claim |
| `ClaimTree.LevelsMakeAcyclic` | modules/fto/model.py:84-85 | levels over all claims rule out circular references and references to missing claims in the whole set |
| `DependencyPaths.WalkSound` | modules/fto/model.py:80-94 | every chain the walk reaches is a dependency path of the claim it was started from, put in front of the suffix |
| `DependencyPaths.WalkComplete` | modules/fto/model.py:80-94 | every dependency path that avoids the suffix is reached |
| `DependencyPaths.AllPathsAreTheDependencyPaths` | modules/fto/model.py:69-97 | the full list holds exactly the cycle-free, root-first chains from an independent claim down to the claim |
| `DependencyPaths.WalkDistinct` | modules/fto/model.py:93-94 | no chain is listed twice when no claim repeats a reference |
| `DependencyPaths.PathSearch.Visit` | modules/fto/model.py:80-94 | the search with its list of paths, its limit and its flag does what collecting the full list up to the limit gives, failing lookups included |
| `DependencyPaths.FindDependencyPaths` | modules/fto/model.py:69-97 | the same for a whole call |
| `DependencyPaths.LimitedSearchIsPrefix` | modules/fto/model.py:88-97 | on any set and for every limit: the lookup error, or else the first limit chains of the full list, all of them when there are no more, and the flag set exactly when the list is longer than the limit |
| `DependencyPaths.CompleteSearchIsPrefix` | modules/fto/model.py:88-97 | without an error whenever every claim above exists, missing references elsewhere in the set notwithstanding |
| `DependencyPaths.LimitedSearchFailsExactly` | modules/fto/model.py:61 | the lookup error is raised exactly when the walk meets a missing claim before it has seen one path more than the limit |
| `DependencyPaths.CompleteNeverMisses` | modules/fto/model.py:86 | no lookup fails when every claim above exists |
| `DependencyPaths.CountPaths` | modules/fto/model.py:93-94 | number of chains below a claim when every claim refers to all earlier ones |
| `DependencyPaths.PrecedingClaimsDouble` | modules/fto/model.py:19 | when every claim refers to all earlier ones, claim n has 2^(n-2) chains, and the limit of 256 cuts the list off exactly from claim 11 on |
| `ClaimCharts.ConcludeFeatures` | modules/fto/chart.py:36-56 | the conclusion has the rank of the weakest feature, and the three lists name exactly the absent, the undetermined and the unconfirmed features, in order |
| `ClaimCharts.PathRankAtLeast` | modules/fto/chart.py:36-56 | a path reaches a rank exactly when each of its claims does on its own features |
| `ClaimCharts.BestOverAllPaths` | modules/fto/chart.py:59 | the best over all paths reaches a rank exactly when some dependency path consists of claims that all reach it |
| `ClaimCharts.CombineIsMinOfBest` | modules/fto/chart.py:84-95 | the case analysis for a dependent claim is the minimum of its own rank and its best parent rank |
| `ClaimCharts.ClaimChart.Assess` | modules/fto/model.py:120-124 | a finding is stored, and nothing else changes, exactly when its feature belongs to some claim |
| `ClaimCharts.ClaimConclusion` | modules/fto/chart.py:67-97 | the memoised recursion, its final memo and the claims it evaluates equal the evaluation function for any memo passed in |
| `ClaimCharts.ConcludeAll` | modules/fto/chart.py:83 | the same for the list of parents, the memo handed from one to the next |
| `ClaimTheorems.EvaluateSound` | modules/fto/chart.py:67-97 | soundness of the memo is kept by every evaluation on every set, with circular references and missing claims |
| `ClaimTheorems.ConclusionIsSound` | modules/fto/chart.py:67-97 | on every set: a reading of rank r has a dependency path whose claims all have own rank at least r; "does not read" means that every path has an absent feature; without any path a claim never reads |
| `ClaimTheorems.EvaluateExact` | modules/fto/chart.py:67-97 | with levels, exactness of all finished memo entries is kept while claims in progress are guarded |
| `ClaimTheorems.ConclusionIsExact` | modules/fto/chart.py:67-97 | when the references above a claim lead neither round a circle nor to a missing claim, the fast form equals the best, over all dependency paths, of the all-elements conclusion of the path |
| `CircularReferences.ExactForAllFeaturesExactly` | modules/fto/chart.py:67-97 | the condition is exact: the fast form of a claim is right for all features and findings if and only if its references lead neither round a circle nor to a missing claim |
| `ClaimTheorems.ConcludeClaim` | modules/fto/chart.py:100-104 | the report lists, for each path of the limited search, its conclusion and its absent, undetermined and unconfirmed features in order, together with the conclusion of the fast form |
| `ClaimTheorems.ReportIsExact` | modules/fto/chart.py:100-104 | the reported conclusion is the best over all paths even when the list shown is cut off after 256 of them |
| `ClaimTheorems.EvaluatedOnce` | modules/fto/chart.py:75-77 | each claim's own features are evaluated at most once per call, and never for claims already in the memo |
| `ClaimTheorems.RaisesExactlyOnMissingChain` | modules/fto/chart.py:78 | the lookup error is raised exactly when a chain of claims none of which is ruled out by its own features leads to a missing claim |
| `ClaimTheorems.DependentAtMostOwnAndBestParent` | modules/fto/chart.py:84-95 | a dependent claim never ranks above its own features nor above its best parent |
| `ClaimTheorems.DependentAtLeastOwnWithAnyParent` | modules/fto/chart.py:84-95 | and never below its own features together with any one parent |
| `ClaimTheorems.RaisingFeaturesNeverLowers` | modules/fto/chart.py:36-97 | raising findings or confirming features never lowers the conclusion of a claim whose references lead neither round a circle nor to a missing claim |
| `CircularReferences.RaisingCanLowerOnCircle` | modules/fto/chart.py:77 | a set with a circle on which raising one feature from absent to undetermined lowers another claim from literal to undetermined |
| `CircularReferences.CircularReferencesCanHideAReading` | modules/fto/chart.py:77 | a closed set with circular references on which the result is "undetermined" although one dependency path reads literally |
| `EpClaims.CollectMatch` | modules/fto/ep_claims.py:50-54 | one match adds exactly its listed numbers and the numbers of its ranges |
| `EpClaims.CollectReferences` | modules/fto/ep_claims.py:48-57 | the set named is the union over all matches and, for "preceding claims", all earlier numbers |
| `EpClaims.FindReferences` | modules/fto/ep_claims.py:47-64 | the references are strictly sorted, are exactly the numbers named other than the own one, and the warnings are exactly those due |
| `EpClaims.SplitSpans` | modules/fto/ep_claims.py:67-90 | for any set of breaks: tight spans that tile the body with only blanks between them; a fold bridges only a bare conjunction, and a conjunction stays bare only before another one or at the end |
| `EpClaims.SplitFeatures` | modules/fto/ep_claims.py:67-94 | features are numbered from 0 and show exactly the slice that their one span marks |
| `EpClaims.GroupParagraphs` | modules/fto/ep_claims.py:101-110 | every paragraph is either counted as an orphan before the first claim or in exactly one group, in order, and only the first of a group carries a number |
| `EpClaims.ParseClaim` | modules/fto/ep_claims.py:122-136 | the text is the joined paragraphs, the references are exactly those named in the body, the warnings are those due, and the features tile the body |
| `EpClaims.ParseEpClaims` | modules/fto/ep_claims.py:97-143 | fails exactly without paragraphs; otherwise every group gives one claim in order, and the consecutive-numbering flag is exact |
| `EpClaims.WarnsExactlyOfLater` | modules/fto/ep_claims.py:61-63 | the "later or own" warning is missing exactly when every reference is below the own number |
| `EpClaims.NoWarningMeansEarlier` | modules/fto/ep_claims.py:47-64 | a claim refers to earlier claims only exactly when it has no "later or own" warning and no reference to a claim 0 |
| `EpClaims.UnwarnedParseIsAcyclicExactly` | modules/fto/ep_claims.py:117-136 | with consecutive numbers and no such warning the set is closed and free of circular references if and only if no claim refers to a claim 0 |
| `EpClaims.UnwarnedParseConcludesExactly` | modules/fto/chart.py:67-97 | so every conclusion on such a claim set is exact |
| `EpClaims.ClaimZeroIsKept` | modules/fto/ep_claims.py:54 | a reference to claim 0 is kept without any warning |
| `Trimming.TrimIsUnique` | modules/fto/ep_claims.py:77-82 | trimming gives the one span without blanks at its ends that leaves only blanks out |
| `Trimming.TilesInOrder` | modules/fto/ep_claims.py:76-90 | the spans of a tiling are in order and do not overlap |
| `Trimming.EveryCharacterInOneSpan` | modules/fto/ep_claims.py:76-90 | every character that is not blank lies in exactly one span of a tiling |
| `UsClaims.Builder.AddText` | modules/fto/us_claims.py:30-37 | one piece of text extends the full text and, with a clause, its spans |
| `UsClaims.Builder.WalkNode` | modules/fto/us_claims.py:39-48 | the mutable builder follows the walk over the tree, a new clause for every nested claim text |
| `UsClaims.Builder.WalkInline` | modules/fto/us_claims.py:50-54 | inline markup stays in the clause around it |
| `UsClaims.WalkClaim` | modules/fto/us_claims.py:69-73 | after all top-level clauses the builder holds the text of the walk and, for every clause, its spans |
| `UsClaims.TopsKeepText` | modules/fto/us_claims.py:30-54 | the text is the in-order text of the tree |
| `UsClaims.ClausesSpellTheirOwnText` | modules/fto/us_claims.py:22-54 | the spans of clause k spell exactly the own text of the k-th claim-text element in document order, without the clauses nested in it |
| `UsClaims.SpansPartitionText` | modules/fto/us_claims.py:30-37 | every position of the text lies in the spans of exactly one clause |
| `UsClaims.SpansAscend` | modules/fto/us_claims.py:36-37 | the spans of a clause are in order and do not overlap |
| `UsClaims.ClauseSpansAreTight` | modules/fto/us_claims.py:85-99 | after trimming and cutting no span starts or ends with a blank |
| `UsClaims.ClauseSpansMeaning` | modules/fto/us_claims.py:85-99 | trimming and cutting lose no visible character but those of the leading number |
| `UsClaims.TrimClause` | modules/fto/us_claims.py:84-99 | the trimming loop and the number cut compute these spans |
| `UsClaims.EveryCharacterInOneFeature` | modules/fto/us_claims.py:83-110 | every visible character lies in exactly one feature span, except the removed leading number, which lies in none |
| `UsLeadingNumber.NumberIsCutExactly` | modules/fto/us_claims.py:92-99 | for every tree the number is cut off if and only if there is one, the text does not start with a blank, and its first character belongs to the first clause itself |
| `UsLeadingNumber.IndentedNumberIsKept` | modules/fto/us_claims.py:16-99 | " 1. A device" in one claim text keeps its number |
| `UsLeadingNumber.NestedNumberIsKept` | modules/fto/us_claims.py:39-99 | so does "1. A device" in a claim text whose first clause has no text of its own |
| `UsClaims.BuildFeatures` | modules/fto/us_claims.py:81-110 | features are numbered without gaps over the clauses that keep text, each with its joined slices |
| `UsClaims.ParseUsClaim` | modules/fto/us_claims.py:67-130 | one claim element from tree to features, with its references, strictly sorted and exactly those marked other than the own one, and with the warnings due |
| `UsClaims.CollectHints` | modules/fto/us_claims.py:111-116 | a hint for exactly the features longer than the limit, in order |
| `ProductSplit.CutPoints` | modules/fto/product.py:52-59 | the cut points are the sorted positions after every clause end and every English sentence end that is no abbreviation |
| `ProductSplit.SplitLine` | modules/fto/product.py:66-82 | a line adds candidates that are trimmed, hold a word, stay in the line and run over no cut |
| `ProductSplit.SplitDescription` | modules/fto/product.py:62-90 | the same over all lines, with ids P1, P2, ... and texts that are their slices |
| `ProductSplit.SpansFollow` | modules/fto/product.py:72-82 | candidate spans are in order and do not overlap |
| `ProductSplit.EveryWordInOneFeature` | modules/fto/product.py:62-90 | every word character outside the list markers lies in exactly one candidate |
| `Calendar.OrdinalOrders` | modules/legal_status/us.py:60-65 | day numbers order dates and identify them |
| `Calendar.AddDays` | modules/legal_status/us.py:125 | adding days moves the day number by as much, and fails exactly outside years 1 to 9999 |
| `Calendar.AddMonths` | modules/assessment/rules.py:113-124 | the day-lowering loop ends on the earlier of the day and the last day of the target month |
| `Calendar.MonthsAgreeWithYears` | modules/assessment/rules.py:113-124 | adding 12k months equals adding k years, for every date and every k |
| `Calendar.MonthsLaterIsMonotone` | modules/assessment/rules.py:113-124 | adding months keeps the order of dates |
| `Calendar.AddYearsIsMonotone` | modules/legal_status/us.py:60-65 | adding years keeps the order of dates |
| `Calendar.BeforeCutoffEndsBefore` | modules/corpus/query.py:32-34 | a date before the cutoff is still before the end after adding the years back, leap days included |
| `Calendar.FiveYearsAtLeast` | modules/corpus/query.py:26-28 | five calendar years are at least 1825 days |
| `UsLegalStatus.FindTermStart` | modules/legal_status/us.py:68-87 | the loop over parents computes the earliest candidate, the first one on a tie |
| `UsLegalStatus.CollectEvidence` | modules/legal_status/us.py:98-116 | evidence is the status entry, then the events kept, in order |
| `UsLegalStatus.AssessUs` | modules/legal_status/us.py:90-180 | the assessment computed from the loops over parents and events; it fails exactly when the expiry is no date |
| `UsLegalStatus.StatusExactly` | modules/legal_status/us.py:140-180 | when each status is given: lapsed, expired and presumed in force each have their exact condition, all other cases are undetermined |
| `UsLegalStatus.NotInForceAfterKnownExpiry` | modules/legal_status/us.py:175-180 | with a known adjustment a patent is never presumed in force after its computed expiry |
| `UsLegalStatus.ExtractKeepsAssessment` | modules/legal_status/serialize.py:37-51 | assessing the extract gives the same assessment in full: status, term, evidence and reasons |
| `UsLegalStatus.ExtractIsIdempotent` | modules/legal_status/serialize.py:37-51 | extracting twice is extracting once |
| `UsLegalStatus.MoreParentsNeverExtend` | modules/legal_status/us.py:68-87 | more parent applications never move the expiry date later |
| `EpLegalStatus.EventTables.Take` | modules/legal_status/ep.py:153-177 | one event changes the three tables as the step function says |
| `EpLegalStatus.CountryStatuses` | modules/legal_status/ep.py:149-189 | the statuses are those of the fold over all events |
| `EpLegalStatus.DesignatedAtGrant` | modules/legal_status/ep.py:135-146 | the states of the granted document in listed order |
| `EpTheorems.DesignatedDistinct` | modules/legal_status/ep.py:146 | each state once |
| `EpLegalStatus.AssessEp` | modules/legal_status/ep.py:192-262 | the assessment computed from the two loops over events; it fails exactly when the term is no date |
| `EpTheorems.FoldKeepsLatestLapse` | modules/legal_status/ep.py:171-177 | the lapse date is the latest date of a lapse in effect, and missing exactly when there is none |
| `EpTheorems.FoldKeepsLatestReinstatement` | modules/legal_status/ep.py:160-163 | the same for reinstatements |
| `EpTheorems.DeadMeansLapsedLast` | modules/legal_status/models.py:55-59 | a state is dead exactly when some dated lapse is later than every dated reinstatement |
| `EpTheorems.FoldKeepsLargestFeeYear` | modules/legal_status/ep.py:164-170 | the fee year kept for a state is the largest of its fee events in effect, and there is one exactly when there is such an event |
| `EpTheorems.StatusExactly` | modules/legal_status/ep.py:218-262 | when each of the four statuses is given, said of the events alone: lapsed exactly when nothing is unmapped or unitary, some state is designated, and every designated state has a lapse later than all its reinstatements |
| `EpTheorems.StatusDependsOnDecisiveSet` | modules/legal_status/ep.py:218-262 | status and term depend only on the set of decisive events |
| `EpTheorems.StatusIsOrderFree` | modules/legal_status/ep.py:149-262 | for every permutation of the events the status and all lapse and reinstatement dates are the same |
| `EpTheorems.InertLeavesDecision` | modules/legal_status/ep.py:149-262 | leaving out events that are neither designations, unitary, nor effective negative, fee or reinstatement events changes no status, term, country or reason |
| `EpTheorems.FutureEventsDoNotMatter` | modules/legal_status/ep.py:157-159 | nor does leaving out events that take effect after the analysis date |
| `EpTheorems.KnownEventsLeaveDecision` | modules/legal_status/ep.py:149-262 | nor does repeating events at the end |
| `OpsExtract.ItemCollector.Walk` | modules/legal_status/serialize.py:54-63 | the recursion appends exactly the items under "ops:legal" keys, outer items before inner ones |
| `OpsExtract.ParseInpadoc` | modules/legal_status/ep.py:87-132 | the events of all items in order; it fails exactly when an item is not an object |
| `OpsExtract.ReducedReadsSame` | modules/legal_status/serialize.py:34-70 | an item reduced to the kept members reads as the same event |
| `OpsExtract.KeptItemsReadAsKeptEvents` | modules/legal_status/serialize.py:66-76 | the kept items, read back, are the kept events |
| `OpsExtract.ItemsInsideItems` | modules/legal_status/serialize.py:54-63 | items inside items have been collected already |
| `OpsExtract.ExtractEvents` | modules/legal_status/serialize.py:66-76 | the extract reads back as the kept events followed by those nested inside kept items |
| `OpsExtract.ExtractKeepsDecision` | modules/legal_status/serialize.py:66-76 | for every payload the extract gives the same status, term, countries and review reasons |
| `OpsExtract.ExtractEvidenceIsSubsequence` | modules/legal_status/serialize.py:66-76 | the evidence from the extract is a subsequence of the evidence from the payload when no evidence is nested inside kept items |
| `OpsExtract.EvidenceIsSubsequenceExactly` | modules/legal_status/serialize.py:66-76 | when every event that is evidence is kept, exactly then |
| `OpsExtract.EvidenceOrderForAllReadersExactly` | modules/legal_status/serialize.py:54-76 | for items that all carry a code: the evidence keeps its order without repetition whatever the members say if and only if no item lies inside the kept members of another |
| `OpsExtract.IdempotentExactlyWithoutNestedItems` | modules/legal_status/serialize.py:66-76 | extracting twice is extracting once if and only if no item of the payload that is kept has, among its kept members, another item that is kept |
| `OpsExtract.NestedItemIsListedTwice` | modules/legal_status/serialize.py:54-76 | a designation event whose payload lines hold another one: its extract changes when extracted again and repeats evidence |
| `Corpus.YyyymmddKeepsOrder` | modules/corpus/query.py:50-51 | the integer form keeps the order of dates, both ways |
| `Corpus.DateOfInvertsYyyymmdd` | modules/corpus/query.py:104-112 | reading the integer back gives the date |
| `Corpus.YyyymmddInvertsDateOf` | modules/corpus/query.py:104-112 | every integer that reads as a date is the form of that date |
| `Corpus.WiderMarginCutsEarlier` | modules/corpus/query.py:32-34 | a wider margin never moves the cutoff later |
| `Corpus.ExcludedFiledBeforeCutoff` | modules/corpus/query.py:86-92 | a row left out by the date filter alone has a filing date before the cutoff |
| `Corpus.ExcludedEpIsExpired` | modules/corpus/query.py:86-92 | such an EP row is assessed as expired, whatever its events |
| `Corpus.ExcludedUsHasExpired` | modules/corpus/query.py:86-92 | such a US row has a computed expiry before the analysis date, whatever parents it has, for adjustments of 0 to 1825 days |
| `Corpus.ExcludedUsIsAssessedExpired` | modules/legal_status/us.py:140-179 | and is assessed as expired once granted, in force by status text and with known adjustment |
| `Corpus.UnknownFilingDateIsLeftOut` | modules/corpus/query.py:105-107 | an unknown filing date falls below every cutoff |
| `Priority.VerifyPriority` | modules/assessment/rules.py:127-205 | valid and invalid claims, flags, default date and dates per feature; it fails exactly when a deadline is no date |
| `Priority.FeatureDates` | modules/assessment/rules.py:187-189 | each feature's date is the earliest of the filing date and the dates of the valid claims that cover it |
| `Priority.DefaultIsEarliest` | modules/assessment/rules.py:180-189 | no feature has a date before the default date |
| `Priority.FeatureDatesIgnoreOrder` | modules/assessment/rules.py:142-189 | the dates do not depend on the order of the claims |
| `Priority.DefaultIsEarliestValidExactly` | modules/assessment/rules.py:180-186 | the default date is the earliest valid one exactly when no invalid claim that shares the id of a valid one is earlier |
| `Priority.InvalidNamesakeMovesDefault` | modules/assessment/rules.py:180-186 | an application on which a claim out of term sets the default date because it shares its id with a valid one |
| `Priority.DistinctIdsGiveEarliestValid` | modules/assessment/rules.py:180-186 | with distinct ids it always is |
| `Priority.ClassifyDocument` | modules/assessment/rules.py:318-335 | the class of a document is the most severe over its features |
| `Priority.EarlierReferenceIsMoreSevere` | modules/assessment/rules.py:287-315 | an earlier reference date never makes the class less severe |
| `Priority.DocumentClassIsAtEarliestDate` | modules/assessment/rules.py:318-335 | the class of a document is the class at the earliest of the reference dates of its features |
| `Gates.NoveltyFindings` | modules/assessment/rules.py:435-485 | the findings are exactly the documents that cover all features, with their level, in order of their ids |
| `Gates.BestJudgments` | modules/assessment/rules.py:510-515 | each cell holds the best judgment of its feature |
| `Gates.CoveredTogether` | modules/assessment/rules.py:509-516 | what a pair covers is the union of what its documents cover |
| `Gates.CombinationFindings` | modules/assessment/rules.py:488-530 | exactly the covering pairs of prior-art documents, each pair once and in order |
| `Gates.ThreeStepScaffold` | modules/assessment/rules.py:726-763 | the closest document is the least by score, and the distinguishing features are the others in order |
| `Gates.CountIsNumberOfFeatures` | modules/assessment/rules.py:748-757 | with unique cells the score counts the distinct identical features |
| `Gates.ScaffoldAgreesWithNovelty` | modules/assessment/rules.py:726-763 | no feature distinguishes exactly when some prior-art document triggers the high novelty gate |
| `Gates.CombinationCoversEverything` | modules/assessment/rules.py:508-517 | a pair is flagged exactly when the union of its covered features is every feature |
| `Gates.NoveltyDocumentCombinesWithAll` | modules/assessment/rules.py:488-530 | a document that triggers the novelty gate makes every pair with it a combination |
| `Totp.PendingGrows` | apps/web/src/utils/totp.ts:15-16 | one turn of the 32-bit accumulator: the bits lost at the top are never among the pending ones |
| `Totp.PushByte` | apps/web/src/utils/totp.ts:17-20 | a complete byte moves from the pending bits to the output |
| `Totp.Base32Decode` | apps/web/src/utils/totp.ts:6-23 | the output is exactly the whole bytes in the bits that the alphabet characters spell |
| `Totp.PaddingCarriesNothing` | apps/web/src/utils/totp.ts:8 | equals signs at the end carry no bits |
| `Totp.IndexIsAlphabetPosition` | apps/web/src/utils/totp.ts:13 | the index of a character is its position in the alphabet, or -1 exactly outside of it |
| `Totp.EncodingSpellsBits` | apps/web/src/utils/totp.ts:7-20 | the encoding of RFC 4648, section 6, spells the bits of the bytes and fewer than eight more |
| `Totp.DecodeInvertsEncode` | apps/web/src/utils/totp.ts:6-23 | decoding inverts that encoding for every byte string, in either case, with or without padding and with other characters in between |
| `Totp.DecodeOfEncode` | apps/web/src/utils/totp.ts:6-23 | in particular for the encoding as it stands |
| `Totp.CounterIsTimeStep` | apps/web/src/utils/totp.ts:27 | the counter is the number of whole 30-second steps |
| `Totp.WriteCounter` | apps/web/src/utils/totp.ts:28-33 | the loop fills the array with the big-endian bytes of the counter (RFC 4226, section 5.2) |
| `Totp.BigEndianReadsBack` | apps/web/src/utils/totp.ts:28-33 | read back, the bytes are the counter, modulo 2^64 |
| `Totp.TruncatedCode` | apps/web/src/utils/totp.ts:46-52 | truncation stays in bounds for every 20-byte MAC and gives the 31-bit number of RFC 4226, section 5.3, modulo 10^6 |
| `Totp.PaddedIsFixedWidth` | apps/web/src/utils/totp.ts:53 | padding gives exactly the fixed-width decimal form |
| `Totp.GenerateTotpCode` | apps/web/src/utils/totp.ts:25-57 | the whole code, empty when the keyed hash fails |
| `Totp.EncodedSecretGivesCodeOfKey` | apps/web/src/utils/totp.ts:35-53 | a secret that encodes a key gives the code of that key |
| `FeatureSets.Store.DenyFeaturesOfConfirmedSet` | apps/api/migrations/versions/0021_product_features.py:110-128 | the trigger raises exactly when the set a feature leaves or the set it enters is confirmed |
| `FeatureSets.Store.ChangeSet` | apps/api/migrations/versions/0021_product_features.py:49-109 | one row of the set table: trigger, checks, unique key and cascade |
| `FeatureSets.Store.ChangeFeature` | apps/api/migrations/versions/0021_product_features.py:71-133 | one row of the feature table, moves between sets included |
| `FeatureSets.Store.Execute` | apps/api/migrations/versions/0021_product_features.py:95-137 | a statement takes effect as a whole or not at all |
| `FeatureSets.RowKeepsConfirmed` | apps/api/migrations/versions/0021_product_features.py:95-133 | no change of a single row, cascades included, touches a confirmed set or its collection of features |
| `FeatureSets.ConfirmedNeverChanges` | apps/api/migrations/versions/0021_product_features.py:95-133 | over every run of statements a confirmed set keeps its row and its whole collection of features |
| `FeatureSets.ConfirmedSince` | apps/api/migrations/versions/0021_product_features.py:95-133 | whatever has been confirmed at one point of a run is the same at every later point |
| `FeatureSets.RunKeepsConsistency` | apps/api/migrations/versions/0021_product_features.py:29-91 | every run keeps the checks, the unique keys and the foreign keys |
| `FeatureSets.ConfirmedKeepsItsGround` | apps/api/migrations/versions/0021_product_features.py:40-61 | the description a confirmed set points into is never edited or lost, and its case, organization and parent stay |
| `FeatureSets.FeatureDeletionRefusedExactly` | apps/api/migrations/versions/0021_product_features.py:110-133 | deleting a feature is refused exactly when its set is confirmed |
| `FeatureSets.SetDeletionRefusedExactly` | apps/api/migrations/versions/0021_product_features.py:63-109 | deleting a set is refused exactly when it is confirmed or another set was derived from it |
| `FeatureSets.ConfirmationIsComplete` | apps/api/migrations/versions/0021_product_features.py:65-69 | in every reachable state a set is confirmed exactly when it says by whom and when |
| `DocumentBlocks.BlocksCoverTheText` | modules/cases/parser.py:92-107 | for every list of pieces: each block shows its slice of the text, neighbours are one newline apart, ids run p1, p2, ... without a gap, and the blocks reach from start to end |
| `DocumentBlocks.BlockList.Append` | modules/cases/parser.py:92-107 | one block updates the running offset, the number and the text |
| `DocumentBlocks.ParseText` | modules/cases/parser.py:206-234 | the blocks of plain text are its lines that are not blank |
| `DocumentBlocks.TextParseIsIdempotent` | modules/cases/parser.py:206-234 | parsing the parsed text again gives the same blocks |
| `DocumentBlocks.TextScannedMeansNoBlocks` | modules/cases/parser.py:233 | plain text counts as scanned exactly when it has no block |
| `DocumentBlocks.LinesOfJoined` | modules/cases/parser.py:207 | splitting at newlines inverts joining with them |
| `DocumentBlocks.GroupingKeepsEveryLine` | modules/cases/parser.py:155-178 | grouping keeps every line once and in order and closes a group exactly after an end mark |
| `DocumentBlocks.ParsePage` | modules/cases/parser.py:151-194 | no line is carried from one page into the next |
| `DocumentBlocks.ParsePdf` | modules/cases/parser.py:144-204 | ids and offsets run on from page to page, and each block stands under the page its lines come from |
| `DocumentBlocks.PdfKeepsEveryLine` | modules/cases/parser.py:151-194 | over all pages every line that is not blank is in exactly one group, in order |
| `DocumentBlocks.PdfBlocksShowGroups` | modules/cases/parser.py:160-173 | block i shows the lines of group i joined by blanks |
| `DocumentBlocks.ParseDocx` | modules/cases/parser.py:74-142 | ids and offsets run on from the paragraphs, each under its section, into the tables, which are numbered from one |
| `DocumentBlocks.SectionIsNearestHeading` | modules/cases/parser.py:87-90 | a paragraph stands under the nearest heading at or before it |
| `DocumentBlocks.NoHeadingMeansBody` | modules/cases/parser.py:79 | and under the body when there is none |
| `DocumentBlocks.DocxScannedMeansNoBlocks` | modules/cases/parser.py:141 | a DOCX document counts as scanned exactly when it has no block |

## Left out

- ExtractEvidenceIsSubsequence: one direction when evidence is dropped, because evidence that is listed twice can then coincide with dropped evidence; both directions are in `EvidenceIsSubsequenceExactly` and, for all readers at once, in `EvidenceOrderForAllReadersExactly`.
- ExcludedUsIsAssessedExpired: for patents with a grant date, the in-force status text and a known adjustment; the other branches are undetermined or lapsed by other evidence.
- Regular expressions as such: matches, cut positions, list markers and word characters are inputs. Digits and case mapping are ASCII only, so letters such as the long s, which JavaScript maps into the base32 alphabet, are not covered.
- XML, DOCX, PDF and JSON decoding, SHA-256 and HMAC: trees, paragraphs, pages, values and MAC bytes are inputs. Values that are not text enter through the `str` parameter of the readers.
- Wording of messages, warnings and reasons: kept as constructors or flags. The long-feature hints of the product splitter are not modelled.
- Language tags and other metadata of claims: easy members.
- Floating-point rounding of the timestamp division in the one-time code: divided exactly.
- Row-level security, grants and concurrency of the feature tables: statements run one after the other, by roles that may only insert descriptions; statements with several commands in one are not modelled, and neither are other columns and tables of organizations and cases.
- The order in which a database runs cascades and key checks: cascades follow the deleted row at once, foreign keys are checked when the statement ends.
- Sorting of sets in messages (missing features, unknown event codes, countries): these are sets or maps here.
- The four copies of the code that appends a document block: one method of one class stands for them.
- Everything around the core: search adapters, comparison heuristics, model clients, report rendering, approval workflow and the user interface.
