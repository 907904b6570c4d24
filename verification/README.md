# memra verification

A Dafny model of the core of memra, a local memory server for language-model agents, with proofs of what that core
promises. It covers eight source files: note activation and the result pipeline of search, the canonical reader, the
triple-approval governance of identity notes, the deduplicating and superseding write path, the streaming decoder,
the conversation normaliser, scoring, and cosine similarity. `dafny verify dfyconfig.toml` checks everything.

Code that changes state step by step is modelled that way: the search result vector, the hot store, the governance
service and the write orchestrator are classes whose methods update fields; the frontier search, the chunked reader,
the buffer loop, the pairing loops and the scorer are methods with loops. Each is proved equal to (or to satisfy) a
specification written as a function or predicate, and the laws are proved about that specification.

## How the modules fit together

- `Notes` is the `notes` table as a sequence of rows; `CanonicalReader` resolves a note to the live head of its
  lineage, in batches and alone; `ReaderLaws` says when the two agree and when resolving twice is resolving once.
- `ReaderAnswers`, `SearchAnswers`, `TailAnswers`, `GovernanceEffects`, `WriteEffects` and `ScoringLaws` say what each
  operation answers and writes in terms of the columns alone, beside the functions the methods are proved equal to.
- `ActivationGraph` gives the edges and the walks; `Activation` is the three-level frontier search;
  `SpreadActivation` ranks and appends; `ActivationLaws` shows the hypothesis on strengths to be the exact one.
- `Postprocess` specifies topic dedup and the category cap; `SearchTail` is the vector that all passes change in place,
  and `TailRun` the passes in sequence; `AppendedTopics` says when the finished list shows each topic once.
- `HotStore` is the database with one transaction; `Governance` and `WriteOrchestrator` are the services on it;
  `HotRuns`, `GovernanceRuns` and `LineageRuns` are theorems over runs of their operations; `LineageWitnesses` holds the
  concrete runs.
- `Sse`, `Convo`, `ConvoPairing`, `Scoring` and `Cosine` stand on their own; `Sorting`, `Text`, `Results` and
  `Common` are shared.

## The main results

- **Activation.** For every graph and limit, direct results stay as an unchanged prefix, every appended note carries a
  repeat-free walk that explains each of its fields, and the counters account for what was appended. When canonical
  resolution is idempotent, direct results are their own heads and no hop can raise a score (0.3 times strength at
  most 1), the appended score is the best over *all* walks of at most three hops, repeats included, and nothing better
  was left out. The strengths read from the relation table are not clamped; 0.3 times strength at most 1 is exactly
  the condition under which every answer of the search is optimal. The tail supplies the other two hypotheses, and a
  store filled without root overrides supplies the first.
- **Governance.** After any interleaving of operations, the stored approvals of a change are the leading part of the
  greedy selection of attempts with distinct principals and distinct labels, and it is applied exactly when that
  selection is long enough; until a change can be applied at all, it stops one short. An identity row appears only
  through one applied change with that content and enough distinct principals, under the id generated or targeted, and
  every step that ends in an error leaves the store alone.
- **Lineage.** Over any interleaving of adds, checkpoints, proposals and approvals, no state orphans a superseded note
  exactly when every saved add covers the keys of the rows it retires, which adds without topic override and
  contradiction always do; when the reader of a superseded note misses is characterised over any run.
- **Streaming.** However a text is chunked, `complete_streaming` gives the verdict of one fold over its lines.
- **Conversations.** Both pairing loops implement one function, which conserves user turns; the parent walk is total.
- **Ranking.** Exact survivors of both dedup passes and of the category cap; bounded and monotone scores; the cosine
  bound.

## Where the code falls short of what is expected of it

Each is proved with the exact condition.

- A batch read and a single read differ for a seed with a whitespace-only root or topic next to a present one: the
  single lookup turns blank into absent before it decides whether to consult the row, the batch does not
  (`ReaderLaws.BatchAgreesExactly`).
- Resolving twice can move on to another note when two live heads share a root id (`ReaderLaws.IdempotentExactly`); the
  search then leaves out notes it could reach (`ActivationLaws.ShadowedSearchIsNotOptimal`).
- A topic key is cut at 100 bytes and may end in a space; the reader trims keys before looking them up, so a
  superseded note under such a key is answered with a miss unless another head carries the trimmed key
  (`LineageRuns.MissesExactly` over runs, `LineageWitnesses.LostExactly` for the witnesses).
- Relation strengths are not clamped where they are read; above 10/3 the search returns a worse score than the best
  walk gives (`ActivationLaws.DampingBoundIsTight`, `ActivationLaws.UndampedSearchIsNotOptimal`).
- Being found by text as well can lower a score: under a query with a vector, a candidate that gains a text rank moves to
  a row of the weight table that takes weight from its tokens, and on most rows from its vector. When that lowers the
  score is `Scoring.RankLowersExactly`, for plain candidates an inequality between the two rows
  (`Scoring.PlainGainLowersExactly`); for example the query "quiet harbour" against a fact that mentions a harbour late
  (`Scoring.HalfMatchDrops`).
- A topic override or a contradiction across layers can retire the last head of a key and orphan its superseded notes:
  exactly when the retired key is neither taken over nor carried by another live head (`LineageRuns.AddKeepsExactly`,
  `LineageRuns.NeverOrphansExactly`; inputs in `LineageWitnesses.OverrideOrphansExactly` and
  `LineageWitnesses.ContradictionOrphans`).
- An assistant text with a carriage return before a line feed does not survive printing and normalising
  (`Convo.RoundTripExactly`).
- Updating an identity row that an earlier change had deleted makes it active again but leaves its state deprecated, so
  it is no live head (`GovernanceEffects.UpdatedIsLiveExactly`).
- The similarity from which a topic key is inherited from a close match, 0.78, never decides: from 0.70 on the close
  match is superseded and its key inherited anyway (`WriteEffects.TopicExactly`).
- For an empty query every row scores 1, superseded ones too; and a legacy `superseded_by` marker demotes the active
  twin as well (`Scoring.SupersededAtMostFivePercent`).

## Model

| member | source | states |
|---|---|---|
| `CanonicalReader.NewestHeadIsNewest` | memra-core/src/retrieval/canonical_reader.rs:210-251 | A lineage value resolves to a note iff it has a live head, and then to the newest one, ties going to the smallest id |
| `CanonicalReader.NewestHeadUnique` | memra-core/src/retrieval/canonical_reader.rs:210-251 | That head is the only note meeting the description |
| `CanonicalReader.FirstRowIsHead` | memra-core/src/retrieval/canonical_reader.rs:224-248 | Keeping the first row per value of the ordered query picks the head |
| `CanonicalReader.HydrateHeadsByField` | memra-core/src/retrieval/canonical_reader.rs:210-251 | The answer map holds exactly the values with a live head, each with its newest head, for every chunk size |
| `CanonicalReader.HydrateSeedLineage` | memra-core/src/retrieval/canonical_reader.rs:175-208 | The map holds exactly the stored ids asked for, with their normalised root and topic, for every chunk size |
| `CanonicalReader.HydrateHeads` | memra-core/src/retrieval/canonical_reader.rs:82-164 | Every seed id is answered, for its last seed, root route before topic route before miss, whatever the chunk size; no other ids appear |
| `CanonicalReader.HydrateHead` | memra-core/src/retrieval/canonical_reader.rs:58-80 | The single lookup is a batch of one normalised seed |
| `ReaderAnswers.HeadExactly` | memra-core/src/retrieval/canonical_reader.rs:210-251 | Column by column: a value has a head iff some row with it is head, active and in no or the active state, and then the one created last, under the smallest id |
| `ReaderAnswers.BatchReadExactly` | memra-core/src/retrieval/canonical_reader.rs:82-164 | Column by column: which row a batch consults for a seed, which trimmed root and topic it then reads under, and root route before topic route before miss |
| `ReaderAnswers.RowReadExactly` | memra-core/src/retrieval/canonical_reader.rs:95-161 | The same for the lineage of a stored row |
| `ReaderLaws.BatchAgreesExactly` | memra-core/src/retrieval/canonical_reader.rs:58-164 | A seed gets its one-seed answer in every table and batch iff it triggers its own row lookup or cannot profit from one |
| `ReaderLaws.SelfContainedAgrees` | memra-core/src/retrieval/canonical_reader.rs:58-164 | Such a seed is unaffected by the other seeds of its batch |
| `ReaderLaws.NotSelfContainedDisagrees` | memra-core/src/retrieval/canonical_reader.rs:82-134 | Every other seed has a table and a batch in which the two answers differ |
| `ReaderLaws.RowSeedRead` | memra-core/src/retrieval/search.rs:2646-2666 | A seed built from a stored row is answered by that row's lineage in any company |
| `ReaderLaws.IdempotentExactly` | memra-core/src/retrieval/canonical_reader.rs:95-161 | Resolving a resolved head returns it, for every row, iff no head found by topic is shadowed by a newer head of its own root |
| `ReaderLaws.UniqueHeadsAreIdempotent` | memra-core/src/retrieval/canonical_reader.rs:95-161 | At most one live head per root id makes resolution idempotent on both routes |
| `ReaderLaws.ResolveStaysInTable` | memra-core/src/retrieval/canonical_reader.rs:139-161 | What a stored row resolves to is a stored row |
| `ReaderLaws.SharedRootBreaksIdempotence` | memra-core/src/retrieval/canonical_reader.rs:95-161 | A concrete table with two live heads under one root on which resolving twice moves on |
| `ActivationGraph.JoinRelationsExactly` | memra-core/src/retrieval/search.rs:2668-2739 | A note is a neighbour iff some relation of a known type, stronger than the threshold, links the source to it and it is stored |
| `ActivationGraph.JoinDreamsExactly` | memra-core/src/retrieval/search.rs:2741-2847 | A note is a dream neighbour iff it is stored and some promoted candidate above the threshold, with its confidence clamped, links a source it was promoted to with one of its other evidence notes, or an evidence source with what it was promoted to |
| `SearchAnswers.NeighborsExactly` | memra-core/src/retrieval/search.rs:830-842 | The neighbours of a note are the stored notes linked to it by a relation of the four types over 0.4, in either direction, or by a dream promoted from one of the two to the other |
| `SearchAnswers.AdmitsExactly` | memra-core/src/retrieval/search.rs:2867-2938 | A note is admissible iff it is not direct, its topic is unseen, its source is trusted and it passes every filter, one by one |
| `ActivationGraph.PathAfterRootIsAdmitted` | memra-core/src/retrieval/search.rs:844-889 | A walk starts at a direct result and visits no other |
| `ActivationGraph.WalkOwnsHeads` | memra-core/src/retrieval/search.rs:844-862 | Under the exactness hypotheses every note on a walk is its own head |
| `ActivationGraph.HeadIsOwn` | memra-core/src/retrieval/search.rs:844-862 | With idempotent resolution, a head resolves to itself |
| `Activation.HydrateNeighbors` | memra-core/src/retrieval/search.rs:2646-2666 | Every neighbour is answered with its own lineage's read, repeats and all |
| `Activation.RelaxNeighbor` | memra-core/src/retrieval/search.rs:844-965 | The body of the neighbour loop: exactly when all guards pass, the score, the activated result and the new frontier seed are recorded; otherwise nothing changes |
| `Activation.AcceptedIsExplained` | memra-core/src/retrieval/search.rs:891-965 | An accepted neighbour extends a repeat-free walk that passes every guard and whose product is its score |
| `Activation.RefusedIsRelaxed` | memra-core/src/retrieval/search.rs:844-900 | Under the hypotheses a refused edge offers nothing better: pruning and the path checks lose nothing |
| `Activation.RelaxSource` | memra-core/src/retrieval/search.rs:826-966 | All neighbours of one seed: soundness is kept, scores only grow, every change is queued, and every edge ends up relaxed |
| `Activation.ActivateLevel` | memra-core/src/retrieval/search.rs:822-968 | One level: the same for the whole frontier, untrusted sources skipped |
| `Activation.LevelSpreads` | memra-core/src/retrieval/search.rs:822-968 | After a level every score known before it has been spread one hop |
| `Activation.CoversOneMore` | memra-core/src/retrieval/search.rs:822-968 | Spreading once covers all walks one hop longer |
| `Activation.CoversWhenClosed` | memra-core/src/retrieval/search.rs:822-825 | Stopping early on an empty frontier covers walks of any length |
| `Activation.Spread` | memra-core/src/retrieval/search.rs:807-971 | After the hop loop every activated note is explained by a walk of at most three hops, and under the hypotheses every positive walk of at most three hops is matched by its end's score |
| `SpreadActivation.Run` | memra-core/src/retrieval/search.rs:786-1006 | Unchanged direct prefix, distinct ids, limit respected, suffix in descending order with explained notes, optimal over all walks under the hypotheses; counters grow by what was appended |
| `SpreadActivation.Associations` | memra-core/src/retrieval/search.rs:973-985 | The activated notes there is room for, best first, explained, and optimal under the hypotheses |
| `SearchAnswers.AppendedShowsItsRow` | memra-core/src/retrieval/search.rs:937-958 | Every appended result shows the columns of the one stored, admissible row of its own id |
| `SearchAnswers.AppendedTraceIsReal` | memra-core/src/retrieval/search.rs:891-935 | Its trace names its root, its path of depth plus one, and as last step a stored relation or dream from the last but one note to itself, or to the note it evolved from, which lands on it by the named route |
| `SearchAnswers.AppendedScoreIsProduct` | memra-core/src/retrieval/search.rs:875-876 | Its score is a direct result's score times 0.3 and the strength of an edge for each step of its path |
| `SearchAnswers.CountersExactly` | memra-core/src/retrieval/search.rs:985-1004 | Each counter grows by the appended notes of its relation type or of dreams; the depth recorded is the largest |
| `SpreadActivation.WalkIsMatched` | memra-core/src/retrieval/search.rs:973-985 | Any walk either ends at a kept note scoring at least as much or is no better than every kept note |
| `SpreadActivation.TopIsOptimal` | memra-core/src/retrieval/search.rs:973-985 | The kept top of the ranking leaves out no better note |
| `SpreadActivation.AppendAll` | memra-core/src/retrieval/search.rs:978-1006 | Appends behind the direct results; relation-type counts sum to the number appended |
| `SpreadActivation.AccountStep` | memra-core/src/retrieval/search.rs:985-1004 | One returned association moves each counter by its share |
| `AppendedTopics.TailSeesItsTopics` | memra-core/src/retrieval/search.rs:761-766 | What the tail hands to activation shows each topic once, all of them among the seen topics |
| `AppendedTopics.OnePerTopicExactly` | memra-core/src/retrieval/search.rs:863-868 | An appended note never repeats a topic of the direct block: the whole list is one per topic iff the appended part is |
| `AppendedTopics.WholeListOnePerTopicExactly` | memra-core/src/retrieval/search.rs:978-1004 | It is if no two notes within reach share a topic, and, where the search is exact and has room, only then |
| `AppendedTopics.AdmittedTopicsApart` | memra-core/src/retrieval/search.rs:863-868 | Admissible notes with different topics are enough |
| `ActivationLaws.DampingBoundIsTight` | memra-core/src/retrieval/search.rs:786-1006 | On all graphs with strengths up to s every answer meeting the search contract is optimal iff 0.3 s is at most 1 |
| `ActivationLaws.UndampedSearchIsNotOptimal` | memra-core/src/retrieval/search.rs:2719-2727 | Above the bound, on a three-note graph, no answer of the search with room for one association is optimal: a walk to b scores above everything it can append |
| `ActivationLaws.TriangleAnswer` | memra-core/src/retrieval/search.rs:786-1006 | That graph does have a full answer of three notes, each with its repeat-free walk |
| `ActivationLaws.NoLossExactly` | memra-core/src/retrieval/search.rs:844-889 | For all graphs with strengths up to s, every walk is matched by a repeat-free one iff 0.3 s is at most 1 |
| `ActivationLaws.LoopsLoseNothing` | memra-core/src/retrieval/search.rs:844-889 | With damped hops any walk has a repeat-free one, no longer, to the same note and scoring at least as much |
| `ActivationLaws.UndampedLosesWalk` | memra-core/src/retrieval/search.rs:2719-2727 | Above the bound a three-note graph has a walk that no repeat-free walk matches |
| `ActivationLaws.ShadowedMeetsTheRest` | memra-core/src/retrieval/search.rs:786-1006 | A five-note graph that meets every hypothesis of exactness but idempotent resolution |
| `ActivationLaws.ShadowedSearchIsNotOptimal` | memra-core/src/retrieval/search.rs:844-848 | On it no answer of the search with room is optimal: the guard on the neighbour's own id refuses an edge whose head is admissible |
| `Postprocess.OutranksIsWeakOrder` | memra-core/src/retrieval/postprocess.rs:22-44 | Exact channel first, then later timestamp, is a strict weak order |
| `Postprocess.Challenge` | memra-core/src/retrieval/postprocess.rs:22-44 | A later result takes over its topic exactly when it outranks the holder, and then holds it among all seen |
| `Postprocess.BestExists` | memra-core/src/retrieval/postprocess.rs:14-48 | Every topic present has a holder |
| `Postprocess.TopicDedupIsExact` | memra-core/src/retrieval/postprocess.rs:14-62 | One survivor per topic, outranked by none of its topic and the earliest of those it ties with; topic-free results all survive; output sorted by score; no topic is lost |
| `Postprocess.TopicDedupIdempotent` | memra-core/src/retrieval/postprocess.rs:14-62 | A second application changes nothing |
| `Postprocess.RankIsPosition` | memra-core/src/retrieval/postprocess.rs:90-106 | A result's place in its category is the number of results ahead of it |
| `Postprocess.SortedPositionsRank` | memra-core/src/retrieval/postprocess.rs:90-106 | The stable sort of a category's positions ranks it by score, ties in list order |
| `Postprocess.CapIsTight` | memra-core/src/retrieval/postprocess.rs:90-112 | For every cap a category keeps exactly min(count, cap), and nothing dropped scores above anything kept |
| `Postprocess.DiversityIsTight` | memra-core/src/retrieval/postprocess.rs:67-114 | The same for the cap the pass computes, for each category of every list it applies to |
| `Postprocess.DiversifiedKeepsOrder` | memra-core/src/retrieval/postprocess.rs:107-114 | Score order, distinct ids and one result per topic survive the cap |
| `SearchTail.SingleReadOfRow` | memra-core/src/retrieval/search.rs:2475-2498 | Looking a stored row up by its own fields reads its lineage |
| `SearchTail.FollowedIsOwnHead` | memra-core/src/retrieval/search.rs:2475-2527 | A followed result is its own head when resolution is idempotent |
| `TailRun.FollowedRootsAreOwnHeads` | memra-core/src/retrieval/search.rs:744-770 | So every direct result activation starts from is its own head |
| `TailRun.FirstByIdIsDistinct` | memra-core/src/retrieval/search.rs:2553-2556 | Distinct ids, and every id still present |
| `SearchTail.NormalizingKeepsOrder` | memra-core/src/retrieval/search.rs:422-450 | Rescaled scores stay in [0, 1] and never reverse two results |
| `SearchTail.CollectTopicBest` | memra-core/src/retrieval/postprocess.rs:14-48 | The index loop holds each topic's best position, for exactly the topics present |
| `SearchTail.CollectExcluded` | memra-core/src/retrieval/postprocess.rs:84-106 | The per-category loop excludes exactly what lies behind the cap |
| `SearchTail.ResultList.FollowToHeads` | memra-core/src/retrieval/search.rs:2475-2527 | In place, each result becomes its head under its own score and channel, or stays |
| `SearchTail.ResultList.DedupeById` | memra-core/src/retrieval/search.rs:2553-2556 | Retains the first result of every id |
| `SearchTail.ResultList.NormalizeScores` | memra-core/src/retrieval/search.rs:422-450 | Two loops and a rescale compute the z-normalised vector; nothing changes outside z mode, below two results or below the epsilon |
| `SearchTail.ResultList.DedupeByTopicKey` | memra-core/src/retrieval/postprocess.rs:14-62 | The in-place pass leaves the sorted survivors and returns the topics seen |
| `SearchTail.ResultList.EnforceTypeDiversity` | memra-core/src/retrieval/postprocess.rs:67-114 | The in-place pass leaves what is within the cap, in order, and nothing changes for two results or one category |
| `SearchTail.ResultList.Label` | memra-core/src/retrieval/postprocess.rs:119-152 | Missing channels get the default, and every result its temperature, in place |
| `SearchTail.LabelsKeepRanking` | memra-core/src/retrieval/postprocess.rs:119-152 | Labelling fills both gaps, keeps a channel that is there, and changes nothing else |
| `SearchTail.ResultList.FilterMinScore` | memra-core/src/retrieval/search.rs:779-781 | Retains what reaches a positive minimum |
| `TailRun.Run` | memra-core/src/retrieval/search.rs:744-783 | The whole tail: the direct results come out of the candidates stage by stage as the rows below say, limit 5 by default; then the activation contract, exact for idempotent tables with damped relations; returned are, labelled and in order, exactly the results that reach a positive minimum |
| `TailRun.StagesAnswer` | memra-core/src/retrieval/search.rs:744-766 | The stages in sequence: heads, best per id, final scores, one per topic, leading results, category share |
| `TailAnswers.FollowedBecomes` | memra-core/src/retrieval/search.rs:2475-2527 | A candidate becomes its head's columns under its own score and channel, or stays itself |
| `TailAnswers.FirstByIdIsBest` | memra-core/src/retrieval/search.rs:748-754 | Of the candidates that land on one head the best-scored is kept, best first |
| `TailAnswers.ZNormalizedIsRescaled` | memra-core/src/retrieval/search.rs:422-450 | In z mode, for two or more results spread beyond the epsilon, a score becomes 0.5 plus 0.15 per standard deviation above the mean, within [0, 1] |
| `TailAnswers.SortIsFinal` | memra-core/src/retrieval/search.rs:755-764 | The same results under their final scores, best first |
| `TailAnswers.TopicDedupOnce` | memra-core/src/retrieval/postprocess.rs:14-62 | One result per topic: the exact channel, then the later timestamp, then the earlier place; topic-free results all stay |
| `TailAnswers.TopLeads` | memra-core/src/retrieval/search.rs:766 | min(limit, n) results are kept, and nothing left out scores above anything kept |
| `TailAnswers.DiversifiedIsCapped` | memra-core/src/retrieval/postprocess.rs:67-114 | Of more than two results in several categories, each category keeps its first max(2, 3n/5 rounded down) |
| `TailAnswers.FilterReturns` | memra-core/src/retrieval/search.rs:768-781 | A result is returned iff no positive minimum is set or its score reaches it; channel and temperature are filled in and nothing else changes |
| `HotStore.Store.Begin` | memra-core/src/governance/mod.rs:284-302 | Opens a transaction on the current state |
| `HotStore.Store.Commit` | memra-core/src/governance/mod.rs:284-302 | Keeps the current state |
| `HotStore.Store.Rollback` | memra-core/src/governance/mod.rs:284-302 | Restores the state at the begin |
| `Governance.InvisibleCharactersFold` | memra-core/src/governance/mod.rs:73-121 | Default-ignorable characters inserted anywhere leave the canonical approver unchanged |
| `Governance.IgnorableExactly` | memra-core/src/governance/mod.rs:73-89 | The ignorable code points by number |
| `Governance.GreedyIsDistinct` | memra-core/src/governance/mod.rs:371-388 | The selection is pairwise distinct on principal and label, and every entry clashes with a selected one |
| `Governance.GreedyOfDistinct` | memra-core/src/governance/mod.rs:371-388 | Distinct entries are all selected |
| `Governance.NormalizeApprovals` | memra-core/src/governance/mod.rs:371-388 | The loop over legacy rows computes the greedy selection and its two key sets |
| `Governance.GovernanceService.ProposeChange` | memra-core/src/governance/mod.rs:173-226 | Adds one pending change without approvals, or fails on a taken id |
| `Governance.GovernanceService.ApproveChangeForPrincipal` | memra-core/src/governance/mod.rs:256-303 | The transaction: its outcome and final state, unchanged on any refusal |
| `Governance.GovernanceService.ApproveInner` | memra-core/src/governance/mod.rs:305-491 | The checks in order, the recorded approval, and the apply step at the threshold |
| `Governance.GovernanceService.ApplyChangeInner` | memra-core/src/governance/mod.rs:501-618 | Create, update and delete of the identity row with the status flip, or a failure |
| `HotRuns.InsertIdentity` | memra-core/src/storage/writer.rs:70-238 | An upsert under a new id adds that row's identity pair, if it is one, and no other |
| `HotRuns.ReplaceIdentity` | memra-core/src/storage/writer.rs:70-238 | An upsert over an identity row replaces its pair and no other |
| `HotRuns.ApplyingChanges` | memra-core/src/governance/mod.rs:501-618 | What create, update and delete do to the identity layer |
| `HotRuns.DistinctPrincipals` | memra-core/src/governance/mod.rs:390-409 | Pairwise distinct approvals come from as many principals |
| `HotRuns.ApproveStep` | memra-core/src/governance/mod.rs:256-303 | A refusal leaves the state; notes change only when exactly one change goes from pending to applied under enough principals |
| `HotRuns.AddStep` | memra-core/src/core/write_orchestrator.rs:246-652 | Adding never touches the identity layer or the changes; anything but a save leaves the state |
| `HotRuns.SaveStep` | memra-core/src/core/write_orchestrator.rs:655-816 | Neither does checkpointing; a failure leaves the state |
| `HotRuns.StepKeepsIdentity` | memra-core/src/governance/mod.rs:284-302 | Over all four operations: errors leave the store, and identity changes only with one carried change |
| `HotRuns.AppliedIsAbsorbing` | memra-core/src/governance/mod.rs:340-360 | No operation alters an applied change |
| `HotRuns.IdentityIsBacked` | memra-core/src/governance/mod.rs:409-461 | Over any run, a new identity row was put there by one operation of the run that applied a change with exactly that content under enough distinct principals, under the id it generated or the id the change targets, and that change still stands as applied |
| `GovernanceRuns.GreedyGrows` | memra-core/src/governance/mod.rs:371-388 | Further attempts never unselect an earlier one |
| `GovernanceRuns.RefusedIffClash` | memra-core/src/governance/mod.rs:390-399 | On a pending change an attempt is refused iff it shares a principal or label with a counted approval |
| `GovernanceRuns.AcceptedOutcome` | memra-core/src/governance/mod.rs:401-491 | An accepted attempt is recorded, applied at the threshold, or rolled back when it cannot be applied |
| `GovernanceRuns.IdentityRowsStay` | memra-core/src/governance/mod.rs:501-618 | No operation removes an identity row |
| `GovernanceRuns.SteadyRunTracks` | memra-core/src/governance/mod.rs:360-491 | While a change can be applied throughout, or at no point, its counted approvals are the leading greedy selection of attempts, and it is applied iff that reached the bound; blocked, it stops one short |
| `GovernanceRuns.PhasesTrack` | memra-core/src/governance/mod.rs:360-491 | A blocked stretch followed by one from where the change can be applied: both track, and the bound does not move |
| `GovernanceRuns.CanApplyStays` | memra-core/src/governance/mod.rs:501-618 | What can be applied stays so over any run |
| `GovernanceRuns.RunTracks` | memra-core/src/governance/mod.rs:360-491 | Every run of a pending change, splitting where it can first be applied: approvals stop one short until then, and from there on are the leading greedy selection, applied iff it reaches the bound |
| `GovernanceRuns.FreshProposalRun` | memra-core/src/governance/mod.rs:256-303 | For a fresh change: the first three of the greedy selection, applied iff there are three |
| `GovernanceEffects.ProposeExactly` | memra-core/src/governance/mod.rs:173-226 | A proposal stores its own content, reason, target and category as a pending change that needs three approvals |
| `GovernanceEffects.RefusesExactly` | memra-core/src/governance/mod.rs:256-399 | Every refusal, in the order of the checks, on principals and folded labels |
| `GovernanceEffects.VerdictExactly` | memra-core/src/governance/mod.rs:256-303 | An approval is accepted only where none applies, and a refusal leaves the store |
| `GovernanceEffects.RecordedExactly` | memra-core/src/governance/mod.rs:401-491 | An accepted approval is stored behind the counted ones, all pairwise apart, and the change is applied iff it has as many as it needs |
| `GovernanceEffects.CountedExactly` | memra-core/src/governance/mod.rs:371-388 | A stored approval counts unless it shares its principal or label with a counted one |
| `GovernanceEffects.AppliedExactly` | memra-core/src/governance/mod.rs:501-618 | Create adds one active head of the identity layer with the change's content and category; update rewrites and delete retires exactly the target row; every other row is untouched |
| `GovernanceEffects.ApprovalApplies` | memra-core/src/governance/mod.rs:409-461 | That is what an approval that applies a change leaves |
| `GovernanceEffects.UpdatedIsLiveExactly` | memra-core/src/storage/writer.rs:145-150 | An updated row is live again iff its stored state was active |
| `GovernanceEffects.ProposalIsCarriedOut` | memra-core/src/governance/mod.rs:256-491 | A fresh proposal that a run applied was carried out at one step as its own type, target, content and category say |
| `WriteOrchestrator.BestMatchIsBest` | memra-core/src/core/write_orchestrator.rs:952-1000 | The running best is the largest similarity and its earliest row, none iff nothing is positive |
| `WriteOrchestrator.CheckDuplicate` | memra-core/src/core/write_orchestrator.rs:908-1000 | The loop computes that best match over the candidates |
| `WriteOrchestrator.FindExactDuplicate` | memra-core/src/core/write_orchestrator.rs:859-905 | The first vector-compatible exact copy, most recently touched first |
| `WriteOrchestrator.NearestIsStored` | memra-core/src/core/write_orchestrator.rs:908-1000 | A match is a stored, active note of the layer written |
| `WriteOrchestrator.DuplicateExactly` | memra-core/src/core/write_orchestrator.rs:335-380 | Past the guards a note is turned away iff a compatible copy exists or some candidate is above the duplicate threshold, and supersedes iff some candidate reaches the lower one |
| `WriteOrchestrator.Orchestrator.AddMemory` | memra-core/src/core/write_orchestrator.rs:246-652 | The whole call equals one step on the state: verdicts in order, row, supersede mark, flag updates; unchanged on failure |
| `WriteOrchestrator.Orchestrator.WriteInTransaction` | memra-core/src/core/write_orchestrator.rs:553-608 | All of the insert and the supersede mark, or none |
| `WriteOrchestrator.Orchestrator.SaveCheckpoint` | memra-core/src/core/write_orchestrator.rs:655-816 | The whole call equals one step on the state, unchanged on failure |
| `WriteOrchestrator.OneActiveCheckpoint` | memra-core/src/core/write_orchestrator.rs:655-816 | After a successful save the task's one active checkpoint is the answered one, with the saved content and metadata |
| `WriteEffects.LayerExactly` | memra-core/src/core/write_orchestrator.rs:251-284 | Which layer a call writes to: the caller's, `when`, the memory kind, then an allowed classification |
| `WriteEffects.DedupCandidatesExactly` | memra-core/src/core/write_orchestrator.rs:912-921 | The fifty latest active notes of the layer |
| `WriteEffects.ExactCandidatesExactly` | memra-core/src/core/write_orchestrator.rs:866-877 | The fifty most recently touched active copies in the layer and project |
| `WriteEffects.NearestIsClosest` | memra-core/src/core/write_orchestrator.rs:938-997 | The most similar candidate of the query's own dimension, the earliest of equals, none iff no similarity is positive |
| `WriteEffects.AddVerdictExactly` | memra-core/src/core/write_orchestrator.rs:246-380 | Every verdict of an add exactly when it is given, in order: blank content, identity layer, refused fact, wrong dimension, duplicate, failed statement, saved; only a save changes the state |
| `WriteEffects.SaveWrites` | memra-core/src/core/write_orchestrator.rs:497-621 | A save adds one row with every column as given, marks exactly the retired rows, and leaves every other row |
| `WriteEffects.AddAnswers` | memra-core/src/core/write_orchestrator.rs:640-652 | It answers the new id, the layer and the one note superseded from similarity 0.70 on |
| `WriteEffects.TopicExactly` | memra-core/src/core/write_orchestrator.rs:1850-1875 | The topic key: the caller's, none for an event, the superseded note's, or a fresh one |
| `WriteEffects.FreshKeyExactly` | memra-core/src/core/write_orchestrator.rs:1843-1846 | A fresh key is the layer, a colon, and the longest prefix of at most 100 UTF-8 bytes on one line |
| `WriteEffects.SaveExactly` | memra-core/src/core/write_orchestrator.rs:655-816 | Every outcome of a checkpoint save; rows that are not active checkpoints of the task stay as they were |
| `WriteEffects.ProbeExactly` | memra-core/src/core/write_orchestrator.rs:672-681 | The probe sees the five most recently touched copies |
| `LineageRuns.TopicIsInherited` | memra-core/src/core/write_orchestrator.rs:1850-1875 | Without an override the new note takes over the key of the note it supersedes |
| `LineageRuns.RetiringExactly` | memra-core/src/core/write_orchestrator.rs:565-573 | Retiring rows beside a new live row orphans nobody iff the key of every retired row is taken over by the new row or still carried by another live head |
| `LineageRuns.AddKeepsExactly` | memra-core/src/core/write_orchestrator.rs:246-621 | An add with any topic override and any contradictions keeps every superseded key headed iff it saves nothing or the keys of the rows it retires are so covered |
| `LineageRuns.PlainIsCovered` | memra-core/src/core/write_orchestrator.rs:1850-1875 | Without override and contradiction they are |
| `LineageRuns.OpKeepsExactly` | memra-core/src/core/write_orchestrator.rs:655-816 | Of all operations only a saved add can orphan a note; ids, keyless layers and own roots are kept |
| `LineageRuns.NeverOrphansExactly` | memra-core/src/core/write_orchestrator.rs:344-621 | Over any interleaving, no state along the run orphans a note iff every saved add covers the keys it retires |
| `LineageRuns.NobodyIsOrphaned` | memra-core/src/core/write_orchestrator.rs:344-573 | Over any interleaving without topic override and contradiction, each superseded note with a topic key shares it with a live head |
| `LineageRuns.SupersededNotesAreReadable` | memra-core/src/retrieval/canonical_reader.rs:82-164 | So the reader answers a live head for it, provided the key is trimmed |
| `LineageRuns.SupersededMissExactly` | memra-core/src/retrieval/canonical_reader.rs:82-164 | In any table the reader of a superseded note misses iff neither its root nor its key has a live head as the reader trims them |
| `LineageRuns.MissesExactly` | memra-core/src/retrieval/canonical_reader.rs:82-164 | The same after any run; where every add covers what it retires, a trimmed non-empty key never misses |
| `LineageRuns.OwnRootsMissExactly` | memra-core/src/retrieval/canonical_reader.rs:82-164 | Where rows are their own roots, iff the key is blank or has no live head as trimmed |
| `LineageWitnesses.EmbeddingsAreSimilar` | memra-core/src/retrieval/scoring.rs:481-499 | Two padded unit embeddings have cosine similarity 0.8, between the two thresholds |
| `LineageWitnesses.LostExactly` | memra-core/src/core/write_orchestrator.rs:1843-1846 | For every trimmed fact, superseded by a near copy with those embeddings, the reader misses iff the key cut from it ends in whitespace |
| `LineageWitnesses.OverrideOrphansExactly` | memra-core/src/core/write_orchestrator.rs:497-508 | The same call with a topic of the caller's own orphans the fact iff that is not the fact's own key |
| `LineageWitnesses.ContradictionOrphans` | memra-core/src/core/write_orchestrator.rs:610-621 | A contradicting procedure orphans the fact it retires |
| `LineageWitnesses.SomeNoteIsLost` | memra-core/src/core/safety_filter.rs:6-15 | Facts whose key ends in whitespace exist |
| `LineageRuns.OwnRootsResolveIdempotently` | memra-core/src/retrieval/canonical_reader.rs:95-161 | Rows that are their own roots resolve idempotently |
| `LineageRuns.RunResolvesIdempotently` | memra-core/src/core/write_orchestrator.rs:551-573 | Any run without root overrides keeps the store idempotent, as activation needs it |
| `Sse.SplitFrame` | memra-core/src/llm/mod.rs:763-767 | The frame is the text before the first blank line; none iff there is no blank line |
| `Sse.ApplyFrame` | memra-core/src/llm/mod.rs:769-795 | A frame folds its lines into the output, stopping at the first malformed payload |
| `Sse.DrainFrames` | memra-core/src/llm/mod.rs:339-348 | Every complete frame leaves the buffer, and what was eaten folds to the current output |
| `Sse.CompleteStreaming` | memra-core/src/llm/mod.rs:322-376 | For every chunking, over the lines of the whole text: the message of the first bad payload; else, if some line marks the end, all deltas in order; else interrupted |
| `Sse.BatchAnswers` | memra-core/src/llm/mod.rs:769-795 | One fold over the lines answers so |
| `Sse.NoiseIsInvisible` | memra-core/src/llm/mod.rs:772-779 | A blank line, a comment or another field may stand anywhere without changing the answer |
| `Sse.ConcatExactly` | memra-core/src/llm/mod.rs:338-341 | Chunks add up in order |
| `Sse.FoldCut` | memra-core/src/llm/mod.rs:334-360 | Cutting the text behind a line feed does not change the fold |
| `Sse.FoldLines` | memra-core/src/llm/mod.rs:772-776 | Stripped carriage returns and a missing last piece are invisible after trimming |
| `Sse.FoldDone` | memra-core/src/llm/mod.rs:334-360 | The done flag accumulates and never steers decoding |
| `Sse.RenderDecodes` | memra-core/src/llm/mod.rs:763-795 | Framed payloads decode to their deltas in order, up to the first malformed one |
| `Convo.NormalizePlainText` | memra-core/src/convo_normalizer.rs:172-203 | The loop yields one exchange per marker block of the lines |
| `Convo.CountExchanges` | memra-core/src/convo_normalizer.rs:172-203 | As many exchanges as marker lines |
| `Convo.ExchangesExactly` | memra-core/src/convo_normalizer.rs:172-203 | One exchange per line that starts with "> ", with its trimmed rest and the trimmed lines up to the next such line |
| `Convo.PrintableReadsBack` | memra-core/src/convo_normalizer.rs:172-203 | Printed exchanges are read back block by block |
| `Convo.ReadBackIsPrintable` | memra-core/src/convo_normalizer.rs:172-203 | What reads back must have been printable |
| `Convo.RoundTripExactly` | memra-core/src/convo_normalizer.rs:172-203 | Printing and normalising a list gives it back iff every exchange is printable |
| `ConvoPairing.PairClaude` | memra-core/src/convo_normalizer.rs:91-153 | The JSONL loop computes the pairing of its decoded, non-blank messages |
| `ConvoPairing.PairChat` | memra-core/src/convo_normalizer.rs:230-264 | The conversation loop appends the same pairing of its messages |
| `ConvoPairing.FirstReplyAnswers` | memra-core/src/convo_normalizer.rs:94-152 | The reply is the first assistant text before the next user message, or empty when there is none |
| `ConvoPairing.PairsConserveUsers` | memra-core/src/convo_normalizer.rs:94-152 | One exchange per user message, in order, with its own text, timestamp and answer |
| `ConvoPairing.ClaudePairsExactly` | memra-core/src/convo_normalizer.rs:91-153 | One exchange per JSON line with content by "user" or "human", with its trimmed words and time, answered by the first "assistant", "ai" or "model" line before the next user's |
| `ConvoPairing.ChatPairsExactly` | memra-core/src/convo_normalizer.rs:230-264 | One exchange per "user" message, answered by the first "assistant" message before the next |
| `ConvoPairing.AscentIsUnique` | memra-core/src/convo_normalizer.rs:300-320 | A parent map and a start determine the chain |
| `ConvoPairing.ActiveChainIds` | memra-core/src/convo_normalizer.rs:300-320 | On every parent map, cyclic or not, the repeat-free root-first chain of parent edges to the start, no longer than the map, that cannot be extended |
| `ConvoPairing.LatestLeafNode` | memra-core/src/convo_normalizer.rs:274-289 | None iff there is no leaf; otherwise the latest leaf, the last of equals |
| `Scoring.ScoreResult` | memra-core/src/retrieval/scoring.rs:921-1356 | The step-by-step score equals its composition and lies in [0, 1] for any features |
| `Scoring.RelevanceFloors` | memra-core/src/retrieval/scoring.rs:1005-1184 | Relevance is never below the weighted mix nor below the floor of any rule that fires (exact text, two token hits, identifiers, primary task), never above 1, and is exactly the mix when no rule fires |
| `Scoring.BestBoost` | memra-core/src/retrieval/scoring.rs:1075-1117 | The table loops keep the largest boost: it bounds them all and is one of them, or zero |
| `Scoring.WeightsAreConvex` | memra-core/src/retrieval/scoring.rs:1005-1050 | Every branch of the weight table is a weighted average |
| `Scoring.AxesAreBounded` | memra-core/src/retrieval/scoring.rs:1185-1237 | Relevance, freshness and trust, and so their blend, lie in [0, 1]; trust is at least 0.255 |
| `Scoring.VectorMonotone` | memra-core/src/retrieval/scoring.rs:1005-1327 | Raising vector similarity never lowers the score |
| `Scoring.Bm25Monotone` | memra-core/src/retrieval/scoring.rs:1005-1327 | Neither does a stronger text rank, nor gaining one, unless it is gained under a query with a vector |
| `Scoring.HigherMixNeverLowers` | memra-core/src/retrieval/scoring.rs:1005-1327 | Across any change of table row, a mix that does not fall never lowers the score |
| `Scoring.RankLowersExactly` | memra-core/src/retrieval/scoring.rs:1005-1327 | For every candidate, another rank lowers the score iff the mix falls between the floors and the cap on relevance and no rank guard hides the rest |
| `Scoring.UnguardedLowersExactly` | memra-core/src/retrieval/scoring.rs:1005-1184 | Without rank guards, iff the mix falls between the floors and the cap |
| `Scoring.PlainGainLowersExactly` | memra-core/src/retrieval/scoring.rs:1005-1050 | Without boosts either, gaining a rank lowers the score iff what the rank brings is less than what the change of weight rows takes from vector and tokens |
| `Scoring.MixFallsExactly` | memra-core/src/retrieval/scoring.rs:1005-1050 | The same inequality for the mix of any candidate; under a query with a vector the token weight always falls |
| `Scoring.HalfMatchDrops` | memra-core/src/retrieval/scoring.rs:1005-1050 | A two-word query with one hit in a fact: gaining a rank lowers the score unless the rank is at least 5/9 strong |
| `Scoring.FailuresMonotone` | memra-core/src/retrieval/scoring.rs:1185-1327 | More failures never raise it |
| `ScoringLaws.WeightsWithBoth` | memra-core/src/retrieval/scoring.rs:1008-1033 | The weight table row by row, with vector and text rank |
| `ScoringLaws.WeightsWithoutBoth` | memra-core/src/retrieval/scoring.rs:1034-1050 | The other rows |
| `ScoringLaws.BlendShares` | memra-core/src/retrieval/scoring.rs:1224-1237 | The share of relevance, freshness and trust for remote-history, temporal and other queries |
| `ScoringLaws.FreshnessExactly` | memra-core/src/retrieval/scoring.rs:1185-1200 | A note is never staler than its layer allows, 0.4 of that for temporal queries, and fully fresh at no decay |
| `ScoringLaws.TrustExactly` | memra-core/src/retrieval/scoring.rs:1202-1214 | Confidence scales trust from 0.85 to 1 and each failure takes 0.15 of it, down to 0.3 |
| `ScoringLaws.TrustSplits` | memra-core/src/retrieval/scoring.rs:1202-1214 | Confidence and failures scale trust independently |
| `ScoringLaws.DecayMonotone` | memra-core/src/retrieval/scoring.rs:1185-1327 | A younger note is never scored lower |
| `ScoringLaws.ActivationMonotone` | memra-core/src/retrieval/scoring.rs:468-479 | Neither is one recalled more |
| `ScoringLaws.ConfidenceMonotone` | memra-core/src/retrieval/scoring.rs:1202-1327 | Nor one with a higher positive confidence |
| `ScoringLaws.RoutedExactly` | memra-core/src/retrieval/scoring.rs:1249-1285 | The factor of catalogue, brand and category routing |
| `ScoringLaws.RoutingOrder` | memra-core/src/retrieval/scoring.rs:1269-1285 | Boosted scores at least untyped, and that at least typed |
| `ScoringLaws.CatalogueLowers` | memra-core/src/retrieval/scoring.rs:1249-1254 | A catalogue entry never scores higher for it |
| `ScoringLaws.BrandLowers` | memra-core/src/retrieval/scoring.rs:1256-1266 | Neither does a brand's own statement |
| `ScoringLaws.MarksScale` | memra-core/src/retrieval/scoring.rs:511-542 | A row keeps exactly its staleness share and its lifecycle share of its unmarked counterpart's score |
| `Scoring.EvolutionScales` | memra-core/src/retrieval/scoring.rs:511-526 | For a query with words nothing lifts the lifecycle demotion back: it scales the score exactly |
| `Scoring.SupersededIsScaled` | memra-core/src/retrieval/scoring.rs:511-526 | For a query with words and no legacy marker, superseding a row leaves exactly 5% of its score |
| `Scoring.SupersededAtMostFivePercent` | memra-core/src/retrieval/scoring.rs:511-526 | A superseded row scores at most 5% of its active twin iff the query is not empty and the row has no legacy marker |
| `Cosine.CosineSimilarity` | memra-core/src/retrieval/scoring.rs:481-499 | The loop computes the clamped quotient, in [0, 1], and 0 for empty, unequal or zero vectors |
| `Cosine.CauchySchwarz` | memra-core/src/retrieval/scoring.rs:481-499 | The squared dot product is at most the product of the squared norms, at any length |
| `Cosine.DotOfUnit` | memra-core/src/retrieval/scoring.rs:485-491 | Every component takes part in the sum |
| `Cosine.DotAdds` | memra-core/src/retrieval/scoring.rs:485-491 | The sum is linear |
| `Cosine.UpperClampNeverFires` | memra-core/src/retrieval/scoring.rs:481-499 | The quotient is at most 1, so only the lower clamp acts |
| `Cosine.SimilarityIsSymmetric` | memra-core/src/retrieval/scoring.rs:481-499 | Exchanging the vectors changes nothing |
| `Cosine.ScaleInvariant` | memra-core/src/retrieval/scoring.rs:481-499 | A positive factor on one vector changes nothing |
| `Cosine.SelfSimilarity` | memra-core/src/retrieval/scoring.rs:481-499 | A non-zero vector is similar to itself with 1 |
| `Cosine.NoSimilarity` | memra-core/src/retrieval/scoring.rs:481-499 | Vectors of different length, zero vectors and vectors at a right angle or more have similarity 0 |

## Left out

- SpreadActivation.Run: optimality is stated for idempotent resolution, direct results that are their own heads, and strengths s with 0.3 s at most 1; soundness and the prefix contract hold without them, and the last hypothesis is shown to be the exact one.
- LineageRuns.NobodyIsOrphaned: assumes no topic override and no hard cross-layer contradiction; `LineageRuns.NeverOrphansExactly` is the exact condition with them. Both start from identity rows and checkpoints without a topic key, as these operations write them.
- LineageRuns.MissesExactly: assumes that generated note ids are new and trimmed, as UUIDs are.
- LineageRuns.NeverOrphansExactly: which rows a contradiction scan hits is a parameter; the scan leaves out the new note, as the source does.
- WriteOrchestrator.Orchestrator.AddMemory: relation links, extracted entities and the soft contradiction marks written after the commit are not part of the state.
- TailRun.Run: recall counts and days since the last recall come from a parameter, as does the default channel.
- LineageRuns.SupersededNotesAreReadable: assumes a key without surrounding whitespace, since the reader trims keys.
- HotRuns.IdentityIsBacked: assumes that generated note ids are new, as UUIDs are.
- Scoring.ScoreResult: text matching, keyword tables and the exponential and logarithmic clock terms are features of the input; not every combination of them comes from a query and a note, so universal statements range over more than those, and witnesses are chosen among those.
- Scoring.Bm25Monotone: does not cover a rank gained under a query with words and a vector, where it is false; `Scoring.RankLowersExactly` states the exact condition for every candidate.
- Cosine.CosineSimilarity: real arithmetic with a square root given as a function; floating-point rounding is not modelled.
- Sse.CompleteStreaming: chunks are cut at character boundaries; the source checks UTF-8 per chunk, and transport errors are not modelled. JSON decoding is a function parameter.
- ConvoPairing.PairClaude: JSON lines arrive decoded; file access and format detection are not modelled.
- SQL text, FTS5 and vector candidate gathering, keyword penalties and bonuses: candidates and the score adjustment are parameters.
- SQL errors inside a read, and a COMMIT that fails.
- `report_outcome`, recall counting, auto-linking of entities, and the metadata merge details.
- The soft marks of the cross-layer contradiction scan; hard hits are a parameter that updates flags.
- Columns the modelled code only orders by (`updated_at`, confidence): exact-duplicate order comes from a parameter.
- Cold-storage contents; a cold-storage append only succeeds or fails.
- NFKC normalisation and lowercasing, which are uninterpreted functions; the ignorable-character filter is concrete.
- Iteration order of hash maps: activated notes are collected in any order, so ties in the top-k are open.
- Integer widths: counters are unbounded.
- HTTP clients, tool plumbing, audit logging, token checks, command line, configuration and packaging: input and output without logic of this kind.
