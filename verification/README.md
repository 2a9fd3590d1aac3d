# Trade finder: a Dafny model of its algorithms and protocols

This project models ten parts of the repository and proves what they promise. Code that
changes things step by step is modelled as methods with loops and classes with fields, each tied
to a specification function; protocols are state machines; the laws are lemmas over every input,
every run or every reachable state. `dafny verify dfyconfig.toml` checks everything.

| file | what it models |
|---|---|
| `FixedLineup.dfy` | slot matching by augmenting paths, and the best template of a family |
| `NativeLineup.dfy`, `ProviderCapture.dfy` | line-up families from position ranges, their demands, and the reduction to fixed slots plus one flex class |
| `DeletionScrub.dfy`, `CapturedIds.dfy`, `RacedIds.dfy`, `MatchIds.dfy`, `ModelStore.dfy`, `Leases.dfy`, `DuePasses.dfy`, `ScrubRuns.dfy` | the deletion-scrub job: claims, leases, sweeps, cursors, failures, the grace; what it covers by the match ids captured at the deletion, and by those of matches that raced it; its model phase; when it moves on; runs it reaches |
| `Json.dfy`, `Redaction.dfy`, `TwoDeletions.dfy` | JSON trees, the redaction of a deck card's features, and two deletions over one card |
| `Sharing.dfy`, `DeckDiagnostics.dfy`, `TreeText.dfy` | hash-consing of debug fields, its expansion, and a digest as it needs one |
| `TeamDraft.dfy`, `GroupComposition.dfy` | the team draft, and the lane quotas of a group |
| `EventIngest.dfy`, `IngestRuns.dfy`, `RateLimit.dfy` | event batches, overlapping requests over one table, the hourly budget |
| `Ranks.dfy`, `Coefficient.dfy`, `ConsensusBlend.dfy` | tie-averaged ranks, their covariance and correlation, the consensus blend and the quarterback cap |
| `FitFold.dfy`, `FoldStore.dfy`, `FoldPlan.dfy` | folding further cards into a grading session, and writing the fold under a unique constraint |
| `DeckFilter.dfy`, `DeckRepeat.dfy` | the deck's quality filter and its repeat cap |
| `Wrappers.dfy`, `FiniteSets.dfy`, `Sublists.dfy` | outcome types, cardinalities, the elements of a list that meet a condition in their order |

## Where the code does less than it says

- *Redaction.* "No deleted id is left" needs one more condition than a token outside the ids: the
  string `partner:` + token must not be an id either (`Redaction.LeavesNoIdExactly`, with the
  card that shows it in `NamesItAnyway`). A card whose partner is a list or an object raises.
- *Repeat cap.* "Protected cards hold their positions" (`backend/deck_quality.py:117`) holds of a
  protected card within the window exactly when no card before it is over the cap of the cards
  before that one, and of a later one exactly when the head is full before it
  (`DeckRepeat.ProtectedHoldsPlace`); behind a deferred card it is served earlier
  (`DeckRepeat.ProtectedMayMove`).
- *Repeat cap.* "No asset in more than `REPEAT_CAP` of the first `REPEAT_WINDOW` cards"
  (`backend/deck_quality.py:116`) holds of the served deck, of trades that list no asset twice, exactly
  when the head is full or no card is over the cap, and no protected card that comes before the head
  is full repeats an asset too often (`DeckRepeat.CapHolds`; on the first cards given, when none is
  over the cap, `DeckRepeat.CapHoldsGiven`). Four copies of one card are all served first
  (`DeckRepeat.CopiesServed`).
- *Lease.* "A runner that outlasted it writes nothing" (`backend/deletion_scrub.py:1517-1518`) fails
  of the side tables' repair, which writes the row's match ids without the lease
  (`backend/deletion_scrub.py:237-243`): an outlived runner changes the row exactly when its sweep
  finds a raced match and that makes a difference (`DeletionScrub.OutlivedRunner`). The row keeps
  its ids exactly when the runner's copy, with the raced ones, has them all
  (`MatchIds.IdsKeptWhen`), always with one runner (`MatchIds.OneRunnerKeepsIds`), and the ids
  captured at the deletion always (`CapturedIds.CapturedIdsStay`); in
  `ScrubRuns.OutlivedRunnerWrites` an outlived runner writes an id and the holder erases it.
- *Raced matches.* A raced match's id joins the row's "for later runs", so that the scan looks at its
  other side's notifications whatever name they used (`backend/deletion_scrub.py:230-233`). A
  notification that such an id alone finds is handed over exactly when the run that gets to its page
  holds the id (`RacedIds.HandedWhenFound`); one left untouched by a recorded pass is one that some
  run went past without it (`RacedIds.UntouchedRow`), as in `ScrubRuns.RacedRowIsLeft`, where a run
  with an older copy of the row records its pass and the row is deleted.
- *Model store.* "A new version: the model store again too" (`backend/deletion_scrub.py:1645-1646`)
  fails of a row that an older version marked before any DB pass was recorded on it: such a row is
  deleted without its model store redacted again, and no other is (`ModelStore.ModelStoreRedacted`,
  with the run in `ScrubRuns.SomeModelIsLeft`).
- *Stuck rows.* "The passes keep retrying it, and `_finish` deletes it once a pass completes"
  (`backend/deletion_scrub.py:1692-1694`) fails of a row whose grace pass is recorded while a cursor is
  saved on it: no pass is due, and the row is not deleted because of the cursor. Past the grace an idle
  runner finds something to do for a row nobody holds exactly when the row is not of that kind
  (`DuePasses.MovesUnlessStuck`), and once no runner has a copy of it nothing ever changes it
  (`DuePasses.StuckForever`). A runner with a copy from before that pass takes the lease after it, and
  leaves such a row when its page budget ends (`ScrubRuns.SomeRunSticks`).
- *Two deletions.* Scrubbed for one person and then for another, a card names neither
  (`TwoDeletions.BothGone`); but a scrub that read the card before the other wrote puts the other
  person back (`TwoDeletions.OneIsLost`). Every card ends up naming neither exactly when one scrub
  writes before the other reads, or the later write is that of a deletion with all the other's ids
  (`TwoDeletions.BothGoneWhen`).
- *Event ids.* The id pattern also admits one final newline, because its end anchor does: an
  admitted id is as described exactly when it does not end in a newline
  (`EventIngest.PlainWhen`, with an input in `EventIngest.NewlineAdmitted`).
- *Batch accounting.* The counts add up to the number of events exactly when the batch has at most
  50 events and its transaction did not fail (`IngestRuns.AnswersAddUp`): a longer batch is
  answered with zeros.
- *Group size.* A composed group with a lane label stays within its size exactly when the value quota
  does, or the value lane cannot fill the excess (`GroupComposition.KeepsSize`, with a group that does
  not in `GroupComposition.OverfullGroup`); `compose_deck`, its one caller, clamps the quota first
  (`backend/bakeoff_runner.py:1583`).
- *Compaction.* A row is read back exactly when it had no reference-shaped object of its own
  (`DeckDiagnostics.RoundTrip`, with a row that has one in `DeckDiagnostics.ReferenceIsLost`).
- *Partner names.* Turning a partner's name back into an id is right exactly for the last partner
  of that name (`FitFold.InvertsExactly`, with two of one name in `FitFold.InvertsWrong`), so the fold
  needs distinct names.
- *Folding twice.* Of two folds computed from one read, the second is no plan for the rows the first
  left unless everything the first added lies beyond its places, and never when it adds as many
  (`FoldPlan.SecondFold`): neither the open session nor the unanswered cards stop it, the constraint
  on positions does.

## Model

| member | source | states |
|---|---|---|
| FixedLineup.Matching.Place | backend/calibration_fixed_lineup.py:24-32 | a search either adds exactly its slot to the held ones, or changes nothing and leaves behind a sealed set of players holding all it reached; it never enters a set sealed before |
| FixedLineup.Matching.Run | backend/calibration_fixed_lineup.py:21-36 | the result is legal (eligible players, one slot each), no legal assignment fills more slots, and none fills a slot left empty together with every filled slot before it |
| FixedLineup.FitsWhen | backend/calibration_fixed_lineup.py:26 | a player may take a slot iff some position of the player is one the slot takes |
| FixedLineup.Matching.ToRows | backend/calibration_fixed_lineup.py:35-36 | the rows name each slot's holder: filled rows are exactly the held slots |
| FixedLineup.BestAssignment | backend/calibration_fixed_lineup.py:112-120 | over a team's templates, the chosen matching fills at least as many slots as any legal assignment of any template, more than any of an earlier one |
| FixedLineup.CertificateSurvives | backend/calibration_fixed_lineup.py:27-31 | a later augmentation leaves the failed searches' certificate standing |
| FixedLineup.Deficiency | backend/calibration_fixed_lineup.py:21-36 | the failed slots' reach sets together bound every assignment, so the matching is maximum |
| FixedLineup.TightBound | backend/calibration_fixed_lineup.py:21-36 | slots that reach only given players are filled at most that often |
| NativeLineup.Templates | backend/calibration_native_lineup.py:26-43 | rejects exactly the ill-formed, those with too large a volume or more than the allowed number of feasible count vectors, and the infeasible; otherwise returns the row of every feasible vector once, in lexicographic order of the counts, each row's positions in the order of the bounds |
| NativeLineup.VolumeCounts | backend/calibration_native_lineup.py:34-38 | the volume that is bounded beforehand is the number of vectors the product lists |
| NativeLineup.VectorsWithin | backend/calibration_native_lineup.py:38 | the product lists exactly the vectors within the ranges |
| NativeLineup.VectorsOrdered | backend/calibration_native_lineup.py:38 | and lists each once, in lexicographic order |
| NativeLineup.FamilyRows | backend/calibration_native_lineup.py:37-43 | a row is in the family iff some feasible count vector spells it |
| NativeLineup.FeasibleWhen | backend/calibration_native_lineup.py:38-42 | a template exists iff the lows fit under the total and the highs reach it |
| NativeLineup.Demands | backend/calibration_native_lineup.py:60-70 | the map holds exactly the non-empty groups of usable positions with a positive demand, each with it |
| NativeLineup.DemandIsLeast | backend/calibration_native_lineup.py:60-70 | a group's demand is the least number of its slots over all templates, and is reached |
| NativeLineup.DemandsSuffice | backend/calibration_native_lineup.py:60-70 | a roster of single-position players fills some template completely iff it meets every demand |
| ProviderCapture.MflSlots | backend/calibration_provider_capture.py:290-316 | a list results iff the limits are supported and are fixed slots plus one known flex class; it accepts exactly the line-ups that satisfy every range and the total |
| ProviderCapture.ReadLimits | backend/calibration_provider_capture.py:293-303 | the limits of the priced positions, or none at the first unsupported row |
| ProviderCapture.AllSupportedWhen | backend/calibration_provider_capture.py:296-301 | the limits are supported iff each is a rising range up to the highest limit, no priced position comes twice, and a position without a price is limited to none |
| ProviderCapture.ExactlyNative | backend/calibration_provider_capture.py:304-316 | lows as dedicated slots plus one flex class accept exactly the native line-ups |
| ProviderCapture.NativeWhenFlexible | backend/calibration_provider_capture.py:308-311 | spare players of the flexible positions never break a range that has room for all of them |
| DeletionScrub.InvHolds | backend/deletion_scrub.py:1515-1652 | over every interleaving of claims, stale copies, renewals, sweeps, pages, failures, losses and other users' inserts, no cursor, copy or page in hand owes a row behind it, unless a failure was counted |
| CapturedIds.RecordedPassCovers | backend/deletion_scrub.py:1591-1652 | whenever the row records a pass at the current version, every row in scope when it started was since handed over without a counted failure, whether by the sweep of a captured league or the side tables, on a page, at a scan's end, or by a match id captured at the deletion |
| CapturedIds.DeletedRowIsCovered | backend/deletion_scrub.py:1729-1743 | once the job row is gone, a failure-free pass from the grace on covers so every row in scope then |
| CapturedIds.CapturedIdsStay | backend/deletion_scrub.py:140-150 | over every run of any number of runners, the match ids captured at the deletion stay on the row, and every runner holds them |
| RacedIds.HandedWhenFound | backend/deletion_scrub.py:1343-1357 | a row of a page handed without a failure is handed over iff it needs no match id or the runner holds one that finds it, and is missed by the pass iff not |
| RacedIds.UntouchedRow | backend/deletion_scrub.py:1591-1652 | a row in scope when the recorded pass started and untouched since needs a match id, none captured finds it, and some run went past it without one that does |
| RacedIds.UntouchedWhenDeleted | backend/deletion_scrub.py:1729-1743 | so it is of a row untouched when the job row is gone |
| ScrubRuns.RacedRowIsLeft | backend/deletion_scrub.py:230-243 | a run whose pass is recorded and whose job row is deleted with a row in scope, found by a raced match id alone, never touched |
| Leases.TakenFree | backend/deletion_scrub.py:1551-1579 | over every run, whatever became of the row since it was read, a lease is taken only when the row shows none or one that has run out |
| Leases.OneWins | backend/deletion_scrub.py:1551-1579 | over every run, of the runners that read the row with one stamp on it, one takes the lease, while no stamp was written twice |
| Leases.StampLasts | backend/deletion_scrub.py:1515-1534 | over every run, a run's stamp is never short of its lease from its start |
| DeletionScrub.OneHolder | backend/deletion_scrub.py:1569-1579 | while no stamp was written twice, at most one runner holds the stamp the row shows |
| DeletionScrub.OutlivedRunner | backend/deletion_scrub.py:1515-1534 | a runner whose stamp the row no longer shows changes no fenced column; it changes the row exactly when its sweep of the side tables finds a raced match and the ids differ |
| ScrubRuns.OutlivedRunnerWrites | backend/deletion_scrub.py:237-243 | a run in which an outlived runner writes a match id on the row, and the holder then erases it |
| MatchIds.IdsKeptWhen | backend/deletion_scrub.py:234-243 | whoever sweeps the side tables, the row keeps its match ids iff the sweep finds no raced match or the runner's ids with the raced ones have them all |
| MatchIds.OneRunnerKeepsIds | backend/deletion_scrub.py:230-243 | over every run of one runner at a time, a match id on the row stays on it |
| ModelStore.ModelStoreRedacted | backend/deletion_scrub.py:1640-1646 | when the row is gone its model store was redacted by this version, iff no older version had marked it before a DB pass was recorded |
| DuePasses.ModelAfterPass | backend/deletion_scrub.py:1761-1771 | over every run, the model store is redacted only once a pass came to its end, unless the row came with one |
| DuePasses.PassAllowsModel | backend/deletion_scrub.py:1766-1771 | once a holder's pass came to its end, with failed rows or without, an unmarked model store may be redacted |
| ScrubRuns.SomeModelIsLeft | backend/deletion_scrub.py:1773-1796 | a run in which such a row is deleted with its model store left as it was |
| DuePasses.DueWhen | backend/deletion_scrub.py:1502-1508 | over every run, an idle runner that finds the lease free may read the row iff no pass of this version is recorded or, from the grace on, iff the recorded one began before the grace |
| DuePasses.GivenBack | backend/deletion_scrub.py:1626-1635 | over every run, a holder that raised or whose page budget ended leaves the row free, so that a pass it wants may be taken up at once |
| DuePasses.BacksOff | backend/deletion_scrub.py:1636-1642 | over every run, a pass that ended with failed rows may be taken up again only after the backoff, and then it may |
| DuePasses.MovesUnlessStuck | backend/deletion_scrub.py:1502-1508 | past the grace, for a row nobody holds, a read, a redaction of the model store or the row's deletion is possible iff the row is not stuck: grace pass and model store recorded, and a cursor saved |
| DuePasses.StuckForever | backend/deletion_scrub.py:1729-1743 | over every run, a stuck row that no runner has a copy of stays as it is |
| ScrubRuns.SomeRunSticks | backend/deletion_scrub.py:1569-1635 | a run in which a runner with an older copy leaves such a row behind |
| ScrubRuns.TwoPassesFinish | backend/deletion_scrub.py:1502-1743 | a run with a pass recorded a second after the deletion and another past the grace, which hands every row over again, with a card that was in flight at the deletion, and ends in the row's deletion |
| DeletionScrub.CursorWrites | backend/deletion_scrub.py:1629-1646 | an errored run never saves its cursor, and a saved cursor is its holder's own, at a page end |
| DeletionScrub.TakeKeeps | backend/deletion_scrub.py:1551-1579 | taking the lease on a stale copy, with a cursor long overtaken, keeps the invariant |
| DeletionScrub.SweepAdvances | backend/deletion_scrub.py:1604-1607 | after the sweep of a store, no row that only the stores swept so far reach is owed, or a failure is counted |
| DeletionScrub.PageRead | backend/deletion_scrub.py:1270-1291 | a page selected by the time it is read misses no row in scope when the pass started, though rows come into scope as time passes |
| DeletionScrub.MovesOn | backend/deletion_scrub.py:1212-1258 | past its last page a store owes nothing, its rows without a page included |
| DeletionScrub.TurnPageKeeps | backend/deletion_scrub.py:499-519 | moving the cursor past a page whose rows were all handed over keeps the invariant |
| DeletionScrub.CompleteKeeps | backend/deletion_scrub.py:1636-1649 | recording a failure-free pass by the time it started, or backing off after failures, keeps the invariant |
| ScrubRuns.SomeRunFinishes | backend/deletion_scrub.py:1591-1743 | the steps do reach a recorded pass and the row's deletion, with a row in scope of each kind a pass reaches, one by a match id alone, and all handed over |
| Redaction.LeavesNoId | backend/deletion_scrub.py:265-351 | redaction raises exactly on a poison row; otherwise no key, string or taste attribute is a deleted id |
| Redaction.LeavesNoIdExactly | backend/deletion_scrub.py:276-279 | that holds of every card iff the token's own taste attribute is no id |
| Redaction.Idempotent | backend/deletion_scrub.py:297-329 | redacting twice is redacting once |
| TwoDeletions.BothGone | backend/deletion_scrub.py:438-474 | a card scrubbed for one deletion and then for another names neither person, in either order |
| TwoDeletions.OneIsLost | backend/deletion_scrub.py:446-474 | a scrub that read the card before the other wrote it brings the other's person back |
| TwoDeletions.SixSchedules | backend/deletion_scrub.py:446-474 | the schedules of two scrubs that each read before they write, and those of them that are serial |
| TwoDeletions.BothGoneWhen | backend/deletion_scrub.py:446-474 | of two scrubs that each read a card and write what they changed, every card ends up naming neither person iff one writes before the other reads, or the later write is that of a deletion with all the other's ids |
| Redaction.UnnamedUntouched | backend/deletion_scrub.py:297-329 | a card naming neither an id nor the token is left exactly as it is |
| Redaction.PartnerCardLoses | backend/deletion_scrub.py:314-329 | a deleted user's own card loses every field from their account, the same way always |
| Redaction.PartnerReadsToken | backend/deletion_scrub.py:265-273 | and reads the token as its partner |
| Redaction.RequestsForget | backend/deletion_scrub.py:332-351 | on any card the frozen owner requests keep no board, source, preference or outlook under the token |
| Redaction.RosterForgets | backend/deletion_scrub.py:282-294 | on any card the roster evaluation loses exactly the deleted ids' teams, and on their own card its mutual benefit |
| Redaction.KeepsTheRest | backend/deletion_scrub.py:297-329 | every other field keeps its value but for the ids in it |
| Redaction.ReplaceGet | backend/deletion_scrub.py:265-273 | replacing ids keeps every other key at its own value, replaced |
| Sharing.StandsExpands | backend/deck_diagnostics.py:157-172 | what stands for a tree without references expands to it: no cycle, nothing missing |
| Sharing.ExpandedHasNoReference | backend/deck_diagnostics.py:157-172 | expansion leaves no reference behind, whatever it was given |
| Sharing.OnceEach | backend/deck_diagnostics.py:119-137 | with every large tree at one recorded home, none is written twice in a scope's snapshots |
| Sharing.OriginOnce | backend/deck_diagnostics.py:119-137 | so it is by the tree each was made of, whatever references the rows brought |
| TreeText.TextIsSound | backend/deck_diagnostics.py:77-87 | there is a digest as the laws ask for: a text from which scope and tree can be read back, longer than any member's |
| DeckDiagnostics.Compactor.Count | backend/deck_diagnostics.py:88-100 | every edge walked to a large tree is tallied and nothing else is, and every counted tree had its members walked, though a repeat is not walked again |
| DeckDiagnostics.Compactor.Pack | backend/deck_diagnostics.py:119-137 | the result stands for the tree, is a reference for a root, every large tree written out is at its one home, and a snapshot is stored only of a debug tree or of a tree counted more than once |
| DeckDiagnostics.WrittenBefore | backend/deck_diagnostics.py:94-97 | a tree reached again by a new edge was counted twice, so it has its snapshot: skipping repeated parents loses no sharing |
| DeckDiagnostics.ReferredTwice | backend/deck_diagnostics.py:88-137 | a tree walked to by two edges from larger trees is referred to from two places of the snapshots |
| DeckDiagnostics.RoundTrip | backend/deck_diagnostics.py:139-172 | a compacted row expands, with its own scope's snapshots, to the original iff the original had no reference |
| DeckDiagnostics.ReferenceIsLost | backend/deck_diagnostics.py:157-172 | a row with a reference of its own, read back with a gap in its place |
| DeckDiagnostics.CompactRows | backend/deck_diagnostics.py:27-154 | every row is read back so, only debug fields change and none holds a tree inline; no two large trees written out in a scope's snapshots were made of the same tree; when no row brought a reference of its own, none expand to the same either, and references stay in scope; a snapshot is the one some debug field refers to, or is of a large tree and referred to from two places at least of the snapshots |
| TeamDraft.DraftCore | backend/bakeoff_runner.py:916-964 | the loop with cursors gives the deck, credits and forfeits of the draft without them, and exactly as many cards as the limit and the distinct trades allow |
| TeamDraft.FilteredInOrder | backend/bakeoff_runner.py:933 | the rotation is the given order's participants that have a list, in that order and as often |
| TeamDraft.PlayIsFair | backend/bakeoff_runner.py:937-964 | no trade twice; each credited card is at its rank in its picker's list, every trade ranked above it taken before |
| TeamDraft.Balance | backend/bakeoff_runner.py:937-964 | at every step any two participants' picks plus forfeits differ by at most one |
| TeamDraft.ForfeitIsFinal | backend/bakeoff_runner.py:937-964 | a participant that forfeits never picks again |
| TeamDraft.LimitedIsPrefix | backend/bakeoff_runner.py:937-964 | of two drafts of the same lists, the deck limited to fewer cards is the first cards of the other, with the same credits |
| TeamDraft.DeckSize | backend/bakeoff_runner.py:940-963 | a draft that filled its cap or took every trade has exactly the limit's share of the distinct trades |
| GroupComposition.ComposeGroup | backend/bakeoff_runner.py:730-840 | the composed group is that of the specification: buckets, quotas, reallocation, backfill, alternation and all accounts |
| GroupComposition.PoolIsPooled | backend/bakeoff_runner.py:730-773 | the pool is the arm's cards of the basis and each bucket the pool's cards of its lane, both in the arm's order |
| GroupComposition.UnlikeInOrder | backend/bakeoff_runner.py:814-819 | the cards left to fill with are those not served, in the arm's order |
| GroupComposition.GroupAccounted | backend/bakeoff_runner.py:771-840 | each served card has one slot; the filled counts are how many cards hold each lane's slots and the fills, the shortfalls what the buckets lack, the reallocated ones what a lane serves beyond its quota, and the lanes split iff some card of the pool is labelled |
| GroupComposition.FillLanes | backend/bakeoff_runner.py:793-812 | each lane serves the front of its own bucket: its quota plus what is left over, in either order of extension |
| GroupComposition.ServesAllLabelled | backend/bakeoff_runner.py:793-812 | with reallocation the lane cards number the labelled supply up to the size; the size is kept iff the value quota fits it or the value lane cannot use the excess |
| GroupComposition.KeepsSize | backend/bakeoff_runner.py:793-819 | with reallocation or without, a group stays within its size iff it has no lane label, the value quota fits it, or the value lane cannot use the excess |
| GroupComposition.OverfullGroup | backend/bakeoff_runner.py:793-812 | a group of one card that serves two, its value quota being two |
| GroupComposition.ReallocationExtends | backend/bakeoff_runner.py:797-812 | reallocation changes no shortfall and gives a lane only what the other could not fill |
| GroupComposition.BackfillServesSize | backend/bakeoff_runner.py:814-819 | with backfill the group serves its size, or its whole pool |
| GroupComposition.ServedOnceEarned | backend/bakeoff_runner.py:821-839 | every served card is served once, ranked by its place, in a slot its own label earned; after reallocation only unlabelled cards fill |
| GroupComposition.PlacesInGroup | backend/bakeoff_runner.py:793-829 | the k-th card served by a lane is the k-th of its own bucket and stands after the other lane's first cards by turns; fills come last |
| GroupComposition.AlternatedAt | backend/bakeoff_runner.py:821-829 | where each card of either lane lands, so neither lane leads by more than one place while both last |
| EventIngest.Prepare | backend/analytics_ingest.py:421-559 | a request before its transaction gives the plan of the specification: rejections, drops, duplicates and rows |
| EventIngest.TooManyWhen | backend/analytics_ingest.py:424-426 | a batch is turned away iff it has more than the allowed number of events |
| EventIngest.RejectedWhen | backend/analytics_ingest.py:254-276 | when an envelope is rejected, and for which reason: the first that applies of its shape, its id and its number |
| EventIngest.SiftedApart | backend/analytics_ingest.py:254-276 | every envelope is rejected or admitted, once, and a rejection names its index and its reason |
| EventIngest.FirstWins | backend/analytics_ingest.py:481-540 | of a batch's envelopes with an id the first not dropped has the row, and every such id has one |
| EventIngest.PlanAddsUp | backend/analytics_ingest.py:421-559 | a plan's counts and rows add up to the batch unless the whole batch was turned away |
| EventIngest.PlanMeans | backend/analytics_ingest.py:428-540 | what each count counts: rejections by envelope, dropped envelopes, and as duplicates the others beyond one for each id; all admitted are dropped when the budget is spent |
| EventIngest.TransactAdds | backend/analytics_ingest.py:565-587 | however stale the first statement's view, the transaction adds exactly the rows not in the table, keeps ids unique, and counts every row |
| EventIngest.SameEventsSameIds | backend/analytics_ingest.py:481-540 | two batches of the same events that drop the same ones admit the same ids |
| EventIngest.PlainWhen | backend/analytics_ingest.py:163 | an id is as the pattern describes, eight to sixty-four letters, digits, underscores and hyphens, iff it is admitted and does not end in a newline |
| EventIngest.NewlineAdmitted | backend/analytics_ingest.py:163 | an id that is admitted with a final newline |
| IngestRuns.ExactlyOnce | backend/analytics_ingest.py:565-603 | over every run an event id has at most one row and at most one side effect; when nothing is cut off or pending, every stored row has had it |
| IngestRuns.AcceptedAreStored | backend/analytics_ingest.py:561-605 | over every run the table gains exactly the rows all answers together claim, those of commits reported as failed, and those of requests that have not answered or, cut short, never will |
| IngestRuns.AnswersAddUp | backend/analytics_ingest.py:561-605 | an answer's counts add up to its events iff the batch was small enough and its transaction did not fail |
| IngestRuns.AnswersTooMany | backend/analytics_ingest.py:424-426 | over every run, so it is of every answer |
| IngestRuns.ResendInsertsNothing | backend/analytics_ingest.py:314-321 | once a batch's insert committed, even if reported as failed, a request with no other ids stores nothing and counts all it admits as duplicates |
| IngestRuns.StepKeeps | backend/analytics_ingest.py:561-605 | every step of overlapping requests keeps the conservation of rows over done, pending and lost effects |
| RateLimit.Limiter.Exceeded | backend/analytics_ingest.py:122-139 | a charge is over the budget iff the hour's count with it exceeds the limit; the table is then cut back by stale entries first, oldest next |
| RateLimit.TrimmedKeeps | backend/analytics_ingest.py:132-138 | cutting back keeps the bound and the kept entries; an entry of this hour goes only when none of another hour is left |
| RateLimit.OldestGo | backend/analytics_ingest.py:132-138 | of this hour's entries, every one kept was inserted after every one that goes |
| RateLimit.NeverEarly | backend/analytics_ingest.py:122-139 | over every run of charges, what is counted for a client was spent, so none is shed early |
| RateLimit.Exact | backend/analytics_ingest.py:122-139 | while the clients fit the table and the clock runs forward, the count is exact |
| Ranks.TieRanks | backend/data_loader.py:460-471 | the nested loops give each value the number of smaller ones plus half the number of other equal ones |
| Ranks.RankTotal | backend/data_loader.py:460-473 | however the values tie, the ranks sum to the same total |
| Ranks.OrderDecides | backend/data_loader.py:457-477 | the correlation depends on the order of each column alone |
| Ranks.AtMostOne | backend/data_loader.py:473-477 | the covariance squared is at most the product of the variance sums |
| Ranks.PerfectAgreement | backend/data_loader.py:457-477 | it is reached with a positive covariance iff the columns vary and rank everything alike |
| Ranks.PerfectOpposition | backend/data_loader.py:457-477 | opposite columns have opposite covariance and equal variances |
| Ranks.NoVariance | backend/data_loader.py:475-477 | the guard against a zero variance fires exactly on a constant column |
| Ranks.Correlated | backend/data_loader.py:472-475 | the covariance and the variances are the same wherever the ranks start |
| Coefficient.RankCorr | backend/data_loader.py:457-477 | the covariance over the root of the variances' product, zero when a column is constant |
| Coefficient.QuotientLaws | backend/data_loader.py:477 | with a true root it lies between minus one and one, is one iff the columns vary and rank everything alike, minus one iff they vary and rank everything the other way round, and zero when a column is constant |
| Coefficient.Spearman | backend/analytics_queries.py:1626-1651 | none iff there are under three pairs or a constant side, else the covariance over the product of the two roots |
| Coefficient.RootOfProduct | backend/analytics_queries.py:1649-1651 | that product is the root of the product, so both correlations obey the same laws |
| ConsensusBlend.Blend | backend/data_loader.py:551-564 | a matched player moves by the weight's share of the way to its place on the pool's curve, not at all at weight zero and all the way at weight one; the others stay; the anchor only lifts, and for positive values within the ceiling the top is the pool's own |
| ConsensusBlend.MixedInRange | backend/data_loader.py:553-557 | mixing stays within the pool's range |
| ConsensusBlend.TotalKept | backend/data_loader.py:553-557 | when every player is matched the total is unchanged |
| ConsensusBlend.DominanceKept | backend/data_loader.py:553-557 | of two matched players, one at least as high in the market and higher in the pool is not blended below the other |
| ConsensusBlend.AgreeingBoard | backend/data_loader.py:553-557 | a board that matches the whole pool and orders it alike changes nothing |
| ConsensusBlend.TopKept | backend/data_loader.py:558-564 | for positive values within the ceiling the anchored top is the pool's own |
| ConsensusBlend.CompressQbs | backend/data_loader.py:296-325 | exactly the quarterbacks above the knee are compressed: up to the ceiling a value goes as far towards the cap as it had gone towards the ceiling, and from the ceiling on to the cap; nobody is when either knob is off or the cap is degenerate |
| ConsensusBlend.CompressionIsStraight | backend/data_loader.py:316-324 | above the knee the values are scaled evenly, the highest value landing on the cap |
| ConsensusBlend.CompressionLaws | backend/data_loader.py:316-324 | never above the cap or the value, unchanged to the knee, order kept, distinct values kept apart up to the ceiling |
| FitFold.AddFitArms | backend/blind_grading.py:152-192 | the fold is that of the specification: credited arms, added cards, dealt places |
| FitFold.Merge | backend/blind_grading.py:160-171 | every new card is credited to the card of its trade or to the trade to be added |
| FitFold.PlacesAreABijection | backend/blind_grading.py:172-188 | the places after the fold are one to the total, each once, and answered cards keep theirs |
| FitFold.TradesStayDistinct | backend/blind_grading.py:153-171 | with distinct names and keys no two cards of the folded session share a trade |
| FitFold.CreditedOnce | backend/blind_grading.py:161-171 | each new card is credited to exactly one card, the one of its trade |
| FitFold.CreditedIs | backend/blind_grading.py:165-171 | crediting keeps what an arm already had, and otherwise takes its first card's provenance |
| FitFold.InvertsExactly | backend/blind_grading.py:153-158 | a name inverts to its partner iff no later partner has it |
| FitFold.InvertsWrong | backend/blind_grading.py:153 | two partners of one name, the first of whom is not found again |
| FoldStore.Session.Fold | backend/database.py:18560-18594 | the fold is written whole, or not at all when the session closed or a moved card was answered; no write ever breaks the position constraint |
| FoldStore.FlippedIsFolded | backend/database.py:18582-18591 | negating first and flipping last gives the intended rows |
| FoldStore.FlipFits | backend/database.py:18590-18591 | rows that end apart stay apart while they are flipped one by one |
| FoldPlan.FoldIsWritten | backend/blind_grading.py:172-197 | the computed fold is a plan the store accepts, and its writes leave exactly the folded session |
| FoldPlan.SecondFold | backend/blind_grading.py:172-197 | of two folds from one read, once the first is written the second is a plan iff every row the first added lies beyond the second's places, and never when it adds as many |
| DeckFilter.FilterDeck | backend/deck_quality.py:83-112 | a card is served as often as it came if it is protected or is no breakup, filler or redundant card, and otherwise never; the counts are the numbers of unprotected breakups, of the other fillers and of the other redundant cards; the served cards come as the repeat cap arranges the kept ones, these in served order |
| DeckFilter.NothingLost | backend/deck_quality.py:83-112 | served plus dropped is the deck; the served cards are those no rule dropped, each as often as it came; protected cards all served |
| DeckFilter.BreakupMeans | backend/deck_quality.py:49-54 | a breakup of known values: some piece given is worth so much that no piece received comes to the ratio of it |
| DeckFilter.FillerMeans | backend/deck_quality.py:57-63 | a filler: some known piece is worth less than the floor, or less than the fraction of another |
| DeckFilter.RedundantMeans | backend/deck_quality.py:66-80 | a redundant card: a side gets a piece of a capped position and known value while at least the cap's number of others of it, each worth the ratio of it or more, stay or come along |
| DeckFilter.SendingFrees | backend/deck_quality.py:66-80 | sending more pieces back never makes a side redundant that was not |
| DeckFilter.UnknownIsHarmless | backend/deck_quality.py:49-80 | a card of unknown values is never dropped, and a breakup needs every value known |
| DeckRepeat.RepeatCap | backend/deck_quality.py:115-130 | the loop gives the arrangement of the specification: head, deferred, tail |
| DeckRepeat.PassSplits | backend/deck_quality.py:115-130 | each card is in one part, in served order; no head card was over the cap of those before it, every deferred one was, and there is a tail only behind a full head |
| DeckRepeat.PassKeepsCards | backend/deck_quality.py:115-130 | the capped deck is a permutation of the deck |
| DeckRepeat.CapHolds | backend/deck_quality.py:115-130 | of trades that list no asset twice: no asset is in more than the cap's number of the first cards served, iff the head is full or no card is over the cap, and no protected card that comes before the head is full repeats an asset too often |
| DeckRepeat.CapHoldsGiven | backend/deck_quality.py:115-130 | when no card is over the cap the first cards served are the first given, and the cap holds of them iff no protected one repeats an asset too often |
| DeckRepeat.CapHoldsFor | backend/deck_quality.py:115-130 | so it is of any asset no protected card lists, when the head is full or no card is over the cap |
| DeckRepeat.CopiesServed | backend/deck_quality.py:115-130 | a deck of four copies of one trade, all served first |
| DeckRepeat.WhoHoldsPlace | backend/deck_quality.py:115-130 | a card is served at its own place iff neither it nor a card before it is over the cap of all cards before, or each card from it on finds the head full or is over the head's cap |
| DeckRepeat.ProtectedHoldsPlace | backend/deck_quality.py:115-130 | a protected card within the window holds its place iff no card before it is over the cap of the cards before that one; a later one iff the head is full before it |
| DeckRepeat.ProtectedMayMove | backend/deck_quality.py:115-130 | a protected card behind four copies of a trade is served one place earlier than it came |

## Left out

- The trade generators and the value core, deck serving and the HTTP routes: they are not among the modelled parts.
- Eligibility of positions is a parameter of the matching and of the slot list; the sorted order of candidates, of values and of the market board are parameters with the property that sorting gives.
- SQL, transactions and threads are atomic steps; a store is an ordered map or a sequence of rows. Insert and commit are one step, because the unique index keeps the inserted ids from others in between.
- Hashing and JSON text are an injective digest and a size that is larger than any member's; compression and the packed evidence cards (`redact_packed_card`, `redact_valuation`) are not modelled.
- The normalisation of non-JSON values before compaction is not modelled; objects are taken in key order, so that equal trees are equal texts.
- The scrub runners are steps of a state machine, not objects, because their writes interleave. One job row is modelled; the page budget may run out at any page end; a sweep or a chunk of a page is one step at its commit; a row handed to the redactor counts as handed whether or not the page's mention filter selects it, except where a match id alone selects it; every scan is keyset by one key.
- CapturedIds.RecordedPassCovers: leaves out a row that only the id of a raced match finds, because the code hands it over only if the run that gets to its page holds that id.
- The escalation of an old job and the counts of a tick write or report beside the modelled columns.
- DeletionScrub.OneHolder: assumes that no lease stamp was written twice, because two runners whose clocks read the same microsecond would write the same stamp; coverage needs no such assumption.
- ProviderCapture.MflSlots: starts after the branch for a league with separate offensive and defensive counts, which hands on the first templates of two families; `choose`, `max_positions` and the assignment it calls are not modelled.
- `group_draft`'s attribution, `_agreement`, `restore_order` and the seeds of the draft order: bookkeeping around the modelled draft.
- The feature flag and the byte-size checks of event ingest, health counters, and the content of a row beyond its id; sanitizing is a parameter of a batch.
- The square root is a parameter of the two correlations, and their arithmetic is exact.
- ConsensusBlend.Blend: exact reals without the final rounding; the health gate that decides whether to blend, the tight-end uplift and the Elo maps are not modelled.
- The session's counts and source columns, and the rows' other columns, are not modelled in the fold's writes.
- FitFold.AddFitArms: new ids and the shuffle are parameters, any ids that are new and any arrangement.
- The caps of the quality filter's positions (`position_caps`) and the native caps in their place are a parameter.
- The report figures other than the rank correlation, the account deletion matrix and the event taxonomy: long lists of easy cases.
