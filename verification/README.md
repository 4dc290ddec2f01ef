# Verification of the accounting core

A Dafny model of the parts of the repository that decide what is posted, when, and whether the books agree. Amounts
are integer cents, instants integer milliseconds, JavaScript strings sequences of UTF-16 units.

| file | what it models |
|---|---|
| `Sums.dfy` | optional values and finite sums |
| `PostingDsl.dfy` | the posting engine's evaluator: conditions, FIRST_MATCH, basis-point allocation, blueprint generation and check |
| `Conditions.dfy` | the condition language and its normal form |
| `RulePacks.dfy` | all 34 CE-12 rule packs (deal accounting, F&I reserve, floorplan), blank and with fixture accounts |
| `Ledger.dfy` | event submission, gl-service's journal and what it tells schedule-service |
| `CoaPosting.dfy` | coa-service's posting service behind manual journals, with its own schedule bridge |
| `FixturePacks.dfy` | an independent posting table and the proof that the packs produce it |
| `LedgerRuns.dfy` | closed forms of the accounts over whole runs |
| `PackProperties.dfy` | rule order, the fixture mapping, blank packs |
| `OpenItems.dfy`, `OpenItemSteps.dfy` | schedule-service's open items, and what a line does to each of them |
| `OrderlyRelief.dfy`, `UntouchedItems.dfy` | what lines relieve or lower them |
| `ScheduleRuns.dfy`, `FloorplanUnits.dfy` | packs, gl-service and open items end to end, for every schedule |
| `Outbox.dfy` | the transactional outbox: progress, fairness, overlapping polls |
| `Json.dfy`, `JsonText.dfy` | order-insensitive equality, canonical text, the strict parser |
| `JsonGrammar.dfy`, `CanonicalText.dfy` | the grammar of JSON text (RFC 8259, sections 2 to 7), the parser and the canonical text against it |
| `Seeding.dfy`, `Retry.dfy` | the seed scripts against a rule store, with crashes and re-runs |
| `Provisioning.dfy`, `FiscalCalendar.dfy` | the steps around the seeding, and the fiscal period they open |
| `SubmitProtocol.dfy` | concurrent submission and replay of one event |
| `Chargeback.dfy` | the chargeback reserve and its executor |
| `BatchPosting.dfy`, `GlReports.dfy` | gl-service's post-all action and its aggregates |
| `Census.dfy`, `EventStream.dfy`, `ActiveModule.dfy` | the brace scanner, the event-stream reader, the navigation lookup |

State that the source changes step by step is modelled by classes (`GlService`, `PostingService`, `OpenItemService`,
`OutboxProcessor`, `RuleStore`, `JournalService`) and by methods with loops, each proved equal to a function about
which the lemmas speak. Runs with crashes and concurrency are sequences of actions.

## Where the code and its documentation differ

The model follows the code; each point below is a lemma.

- The engine does not post through coa-service's posting service, whose bridge keys on control numbers; it hands its lines
  to gl-service, which tells schedule-service of every line of a scheduled account, keyed or not
  (`ToldTiesOutWithTheLedger`). Only manual journals pass the other bridge (`SubLedgerMissesExactlyUnkeyedLines`).
- On that route a pack's control paths have no effect (`ControlPathsAreUnusedOnTheEngineRoute`): the control number is the
  payload's document, and the item number the source entity cut to eight characters (`OpeningAndReliefMeet`).
- What is wider than schedule-service's columns is dead-lettered, and nothing else is missing from the details
  (`DetailsMissExactlyWhatIsDeadLettered`). The memos of the chargeback-reserve and deferral packs are always too wide,
  so schedules 95 and 96 never hold anything (`ChargebackAndDeferralSchedulesStayEmpty`).
- Liability schedules are meant to be relieved by debits. Amounts are stored as magnitudes and negated on application, so
  no debit lowers an item unless a credit application lowered it before (`DebitIsTakenExactlyWithinEarlierCredits`). They
  tie out throughout exactly on runs that only open (`LiabilitySchedulesTieOutThroughoutExactlyWithOnlyOpenings`);
  for floorplan notes, exactly without payoff, curtailment and write-off of a unit (`FloorplanNotesTieOutThroughoutExactly`).
- Schedule 94 receives an item exactly from a product line without a deal number (`ProductRemitScheduleStaysEmptyExactly`).
- The blueprint check lets a negative share through: exactly when rounding gives the other shares of a side more than the
  last one has (`NegativeLineExactlyWhenAGroupOvershoots`), never with three allocations or fewer
  (`OvershootNeedsManyAllocationsAndASmallOne`), and for example with two cents over four quarters
  (`QuartersOfTwoCentsAreAccepted`). gl-service then refuses the entry (`NegativeBlueprintsAreRefused`).
- The outbox limit of ten retries is exceeded when polls overlap (`OverlapReachesTheBound`).
- The vehicle script is called repeatable; it is not after a crash inside a pack. Its and the floorplan script's lookup
  omit the entity that the route requires, so against this server the floorplan script never completes
  (`CrashRestartConverges`, `CompletesExactlyWhenRestartable`, with that requirement as a parameter).
- Seeding a newer version supersedes the older one, and no script then gets through a list that names the older one
  (`SupersededIsNeverSeeded`).
- The number of deal packs is documented as 17; the code builds 18.
- A done event hides later text only within its own chunk (`ChunkingIsInvisibleExactlyWithoutLateText`), and an error
  message is always overwritten at the end (`Generate`).
- A failed draw leg is still recorded, and a crash before recording draws twice; the ledger's reserve then goes below zero
  even when executions do not overlap (`LiabilityTiesOutThroughoutExactly`, `RetryAfterCrashPostsTwice`).
- A replay uses another idempotency key than the submission. It is refused for a posted event only, but can post a second
  journal whenever one exists or a caller is on its way to one (`ReplayIsSafeExactlyWhenQuiet`).
- Resubmission is meant to be reported as a duplicate; a caller whose evaluation ends an event after another one's did is
  answered as if the event were new (`LateSettlerIsToldItIsNew`, against `ExactlyOneIsToldItIsNew`).
- The auto-post job approves drafts, which is always refused (`AutoPostJobPostsNothing`).

## Model

| member | source | states |
|---|---|---|
| `Conditions.NormalKeepsTheMeaning` | services/coa-service/src/domain/posting-engine/conditions.ts:25-92 | Every condition has a negation normal form over equality and presence that holds of the same payloads: De Morgan, membership as a choice of equalities, the tests for null by equality with null |
| `PostingDsl.SelectedRuleIsLeast` | services/coa-service/src/domain/posting-engine/blueprint.ts:43-51 | FIRST_MATCH: no rule is selected exactly when none applies; a selected rule applies and has the least priority of those that do |
| `PostingDsl.SelectionIgnoresOrderExactlyWhenLeastIsUnique` | services/coa-service/src/domain/posting-engine/blueprint.ts:44-51 | Selection is the same for every listing order of the rules exactly when no two different applicable rules share the least priority |
| `PostingDsl.SharesSumToTotal` | services/coa-service/src/domain/posting-engine/blueprint.ts:75-85 | Allocation by basis points loses no cent, whatever the weights; every share but the last is rounded on its own |
| `PostingDsl.LastShareIsNearExact` | services/coa-service/src/domain/posting-engine/blueprint.ts:75-85 | The share that absorbs the remainder is within (n-1) half cents of its exact value |
| `PostingDsl.AllocateCents` | services/coa-service/src/domain/posting-engine/blueprint.ts:76-85 | The loop produces those shares and they sum to the total |
| `PostingDsl.GeneratedBlueprintBalances` | services/coa-service/src/domain/posting-engine/blueprint.ts:134-183 | Debits equal credits and both equal the sum of the base amounts, for every validated rule and event |
| `PostingDsl.GeneratedExactlyWhenAllBasesArePositive` | services/coa-service/src/domain/posting-engine/blueprint.ts:60-73 | A blueprint is generated exactly when every group has a positive base amount; one bad group rejects the event |
| `PostingDsl.FirstBadBaseDecides` | services/coa-service/src/domain/posting-engine/blueprint.ts:60-73 | The first group whose base amount is missing, no number or not positive decides the error, and every group before it has a positive one |
| `PostingDsl.LinesFollowTheAllocations` | services/coa-service/src/domain/posting-engine/blueprint.ts:131-183 | One line per allocation, debits first, with the account, store and department of its allocation, the texts its paths lead to, and an amount on its own side only |
| `PostingDsl.MemoIsItsParts` | services/coa-service/src/domain/posting-engine/blueprint.ts:189-195 | A memo is as long as its own text and the texts of its holes together; a hole without a value adds nothing |
| `PostingDsl.VerifyBlueprint` | services/coa-service/src/domain/posting-engine/blueprint.ts:209-236 | The defensive check reports each of its violations exactly when it is there, and nothing exactly on an accepted blueprint |
| `PostingDsl.DefensiveCheckFailsExactlyOnZeroLines` | services/coa-service/src/domain/posting-engine/blueprint.ts:209-236 | On generated lines the check can only fail because of a line of zero cents, never because of imbalance |
| `PostingDsl.ShareIsNegativeExactlyWhenTheOthersOvershoot` | services/coa-service/src/domain/posting-engine/blueprint.ts:76-85 | For validated weights and a positive total a share is negative exactly when rounding gives the other shares more than the last one is worth, and it is the last |
| `PostingDsl.OvershootNeedsManyAllocationsAndASmallOne` | services/coa-service/src/domain/posting-engine/blueprint.ts:76-85 | With n validated allocations that takes a last one worth at most n-3 half cents: never with three allocations or fewer |
| `PostingDsl.NegativeLineExactlyWhenAGroupOvershoots` | services/coa-service/src/domain/posting-engine/blueprint.ts:209-236 | A validated rule and an event give a blueprint with a negative line exactly when one side of a group overshoots |
| `PostingDsl.QuartersOfTwoCentsAreAccepted` | services/coa-service/src/domain/posting-engine/blueprint.ts:76-236 | A validated group and an event of two cents whose generated blueprint passes the check with a negative line |
| `Ledger.NegativeBlueprintsAreRefused` | services/gl-service/src/http/routes.ts:104-105 | Such a blueprint is refused by gl-service, whatever the chart |
| `RulePacks.BuildDeltaRules` | services/deal-accounting-service/scripts/seed-ce12-rule-packs.ts:447-483 | The nested loops build one rule per role and direction with priorities counting from 10, and the fallback |
| `RulePacks.DeltaRulesAreExclusive` | services/deal-accounting-service/scripts/seed-ce12-rule-packs.ts:447-483 | No payload satisfies two of the fifteen recontract rules |
| `PackProperties.PacksAreExclusive` | services/deal-accounting-service/scripts/seed-ce12-rule-packs.ts:357-521 | In every pack, blank or fixture, no payload satisfies two rules |
| `PackProperties.RuleOrderDoesNotMatter` | services/deal-accounting-service/scripts/seed-ce12-rule-packs.ts:357-521 | Every pack selects the same rule under any permutation of its rules |
| `PackProperties.FixturesPreserveMeaning` | services/fni-reserve-service/scripts/seed-ce12-rule-packs.ts:253-282 | Evaluating a pack after the fixture mapping selects the same rule, raises the same error, or yields the same lines with only account, store and department renamed |
| `PackProperties.BlankPacksNeverPost` | services/deal-accounting-service/scripts/seed-ce12-rule-packs.ts:574-578 | Packs with pending accounts leave the journal empty on every run over every chart |
| `FixturePacks.PackPosts` | services/fni-reserve-service/scripts/ce12-rule-pack-definitions.ts:139-308 | For all 34 event types and every payload the evaluator posts exactly the rows of an independent table (accounts, control and apply fields, amounts) |
| `FixturePacks.ReadyOutcome` | services/coa-service/src/application/posting-engine-service.ts:518-660 | A pack with real accounts posts exactly when a rule applies, all its base amounts are positive and no text is too long for gl-service |
| `Ledger.ChecksInOrder` | services/coa-service/src/application/posting-engine-service.ts:420-660 | The checks on an event whose rule gives a blueprint, in order and in terms of event and lines alone: ids, the blueprint's own rules, known accounts, gl-service's request schema with the control number that some accounts demand; posted exactly when all pass |
| `LedgerRuns.EventOutcome` | services/coa-service/src/application/posting-engine-service.ts:518-660 | Unmatched exactly when nothing is requested, rejected for an amount exactly when one is not positive, refused for a text too long, otherwise posted with its memo; the control number is the payload's source document, without one its invoice number, without both empty |
| `Ledger.RunBalances` | services/gl-service/src/application/gl-service.ts:732-790 | After every run over every pack and chart, debits equal credits and the balances of the chart sum to zero |
| `Ledger.GlService.SubmitEvent` | services/coa-service/src/application/posting-engine-service.ts:518-660 | A posted event leaves one entry in gl-service awaiting review, as the evaluator makes it; any other changes nothing |
| `Ledger.EntriesCarryTheirDocument` | services/coa-service/src/application/posting-engine-service.ts:211-214 | Every posted entry carries the payload's source document as control number, whatever the invoice number, without one the invoice number, without both nothing; its reference is the first eight characters of the source entity |
| `Ledger.GlService.Approve` | services/gl-service/src/application/gl-service.ts:681-790 | Approval, in any order, moves one pending entry to the journal with its balances and schedule events; what was told still ties out with every scheduled account |
| `Ledger.GlService.PostLines` | services/gl-service/src/application/gl-service.ts:732-790 | The line loop moves the balance of each account by its net and tells schedule-service of exactly the lines of scheduled accounts |
| `CoaPosting.Evaluate` | services/coa-service/src/domain/journal-posting.ts:116-232 | The evaluator's loop reports every violation of a journal and no other, and none exactly of a journal with lines, equal totals, one positive side per line, known accounts, a store on every line and a department on every revenue or expense line |
| `CoaPosting.PostingService.Post` | services/coa-service/src/application/posting-service.ts:114-320 | A manual journal that breaks a rule is refused as a whole; any other is written, asset and expense accounts grow by debits less credits, liability, equity and revenue accounts by credits less debits, and journal, balances and bridge details stay consistent |
| `CoaPosting.PostingService.WriteLines` | services/coa-service/src/application/posting-service.ts:214-299 | The line loop writes the bridge details and the per-account totals of the entry |
| `CoaPosting.PostingService.UpdateBalances` | services/coa-service/src/application/posting-service.ts:301-312 | Each touched account moves once by its net: asset and expense accounts by debits less credits, the others by credits less debits |
| `Ledger.RunEvents` | services/coa-service/src/application/posting-engine-service.ts:600-660 | Submitting events and approving their entries yields the journal and the schedule events of the run |
| `Ledger.ToldTiesOutWithTheLedger` | services/gl-service/src/application/gl-service.ts:755-787 | On every run over every pack and chart the events of each scheduled account add up to its ledger balance |
| `CoaPosting.TrialBalanceIsZero` | services/coa-service/src/domain/journal-posting.ts:235-243 | In every valid ledger the stored balances of assets and expenses add up to those of liabilities, equity and revenue |
| `CoaPosting.SubLedgerMissesExactlyUnkeyedLines` | services/coa-service/src/application/posting-service.ts:244-278 | For manual journals, general ledger minus bridged details of an account is exactly what was posted without a control number |
| `CoaPosting.OpeningAndReliefMeet` | services/coa-service/src/application/posting-service.ts:244-278 | Two bridged lines under one key name the same item exactly when the key has at most ten characters and no white space around it |
| `Ledger.ControlPathsAreUnusedOnTheEngineRoute` | services/coa-service/src/application/posting-engine-service.ts:640-644 | What schedule-service is told is the same for a pack with and without its control paths |
| `LedgerRuns.TradeInClearing` | services/deal-accounting-service/scripts/seed-ce12-rule-packs.ts:390-405 | Trade-in clearing after any run: allowances minus ACVs plus payoffs |
| `LedgerRuns.WholesaleClearing` | services/deal-accounting-service/scripts/seed-ce12-rule-packs.ts:503-521 | Wholesale clearing after any run: disposition margins minus price increases plus decreases minus condition costs |
| `LedgerRuns.DealReceivableClearingAccount` | services/deal-accounting-service/scripts/seed-ce12-rule-packs.ts:357-501 | Closed form of deal-receivable clearing after any run of all event types |
| `LedgerRuns.RecontractSuspense` | services/deal-accounting-service/scripts/seed-ce12-rule-packs.ts:447-483 | Recontract suspense after any run: increases minus decreases; the fallback nets to zero |
| `LedgerRuns.RecontractIsOppositeOnClearing` | services/deal-accounting-service/scripts/seed-ce12-rule-packs.ts:447-483 | The recontract deltas of a run move deal-receivable clearing by exactly the opposite |
| `LedgerRuns.ReserveReceivableAccount` | services/fni-reserve-service/scripts/ce12-rule-pack-definitions.ts:139-195 | Reserve receivable after any run across the deal and reserve services |
| `LedgerRuns.ProductRemitAccount` | services/fni-reserve-service/scripts/ce12-rule-pack-definitions.ts:221-260 | Product remit liability after any run across the two services |
| `LedgerRuns.ChargebackReserveAccount` | services/fni-reserve-service/scripts/ce12-rule-pack-definitions.ts:157-220 | Chargeback reserve after any run: draws minus accruals |
| `LedgerRuns.DeferredIncomeAccount` | services/fni-reserve-service/scripts/ce12-rule-pack-definitions.ts:275-308 | Deferred income after any run |
| `LedgerRuns.FloorplanNotesAccount` | services/floorplan-service/scripts/seed-ce12-rule-packs.ts:215-353 | Floorplan notes payable after any run |
| `ScheduleRuns.EventTells` | services/gl-service/src/application/gl-service.ts:755-787 | For every event schedule-service is told exactly the scheduled legs of the posted rows, with the document of the payload as control number, the cut source entity as reference, and the memo's length |
| `ScheduleRuns.DetailsMissExactlyWhatIsDeadLettered` | services/schedule-service/src/infrastructure/event-publisher.ts:61-92 | On every run the details of every scheduled account miss exactly what was dead-lettered from its ledger balance |
| `ScheduleRuns.AssetSchedulesTieOutExactlyWhenRelieved` | services/schedule-service/src/application/open-item-service.ts:91-270 | On every run the items of each of the five asset accounts are never below the delivered part of its ledger balance, and equal to it exactly when no credit opened an item and every relief was taken in full |
| `ScheduleRuns.OrderlyRunsTieOut` | services/schedule-service/src/application/open-item-service.ts:91-270 | If each number is opened once, by a debit, relieved in order and within what is left, and all texts fit, the items equal the ledger balance |
| `OrderlyRelief.OrderlyLinesAreAllRelieved` | services/schedule-service/src/application/open-item-service.ts:203-270 | On such lines every relief finds its item with enough balance |
| `ScheduleRuns.OpeningAndReliefMeet` | services/coa-service/src/application/posting-engine-service.ts:211-214 | A relief of a key reaches the item that its source entity opened exactly when both events carry the same document and the key has at most eight characters and no white space around it |
| `ScheduleRuns.LiabilitySchedulesTieOutThroughoutExactlyWithOnlyOpenings` | services/schedule-service/src/application/open-item-service.ts:131-203 | On every run the items of each of the six liability accounts exceed the delivered credit balance by the accumulated excess; they tie out at every point exactly when no delivered line is a relief, a write-off or another debit |
| `ScheduleRuns.LiabilityItemsAreUntouchedExactlyWhenNoneLowers` | services/schedule-service/src/application/open-item-service.ts:131-203 | On every run the items of a schedule keep their original amounts exactly when no credit application reaches one, that is, when no delivered credit names a number that exactly one line before it opened, within its amount |
| `FloorplanUnits.NotesAreUntouchedExactlyWhenNoUnitIsWrittenDown` | services/floorplan-service/scripts/seed-ce12-rule-packs.ts:215-353 | The items of floorplan notes keep their original amounts exactly when no write-off is posted and delivered for a unit that exactly one event before it opened under the same document, for no more than that event |
| `UntouchedItems.UntouchedExactlyWhenNoneWritesDown` | services/schedule-service/src/application/open-item-service.ts:203-270 | The condition on the posted lines alone, for any schedule without sweeps |
| `ScheduleRuns.FloorplanNotesTieOutThroughoutExactly` | services/floorplan-service/scripts/seed-ce12-rule-packs.ts:215-353 | The items of floorplan notes tie out at every point exactly when no payoff, no curtailment and no write-off of a named unit is posted and delivered |
| `ScheduleRuns.ProductRemitScheduleStaysEmptyExactly` | services/deal-accounting-service/scripts/seed-ce12-rule-packs.ts:432-440 | Schedule 94 stays without items exactly when no product line without a deal number is posted and delivered |
| `ScheduleRuns.ChargebackAndDeferralSchedulesStayEmpty` | services/schedule-service/prisma/schema.prisma:51-79 | Schedules 95 and 96 have no item and no detail on any run: the memos of their packs are too long |
| `OpenItems.AppliedExactlyWithinBounds` | services/schedule-service/src/domain/open-item.ts:50-64 | An application is taken exactly when it leaves the balance between zero and the original amount, of either sign |
| `OpenItems.SweepFifo` | services/schedule-service/src/domain/open-item.ts:109-134 | No item beyond its balance, no cent lost, and oldest first by date, then by creation: an item receives a portion only if every older candidate is brought to zero |
| `OpenItems.PortionsConserve` | services/schedule-service/src/domain/open-item.ts:109-134 | The sweep takes the whole amount or the whole capacity, whichever is smaller |
| `OpenItems.SweepOrderIsByAge` | services/schedule-service/src/domain/open-item.ts:109-115 | The queue is a permutation of the candidates, ascending in date and, on the same date, in creation |
| `OpenItems.SweepIsOldestFirst` | services/schedule-service/src/domain/open-item.ts:109-134 | For every set of candidates and every amount the whole sweep is oldest first in that sense |
| `OpenItems.OpenItemService.ProcessPostingEvent` | services/schedule-service/src/application/open-item-service.ts:91-270 | One posted line: recorded once, and opened, applied or swept; the new state and the outcome in full |
| `OpenItemSteps.LinesAreRecordedOnce` | services/schedule-service/src/application/open-item-service.ts:91-152 | A line is recorded exactly when its schedule is known, no earlier line has its correlation and its texts fit the columns; otherwise it changes nothing |
| `OpenItemSteps.RefusalsAreTold` | services/schedule-service/src/application/open-item-service.ts:91-130 | And the answer tells the first reason |
| `OpenItemSteps.OpeningAddsAnItem` | services/schedule-service/src/application/open-item-service.ts:161-195 | An opening line adds one item, open with the whole magnitude, under the trimmed reference or, if that is blank, under the entry |
| `OpenItemSteps.TrimCutsTheSpaces` | services/schedule-service/src/application/open-item-service.ts:163 | Trimming cuts all white space from both ends and nothing else |
| `OpenItemSteps.ApplicationChangesTheTarget` | services/schedule-service/src/application/open-item-service.ts:203-270 | An application changes at most the only open item of its number, schedule and control number, exactly when the amount keeps it between zero and its original amount, with the status to match; every other item stays |
| `OpenItemSteps.ApplicationWithoutTargetChangesNothing` | services/schedule-service/src/application/open-item-service.ts:215-232 | Without such an item, or with several, no item changes |
| `OpenItemSteps.ApplicationIsTold` | services/schedule-service/src/application/open-item-service.ts:203-270 | An application is told as such exactly when it has such an item within bounds |
| `OpenItemSteps.SweepLowersOldestFirst` | services/schedule-service/src/application/open-item-service.ts:433-515 | An on-account line lowers open items of its schedule and control number only, one of them only if every older one is brought to zero; all else about every item stays |
| `OpenItemSteps.SweepTakesTheCredit` | services/schedule-service/src/application/open-item-service.ts:433-515 | It takes the whole credit, or all that is open and leaves a receipt for exactly the rest; a debit takes nothing |
| `OpenItemSteps.SweepIsTold` | services/schedule-service/src/application/open-item-service.ts:433-515 | It is told as routed to unapplied credit exactly when it leaves a receipt and changes no item |
| `OpenItems.StepDrift` | services/schedule-service/src/application/open-item-service.ts:91-270 | Every step keeps items sound and moves items minus details by exactly its drift |
| `OpenItems.VarianceIsAccumulatedDrift` | services/schedule-service/src/application/open-item-service.ts:91-270 | On every run items minus details is the accumulated drift |
| `OpenItems.RedeliveryIsAbsorbed` | services/schedule-service/src/application/open-item-service.ts:100-109 | A line delivered again, however much later, changes nothing |
| `OpenItems.AssetItemsTieOutExactlyWhenRelieved` | services/schedule-service/src/application/open-item-service.ts:91-270 | On an asset schedule items tie out with details exactly when every relief found its item and enough balance |
| `OpenItems.LiabilityItemsAreNeverRelieved` | services/schedule-service/src/application/open-item-service.ts:131-203 | On lines without credit applications no debit relieves a liability item: items exceed the credit balance by all debits |
| `OpenItems.ExcessIsAccumulated` | services/schedule-service/src/application/open-item-service.ts:91-270 | On every run with whatever lines, liability items exceed the credit balance by the sum of what the lines add |
| `OpenItems.DebitIsTakenExactlyWithinEarlierCredits` | services/schedule-service/src/application/open-item-service.ts:203-270 | An application debit is taken exactly when it is for one open item and within what earlier applications have lowered it by |
| `OpenItems.TiesThroughoutExactlyWithOnlyOpenings` | services/schedule-service/src/application/open-item-service.ts:91-270 | A liability schedule ties out at every point of a run exactly when the run records nothing on it but opening credits |
| `OpenItems.UntouchedExactlyWhenNoneLowers` | services/schedule-service/src/application/open-item-service.ts:203-270 | Without sweeps items keep their original amounts exactly when no credit application reaches one |
| `OpenItems.CreditApplicationGoesTheOtherWay` | services/schedule-service/src/application/open-item-service.ts:203-270 | A credit applied to a liability item lowers the item while the liability grows |
| `Outbox.OutboxProcessor.ProcessNextBatch` | packages/shared-kernel/src/outbox/index.ts:25-48 | One poll attempts the fetched records in order up to a failed retry write; the result is the number of records accepted and marked, which is how many became published |
| `Outbox.WhatAPollDoes` | packages/shared-kernel/src/outbox/index.ts:25-48 | Record by record: published afterwards exactly when published before, or handled, accepted and marked; one retry more exactly when refused, or accepted and not marked; one delivery more exactly when accepted |
| `Outbox.FetchedAreLive` | services/schedule-service/src/index.ts:115-120 | At most fifty live records, oldest first; none passed over unless the batch is full of older ones |
| `Outbox.PollKeepsFinishedRecords` | services/schedule-service/src/index.ts:115-141 | A published or exhausted record is never fetched or changed; retries grow by at most one and stay within ten |
| `Outbox.PollMakesProgressExactly` | packages/shared-kernel/src/outbox/index.ts:25-48 | A poll makes progress exactly when it fetches something and the first retry write does not fail |
| `Outbox.AttemptedOnceOlderWorkIsCovered` | services/schedule-service/src/index.ts:115-141 | A live record is attempted once fifty times the polls exceed what older records can still cost, new arrivals included |
| `Outbox.AttemptedWithinTheBound` | services/schedule-service/src/index.ts:115-141 | With k older live records, floor(10k/50)+1 polls suffice |
| `Outbox.EverythingSettles` | services/schedule-service/src/index.ts:115-141 | While the store is up every record ends published or out of retries |
| `Outbox.RetriesWithOverlappingPolls` | packages/shared-kernel/src/outbox/index.ts:55-61 | With P batches in flight no record is retried more than 9+P times |
| `Outbox.OverlapReachesTheBound` | packages/shared-kernel/src/outbox/index.ts:55-61 | That bound is reached: overlapping polls go past the limit of ten |
| `Outbox.UninterruptedBatchIsAPoll` | packages/shared-kernel/src/outbox/index.ts:25-61 | Among overlapping polls, a batch that no other one interrupts does what a poll alone does |
| `Json.DeepEqualIsCanonEquality` | services/vehicle-accounting-service/scripts/seed-ce12-rule-packs.ts:231-251 | deepEqualIgnoringKeyOrder holds exactly when the key-sorted canonical forms are equal |
| `Json.DeepEqualIsAnEquivalence` | services/vehicle-accounting-service/scripts/seed-ce12-rule-packs.ts:231-251 | It is reflexive, symmetric and transitive |
| `Json.KeyOrderIsInvisible` | services/vehicle-accounting-service/scripts/seed-ce12-rule-packs.ts:242-247 | Permuting the keys of an object changes nothing |
| `JsonText.ParseUndoesStringify` | services/coa-service/src/domain/posting-engine/strict-json.ts:18-206 | The strict parser undoes the canonical text, up to key order and keys an assignment does not store |
| `JsonText.RoundTripsExactlyWithoutProto` | services/coa-service/src/domain/posting-engine/strict-json.ts:18-206 | The round trip is exact exactly when no object has a key named __proto__ |
| `JsonText.CanonicalTextDecidesEquality` | services/coa-service/src/domain/posting-engine/strict-json.ts:186-206 | Two values print the same canonical text exactly when they are deeply equal |
| `JsonText.StringRoundTrip` | services/coa-service/src/domain/posting-engine/strict-json.ts:18-206 | Every string of UTF-16 units reads back, surrogates and control characters included |
| `JsonGrammar.ParsesExactlyWhatTheGrammarDerives` | services/coa-service/src/domain/posting-engine/strict-json.ts:18-170 | Against an independent grammar of JSON text as syntax trees: a text parses to a value exactly when a tree with no key twice in one object shows the text and means the value |
| `JsonGrammar.TreeParses` | services/coa-service/src/domain/posting-engine/strict-json.ts:18-170 | Every text of the grammar parses to what its tree means, or not at all if an object in it has a key twice |
| `JsonGrammar.BlanksDoNotMatter` | services/coa-service/src/domain/posting-engine/strict-json.ts:41-43 | Blanks between tokens, anywhere and of any kind, never change what a text parses to |
| `JsonGrammar.RejectedExactlyForDuplicateKeys` | services/coa-service/src/domain/posting-engine/strict-json.ts:66-91 | A text of the grammar is rejected exactly when some object in it, at whatever depth, has two members with the same key |
| `CanonicalText.CanonicalTextHasTheCanonicalForm` | services/coa-service/src/domain/posting-engine/strict-json.ts:186-206 | The canonical text is the text of a tree without blanks, with strictly ascending keys in every object, and with each unit of a string escaped only if it must be and in the standard's way; the tree means the value |
| `CanonicalText.EscapedInForm` | services/coa-service/src/domain/posting-engine/strict-json.ts:196-206 | Of every string: short escapes where there is one, four lower-case digits for other control characters and lone surrogates, everything else as it is |
| `Seeding.RuleStore.CreateRulePackVersion` | services/coa-service/src/application/posting-engine-service.ts:248-315 | A second version with the same key and semver is refused; otherwise a draft is stored |
| `Seeding.RuleStore.ValidateVersion` | services/coa-service/src/application/posting-engine-service.ts:318-349 | Only a draft that passes becomes validated |
| `Seeding.RuleStore.ActivateVersion` | services/coa-service/src/application/posting-engine-service.ts:351-405 | Only a validated version, never by its author; what was active is superseded |
| `Seeding.ActivateKeepsTheRules` | services/coa-service/src/application/posting-engine-service.ts:351-405 | At most one active version per pack and no self-activation, whatever callers do |
| `Seeding.RuleStore.AuthorValidateActivate` | services/floorplan-service/scripts/seed-ce12-rule-packs.ts:419-466 | The restartable script, cut off after any number of calls |
| `Seeding.RuleStore.SeedAll` | services/floorplan-service/scripts/seed-ce12-rule-packs.ts:536-543 | All packs in order, up to the first that does not complete |
| `Seeding.CutRunsOnlyMakeProgress` | services/floorplan-service/scripts/seed-ce12-rule-packs.ts:419-466 | From any sound store, whatever the script and the cuts: the store keeps its rules, no version goes away, other packs stay as they were, and every pack can be resumed, to the same end, exactly when it could before |
| `Seeding.FullRunCompletesExactly` | services/floorplan-service/scripts/seed-ce12-rule-packs.ts:419-466 | From any sound store a full run completes exactly when the script can get through every pack as the store stands: lookup, content, status and author decide |
| `Seeding.CrashRestartConverges` | services/floorplan-service/scripts/seed-ce12-rule-packs.ts:419-466 | From any sound store and after any cut runs, one full run of the floorplan script completes exactly when the lookup needs no entity and every pack could be resumed at the start; it leaves what an uncut run leaves, every pack active once, and further runs change nothing |
| `Seeding.SupersededIsNeverSeeded` | services/coa-service/src/application/posting-engine-service.ts:351-405 | After another version of a pack was seeded, no script gets through the superseded one again |
| `Seeding.CompletesExactlyWhenRestartable` | services/vehicle-accounting-service/scripts/seed-ce12-rule-packs.ts:253-313 | Which scripts survive a crash that left n steps: floorplan always (if the lookup works), vehicle only between packs, deal and reserve only from an empty store |
| `Seeding.NewPackSteps` | services/floorplan-service/scripts/seed-ce12-rule-packs.ts:446-463 | Creating, validating and activating a new pack, cut off after any number of calls, leaves exactly that many steps |
| `Provisioning.CompletesExactlyWhenFeasible` | services/floorplan-service/scripts/seed-ce12-rule-packs.ts:376-534 | A full provisioning run completes exactly when the SYSTEM source exists, every linked account exists or is created first, and the fiscal steps succeed in turn; it then reaches what they ask for |
| `Provisioning.ProvisioningConverges` | services/floorplan-service/scripts/seed-ce12-rule-packs.ts:473-534 | After any interrupted runs one full run reaches what a single run reaches |
| `Provisioning.FurtherRunIsSilentExactlyWhenConsistent` | services/deal-accounting-service/scripts/seed-ce12-rule-packs.ts:314-336 | A further run changes nothing exactly when no account is linked to two schedules |
| `FiscalCalendar.FiscalStepsSucceedExactlyWhenReady` | services/coa-service/src/application/period-service.ts:245-316 | Defining the calendar, generating the year and opening the period succeed exactly when a changed calendar has no postings, the year is free of clashing codes or there with the period, and the period is open or there is room to open it; only that period is opened |
| `FiscalCalendar.StartingOverEndsTheSame` | services/floorplan-service/scripts/seed-ce12-rule-packs.ts:473-497 | From wherever the fiscal steps were cut off, all of them again end as they would have ended |
| `FiscalCalendar.GeneratePeriods` | services/coa-service/src/domain/fiscal-calendar.ts:40-78 | The loop gives the start month of the year and eleven more, each the one after, January of the next year after December; then a thirteenth period if the structure has one |
| `Provisioning.RunSteps` | services/floorplan-service/scripts/seed-ce12-rule-packs.ts:555-562 | The steps one after another, the fiscal ones included, until one fails or the run is cut off |
| `Retry.WithTransientRetry` | services/deal-accounting-service/scripts/seed-ce12-rule-packs.ts:206-219 | Every attempt but the last met the race with status 500 or more; the last did not, or no attempt was left; no attempt at all for a limit below one |
| `Retry.WaitedClosedForm` | services/deal-accounting-service/scripts/seed-ce12-rule-packs.ts:213-216 | Total delay 200n(n+1) ms for n up to 12, then 5000 ms per further retry |
| `Census.ScanBody` | scripts/audit-write-path-census.js:80-87 | The scan stops just past the matching brace, or at the end of the text |
| `Census.MatchIsFirst` | scripts/audit-write-path-census.js:82-86 | The matching brace is unique: the body is the shortest balanced text |
| `Census.ScanEndIsUnique` | scripts/audit-write-path-census.js:80-87 | The text alone decides where a scan ends: at most one position is just past the matching brace, or the end of the text when there is none |
| `Census.BodyIsCompleteExactlyWhenClosed` | scripts/audit-write-path-census.js:88 | A body that closes is complete; one that does not loses the last character of the file |
| `Census.BodiesAreLaminar` | scripts/audit-write-path-census.js:77-89 | Any two extracted bodies are disjoint or nested, closed or not |
| `Census.EveryBraceClosesExactlyWhenNoneIsOpen` | scripts/audit-write-path-census.js:80-87 | Every scan closes exactly when no brace is open at the end of the text |
| `Census.ExtractMethods` | scripts/audit-write-path-census.js:72-91 | Every header that is not a keyword yields the body its scan cuts out |
| `Census.RunCensus` | scripts/audit-write-path-census.js:107-129 | Findings and sites checked over all files and methods are those of the specification |
| `Census.FindingsAreTheUncoveredMethods` | scripts/audit-write-path-census.js:107-129 | One finding for each method that writes a model not exempt, does not audit and is not on the list, in order; it names the method and exactly those models |
| `Census.SitesAreTheWritingMethods` | scripts/audit-write-path-census.js:107-129 | The number of sites is the number of methods that write a model not exempt |
| `Census.PassesExactlyWhenCovered` | scripts/audit-write-path-census.js:107-129 | The census passes exactly when every method that writes a model not exempt audits or is on the list |
| `EventStream.Generate` | apps/web/src/components/AIInsight.tsx:42-63 | The read loop keeps consumed lines plus buffer equal to the input; it never ends showing an error: the last narrative is the text or the fixed notice |
| `EventStream.OnlyPrefixedLinesTell` | apps/web/src/components/AIInsight.tsx:51-54 | A line tells whatever the text behind the prefix tells, even if there is none; a line without the prefix tells nothing |
| `EventStream.SplitLosesNothing` | apps/web/src/components/AIInsight.tsx:48-49 | Splitting loses no character and leaves no break in a line |
| `EventStream.ChunkingIsInvisibleExactlyWithoutLateText` | apps/web/src/components/AIInsight.tsx:45-60 | The final text is independent of the chunking exactly when no text follows a done event |
| `GlReports.BalanceByType` | services/gl-service/src/index.ts:161-169 | The map holds for assets, liabilities and equity the openings plus the lines of the accounts of that type, for the other three types the lines alone |
| `GlReports.TypesAddUpToOpeningsPlusEntries` | services/gl-service/src/index.ts:161-169 | Counting by account or by entry gives the same: type balances sum to the openings of assets, liabilities and equity plus what the entries are out by |
| `GlReports.EquationHoldsExactlyWhenWrongSidesCancel` | services/gl-service/src/index.ts:171-176 | The dashboard's accounting equation holds, when the entries and the openings of those three types balance, exactly when the wrong-side balances cancel |
| `GlReports.GlVariance` | services/gl-service/src/index.ts:504-512 | The variance is the sum of the account balances of the period |
| `GlReports.VarianceIsWhatEntriesAreOutBy` | services/gl-service/src/index.ts:504-512 | It is what the entries are out by, zero on balanced entries |
| `GlReports.ComputeAging` | services/gl-service/src/index.ts:261-283 | Each bucket is the sum over its day interval |
| `GlReports.BucketsAddUp` | services/gl-service/src/index.ts:268-278 | The five buckets partition the total |
| `GlReports.AgingIgnoresRowOrder` | services/gl-service/src/index.ts:263-278 | The result does not depend on the order of the rows |
| `GlReports.DayHistory` | services/gl-service/src/index.ts:801-821 | Each of the windows counts its own lines and reports debits and credits in whole dollars |
| `GlReports.RoundingEachDayAddsUp` | services/gl-service/src/index.ts:816-819 | The reported debits of n windows are out by less than half a dollar a window downwards and at most half a dollar upwards, by all of it exactly when each window ends on fifty cents |
| `GlReports.DaysCountOnceExactlyWhenRegular` | services/gl-service/src/index.ts:803-804 | Every instant is counted once exactly when all days have 24 hours; a day of 25 or 23 hours leaves a gap or an overlap |
| `BatchPosting.JournalService.PostDrafts` | services/gl-service/src/index.ts:915-946 | Every fetched draft is reported once; posted and failed are the numbers of reports that say so, and add up to the total |
| `BatchPosting.EveryDraftMeetsItsOwnFate` | services/gl-service/src/index.ts:926-939 | No failure stops later entries, each draft ends by its own fate, nothing else is touched |
| `BatchPosting.WhatAReportMeans` | services/gl-service/src/application/gl-service.ts:609-697 | A posted report means DRAFT, PENDING_REVIEW, POSTED; a failed one is posted nonetheless exactly when another approver came first, and is retried exactly when its submission failed |
| `BatchPosting.AutoPostJobPostsNothing` | services/gl-service/src/lib/auto-post-job.ts:26-68 | The auto-post job on its own posts nothing: it approves drafts that were never submitted |
| `Chargeback.RunsAreAccounted` | services/fni-reserve-service/src/application/chargeback-draw-executor.ts:101-182 | In every interleaving, with crashes and refusals, ledger and records differ by exactly what crashes, duplicates, refused legs and split accruals of the run amount to |
| `Chargeback.LiabilityTiesOutThroughoutExactly` | services/fni-reserve-service/src/application/chargeback-draw-executor.ts:64-182 | Ledger and records agree throughout exactly when no action is a crash or duplicate after an accepted leg, a record of a positive draw whose leg was not accepted, or an accrual in one book only |
| `Chargeback.LiabilityTiesOutExactly` | services/fni-reserve-service/src/application/chargeback-draw-executor.ts:64-182 | Where every recorded leg was accepted, they tie out at the end, with nothing in progress, exactly when no accepted leg was lost to a crash or a duplicate |
| `Chargeback.RecordsStayAboveZeroExactly` | services/fni-reserve-service/src/application/chargeback-draw-executor.ts:107-170 | On every run from no execution in progress the recorded reserve goes below zero exactly when an execution stores its draw after the actions since its reading stored, less what they accrued, more than its chargeback leaves of the balance it read |
| `Chargeback.SerialRunsNeverOverdraw` | services/fni-reserve-service/src/application/chargeback-draw-executor.ts:101-182 | One execution at a time, the recorded reserve never goes below zero |
| `Chargeback.LedgerStaysAboveZeroExactly` | services/fni-reserve-service/src/application/chargeback-draw-executor.ts:101-170 | On every such run the ledger reserve goes below zero exactly when, at an accepted leg, the legs accepted since the execution read the records, less accruals posted, with the legs then in flight and less the slips before, exceed what its chargeback leaves of the balance it read |
| `Chargeback.SerialRunsKeepTheLedgerAboveZero` | services/fni-reserve-service/src/application/chargeback-draw-executor.ts:101-182 | One execution at a time, the ledger reserve stays above zero on every run without a lost or refused leg, and is in general never below what those amount to |
| `Chargeback.OverlapOverdrawsExactlyWhenTogetherTooMuch` | services/fni-reserve-service/src/application/chargeback-draw-executor.ts:107-108 | Two executions that read the same balance overdraw exactly when the chargebacks together exceed it |
| `Chargeback.RetryAfterCrashPostsTwice` | services/fni-reserve-service/src/application/chargeback-draw-executor.ts:115-170 | A crash between posting and recording makes the retry draw twice, which takes the ledger reserve below zero exactly when twice the amount exceeds it |
| `Chargeback.LegIsPostedExactlyWhenPositive` | services/fni-reserve-service/scripts/ce12-rule-pack-definitions.ts:7-17 | Under the fixture packs a leg is accepted exactly when its amount is positive |
| `SubmitProtocol.EveryRunIsSound` | services/coa-service/src/application/posting-engine-service.ts:578-679 | From nothing received, in every interleaving with crashes, lost answers and replays: one use of the original key, one content per event, and POSTED means a journal exists |
| `SubmitProtocol.CarefulRunsPostAtMostOnce` | services/coa-service/src/application/posting-engine-service.ts:578-600 | From nothing received, as long as replays start only when no journal can exist, an event has at most one journal |
| `SubmitProtocol.ReplayIsSafeExactlyWhenQuiet` | services/coa-service/src/application/posting-engine-service.ts:681-704 | A replay of an event that is not POSTED, under an unused version, can be followed by no second journal exactly when no journal exists and no caller is about to call gl-service; a claimed submission on its way is enough for a second one |
| `SubmitProtocol.NextReplayIsSafeExactlyWhenQuiet` | services/coa-service/src/application/posting-engine-service.ts:681-704 | The same at every point that a careful run comes to |
| `SubmitProtocol.CarelessReplayPostsAgain` | services/coa-service/src/application/posting-engine-service.ts:802-823 | From any state with a journal and no POSTED status a replay under a new version adds a second journal |
| `SubmitProtocol.LostAnswerLeavesAJournalBehind` | services/coa-service/src/application/posting-engine-service.ts:653-666 | A lost answer leads to such a state: REJECTED with a journal behind it |
| `SubmitProtocol.ConflictIsToldExactlyToLateArrivals` | services/coa-service/src/application/posting-engine-service.ts:448-482 | On every run in which other content claims the event, a caller that does not crash is told of the conflict exactly when the event was claimed before it arrived, is otherwise answered as a duplicate, and its content never reaches the ledger |
| `SubmitProtocol.LateConflictIsReportedAsDuplicate` | services/coa-service/src/application/posting-engine-service.ts:448-482 | Both cases occur: two callers that pass the check before either claims, and one that arrives after |
| `SubmitProtocol.PostedIsFinal` | services/coa-service/src/application/posting-engine-service.ts:681-685 | Whatever run has led to POSTED, once nobody is on the way to gl-service or back no run of any actions, resubmissions and replays included, adds a journal or changes the status |
| `SubmitProtocol.ExactlyOneIsToldItIsNew` | services/coa-service/src/application/posting-engine-service.ts:448-600 | Without replays, crashes of the first caller and late rejections, exactly one submitter is told that the event is new, with the status of the row; every other answer says duplicate, now and later |
| `SubmitProtocol.LateSettlerIsToldItIsNew` | services/coa-service/src/application/posting-engine-service.ts:1038-1120 | A caller whose evaluation ends the event after another one's did is told the other's status as new |
| `ActiveModule.SortedFirstMatchIsBest` | apps/web/src/App.tsx:648-658 | Sorting by longest prefix and taking the first match selects the module a single pass without sorting selects |
| `ActiveModule.FirstMatchIsLongestMatchExactly` | apps/web/src/App.tsx:648-658 | First match is longest match for every path exactly when nested prefixes of different modules are sorted deeper first |
| `ActiveModule.TheTableFindsTheLongestMatch` | apps/web/src/App.tsx:262-644 | For the table of all 14 modules and 60 prefixes, every path selects the module with its longest matching prefix |
| `ActiveModule.PeriodsBelongToMonthEnd` | apps/web/src/App.tsx:404-575 | In that table the periods page and all below it select month-end, and every other path under administration selects administration |

## Left out

- HTTP, authentication, row-level security, message bus, database transactions: a call is one atomic step; what it returns is a parameter.
- Ordering comparisons and dynamic line items of the posting DSL: no CE-12 pack uses them.
- Rule-pack version selection by effective date, journal numbering, the period and cut-off checks at posting, intercompany counterparts and the cost-of-sale chain of gl-service.
- The text of memos: a memo is modelled by its length, which is what decides whether schedule-service can store it.
- OpenItems.FitsColumns: counts UTF-16 units, while the database counts characters and cuts excess trailing blanks; texts with characters beyond the basic plane or with trailing blanks beyond the width are taken as too wide.
- FloorplanUnits.NotesAreUntouchedExactlyWhenNoUnitIsWrittenDown: assumes that gl-service's entry ids, which are UUIDs, are longer than an apply-to number can be.
- gl-service keeps a chart of its own; the runs assume that it holds the fixture accounts with the schedule codes the scripts set, and they list events in the order in which their entries are approved.
- Ledger.RunEvents: a run does not pass coa-service's posting service, which the engine does not call, so no result says that a control number decides whether an engine line reaches its schedule.
- Money as floating point: amounts are integer cents; the rounding of a payload amount to cents is part of the payload value.
- The other three posting classes of the open-item service: manual apply, reversal, split, transfer and write-off.
- Numbers in JSON text: abstract, with a printing and a reading function assumed inverse to each other and a number token by grammar.
- Seeding.SeedPack: does not model the vehicle script's match of an active version by content under another semver, nor the activation call that the deal script still makes for a pack that did not validate (the store refuses it).
- FiscalCalendar.FiscalStepsSucceedExactlyWhenReady: dates of periods, audit rows and the actor column, which a repeated definition overwrites, are not modelled.
- Chargeback.RunsAreAccounted: an accrual is one step, which may post, record, both or neither; other executions do not run between its posting and its recording.
- SubmitProtocol.EveryRunIsSound: one event id at a time; a replay that ends without calling gl-service is not modelled.
- BatchPosting.JournalService.PostDrafts: entries discarded or approved by others before their own turn are not modelled, only between submission and approval.
- Census.ExtractMethods: the header, write-call and audit patterns are parameters.
- CoaPosting.Evaluate: the status and postability of an account, the period, the source and the idempotency key are not modelled.
- EventStream.Generate: UTF-8 decoding and the JSON parsing of an event are parameters; a read error that leaves the loop is not modelled.
- ActiveModule.FirstMatchIsLongestMatchExactly: the fallback to navigation items when no prefix matches is not modelled.
- Other dashboards, alerts and their ordering, reports, user interface, seed and demo data: finite data or printing.
- The vehicle-accounting packs: built like the modelled ones; only their seed script is modelled.
