# Verified model of the Brain gateway's data paths

This Dafny project models the parts of the repository where being right is hard, and proves what they
guarantee over all inputs, all runs and all interleavings. `dafny verify dfyconfig.toml` checks it.

The model has these parts.

- **Replayed facts** (`ReplacingMergeTree`, `Replay`, `FactsConsumer`, `FactsMapping`,
  `DeliveryMeaning`, `TenantRuns`, `ReplayConvergence`, `ReplayAgreement`). The consumer as a class over a
  Postgres map and ClickHouse part stores; a partition log with a position that can be rewound; inserts
  that fail on their own; background merges at any moment. Main results: which messages land, and where;
  Postgres converges to the in-order outcome; the two stores agree on a key when its last message stands,
  which, stamped latest, is exactly when its insert was ever applied; and workspaces do not touch each other.
- **SQL rewriting** (`FinalRewriter`, `SqlGrammar`, `SqlDecoration`, `SqlMeaning`, `SqlLimits`,
  `GatewayRewriter`, `AliasBreaks`, `WorkspaceScope`, `Isolation`). The rewriters on tokens, a grammar with
  named subqueries and a reader that undoes the printer, and a semantics in which expressions, joins and
  tails are left open. Main results: idempotence, erasure, preservation of meaning with the exact condition
  under which it holds, and isolation of workspaces.
- **Money** (`Digits`, `Rounding`, `MoneyConvert`, `MoneyMalformed`, `MoneyAgreement`,
  `MoneyTexts`, `MoneyFormat`, `MoneyShape`). The string converter against rounding defined on rationals,
  against the Python converter, and against the printer; and what the printer prints.
- **Idempotency** (`Idempotency`, `IdempotencyRuns`, `IdempotencyOnce`). Client store, server store,
  decision log and handler as classes and a method; a world of interleaved handlers and an unreliable
  network on top.
- **Small machines** (`RateLimiter`, `Scheduler`, `SyncTick`, `Paradigm`). Token buckets in a lazily
  filled map, the self-rescheduling timer, one tick, and the context variable against a call stack.
- **Analytics** (`Cohorts`, `CohortDrift`, `Distributions`). Payback walk, row modes, flooring drift, mode
  and histogram.
- **Narration** (`NumberPatterns`, `NumberExtraction`, `FigureScan`, `TextScan`, `PieceScan`,
  `TokenScan`, `TokenText`, `WrittenNumbers`, `WrittenMoney`, `Narrator`). The gate's five patterns character
  by character, its scan and span bookkeeping, and the narrator's texts. Main results: a written amount
  in calm prose registers as the number it says, and the gate registers the printed figures of the
  narrator's texts and nothing else, so a narration passes exactly when its figures read back as signals.

Classes and loops follow the source where it updates in place; each of their methods is proved equal to a
function, and the theorems are about those functions. Clock readings, fresh keys, network and database
outcomes are parameters.

## Where the code and its description part

- `roundHalfEvenFraction` documents round half to even; for currencies without subunits it rounds ties
  towards zero, because it passes `0n` for the whole part (`MoneyConvert.ConvertsHalfDown`,
  `MoneyAgreement.AgreeIff`).
- The converter accepts text that is no number: a second sign, a sign at the head of the fraction, a
  hexadecimal literal, and anything behind the digits it counts. `MoneyMalformed.AcceptsExactly` says which
  texts it takes, and `MoneyMalformed.GetsThroughExactly` which of them are no numbers. Its Python twin
  refuses those without underscore or exponent (`MoneyTexts.OneSidedExactly`); behind an exponent both convert
  and never agree (`MoneyTexts.ExponentNeverAgrees`).
- `decorateWithFinal` leaves a fact table behind a comma without FINAL, and puts FINAL on a named query
  called like a fact table; the meaning is kept exactly without those (`SqlLimits.KeepsMeaningExactly`).
  None of the queries in `fact-analytics-ch.ts` has either: the comma join at line 725 names a subquery.
- `_inject_final` puts FINAL in front of an alias, which does not parse (`AliasBreaks.InjectedParsesExactly`).
- `_inject_prewhere` adds a second PREWHERE to a query that has one not beginning with `workspace_id`, and puts
  its test behind GROUP BY in a query without WHERE; neither parses. With the former these are all the flat
  queries that `query_raw` spoils (`WorkspaceScope.QueryRawReadsExactly`).
- A PREWHERE `workspace_id` of the caller's own switches the test off, as its docstring says, so the answer is
  that of whatever workspace the caller asks for, or of all: `Isolation.InvisibleExactly` says when other
  workspaces stay out, `Isolation.OpenQueryLeaks` what happens otherwise.
- Restarting the scheduler while a tick runs leaks a timer, and a tick may begin after the next stop
  (`Scheduler.HastyRestartLeaksATimer`, and `Scheduler.SilencedExactly` for when).
- The interpolated payback can be zero for a cohort whose first order does not cover its CAC
  (`Cohorts.ZeroPaybackExactly`).
- The local-db cumulative cells count the first month twice (`CohortDrift.FirstMonthCountedTwice`).
- `_modeMu` does not round to the nearest rupee below -50 paise (`Distributions.RoundsToNearestExactly`).
- `settle` takes an insight id, so a late second reply settles a newer action
  (`IdempotencyOnce.LateReplySettlesTheNextAction`). Settled means answered when a reply is taken only while
  its key is the insight's current one (`IdempotencyOnce.SettledMeansOneRow`, `IdempotencyOnce.ForeignReply`).
- An order whose `cancelled_at` the consumer's `new Date` cannot read never reaches ClickHouse: building its
  row throws inside the block that swallows insert errors (`ReplayAgreement.LandsExactly`,
  `ReplayAgreement.UnreadableNeverLands`). The Postgres column is a timestamptz
  (`infra/bootstrap/bootstrap-pg.sql:686`), so this concerns texts that Postgres reads and JavaScript does
  not, such as `infinity`; any other aborts the transaction first.
- The narrator's texts echo its signals only when those are round; otherwise its own gate refuses them
  (`Narrator.RevenueOnlyPassesExactly`).

## Model

| member | source | states |
|---|---|---|
| `ReplacingMergeTree.FinalReadIsMergeFree` | packages/lib-clickhouse-ts/src/index.ts:205-208 | After any legal sequence of inserts and background merges the FINAL read is the reading of one register per key, highest version, last inserted on ties: merges have no say. |
| `ReplacingMergeTree.MergesNeverShow` | packages/lib-clickhouse-ts/src/index.ts:12-13 | A history with its merges and the same history without them give the same FINAL rows. |
| `ReplacingMergeTree.MergeKeepsFinal` | packages/lib-clickhouse-ts/src/index.ts:205-208 | One background merge of any chosen parts leaves the FINAL read as it was. |
| `ReplacingMergeTree.FinalAbsorbsPartialFinal` | packages/lib-clickhouse-ts/src/index.ts:205-208 | Deduplicating any subset of the rows early changes nothing for the final deduplication. |
| `ReplacingMergeTree.FinalIdempotent` | packages/lib-clickhouse-ts/src/index.ts:12-13 | Deduplicating twice is deduplicating once. |
| `ReplacingMergeTree.NeverBackwards` | apps/api-gateway/src/infrastructure/realtime-facts-consumer.ts:280-281 | No insert, of any versions, lowers the version a key shows or makes a key disappear. |
| `ReplacingMergeTree.OlderBlockIsInvisible` | apps/api-gateway/src/infrastructure/realtime-facts-consumer.ts:490-492 | Redelivering a block whose versions are all superseded leaves the FINAL read exactly as it was. |
| `FactsConsumer.Consumer.PgUpsertOrder` | apps/api-gateway/src/infrastructure/realtime-facts-consumer.ts:233-259 | The upsert writes the row of its workspace, SHOPIFY and its order id, keeps the is_new_customer flag of a row already there, and touches no other. |
| `FactsConsumer.Consumer.PgUpsertLineItem` | apps/api-gateway/src/infrastructure/realtime-facts-consumer.ts:261-276 | The upsert writes the listed columns to the row of its workspace, SHOPIFY, order id and line id, and touches no other. |
| `FactsConsumer.Consumer.PgTransaction` | apps/api-gateway/src/infrastructure/realtime-facts-consumer.ts:503-508 | The loop of upserts leaves both tables as the specification of one landing says. |
| `FactsConsumer.Consumer.EachMessage` | apps/api-gateway/src/infrastructure/realtime-facts-consumer.ts:449-559 | One delivery, with every skip, a rolled back transaction, and ClickHouse inserts that are acknowledged, dropped or applied with the reply lost, moves the four stores exactly as Deliver does. |
| `DeliveryMeaning.AcceptsExactly` | apps/api-gateway/src/infrastructure/realtime-facts-consumer.ts:453-486 | For every message: it is accepted if and only if it parses, names a workspace, has the event type order and a payload with an order id, a raw order that is absent or readable, amounts that all convert, and a created_at that is absent or a date. |
| `DeliveryMeaning.DeliversExactly` | apps/api-gateway/src/infrastructure/realtime-facts-consumer.ts:449-559 | For every message and outcome, in the message's own fields: what is in the four tables afterwards, under which keys and column by column, or that nothing has changed. |
| `TenantRuns.DeliveryForAnother` | apps/api-gateway/src/infrastructure/realtime-facts-consumer.ts:240 | A delivery for one workspace changes no Postgres row and no FINAL row of another, whatever its outcome. |
| `TenantRuns.RunForOthers` | apps/api-gateway/src/infrastructure/realtime-facts-consumer.ts:449-559 | So over whole runs, with rewinds, rollbacks and background merges. |
| `TenantRuns.DeliveryOfAnotherOrder` | apps/api-gateway/src/infrastructure/realtime-facts-consumer.ts:240-266 | A delivery changes neither row nor lines of another order id, in any workspace. |
| `FactsMapping.MappingIsFaithful` | apps/api-gateway/src/infrastructure/realtime-facts-consumer.ts:150-226 | Every figure of the order fact is the payload's own (gross without tax, with or without a subtotal), and there is one line fact per raw item, in order, saying what that item says. |
| `FactsMapping.ItemsWithoutIdsAllLand` | apps/api-gateway/src/infrastructure/realtime-facts-consumer.ts:212-223 | Items without ids get distinct line ids, so an event lands as many Postgres lines as it has items. |
| `FactsMapping.NoLineIsLost` | apps/api-gateway/src/infrastructure/realtime-facts-consumer.ts:503-508 | With distinct line ids the transaction leaves one row per line, each holding its line. |
| `ReplayConvergence.FlagUntouched` | apps/api-gateway/src/infrastructure/realtime-facts-consumer.ts:233-259 | No delivery changes is_new_customer of a row that is there, and new rows have none. |
| `ReplayConvergence.RunKeepsPg` | apps/api-gateway/src/infrastructure/realtime-facts-consumer.ts:449-559 | In every run of deliveries and rewinds with committing transactions the Postgres tables are settled: prefix overlay up to the position, nothing from beyond the high-water mark. |
| `ReplayConvergence.OrderRowIsNoOlder` | apps/api-gateway/src/infrastructure/realtime-facts-consumer.ts:233-259 | At every moment an order row comes from a message no older than the last one for its key below the position. |
| `ReplayConvergence.PgConverges` | apps/api-gateway/src/infrastructure/realtime-facts-consumer.ts:449-559 | Back at the high-water mark, Postgres is exactly what one in-order delivery of the log leaves. |
| `ReplayConvergence.RowsAreLastCommitted` | apps/api-gateway/src/infrastructure/realtime-facts-consumer.ts:503-508 | After any run, rollbacks and rewinds included, every order and line row is what the last committed delivery that writes its key left; without one it is the row of the start. |
| `ReplayConvergence.ConvergesExactly` | apps/api-gateway/src/infrastructure/realtime-facts-consumer.ts:503-558 | After any run an order row is the in-order outcome if and only if the last committed delivery for its key left that content, or, without one, it was there from the start. |
| `ReplayConvergence.RollbackLosesMessage` | apps/api-gateway/src/infrastructure/realtime-facts-consumer.ts:544-558 | So a delivery whose transaction rolls back is skipped for good: its order is missing at the high-water mark. |
| `Replay.OverlayIsLastWrite` | apps/api-gateway/src/infrastructure/realtime-facts-consumer.ts:240-247 | An in-order delivery leaves each key with what its last writer wrote, and no other keys. |
| `Replay.SettledAtHigh` | apps/api-gateway/src/infrastructure/realtime-facts-consumer.ts:449-559 | A settled table at its high-water mark is the in-order overlay of the log. |
| `Replay.DeliveryKeepsSettled` | apps/api-gateway/src/infrastructure/realtime-facts-consumer.ts:449-559 | Delivering the message at any rewound position keeps the table settled. |
| `Replay.WinnerExactly` | packages/lib-clickhouse-ts/src/index.ts:205-208 | The block left standing at a key is the one that no other has a higher version than, and none behind it the same; there is one exactly when any block for the key took effect. |
| `ReplayAgreement.OrdersShown` | apps/api-gateway/src/infrastructure/realtime-facts-consumer.ts:303-339 | After any run, whatever the broker stamps, clock fallbacks and equal ones included: FINAL shows of an order what the message left standing says, by version and then by order of insertion, and nothing if no insert ever took effect. |
| `ReplayAgreement.LinesShown` | apps/api-gateway/src/infrastructure/realtime-facts-consumer.ts:341-369 | The same for line items. |
| `ReplayAgreement.OrdersAgree` | apps/api-gateway/src/infrastructure/realtime-facts-consumer.ts:303-339 | After any committing run back at the high-water mark, the row FINAL shows agrees with Postgres on every shared column when the key's last message stands; and if the broker stamped that message latest of the key's messages, FINAL shows its version if and only if its insert was ever applied. |
| `ReplayAgreement.LinesAgree` | apps/api-gateway/src/infrastructure/realtime-facts-consumer.ts:341-369 | The same for line items, repeated line ids inside one order included. |
| `ReplayAgreement.LineBlockAgrees` | apps/api-gateway/src/infrastructure/realtime-facts-consumer.ts:341-369 | Within one message the last ClickHouse row per line matches the row the Postgres loop ends with. |
| `ReplayAgreement.RunTracks` | apps/api-gateway/src/infrastructure/realtime-facts-consumer.ts:516-539 | Invariant of all runs: the FINAL registers hold, per key, the write of the block left standing among those that took effect. |
| `ReplayAgreement.LandsExactly` | apps/api-gateway/src/infrastructure/realtime-facts-consumer.ts:297-339 | Some outcome brings a message's order into ClickHouse if and only if the message is accepted and its cancelled_at, when there is one, can be read. |
| `ReplayAgreement.UnreadableNeverLands` | apps/api-gateway/src/infrastructure/realtime-facts-consumer.ts:516-539 | With a cancelled_at that cannot be read a delivery leaves both ClickHouse tables untouched whatever happens, while a committing transaction upserts the Postgres order. |
| `ReplayAgreement.UnreadableNeverApplied` | apps/api-gateway/src/infrastructure/realtime-facts-consumer.ts:516-539 | In no run, however often it is redelivered, does such a message reach ClickHouse. |
| `MoneyConvert.Converts` | packages/lib-metrics/src/convert.ts:26-78 | Every signed decimal string and every multiplier 10^e converts without error, to the exact value rounded: half to even for e >= 1, half towards zero for e = 0. |
| `MoneyConvert.ConvertsHalfEven` | packages/lib-metrics/src/convert.ts:26-78 | For e >= 1 the result is the unique round-half-to-even of the exact rational. |
| `MoneyConvert.ConvertsHalfDown` | packages/lib-metrics/src/convert.ts:97-106 | For the multiplier 1 the result is the unique round-half-down: the tie test sees 0n instead of the whole part. |
| `MoneyConvert.RemainderDecision` | packages/lib-metrics/src/convert.ts:130-147 | Comparing the remainder string with "500..0" character by character decides on which side of one half the remainder lies, ties by the parity passed in. |
| `MoneyConvert.FractionRounds` | packages/lib-metrics/src/convert.ts:97-121 | Whole part plus rounded fraction, carry included, is the value rounded at the subunit. |
| `Digits.LexIsNumeric` | packages/lib-metrics/src/convert.ts:130-147 | On digit strings of equal length, string order is numeric order. |
| `Digits.ValueOfShow` | packages/lib-metrics/src/format-money.ts:93-96 | Printing a natural number and reading its digits are inverse. |
| `Rounding.HalfEvenUnique` | pylibs/brain_metrics/brain_metrics/convert.py:70-81 | A rational has one half-even rounding, however numerator and denominator are scaled. |
| `MoneyAgreement.PythonIsHalfEven` | pylibs/brain_metrics/brain_metrics/convert.py:70-81 | decimal_to_minor_units rounds the exact product half to even for every multiplier. |
| `MoneyAgreement.ContextIs28Digits` | pylibs/brain_metrics/brain_metrics/convert.py:75-79 | The context the agreement is stated in is that of 28 digits. |
| `MoneyAgreement.AgreeIff` | packages/lib-metrics/src/convert.ts:97-106 | Inside the 28-digit context the TypeScript and Python converters agree if and only if it is not the case that the multiplier is 1, the fraction is exactly one half and the whole part is odd. |
| `MoneyAgreement.DisagreeOnYen` | packages/lib-metrics/src/convert.ts:105 | "1.5" with multiplier 1 is 1 in TypeScript and 2 in Python. |
| `MoneyAgreement.WithinHalfUnit` | packages/lib-metrics/src/convert.ts:55-78 | For every multiplier 10^e the result is within half a minor unit of the exact amount. |
| `MoneyAgreement.Monotone` | packages/lib-metrics/src/convert.ts:55-78 | A larger amount never converts to fewer minor units. |
| `MoneyAgreement.OddUnderNegation` | packages/lib-metrics/src/convert.ts:40-78 | Changing the sign of the text changes only the sign of the result. |
| `MoneyAgreement.TrailingZeros` | packages/lib-metrics/src/convert.ts:55-78 | Zeros after the last decimal change nothing. |
| `MoneyMalformed.RangeErrorExactly` | packages/lib-metrics/src/convert.ts:35-42 | The RangeError is raised exactly for a multiplier below 1 or a text that is blank or a lone sign. |
| `MoneyMalformed.AcceptsExactly` | packages/lib-metrics/src/convert.ts:33-78 | For every text and every multiplier of at least 1: an amount comes back if and only if the trimmed text is neither blank nor a lone sign and, its sign gone, the part in front of the first point and the counted digits behind it are both integers to BigInt; RangeError exactly for blank or a lone sign. |
| `MoneyMalformed.AcceptsExactlyForPow10` | packages/lib-metrics/src/convert.ts:33-78 | The same with the number of counted digits written out for the multiplier 10^e. |
| `MoneyMalformed.BigIntExactly` | packages/lib-metrics/src/convert.ts:52-59 | BigInt takes, between blanks, nothing at all, digits behind at most one sign, or a literal in base 16, 8 or 2, and nothing else. |
| `MoneyMalformed.IsDecimalExactly` | packages/lib-metrics/src/convert.ts:8-14 | A text is a decimal number if and only if, trimmed and its sign gone, it is digits with at most one point among them. |
| `MoneyMalformed.GetsThroughExactly` | packages/lib-metrics/src/convert.ts:33-78 | A text that is no decimal number is converted if and only if it meets the acceptance condition and its unsigned part is not digits with at most one point. |
| `MoneyMalformed.SecondSignAccepted` | packages/lib-metrics/src/convert.ts:44-59 | Any two signs in front of digits: no decimal number, and converted with both signs applied, at every multiplier. |
| `MoneyMalformed.LiteralAccepted` | packages/lib-metrics/src/convert.ts:55-59 | A literal in base 16, 8 or 2 is no decimal number and is converted as the integer it stands for. |
| `MoneyMalformed.SignInFraction` | packages/lib-metrics/src/convert.ts:55-60 | A minus sign behind the point counts down from the whole part. |
| `MoneyMalformed.JunkBehindSubunit` | packages/lib-metrics/src/convert.ts:97-121 | What stands behind the counted digits is compared with one half and never read, at every 10^e: junk of any kind rounds up or not by string order. |
| `MoneyTexts.OneSidedExactly` | pylibs/brain_metrics/brain_metrics/convert.py:64-69 | On texts without underscore or exponent the TypeScript converter takes all that Decimal reads, and takes more exactly on the texts that get through although they are no decimal numbers. |
| `MoneyTexts.SecondSignRefused` | pylibs/brain_metrics/brain_metrics/convert.py:64-69 | Decimal refuses a second sign. |
| `MoneyTexts.LiteralRefused` | pylibs/brain_metrics/brain_metrics/convert.py:64-69 | Decimal refuses a literal in base 16, 8 or 2. |
| `MoneyTexts.ExponentNeverAgrees` | pylibs/brain_metrics/brain_metrics/convert.py:64-81 | An exponent behind the counted digits is taken by both, as junk that rounds up by one and as a power of ten by the other: on no such text do they agree. |
| `MoneyFormat.NonInrRoundTrip` | packages/lib-metrics/src/format-money.ts:105-129 | Outside INR, stripping sign, symbol and grouping from the printed text and converting with the currency's multiplier gives back the amount, for every integer. |
| `MoneyFormat.InrRoundTrip` | packages/lib-metrics/src/format-money.ts:60-97 | The same for INR below one lakh rupees in magnitude. |
| `MoneyFormat.LakhTruncates` | packages/lib-metrics/src/format-money.ts:84-91 | In the lakh band the printed magnitude is the true one cut off, by less than 1,000 rupees. |
| `MoneyFormat.CroreTruncates` | packages/lib-metrics/src/format-money.ts:74-82 | In the crore band it is cut off by less than 100,000 rupees. |
| `MoneyFormat.UngroupThrees` | packages/lib-metrics/src/format-money.ts:105-129 | Removing separators undoes grouping by threes. |
| `MoneyFormat.UngroupIndian` | packages/lib-metrics/src/format-money.ts:94 | Removing separators undoes Indian grouping, a three and then pairs. |
| `MoneyFormat.SubunitDecimals` | packages/lib-metrics/src/subunits.ts:42-44 | Every multiplier of the table is the power of ten its decimals say. |
| `MoneyShape.PrintsExactly` | packages/lib-metrics/src/format-money.ts:105-129 | Outside INR, for every amount and code: sign, the symbol of the code, whole units with a separator in front of every further group of three, and a point with three digits for four codes, none for seven, two for all others; together they tell the amount. |
| `MoneyShape.PrintsRupees` | packages/lib-metrics/src/format-money.ts:91-97 | In INR below one lakh rupees: sign, rupee sign, whole rupees in Indian groups, a point and two digits; together they tell the amount. |
| `MoneyShape.PrintsLakhsAndCrores` | packages/lib-metrics/src/format-money.ts:60-90 | In INR from one lakh rupees on: lakhs, or from ten million on crores, with two digits behind the point, the rest cut off. |
| `FinalRewriter.DecorateCompletes` | packages/lib-clickhouse-ts/src/index.ts:99-121 | In the output for any token sequence, every FROM/JOIN match of a fact table, alias included, is followed by FINAL. |
| `FinalRewriter.CompleteIsFixed` | packages/lib-clickhouse-ts/src/index.ts:116-120 | A token sequence is left as it is exactly when every match in it already has its FINAL. |
| `FinalRewriter.DecorateIdempotent` | packages/lib-clickhouse-ts/src/index.ts:99-121 | Decorating twice is decorating once, on every token sequence. |
| `FinalRewriter.ErasureRestores` | packages/lib-clickhouse-ts/src/index.ts:116-120 | Only FINALs are inserted, and deleting exactly those restores the input. |
| `SqlGrammar.ParsePrint` | apps/core-service/src/application/contexts/connectors/sync/fact-analytics-ch.ts:194-216 | The reader of the modelled grammar - SELECT with joins, comma joins and subqueries anywhere, and WITH name AS (query) - recovers every well-formed query from its text, so the text has one reading. |
| `SqlDecoration.DecoratesQuery` | packages/lib-clickhouse-ts/src/index.ts:99-121 | Decorating the text of a query gives the text of that query with FINAL on its fact tables, in subqueries, joins, aliases and named queries alike. |
| `SqlMeaning.FinalQueryMeans` | packages/lib-clickhouse-ts/src/index.ts:93-121 | Whatever expressions, joins and tails mean, a sound query with FINALs over all row versions equals the query over deduplicated fact tables, named subqueries and references to them included. |
| `SqlMeaning.DecorateKeepsMeaning` | packages/lib-clickhouse-ts/src/index.ts:93-121 | Reading and running the decorated text over tables with all row versions gives the original text's result over tables holding only the newest rows, for every sound query: no named query is taken for a fact table, and no fact table stands behind a comma or in another database. |
| `SqlMeaning.ReadsIgnoreMerges` | packages/lib-clickhouse-ts/src/index.ts:140-156 | A sound decorated query returns the same for any two merge schedules of the same inserts. |
| `SqlLimits.KeepsMeaningExactly` | packages/lib-clickhouse-ts/src/index.ts:93-121 | Soundness is needed: under the interpretation that keeps everything apart, over tables that hold superseded rows, a well-formed query keeps its meaning if and only if it is sound. |
| `SqlLimits.StaleTablesExist` | packages/lib-clickhouse-ts/src/index.ts:205-208 | There are such tables for every set of fact tables. |
| `SqlLimits.ClearIsSound` | apps/core-service/src/application/contexts/connectors/sync/fact-analytics-ch.ts:986-1012 | A condition on the text alone: a query whose named queries are not called like fact tables, and which reads fact tables only where FROM or JOIN stands in front of them, is sound. |
| `SqlLimits.NamedLikeAFactTable` | packages/lib-clickhouse-ts/src/index.ts:99-121 | A query named like a fact table gets FINAL where it is read, and is not sound. |
| `SqlLimits.FactBehindComma` | apps/core-service/src/application/contexts/connectors/sync/fact-analytics-ch.ts:725-738 | A fact table behind a comma gets no FINAL, and the query is not sound. |
| `GatewayRewriter.RewritersAgree` | pylibs/brain_clickhouse/brain_clickhouse/gateway.py:190-209 | On alias-free queries without JOIN whose brain tables are in both sets, _inject_final and decorateWithFinal are the same function. |
| `GatewayRewriter.BareReadsAgreeExactly` | pylibs/brain_clickhouse/brain_clickhouse/gateway.py:33-87 | With the two table sets of the repository, the rewriters agree on a bare read of a table if and only if it is in both sets or in neither. |
| `GatewayRewriter.InjectFinalIdempotent` | pylibs/brain_clickhouse/brain_clickhouse/gateway.py:190-209 | A second _inject_final finds nothing to add, on every token sequence. |
| `AliasBreaks.InjectedParsesExactly` | pylibs/brain_clickhouse/brain_clickhouse/gateway.py:82-87 | For SELECT .. FROM brain.t [alias] [FINAL] with any filter and tail of plain tokens, the full grammar reads the rewritten text if and only if there is no alias or t is not in the set. |
| `WorkspaceScope.ReadsFlat` | pylibs/brain_clickhouse/brain_clickhouse/gateway.py:212-261 | The reader recovers every flat query, PREWHERE included, from its text. |
| `WorkspaceScope.ScopePointOfFlat` | pylibs/brain_clickhouse/brain_clickhouse/gateway.py:229-261 | Where the test lands in every flat query: behind its table reference and its own PREWHERE, in front of the WHERE, or else in the tail, and there in front of it exactly for a searchable tail. |
| `WorkspaceScope.ScopedExactly` | pylibs/brain_clickhouse/brain_clickhouse/gateway.py:225-226 | The search for PREWHERE workspace_id finds it in a flat query if and only if the query's own PREWHERE begins with it. |
| `WorkspaceScope.InjectsFinal` | pylibs/brain_clickhouse/brain_clickhouse/gateway.py:190-209 | What _inject_final makes of every flat query: FINAL on its table and nothing else changed, or, with an alias, FINAL in front of the alias. |
| `WorkspaceScope.InjectedReadsExactly` | pylibs/brain_clickhouse/brain_clickhouse/gateway.py:190-209 | The result can be read if and only if the query has no alias, has its FINAL already, or its table is not in the set. |
| `WorkspaceScope.QueryRawReadsExactly` | pylibs/brain_clickhouse/brain_clickhouse/gateway.py:287-294 | For every flat query: what query_raw sends can be read if and only if no FINAL lands in front of an alias and the query either brings a PREWHERE workspace_id of its own, or has no PREWHERE and a WHERE or a tail the gateway can find. |
| `Isolation.WorkspaceFinal` | pylibs/brain_clickhouse/brain_clickhouse/gateway.py:212-261 | Selecting one workspace and taking the newest rows commute, as keys belong to workspaces. |
| `WorkspaceScope.QueryRawText` | pylibs/brain_clickhouse/brain_clickhouse/gateway.py:287-294 | What query_raw sends for every flat query that it can send: the query with FINAL, alias and tail in place, and with the workspace test and its parameter unless it has its own. |
| `Isolation.QueryRawScopes` | pylibs/brain_clickhouse/brain_clickhouse/gateway.py:287-294 | It evaluates to the original query over the newest rows: of the given workspace, or, behind a PREWHERE workspace_id of the caller's own, of all; the caller's parameters arrive unchanged. |
| `Isolation.OtherWorkspacesAreInvisible` | pylibs/brain_clickhouse/brain_clickhouse/gateway.py:287-294 | Two databases that agree on one workspace's rows give it the same answers, for every flat query, unless it brings a PREWHERE workspace_id and its own clauses do not ask for that workspace (or for two at once). |
| `Isolation.InvisibleExactly` | pylibs/brain_clickhouse/brain_clickhouse/gateway.py:222-226 | That condition is needed: where answers keep rows apart, other workspaces are invisible if and only if it holds, however conditions fall into conjuncts. |
| `Isolation.OpenQueryLeaks` | pylibs/brain_clickhouse/tests/test_gateway.py:173-177 | Two databases that agree on the workspace and are told apart: nothing is returned from the one, and a row of another workspace from the other. |
| `Isolation.OwnTestExactly` | pylibs/brain_clickhouse/tests/test_gateway.py:173-177 | Behind PREWHERE workspace_id = %(name)s and nothing else, other workspaces stay out if and only if the caller binds the name to the workspace of the call. |
| `Isolation.CallersWorkspaceWins` | pylibs/brain_clickhouse/brain_clickhouse/gateway.py:222-226 | The answer is that of the workspace the caller's own clauses ask for, whichever the call is made for. |
| `WorkspaceScope.SecondInjectionIsIdle` | pylibs/brain_clickhouse/brain_clickhouse/gateway.py:212-232 | On every token sequence query_raw is idempotent: a second time it changes neither text nor parameters. |
| `RateLimiter.TokenBucket.Consume` | apps/api-gateway/src/interfaces/route.webhook.ts:82-97 | One call answers and moves the bucket as the specification says, clock reading as parameter. |
| `RateLimiter.AllowsIffFits` | apps/api-gateway/src/interfaces/route.webhook.ts:67-98 | A bucket that started full allows a request exactly when every window ending there has room for it: the lazily refilled counter is the budget reference, no stricter and no laxer. |
| `RateLimiter.WindowBound` | apps/api-gateway/src/interfaces/route.webhook.ts:67-98 | With a non-decreasing clock, in every run and every window [t1, t2] at most capacity + refillPerSecond * (t2 - t1) calls succeed. |
| `RateLimiter.VendorLimiter.ConsumeToken` | apps/api-gateway/src/interfaces/route.webhook.ts:171-185 | The lazily filled map answers as its specification says and touches one vendor's bucket only. |
| `RateLimiter.VendorsAreIsolated` | apps/api-gateway/src/interfaces/route.webhook.ts:171-185 | Each vendor's answers are those of a lone bucket fed only its requests, made at any earlier moment. |
| `RateLimiter.VendorAllowsExactly` | apps/api-gateway/src/interfaces/route.webhook.ts:102-103 | With the limits every vendor has, a request is allowed if and only if, counted from any earlier request of the vendor on, those allowed and it are at most 100 plus 50 for each second gone by. |
| `RateLimiter.VendorWindowBound` | apps/api-gateway/src/interfaces/route.webhook.ts:102-103 | With the default limits no vendor gets more than 100 + 50 per second in any window. |
| `Idempotency.ClientIdempotencyStore.Initiate` | apps/mobile/src/domain/idempotency-client.ts:65-94 | An unsettled action keeps its key while kind and payload follow the new tap; otherwise the fresh key starts a new action. |
| `Idempotency.ClientIdempotencyStore.Settle` | apps/mobile/src/domain/idempotency-client.ts:100-105 | Marks the insight's current action settled, whichever it is, and touches no other. |
| `Idempotency.StoreKeyInjective` | apps/api-gateway/src/domain/idempotency.ts:24-26 | For colon-free keys two store keys are equal if and only if workspace and key are, so tenants cannot collide. |
| `Idempotency.CollideExactly` | apps/api-gateway/src/domain/idempotency.ts:24-26 | For any keys: two store keys are equal if and only if one pair is the other with ":idem:" moved over between workspace and key. |
| `Idempotency.ColonsCollide` | apps/api-gateway/src/domain/idempotency.ts:24-26 | With colons in keys two tenants can share a store key; the UUIDs the router asks for have none. |
| `Idempotency.InMemoryDecisionLog.CountByIdempotencyKey` | apps/api-gateway/src/infrastructure/loopback-data-plane.ts:1230-1232 | Counts the rows of one key. |
| `Idempotency.SubmitResponse` | apps/api-gateway/src/interfaces/trpc/make-morning-brief-router.ts:80-122 | Check, refuse, or write and store: answer, store and log are those of the specification. |
| `IdempotencyRuns.StepsAreTheCall` | apps/api-gateway/src/interfaces/trpc/make-morning-brief-router.ts:80-122 | A handler's check, write and store steps, left alone, do exactly what the one call does. |
| `IdempotencyRuns.NothingForbids` | apps/api-gateway/src/interfaces/trpc/make-morning-brief-router.ts:80-122 | At every moment anyone may send anything, anything sent may arrive again, any handler may die, and any reply ever sent may be received. |
| `IdempotencyRuns.RunConserves` | apps/api-gateway/src/interfaces/trpc/make-morning-brief-router.ts:80-122 | In every interleaving: rows of a key plus handlers about to write, plus handlers lost, equals the checks that missed. |
| `IdempotencyRuns.NoRowAfterStore` | apps/api-gateway/src/domain/idempotency.ts:34-55 | In every interleaving, from a key's first store on, the log gains at most the rows of handlers already past their check. |
| `IdempotencyOnce.AtMostOneRow` | apps/api-gateway/src/interfaces/trpc/make-morning-brief-router.ts:80-122 | With one handler per key at a time and none dying between write and store: at most one row per key, of the kind of the request whose check last missed (the first processed one when none was lost), and every reply names it. |
| `IdempotencyOnce.NoMoreRowsThanActions` | apps/api-gateway/src/infrastructure/loopback-data-plane.ts:1223-1241 | countByIdempotencyKey never exceeds one for any key, and there are no more rows than keys issued. |
| `IdempotencyOnce.KeyKeptUntilReply` | apps/mobile/src/domain/idempotency-client.ts:65-94 | Until a reply for the insight arrives, every tap on it goes on with the same key. |
| `IdempotencyOnce.OverlappingChecksWriteTwice` | apps/api-gateway/src/interfaces/trpc/make-morning-brief-router.ts:80-120 | Two copies checked before either is stored write two rows for one action. |
| `IdempotencyOnce.SettledMeansOneRow` | apps/mobile/src/interfaces/screens/MorningBriefScreen.tsx:600-618 | In every careful run in which a reply is taken only while its request's key is still the insight's current one, a settled action has exactly one row under its key. |
| `IdempotencyOnce.ReceiveExactly` | apps/mobile/src/domain/idempotency-client.ts:100-105 | From a state in which settled actions are answered, taking a reply keeps them so if and only if the insight's current action has a reply of its own, or there is none. |
| `IdempotencyOnce.ForeignReply` | apps/mobile/src/domain/idempotency-client.ts:100-105 | Otherwise, at every state: a reply to another key settles the current action, and it is not stored under that action's key. |
| `IdempotencyOnce.LateReplySettlesTheNextAction` | apps/mobile/src/interfaces/screens/MorningBriefScreen.tsx:600-618 | Such a run: a second reply to an old action settles a newer action for which no row was ever written. |
| `Scheduler.SyncScheduler.StartSyncScheduler` | apps/api-gateway/src/infrastructure/sync-scheduler.ts:264-306 | Start is ignored while a handle is set, and arms one timer otherwise. |
| `Scheduler.SyncScheduler.StopSyncScheduler` | apps/api-gateway/src/infrastructure/sync-scheduler.ts:313-318 | Stop disarms the timer of the current handle only, and clears the handle. |
| `Scheduler.SyncScheduler.OnTimer` | apps/api-gateway/src/infrastructure/sync-scheduler.ts:284-292 | A timer begins a tick, or re-arms when one is in flight. |
| `Scheduler.SyncScheduler.OnTickDone` | apps/api-gateway/src/infrastructure/sync-scheduler.ts:297-301 | A finished tick re-arms exactly when the scheduler is not stopped. |
| `Scheduler.OneTickInFlight` | apps/api-gateway/src/infrastructure/sync-scheduler.ts:241-318 | In every interleaving of starts, stops, timers and completions at most one tick is in flight, and the flag says whether. |
| `Scheduler.ChainsConserved` | apps/api-gateway/src/infrastructure/sync-scheduler.ts:283-306 | Armed timers plus running ticks change by effective starts, disarming stops and completions after a stop, and by nothing else. |
| `Scheduler.ChainsPersist` | apps/api-gateway/src/infrastructure/sync-scheduler.ts:283-306 | Without a stop their number never changes: a second self-rescheduling chain, once there, stays. |
| `Scheduler.TidyExactly` | apps/api-gateway/src/infrastructure/sync-scheduler.ts:283-306 | In a run the only armed timer is ever the handle's if and only if no tick completes while the handle's timer is still armed. |
| `Scheduler.TidyIsStoppable` | apps/api-gateway/src/infrastructure/sync-scheduler.ts:313-318 | A state is tidy if and only if Stop leaves no timer armed. |
| `Scheduler.SilencedExactly` | apps/api-gateway/src/infrastructure/sync-scheduler.ts:283-318 | After a Stop some sequence without a start can still begin a tick if and only if the state was not tidy. |
| `Scheduler.QuietAfterStop` | apps/api-gateway/src/infrastructure/sync-scheduler.ts:264-318 | If no start takes effect during a tick, there is at most one timer or tick, and no tick begins between a stop and the next call of start. |
| `Scheduler.SingleStartIsSafe` | apps/api-gateway/src/infrastructure/sync-scheduler.ts:264-318 | With a single start: one timer or tick at a time, no tick before it, and none after the stop. |
| `Scheduler.HastyRestartLeaksATimer` | apps/api-gateway/src/infrastructure/sync-scheduler.ts:283-306 | Stop and start during a tick leave two timers, and a tick begins after the next stop. |
| `SyncTick.RunSchedulerTick` | apps/api-gateway/src/infrastructure/sync-scheduler.ts:159-235 | The calls are those enumerated whatever fails, attempted = succeeded + failed, and each counter counts what happened, a vendor found disconnected being no attempt. |
| `SyncTick.EveryVendorOnce` | apps/api-gateway/src/infrastructure/sync-scheduler.ts:169-196 | Each enumerated vendor of each readable workspace has its own place in the call list, in order, and there are no other places. |
| `Paradigm.Runtime.Run` | pylibs/brain_cost_router/brain_cost_router/paradigm.py:127-151 | For every call tree the tier after any exit is the tier before, and outcome and events are those of a call-stack semantics with no variable to set or reset. |
| `Paradigm.Runtime.Complete` | pylibs/brain_cost_router/brain_cost_router/paradigm.py:81-92 | The gate passes exactly small_llm and frontier_llm and otherwise raises with the active tier. |
| `Paradigm.GatewayExactly` | pylibs/brain_cost_router/brain_cost_router/paradigm.py:81-92 | Below a small_llm or frontier_llm frame the gateway dispatches under that tier; below sql, ml or no frame it refuses with that tier. |
| `Paradigm.OneReportPerCall` | pylibs/brain_cost_router/brain_cost_router/paradigm.py:60-151 | Each decorated call reports its tier once, on its way out, however it is left. |
| `Paradigm.EscapingViolationNamesTheCall` | pylibs/brain_cost_router/brain_cost_router/paradigm.py:134-139 | A violation leaving a decorated call names that call and carries sql, ml or no tier. |
| `Paradigm.ViolationsAreRefusals` | pylibs/brain_cost_router/brain_cost_router/paradigm.py:81-92 | A propagating violation keeps the innermost tier seen at a gateway that refused. |
| `Paradigm.OnlyTheInnermostCounts` | pylibs/brain_cost_router/brain_cost_router/paradigm.py:60-63 | Which decorators enclose the innermost one never shows. |
| `Paradigm.EventsTellTheTier` | pylibs/brain_cost_router/brain_cost_router/paradigm.py:51-52 | In every call tree every dispatch is under small_llm or frontier_llm, and every refusal under sql, ml or no tier. |
| `Paradigm.TierANeverDispatches` | pylibs/brain_cost_router/brain_cost_router/paradigm.py:106-111 | A call graph whose decorators are sql and ml, entered below such a one or none, never reaches the LLM. |
| `Cohorts.PaybackCentimonths` | apps/api-gateway/src/infrastructure/loopback-data-plane.ts:697-719 | The walk returns the payback that the accumulated values define, for every number of months and both metrics, and null otherwise. |
| `Cohorts.PaybackIsUnique` | apps/api-gateway/src/infrastructure/loopback-data-plane.ts:697-719 | The definition leaves one payback per row. |
| `Cohorts.PaybackAgreesWithCells` | apps/api-gateway/src/infrastructure/loopback-data-plane.ts:697-737 | Null exactly when the first order and all twelve cumulative cells stay below CAC; otherwise within the month of the first cell that reaches it. |
| `Cohorts.ZeroPaybackExactly` | apps/api-gateway/src/infrastructure/loopback-data-plane.ts:705-714 | Zero exactly when the first order covers CAC or, interpolating, the shortfall is below one hundredth of the first month's gain. |
| `Cohorts.ZeroWithoutCover` | apps/api-gateway/src/infrastructure/loopback-data-plane.ts:711-714 | A cohort that shows zero payback without being covered. |
| `Cohorts.PaybackMonotone` | apps/api-gateway/src/infrastructure/loopback-data-plane.ts:697-719 | A higher CAC never pays back sooner. |
| `Cohorts.ApplyCohortMode` | apps/api-gateway/src/infrastructure/loopback-data-plane.ts:721-745 | Each cell of each mode is what the running total through its month says. |
| `Cohorts.MoneyCellExactly` | apps/api-gateway/src/infrastructure/loopback-data-plane.ts:721-741 | A money cell of each mode in numbers: increment, running total with or without the first order, or that in basis points of the first order or the acquisition cost, a denominator of at least one. |
| `Cohorts.CountCellExactly` | apps/api-gateway/src/infrastructure/loopback-data-plane.ts:742-745 | A count cell is summed up for post and left as it is otherwise. |
| `Cohorts.IncrementsExactly` | apps/api-gateway/src/infrastructure/loopback-data-plane.ts:770-774 | The increments of a row are its own metric's totals per new customer, cut off, in basis points for repeats; zero without customers. |
| `Cohorts.AveragesExactly` | apps/api-gateway/src/infrastructure/loopback-data-plane.ts:763-768 | Acquisition cost and first-order averages per new customer, cut off; none and zero without customers. |
| `Cohorts.BuildRow` | apps/api-gateway/src/infrastructure/loopback-data-plane.ts:757-786 | In cm3 the last cumulative cell is cohort_ltv_mu, the last ltvcac cell is ltv_cac_bp, and the payback is that of the row's cumulative cells. |
| `CohortDrift.IncrementsInvertPrefixSums` | apps/api-gateway/src/infrastructure/local-db-data-plane.ts:918-921 | Recovering increments from totals and summing them up undo each other, both ways. |
| `CohortDrift.FlooringDrift` | apps/api-gateway/src/infrastructure/local-db-data-plane.ts:913-932 | After dividing each month by n customers, n times the running sum through k months is within k(n-1) of the total, negative months included. |
| `CohortDrift.CumulativeDrift` | apps/api-gateway/src/infrastructure/local-db-data-plane.ts:913-932 | The same against the cumulative totals that were read. |
| `CohortDrift.DriftIsAttained` | apps/api-gateway/src/infrastructure/local-db-data-plane.ts:930-932 | The bound is met by months that fall one short of a unit per customer. |
| `CohortDrift.LtvCardIsClose` | apps/api-gateway/src/infrastructure/local-db-data-plane.ts:951-952 | The lifetime value card and the running sum of floored months differ by at most one unit per month. |
| `CohortDrift.FirstMonthCountedTwice` | apps/api-gateway/src/infrastructure/local-db-data-plane.ts:204-234 | The cumulative cell counts the first month twice, and is the running total exactly when the first month is below one unit per customer. |
| `Distributions.ModeMu` | apps/api-gateway/src/infrastructure/loopback-data-plane.ts:905-919 | Returns the smallest of the most frequent rounded values, 0 for none. |
| `Distributions.ModeIgnoresOrder` | apps/api-gateway/src/infrastructure/loopback-data-plane.ts:905-919 | The mode does not depend on the order of the values. |
| `Distributions.RoundsToNearestExactly` | apps/api-gateway/src/infrastructure/loopback-data-plane.ts:907 | Rounding gives the nearest whole rupee if and only if the value is at least -50 paise or ends in 50. |
| `Distributions.CountBuckets` | apps/api-gateway/src/infrastructure/loopback-data-plane.ts:974-980 | Every count is the number of values of its bucket, every index is in range, and the counts sum to the number of values. |
| `Distributions.Histogram` | apps/api-gateway/src/infrastructure/loopback-data-plane.ts:967-988 | Sixty points with midpoint labels and floored densities that sum to more than 9,940 and at most 10,000 basis points. |
| `Distributions.FlooredShares` | apps/api-gateway/src/infrastructure/loopback-data-plane.ts:981-987 | Flooring shares of a whole loses less than one basis point each and never gains any. |
| `Distributions.BucketMembers` | apps/api-gateway/src/infrastructure/loopback-data-plane.ts:975-980 | Any value is in bucket i exactly when it lies in the i-th interval, the first and the last one open. |
| `Distributions.WidthExactly` | apps/api-gateway/src/infrastructure/loopback-data-plane.ts:970-971 | Sixty buckets of the width fit into the range and sixty wider ones do not; below sixty paise the width is one. |
| `Distributions.LastBucketSpan` | apps/api-gateway/src/infrastructure/loopback-data-plane.ts:970-973 | The last bucket is wider than the others by at most 59 paise. |
| `NumberExtraction.Extractor.Register` | apps/api-gateway/src/domain/insight-gates.ts:65-71 | A span is recorded exactly when it overlaps none recorded before, and its value once. |
| `NumberExtraction.Extractor.RunPass` | apps/api-gateway/src/domain/insight-gates.ts:87-116 | One exec loop registers, in text order, exactly the matches that the pattern has in the text. |
| `NumberExtraction.ExtractNumbers` | apps/api-gateway/src/domain/insight-gates.ts:61-116 | For every text the results are the distinct values of the greedily chosen matches of the five patterns. |
| `NumberExtraction.ScanIsOrdered` | apps/api-gateway/src/domain/insight-gates.ts:87-116 | The matches of one pattern follow each other without overlap, inside the text. |
| `NumberExtraction.ChosenDisjoint` | apps/api-gateway/src/domain/insight-gates.ts:62-71 | The recorded spans are pairwise disjoint. |
| `NumberExtraction.TakenExactly` | apps/api-gateway/src/domain/insight-gates.ts:65-71 | A match is skipped if and only if an earlier recorded one overlaps it, earlier passes being earlier. |
| `NumberExtraction.ChosenAreTaken` | apps/api-gateway/src/domain/insight-gates.ts:65-71 | What is recorded is exactly the matches not so skipped. |
| `NumberExtraction.FirstPassLosesNone` | apps/api-gateway/src/domain/insight-gates.ts:87-88 | For every text, all matches of the lakh pattern are recorded. |
| `NumberExtraction.DistinctIsEachOnce` | apps/api-gateway/src/domain/insight-gates.ts:70 | The results hold each recorded value, once. |
| `NumberExtraction.AssertInsightFaithfulness` | apps/api-gateway/src/domain/insight-gates.ts:126-151 | Passes if and only if every recorded number is a signal value and every citation a signal; otherwise reports the first offence. |
| `TextScan.OwnScan` | apps/api-gateway/src/domain/insight-gates.ts:87-96 | In any text that goes on with no letter, the pattern of a printed lakh or per cent token finds it once, sign and digits read from the text, with the value it reads back as. |
| `TextScan.ForeignScan` | apps/api-gateway/src/domain/insight-gates.ts:87-96 | The unit patterns of other units find nothing in it. |
| `TextScan.CurrencyScan` | apps/api-gateway/src/domain/insight-gates.ts:98-103 | What the currency pattern finds in it overlaps what its own pattern found. |
| `TextScan.PlainFigure` | apps/api-gateway/src/domain/insight-gates.ts:105-113 | The same for plain numbers. |
| `FigureScan.SkipsProse` | apps/api-gateway/src/domain/insight-gates.ts:74-116 | No pattern finds anything in prose without digits, currencies and approximations, wherever the prose stands. |
| `FigureScan.SkipsDigit` | apps/api-gateway/src/domain/insight-gates.ts:105-113 | A digit behind a word, as in CM2, is no number to any pattern unless a unit follows. |
| `PieceScan.RegistersFigures` | apps/api-gateway/src/domain/insight-gates.ts:61-116 | In every text of calm prose, digits behind words and printed figures, the gate registers the figures, lakhs first, and nothing else. |
| `PieceScan.FindsAreFigures` | apps/api-gateway/src/domain/insight-gates.ts:61-116 | The values registered are exactly those the figures read back as. |
| `WrittenNumbers.UnitTokenRegisters` | apps/api-gateway/src/domain/insight-gates.ts:27-46 | A number with its unit in calm prose, signed or not, with any decimals, behind an approximation and a currency or not: the gate registers it alone, as the number times 100,000 for L, Lakh and Lakhs, 10,000,000 for Cr, Crore and Crores and 100 for a per cent, rounded half up. |
| `WrittenMoney.MoneyRegisters` | apps/api-gateway/src/domain/insight-gates.ts:97-104 | Money in calm prose, behind any of the currencies, with separators and decimals or not: the gate registers alone the whole units written, under their sign. |
| `WrittenMoney.PlainRegisters` | apps/api-gateway/src/domain/insight-gates.ts:105-114 | A plain number in calm prose that no unit follows: the gate registers alone the whole units written, without their sign, which it applies twice. |
| `TokenText.UnitNeedsDigit` | apps/api-gateway/src/domain/insight-gates.ts:33-35 | Every match of a unit pattern, in any text, holds a digit, spaces perhaps, and the beginning of its unit. |
| `Narrator.OneFigure` | apps/api-gateway/src/infrastructure/loopback-data-plane.ts:1034-1038 | Of a printed token alone the gate registers one number, the one it reads back as. |
| `Narrator.LakhRoundTrip` | apps/api-gateway/src/infrastructure/loopback-data-plane.ts:1034-1038 | A lakh token reads back as its signal if and only if the signal is a multiple of 10,000 rupees, and is off by at most 5,000. |
| `Narrator.PercentRoundTrip` | apps/api-gateway/src/infrastructure/loopback-data-plane.ts:1113-1115 | A per cent token reads back if and only if the rate is a whole number of per cent, and is off by at most 50 basis points. |
| `Narrator.PassesExactly` | apps/api-gateway/src/domain/insight-gates.ts:126-151 | A narration of that shape passes if and only if each of its figures reads back as some signal and each citation is one. |
| `Narrator.PagePassesExactly` | apps/api-gateway/src/infrastructure/loopback-data-plane.ts:1097-1131 | Each of the three narrations, headline and body as printed, passes if and only if each of its figures reads back as some signal. |
| `Narrator.SignalsExactly` | apps/api-gateway/src/infrastructure/loopback-data-plane.ts:1040-1058 | The page's seven signals, each under its own id: rupees cut off from the paise of revenue, costs, ad spend and the three margins, and the rate. |
| `Narrator.HoldsInPlace` | apps/api-gateway/src/infrastructure/loopback-data-plane.ts:1097-1108 | The figures of the first text in place: behind CM2 the margin after ads, headline and body. |
| `Narrator.RtoInPlace` | apps/api-gateway/src/infrastructure/loopback-data-plane.ts:1109-1117 | The figures of the second text in place. |
| `Narrator.RoomInPlace` | apps/api-gateway/src/infrastructure/loopback-data-plane.ts:1118-1127 | The figures of the third text in place: behind CM3 the margin after overheads. |
| `Narrator.NarratorIsFaithful` | apps/api-gateway/src/infrastructure/loopback-data-plane.ts:1079-1132 | When the four lakh signals are multiples of 10,000 rupees and the RTO rate of 100 bp, each of the three narrations passes. |
| `Narrator.RevenueOnlyPassesExactly` | apps/api-gateway/src/infrastructure/loopback-data-plane.ts:1097-1131 | With revenue only, r rupees, the CM2 narration passes if and only if r is a multiple of 10,000 or between -5,000 and 4,999. |

## Left out

- Kafka, Postgres, ClickHouse, Redis, gRPC, tRPC and Expo clients: only the maps, logs and parts they act on are modelled.
- `decimalStringToMinorUnits`, `customerRef`, `classifyPaymentMethod`, `resolveGstSlabBp`, `toUpperCase` and date parsing and formatting in the consumer: arbitrary deterministic functions that may throw where the originals may.
- ReplayAgreement.OrdersAgree: assumes transactions that commit; `ReplayConvergence.RollbackLosesMessage` shows what a rollback does. Its second half needs broker stamps on the key's messages, the last one's the latest; `ReplayAgreement.OrdersShown` needs neither.
- ReplayAgreement.OrderAgrees: shared columns only; dates are compared when they can be read, since absent ones fall back to the clock of the delivery.
- Consumer integers: Int32 and Int64 overflow in ClickHouse columns, and fractional line quantities, for which BigInt throws.
- FactsConsumer: the tags column, always empty, and the JSON value `null` in place of an envelope.
- `chInsert`'s allow-list and `workspace_id` row check: guards that the consumer's own calls always pass.
- MoneyConvert.Converts: multipliers that are no power of ten are outside the statement, and multipliers of 10^21 and more, which print with an exponent, outside the model; characters stand for UTF-16 units.
- MoneyAgreement.AgreeIff: amounts beyond Python's 28-digit context, where Decimal itself rounds first or refuses.
- MoneyTexts: NaN and infinities, which Python refuses later, digits outside ASCII, and the few characters that only one language counts as white space.
- MoneyFormat.NonInrRoundTrip: the default locale only; Unicode case of currency codes is not modelled.
- FinalRewriter: words are tokens; regular expressions at character level, comments, string literals and Unicode case are not modelled.
- SqlGrammar: no UNION, no WITH RECURSIVE, no WITH expression AS name, no post-table keyword missing from the source's list such as OFFSET; aliases are not keywords.
- SqlMeaning: expressions, join kinds and tails are interpreted by arbitrary functions of the tables a query may read; `skipFinal` is not used.
- WorkspaceScope: flat single-SELECT queries; subqueries and joins, `query_fact`'s prefix stripping, and the refusal of a blank workspace are outside.
- Isolation: how conditions fall into conjuncts is an arbitrary function, save that `workspace_id = %(name)s` alone is one; only such a conjunct is taken to pin a workspace.
- GatewayRewriter: the word boundary behind a table name is a token boundary; a dot, comma or parenthesis clinging to it counts as part of the word.
- RateLimiter: real numbers instead of floating point; the injectable limiter option.
- Idempotency: expiry after 24 hours, a crash between write and store, `request_id` and `status` in replies, the MANAGER role check, and `clear`.
- IdempotencyOnce.AtMostOneRow: assumes one handler per key at a time; `IdempotencyOnce.OverlappingChecksWriteTwice` shows what happens otherwise, and `IdempotencyRuns.RunConserves` and `IdempotencyRuns.NoRowAfterStore` hold for every interleaving.
- SyncTick: environment parsing and logging; the enumeration of a workspace's vendors is a parameter.
- Scheduler: time; a pending timer may fire at any moment.
- Paradigm: the async wrapper, unknown tiers refused at decoration, and telemetry that throws.
- Cohorts: the averages over cohorts, and the LTV-by-dimension table, which repeats the running sums.
- CohortDrift: the repeat and repurchase rows of the local-db plane, which hold one number.
- Distributions: float division in densities is exact integer division; sorting, search and paging.
- NumberPatterns: characters of the whitespace class are those of `MoneyConvert.IsSpace`, and values with a point are exact where the source goes through Number; optional parts give nothing back where what must follow could not begin inside them.
- WrittenMoney.MoneyRegisters, WrittenNumbers.UnitTokenRegisters: one space at most in front of a token and between number and unit, and no separator right behind money.
- Narrator.LakhRoundTrip: exact arithmetic instead of Number; amounts of 10^21 lakhs and more would print with an exponent.
- The injection and tool-reach assertions, seed constants, empty results, registries, web and mobile screens: easy members or input and output.
