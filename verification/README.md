# Portfolio AI: a verified model of its cores

This project models four parts of Portfolio AI and proves what holds of them on every input, every run or every
reachable state.

* **Backups** (`Segments`, `StorageKeys`, `UploadTree`, `Directory`, `Artifact`, `ArtifactIntegrity`,
  `ArtifactCreation`, `ArtifactRestore`, `UploadMerge`). The protocol that creates, verifies, extracts, restores,
  installs and merges upload trees. A directory and a merge target are classes whose entries change one system call at
  a time; they keep every state they have been in, so a claim about "every moment" covers a stop between any two
  calls. An oracle decides which call fails, and for the merge what another process adds in between. Digest, archive
  format, JSON format and listing order are parameters (`Artifact.Env`), assumed only to read back what this tool
  writes and to list every entry once (`Artifact.Faithful`).
* **Backtests** (`Ledger`, `Engine`, `Replay`, `Discipline`, `OnlyRecord`, `LookAhead`, `Metrics`, `WalkForward`). The
  portfolio that the day loop updates in place (`Engine`, classes), the function of the bars that it computes
  (`Replay`), that its trades and snapshots are those the strategy asked for (`Discipline`) and no others would be
  (`OnlyRecord`), and when later bars can change what it says about earlier days (`LookAhead`).
* **Portfolio mathematics** (`Calendar`, `Arith`, `Series`, `RiskMetrics`, `Covariance`, `CovarianceStore`,
  `RaggedPanel`, `MixedRefreshes`, `PortfolioPerformance`). Decimals and floats are exact reals; a square root is a
  function parameter that is non-negative and squares back.
* **Two agreement cores**. The change-detected history log against a log of everything (`ConditionsHistory`), and the
  proxy's decode, check and re-encode of path segments (`UriComponent`, `UpstreamProxy`).

A method that loops or updates state is proved against a function of its inputs or its old state; the lemmas are about
that function.

## What the code does that its documentation does not say

Each of these is a lemma or an if-and-only-if in the table below.

* An archive can verify and yet never be restorable: nothing rejects one key nested under another (`NestedKeysVerify`;
  `ExtractUploads` gives the exact condition).
* If an archive has valid names, a valid manifest that describes a database and uploads, and no member called
  `database.dump`, verification ends in a `KeyError` instead of an `ArtifactError` (`ManifestAloneLacksDatabase`).
* `_safe_storage_key` accepts the key `.`; only the member name check keeps it out of an accepted archive.
* A backup of a dump with the PostgreSQL magic and of a quiet tree without symbolic links fails exactly when its
  manifest is over 1 MiB or the output is a directory.
* `enter_trade` on a symbol that is already held overwrites the position and loses its cost. This belongs to that
  function alone: the day loop enters only when the symbol is not held.
* Moving a start before the first bar forward never rescues a request, because a year of history is then missing.
* The 10000-row fetch lets later data change earlier days, by losing them or by shortening their windows
  (`NoLookAheadIff`, `LaterRowsEraseEarlierDays`); nothing else does.
* With negative equity the running peak need not be the worst starting day. This belongs to the drawdown functions
  alone: a backtest with non-negative capital never has negative equity.
* A fold whose test period would end on the last day is dropped.
* Aligning dates pair by pair can make the variance of a long-only portfolio negative as soon as two symbols differ in
  one day, so the clamp is not dead code; it can also make the diversification benefit negative
  (`PairwiseBenefitSafeIff`).
* A stored matrix may mix rows of refreshes up to a day apart, and can then have a negative variance although each
  refresh saw one set of dates (`MixedTimesCanGoNegative`).
* `calculate_simple_max_drawdown` documents a fraction from 0 to 1; it exceeds 1 exactly when the running totals fall
  below zero after being positive.
* The single-asset shortcut agrees with the general formula exactly when the weight has size one or nothing moves.
* `get_covariance_matrix` never answers for one symbol or for a list that names a symbol twice, so the shortcut is not
  reached from `get_portfolio_volatility`.
* `record` reads and inserts in separate statements, so calls can log one headline twice: exactly when one inserts
  between another's read and insert (`OverlapSafeIff`).
* `record` alone would lose a live tape in a payload without headline numbers; the application builds no such payload.
  A held tape is dated when its values were first seen.

## Model

| member | source | states |
|---|---|---|
| StorageKeys.SafeKeyIff | scripts/portfolio_backup_artifact.py:46-55 | the key check accepts the lone dot and otherwise exactly the slash-joined paths of good names |
| StorageKeys.KeyRoundTrip | scripts/portfolio_backup_artifact.py:68-69 | the key of any file below a root passes the check and parses back to that file's path |
| StorageKeys.UploadMemberValidIff | scripts/portfolio_backup_artifact.py:185-200 | under the uploads prefix a member name is valid exactly when its key is safe and not the lone dot |
| Segments.SplitInvertsJoin | frontend/lib/upstream-proxy.ts:169 | cutting a joined text at the separator gives back the same pieces |
| Artifact.VerifyArtifact | scripts/portfolio_backup_artifact.py:249-324 | accepts exactly the files that meet the declarative condition `AcceptableFile`, and ends in a missing-database error exactly when `FileLacksDatabase`; what is accepted is spelled out: nothing but manifest.json, database.dump and members under uploads/, no two under one name, a manifest of at most 1 MiB of application portfolio-ai and schema 1, and a dump that starts with PGDMP and has the stated size and digest |
| Artifact.AcceptedManifest | scripts/portfolio_backup_artifact.py:203-225 | a file is accepted with the manifest it holds and no other |
| Artifact.EqualsIntIff | scripts/portfolio_backup_artifact.py:219-245 | a JSON value equals a whole number as in Python: the integer, the float of that value, or the boolean for 0 or 1 |
| Artifact.FalsyIff | scripts/portfolio_backup_artifact.py:294 | the values for which a storage key is taken as missing |
| Artifact.CheckNames | scripts/portfolio_backup_artifact.py:255-260 | the loop accepts exactly distinct valid names of files and directories |
| Artifact.ManifestFromArchive | scripts/portfolio_backup_artifact.py:203-225 | returns the manifest exactly when the member is a regular file within 1 MiB that parses to an object of this schema and application |
| Artifact.CheckedPayload | scripts/portfolio_backup_artifact.py:228-246 | accepts exactly a regular member whose size and digest are the expected ones |
| Artifact.CheckDatabase | scripts/portfolio_backup_artifact.py:262-284 | the database checks in order, with the escape for a missing member |
| Artifact.CheckRows | scripts/portfolio_backup_artifact.py:289-307 | the row loop accepts exactly distinct keys whose members match, and adds up their sizes |
| Artifact.CheckUploads | scripts/portfolio_backup_artifact.py:286-319 | rows, members, count and total agree, both directions |
| ArtifactIntegrity.AcceptedInventoryIsExact | scripts/portfolio_backup_artifact.py:289-319 | acceptance means upload members and rows are in exact correspondence, and the declared count and total are those of the archive's own members |
| ArtifactIntegrity.RowDescribesMember | scripts/portfolio_backup_artifact.py:291-307 | an accepted row carries the size and digest of the member it names, and its key is never the lone dot |
| ArtifactIntegrity.ManifestFixesContent | scripts/portfolio_backup_artifact.py:228-246 | without digest collisions two accepted archives with one manifest hold the same dump and the same uploads |
| ArtifactCreation.ManifestAloneLacksDatabase | scripts/portfolio_backup_artifact.py:262-276 | an archive of nothing but its manifest ends verification with the missing-member error |
| ArtifactCreation.HashUploads | scripts/portfolio_backup_artifact.py:107-112 | on a disk at rest the first pass lists every regular file with its size and digest, and does not fail; a tree that does not move and holds a symbolic link fails it |
| ArtifactCreation.CopyUploads | scripts/portfolio_backup_artifact.py:159-169 | on a disk at rest the second pass copies exactly the listed files |
| ArtifactCreation.QuietArchiveAcceptedIff | scripts/portfolio_backup_artifact.py:90-182 | the archive of a dump and tree at rest is accepted exactly when its manifest is within the size bound, and only with its own manifest |
| ArtifactCreation.Publish | scripts/portfolio_backup_artifact.py:170-178 | the output is replaced in one step and only by an archive that verifies |
| ArtifactCreation.CreateArtifact | scripts/portfolio_backup_artifact.py:90-182 | whatever fails and however uploads move between the passes, at every moment the output is its old self or an artifact that verifies, and nothing but the temporary file differs besides; the manifest returned carries the given time, mode, database name and uploads prefix each in its own field, and is the one read back from the bytes of the output; what does not move is backed up only if it is a custom-format dump and uploads without symbolic links; at rest it succeeds exactly when the manifest fits and the output is no directory, leaving exactly that archive |
| ArtifactCreation.ManifestCarries | scripts/portfolio_backup_artifact.py:114-133 | whatever the dump and the rows, the manifest carries the given time, mode, database name and the uploads prefix |
| ArtifactRestore.ExtractDatabase | scripts/portfolio_backup_artifact.py:327-340 | writes out the dump of exactly the artifacts that verify; the overwrite is in place, so at every moment the output is its old self or a first part of the dump, and an artifact that does not verify changes nothing |
| ArtifactRestore.ExtractUploads | scripts/portfolio_backup_artifact.py:343-370 | unpacks the least tree holding the rows' files; without faults it succeeds exactly when the artifact verifies and no key nests under another |
| ArtifactRestore.QuietRoundTrip | scripts/portfolio_backup_artifact.py:90-182 | a backup at rest whose manifest fits verifies, gives back the same dump bytes and the same key-to-bytes map, and always unpacks |
| ArtifactRestore.RestoredTree | scripts/portfolio_backup_artifact.py:343-370 | what is restored is the old tree without its empty folders and special entries, and equals it exactly when it has none |
| ArtifactRestore.NestedKeysVerify | scripts/portfolio_backup_artifact.py:249-320 | a concrete archive with nested keys verifies and cannot be unpacked |
| UploadTree.PutFileUnpacks | scripts/portfolio_backup_artifact.py:355-365 | making folders and creating exclusively succeeds exactly when no other file's path extends it or is extended by it |
| UploadTree.AddFoldersIs | scripts/portfolio_backup_artifact.py:401 | making parents succeeds exactly when only folders are on the way, and adds only the missing ones |
| UploadTree.UnpackedIsUnique | scripts/portfolio_backup_artifact.py:351-370 | the files determine the unpacked tree |
| ArtifactRestore.InstallStagedUploads | scripts/portfolio_backup_artifact.py:453-485 | at every moment the target is the old tree, the staged tree, or absent with the old tree whole under the previous name; how each exit leaves the directory; one failure alone never strands the old tree |
| ArtifactRestore.RestoreUploads | scripts/portfolio_backup_artifact.py:373-383 | the same for a whole restore from an artifact, with the exact condition of success without faults |
| UploadMerge.MergeFile | scripts/portfolio_backup_artifact.py:399-443 | one upload is identical by digest and size, copied where nothing stood, or a conflict; on a quiet target exactly when it is compatible |
| UploadMerge.MergeUploadRoots | scripts/portfolio_backup_artifact.py:386-450 | whoever else adds entries, no node but the run's own temporary file ever changes or disappears, on failing runs too; success means every upload is there by digest and size and copied + identical is the number of source files; on a quiet target it succeeds exactly when everything is compatible |
| UploadMerge.NeverPartial | scripts/portfolio_backup_artifact.py:416-443 | a path is absent, whole, or the run's own temporary file at each moment |
| UploadMerge.SameCompatibility | scripts/portfolio_backup_artifact.py:399-411 | what the merge itself has added never makes a later upload a conflict |
| UploadMerge.MergedIsUnion | scripts/portfolio_backup_artifact.py:386-450 | without digest collisions a quiet merge leaves the union of the two sets of files |
| UploadMerge.CopiedAreMissing | scripts/portfolio_backup_artifact.py:413-450 | it copies exactly the uploads the target did not have |
| UploadMerge.MergeTwice | scripts/portfolio_backup_artifact.py:386-450 | a second run copies nothing, and on a quiet target succeeds |
| Engine.Position.UpdateExcursions | backend/app/backtest/replay.py:41-47 | the position becomes the revalued holding |
| Engine.BacktestState.RecordEquitySnapshot | backend/app/backtest/replay.py:83-115 | the state becomes the recorded book: peak, drawdown and curve |
| Engine.BacktestState.PositionValue | backend/app/backtest/replay.py:87-90 | the sum over open positions is their market value |
| Engine.BacktestState.HasPosition | backend/app/backtest/replay.py:63-65 | true exactly when the symbol is held |
| Engine.EnterTrade | backend/app/backtest/replay.py:256-286 | the state becomes the entered book |
| Engine.ExitTrade | backend/app/backtest/replay.py:289-346 | the state becomes the exited book; an unheld symbol changes nothing |
| Engine.TradeDay | backend/app/backtest/replay.py:525-578 | the state becomes the day's book: a position held in the morning is sold at the close, with the strategy's reason, exactly when the strategy says so of the revalued holding; one is bought exactly when none is held then, the strategy wants one and a positive size is affordable; the snapshot tells cash, value and their sum |
| Engine.ReplayBacktest | backend/app/backtest/replay.py:406-593 | the classes leave the book that `Backtest` describes, or its failure; its trades and equity curve are those of a run that follows the strategy (`Follows`) over exactly the rows of the request |
| Ledger.ExitConserves | backend/app/backtest/replay.py:289-346 | closing at any price keeps cash + cost of positions - closed profit |
| Ledger.EnterConservesIff | backend/app/backtest/replay.py:256-286 | opening keeps it exactly when no position of non-zero cost is overwritten |
| Ledger.ExitIsEquityNeutral | backend/app/backtest/replay.py:289-346 | selling at the valuing price leaves equity unchanged |
| Ledger.EnterIsEquityNeutral | backend/app/backtest/replay.py:256-286 | buying at the valuing price leaves equity unchanged |
| Arith.TruncateIff | backend/app/backtest/replay.py:239-246 | the whole part of a number, toward zero on both sides |
| Ledger.SizeIsLargestAffordable | backend/app/backtest/replay.py:222-253 | a size never costs more than cash, and a negative size value buys nothing; in shares it is the whole part of the size value, in dollars the largest whole number of shares within the budget, or nothing when cash is short |
| Replay.EarlyStartIsInsufficient | backend/app/backtest/replay.py:449-470 | a start before the first bar always ends in insufficient data |
| Replay.TradedKeeps | backend/app/backtest/replay.py:554-574 | a day's trading keeps conservation, cash at least zero, at most one position, ordered trades, and excursions that span each result |
| Replay.TradedIsNeutral | backend/app/backtest/replay.py:554-574 | a day's trading at the close leaves equity at that close unchanged |
| Replay.DayKeeps | backend/app/backtest/replay.py:525-578 | one loop pass keeps the run invariant and moves equity by the shares held overnight |
| Replay.DaysKeep | backend/app/backtest/replay.py:525-578 | the invariant holds after any number of days, with one snapshot a day |
| Replay.EquityMovesByOvernightShares | backend/app/backtest/replay.py:559-578 | the first snapshot is the capital, and each change is shares held overnight times the change in close |
| Replay.BacktestIsSound | backend/app/backtest/replay.py:406-593 | every completed backtest: final cash = capital + closed profit = last snapshot's equity, no snapshot has negative cash or equity, profit factor above one exactly when cash grew, all trades in order with spanning excursions, each day's drawdown is the drop from the highest equity so far, both drawdowns agree |
| Discipline.StrategyIsFollowed | backend/app/backtest/replay.py:525-586 | every completed backtest, told from trades and snapshots alone: a position is opened exactly on days with none held, the strategy wanting one and a positive size, at that close; it is closed on the first later day the strategy says so of the holding revalued through that day, at that close and with that reason; the only other close is the last one, with reason eod; each snapshot values what is held, and equity moves by the shares held overnight; each day is shown the row of its date and the rows before it that the loop may see |
| OnlyRecord.BacktestIsOnlyRecord | backend/app/backtest/replay.py:525-586 | what a completed backtest reports is the only record of the request's days that follows the strategy: any other trades or snapshots, of whatever stays, do not |
| OnlyRecord.OneRecord | backend/app/backtest/replay.py:525-586 | two records that follow one strategy on the same days have the same trades, dates, equities, cash and position values |
| Discipline.LoopFollows | backend/app/backtest/replay.py:525-578 | the same of the loop after any number of days, with the position still open among the stays |
| Discipline.DayIsDone | backend/app/backtest/replay.py:554-578 | one pass of the loop: revalue, sell if asked, buy if wanted and affordable, snapshot |
| Discipline.RequestSights | backend/app/backtest/replay.py:498-541 | the days of a request are neighbouring rows: from its start to its end but for those with 10000 rows or more behind them up to the end; each is shown at most 300 rows that end with its own |
| Discipline.CompletedIff | backend/app/backtest/replay.py:437-522 | a request completes exactly when the table reaches 365 days behind its start, the start is before its end and before the last row, and a row lies between; which of the two errors it ends in otherwise |
| Discipline.ExcursionsAreExtremes | backend/app/backtest/replay.py:554-557 | the excursions a position carries are the extremes of zero and its returns at the closes since its entry |
| Discipline.ReturnTimesEntry | backend/app/backtest/replay.py:320 | a return in percent times the entry price is a hundred times the change in price |
| Replay.RecordedDrawdownIsWorstPair | backend/app/backtest/replay.py:93-101 | with non-negative capital the largest drawdown recorded day by day is the worst drop between any two days of the run, attained, and in [0, 100] |
| LookAhead.NoLookAhead | backend/app/backtest/replay.py:498-578 | tables that agree up to a day give the same snapshots and the same in-loop trades up to that day, when both runs reach back to the same rows |
| LookAhead.NoLookAheadIff | backend/app/backtest/replay.py:498-578 | the records agree for every strategy and capital exactly when the two runs reach back alike, a count of rows |
| LookAhead.SmallTablesNeverLookAhead | backend/app/backtest/replay.py:498-503 | tables within the 10000 rows always agree |
| LookAhead.LaterRowsEraseEarlierDays | backend/app/backtest/replay.py:498-522 | a pair of tables equal up to day 499: with rows to day 10499 the completed backtest has none of the days to 499 that it has with rows to day 499 |
| LookAhead.DayLostToFetchLimitIff | backend/app/backtest/replay.py:498-503 | a day is lost exactly when 10000 or more rows follow it |
| LookAhead.LoopRecordUntil | backend/app/backtest/replay.py:525-586 | a run's record up to a day is the record of the loop stopped after that day |
| Replay.RecordedKeepsCurve | backend/app/backtest/replay.py:83-115 | the engine's peak is the curve's peak, each day's drawdown is the drop from the highest equity so far, and the largest is the curve's maximum drawdown, snapshot by snapshot |
| Metrics.CalculateMaxDrawdown | backend/app/backtest/metrics.py:36-62 | the loop computes the largest drop from the running peak |
| Metrics.MaxDrawdownIsWorstPair | backend/app/backtest/metrics.py:36-62 | where every day meets the guard below, as on a curve never negative, it is the maximum over all pairs of days, attained, and at least 0; at most 100 on a curve never negative |
| Metrics.PeakIsWorstStartIff | backend/app/backtest/metrics.py:52-60 | the running peak is a day's worst start exactly when its equity is not negative or no positive level below the peak comes before it |
| Metrics.CurveFromPeakIff | backend/app/backtest/metrics.py:36-62 | the same for all days of a curve at once |
| Metrics.MaxDrawdownBoundsPairsIff | backend/app/backtest/metrics.py:36-62 | the maximum drawdown bounds all pairs exactly when, for each pair from a positive level below the running peak to below zero, some day keeps no larger share of its running peak: a condition on the curve's levels alone |
| Metrics.MaxDrawdownWithinHundredIff | backend/app/backtest/metrics.py:36-62 | it is at most 100 exactly when no day with a positive peak behind it is below zero |
| Metrics.FractionIff | backend/app/backtest/metrics.py:65-90 | the drawdown over trade results is a fraction from 0 to 1 exactly when the running totals never fall below zero after being positive |
| Metrics.NegativeEquityBreaksPairs | backend/app/backtest/metrics.py:65-90 | profits of 1, 1 and -3: the running totals have a worse pair than the peak's, and fail the guard |
| Metrics.CalculateSimpleMaxDrawdown | backend/app/backtest/metrics.py:65-90 | the drawdown of the running totals, as a fraction |
| Metrics.ProfitFactorAboveOneIff | backend/app/backtest/metrics.py:208-238 | wins are the factor times the losses, 999 and 0 where there are none; above one exactly when total profit is positive |
| Metrics.RealizedIsWinsPlusLosses | backend/app/backtest/metrics.py:208-238 | wins less losses is the total profit |
| WalkForward.WalkForwardEngine.CreateWindows | backend/app/backtest/walk_forward.py:139-187 | terminates for every positive step; fold k starts k steps in, is numbered k + 1, has the stated periods, and there are exactly `FoldCount` |
| WalkForward.CountIsWholeSteps | backend/app/backtest/walk_forward.py:158 | the count is the whole number of steps that leave room, plus one, or zero |
| WalkForward.FoldScheduledIff | backend/app/backtest/walk_forward.py:158 | a start is scheduled exactly when a whole fold fits before the end |
| WalkForward.FoldEndingOnLastDayIsDropped | backend/app/backtest/walk_forward.py:158-171 | a fold that would end in time is left out exactly when its test ends on the last day |
| WalkForward.TestPeriodsAreDisjoint | backend/app/backtest/walk_forward.py:158-185 | periods of a fold are separated by the gap, and test periods never overlap when the step covers a test |
| RiskMetrics.TailIsLeast | backend/app/analytics/risk_metrics.py:57-96 | the worst k returns have the least sum of any k of them |
| RiskMetrics.SortedIsNondecreasing | backend/app/analytics/risk_metrics.py:57-96 | the order the tail is cut from |
| RiskMetrics.CvarSubadditive | backend/app/analytics/risk_metrics.py:57-96 | CVaR of a non-negative combination on shared dates is at most the weighted CVaRs |
| RiskMetrics.PortfolioIsCombination | backend/app/analytics/risk_metrics.py:331-346 | the day-by-day weighted sum is the weighted combination of the holdings' series |
| RiskMetrics.PortfolioCvarSubadditive | backend/app/analytics/risk_metrics.py:309-348 | what the portfolio function returns never exceeds the weighted CVaRs of the holdings on the shared dates |
| RiskMetrics.CalculatePortfolioVar | backend/app/analytics/risk_metrics.py:309-348 | nothing exactly for no positions or fewer than 30 shared dates; else the tail risk at 95% of the weighted returns on exactly the dates that all histories share, told by counting: the returns below the VaR return number at most 5% of them and those at or below it more, CVaR is minus the average of the least sum of any k returns for the k with k - 1 <= 5% < k, and CVaR is at least VaR |
| RiskMetrics.CutsOffTail | backend/app/analytics/risk_metrics.py:76-96 | for every confidence and every series of 30 or more: the value at risk is one of the losses and cuts the tail off by count, the conditional one is the average over the cheapest choice of as many returns, attained and never smaller than the first |
| RiskMetrics.TailAttained | backend/app/analytics/risk_metrics.py:90-93 | some choice of k returns has the sum of the k worst |
| RiskMetrics.HistoryIsReturns | backend/app/analytics/risk_metrics.py:128-137 | in the dictionary of a price history a day has a return exactly when a positive close comes just before it: the change as a share of that close |
| RiskMetrics.GetDailyReturns | backend/app/analytics/risk_metrics.py:99-139 | the loop lists one return for each neighbouring pair of closes |
| RiskMetrics.ReturnsCompoundToPrices | backend/app/analytics/risk_metrics.py:99-139 | compounding the returns gives back the price path |
| RiskMetrics.AlignByDate | backend/app/analytics/risk_metrics.py:178-185 | keeps exactly the stock returns on dates the market has, in order, each beside the market's return of its own date |
| RiskMetrics.CalculateBeta | backend/app/analytics/risk_metrics.py:159-213 | over the stock and market returns of the dates both have: there is a fit exactly for 30 or more of them and a market that moves; then its line has the least residuals of all lines, R-squared is in [0, 1], and one less R-squared is the unexplained share |
| RiskMetrics.BetaIsLeastSquares | backend/app/analytics/risk_metrics.py:187-205 | the slope with the intercept through the means has the least residuals of all lines and is the only one |
| RiskMetrics.RSquaredIsExplainedShare | backend/app/analytics/risk_metrics.py:200-213 | R-squared is in [0, 1] and is one less the unexplained share |
| Series.CauchySchwarz | backend/app/analytics/covariance_calc.py:115-125 | squared covariance is at most the product of variances |
| Covariance.CorrelationRange | backend/app/analytics/covariance_calc.py:94-127 | correlation is in [-1, 1] and symmetric |
| Covariance.CalculatePortfolioVolatility | backend/app/analytics/covariance_calc.py:182-226 | the double loop, the shortcut and the clamp compute `PortfolioVolatility` |
| Covariance.QuadraticFormIsDot | backend/app/analytics/covariance_calc.py:209-216 | the double loop is the weights against the matrix applied to them |
| Covariance.AnswerMeasures | backend/app/analytics/covariance_storage.py:263-284 | for two or more holdings: the volatility is not negative and its square is 252 times the double sum, or zero where that is negative; the average is the weights against the annual deviations of the diagonal; the benefit times the average is the average less the volatility, or the benefit is zero |
| Covariance.QuadraticFormIsVariance | backend/app/analytics/covariance_calc.py:209-216 | on one panel the double sum is the variance of the weighted series, so never negative |
| Covariance.VarianceBelowAverage | backend/app/analytics/covariance_calc.py:209-216 | for long-only weights it is at most the squared weighted average deviation |
| Covariance.VolatilityBelowAverage | backend/app/analytics/covariance_calc.py:182-226 | so volatility is at most the weighted average volatility |
| Covariance.BenefitInUnitInterval | backend/app/analytics/covariance_storage.py:273-284 | the diversification benefit lies in [0, 1] on one panel |
| Covariance.SingleAssetShortcutIff | backend/app/analytics/covariance_calc.py:203-207 | the shortcut gives the general answer exactly when the weight has size one or the variance is zero |
| RaggedPanel.PairwiseDatesSafeIff | backend/app/analytics/covariance_storage.py:81-138 | for symbols whose pairs all share enough days: every fully invested long-only variance is non-negative, whatever the positive closes, exactly when all symbols have their returns on the same days |
| RaggedPanel.PairwiseBenefitSafeIff | backend/app/analytics/covariance_storage.py:251-284 | for the same symbols: the diversification benefit is in [0, 1], whatever the positive closes and long-only weights, exactly when all symbols have their returns on the same days |
| RaggedPanel.PairwiseDatesCanGoNegative | backend/app/analytics/covariance_calc.py:209-224 | closes of two symbols, one history a day shorter: half of each has a negative double sum, and the clamp reports the root of zero |
| RaggedPanel.PathReturns | backend/app/analytics/covariance_calc.py:70-89 | the returns that stepping closes give: one for every day but the first, non-zero on the two steps |
| CovarianceStorage.CovarianceStore.UpdateCovarianceMatrix | backend/app/analytics/covariance_storage.py:47-147 | afterwards exactly the pairs with enough common dates carry the fresh row of their direction; all other rows are untouched |
| CovarianceStorage.CovarianceStore.GetCovarianceMatrix | backend/app/analytics/covariance_storage.py:150-202 | answers exactly for two or more distinct symbols all of whose pairs are stored and fresh, and then with the stored covariance of every pair of them and nothing else |
| CovarianceStorage.CovarianceStore.GetPortfolioVolatility | backend/app/analytics/covariance_storage.py:205-284 | answers from the stored matrix and leaves the table alone, or else refreshes it, states the whole refreshed table, and answers from that; every answer measures the stored covariances (`Measures`): its square, its average and benefit x average = average - volatility; a long-only portfolio on one panel then gets a volatility at most the average and a benefit in [0, 1] |
| CovarianceStorage.ComputeAnswer | backend/app/analytics/covariance_storage.py:263-284 | volatility, weighted average and benefit as they are measured by the matrix: squared volatility is 252 times the non-negative part of the double sum, and benefit x average = average - volatility where the average is positive, else the benefit is zero |
| CovarianceStorage.RowOfMeasures | backend/app/analytics/covariance_storage.py:89-138 | a row tells the covariance over the shared dates in order, each annual deviation by its square, and the correlation that ties the three, zero where either does not move |
| CovarianceStorage.RefreshWrites | backend/app/analytics/covariance_storage.py:81-138 | each pair with 60 or more shared dates is measured anew, and nothing else in the table changes |
| CovarianceStorage.RefreshKeepsSymmetry | backend/app/analytics/covariance_storage.py:109-138 | a refresh keeps the table symmetric, with the two deviations swapped |
| CovarianceStorage.MatrixAvailableIff | backend/app/analytics/covariance_storage.py:165-202 | the table answers exactly for two or more distinct symbols all of whose pairs are fresh |
| CovarianceStorage.RefreshedMatrixIsPanel | backend/app/analytics/covariance_storage.py:81-138 | after a refresh from one panel the matrix read back is that panel's covariances |
| CovarianceStorage.RefreshedAnswerIsSound | backend/app/analytics/covariance_storage.py:251-284 | so the answer has a volatility at most the average and a benefit in [0, 1] |
| CovarianceStorage.OneTimeIsOneRefresh | backend/app/analytics/covariance_storage.py:79-138 | over any history of refreshes, rows with one common time all come from one refresh |
| CovarianceStorage.OneTimeAnswerIsSound | backend/app/analytics/covariance_storage.py:150-284 | so a stored matrix with one common time obeys the same bounds if that refresh saw one panel, whatever refreshes came before or after |
| MixedRefreshes.MixedTimesCanGoNegative | backend/app/analytics/covariance_storage.py:150-202 | two refreshes of the same closes a day apart, each of one panel: the table still answers for two symbols with rows of both times, and half of each has a negative double sum |
| PortfolioPerformance.CalculateAlignedReturns | backend/app/analytics/portfolio_performance.py:40-81 | the loops and early exits compute `AlignedReturns` |
| PortfolioPerformance.PairwiseReturns | backend/app/analytics/portfolio_performance.py:61-81 | the loop stops at the first interval without a return, for that interval's reason |
| PortfolioPerformance.PublishedSeriesReconciles | backend/app/analytics/portfolio_performance.py:40-81 | a published series covers every session in range for every account, gains are last value - first value - flows, all returns are at least -1 |
| PortfolioPerformance.OneInterval | backend/app/analytics/portfolio_performance.py:62-69 | each day after the first lies in exactly one interval |
| PortfolioPerformance.FlowSplits | backend/app/analytics/portfolio_performance.py:65-69 | flows over adjoining intervals add up |
| PortfolioPerformance.GainsAccount | backend/app/analytics/portfolio_performance.py:62-80 | returns times their capital bases sum to the unexplained change in value |
| PortfolioPerformance.IntervalReturnIff | backend/app/analytics/portfolio_performance.py:70-80 | an interval has a return exactly when its base is positive, its values are not negative and half its flow is at most its end value |
| PortfolioPerformance.PublishedIff | backend/app/analytics/portfolio_performance.py:61-81 | a series is published exactly when every interval is sound |
| PortfolioPerformance.StopsForReason | backend/app/analytics/portfolio_performance.py:61-81 | a series is withheld for its first unsound interval, for its capital base or as unreconciled |
| PortfolioPerformance.WithheldFor | backend/app/analytics/portfolio_performance.py:46-60 | the three reasons before any return: nothing given, fewer than two days valued for every account, a session between such days that is not |
| PortfolioPerformance.GrowthIsOfValue | backend/app/analytics/portfolio_performance.py:212 | without flows the cumulative growth is the growth in value |
| PortfolioPerformance.ValueAdds | backend/app/analytics/portfolio_performance.py:63-64 | what accounts are worth together is the sum of what each is worth |
| PortfolioPerformance.GrowthNonNegative | backend/app/analytics/portfolio_performance.py:212 | the cumulative return is at least -1 |
| PortfolioPerformance.BuildSessions | backend/app/analytics/portfolio_performance.py:188-192 | every trading day between two dates, ascending, each once |
| PortfolioPerformance.BuildFlows | backend/app/analytics/portfolio_performance.py:170-187 | flows exactly when every activity in the period is in dollars, of a known name and has its amount if external, else the first that is not decides the outcome; over every interval inside the period and for any accounts the flows are the amounts of contributions less those of withdrawals, whatever the provider's sign |
| PortfolioPerformance.GroupedFlowsAreActivities | backend/app/analytics/portfolio_performance.py:170-187 | grouping by account and day loses no money: over any interval in the period the flows are contributions less withdrawals of the selected accounts |
| PortfolioPerformance.ReportReconciles | backend/app/analytics/portfolio_performance.py:170-193 | end to end, gains are the change in value less contributions plus withdrawals of the selected accounts, read off the activities by name |
| ConditionsHistory.HistoryLog.Record | backend/app/macro_gate/conditions_history.py:87-127 | one row more, carrying the payload's own fields and the time, exactly when the database answers, the payload can be stored and the last row reads otherwise; else nothing changes |
| ConditionsHistory.HistoryLog.LatestRow | backend/app/macro_gate/conditions_history.py:40-61 | the headline of the last row |
| ConditionsHistory.HistoryLog.GetLastLiveTape | backend/app/macro_gate/conditions_history.py:130-157 | the reading of the last row with an available tape and a score, or none when there is no such row |
| ConditionsHistory.SameKeyIff | backend/app/macro_gate/conditions_history.py:31-37 | two headlines have one key exactly when they agree on the trading day and the five tracked fields |
| ConditionsHistory.NoRepeats | backend/app/macro_gate/conditions_history.py:79-99 | for calls that do not overlap, no two neighbouring rows agree on date and tracked keys, whatever failed in between |
| ConditionsHistory.OverlapSafeIff | backend/app/macro_gate/conditions_history.py:96-124 | for any interleaving of reads and inserts: neighbouring rows differ whatever the payloads, exactly when no call that has read inserts between another call's read and insert |
| ConditionsHistory.OverlapRepeats | backend/app/macro_gate/conditions_history.py:96-124 | an instance: two calls with one payload that both read before either inserts cross, and log it twice |
| ConditionsHistory.UndisturbedIsRecorded | backend/app/macro_gate/conditions_history.py:87-127 | a call whose read and insert are not interrupted does what the one-step model says |
| ConditionsHistory.LogOnlyAppends | backend/app/macro_gate/conditions_history.py:87-127 | logging appends rows with later times and changes none |
| ConditionsHistory.SparseLogIsFullLog | backend/app/macro_gate/conditions_history.py:87-127 | when every write is answered the log, read as a step function, tells at every payload's time what a log of every payload tells |
| ConditionsHistory.HeadlineInForceIff | backend/app/macro_gate/conditions_history.py:87-127 | whatever other writes fail, the log tells a payload's headline at its time exactly when its own write is answered or the log told it already |
| ConditionsHistory.AnsweredWriteCatchesUp | backend/app/macro_gate/conditions_history.py:96-127 | one answered write makes the log agree with the payload just sent |
| ConditionsHistory.LastLiveTapeAgrees | backend/app/macro_gate/conditions_history.py:130-157 | both logs hold the same live reading, dated no later in the sparse one |
| ConditionsHistory.LivePayloadHeldIff | backend/app/macro_gate/conditions_history.py:87-157 | a live payload is what the log holds next exactly when it can be logged or is already held |
| ConditionsHistory.TapeBringsCaution | backend/app/macro_gate/conditions.py:204-237 | a payload built with a tape score has a caution score, so it is never blank |
| ConditionsHistory.LastLiveTapeIsOfAllPayloads | backend/app/macro_gate/conditions_history.py:87-157 | for payloads the application builds, the log's last live reading is that of all payloads, blank ones included |
| ConditionsHistory.BlankLivePayloadIsLost | backend/app/macro_gate/conditions_history.py:94-95 | a live payload, not one the application builds, that `record` alone loses |
| ConditionsHistory.LiveTimeIsFreshIff | backend/app/macro_gate/conditions_history.py:98-99 | a reading carries the payload's own time exactly when it was logged and not suppressed as unchanged |
| UriComponent.DecodeInvertsEncode | frontend/lib/upstream-proxy.ts:138-160 | decoding an encoded string gives it back |
| UriComponent.EncodeDefinedIff | frontend/lib/upstream-proxy.ts:160 | encoding fails exactly on a lone surrogate |
| UriComponent.EncodedAlphabet | frontend/lib/upstream-proxy.ts:160 | encoded text holds only unreserved characters and percent signs |
| UriComponent.EncodedIsWhole | frontend/lib/upstream-proxy.ts:160 | every percent sign of an encoded text starts an escape of two upper-case digits, and text of unreserved characters is not changed |
| UriComponent.UnreservedIff | frontend/lib/upstream-proxy.ts:160 | the characters that stand for themselves |
| UriComponent.EncodedExamples | frontend/lib/upstream-proxy.ts:160 | a character of two, three and four octets each, the last a surrogate pair |
| UriComponent.Utf8RoundTrip | frontend/lib/upstream-proxy.ts:138-160 | the octets of a code point are accepted and give it back |
| UriComponent.Utf8PointIff | frontend/lib/upstream-proxy.ts:138-144 | the octet groups that are read are exactly those that are written: no overlong form, no surrogate |
| UpstreamProxy.DecodesToChecked | frontend/lib/upstream-proxy.ts:147-162 | decoding an output segment once gives exactly the string that was checked |
| UpstreamProxy.SegmentAcceptedIff | frontend/lib/upstream-proxy.ts:147-162 | a segment gets through exactly when what it decodes to, or itself where it does not decode, is not empty, not a dot segment, has no slash, backslash or control character and no lone surrogate, and then that is what is sent; what is refused is a bad request |
| UpstreamProxy.PathFailsFirst | frontend/lib/upstream-proxy.ts:147-162 | a path fails as its first segment that fails |
| UpstreamProxy.SanitizeIsIdempotent | frontend/lib/upstream-proxy.ts:147-162 | sanitising again changes nothing |
| UpstreamProxy.UpstreamPathSplits | frontend/lib/upstream-proxy.ts:164-172 | splitting the joined path gives the segments back |
| UpstreamProxy.PlainPathIsStable | frontend/lib/upstream-proxy.ts:147-172 | a path of plain segments is a fixed point of remove_dot_segments (section 5.2.4 of RFC 3986) |
| UpstreamProxy.DotSegmentsResolve | frontend/lib/upstream-proxy.ts:146-172 | removing dot segments character by character (section 5.2.4 of RFC 3986) is resolving the segments of the path one by one |
| UpstreamProxy.UpstreamPathStaysInPrefix | frontend/lib/upstream-proxy.ts:164-172 | no client path moves the upstream path out of its prefix |
| UpstreamProxy.NoEscapedDotSegment | frontend/lib/upstream-proxy.ts:147-162 | no sanitised segment is an escaped spelling of a dot segment |
| UpstreamProxy.ReadBoundedBody | frontend/lib/upstream-proxy.ts:183-220 | gives the whole body exactly when it fits, and never holds more than the bound |
| UpstreamProxy.CopyChunks | frontend/lib/upstream-proxy.ts:213-218 | the copy loop fills the buffer with the chunks in order |

## Left out

* Bytes of tar, gzip and JSON, file modes, umask and fsync effects; which exception a corrupt compressed stream raises
  (here: rejected); which message an `ArtifactError` carries.
* The order in which a tree is listed: the source sorts, here any order is allowed, so the results hold for the sorted
  one. The order in which `rmtree` removes entries is left open in the same way.
* Symbolic links that lead to directories, a name longer than the file system allows, and characters a file system
  refuses.
* Uniqueness of `uuid4` is assumed where a temporary or previous name must be new; for the merge only in the clauses
  about a quiet target.
* In the merge the other process only adds entries; one that changes or deletes them is not modelled, and the source
  tree does not move.
* The database: tables are maps and sequences, and a query is a function of them. pandas frames are sequences of bars.
* Rounding, float error and the 28 digits of Decimal; NaN and infinities, with the `isfinite` guards against them.
* Closes are positive; a zero close divides by zero in the source. Indicators are any function of the window shown to
  the strategy, and a strategy is any deterministic function.
* A walk-forward step of zero or less, for which the source loop does not terminate.
* The volatility cache keyed by a hash of rounded weights.
* Sharpe and information ratios, total return, win rate and average win and loss, the Wilcoxon test, and fold
  aggregation.
* `upper()` beyond ASCII in activity names.
* Coverage checks on account mappings before a performance report, and the benchmark return.
* Request origin checks, header forwarding and the cancellation of an over-long request stream in the proxy.
* `cash_manager.py`, `paper_trading_orders.py`, `encrypt_household_uploads.py`, `captures.py`, `costs.py`,
  `comparison.py`, `monte_carlo.py`, `fed_odds.py`, routers, user interface and workers: one-branch algebra, stubs or
  behaviour that sits in services elsewhere.
- Covariance.QuadraticFormIsVariance: needs every covariance to come from one set of dates;
  `RaggedPanel.PairwiseDatesSafeIff` says this is exactly what is needed.
- ArtifactCreation.CreateArtifact: completeness needs a disk at rest; on a moving one the source may fail, and the
  contract then only gives publication safety.
- ArtifactRestore.ExtractDatabase: an output that is a link or a device keeps its entry, and what it leads to is not
  modelled.
- UploadMerge.MergedIsUnion: is for a target nobody else writes to, because others may add files of their own.
