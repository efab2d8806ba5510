# PocketBot confluence engine and trade store, in Dafny

This project models two parts of the trading bot's server.

**The monitoring engine.** `BotController` is in `server/bot-controller.ts`. It keeps a fixed catalog of 80 assets, each with:
- a confidence percentage and a status;
- three parabolic-SAR readings (1, 5 and 15 minutes);
- a last price, a price-drop percentage and a rank.

Beside that state it keeps a map of "ready" timestamps and a map of per-asset price histories. The model covers:
- **Readiness tick.** The five-second tick pins an asset at 92 and "ready" while its five-minute ready hold runs. Otherwise the asset drifts by a random amount, clamped to [15, 92]. Its status is then "ready" exactly from 88 upward, and a move into "ready" starts a new hold.
- **Refresh cycle.** Assets are processed in batches of ten. For each asset the cycle:
  - overwrites the reading of every timeframe that delivered candles;
  - sets the engine-wide price to the last close;
  - for an asset at 92, records the close in a one-hour price history and measures the drop against the oldest entry of that history.
- **Drop ranking.** Assets at exactly 92 and "ready" get ranks 1..K, largest drop first, in a stable order. The ranking never clears a rank: `server/bot-controller.ts:380-382` only writes ranks, so an asset that leaves the subset keeps its last rank (`Ranking.RankedUnselected`, `Ranking.RankingFrame`).
- **Confluence scan.** It finds the first eligible asset whose three readings agree.
- **Other operations:** `start`, `stop` and `calculateTradeResult`.

**The trade store.** `MemStorage` is in `server/storage.ts`. Its in-memory branches run when no database is configured, and as the fallback after a database call fails; with a database, the trade map is also written after each successful database insert or update of a trade (lines 57 and 92), which the model leaves out. It holds users and trades in two maps that remember insertion order, and answers lookups, recent-trade listings and win/loss statistics.

Layout:
- `options.dfy`: `Option`.
- `sorting.dfy`: the stable descending sort that `Array.prototype.sort` performs with a `b - a` comparator. It is proved to be a permutation, sorted and stable.
- `assets.dfy`: the asset record, the constants and the catalog.
- `readiness.dfy`: the tick as functions, with its lemmas.
- `readings.dfy`: the per-asset update, the price history, the drop and the batches.
- `ranking.dfy`: the ranking and its lemmas.
- `signals.dfy`: confluence and the trade result.
- `bot_controller.dfy`: class `Controller`. Its methods update its fields in place and are proved equal to the specification functions above.
- `storage.dfy`: class `MemStorage` and the queries over its maps.

Things outside the engine become parameters:
- the clock (`now`);
- the random drift and the random fallback drops;
- what each candle request delivered (`CandleFetch`);
- the SAR calculator, an arbitrary function from candles to an optional direction;
- fresh UUIDs.

### Where the code and its documentation differ

The model follows the code in each case.
- The comments speak of a two-minute hold and a thirty-minute history. The constants are 300000 ms and 3600000 ms (`server/bot-controller.ts:51-53`), and the model uses the constants.
- A ready timestamp of 0 is falsy in JavaScript, so it never starts a hold (`Readiness.InReadyHold`).

## Model

| member | source | states |
|---|---|---|
| Readiness.InReadyHold | server/bot-controller.ts:198 | a hold is on exactly when a stamp exists, is not 0 (0 is falsy) and is less than 300000 ms older than `now`; a missing or zero stamp never holds |
| Readiness.Clamp | server/bot-controller.ts:209 | the clamped value lies in [15, 92]; it equals the input inside that range, 15 below it and 92 above it |
| Readiness.TickAsset | server/bot-controller.ts:197-220 | inside the hold: 92, "ready", no new stamp. Outside: `Clamp(old + delta)`, and "ready" iff at least 88. A stamp is taken iff the status moves from non-ready to ready. Only percentage and status change |
| Readiness.TickOne | server/bot-controller.ts:196-220 | one loop body: asset `i` becomes `TickAsset` of itself under its stamp as the map holds it at that point, and its name is stamped with `now` only on a promotion; nothing else changes |
| Readiness.TickPrefix | server/bot-controller.ts:195-221 | the tick after its first `k` bodies, in array order; the length is kept and the assets from position `k` on are untouched |
| Readiness.TickAll | server/bot-controller.ts:191-221 | the whole tick: every body in array order, asset `i` drifting by `deltas[i]`; its properties are the lemmas below |
| Readiness.TickKeepsInvariants | server/bot-controller.ts:195-221 | after a tick every asset lies in [15, 92], is "ready" iff at least 88, and differs from its old value only in percentage and status |
| Readiness.TickStampsFrame | server/bot-controller.ts:213-215 | the tick leaves the timestamp of every name it does not visit untouched |
| Readiness.TickOneOther | server/bot-controller.ts:197-220 | updating one asset leaves every other position, and the stamps of other names, alone |
| Readiness.TickPerAsset | server/bot-controller.ts:195-221 | with distinct names, each asset ends the tick as its own update from the original timestamp prescribes, and its stamp becomes `now` exactly when it was promoted |
| Readiness.HoldPersists | server/bot-controller.ts:197-206 | once stamped at a nonzero `t0`, an asset reads 92 and "ready" after every tick before `t0 + 300000`, whatever the drift, and the stamp is not moved |
| Readiness.PromotionStartsHold | server/bot-controller.ts:197-215 | a promotion at a nonzero `now` pins the asset at 92 for ticks before `now + 300000`; from then on the asset drifts freely |
| Bot.InitialStamps | server/bot-controller.ts:164-176 | the construction-time timestamp map holds exactly the twelve initially held names, each stamped `now` |
| Bot.InitialHold | server/bot-controller.ts:164-176 | an initially held asset is in its hold for five minutes after construction; any other asset has no stamp |
| Bot.Controller.constructor | server/bot-controller.ts:145-177 | the state starts stopped and disconnected with price 0, the given balance and account, the catalog with the given starting drops, the initial stamps and no histories |
| Bot.Controller.Tick | server/bot-controller.ts:191-221 | the tick loop leaves the assets and stamps equal to `TickAll` of the old ones and changes no other field |
| Bot.Controller.TickAt | server/bot-controller.ts:196-220 | one loop body turns the state into `TickOne` of the old state for that asset and changes no other field |
| Readings.Pruned | server/bot-controller.ts:313-317 | pruning keeps a suffix; every entry it drops is older than the cutoff and the first entry it keeps is not |
| Readings.PruneHistory | server/bot-controller.ts:315-317 | the `shift` loop returns exactly `Pruned(h, cutoff)` |
| Readings.Recorded | server/bot-controller.ts:309-317 | the history after `(now, price)` is pushed and every entry older than `now - 3600000` is shifted out; its properties are `RecordedWindow` and `RecordedEnds` |
| Readings.RecordPrice | server/bot-controller.ts:309-317 | push-then-prune returns `Recorded(h, now, price)` |
| Readings.RecordedWindow | server/bot-controller.ts:309-317 | the recorded history is non-empty, ends with `(now, close)` and holds only old entries and the new one. If the old history was chronological and not newer than `now`, the new one is chronological and lies entirely within the last hour |
| Readings.RecordedEnds | server/bot-controller.ts:311-317 | the pushed entry survives pruning as the last entry, and every entry comes from the old history or is the new one |
| Readings.PrunedChronological | server/bot-controller.ts:313-317 | pruning a chronological history leaves one that is chronological and not older than the cutoff |
| Readings.DropPercentage | server/bot-controller.ts:320-325 | 0 for a history of at most one entry; otherwise `r * oldest == (oldest - current) * 100`. For a positive oldest price, the drop is positive iff the price fell, and it is at most 100 when the current price is non-negative |
| Readings.Reading | server/bot-controller.ts:293-338 | a timeframe's reading is the calculator's direction (null when it returns none) when candles arrived, and the old reading when none did (the same rule at 293-295, 330-333 and 335-338) |
| Readings.ReadOneMinute | server/bot-controller.ts:292-327 | the 1-minute branch yields one asset and keeps every stored price nonzero; `Readings.ReadingsRule`, `Readings.HistoryRule` and `Readings.LastWriterWins` state its effect |
| Readings.ReadAsset | server/bot-controller.ts:282-346 | one asset's update changes no other asset and keeps every stored price nonzero |
| Readings.ReadPrefix | server/bot-controller.ts:278-347 | after the first `k` updates, the assets from position `k` on are unchanged |
| Readings.ReadingsRule | server/bot-controller.ts:292-339 | a failed fetch leaves the asset unchanged. Otherwise each timeframe with candles takes the calculator's result (possibly null), and each timeframe without keeps its reading. Only the readings, price and drop change, and the latter two only for an asset at 92 with 1-minute candles |
| Readings.HistoryFrame | server/bot-controller.ts:304-317 | histories of names none of the processed assets carries are untouched |
| Readings.StepHistoryOwn | server/bot-controller.ts:298-326 | one update of an asset at 92 with 1-minute candles stores the recorded history under its name, with a nonzero oldest price, and sets its price and drop from it; any other update leaves the asset's history alone |
| Readings.StepHistoryOther | server/bot-controller.ts:304-317 | one asset's update leaves the histories of other names alone |
| Readings.HistoryRule | server/bot-controller.ts:298-326 | with distinct names, after the cycle each asset at 92 with 1-minute candles holds `Recorded(old history, now, close)`, its price is that close and its drop is measured on that history; every other asset's history is unchanged |
| Readings.StepPrice | server/bot-controller.ts:293-296 | one asset's update sets the engine price to its last 1-minute close iff it delivered 1-minute candles, and keeps the price otherwise |
| Readings.PriceOfLastWriter | server/bot-controller.ts:296 | after the first `k` updates the engine price is the close of the last asset that delivered 1-minute candles, or the old price if none did |
| Readings.LastWriterWins | server/bot-controller.ts:293-296 | the engine price is the old one when no asset wrote it, and otherwise the close of the last asset that wrote it |
| Readings.Batches | server/bot-controller.ts:278-279 | the batches are non-empty and concatenate back to the list in order. Each holds at most 10 assets, and every batch but the last holds exactly 10 |
| Readings.BatchesFrom | server/bot-controller.ts:278-279 | the slices from offset `i` are `s[i..min(i + 10, n)]` followed by the slices from where it stops, so the loop's ranges are the slices in order |
| Bot.Controller.RecordOneMinute | server/bot-controller.ts:292-327 | the 1-minute branch returns the asset and leaves the histories and price equal to `ReadOneMinute` of the old state |
| Bot.Controller.UpdateAssetReadings | server/bot-controller.ts:283-346 | the callback leaves the assets, histories and price equal to `ReadAsset` of the old state; the stamps and the remaining fields are unchanged |
| Bot.Controller.UpdateBatch | server/bot-controller.ts:279-347 | processing positions `start..end` in order takes the state from `ReadPrefix(.., start)` to `ReadPrefix(.., end)` |
| Bot.Controller.UpdateRealSarForAllAssets | server/bot-controller.ts:271-359 | after the batches and the ranking, the assets are `Ranked(ReadPrefix(all).assets)`, and the histories and price are those of `ReadPrefix`; no other field changes. Its loop is proved to visit, in order, exactly the slices of `Batches(assets, 10)` |
| Ranking.FillDrop | server/bot-controller.ts:366-368 | an undefined drop takes the fallback; a defined drop, and every other field, is kept |
| Ranking.FillDrops | server/bot-controller.ts:363-369 | filling drops keeps the length and does not change which assets are selected |
| Ranking.TopTierReady | server/bot-controller.ts:373 | an asset is selected exactly when its percentage is exactly 92 and its status is ready |
| Ranking.ReadyIndices | server/bot-controller.ts:372-374 | the selected positions are exactly the positions of assets at 92 and "ready", in increasing order |
| Ranking.SelectReady | server/bot-controller.ts:372-374 | the filter loop returns `ReadyIndices` |
| Ranking.RankOrder | server/bot-controller.ts:372-377 | the selected positions, stably sorted by drop (undefined as 0), largest first; `RankOrderMembers`, `RankOrderStable` and `RankOrderDistinct` state its properties |
| Ranking.RankOrderMembers | server/bot-controller.ts:372-377 | the sorted order holds exactly the selected positions |
| Ranking.RankOrderStable | server/bot-controller.ts:377 | of two sorted positions with equal drops, the earlier in the order is the earlier in the array |
| Ranking.RankOrderDistinct | server/bot-controller.ts:377 | no position appears twice in the sorted order |
| Ranking.AssignRanks | server/bot-controller.ts:380-382 | the first `k` steps of the `forEach` keep the number of assets; `AssignRanksAt` states the ranks |
| Ranking.AssignRanksAt | server/bot-controller.ts:380-382 | after the `forEach` the asset at sorted position `p` has rank `p + 1`, and every asset not in the order is untouched |
| Ranking.Ranked | server/bot-controller.ts:361-389 | the ranking keeps the number of assets; `RankedSelected`, `RankedUnselected`, `RankingFrame` and `Ranks*` state the rest |
| Ranking.RankedSelected | server/bot-controller.ts:361-382 | the asset at sorted position `p` ends as its filled value with rank `p + 1` |
| Ranking.RankedUnselected | server/bot-controller.ts:363-382 | an asset outside the subset only has its drop filled; a rank it had is kept |
| Ranking.RankingFrame | server/bot-controller.ts:361-389 | ranking changes only drops and ranks; every drop ends as the old drop or its fallback, and no rank outside the subset is written |
| Ranking.RankedPosition | server/bot-controller.ts:376-382 | a selected asset sits at some sorted position `p`, gets rank `p + 1` and keeps its filled drop |
| Ranking.RanksUnique | server/bot-controller.ts:371-382 | every selected asset has a rank in 1..K, K being the number selected, and no two selected assets share a rank |
| Ranking.RanksDense | server/bot-controller.ts:371-382 | every rank 1..K is held by some selected asset |
| Ranking.RanksOrdered | server/bot-controller.ts:376-382 | a better rank never has a smaller drop (undefined counts as 0), and between equal drops the better rank belongs to the earlier asset |
| Bot.Controller.FillMissingDrops | server/bot-controller.ts:363-369 | the loop leaves the assets equal to `FillDrops` of the old ones and changes no other field |
| Bot.Controller.NumberInOrder | server/bot-controller.ts:380-382 | the rank loop leaves the assets equal to `AssignRanks` over the whole order |
| Bot.Controller.UpdateRanking | server/bot-controller.ts:361-389 | the ranking leaves the assets equal to `Ranked` of the old ones and changes no other field |
| Sorting.SortDesc | server/bot-controller.ts:377 | the sort returns a permutation of its input, ordered by descending key |
| Sorting.SortStable | server/bot-controller.ts:377 | for every key value, the elements carrying it keep their input order |
| Signals.Agree | server/bot-controller.ts:250-254 | the three readings are all present (a null reading is falsy) and all equal |
| Signals.Confluent | server/bot-controller.ts:248-254 | an asset counts when it is at 88 or above and its readings agree |
| Signals.FindConfluence | server/bot-controller.ts:246-260 | it finds a position only while running with no open trade, and that position is the first confluent asset. It finds nothing iff the bot is stopped, a trade is open or no asset is confluent |
| Signals.CalculateTradeResult | server/bot-controller.ts:502-508 | a call wins iff the exit is above the entry; a put wins iff the exit is below it; a win never has equal prices |
| Signals.OneSideWins | server/bot-controller.ts:502-508 | when the price moved exactly one direction wins; when it did not, both lose |
| Bot.Controller.SarCycle | server/bot-controller.ts:238-268 | a cycle is the refresh followed by the confluence scan over the refreshed, ranked assets, with the scan's result; running, connection, balance, open trade, account and ready stamps are unchanged |
| Bot.Controller.Start | server/bot-controller.ts:434-454 | when running, it is refused with "Bot is already running" and nothing changes. Otherwise the bot is running and connected, with balance 5.30, price 3625.42, the bare catalog, no trade and no account info; stamps and histories are kept |
| Bot.Controller.Stop | server/bot-controller.ts:456-471 | when not running, it is refused with "Bot is not running" and nothing changes. Otherwise running, connected and the open trade are cleared and every other field is kept |
| Storage.Truthy | server/storage.ts:74-77 | JavaScript truthiness of a present field: the empty string and 0 are falsy, every other string and number, and every rendered number, is truthy |
| Storage.AsText | server/storage.ts:71 | a number becomes its string rendering; a string is kept |
| Storage.PriceField | server/storage.ts:74-75 | a price is stored iff it is present and truthy, and then as text |
| Storage.NewTrade | server/storage.ts:66-78 | the new record carries the fresh id and time and the caller's fields. The amount and prices are stored as text. An empty or absent result becomes "pending", and an empty or absent signal becomes null |
| Storage.Merge | server/storage.ts:103 | merging never changes the id or the creation time |
| Storage.MergeFields | server/storage.ts:103 | a field named in the update takes the update's value; every other field keeps the record's |
| Storage.MergeIdempotent | server/storage.ts:103 | applying an update twice is applying it once, and the empty update changes nothing |
| Storage.ValuesInOrder | server/storage.ts:42 | `Array.from(map.values())` lists the value under each id, in insertion order |
| Storage.OrderCount | server/storage.ts:181 | the number of stored entries equals the length of the insertion order |
| Storage.AppendInOrder | server/storage.ts:50 | `set` under a fresh key keeps the insertion order valid and appends the value to `values()` |
| Storage.FindByUsername | server/storage.ts:42-44 | `find` returns a listed user with that name, and none iff no listed user has it |
| Storage.FindByUsernameFirst | server/storage.ts:42-44 | the user found is the first one with that name |
| Storage.CreatedUserFound | server/storage.ts:41-52 | after a user is appended, its name is found, and it is that user when the name was new |
| Storage.SliceEnd | server/storage.ts:150 | `slice(0, limit)` keeps `min(limit, len)` elements for a non-negative limit, and `max(0, len + limit)` for a negative one |
| Storage.RecentTrades | server/storage.ts:148-150 | the answer is newest first, drawn from the stored trades, and as long as `limit` allows |
| Storage.RecentTradesAreNewest | server/storage.ts:148-150 | no trade left out of the answer is newer than a trade in it |
| Storage.RecentTradesStable | server/storage.ts:148-150 | for any limit, the trades in the answer that share a creation time are a prefix, in insertion order, of all stored trades with that time; with a limit that cuts nothing they are all of them |
| Storage.Count | server/storage.ts:179-180 | the length of `filter(t => t.result === r)`; it never exceeds the number of trades |
| Storage.CountAppend | server/storage.ts:179-180 | storing one more trade adds one to its result's count |
| Storage.WinsAndLosses | server/storage.ts:179-181 | wins plus losses never exceed the total |
| Storage.RoundTenth | server/storage.ts:188 | rounding to one decimal moves the value by at most 0.05 and keeps [0, 100] |
| Storage.WinRate | server/storage.ts:182 | 0 for no trades; otherwise `rate * total == wins * 100`, and the rate lies in [0, 100] |
| Storage.Stats | server/storage.ts:178-189 | the statistics count all trades, the wins and the losses, and their rate lies in [0, 100] |
| Storage.WinRateAccuracy | server/storage.ts:182-188 | the published rate is within 0.05 of the exact percentage of wins |
| Storage.StatsAppend | server/storage.ts:178-181 | one more trade adds one to the total and one to the count of its result |
| Storage.MemStorage.constructor | server/storage.ts:32-35 | the store starts with both maps empty |
| Storage.MemStorage.CreateUser | server/storage.ts:47-52 | the user is stored under the fresh id and appended to the order, trades are untouched, and a lookup by the name then succeeds |
| Storage.MemStorage.GetUserByUsername | server/storage.ts:41-45 | it returns a stored user with that name, and none iff no stored user has it |
| Storage.MemStorage.CreateTrade | server/storage.ts:66-80 | the new record is stored under the fresh id, no other key changes, and `GetTrade(id)` then returns it |
| Storage.MemStorage.UpdateTrade | server/storage.ts:101-107 | an unknown id returns none and changes nothing; a known id is replaced by the merge of old record and update, and other ids are unchanged |
| Storage.MemStorage.GetTrade | server/storage.ts:127 | it returns exactly the map lookup |
| Storage.MemStorage.GetRecentTrades | server/storage.ts:130-151 | it returns at most `limit` (default 50) of the stored trades, each at most as often as it is stored and each the record under its id, newest first; no trade left out is newer than one returned |
| Storage.MemStorage.GetTradeStats | server/storage.ts:178-189 | the total is the number of stored trades, wins and losses count the stored trades with result "win" and "loss", wins plus losses do not exceed the total, and the rate is 0 with no trades and otherwise in [0, 100] |

## Left out

- The parabolic SAR algorithm: `server/sar-calculator.ts` is not part of this model. The calculator is an arbitrary function of the candle series.
- The trading client (`getCandles`, `getBalance`, `getAccountInfo`) and the ten-second balance refresh. Their results are parameters.
- Timers (`setInterval`, `setTimeout`, the `sarLoopStarted` delay) and the `Promise.all` fan-out. A tick and a batch are sequential method calls in array order. The engine price is written by every asset with 1-minute candles, so under real interleaving the last writer in completion order wins; the model fixes array order.
- Interleaving of the tick with a refresh cycle, and `start` replacing the asset objects while a cycle still holds the old ones. Assets are values, so aliasing is not captured.
- `Math.random`: the drift, the starting drops and the fallback drops are parameters.
- `Date.now()` is taken once per asset update, once per tick, and once for all twelve stamps of the constructor (`Bot.InitialStamps`), where the source reads the clock twelve times.
- Event emission, console logging, `testSARWithRealData`, `getState` and `getStatus`.
- The confluence scan's result is returned instead of only logged.
- The database branches of `server/storage.ts`, `server/db.ts` and the schema file. `getUser` is not modelled because it is a plain map lookup that no other member uses.
- Floating point: prices, percentages and rates are exact reals. `String(x)` is the uninterpreted rendering `Rendered(x)`, and `Math.round(x * 10) / 10` rounds halves up on reals.
- Readings.ReadOneMinute: requires that an asset at 92 with 1-minute candles does not close at 0. In the source such a close is stored in the history; the update itself gives a drop of 100 (or 0 for a one-entry history), but once that zero entry is the oldest of two or more, a later update divides by it (lines 321-322) and the drop becomes NaN or infinite, which reals cannot express.
- Readings.DropPercentage: requires a nonzero oldest price once the history holds two or more entries, because there the source divides by that price and a zero gives NaN or an infinity, which reals cannot express. Empty and one-entry histories are accepted and give 0, as in the source.
- Readings.ReadAsset: carries the same nonzero-close condition (`CloseUsable`), to keep zero prices out of the histories.
- Readings.ReadPrefix: carries the same nonzero-close condition (`CloseUsable`), to keep zero prices out of the histories.
- Bot.Controller.UpdateAssetReadings: carries the same nonzero-close condition (`CloseUsable`), to keep zero prices out of the histories.
- Bot.Controller.RecordOneMinute: carries the same nonzero-close condition (`CloseUsable`), to keep zero prices out of the histories.
- Bot.Controller.UpdateBatch: carries the same nonzero-close condition (`CloseUsable`), to keep zero prices out of the histories.
- Bot.Controller.UpdateRealSarForAllAssets: carries the same nonzero-close condition (`CloseUsable`), to keep zero prices out of the histories.
- Bot.Controller.SarCycle: carries the same nonzero-close condition (`CloseUsable`), to keep zero prices out of the histories.
- Readings.HistoryRule: requires distinct asset names, as the catalog has. With repeated names two assets would share one history.
- Readiness.TickPerAsset: requires distinct asset names, for the same reason.
- Storage.MemStorage.CreateUser: requires the id not to be taken yet, standing in for a fresh `randomUUID()`.
- Storage.MemStorage.CreateTrade: requires the trade id not to be taken yet, for the same reason.
- Partial updates: an explicitly `undefined` field in an update is treated like an absent one.
- Integer widths: timestamps and counts are unbounded integers.
