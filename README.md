# QXMR game, credits and raffle core in Dafny

This project models the rule-bearing core of the QXMR site. It covers the
credits and score engine of the Flask back end, the raffle round with its
draw, status, reset, entry and count routes, the front end's transaction
decoder and base64 helpers, the counters of the Pac-Man mining game, and the
validators and formatters of the two raffle forms. It also covers the
power-players routes of the Express server. Each part is written in the
form its source has:

- State that the code updates in place is a class: the three SQLite tables,
  the raffle data file, the game object and the form state.
- Computations are functions, and their promises are proved as lemmas.
- Loops are methods with invariants, proved against a specification
  function: the `update_user` column loop, the explorer sum, the collision
  loop and `generateBlocks`.

Modules, one per file:

| module | file | models |
|---|---|---|
| `Wrappers` | wrappers.dfy | `Option`, the reply type (`Ok`/`Fail` with a status), `Max`/`Min`, maxima over finite sets |
| `Text` | text.dfy | the JavaScript string operations the core relies on: `toString`, `padStart`, `trim`, `toUpperCase`, `split` and the 60-letter id patterns |
| `JsValues` | js_values.dfy | parsed JSON body values and JavaScript's `Number` conversion of them, on exact decimals |
| `Credits` | credits.dfy | backend/app.py: the user, transaction and daily-score tables (`Credits.Store`) and every handler over them |
| `RaffleStore` | raffle_store.dfy | the raffle state, `loadState`/`saveState`/`resetRaffle` over the data file (`RaffleStore.RaffleFile`) |
| `RaffleDraw` | raffle_draw.dfy | the admin draw route and its password fallback |
| `RaffleStatus` | raffle_status.dfy | the status route and its countdown |
| `RaffleReset` | raffle_reset.dfy | the admin reset route (draw.js exports an identical reset handler) |
| `RaffleEntry` | raffle_entry.dfy | the Express entry route, the request body it reads, and `verifyTransaction` |
| `RaffleCount` | raffle_count.dfy | the CSV entry count |
| `TxCodec` | tx_codec.dfy | `decodeUint8ArrayTx` and the byte layout it reads |
| `Base64` | base64.dfy | `uint8ArrayToBase64` / `base64ToUint8Array` (`btoa`/`atob`) |
| `Pacman` | pacman.dfy | the game's epoch, score and block counters (`Pacman.Game`) and one frame's outcome |
| `RaffleForm` | raffle_form.dfy | Raffle.tsx: `HH:MM:SS` display, countdown tick and restore, submit guard |
| `QRafflesForm` | qraffles_form.dfy | QRaffles.tsx: `{d}d {h}h {m}m {s}s` display, `parseFloat` amount check, submit and reply handling |
| `PowerPlayers` | power_players.dfy | server.cjs: the verified list and the submit route |

Main results:

- A base64 round trip for every byte string.
- A transaction decode/encode round trip, in both directions.
- `update_user` writes exactly the allow-listed columns the request names.
  Each handler's update is proved to be the record function it intends.
- The leaderboard is a correct top-100 list, and ranks are consistent with
  it.
- A game frame keeps the counters valid and bounds the score gain.
- The raffle pool never holds a transaction id twice.
- A draw happens exactly when its three conditions hold.
- The countdown displays read back to their seconds.

## Model

| member | source | states |
|---|---|---|
| `Text.NatToStringRoundTrip` | src/components/Raffle.tsx:87-89 | the decimal rendering of a number reads back as that number |
| `Text.NatToStringInjective` | src/components/QRaffles.tsx:114 | two numbers with the same rendering are equal |
| `Text.PadStart` | src/components/Raffle.tsx:87-89 | the result has the larger of the two lengths, ends with the input and is filled in front |
| `Text.Pad2RoundTrip` | src/components/Raffle.tsx:87-89 | below 100 the padded field is two digits that read back as the number |
| `Text.TrimStart` | server.cjs:74 | the result is a suffix; what was dropped is all white space; it starts with no white space |
| `Text.TrimEnd` | server.cjs:74 | the result is a prefix; what was dropped is all white space; it ends with no white space |
| `Text.TrimEmptyIff` | src/pages/api/raffle/count.ts:14 | a string trims to empty exactly when it is all white space |
| `Text.ToUpperAppend` | server.cjs:74 | upper-casing distributes over concatenation |
| `Text.ToUpperOfLetters` | server.cjs:88-89 | upper case letters are kept; lower case letters move to their capitals |
| `Text.Split` | src/pages/api/raffle/count.ts:14 | at least one part, and no part holds the separator |
| `Text.JoinSplit` | src/pages/api/raffle/count.ts:14 | joining the parts of a split gives the string back |
| `Text.SplitJoin` | src/pages/api/raffle/count.ts:14 | splitting a join of separator-free parts gives the parts back |
| `Credits.DailyReset` | backend/app.py:122-143 | an empty, unparsable or other-day `lastplayed` sets games left to 3; otherwise the record is unchanged; no other column changes |
| `Credits.DailyResetIdempotent` | backend/app.py:122-143 | a second reset on the same day changes nothing |
| `Credits.SetField` | backend/app.py:155-158 | writing one column sets it and leaves every other column as it was |
| `Credits.FieldsDetermineUser` | backend/app.py:154 | records that agree on every column are equal |
| `Credits.PatchField` | backend/app.py:145-169 | after `update_user` each allow-listed column holds the requested value when named, and its old value otherwise |
| `Credits.PatchWithoutAllowedField` | backend/app.py:160-162 | a request naming no allow-listed column leaves the record as it is |
| `Credits.Store.BuildAssignments` | backend/app.py:154-158 | the loop builds the `SET` list of the named columns, in the list's order |
| `Credits.ResetUpdatesEffect` | backend/app.py:127-141 | the `{'gameleft': '3'}` update, applied, is the daily reset |
| `Credits.Classify` | backend/app.py:320-342 | a leaderboard payment of at least 100 grants access; a game purchase of at least 500 buys `floor(amount/500)` whole games; everything else is a plain payment |
| `Credits.ApplyPayment` | backend/app.py:317-342 | every payment adds its amount to `paid`; access is granted and never taken away; games are added only for a purchase; nothing else changes |
| `Credits.PaymentUpdatesEffect` | backend/app.py:317-345 | the update `/transaction` builds, applied, is the payment rule |
| `Credits.PaymentExamples` | backend/app.py:314-331 | the thresholds at their edges: 99 and 100, then 499 and 1200 |
| `Credits.SubmitScore` | backend/app.py:405-428 | `highest` becomes the maximum; amount, games left and `lastplayed` change only with access and a non-zero games count; no other column changes |
| `Credits.ScoreUpdatesEffect` | backend/app.py:412-428 | the update `/update_game_score` builds, applied, is the score rule |
| `Credits.AddGames` | backend/app.py:488-500 | games left and `paid` go up by the games and the total; nothing else changes |
| `Credits.BuyUpdatesEffect` | backend/app.py:497-500 | the update `/buy_games` builds, applied, is `AddGames` |
| `Credits.UpsertMax` | backend/app.py:436-447 | the (wallet, day) key gets the larger of old and new score, or the new score when fresh; other keys are untouched |
| `Credits.SubmissionsMonotone` | backend/app.py:405-428 | over any run of submissions `highest` and `amount` never decrease, `highest` ends at least at every score, and access is kept |
| `Credits.DailyKeepsLarger` | backend/app.py:436-447 | two scores on one day leave their maximum in the table |
| `Credits.TopAccessHolders` | backend/app.py:239-246 | at most 100 distinct access holders, by amount from largest down, none left out with a larger amount than one taken |
| `Credits.RankBounds` | backend/app.py:250-265 | a holder's rank lies between 1 and the number of holders, and is 1 exactly when nobody has more |
| `Credits.RankTies` | backend/app.py:253-257 | equal amounts get equal ranks |
| `Credits.RankWithinTopList` | backend/app.py:239-265 | the wallet at position j of the top list ranks j+1 or better |
| `Credits.RankExample` | backend/app.py:253-257 | with amounts 50, 50 and 30, the 30 ranks third and a 50 ranks first |
| `Credits.PickDailyWinner` | backend/app.py:524-533 | None exactly when nobody played that day; otherwise a wallet with the day's largest score, with that score |
| `Credits.Store.constructor` | backend/app.py:89-100 | the three tables start empty |
| `Credits.Store.GetUser` | backend/app.py:89-100 | the row when the wallet has one, None otherwise |
| `Credits.Store.CreateUser` | backend/app.py:102-120 | inserts the default row: zeros, empty `lastplayed` and texts, no access |
| `Credits.Store.GetOrCreateRow` | backend/app.py:309-311 | the existing row, or a newly inserted default row |
| `Credits.Store.UpdateUser` | backend/app.py:145-169 | a known wallet's row becomes the patched row, an unknown wallet changes nothing, and the reply is the re-read row |
| `Credits.Store.CheckAndResetDailyGames` | backend/app.py:122-143 | the stored row becomes its daily reset, and that row is returned |
| `Credits.Store.GetUserEndpoint` | backend/app.py:171-194 | missing wallet gives 400; a new wallet gets the default row and `created` with no reset; a known wallet gets the reset |
| `Credits.Store.UpdateUserEndpoint` | backend/app.py:196-217 | missing wallet gives 400; an unknown wallet gives 404; otherwise the body without `walletid` is applied |
| `Credits.Store.StartGame` | backend/app.py:356-380 | play is always allowed; the row is created when missing; no reset |
| `Credits.Store.Transaction` | backend/app.py:277-354 | missing fields give 400 and a non-numeric amount 500, with no writes; otherwise one log row is appended and the payment rule applied to the (possibly new) row |
| `Credits.Store.UpdateGameScore` | backend/app.py:382-463 | missing fields give 400; a non-numeric score gives 500 after the row is created; otherwise the score rule, and the day's table only when the score counts |
| `Credits.Store.BuyGames` | backend/app.py:465-510 | defaults of one game at 500000; a non-numeric field gives 500 with no write; otherwise the games and `price × games` are added |
| `Credits.Store.Purchase` | backend/app.py:481-508 | the row (created when missing) gains the games and the total, and the reply reports them |
| `Credits.Store.Leaderboard` | backend/app.py:219-275 | the top list with rows, the number of holders, and the caller's rank exactly when the caller holds access |
| `Credits.Store.DailyWinner` | backend/app.py:513-556 | the prize is 1000000 and the date is echoed; no winner exactly when the day has no rows; otherwise a top scorer with their row |
| `Credits.Store.ResetAllBalances` | backend/app.py:592-608 | every amount becomes 0, nothing else changes, and the reply is the row count |
| `Credits.SecondLookupOfNewWalletResets` | backend/app.py:111-127 | a new wallet shows 0 games on its first lookup and 3 on its second |
| `RaffleStore.DurationOrDefault` | src/pages/api/raffle/entry_state.ts:27 | an omitted duration is 3600 seconds |
| `RaffleStore.AppendFreshKeepsNoDuplicates` | api-server.js:140-143 | appending an id not in the pool keeps the pool duplicate-free |
| `RaffleStore.RaffleFile.constructor` | src/pages/api/raffle/entry_state.ts:5 | the file starts with the given contents |
| `RaffleStore.RaffleFile.LoadState` | src/pages/api/raffle/entry_state.ts:13-21 | the stored state, or an empty pool, no winner and an end one hour from now |
| `RaffleStore.RaffleFile.SaveState` | src/pages/api/raffle/entry_state.ts:23-25 | the file holds exactly the saved state |
| `RaffleStore.RaffleFile.ResetRaffle` | src/pages/api/raffle/entry_state.ts:27-34 | saves a fresh round: an empty pool, no winner, and an end the duration (one hour when omitted) from now |
| `RaffleStore.RaffleFile.SaveThenLoad` | src/pages/api/raffle/entry_state.ts:13-25 | a load after a save gives the saved state |
| `RaffleDraw.AdminPassword` | src/pages/api/raffle/draw.js:2 | the environment password when set and non-empty, else `changeme`; never empty |
| `RaffleDraw.Draw` | src/pages/api/raffle/draw.js:3-21 | 405, then 403, then each 400 refusal in order with nothing saved; a draw exactly when no winner, entries and the round over; the winner is a pool entry and is saved with the pool unchanged |
| `RaffleDraw.NoSecondDraw` | src/pages/api/raffle/draw.js:10-11 | once a winner is set no further draw is possible |
| `RaffleDraw.DrawableStaysDrawable` | src/pages/api/raffle/draw.js:10-15 | once a draw is possible it stays possible at any later time, and after a further entry |
| `RaffleStatus.Countdown` | src/pages/api/raffle/status.ts:7 | 0 from the end time on; before it, the whole seconds left, rounded down, for a fractional end time too |
| `RaffleStatus.CountdownMonotone` | src/pages/api/raffle/status.ts:7 | the countdown never goes up as time passes |
| `RaffleStatus.CountdownZeroBeforeEnd` | src/pages/api/raffle/status.ts:7 | it reads 0 during the last second, while draw.js:14 still refuses the draw |
| `RaffleStatus.DrawableShowsZero` | src/pages/api/raffle/status.ts:7 | whenever draw.js:10-15 would draw, the countdown reads 0 |
| `RaffleStatus.Status` | src/pages/api/raffle/status.ts:4-13 | the pool size, the countdown and the winner of the state loaded at the first clock reading, counted down to the second; a missing file shows 0 entries and no winner, and 3600 when both readings agree |
| `RaffleStatus.MissingFileLateClock` | src/pages/api/raffle/status.ts:5-7 | a missing file read one millisecond before the second clock reading shows 3599 |
| `RaffleReset.DurationNumber` | src/pages/api/raffle/reset.ts:8-10 | a missing field is NaN; otherwise the value `Number` gives the field |
| `RaffleReset.RoundSeconds` | src/pages/api/raffle/reset.ts:10 | a duration that is NaN or 0 becomes 3600; any other number, fractions included, is kept; the result is never 0 |
| `RaffleReset.FractionalDurationKept` | src/pages/api/raffle/reset.ts:10 | a posted 90.5 is kept as 90.5 seconds; a missing duration is 3600 |
| `RaffleReset.Reset` | src/pages/api/raffle/reset.ts:6-12 | 405 and 403 leave the file alone; otherwise a fresh round of the converted duration is saved, ending that many seconds after now |
| `RaffleEntry.Enter` | api-server.js:121-177 | the id, amount and wallet checks in that order; a duplicate id is refused; otherwise the id is appended once and saved; a refusal saves nothing; a duplicate-free pool stays duplicate-free |
| `RaffleEntry.StringField` | api-server.js:126-134 | a body field is read when it is a string |
| `RaffleEntry.NumberField` | api-server.js:131 | present and `Number` of it a finite whole number exactly when Some, and then its value |
| `RaffleEntry.AmountCheckOnReals` | api-server.js:131 | the route's test on the real value v, refusing v below 1000 or with `v % 1000` not 0, passes exactly the amounts whose whole-number reading is valid |
| `RaffleEntry.AmountReadsConversion` | api-server.js:131 | an amount field reads as the whole-number reading of whatever `Number` gives it |
| `RaffleEntry.NonStringAmounts` | api-server.js:131 | `[1000]` reads as 1000; a two-element array reads as no number; `true` reads as 1, which the amount check refuses |
| `RaffleEntry.FormPostLacksRouteWallet` | api-server.js:126-136 | read under `wallet`, a form post has no wallet and fails the wallet check |
| `RaffleEntry.FormPostReadsBack` | src/components/QRaffles.tsx:71 | read under `walletId`, a form post yields its three values, and valid values pass all three checks |
| `RaffleEntry.EnterRequest` | api-server.js:121-144 | over a request body, reading the wallet under `walletId` (the corrected key of the "## Findings" row, where the route as written reads `wallet`): an entry exactly when the three checks pass and the id is new, and then the id is appended |
| `RaffleEntry.AmountOf` | api-server.js:102 | an explorer amount is `Number` of its field, at its exact value, fractions included; an absent or non-numeric field is NaN |
| `RaffleEntry.CountedTotalBounds` | api-server.js:102-110 | the counted total is non-negative, at least each counted amount, and at least 1000 exactly when some transaction counts |
| `RaffleEntry.FractionalAmountsSum` | api-server.js:102-107 | fractional amounts count and are summed at their value: 1500.5 and 1499.5 make 3000, while 999.5 is filtered out |
| `RaffleEntry.VerifyTransaction` | api-server.js:84-120 | a failed fetch is invalid with 0 entries; valid exactly when some transaction counts; the entries are the real total divided by 1000, rounded down |
| `RaffleCount.NonBlank` | src/pages/api/raffle/count.ts:14 | keeps exactly the rows that do not trim to empty, and no more rows than it was given |
| `RaffleCount.NonBlankAppend` | src/pages/api/raffle/count.ts:14 | filtering a concatenation concatenates the filtered parts, in order |
| `RaffleCount.NonBlankSingle` | src/pages/api/raffle/count.ts:14 | one row is kept exactly when it does not trim to empty |
| `RaffleCount.EntryCount` | src/pages/api/raffle/count.ts:16 | the row count less one, and never negative |
| `RaffleCount.RowKeptIff` | src/pages/api/raffle/count.ts:14 | a line counts exactly when it is not all white space |
| `RaffleCount.SingleLine` | src/pages/api/raffle/count.ts:14-16 | a text without a line break counts 0 |
| `RaffleCount.HeaderLine` | src/pages/api/raffle/count.ts:14-16 | a header with its line break counts 0 |
| `RaffleCount.HeaderOnly` | src/pages/api/raffle/count.ts:14-16 | a header alone, with or without its break, and the empty text count 0 |
| `RaffleCount.CountsDataLines` | src/pages/api/raffle/count.ts:14-16 | a header followed by n non-blank lines counts n |
| `RaffleCount.CountHandler` | src/pages/api/raffle/count.ts:7-21 | a failed fetch gives 500; otherwise the entry count |
| `TxCodec.ToLittleEndian` | src/utils/tx.utils.ts:33-35 | the encoding has the requested length |
| `TxCodec.ReadAfterWrite` | src/utils/tx.utils.ts:24-35 | a value below 256^n encoded in n bytes reads back |
| `TxCodec.WriteAfterRead` | src/utils/tx.utils.ts:24-35 | bytes read as a number and written back are the same bytes |
| `TxCodec.Uint16Reading` | src/utils/tx.utils.ts:24-35 | `getUint16(0, true)` is low byte plus 256 × high byte, below 65536 |
| `TxCodec.Uint32Reading` | src/utils/tx.utils.ts:33 | `getUint32(0, true)` is the four bytes' little-endian value |
| `TxCodec.Slice` | src/utils/tx.utils.ts:24-44 | `Uint8Array.slice` is never longer than the buffer, and an in-range slice is exactly the sub-range |
| `TxCodec.Decode` | src/utils/tx.utils.ts:21-47 | None exactly when the fixed header does not fit; each field is the bytes or little-endian number at its offset; a payload exactly when the input size is positive |
| `TxCodec.DecodeFullBuffer` | src/utils/tx.utils.ts:25-44 | with the whole buffer present, payload and signature are the exact ranges the input size gives |
| `TxCodec.Encode` | src/utils/tx.utils.ts:21-47 | an encoding has header length plus input size plus signature length |
| `TxCodec.EncodeLayout` | src/utils/tx.utils.ts:25-44 | an encoding is header, then payload, then signature |
| `TxCodec.EncodedFields` | src/utils/tx.utils.ts:30-37 | each header field of an encoding sits at the offset the decoder reads |
| `TxCodec.DecodeEncode` | src/utils/tx.utils.ts:21-47 | decoding an encoded well-formed transaction gives it back |
| `TxCodec.EncodeDecode` | src/utils/tx.utils.ts:21-47 | a buffer of exactly the size its header calls for decodes to a well-formed transaction that encodes back to the buffer |
| `Base64.Symbol` | src/utils/tx.utils.ts:13 | every 6-bit value has an alphabet symbol |
| `Base64.SymbolValue` | src/utils/tx.utils.ts:17 | every symbol has a 6-bit value, and it is the inverse of `Symbol` |
| `Base64.SymbolValueOfSymbol` | src/utils/tx.utils.ts:13-17 | `SymbolValue` undoes `Symbol` |
| `Base64.SextetsCount` | src/utils/tx.utils.ts:13 | three bytes give four groups, a last byte two, a last pair three |
| `Base64.Symbols` | src/utils/tx.utils.ts:13 | one symbol per group, in order |
| `Base64.Encode` | src/utils/tx.utils.ts:11-14 | the encoding's length is a multiple of four |
| `Base64.RemoveWhitespace` | src/utils/tx.utils.ts:17 | what `atob` keeps after dropping white space holds no ASCII white space |
| `Base64.StripPadding` | src/utils/tx.utils.ts:17 | the stripped text is a prefix of the input: only trailing padding is removed |
| `Base64.Values` | src/utils/tx.utils.ts:17 | the 6-bit value of each symbol, in order |
| `Base64.Decode` | src/utils/tx.utils.ts:16-19 | fails exactly on a stripped length of the form 4n+1 or a character outside the alphabet |
| `Base64.ChunkRoundTrip` | src/utils/tx.utils.ts:11-19 | three bytes survive the trip through four symbols |
| `Base64.DecodeSextetsOfSextets` | src/utils/tx.utils.ts:11-19 | decoding the groups of a byte string gives the bytes |
| `Base64.StripEncoding` | src/utils/tx.utils.ts:11-19 | stripping an encoding's padding leaves exactly its symbols |
| `Base64.DecodeEncode` | src/utils/tx.utils.ts:11-19 | `base64ToUint8Array(uint8ArrayToBase64(b))` is `b` for every byte string |
| `Base64.SextetsLength` | src/utils/tx.utils.ts:13 | an encoding never has 4n+1 symbols |
| `Base64.EncodingHasNoWhitespace` | src/utils/tx.utils.ts:13 | an encoding holds no white space |
| `Base64.DecodeWhen` | src/utils/tx.utils.ts:17 | what is left after white space and padding decodes when it is symbols of a length other than 4n+1 |
| `Base64.TestVectorF` | src/utils/tx.utils.ts:13 | "f" encodes to `Zg==` (section 10 of RFC 4648) |
| `Base64.TestVectorFo` | src/utils/tx.utils.ts:13 | "fo" encodes to `Zm8=` |
| `Base64.TestVectorFoo` | src/utils/tx.utils.ts:13 | "foo" encodes to `Zm9v` |
| `Base64.TestVectorFoobar` | src/utils/tx.utils.ts:13 | "foobar" encodes to `Zm9vYmFy` |
| `Base64.DecodeRefusesShortPadding` | src/utils/tx.utils.ts:17 | `Zg=` is refused |
| `Base64.DecodeRefusesOneSymbol` | src/utils/tx.utils.ts:17 | a single symbol is refused |
| `Base64.DecodeForgives` | src/utils/tx.utils.ts:17-18 | ` Zm8= ` decodes to "fo" |
| `Pacman.BlocksForEpoch` | src/game/PacmanGame.ts:359-367 | 10, 15 and 20 blocks for epochs 161 to 163, and 10 for any other epoch |
| `Pacman.StartedMessageNamesEpoch` | src/game/PacmanGame.ts:384 | two epochs never share a started message |
| `Pacman.StartedIsNotWin` | src/game/PacmanGame.ts:384 | a started message is never `You Win!` |
| `Pacman.Kept` | src/game/PacmanGame.ts:220-229 | a frame never leaves more blocks than it found |
| `Pacman.KeptAndCollected` | src/game/PacmanGame.ts:220-229 | kept plus collected is the whole board |
| `Pacman.NothingKeptIff` | src/game/PacmanGame.ts:220-229 | nothing is left exactly when every block is hit |
| `Pacman.KeptInRange` | src/game/PacmanGame.ts:220-229 | kept blocks keep values between 50 and 149 |
| `Pacman.HitTotalBounds` | src/game/PacmanGame.ts:220-229 | the score gain is between 50 and 149 per collected block |
| `Pacman.TargetReached` | src/game/PacmanGame.ts:220-241 | in a valid state the target is reached only at the last block visited, with the board cleared |
| `Pacman.UpdateKeepsValid` | src/game/PacmanGame.ts:206-251 | a frame keeps the epoch in 161 to 163, the target matching the table, and the board matching the blocks still to collect |
| `Pacman.UpdateScore` | src/game/PacmanGame.ts:206-229 | an ended game scores nothing; otherwise the gain is the hit blocks' total, within the per-block bounds |
| `Pacman.UpdatePartial` | src/game/PacmanGame.ts:220-243 | a frame that leaves blocks keeps the game on in the same epoch, with exactly the untouched blocks |
| `Pacman.UpdateCleared` | src/game/PacmanGame.ts:232-240 | clearing the board wins at 163 and otherwise pauses on the next epoch's started message with a fresh board |
| `Pacman.Game.constructor` | src/game/PacmanGame.ts:23-37 | the initial fields: epoch 161, target 10, no blocks, score 0, not running, not ended, no image loaded |
| `Pacman.Game.GenerateBlocks` | src/game/PacmanGame.ts:124-134 | appends exactly `count` blocks worth 50 to 149 and keeps the existing ones |
| `Pacman.Game.NewBoard` | src/game/PacmanGame.ts:378-379 | a fresh board of the target's size |
| `Pacman.Game.AdvanceEpoch` | src/game/PacmanGame.ts:369-393 | the epoch moves up, capped at 163, with progress cleared, a fresh board and the game paused on the started message |
| `Pacman.Game.Update` | src/game/PacmanGame.ts:206-251 | the frame's new state is its specified outcome, and the invariant is kept |
| `Pacman.Game.CollectHits` | src/game/PacmanGame.ts:220-243 | the descending loop reaches the specified outcome on a non-empty board |
| `Pacman.Game.VisitBlock` | src/game/PacmanGame.ts:221-241 | one loop turn: a hit is collected; reaching the target wins or advances |
| `Pacman.Game.Start` | src/game/PacmanGame.ts:395-412 | an ended game restarts on a fresh board with score and progress cleared; the game runs |
| `Pacman.Game.ContinueAfterEpoch` | src/game/PacmanGame.ts:389-392 | after the delay the game runs again with score and progress carried over |
| `Pacman.Game.Pause` | src/game/PacmanGame.ts:414-420 | the game stops running and nothing else changes |
| `Pacman.Game.InitializeEpoch161` | src/game/PacmanGame.ts:422-443 | nothing before the images have loaded; afterwards epoch 161 from scratch |
| `Pacman.Game.Restart` | src/game/PacmanGame.ts:445-455 | once loaded, epoch 161 from scratch with the default block count; before that, a paused game is untouched and a running one only restarts an ended board; the running flag, end message and image flags are kept |
| `Pacman.Game.OnImageLoaded` | src/game/PacmanGame.ts:72-107 | sets its own image flag only; once both images are in, the game is marked loaded and set up at epoch 161; before that every counter is unchanged; the running flag and end message are kept |
| `RaffleForm.ClockFields` | src/components/Raffle.tsx:86-91 | hours, minutes and seconds add back up to the seconds, with minutes and seconds below 60 |
| `RaffleForm.Pad2Value` | src/components/Raffle.tsx:87-89 | a padded field is digits that read back as its number, two wide below 100 |
| `RaffleForm.ClockRoundTrip` | src/components/Raffle.tsx:86-91 | the `HH:MM:SS` display reads back as its seconds, so no two values look alike |
| `RaffleForm.ClockWidth` | src/components/Raffle.tsx:86-91 | below 100 hours the display is eight characters with colons at 2 and 5 |
| `RaffleForm.CountdownTick` | src/components/Raffle.tsx:42 | one second less, never below zero |
| `RaffleForm.TicksClamp` | src/components/Raffle.tsx:40-45 | n ticks take n seconds off, down to zero |
| `RaffleForm.Countdown.constructor` | src/components/Raffle.tsx:37 | the countdown starts at 3600 |
| `RaffleForm.Countdown.Tick` | src/components/Raffle.tsx:41-43 | the countdown becomes its tick |
| `RaffleForm.Countdown.RestoreIfZero` | src/components/Raffle.tsx:48-50 | 0 becomes 3600; anything else is kept |
| `RaffleForm.Countdown.Second` | src/components/Raffle.tsx:40-50 | tick plus effect cycles 3600 down to 1 and back to 3600 |
| `RaffleForm.EnabledSubmitPassesEntryChecks` | src/components/Raffle.tsx:272 | an enabled button means both ids pass the entry route's id and wallet checks |
| `RaffleForm.SubmitGuardCases` | src/components/Raffle.tsx:272 | enabled for valid ids; disabled while submitting, at zero, or with an off-pattern id |
| `QRafflesForm.DhmsFields` | src/components/QRaffles.tsx:109-115 | days, hours, minutes and seconds add back up, with hours below 24 |
| `QRafflesForm.DhmsRoundTrip` | src/components/QRaffles.tsx:109-115 | the `{d}d {h}h {m}m {s}s` display reads back as its seconds |
| `QRafflesForm.DigitRun` | src/components/QRaffles.tsx:20 | the leading digit run of a `parseFloat` input, maximal |
| `QRafflesForm.AmountValid` | src/components/QRaffles.tsx:20 | NaN fails; a finite value passes exactly from 1000 on |
| `QRafflesForm.DigitsParse` | src/components/QRaffles.tsx:20 | a digit string parses to its whole number |
| `QRafflesForm.WholeAmount` | src/components/QRaffles.tsx:20 | a whole number's rendering parses back, and passes exactly from 1000 on |
| `QRafflesForm.BlankAmount` | src/components/QRaffles.tsx:19-20 | an empty or blank amount is NaN and is refused |
| `QRafflesForm.FormLooserThanEntryRoute` | src/components/QRaffles.tsx:20 | a whole amount of at least 1000 that is not a multiple of 1000 passes the form and fails api-server.js:131 |
| `QRafflesForm.QRaffleForm.constructor` | src/components/QRaffles.tsx:9-29 | the initial field values |
| `QRafflesForm.QRaffleForm.HandleSubmit` | src/components/QRaffles.tsx:57-72 | an invalid field sends nothing and shows the correction message; otherwise it posts both ids and the parsed amount; only the message and success flag can change |
| `QRafflesForm.QRaffleForm.HandleResponse` | src/components/QRaffles.tsx:74-91 | success clears the fields and touched flags; a refusal shows the route's message or the fallback; a network error shows its message; on failure the fields and touched flags are kept; nothing else changes |
| `QRafflesForm.QRaffleForm.ApplyStatus` | src/components/QRaffles.tsx:35-38 | an ok status sets entries and countdown, and nothing else |
| `QRafflesForm.QRaffleForm.Tick` | src/components/QRaffles.tsx:47-49 | the countdown becomes its tick, and nothing else changes |
| `QRafflesForm.QRaffleForm.HandleAdminLogin` | src/components/QRaffles.tsx:94-99 | admin mode, with the modal closed, only for the literal password; only those two can change |
| `QRafflesForm.ValidInputsPassIdChecks` | src/components/QRaffles.tsx:59 | ids that pass the form pass the entry route's id and wallet checks |
| `PowerPlayers.StringCell` | server.cjs:74-75 | a cell is read exactly when present and a string |
| `PowerPlayers.SheetRange` | server.cjs:63-68 | the configured tab, or the default, followed by `!A:B` |
| `PowerPlayers.ToItem` | server.cjs:73-76 | a non-string first cell maps to the empty id; the second cell is kept when a string |
| `PowerPlayers.Listed` | server.cjs:72-77 | never more items than rows, and every item's id is 60 letters A to Z |
| `PowerPlayers.ListedAppend` | server.cjs:72-77 | the list of joined rows is the join of their lists: row order is kept |
| `PowerPlayers.ListedMember` | server.cjs:72-77 | an item is listed exactly when some row maps to it and its id passes |
| `PowerPlayers.NonStringDropped` | server.cjs:74-77 | a row with no string first cell is dropped |
| `PowerPlayers.PaddedWalletListed` | server.cjs:74 | a wallet id with white space around it is listed as itself |
| `JsValues.IntegerOf` | api-server.js:131 | Some exactly when the decimal's value is whole, and then that value |
| `JsValues.DigitsToNumber` | api-server.js:131 | a string of decimal digits converts to its value |
| `JsValues.RenderedToNumber` | api-server.js:131 | the decimal rendering of a whole number converts back to it |
| `JsValues.PaddedToNumber` | api-server.js:131 | white space around a string does not change what it converts to |
| `JsValues.FractionDecimal` | api-server.js:131 | digits, a point and digits read as all the digits scaled down by the fraction's length |
| `JsValues.ExponentToNumber` | api-server.js:131 | digits, `e` and digits read as the first digits times ten to the second |
| `JsValues.SignToNumber` | api-server.js:131 | `+` keeps a literal's value and `-` negates it, NaN staying NaN |
| `JsValues.RadixToNumber` | api-server.js:131 | `0x`, `0o` or `0b` and digits of that base read as their value in the base |
| `JsValues.FractionToNumber` | api-server.js:131 | digits, a point and digits convert to all the digits scaled down by the fraction's length |
| `JsValues.NonDigitStart` | api-server.js:131 | a literal starting with neither a digit nor a point, such as `Infinity` or a word, is no finite number |
| `JsValues.PaddedSpelling` | api-server.js:131 | `" 1000"` converts to 1000 |
| `JsValues.ExponentSpelling` | api-server.js:131 | `"1e3"` converts to 1 times ten to the 3 |
| `JsValues.FractionSpelling` | api-server.js:131 | `"1000.0"` converts to 10000 tenths |
| `JsValues.SignedSpelling` | api-server.js:131 | `"+2000"` converts to 2000 |
| `JsValues.HexSpelling` | api-server.js:131 | `"0x3E8"` converts to 1000 |
| `JsValues.SeparatorSpelling` | api-server.js:131 | `"1,000"` is NaN |
| `JsValues.InfinitySpelling` | api-server.js:131 | `"Infinity"` is no finite number |
| `JsValues.HalfSpelling` | api-server.js:131 | `"1000.5"` converts to 10005 tenths |
| `JsValues.SpelledWholeNumbers` | api-server.js:131 | those values read as the whole numbers 1000, 1000, 1000 and 2000, and `1000.5` as none |
| `PowerPlayers.UpperLettersIff` | server.cjs:74-77 | an upper-cased string is all A to Z exactly when each character upper-cases to letters |
| `PowerPlayers.KeptIff` | server.cjs:74-77 | a string cell is kept exactly when its trimmed text upper-cases to 60 letters |
| `PowerPlayers.SharpSListed` | server.cjs:74-77 | a cell of thirty `ß` is listed (as sixty `S`), and no other count of them is |
| `PowerPlayers.List` | server.cjs:59-83 | unconfigured or failing gives 500 with the message; otherwise 200 with the filtered list, empty without values |
| `PowerPlayers.Submit` | server.cjs:85-111 | an id off pattern gives 400 with nothing appended; unconfigured gives 500; otherwise the time stamp and id are appended, and the result is 200 or the failure's 500 |
| `PowerPlayers.SubmittedIsListed` | server.cjs:74-89 | an id the submit route accepts is listed as itself from a verified row |
| `PowerPlayers.SubmitAgreesWithList` | server.cjs:74-91 | the submit route refuses an id exactly when the list would drop it |

## Left out

- Sheets, the explorer, SQLite, the file system, clocks and randomness are outside the model. The time and today's date are parameters. The raffle draw's random index and the game's random block values are nondeterministic choices. A sheet's contents and its failure message are parameters.
- Credits: amounts, scores and totals that the source stores as text and parses with `float`/`int` are integers. Float rounding and the `str()` storage format are not modelled. `lastplayed` keeps only the date, not the ISO time.
- Credits.Store.UpdateUser: it requires each allow-listed value in a request to be of its column's kind, while the source stores anything it is given, as text.
- Credits: error message texts are left out; replies carry the status only. A missing or empty `walletid` is modelled as the empty string. The store's order among equal amounts, in the top list and for the daily winner, is left open.
- Credits.PickDailyWinner: `SUM(score)` is modelled as the one row per (wallet, day), since the table's key allows only one.
- RaffleEntry.NumberField: `Number(amount)` is computed on exact decimals. Rounding to double precision, overflow of a long literal to Infinity and the 2^53 limit of exact integers are not modelled. NaN, the infinities and fractions are None, and all of them fail the multiple-of-1000 check. The Sheets logging after the save is left out, since it cannot change the reply. The explorer URL and the HTTP fetch are left out; the fetched list is a parameter.
- RaffleEntry.VerifyTransaction: the route itself does not call it. The function is modelled on its own. Explorer amounts are summed as exact decimals: rounding to double precision is not modelled, and an amount that converts to an infinity (the string `"Infinity"`) is taken as NaN and filtered out, whereas the source would count it and report an infinite number of entries.
- RaffleReset.RoundSeconds: a duration that converts to an infinity (the string `"Infinity"`) is taken as NaN, one hour, whereas the route would store an infinite end time that `JSON.stringify` writes as null. This also holds for `RaffleStore.RaffleFile.ResetRaffle`, whose duration is given after conversion.
- RaffleStatus.Status: the two clock readings are parameters (`loadTime` and `now`); nothing relates them, though the clock normally does not go back.
- RaffleStore: both `loadState` functions (api-server.js:53-71 and entry_state.ts:13-21) are one `LoadState`. A malformed but parsable file is not modelled; the file holds a state or nothing.
- QRafflesForm: `parseFloat` works on exact rationals. Double rounding, overflow to Infinity and negative zero are not modelled. `handleDraw` and `handleReset` have empty bodies in the source and are left out. The timing of the 5-second status poll and of the `fetchStatus` call after a success is left out.
- Pacman: positions, speed, collision geometry, rendering, key and touch input, the ready callback, `lastTimestamp` and animation frames are left out. Which blocks a frame touches is the `hit` input of `Update`.
- Pacman.Game.AdvanceEpoch: the `'You Win!'` branch of its ternary is kept as written, but no state reaches it, since the epoch is capped at 163.
- PowerPlayers: JavaScript `toUpperCase` is modelled for `a`–`z` and for the characters whose full capitals are made only of `A`–`Z` (dotless i, long s, sharp s and the Latin ligatures). The model leaves every other character unchanged. A null row in the sheet values is not modelled. The Sheets client and its credentials are not modelled.

## Findings

| source | as written | input that shows it | evidently intended | confidence | as-written member | corrected member |
|---|---|---|---|---|---|---|
| api-server.js:126-136 | the entry route reads the wallet from the body key `wallet` | the post from src/components/QRaffles.tsx:71 (or Raffle.tsx:102) `{walletId: "A…A", txId: "a…a", amount: 1000}` is refused with 400 "Wallet address is required." | read `walletId`, the key both forms send and the Next.js entry route reads | low, not executed; api-server.js:139 and :144 use `await` inside the non-async generator callback, a syntax error that may keep the file from loading at all, and which server answers the forms' relative `/api/raffle/entry` (this one or src/pages/api/raffle/entry.ts) depends on deployment | `RaffleEntry.FormPostLacksRouteWallet` | `RaffleEntry.EnterRequest` with `RaffleEntry.FormPostReadsBack` |

Other behaviour worth knowing, proved as written:

- `Credits.SecondLookupOfNewWalletResets`: a new wallet gets 0 games on its first lookup and 3 on a second lookup the same day.
- `RaffleStatus.CountdownZeroBeforeEnd`: the countdown shows 0 during the round's last second, while a draw is still refused.
- `QRafflesForm.FormLooserThanEntryRoute`: the form accepts 1500, which the entry route refuses.
- The entry route does not look at the round's end time or winner, so entries keep being accepted after the round has ended.
