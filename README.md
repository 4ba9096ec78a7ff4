# PiP World bot: a Dafny model of one account's turn

`pip.js` drives a PiP World game account. For each credential (`initData`) it logs in, and on a first visit it
completes the onboarding: it joins a random trading group and then declares the boarding completed. It then checks
every open quest and taps until the energy runs out, activating the free tap boost and the free energy refills when
they are due. Last, it buys the upgrade cards it can afford within a configured price cap.

The boost, tap, refill, purchase and boarding-completion requests answer in one of two ways. Either the request
fails, or it hands back a complete new user snapshot that replaces the one in hand. The trading-group update also
answers with a snapshot, but the source discards it: only the boarding-completion reply replaces the snapshot. The
login, the quest check and the catalog read have reply types of their own (`LoginReply`, `CheckReply`,
`CatalogReply`), which carry the quest list or the catalog. Every server interaction is given as data:

- A reply stream is a `seq<Reply>` read in order. Each reply is `Answered(status, user)` or `Thrown`.
- `Thrown` stands for a transport failure or a status the HTTP client rejects.
- An exhausted stream answers `Thrown`. The stream's length therefore bounds the tap loop.
- `Adopt(user, replies)` is the snapshot in hand after a sequence of replies: the snapshot of the last successful
  reply, or the starting one when no reply succeeded.

Modules:

- `PipTypes` (`pip_types.dfy`): the snapshot, quests, upgrade cards, replies and `Adopt`.
- `Credential` (`credential.dfy`): the `split('user=')[1].split('&')[0]` extraction of the credential's user field.
- `Quests` (`quests.dfy`): the quest-eligibility filter `getQuestIds` (a function) and the check loop
  `checkAndCompleteQuests` (a method proved against the classification function `Classify`).
- `Upgrades` (`upgrades.dfy`): the purchase scan `upgradeCards`. It is a method proved against the reference function
  `ScanCatalog`; `buyInvestItem` answers from a reply stream.
- `Taps` (`taps.dfy`): the tap loop `performTaps`. It is a method proved against the reference function `TapLoop`.
  `activateFreeTapsMultiplier`, the tap request and `refillEnergy` share one reply stream, in request order. A second
  reference, a state machine over single exchanges (`Step`, `Walk`, `Close`), is proved to accept every trace the loop
  produces and to end in the loop's own result.
- `Session` (`session.dfy`): `loginAndUpdateUser` with its onboarding branch. It composes the three loops.

JavaScript details the model writes out:

- An upgrade card's `validUntil` of `0` is falsy, so it never expires.
- A quest is open only when its `validUntil` is `null` (`None`) or not yet passed.
- `split('user=')[1]` stops at a second `user=`.
- A missing `user=` makes the upgrade phase throw, which the turn's own handler catches. This is the behaviour of
  `loginAndUpdateUser` on its own: in the program, `main` extracts the same field first (pip.js:336), outside any
  handler, so such a credential stops the whole process before its turn starts.
- An onboarding request that throws also escapes to that handler and ends the turn. One that answers a status other
  than 200 only skips the rest of the branch.

## Model

| member | source | states |
|---|---|---|
| PipTypes.AdoptStep | pip.js:131 | A successful reply replaces the snapshot in hand; a failed one keeps it. |
| PipTypes.AdoptAppend | pip.js:287-301 | Adopting two batches of replies in turn equals adopting them together, so the snapshot can be followed request by request. |
| PipTypes.AdoptNoSuccess | pip.js:129-131 | When no reply succeeds, the starting snapshot is kept. |
| PipTypes.AdoptLastSuccess | pip.js:287-301 | The snapshot in hand is exactly the one of the last successful reply; nothing is merged locally. |
| Credential.FindFrom | pip.js:102 | Returns the first position at or after `from` where the pattern occurs, and `None` exactly when it occurs nowhere there. |
| Credential.BeforeChar | pip.js:102 | `split('&')[0]`: the result is a prefix of the input, holds no `&`, and is followed by `&` whenever it is shorter than the input. |
| Credential.UserSegment | pip.js:336 | There is no user field exactly when `user=` occurs nowhere; a field found never contains `&`. |
| Credential.NoOccurrenceBeforeKey | pip.js:102 | `user=` cannot overlap itself, so no occurrence starts inside a prefix that holds none. |
| Credential.NoKeyInField | pip.js:102 | No `user=` starts inside an `&`-free, `user=`-free field or at the `&` that closes it. |
| Credential.FirstKeyAfterPrefix | pip.js:102 | In `prefix + "user=" + ...` with no `user=` in `prefix`, the first key sits right after `prefix`. |
| Credential.UserSegmentRoundTrip | pip.js:102 | A credential built as `prefix` + `user=` + `v` + `&` + `rest` yields exactly `v`. |
| Credential.FindFromFirst | pip.js:102 | The search returns the first occurrence at or after `from`. |
| Credential.BeforeCharPrefix | pip.js:102 | Cutting at a separator that first occurs at position `n` keeps exactly the first `n` characters. |
| Quests.EligibleQuestIds | pip.js:138-148 | Never returns more ids than there are quests. |
| Quests.EligibleQuestIdsAppend | pip.js:142-147 | The filter keeps the server's order: the ids of `a + b` are those of `a` followed by those of `b`. |
| Quests.EligibleQuestIdsSingle | pip.js:143-147 | One quest contributes its id exactly when it is not completed and its deadline is `null` or not yet passed. |
| Quests.EligibleQuestIdsMembership | pip.js:142-147 | An id is returned if and only if some quest carrying it is eligible. |
| Quests.IneligibleNeverChecked | pip.js:144-145 | A completed or past-deadline quest with a unique id is never checked. |
| Quests.OnlyOpenQuestChecked | pip.js:142-147 | Of an open, a completed and an expired quest, only the open one's id is returned. |
| Quests.FindQuest | pip.js:160 | `find`: returns the first quest with the id, and `None` exactly when no quest has it. |
| Quests.Classify | pip.js:156-181 | Each of the six outcomes as an if-and-only-if: a rejection with status 400 is "invalid or expired", any other rejection is an error, a non-200 response is unexpected, a 200 without a list is "no quests", a 200 whose list lacks the id is "not found", and a 200 whose list holds it is "completed" with the title and reward of the first quest carrying the id. |
| Quests.CheckAndCompleteQuests | pip.js:150-186 | One check per id, in order, none skipped; entry `k` of the log is the classification of reply `k` for id `k`, whatever earlier checks returned. |
| Upgrades.ScanCatalog | pip.js:112-133 | Never makes more purchase requests than the catalog has cards. |
| Upgrades.ScanBuysOnlyAllowed | pip.js:113-126 | Every purchase request is for a catalog card that is not owned, not expired, within the cap and cheaper than the balance it was decided against. |
| Upgrades.ScanEndsAdopted | pip.js:125-131 | The scan ends holding the snapshot adopted from all its purchase replies, so a failed purchase leaves the snapshot as it was. |
| Upgrades.ScanAnswersInOrder | pip.js:126 | Purchase request `i` receives reply `i` of the stream. |
| Upgrades.ScanUsesLatestBalance | pip.js:125-131 | Purchase `i` is decided against the balance of the snapshot adopted from the replies before it, never a stale one. |
| Upgrades.ScanInCatalogOrder | pip.js:112 | The purchased cards appear in catalog order, each catalog entry requested at most once. |
| Upgrades.SkippedCardChangesNothing | pip.js:113-126 | A card that fails the rule costs no request and no reply, and leaves the snapshot unchanged. |
| Upgrades.UnaffordableCardSkipped | pip.js:125 | A card priced 100 against a balance of 50 is passed over. |
| Upgrades.AffordableCardRequested | pip.js:125-126 | A card priced 100 against a balance of 150, within the cap and not owned, is requested first, with the balance in hand and the next reply. |
| Upgrades.ScanAppend | pip.js:112-133 | Scanning `a + b` is scanning `a`, then scanning `b` from the snapshot `a` ends with and the replies its purchases left. |
| Upgrades.ScanSingle | pip.js:113-131 | A single card is requested, with the balance in hand and the next reply, if and only if it passes the rule; the snapshot then follows the reply. |
| Upgrades.ScanPrefix | pip.js:112-133 | The purchases made over the start of the catalog are never revised by the cards that follow. |
| Upgrades.ScanExtendsByCard | pip.js:113-131 | Reaching card `k` adds a request for it exactly when it passes the rule against the balance held after cards `0..k-1`. |
| Upgrades.ScanDecidesEachCard | pip.js:112-133 | Card `k` is requested if and only if it passes the rule against the balance held after the cards before it; the request receives the next reply. |
| Upgrades.UpgradeCards | pip.js:97-136 | The scan equals `ScanCatalog` from the owned set built once. Every card is decided by the rule: it is requested if and only if it is not owned, not expired, within the cap and cheaper than the balance the scan holds when it reaches it. Request `i` receives reply `i`; the result is the last adopted snapshot; purchases follow catalog order. |
| Taps.Iterate | pip.js:263-310 | A pass that goes round again has made at least one request and consumed at least one reply. |
| Taps.TapLoop | pip.js:259-322 | The run makes no request if and only if the first amount is zero; it then returns the snapshot unchanged with the "no energy" stop. |
| Taps.IterateFollowsMachine | pip.js:263-310 | One pass of the body is a path of the exchange state machine from the loop head. |
| Taps.TapLoopFollowsMachine | pip.js:259-322 | The machine accepts the whole trace of the loop and closes in the loop's result and stop reason: boosts only when due, coins `energy * 5` only after a successful boost, refills only on negative energy with refills left. |
| Taps.IterateAnswersInOrder | pip.js:273-297 | A pass takes one reply per request, in order, and hands the rest of the stream on. |
| Taps.TapLoopAnswersInOrder | pip.js:259-322 | Request `i` of a run receives reply `i` of the stream. |
| Taps.IterateAdopts | pip.js:274-301 | Every successful boost, tap or refill reply of a pass is adopted, and nothing else. |
| Taps.TapLoopAdoptsLast | pip.js:274-322 | The snapshot a run returns is the one of its last successful request; a failed tap or refill returns the last adopted snapshot. |
| Taps.FirstRequestIsTap | pip.js:264-270 | A run whose first amount is non-zero starts with a tap of `coinsPerTap`; no boost precedes the first tap. |
| Taps.LowEnergyStopsWithoutRefill | pip.js:295-304 | At any loop head without a due boost, a tap that leaves energy in [0, 20) stops the loop without a refill, whatever refills remain. |
| Taps.FailedRefillStops | pip.js:295-299 | At any loop head without a due boost, a tap that leaves energy negative with refills left triggers a refill; a failed refill stops the loop with the tapped snapshot. |
| Taps.TapPass | pip.js:263-310 | One pass of the loop body agrees with `Iterate`: its exchanges, the snapshot it leaves, the stream left and its stop. |
| Taps.PerformTaps | pip.js:259-322 | The loop equals `TapLoop`, is accepted by the state machine, returns the last adopted snapshot and answers request `i` with reply `i`. |
| Session.GroupId | pip.js:209 | The group id lies in 1..4 and is the quarter of [0, 1) the draw falls in. |
| Session.EveryGroupReachable | pip.js:209 | Each of the four groups is drawn by some value in [0, 1). |
| Session.LoginAndUpdateUser | pip.js:188-241 | Nothing happens without a 200 login. Onboarding runs only when the boarding is not completed: first the group update with an id in 1..4, then the completion only after a 200 group update. The snapshot is replaced only by the completion reply, when both answer 200. A thrown onboarding request ends the turn before the quests. Otherwise the eligible quests are checked, the taps run from the onboarded snapshot, and the purchase scan runs from the tapped snapshot. A missing `user=` field or a thrown catalog read ends the turn before any purchase. |

## Left out

- HTTP transport, URLs, headers and the fixed `referredBy` payloads (`getHeaders`, pip.js:10-32): every request is a
  reply from a stream, and request bodies are recorded only as far as the loop decides them (tap coins, group id).
- Logging, colours, the countdown and `printLogo` are output only. The log messages of the quest checks are modelled
  as the `CheckOutcome` they report.
- Reading `config.json` and `data.txt`, and the endless `main` scheduler (pip.js:325-349). `maxInvestPrice`, the
  credential and the clock are parameters of one turn.
- `Date.now` is one `now` for the whole turn. The source reads the clock again in `getQuestIds`, `upgradeCards` and
  each boost check.
- `Math.random` is a parameter `random` in [0, 1).
- The one-second pauses have no observable effect.
- `decodeURIComponent` and `JSON.parse` of the user field, and the `first_name` read in `main`, are library calls on
  the extracted text. Malformed JSON, which also makes the upgrade phase throw, is not modelled.
- Numbers are unbounded integers, not JavaScript doubles.
- Fields the server omits are not modelled. This covers a 200 reply without a `user`, which the boost and refill
  checks (`if (updatedUser)`, `if (!refillResult)`) would treat as a failure, and a quest whose `validUntil` is absent
  rather than `null`.
- An exception raised while logging a response (for example a missing `tradingGroupData`) is not modelled.
- The status of the catalog request inside `upgradeCards` is not inspected by the source. The model only tells a
  catalog that answered from one that threw.
- Session.LoginAndUpdateUser: the snapshot returned by the upgrade scan is reported in `Turn.user`. The source
  discards it once the turn ends.
