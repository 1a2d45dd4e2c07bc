# GiftBot ledger model

GiftBot is a Telegram bot with a companion web app. Users collect coins, redeem promo codes, invite friends with `ref_` links and enter giveaways ("draws"). The bot keeps everything in one in-memory store, `DB`, which holds four tables:

- `users`: balance, referrals, referrer and used promo codes.
- `promos`: reward, usage cap and usage counter.
- `draws`: open giveaways.
- `finished`: the archive of giveaways.

It also holds `drawCounter`, the last draw id issued.

This project models that store and the handlers that change it, and proves what they promise.

- **Users.** A user record is created lazily with 1000 coins.
- **Promo codes.** Admins provision codes with /cpromo and /vpromo. Users redeem them through `POST /api/promo`. Checks run in a fixed order, and success makes three updates in step.
- **Referrals.** On /start with a `ref_` payload, the user's `refBy` is set unless the user invites themself or already has a referrer. The source's guard lets an empty referrer id be overwritten; the store uses the corrected, write-once guard (see Findings). The inviter gets a flat bonus of 1000, plus a one-time bonus of 2000 at the third referral.
- **Giveaway lifecycle.**
  - /cdraw parses the arguments (winner count, duration) and stores an open draw under the next id.
  - Users join through `POST /api/draws/join`.
  - `finishDraw` picks winners from a shuffle, splits a money prize by floor division, credits the winners and moves the draw to the archive.
  - /ddelete removes a draw from the archive.
  - Two public lists: active draws, and archived draws newest first.

Modules:

- `Wrappers`: `Option` and `Result`.
- `JsString`: the JavaScript string semantics the handlers rely on. This covers `trim`, `parseInt` with no radix, `toUpperCase`/`toLowerCase` for Basic Latin and the letters U+0400 to U+045F, `includes`, `startsWith`, `join`, and `replace` of one character.
- `Records`: the records and the pure calculations on them. These are lazy creation, code normalisation, the money test and split, winner selection, crediting, and referral attribution.
- `DrawCommand`: the arguments of /cdraw and /ddelete.
- `Listing`: the two public draw lists.
- `Bot`: the class `Store`, holding the five fields of `DB`. Each handler is a method with `modifies this`, and `Valid()` is the store invariant every method keeps.

Inputs the model takes as parameters:

- The clock is the `now` parameter.
- The random shuffle of participants is a permutation `perm` of their indices.
- The timer that finishes a draw is an explicit call of `FinishDraw`. In the source it usually fires at the deadline, but not for long draws (see Left out).

## Model

| member | source | states |
|---|---|---|
| Records.WithUser | bot.js:24-32 | getUser adds the uid to the table if it is missing, as a fresh record with balance 1000. An existing record is never replaced, and no other record changes. |
| Records.NewUserValid | bot.js:26-30 | A freshly created user record satisfies the user invariant: no repeated promo codes, `refEarned` equals 1000 per referral, and the milestone flag is set exactly at three referrals. |
| Bot.Store.constructor | bot.js:16-22 | The store starts with all four tables empty and the draw counter at 0, and it satisfies the invariant. |
| Bot.Store.GetUser | bot.js:24-32 | Returns the stored record, or creates and stores one with 1000 coins. Nothing else in the store changes, and the invariant holds. |
| JsString.TrimStart | bot.js:135 | `trimStart` removes exactly the leading white space: the result is a suffix, everything removed is white space, and the result does not start with white space. |
| JsString.TrimEnd | bot.js:135 | `trimEnd` removes exactly the trailing white space. |
| JsString.Trim | bot.js:135 | The trimmed text is no longer than the input and neither starts nor ends with white space. |
| JsString.TrimIsSlice | bot.js:135 | `trim` removes exactly the surrounding white space: the result is the part of the input that starts after the leading white space, and only white space follows it. |
| JsString.TrimEmptyIffBlank | bot.js:135-136 | Trimming leaves nothing exactly when the text is all white space. |
| JsString.UpperCaseOf | bot.js:135 | `toUpperCase` leaves no lower-case letter, keeps every other character, and lower-casing a changed letter gives it back. |
| JsString.LowerCaseOf | bot.js:267 | `toLowerCase` leaves no upper-case letter, keeps every other character, and upper-casing a changed letter gives it back. |
| Records.BlankCodeIsEmpty | bot.js:135-136 | The normalised code is empty, and so refused as an invalid request, exactly when the code typed is all white space. |
| Records.NormaliseIgnoresCase | bot.js:135 | The code that redemption looks up does not depend on the case the user types it in. Lower-casing or upper-casing the input first gives the same key. |
| Records.ProvisionedKeyIsLookedUp | bot.js:224-225 | For a code word with no surrounding white space, the key /cpromo or /vpromo stores (the upper-cased word) is the key that redeeming that word looks up. |
| Records.PaddedKeyIsNotLookedUp | bot.js:222-225 | A code word that starts or ends with white space other than ' ' (a tab, a no-break space) is stored under a key that redemption, which trims, never looks up, whatever text the user types. |
| Bot.Store.ProvisionPromo | bot.js:224-225 | /cpromo and /vpromo store the upper-cased code with a usage counter of 0, replacing any earlier code under the same key. Nothing else changes. |
| Bot.UseOnce | bot.js:145 | One redemption adds exactly one to the usage counter and keeps the reward, the cap and the VIP flag. |
| Bot.Credited | bot.js:143-144 | The redeeming user's balance grows by the reward, and the code is appended to `usedPromos`. The referral fields are untouched. |
| Bot.RedeemKeepsValid | bot.js:140-145 | A redemption below the cap of a code the user has not used keeps `usedCount <= maxUses` and keeps `usedPromos` free of repeats. So no user redeems a code twice. |
| Bot.Store.RedeemPromo | bot.js:133-147 | The code is normalised, then rejected in this order: empty code or user, unknown code, VIP-only code for a non-VIP, exhausted cap, code already used by this user. Each refusal leaves the store unchanged. On success, the counter, the balance and the user's used codes each advance by one step, and the reward and new balance are returned. |
| Records.Rewarded | bot.js:203-206 | The inviter's `refs` gains the entry, and `balance` and `refEarned` each rise by 1000. The extra 2000 and the `task3Done` flag come exactly when the list reaches three while the flag is unset. |
| Records.ApplyReferral | bot.js:200-206 | An accepted referral sets the new user's `refBy` and rewards the inviter, who is created if unknown. No other user changes. |
| Records.ReferAsWritten | bot.js:199-206 | With the guard as written, attribution does nothing when the inviter is the user or `refBy` is truthy. |
| Records.AsWrittenReattributes | bot.js:198-199 | The guard as written lets the payload "ref_" attribute the same user again, and the empty-id inviter collects a second referral. See Findings. |
| Records.Refer | bot.js:199-206 | With the corrected guard, attribution does nothing for a self-invitation or a user who already has a referrer. Otherwise it records the referrer and pays a bonus. |
| Records.ReferWriteOnce | bot.js:199-201 | `refBy` is write-once: after a successful attribution, any later start with any inviter changes nothing. |
| Records.ReferKeepsUsersValid | bot.js:204-206 | Attribution keeps every user record valid. The milestone bonus is paid exactly when the inviter goes from two to three referrals, so at most once per inviter. |
| Bot.Store.Start | bot.js:192-211 | /start creates the user if new. A payload without `ref_` changes nothing else. A `ref_<inviter>` payload performs exactly `Refer` on the inviter id after the prefix. |
| JsString.ParseIntOfDigits | bot.js:270 | `parseInt` of an all-digit word is its decimal value. |
| JsString.ParseIntOfTrimmedDigits | bot.js:72 | `parseInt` of a text that is digits once trimmed is the value of those digits. |
| DrawCommand.ClampWinners | bot.js:270 | `Math.max(1, Math.min(n, 100))` lies in 1..100. It equals `n` when `n` already does, 100 above that range and 1 below it. |
| DrawCommand.TimeWordStems | bot.js:259-267 | A word counts as a time word exactly when its lower-cased form contains "мин", "час", "дн" or "день": the ten listed words reduce to these four stems. |
| JsString.ParseIntLeadingChar | bot.js:275 | `parseInt` is NaN for blank text and for text whose first non-space character is neither a digit nor a sign. A leading digit not followed by 'x' gives a number that is not negative, and only a leading '-' gives a negative one. |
| DrawCommand.DurationMs | bot.js:274-280 | The duration is the leading number of the time text (1 if it is missing or 0) times a minute, hour or day. The unit is the first of "мин", "час", "ден"/"дн"/"день" that the text contains. The default is one hour, and the result is never below a minute. |
| DrawCommand.ParseDrawCommand | bot.js:246-274 | Fewer than two words is a usage error. Otherwise the prize is the first word. The winner count is the clamped last word when that word is all digits and the word before it is a time word. The time text is the words in between, and the duration is derived from it. |
| DrawCommand.WinnersWordIsParsed | bot.js:266-270 | When the count is given, it is `parseInt` of the last word, clamped. |
| Bot.OpenDraw | bot.js:295-299 | The stored draw has the new id, no participants, and ends `durationMs` after its creation. It is open when the winner count is in range. |
| Bot.CreateKeepsDrawsValid | bot.js:283-299 | Storing an open draw under `drawCounter + 1` keeps the tables valid. The new id is larger than every id already used. |
| Bot.Store.CreateDraw | bot.js:246-299 | /cdraw fails without changes exactly when it has fewer than two words. Otherwise it increments the counter and stores an open draw under the new id. That id is absent from both tables and larger than all previous ids. |
| Records.DisplayName | bot.js:183 | A participant's name is "@username", else the first name, else "Аноним". It is never empty. |
| Records.JoinKeepsUidsUnique | bot.js:182-183 | Appending a user who is not yet a participant keeps one entry per user and adds exactly that user. |
| Bot.JoinKeepsDrawsValid | bot.js:182-183 | Adding a new participant keeps the draw tables valid. |
| Bot.Store.JoinDraw | bot.js:178-185 | Refuses, without changes, exactly when the draw is missing, finished or past its end. Otherwise refuses, without changes, exactly when the user already takes part. Otherwise it appends that one participant and returns the old count plus one. |
| Records.WinnerCount | bot.js:68 | The number of winners is `min(winnersCount \|\| 1, n)`: at most `n` and at most `winnersCount \|\| 1`, and equal to one of the two. |
| Records.PermutationCovers | bot.js:69 | The outcome of the shuffle lists every participant index: `n` distinct indices below `n` are all of them. |
| Records.Shuffle | bot.js:69 | The shuffled list has the same length and holds exactly the participants, every one of them, each moved to the place `perm` gives it. |
| Records.PickWinners | bot.js:68-70 | The winners are a prefix of the shuffle, of that length. Every winner is a participant, and the winners are distinct users when the participants are. |
| Records.MoneyPrizeIsNumber | bot.js:35 | A prize `isMoney` accepts is a decimal number with only white space around it: every other character is a digit, and `parseInt` reads exactly the trimmed digits. |
| Records.PrizeAmount | bot.js:71-72 | The amount of a money prize is what `parseInt` reads from the prize text. |
| Records.SplitPrize | bot.js:72 | The winners' shares together never exceed the prize. The uncredited remainder is less than the number of winners. |
| Records.CreditEffect | bot.js:93-94 | Crediting one user makes sure the user exists, moves only that user's balance, by the amount, and changes nobody else. |
| Records.CreditAllFrame | bot.js:91-94 | Crediting a list of winners, repeats included, gives every winner a record and changes nobody else. |
| Records.CreditAllEffect | bot.js:91-94 | Crediting distinct winners raises each winner's balance by exactly the share, starting from 1000 for a winner without a record. Nothing else in their records changes, and every other user is untouched. |
| Records.CreditKeepsUsersValid | bot.js:93-94 | Crediting a balance keeps every user record valid. |
| Records.CreditAllStep | bot.js:91-94 | Crediting the first i+1 winners is crediting the first i and then winner i. |
| Bot.Store.PayWinners | bot.js:91-94 | The loop over the winners leaves the user table equal to crediting each winner the share in turn. Nothing else changes. |
| Bot.Archived | bot.js:58-59 | The archive record is the draw marked finished at `now` with its winners, with id, prize and participants kept. |
| Bot.ArchiveKeepsDrawsValid | bot.js:74-76 | Moving an open draw with its drawn winners to the archive keeps the tables valid: the archived draw has the right number of distinct winners, all of them participants. |
| Bot.Store.FinishDraw | bot.js:55-108 | A draw that is not open is left alone. Otherwise it leaves the open table, and the archive gains it finished at `now` with its winners. Without participants there are no winners and no balance changes. A non-money prize changes no balance. A money prize credits each winner `floor(prize / winners)`, and the remainder goes to nobody. |
| JsString.RemoveFirstSplices | bot.js:359 | `replace('#', '')` removes exactly the first '#': the result is the input with its first occurrence of the character spliced out. |
| DrawCommand.ParseDrawId | bot.js:357-360 | /ddelete needs a second word. The id is `parseInt` of that word with its first '#' removed, and NaN and 0 are rejected. |
| Bot.DeleteKeepsDrawsValid | bot.js:363 | Removing an archive entry keeps the tables valid. |
| Bot.Store.DeleteDraw | bot.js:355-365 | Refuses a malformed id, an id still open, and an id not in the archive. Otherwise it removes exactly that archive entry. Balances, promo codes and open draws never change. |
| Listing.InIdOrder | bot.js:152 | `Object.values` of a table keyed by id lists exactly its draws, each once, in ascending id order. |
| Listing.ActiveOnly | bot.js:153 | The filter keeps exactly the draws that are not finished and end after `now`, in their original order. |
| Listing.ActiveDrawsOf | bot.js:152-153 | The draws of the active list are exactly the active draws of the open table, in ascending id order. |
| Listing.Summaries | bot.js:154-158 | The active list maps each draw to its summary, entry by entry. |
| Listing.ActiveList | bot.js:150-160 | `GET /api/draws` lists every active draw and only active draws, as summaries, in ascending id order. |
| Listing.InsertByFinished | bot.js:165 | Inserting a draw with a larger id into a list sorted newest first keeps it sorted, with ties by id and no id twice. It adds exactly that draw. |
| Listing.SortByFinished | bot.js:164-165 | The stable sort by `finishedAt`, descending, of draws in id order is a reordering of the same draws. It is newest first, with equal times in ascending id order. |
| Listing.FinishedDrawsOf | bot.js:164-165 | The draws of the finished list are exactly the archived draws, in that order. |
| Listing.Views | bot.js:166-173 | The finished list maps each draw to its view, entry by entry. |
| Listing.ViewsKeepOrder | bot.js:165-173 | Mapping to views keeps the newest-first order, the tie order and the distinct ids. |
| Listing.FinishedList | bot.js:162-175 | `GET /api/draws/finished` lists every archived draw exactly once, newest first by `finishedAt`, with equal times in ascending id order. |

## Left out

- The Telegram and Express wiring is not modelled: routing, webhooks, `bot.launch`, reply and notification texts, and the sync, health and catch-all endpoints. The sends in `finishDraw` are awaited one by one, between the credits of successive winners, and their errors are swallowed. The model assumes every send settles: a send that never settles would hold back the credits of the remaining winners, which the model does not capture. `FinishDraw` returns a `FinishOutcome` that says what would be announced.
- The network calls are not modelled: `checkSub`, `checkMember`, the image lookup of /cdraw (the image URL is a parameter) and the `getChat` lookup of /pgive.
- The /pgive command (a manual balance credit by username) is outside the modelled ledger core. The /promos, /draws and /users admin commands are text listings. `isAdmin` is a constant comparison, so every modelled admin handler assumes an admin caller.
- `setTimeout` and the real clock are not modelled. `now` is a parameter, and finishing a draw is an explicit call. Node's `setTimeout` replaces a delay above 2147483647 ms (about 24.8 days) by 1 ms. So a draw of 25 days or more, or 597 hours or more, is finished almost at once, usually with no participants, while its `endsAt` is still far ahead. The model, where finishing is an explicit call at any time, does not capture this.
- Uniform randomness of `sort(() => Math.random() - 0.5)` is not modelled. Winners are modelled as a prefix of an arbitrary permutation.
- The user fields `username`, `firstName`, `regDate` and `vipExpiry`, and the locale date strings, are presentation. A `Referral` entry's name and date are parameters.
- The text splitting in /cdraw (`replace('/cdraw', '').trim().split(' ')`) and in /ddelete and /cpromo is not modelled. The handlers receive the list of words.
- The `Number(...)` parsing of a promo's reward and cap is not modelled: `ProvisionPromo` receives integers. Its usage reply for fewer than four words is not modelled either.
- JavaScript number precision is not modelled. Integers are unbounded, so a prize or duration beyond 2^53 is read exactly.
- `Records.PrizeAmount`: stated for digit-only prizes, which are the only ones `finishDraw` reads.
- Case mapping covers Basic Latin and the letters U+0400 to U+045F only. Other letters, such as the rest of the Cyrillic block (ґ, ү) or accented Latin letters (é), are left unchanged, unlike `toUpperCase` and `toLowerCase`.
- JavaScript property keys are not modelled. Object keys are modelled as strings for users and codes and integers for draw ids, so the prototype keys of a plain object (such as "__proto__") play no part.
- An empty `userId` models a missing one.
- A `finishDraw` call interleaving with other handlers at its `await`s is not modelled. The model applies the whole finalisation at once, and a /cdraw interrupted during its image fetch likewise.
- `Bot.Store.Start`: applies the corrected guard `refBy.None?` (`Records.Refer`), not the source's `!u.refBy`. The guard as written is `Records.ReferAsWritten`; the two differ only for a user whose recorded referrer id is empty (see Findings).
- `Bot.Store.ProvisionPromo`: takes the reward and the cap as integers, so the cap invariant `usedCount <= maxUses` (`Bot.RedeemKeepsValid`) holds for integer caps only. In the source both come from `Number(...)`. A non-numeric cap is NaN, and `usedCount >= NaN` is never true, so such a code is never exhausted. A fractional cap such as 2.5 allows three uses. A non-numeric reward is NaN, and adding it turns every redeemer's balance into NaN.
- `Bot.Store.FinishDraw`: the balance of each winner is stated as `CreditAll`. The per-winner effect is stated by `Records.CreditAllEffect`, which applies because the winners are distinct, as `Records.PickWinners` states.

Behaviour modelled as the code has it:

- Join accepts a draw whose end equals `now`, while the active list requires the end to be after `now`.
- The duration unit is found case-sensitively, while the time word before a winner count is found after lower-casing.
- A code provisioned with surrounding white space other than ' ' cannot be redeemed, because redemption trims the code it looks up and provisioning does not (`Records.PaddedKeyIsNotLookedUp`).
- A user who repeats a redemption of an exhausted code is refused as exhausted, not as already used, because the cap is checked first.

## Findings

| source | as written | input that shows it | evidently intended | confidence | as-written member | corrected member |
|---|---|---|---|---|---|---|
| bot.js:199 | `!u.refBy` treats a recorded empty referrer id as no referrer | /start with payload "ref_" twice from the same user: `refBy` becomes "", which is falsy, so the second start attributes again and the empty-id inviter gets a second referral and bonus | a referrer is recorded once (`refBy` is write-once) | not executed | Records.AsWrittenReattributes | Records.ReferWriteOnce |
