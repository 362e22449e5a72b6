# Referral waitlist core, modelled in Dafny

This project models the referral and waitlist logic of a landing-page
application, plus its rules for classifying the deployment environment.

- **Referral codes** (`referral_code.dfy`).
  - `generateReferralCode` draws one character per step from an alphabet.
  - It rejects a length below 4 and an alphabet shorter than 10.
  - `isValidReferralCode` accepts a string of bounded length over `[A-Za-z0-9]`.
- **The in-memory repository** (`repository.dfy`). This is a class with:
  - the users keyed by id;
  - an index by e-mail and an index by referral code;
  - the set of referees already credited;
  - an id counter.
  - Its `joinWaitlist`:
    - normalises the e-mail and the code;
    - returns an existing user unchanged;
    - otherwise creates a user with a fresh id and an unused code (at most 20 attempts);
    - credits the referrer at most once, and never the user itself.
  - `computeRankings` orders users by referral count (descending), then join time (ascending). Ties keep insertion order.
  - Stats and the leaderboard read the ranking.
- **The referral service** (`service.dfy`).
  - `clamp01` and tier progress over a sorted tier table.
  - The `ReferralService` class: it checks its configuration, drops one trailing slash from the base URL, and composes the repository's calls into the join and dashboard results, including the referral link.
- **Environment classification** (`env.dfy`).
  - `getAppEnv` is a priority-ordered decision over environment variables.
  - `isProductionIndexable` and `isConsentRequired` are derived from it.
- **Shared pieces.**
  - `common.dfy`: JavaScript `trim`, ASCII `toLowerCase`, decimal numerals, and the `Option`, `Result` and `Error` types. Every thrown error becomes an `Err` value.
  - `sorting.dfy`: a stable sort by a two-part key. `Array.prototype.sort` is stable, and the model proves that every stable sort gives the same result.
  - `uri.dfy`: `encodeURIComponent` (ECMAScript 2024, section 19.2.6.5).

**The repository's invariant.** The repository keeps an invariant, `Valid()`, which states:
- `insertionOrder` lists each user exactly once, giving the `Map` iteration order.
- Each user is stored under its own id, and no id the counter has yet to issue is in use.
- Both indices are exact, so e-mails and codes are unique.
- The credited set is exactly the set of users that have a referrer.
- No user refers itself.
- Every `referralsCount` equals the number of users that name that user as referrer.

Every state-changing method of the repository keeps `Valid()` and states its whole new state. The service's `JoinWaitlist` returns the repository's own result as a ghost value and ties its new state and its view to it.

**Randomness and time.**
- Randomness is a `RandomSource` object. Its i-th draw is `oracle(i, bound)`.
- An honest oracle returns a value in `[0, bound)`.
- An out-of-range draw makes `alphabet[k]` undefined; the model appends the text `undefined`, as the concatenation `code += alphabet[k]` does (`String(undefined)`).
- The clock behind `createdAt` is the `now` parameter of `JoinWaitlist`. Join times can therefore tie, and the insertion-order tie-break is part of the model.

**Numbers.** Tier progress is a `real`. The division `progressed / span` is modelled as a JavaScript number: a zero span gives ±Infinity, or NaN for `0 / 0`. `clamp01` then maps these to 0 or 1.

**Tier progress with one tier.** Progress is complete (equal to 1) exactly when every tier's requirement is met, or when the list has at most one tier. With a single tier whose requirement is not met, the scan stays on index 0 and finds no next tier. `getTierProgress` then reports progress 1 and 0 remaining (src/referrals/referralService.js:21-31). `ProgressCompleteIff` states this behaviour.

## Model

| member | source | states |
|---|---|---|
| Common.Trim | src/referrals/inMemoryReferralRepository.js:47-48 | `trim` drops whitespace from both ends only: the result is the infix of the input after its leading whitespace, everything after it is whitespace, it has none at either end, it is empty exactly when the input is all whitespace, and it is the input itself when that has no whitespace |
| Common.TrimIdempotent | src/referrals/inMemoryReferralRepository.js:47-48 | trimming twice is trimming once |
| Common.TrimUnique | src/referrals/inMemoryReferralRepository.js:47-48 | whenever a string is whitespace, then a core with no whitespace at either end, then whitespace, `trim` returns exactly that core |
| Common.TrimIgnoresPadding | src/referrals/inMemoryReferralRepository.js:47-48 | adding whitespace on either side does not change the trimmed result |
| Common.ToLowerCaseIdempotent | src/referrals/inMemoryReferralRepository.js:47 | lowering twice is lowering once |
| Common.TrimLowerCommute | src/referrals/inMemoryReferralRepository.js:47 | trimming and lowering commute, so `trim().toLowerCase()` equals `toLowerCase().trim()` |
| Common.ToLowerCase | src/referrals/inMemoryReferralRepository.js:47 | `toLowerCase` keeps the length and maps each character by ASCII lowering |
| Common.Decimal | src/referrals/inMemoryReferralRepository.js:32 | the numeral in `user_${n}` is non-empty, all digits, one digit exactly below 10, and ends in n mod 10 |
| Common.DecimalInjective | src/referrals/inMemoryReferralRepository.js:32 | distinct counter values give distinct numerals |
| Sorting.SortBy | src/referrals/inMemoryReferralRepository.js:5-8 | the stable sort keeps the length |
| Sorting.SortByIsStableSort | src/referrals/inMemoryReferralRepository.js:5-8 | the result is sorted, is a permutation of the input, and keeps the input order among equal keys |
| Sorting.StableSortUnique | src/referrals/inMemoryReferralRepository.js:5-8 | two stable sorts of the same input are equal, so the sort algorithm is not observable |
| Sorting.SortByCharacterized | src/referrals/inMemoryReferralRepository.js:5-8 | a sequence is a stable sort of the input if and only if it is what SortBy returns |
| ReferralCode.RandomSource.RandomInt | src/referrals/referralCode.js:14 | each call returns the next draw of the oracle for the bound and advances the draw count by one |
| ReferralCode.Draws | src/referrals/referralCode.js:25-26 | the `count` draws starting at `start` are the oracle's values at consecutive positions |
| ReferralCode.CharAt | src/referrals/referralCode.js:26 | `alphabet[k]` is the k-th character when k is in range, and the text `undefined` otherwise |
| ReferralCode.CodeFromDraws | src/referrals/referralCode.js:24-27 | each draw contributes 1 to 9 characters (9 for `undefined`); with in-range draws the code has exactly one character per draw |
| ReferralCode.CodeFromDrawsPicks | src/referrals/referralCode.js:24-27 | with in-range draws the code has one character per draw, each the alphabet's character at that draw |
| ReferralCode.HonestCodeShape | src/referrals/referralCode.js:24-27 | with an oracle that returns values in `[0, n)`, the code has the requested length and every character is in the alphabet |
| ReferralCode.GenerateReferralCode | src/referrals/referralCode.js:11-30 | length (default 6) below 4 gives LengthInvalid and alphabet (default the 62 alphanumerics) shorter than 10 gives AlphabetTooShort, in that order and without drawing; otherwise the code is the one built from the next `length` draws, which are consumed |
| ReferralCode.DrawCode | src/referrals/referralCode.js:24-27 | the loop appends, for each of `length` draws, the alphabet's character at that draw, and consumes exactly those draws |
| ReferralCode.MatchesAlnumPlus | src/referrals/referralCode.js:46 | `^[A-Za-z0-9]+$`, matched one character at a time, matches exactly the non-empty all-alphanumeric strings |
| ReferralCode.IsValidReferralCode | src/referrals/referralCode.js:39-47 | valid if and only if the value is a string whose length lies in `[minLength, maxLength]` (default 4..32), is non-empty and is all ASCII alphanumerics |
| ReferralCode.DefaultAlphabetIsAlnum | src/referrals/referralCode.js:3 | the default alphabet has 62 distinct characters, and they are exactly the ASCII alphanumerics |
| ReferralCode.GeneratedCodeIsValid | test/referralCode.test.js:6-17 | a code of length 4 to 32 drawn honestly from the default alphabet passes the validator |
| ReferralCode.LastLetterStub | test/referralCode.test.js:6-10 | an oracle that always returns `max - 1` gives `ZZZZZZ` for length 6, and that code is valid |
| ReferralCode.RejectsNonUrlSafe | test/referralCode.test.js:25-29 | `ab_cd`, `ab cd`, the empty string and a non-string are rejected |
| Repository.UserIdInjective | src/referrals/inMemoryReferralRepository.js:30-33 | `_newId` never issues the same id for two counter values |
| Repository.UserIdFor | src/referrals/inMemoryReferralRepository.js:32 | an id is `user_` followed by the decimal numeral of the counter, so everything after the prefix is a digit |
| Repository.NormalizeEmail | src/referrals/inMemoryReferralRepository.js:47 | the normalised e-mail is the trimmed e-mail lowered character by character: same length, each character the ASCII lowering of the trimmed one; it is empty exactly when the e-mail is absent or all whitespace |
| Repository.NormalizeEmailIgnoresPadding | src/referrals/inMemoryReferralRepository.js:47 | whitespace around an e-mail does not change its normal form |
| Repository.NormalizeEmailIgnoresCase | src/referrals/inMemoryReferralRepository.js:47 | an e-mail and its lower-cased form normalise alike |
| Repository.NormalizeEmailExample | src/referrals/inMemoryReferralRepository.js:47 | ` A@x.com ` and `a@x.com` are the same e-mail to the store |
| Repository.NormalizeReferralCode | src/referrals/inMemoryReferralRepository.js:48 | a code is kept trimmed and non-empty; an absent or blank code becomes absent |
| Repository.ComputeRankings | src/referrals/inMemoryReferralRepository.js:3-8 | the ranking lists as many users as the store holds (its order is stated by RankingOrders) |
| Repository.RankKeyOrders | src/referrals/inMemoryReferralRepository.js:5-8 | the comparator's key puts one user at or before another exactly when it has more referrals, or as many and joined no later |
| Repository.RankingOrders | src/referrals/inMemoryReferralRepository.js:3-8 | the ranking is a permutation of the users; each user ranks at or above the next (more referrals, or as many and joined no later); users with equal count and join time keep their insertion order |
| Repository.PositionMapKeys | src/referrals/inMemoryReferralRepository.js:10-11 | `positionById` has an entry for exactly the ids in the ranking |
| Repository.PositionMap | src/referrals/inMemoryReferralRepository.js:10-11 | every recorded position is in 1..n, and the ranking lists the user with that id at that position |
| Repository.PositionsAreIndices | src/referrals/inMemoryReferralRepository.js:10-11 | with distinct ids, the user at index i has position i + 1, so positions are exactly 1..n |
| Repository.RankingKeepsSum | src/referrals/inMemoryReferralRepository.js:112 | ranking does not change the sum of the referral counts |
| Repository.SumCounts | src/referrals/inMemoryReferralRepository.js:112 | the total is at least every single user's count |
| Repository.RankingKeepsDistinctIds | src/referrals/inMemoryReferralRepository.js:3-8 | ranking users with distinct ids gives users with distinct ids |
| Repository.RankingMembers | src/referrals/inMemoryReferralRepository.js:4-8 | a user is in the ranking exactly when it is in the store's list |
| Repository.TotalReferralsIsCredited | src/referrals/inMemoryReferralRepository.js:112 | in a consistent store the referral counts sum to the number of credited referees |
| Repository.SumCountsPartition | src/referrals/inMemoryReferralRepository.js:112 | summed over distinct listed users, the counts add up to the number of users credited to one of them |
| Repository.RankingPosition | src/referrals/inMemoryReferralRepository.js:54-60 | every stored user has a position in 1..n, and the ranking lists it at that position |
| Repository.AddUserConsistent | src/referrals/inMemoryReferralRepository.js:66-78 | storing a fresh user (next id, unused e-mail and code, no referrer, count 0) in all three maps keeps the invariant |
| Repository.CreditConsistent | src/referrals/inMemoryReferralRepository.js:83-90 | crediting an uncredited user to another stored user keeps the invariant, and that user was not in the credited set |
| Repository.CreditReferees | src/referrals/inMemoryReferralRepository.js:87-89 | after the credit, only the referrer gains a referee, and that referee is the new user |
| Repository.Credit | src/referrals/inMemoryReferralRepository.js:87-89 | the referrer's count rises by one, the new user names the referrer, and every other user is unchanged |
| Repository.FirstFreeAttempt | src/referrals/inMemoryReferralRepository.js:35-41 | the first of attempts 0..19 whose code is not taken: every earlier attempt collides; if there is none, all 20 collide |
| Repository.FirstFreeStep | src/referrals/inMemoryReferralRepository.js:36-38 | an attempt whose code is free ends the search there; otherwise the search continues with the next attempt |
| Repository.InMemoryReferralRepository.constructor | src/referrals/inMemoryReferralRepository.js:16-28 | the store starts empty with counter 0 and satisfies the invariant |
| Repository.InMemoryReferralRepository.NewId | src/referrals/inMemoryReferralRepository.js:30-33 | the counter rises by one, the id is `user_` plus the new counter and is not in use, and nothing else changes |
| Repository.InMemoryReferralRepository.EnsureUniqueReferralCode | src/referrals/inMemoryReferralRepository.js:35-41 | returns the code of the first free attempt, having drawn six characters per attempt made; after 20 collisions it fails with CodeSpaceExhausted |
| Repository.InMemoryReferralRepository.NextDefaultCode | src/referrals/inMemoryReferralRepository.js:37 | one attempt is a six-character default-alphabet code from the next six draws |
| Repository.InMemoryReferralRepository.JoinWaitlist | src/referrals/inMemoryReferralRepository.js:46-103 | keeps the invariant. A blank e-mail gives EmailRequired with nothing changed. A known e-mail returns that user's id, code, count and position, with wasCreated and referralWasApplied false and nothing changed. Any other e-mail joins as a new user. A created flag is set exactly for an unknown e-mail, and only a created user can be credited |
| Repository.InMemoryReferralRepository.JoinAsNewUser | src/referrals/inMemoryReferralRepository.js:66-102 | the counter advances; if all 20 codes collide, nothing else changes and the result is CodeSpaceExhausted; otherwise the user is admitted under the new id with the first free code |
| Repository.InMemoryReferralRepository.Admit | src/referrals/inMemoryReferralRepository.js:66-102 | the new user (count 0, no referrer, time `now`) is stored in all three maps and in insertion order. The supplied code is looked up after the new code is registered. If it names another user, exactly that user is credited and the new id joins the credited set; otherwise the users and the set are unchanged. The result reports the new user, its position, wasCreated and whether the referral was applied |
| Repository.InMemoryReferralRepository.Position | src/referrals/inMemoryReferralRepository.js:60 | `positionById.get(id)` is the 1-based place at which the ranking lists the user |
| Repository.InMemoryReferralRepository.Register | src/referrals/inMemoryReferralRepository.js:76-78 | the user is added under its id, its e-mail and its code, and at the end of the insertion order, keeping the invariant |
| Repository.InMemoryReferralRepository.ApplyReferral | src/referrals/inMemoryReferralRepository.js:80-91 | applied if and only if the code is present and held by another user. Then exactly the holder's count rises, the new user names the holder, and the new id joins the credited set. Otherwise the users and the set are unchanged. The indices never change |
| Repository.InMemoryReferralRepository.CreditReferrer | src/referrals/inMemoryReferralRepository.js:84-89 | the referee joins the credited set, the referrer's count rises by one, the referee names the referrer, and the invariant holds |
| Repository.InMemoryReferralRepository.GetWaitlistStats | src/referrals/inMemoryReferralRepository.js:105-122 | an unknown id gives UserNotFound; otherwise the user's code, count and position, the number of users and the total of the counts, which is the number of credited referees |
| Repository.InMemoryReferralRepository.GetReferralLeaderboard | src/referrals/inMemoryReferralRepository.js:124-133 | the first `min(n, max(1, limit))` users of the ranking (default limit 10), each with its own id, code and count, and positions 1..k in order |
| Repository.Leaderboard | src/referrals/inMemoryReferralRepository.js:127-132 | reading each entry's position from `positionById` gives positions 1..k in ranking order |
| Uri.Utf8 | src/referrals/referralService.js:70 | a character encodes to 1 to 4 bytes, each below 256, and to one byte exactly when it is below 0x80 |
| Uri.EncodeChar | src/referrals/referralService.js:70 | an unreserved character is kept; any other becomes 3 to 12 characters starting with `%`; only encodable characters are produced |
| Uri.EncodeUriComponent | src/referrals/referralService.js:70 | the encoding is at least as long as the input and holds only unreserved characters, `%` and upper-case hex digits |
| Uri.EncodeIdentityIff | src/referrals/referralService.js:70 | encoding leaves a string unchanged if and only if all of its characters are unreserved |
| Env.GetAppEnv | lib/env.ts:3-21 | an explicit `NEXT_PUBLIC_APP_ENV` of one of the four names wins. Otherwise: preview if and only if `VERCEL_ENV` is preview; staging if and only if it is production with a non-empty ref other than `main`; production if and only if it is production on `main` (or with no ref), or `VERCEL_ENV` decides nothing and `NODE_ENV` is production; development otherwise |
| Env.IsConsentRequired | lib/env.ts:38-42 | unset, required if and only if the environment is production-indexable; set, required if and only if the value is `true` or `1` |
| Env.IsProductionIndexable | lib/env.ts:23-25 | indexable if and only if `NEXT_PUBLIC_APP_ENV` is explicitly `production`, or, with no explicit name, a Vercel production build of `main` (or with no ref), or no Vercel decision and `NODE_ENV` production |
| Env.ExplicitSettingWins | lib/env.ts:4-8 | with an explicit name set, the other variables do not matter |
| Env.EmptyConsentSettingIsOff | lib/env.ts:41 | an empty consent setting means no consent is required, even on production |
| Service.Clamp01 | src/referrals/referralService.js:8-11 | the result is in [0, 1]; NaN, -Infinity and anything at most 0 give 0; +Infinity and anything at least 1 give 1; values in [0, 1] are kept |
| Service.SortTiers | src/referrals/referralService.js:14 | sorting keeps the number of tiers |
| Service.TierKeyOrders | src/referrals/referralService.js:14 | the comparator orders tiers by requirement alone |
| Service.SortTiersOrders | src/referrals/referralService.js:14 | the sorted tiers ascend by requirement and hold the same tiers |
| Service.CurrentTierIndex | src/referrals/referralService.js:16-19 | the index is in range for a non-empty list; if it is not 0, its tier is met; every later tier is not met. So it is the last met tier, or 0 |
| Service.ScanCurrentTier | src/referrals/referralService.js:16-19 | the scan loop ends on the index CurrentTierIndex characterises |
| Service.TierProgressOf | src/referrals/referralService.js:13-42 | progress is in [0, 1] and the remainder is not negative; the current tier is absent exactly for an empty list; without a next tier, progress is 1 and the remainder is 0 |
| Service.GetTierProgress | src/referrals/referralService.js:13-42 | getTierProgress computes TierProgressOf |
| Service.NextTierIsAhead | src/referrals/referralService.js:33-40 | a next tier's requirement exceeds the count, and the remainder is exactly the difference |
| Service.RatioBelowOne | src/referrals/referralService.js:39 | a numerator below a non-negative span clamps to less than 1 |
| Service.Divide | src/referrals/referralService.js:33-39 | `progressed / span` is finite exactly when the span is not 0, and then times the span gives the numerator; a zero span gives +Infinity, -Infinity or NaN by the numerator's sign |
| Service.CompleteIffNoNextTier | src/referrals/referralService.js:24-39 | progress is 1 if and only if there is no next tier |
| Service.LastMetIffAllMet | src/referrals/referralService.js:14-19 | the largest requirement is met if and only if every requirement is met |
| Service.NoNextTierIff | src/referrals/referralService.js:17-22 | there is no next tier if and only if there is at most one tier or every requirement is met |
| Service.ProgressCompleteIff | src/referrals/referralService.js:17-39 | progress is 1 if and only if there is at most one tier or every requirement is met |
| Service.DivideMonotone | src/referrals/referralService.js:39 | over a fixed non-negative span, the clamped ratio does not decrease as the numerator grows |
| Service.ProgressMonotoneWithinTier | src/referrals/referralService.js:33-39 | while the current tier stays the same, progress does not decrease as the count grows |
| Service.DefaultTiersSorted | src/referrals/referralService.js:1-6 | the default tiers are already in ascending order |
| Service.DefaultTierExamples | src/referrals/referralService.js:1-42 | with the default tiers: 4 referrals give 0.8 toward tier 5 with 1 remaining; 5 give 0 toward tier 10 with 5 remaining; 25 give 1 with no next tier |
| Service.StripTrailingSlash | src/referrals/referralService.js:55 | one trailing `/` is removed and nothing else changes |
| Service.ReferralLink | src/referrals/referralService.js:70 | the link starts with the base and `/?ref=`; an alphanumeric code follows unencoded |
| Service.LinkForConfiguredBase | src/referrals/referralService.js:55-70 | for an alphanumeric code, the link is the configured base, then `/` unless the base already ends in one, then `?ref=` and the code; a base ending in one `/` gets no second one, and only one trailing `/` is stripped |
| Service.WidgetExplorerLink | test/referralService.test.js:28-34 | with base `https://widgetexplorer.com/`, the link of every code starts with `https://widgetexplorer.com/?ref=` |
| Service.NewReferralService | src/referrals/referralService.js:48-57 | a missing repository gives RepositoryRequired; then a missing or blank base URL gives BaseUrlRequired; otherwise the service holds the repository, the base URL without one trailing slash, and the tiers or DEFAULT_TIERS |
| Service.ReferralService.constructor | src/referrals/referralService.js:54-56 | the service stores the repository, base URL and tiers it is given |
| Service.ReferralService.JoinWaitlist | src/referrals/referralService.js:64-90 | keeps the repository invariant and returns the repository's result as a ghost value: a blank e-mail gives its EmailRequired; a known e-mail changes nothing and gives that user, so joining twice credits the referrer once; a new e-mail leaves the repository as its joinWaitlist does for a new user. The view fails exactly when that result does, with the same error. Otherwise it reports the repository's user id and the user's code, count and position after the join, the totals, the top five, the link built from the code, the tiers with TierProgressOf of the count, and the repository's wasCreated and referralWasApplied |
| Service.ReferralService.GetDashboard | src/referrals/referralService.js:92-105 | an unknown user gives UserNotFound; otherwise the stats, the top ten, the link, and the tiers with their progress, all read from the unchanged repository |

## Left out

- `getSiteUrl` in lib/env.ts builds a foreign `URL` object. The Supabase repository, the API route, UI components, analytics, logging and the sitemap and robots routes are not part of this model.
- Repository.ComputeRankings: its contract only gives the length; the ordering, permutation and stability are stated separately by RankingOrders, SortByIsStableSort and StableSortUnique.
- `positionById` is modelled as a function of the ranking (PositionMap). Each method rebuilds it from the ranking, as the source does.
- Repository.InMemoryReferralRepository.JoinWaitlist:
  - `async` and concurrency are left out; calls are sequential.
  - `createdAt: new Date()` is the integer parameter `now`. No `Date` arithmetic is modelled.
- The crypto random source is an abstract oracle, so uniqueness statistics over many draws are not stated.
- Common.ToLowerCase: lowers the ASCII letters only and keeps every other character as it is; full Unicode case mapping is not modelled, so Repository.NormalizeEmail treats e-mails differing only in non-ASCII case as distinct where the source would not.
- Tier progress:
  - The model uses exact `real` arithmetic, not IEEE-754 doubles, so rounding of `progressed / span` is not modelled.
  - Requirements and counts are integers, as in every use in the source.
- Service.ReferralService.GetDashboard: the source spreads the stats into the result object. The model keeps them as one `stats` field.
- Repository.InMemoryReferralRepository.NewId: the id counter, each `referralsCount` and the `reduce` total are unbounded integers. In the source they are JavaScript numbers, exact only up to 2^53: there `_idCounter += 1` stops rising at 9007199254740992, so `_newId` would reissue `user_9007199254740992` and `usersById.set` would overwrite a stored user whose e-mail and code entries still name that id. That stall is not modelled: the source keeps the promise that every new id is fresh only for fewer than 2^53 new users.
- Repository.InMemoryReferralRepository.GetReferralLeaderboard: `limit` is an optional integer, not a JavaScript number. A NaN limit (`Math.max(1, NaN)` is NaN, and `slice(0, NaN)` is empty) gives an empty leaderboard in the source, and a fractional limit such as 2.5 is truncated by `slice`; neither is modelled, so the promise of at least one entry for a non-empty store holds only for integer limits.
- ReferralCode.IsValidReferralCode: `minLength` and `maxLength` are optional integers, not JavaScript numbers. A NaN bound makes its comparison false and so switches that half of the length check off in the source, and a fractional bound compares against the length as a real; neither is modelled.
- ReferralCode.GenerateReferralCode: `length` is an integer, so the `Number.isInteger` rejection of NaN, 4.5 or the text `"6"` is not modelled; `alphabet` is a string, so the `typeof` rejection of a non-string is not modelled; `alphabet[k]` indexes characters, not UTF-16 code units, so alphabets with characters above U+FFFF are not modelled.
- Tier labels are named `labelText`, because `label` is a reserved word in Dafny.
- Thrown errors are `Err` values. Error messages are not modelled.
