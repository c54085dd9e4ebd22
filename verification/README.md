# SmartCart core, modelled in Dafny

SmartCart is a browser grocery-list app. It has three parts:

- a simulated backend (`api.js`) that keeps per-user shopping lists and order histories and evaluates promotional offers;
- an account system (`auth.js`) with validators, a 32-bit string hash and a session;
- a front end (`script.js`) that applies a few decision rules on top.

This project models that logic as pure Dafny functions over immutable datatypes and proves what the code promises.

Each stateful operation is a state-transition function that returns the new state together with its result. The browser's storage is an in-memory record (`Store.Db`, `Auth.AuthState`). Clocks, the time zone and freshly generated family codes are parameters.

The modules are:

- `Common`: option type, whitespace, ASCII lower-casing, `includes`, `trim`, `reverse`, `slice(0, n)`, the subsequence relation.
- `Model`: list items, orders, reminders and the `price * quantity` total.
- `Catalog`: the 40-entry item catalog and the five-result item search.
- `OfferEngine`: the offer table, the backend's offer check as a loop, and a reference definition it is proved equal to.
- `Store`: the list and order store with its shared id counter, and the date-window order filter.
- `Ranking`: counting into a plain JavaScript object, picking the maximum with `reduce` and a strict `>`, and the stable sort by descending count. It also proves the counting and ranking facts the other modules use.
- `Calendar`: the Gregorian calendar behind `getFullYear`/`getMonth`, with round-trip proofs.
- `Analytics`: total spent, average order value, favourite category, most bought item, monthly spending, frequent items.
- `Auth`: validators, the password hash, signup, login, logout, user data, account deletion and password change.
- `UiRules`: budget alert and progress bar, reminder due times, catalog-name shortening, list total, family join, purchase suggestions.

Prices and quantities are integers in the smallest currency unit. Timestamps are integer milliseconds since the epoch.

For an offer whose category is `'all'`, the category subtotal is the whole cart total (`api.js:293`).

## Model

| member | source | states |
|---|---|---|
| `Common.Includes` | api.js:142 | the scan returns true exactly when the query occurs as a contiguous run in the string |
| `Common.Trim` | auth.js:69 | the result starts and ends with a non-whitespace character |
| `Common.TrimStart` | auth.js:69 | the leading characters dropped are all whitespace and the result is a suffix that does not start with whitespace |
| `Common.TrimEnd` | auth.js:69 | the trailing characters dropped are all whitespace and the result is a prefix that does not end with whitespace |
| `Common.TrimKeepsMiddle` | auth.js:69-98 | `trim` returns one contiguous run of the string, and everything dropped before and after it is whitespace |
| `Common.TrimEmptyIffBlank` | auth.js:69-71 | a string trims to empty exactly when every character is whitespace |
| `Common.ReverseInvolutive` | api.js:267 | reversing twice gives the sequence back |
| `Common.ReverseMembers` | api.js:267 | reversing keeps exactly the members |
| `Common.ReverseMultiset` | api.js:267 | reversing keeps every element with its multiplicity |
| `Model.TotalAppend` | api.js:227 | the `price * quantity` total of a concatenation is the sum of the two totals |
| `Model.TotalIgnoresBought` | script.js:392-394 | the total is the same whatever the items' bought flags are |
| `Model.Without` | api.js:237 | the filtered list holds exactly the items whose id is not purchased, each as often as before, in original order |
| `Model.WithoutIdempotent` | api.js:237 | filtering twice by the same ids is filtering once |
| `Model.WithoutUnaffected` | api.js:237 | a list none of whose ids is filtered comes back unchanged |
| `Catalog.MatchingEntries` | api.js:140-144 | keeps exactly the entries whose lower-cased name or key contains the lower-cased query, each as often as in the catalog, in catalog order |
| `Catalog.SearchItems` | api.js:135-153 | the results are the first `min(5, matches)` matching entries in catalog order, so fewer than 5 means every match is there |
| `Catalog.EmptyQueryReturnsFirstFive` | api.js:140-149 | the empty query returns the first five catalog entries |
| `Catalog.AllMatchEmpty` | api.js:140-144 | every entry matches the empty query |
| `Catalog.Items` | api.js:32-82 | the catalog holds 40 entries, each with a positive price |
| `OfferEngine.GetOffers` | api.js:271-276 | returns exactly the active offers, each as often as in the table, in table order |
| `OfferEngine.InScope` | api.js:293 | an offer covers exactly the items of its category, or every item for `'all'`, each as often as in the cart |
| `OfferEngine.DefaultOffers` | api.js:84-126 | four active offers under distinct ids with positive discounts and thresholds; a percentage is at most 100 and a flat discount at most its threshold |
| `OfferEngine.RoundHundredth` | api.js:304 | `Math.round(n / 100)` is the integer r with `100r - 50 <= n < 100r + 50` |
| `OfferEngine.SumCart` | api.js:288-296 | the per-offer pass yields the whole-cart total and the subtotal of the covered items |
| `OfferEngine.PrefixSums` | api.js:291-296 | both running sums grow by the next item's `price * quantity` exactly when it counts towards them |
| `OfferEngine.CheckOffers` | api.js:279-311 | the loop over the offer table returns exactly the reference evaluation |
| `OfferEngine.CheckOffer` | api.js:286-307 | one pass of the loop yields the offer with its savings exactly when it is active and its qualifying amount reaches the threshold, and nothing otherwise |
| `OfferEngine.AllCategoryTotalIsCartTotal` | api.js:293 | for an `'all'` offer the category subtotal equals the cart total |
| `OfferEngine.InScopeAll` | api.js:293 | an `'all'` offer covers the whole cart, in order |
| `OfferEngine.EvaluateSound` | api.js:285-306 | every returned offer is active, comes from the table, and has a qualifying amount of at least `minAmount`; its savings are the rounded percentage of the subtotal or the flat discount |
| `OfferEngine.EvaluateComplete` | api.js:285-306 | every active offer whose qualifying amount reaches `minAmount` is returned |
| `OfferEngine.EvaluateKeepsOrder` | api.js:285 | the returned offers keep the table's definition order |
| `OfferEngine.FixedSavingsUncapped` | api.js:303-305 | a non-percentage offer saves exactly its discount whatever the spend |
| `OfferEngine.DairyScenario` | api.js:84-126 | checked against the whole offer table, three dairy items at 100 earn `dairy10` alone, saving 30 |
| `OfferEngine.VegetablesScenario` | api.js:84-126 | checked against the whole offer table, vegetables worth 100 earn no offer: they stay below the 300 `vegetables15` needs |
| `OfferEngine.TableInOrder` | api.js:279-311 | checking the four-offer table yields `dairy10`, `bulk500`, `vegetables15`, `fruits20` in that order, each exactly when it applies |
| `Store.AddItemToList` | api.js:163-182 | the new item gets id `lastId + 1`, which becomes the counter; it is appended to the user's list with bought false; nothing else changes |
| `Store.FindIndex` | api.js:190 | `findIndex` returns the first position holding the id, or nothing when no item has it |
| `Store.UpdateItem` | api.js:185-199 | an absent id fails and changes nothing; otherwise only the first matching item is merged with the patch and the other users, orders and counter stay |
| `Store.RemoveItem` | api.js:202-212 | the user's list keeps exactly the items with a different id, each as often as before, in order; nothing else changes |
| `Store.RemoveItemIdempotent` | api.js:207-208 | removing an id twice is removing it once |
| `Store.CreateOrder` | api.js:215-242 | the order gets id `lastId + 1` and total `Σ price*quantity`; it is appended after the earlier orders; the list loses exactly the purchased ids; other users are untouched |
| `Store.CreateOrderStrikesPurchased` | api.js:235-237 | after a purchase the list holds exactly the old items whose ids were not bought, in order |
| `Store.AddItemFresh` | api.js:172 | adding an item keeps every id at most the counter, and the new id exceeds every earlier id |
| `Store.CreateOrderFresh` | api.js:224 | creating an order keeps every id at most the counter, and the order's id exceeds every earlier id |
| `Store.EditsKeepValid` | api.js:185-212 | updates and removals keep every id at most the counter |
| `Store.Recent` | api.js:250-265 | keeps exactly the orders dated within 7/30/365 days before `now` for `week`/`month`/`year`, each as often as before, in order; any other filter keeps all |
| `Store.GetOrders` | api.js:245-268 | returns exactly the user's orders inside the window, each as often as stored, most recent first; the unfiltered history is returned reversed |
| `Ranking.Lookup` | api.js:335 | reading an object key gives nothing exactly when the key is absent, and otherwise the count stored under it |
| `Ranking.LookupDistinct` | api.js:335 | with distinct keys, looking up an entry's key finds that entry's count |
| `Ranking.Bump` | api.js:335 | adding to a count keeps keys distinct; an existing key keeps its place and gains the weight; a new key goes last with the weight and its first item |
| `Ranking.Tally` | api.js:332-337 | the accumulator object never holds a key twice |
| `Ranking.FirstIndex` | api.js:379-381 | the first observation under a key is at the returned position and none before it has that key |
| `Ranking.TallyCorrect` | api.js:375-384 | the accumulator has one entry per observed key, in first-seen order; each holds the summed weight and the first item seen under the key |
| `Ranking.PickMaxCorrect` | api.js:339-341 | the `reduce` from `'none'` with strict `>` gives `'none'` on an empty object and otherwise the last key with maximal count |
| `Ranking.PickMaxOfTally` | api.js:331-342 | over counted observations the pick is `'none'` for no observations; otherwise it is an observed key whose sum no key beats, and any key first seen after it has a strictly smaller sum |
| `Ranking.SortByCountCorrect` | api.js:386-387 | the stable sort by descending count keeps exactly the entries, gives non-increasing counts, keeps keys distinct, and leaves equal counts in their original order |
| `Ranking.RankIndices` | api.js:387 | the ranking is a permutation of all positions, ordered by descending count and then by position |
| `Ranking.RankedUnique` | api.js:387 | two rankings of the same positions are equal, so the stable order is determined |
| `Ranking.TallyInFirstSeenOrder` | api.js:377-384 | the accumulator lists every key in the order it was first observed |
| `Ranking.SubsequenceInFirstSeenOrder` | script.js:457 | dropping entries from a list in first-seen order, as a `filter` does, keeps it in first-seen order |
| `Ranking.SortedTiesFirstSeen` | api.js:386-387 | after the stable sort of a list in first-seen order, entries of equal count are still in first-seen order |
| `Ranking.LeftOutRanksBelow` | api.js:386-388 | an entry left out of a top-n cut of the stable sort counts less than each entry kept, or as much and was first seen later |
| `Ranking.PrefixTiesFirstSeen` | api.js:386-388 | a top-n cut of the stable sort lists entries of equal count in first-seen order |
| `Calendar.YearOf` | api.js:363-364 | the year containing a day number starts on or before it and ends after it |
| `Calendar.MonthIn` | api.js:363-364 | the month found contains the day of the year |
| `Calendar.CivilFromDays` | api.js:363-364 | a day number decodes to a valid date |
| `Calendar.DaysRoundTrip` | api.js:363-364 | decoding a day number and encoding the date again gives the day number back |
| `Calendar.CivilRoundTrip` | api.js:363-364 | encoding a valid date and decoding it again gives the date back |
| `Calendar.MonthOf` | api.js:358-364 | the 0-based local month of a timestamp lies in 0..11, and the timestamp's local day falls inside that month of that year |
| `Calendar.YearStartClosed` | api.js:364 | the first day of a year is 365 days per year plus one per leap day before it |
| `Calendar.EpochIsNewYear` | api.js:363-364 | day 0 is 1 January 1970 |
| `Calendar.DayBeforeEpoch` | api.js:363-364 | day -1 is 31 December 1969 |
| `Calendar.LeapDay2000` | api.js:363-364 | day 11016 is 29 February 2000 |
| `Analytics.Lines` | api.js:333-336 | the flattened line items are exactly the items of the orders |
| `Analytics.TotalSpentAppend` | api.js:321 | the spend of two histories together is the sum of their spends |
| `Analytics.TotalSpentIgnoresItems` | api.js:321 | total spent reads the stored totals, not the items |
| `Analytics.TotalSpent` | api.js:227-321 | when every stored total matches its items, total spent is the `Σ price*quantity` of all line items bought |
| `Analytics.AverageOrderValue` | api.js:322 | the average is 0 for no orders, and otherwise times the number of orders it gives total spent |
| `Analytics.FavoriteCategory` | api.js:331-342 | `'none'` when no line item exists; otherwise a bought category with maximal summed quantity, and every category first bought after it has a strictly smaller quantity |
| `Analytics.MostBoughtItem` | api.js:344-355 | `'none'` when no line item exists; otherwise a bought name with maximal summed quantity, and every name first bought after it has a strictly smaller quantity |
| `Analytics.InMonth` | api.js:361-365 | keeps exactly the orders whose local year and month are the given ones, each as often as before, in order |
| `Analytics.OutsideMonth` | api.js:361-365 | keeps exactly the orders outside the given local month, each as often as before |
| `Analytics.MonthPartition` | api.js:357-367 | the spend on the orders inside a month and on those outside it add up to the whole spend |
| `Analytics.MonthlySpending` | api.js:357-367 | monthly spending plus the spend on the orders outside the current local month is total spent |
| `Analytics.GetAnalytics` | api.js:314-329 | counts the orders and reports total spent, the average, the favourite category, the most bought item and the monthly spending as stated on their own members; monthly spending plus the spend outside the month is total spent; no orders gives zeros and `'none'` |
| `Analytics.FrequentItemsSpec` | api.js:370-391 | at most `limit` entries, non-increasing counts, distinct names, each count the summed quantity of a bought name |
| `Analytics.FrequentItemsFirstSeen` | api.js:378-387 | each entry carries the first line item bought under its name, and equal counts keep first-bought order |
| `Analytics.FrequentItemsComplete` | api.js:386-388 | fewer entries than a non-negative limit means every bought name is listed |
| `Analytics.FrequentItemsTopK` | api.js:375-388 | a bought name left out of the frequent items has a summed quantity no greater than any listed entry, and when it ties with a listed entry that entry's name was bought first, so a tie at the cut goes to the first-bought name |
| `Analytics.FrequentItemsDefaultLimit` | api.js:370-388 | with no limit given at most six entries are returned, and fewer only when every bought name is listed |
| `Auth.ToInt32` | auth.js:51-52 | the result is a signed 32-bit integer congruent to the input modulo 2^32 |
| `Auth.ToInt32Congruent` | auth.js:52 | inputs that differ by a multiple of 2^32 wrap to the same value |
| `Auth.ToInt32OfInt32` | auth.js:52 | a 32-bit value is left unchanged |
| `Auth.HashStepIsTimes31` | auth.js:51-52 | `((h << 5) - h) + c` followed by `& hash` is `31h + c` wrapped to 32 bits |
| `Auth.Hash` | auth.js:46-55 | the hash is a signed 32-bit integer |
| `Auth.HashIsWrappedPoly` | auth.js:46-55 | the hash is the base-31 polynomial of the character codes wrapped to 32 bits |
| `Auth.HashPassword` | auth.js:46-55 | the loop computes the left fold of the hash step over the characters, a 32-bit value |
| `Auth.HashSmallCases` | auth.js:46-55 | the hashes of `""`, `"a"` and `"ab"` are 0, 97 and 97*31+98 |
| `Auth.ValidateEmailMatchesRegex` | auth.js:57-60 | the scan accepts exactly the strings of the form `[^\s@]+@[^\s@]+\.[^\s@]+` |
| `Auth.EmailValidIgnoresCase` | auth.js:57-60 | lower-casing an email does not change whether it is valid |
| `Auth.ToLowerIdempotent` | auth.js:141 | lower-casing twice is lower-casing once |
| `Auth.Signup` | auth.js:67-129 | errors in order: blank name, bad email, short password, mismatch, taken lower-cased email, each an iff and leaving the state alone; success iff the name is non-blank, the email valid, the password at least 6 long and confirmed, and the lower-cased email free; success stores the user under id `lastUserId + 1` with the trimmed name and hashed password, seeds user data with the name as sole family member, and logs in |
| `Auth.Login` | auth.js:131-165 | each error is an iff: invalid email, empty password, no account under the lower-cased email, and a stored hash that differs from the password's hash; success iff none applies; failure changes nothing; success stamps the login time and sets the session |
| `Auth.Logout` | auth.js:167-171 | always succeeds, clears the session and keeps the database |
| `Auth.GetUserData` | auth.js:181-186 | data is returned iff logged in with stored data, and it is that user's data |
| `Auth.SaveUserData` | auth.js:188-195 | succeeds iff logged in; then only the current user's data is replaced, and otherwise nothing changes |
| `Auth.DeleteAccount` | auth.js:214-234 | each outcome is an iff: not logged in; a wrong password when the account is missing or its hash differs; success when it exists and the hash matches; success removes the account and its data and logs out; failure changes nothing |
| `Auth.ChangePassword` | auth.js:237-261 | each outcome is an iff, in order: logged out, mismatch, short password, and a missing account or differing current hash; success otherwise replaces only the user's stored hash |
| `Auth.InitialWellFormed` | auth.js:9-19 | the empty database satisfies the invariant: accounts under their lower-cased email, distinct ids bounded by the counter, a session naming a real account |
| `Auth.SignupKeepsWellFormed` | auth.js:93-125 | signup preserves the invariant |
| `Auth.LoginKeepsWellFormed` | auth.js:152-162 | login preserves the invariant |
| `Auth.SessionOpsKeepWellFormed` | auth.js:167-261 | logout, deletion, password change and data saving preserve the invariant |
| `Auth.LoginIgnoresCase` | auth.js:141 | two emails equal up to case log in identically |
| `Auth.SignupThenLogin` | auth.js:93-161 | after a signup the same email and password log in as the same user |
| `Auth.SignupTwiceRefused` | auth.js:88-90 | a second signup with the same email is refused as taken |
| `Auth.ChangePasswordThenLogin` | auth.js:147-257 | after a change the new password logs in, and the old one fails unless it hashes alike |
| `Auth.DeleteThenLogin` | auth.js:143-228 | a deleted account finds no account at login |
| `Auth.SignupIdFresh` | auth.js:93 | the new account's id exceeds every existing account's id |
| `UiRules.EffectiveBudget` | script.js:1287 | the budget in force is never 0 and is the setting whenever it is set |
| `UiRules.PercentageScale` | script.js:1292-1304 | for a positive budget the percentage is at least 100 iff spend >= budget, and at least 80 iff 5·spend >= 4·budget |
| `UiRules.BudgetAlertBands` | script.js:1285-1313 | exceeded iff spend >= budget; warning iff 80% of budget <= spend < budget; within budget iff spend < 80% of budget |
| `UiRules.UnsetBudgetIsDefault` | script.js:1287 | an unset budget alerts as the 5000 default |
| `UiRules.BudgetProgress` | script.js:123-124 | the bar width never exceeds 100 |
| `UiRules.BudgetProgressFull` | script.js:123-124 | the bar is full iff the budget is used up, and otherwise shows exactly the share spent |
| `UiRules.NextReminder` | script.js:561-573 | the due time is now plus 7, 14 or 30 days for weekly, biweekly or monthly, and now for any other frequency |
| `UiRules.NextReminderOffset` | script.js:561-573 | the offset from now depends on the frequency alone, is never negative and is a whole number of days |
| `UiRules.StripUnit` | script.js:727 | the result is a prefix with no `" ("` inside, and when shorter than the name it stops at the first `" ("` |
| `UiRules.StripUnitAt` | script.js:727 | a name whose first `" ("` is at k becomes its first k characters |
| `UiRules.StripUnitNoOpener` | script.js:727 | a name without `" ("` is kept whole |
| `UiRules.StripUnitIdempotent` | script.js:727 | shortening twice is shortening once |
| `UiRules.StripUnitExamples` | script.js:727 | `"Rice (1kg)"` becomes `"Rice"` and `"Milk"` stays |
| `UiRules.ListTotal` | script.js:392-394 | the displayed total is `Σ price*quantity` over all items, bought or not |
| `UiRules.JoinFamily` | script.js:1039-1058 | a blank code is refused with no change; otherwise `'Family Member'` is appended unless present, in which case nothing changes |
| `UiRules.CountOfAbsent` | script.js:1047 | a name is absent iff it occurs zero times |
| `UiRules.JoinFamilyIdempotent` | script.js:1047-1057 | after a join the placeholder is listed and a second join changes nothing |
| `UiRules.JoinFamilyNoDuplicate` | script.js:1047-1048 | a join never lists the placeholder twice |
| `UiRules.KeepSuggestible` | script.js:457 | keeps exactly the names bought at least twice and not on the list, each as often as before, in order |
| `UiRules.SuggestionsSpec` | script.js:442-459 | at most 5 distinct suggestions by non-increasing count, each bought at least twice, counted exactly, and on the list in no letter case |
| `UiRules.SuggestionsComplete` | script.js:455-459 | fewer than 5 suggestions means every qualifying name is suggested |
| `UiRules.SuggestionsTopK` | script.js:449-459 | a qualifying name left out of the suggestions was bought no more often than any suggested name, and when it ties with one, the suggested name was bought first, so a tie at the cut goes to the first-bought name |
| `UiRules.SuggestionsFirstSeen` | script.js:449-459 | suggestions of equal count appear in the order their names were first bought |

## Left out

- Browser storage, JSON (de)serialisation and the file-save log: the stores are in-memory datatypes.
- DOM rendering, notifications, modals, speech recognition, simulated OCR and Blob export: they are presentation only.
- The `async` delay: it has no effect on results.
- Clocks: `new Date()` becomes an explicit `now` in milliseconds. ISO date strings are integer timestamps. The local time zone is one fixed offset, so daylight-saving changes between an order's date and `now` are not modelled.
- `generateFamilyCode`: it uses `Math.random`, so the fresh code is a parameter of `Auth.Signup`.
- `getShoppingList`, `isLoggedIn`, `getCurrentUser` and `getAllUsers`: these are plain reads. `getShoppingList` is `Store.ListOf`.
- `addReminder` and `removeReminder`: they are UI bookkeeping around `calculateNextReminder`. Only the `Model.Reminder` record is kept.
- Floating-point prices from `parseFloat` and `toFixed` formatting: prices and quantities are integers.
- Unicode: case mapping covers ASCII letters only. Strings are sequences of characters rather than UTF-16 code units, so `length` and `charCodeAt` agree with the source only for BMP text. The `\s` class of the email regex is the fixed set in `Common.IsWhitespace`.
- Key order: JavaScript enumerates integer-like object keys (such as a category named `"10"`) before other keys. The model keeps plain insertion order.
- Prototype keys: the counting objects (`api.js:333-336`, `api.js:346-349`, `api.js:377-383`, `script.js:449-452`) are plain `{}` literals, so a name such as `"constructor"` or `"toString"` reads an inherited value and `"__proto__"` is not stored as an own key. The model treats every name as an ordinary key.
- `Store.UpdateItem`: a patch covers only name, category, price, quantity and bought. The source's spread can also overwrite `id`, `dateAdded` and `userId`.
- `Auth.HashPassword`: the source stores the hash as its decimal string. The model stores the integer; two such strings are equal exactly when the integers are.
- `Catalog.Items`: the contract does not state that the 40 keys are distinct. The object literal guarantees it, and comparing every pair of key strings is too costly for the verifier.
- `Analytics.AverageOrderValue`: the average is the exact rational quotient of total spent by the number of orders. The source divides in floating point (`api.js:322`), so the model does not reproduce rounding to the nearest double.
- `UiRules.BudgetAlert`: the source compares a floating-point percentage. The model uses exact rational arithmetic, so at the 80% boundary it can differ from the source by rounding.
- `UiRules.BudgetAlertBands`: the bands are stated for a positive budget only. A negative stored budget is accepted by the source and is not constrained here.
- `UiRules.Suggestions`: the `categoryCount` object that `generateSuggestions` builds is never read, so it is not modelled.
- `generateSuggestions` as written: `this.purchaseHistory` is never assigned, so `this.purchaseHistory.forEach` (`script.js:449`) throws a `TypeError` on every call, and `init` reaches that call at `script.js:77`. `UiRules.Suggestions` models the intended computation, with the purchase history as a parameter.
