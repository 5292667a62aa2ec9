# splitelite core in Dafny

This project models the money logic of splitelite, an app for sharing expenses within a group. It covers five parts of the app:

- **Balances.** Each member's balance is what they paid minus the unpaid shares they owe.
- **Settlement suggestions.** A greedy optimiser matches the largest creditor with the largest debtor until one side runs out.
- **Split helpers and analytics.** This covers equal, percentage and exact-amount splits, and the analytics summary: totals, the per-category breakdown, top spenders and the average expense.
- **The store's reducers.** These are the pure state transitions behind groups, members, expenses, settlements, the user account and the locale.
- **Localisation and receipt parsing.** This covers the locale and currency tables, the translation lookup `t` with placeholder substitution, and three receipt-text parsers: the merchant name, the total and the line items.

Modules, in dependency order:

| module | file | models |
|---|---|---|
| `Wrappers` | wrappers.dfy | `Option` and `Result` |
| `Types` | types.dfy | the records of `src/types/index.ts` |
| `Seqs` | seqs.dfy | generic first-match searches, filters and maps over sequences |
| `Sorting` | sorting.dfy | the stable descending `Array.prototype.sort` the source uses |
| `Text` | text.dfy | `split`/`join`, `trim`, ASCII `toLowerCase`, `includes` |
| `Calculations` | calculations.dfy | balances, split helpers, category labels |
| `Settlements` | settlements.dfy | the settlement optimiser |
| `Analytics` | analytics.dfy | the analytics summary |
| `I18n` | i18n.dfy | `src/i18n/config.ts` |
| `Translation` | translation.dfy | `getNestedValue` and `t` |
| `Store` | store.dfy | the store's reducers |
| `Ocr` | ocr.dfy | `extractMerchant`, `extractTotal`, `extractLineItems` |

Modelling conventions:

- **Money and percentages.**
  - Money is a whole number of cents. `Math.round(x * 100) / 100` is the identity on a cents value.
  - The source's thresholds of one cent become `> 1` and `< -1`. Its `< 0.01` test on a non-negative remainder becomes `< 1`.
  - Percentages are in hundredths of a percent.
  - `Math.round` is round-half-up (`Calculations.RoundHalfUp`).
- **Missing inputs.** Identifiers, the clock and the browser's language are parameters.
- **Collections.** Each `Map` the source fills by insertion is a sequence of key/amount entries, in first-insertion order. That is the iteration order of a JavaScript `Map`.
- **Regular expressions.** Each one the source applies is a hand-written matcher over the string's suffixes. Every matcher is written so that it has only one way to match.
  - `text.match(re)` is the match at the leftmost index.
  - A lazy `(.+?)` takes the least cut that lets the rest of the pattern match.
- **The settlement loop.** It is modelled twice:
  - a method `Settlements.Walk`, with the source's two indices and in-place updates;
  - a recursive function `Settlements.Steps`.
  The method's postcondition states that the two produce the same list.

Three behaviours of the code are worth naming, because a reader might expect otherwise:

- An equal split over no participants returns an empty list. It is not rejected: the code maps over the empty list.
- Percentage shares are rounded one by one. They are not adjusted to add up to the amount.
- The summary of an empty expense list is all zeros. A non-empty list whose amounts total zero yields shares of 0 in the model. The code divides by zero there: a category whose own amount is 0 gets `NaN`, any other gets `Infinity` or `-Infinity`.

## Model

| member | source | states |
|---|---|---|
| Calculations.RoundHalfUp | src/lib/calculations.ts:117 | `Math.round(n / d)`, as the percentage share uses it (and the category share and the average, src/lib/calculations.ts lines 166 and 208): the result is within half a unit of `n / d`, and a tie goes up |
| Calculations.CalculateBalances | src/lib/calculations.ts:9-36 | one balance per member, in member order, with the member's id and name and the amount paid minus the unpaid shares owed |
| Calculations.ApplyExpensesLookup | src/lib/calculations.ts:17-29 | the balance map fold adds exactly each member's net position to the starting map |
| Calculations.DebitSplitsLookup | src/lib/calculations.ts:23-28 | the split loop lowers each member's entry by exactly their unpaid shares |
| Calculations.InactiveMemberIsZero | src/lib/calculations.ts:13-15 | a member who neither paid nor appears in a split keeps the initial zero balance |
| Calculations.NoShareOfAbsentMember | src/lib/calculations.ts:23-28 | a member named in no split owes nothing under those splits |
| Calculations.NetAppend | src/lib/calculations.ts:17-29 | one more expense moves a member's net position by the amount they paid minus their unpaid share of it |
| Calculations.AppendedExpenseEffect | src/lib/calculations.ts:9-36 | appending an expense changes each member's balance by the payer credit minus their unpaid share, and by nothing else |
| Calculations.BalancesSumToZero | src/lib/calculations.ts:9-36 | the balances sum to zero when the members have distinct ids, every payer and split member is in the group, shares add up to each amount and no share is marked paid |
| Calculations.NetTotalZero | src/lib/calculations.ts:17-29 | under the same hypothesis each expense credits and debits the group by the same total |
| Calculations.DebitTotalIsSplitTotal | src/lib/calculations.ts:23-28 | with distinct member ids, the members' unpaid shares of an expense add up to its split total |
| Calculations.CreditTotalOnce | src/lib/calculations.ts:19-20 | with distinct member ids, the payer credit is counted exactly once over the members |
| Calculations.SplitEqually | src/lib/calculations.ts:91-100 | one part per member id, in order: every part after the first is the floor of the per-person share, the first carries the remainder, and the parts add up to the amount |
| Calculations.SplitByPercentage | src/lib/calculations.ts:105-120 | fails exactly when the percentages miss 100 by more than 0.01; otherwise each part keeps its member and percentage, and its amount is the rounded share |
| Calculations.PercentagePartsCanExceedAmount | src/lib/calculations.ts:115-119 | with 50/50 on one cent each part rounds up, so the parts can add up to more than the amount |
| Calculations.SplitByAmount | src/lib/calculations.ts:125-136 | fails exactly when the parts miss the total by more than a cent; otherwise returns the parts unchanged |
| Calculations.CategoryLabelInjective | src/lib/calculations.ts:246-259 | distinct categories have distinct labels |
| Sorting.SortDesc | src/lib/calculations.ts:52 | the result is sorted by descending key and is a permutation of the input |
| Sorting.InsertSorted | src/lib/calculations.ts:52 | inserting into a descending list keeps it descending |
| Sorting.PermutationKeepsDistinct | src/lib/calculations.ts:162-168 | sorting keeps entries with distinct keys distinct |
| Settlements.Creditors | src/lib/calculations.ts:49-52 | sorted by descending amount; a permutation of the balances above a cent, one party each, so of the same length; each member's total is exactly their credit |
| Settlements.CreditorsExact | src/lib/calculations.ts:49-52 | every balance above a cent is a creditor with its amount, and every creditor is such a balance |
| Settlements.Debtors | src/lib/calculations.ts:54-57 | sorted by descending amount; a permutation of the balances below minus a cent, as positive amounts, one party each, so of the same length; each member's total is exactly their debt |
| Settlements.DebtorsExact | src/lib/calculations.ts:54-57 | every balance below minus a cent is a debtor with its magnitude, and every debtor is such a balance |
| Settlements.Settle | src/lib/calculations.ts:78-79 | the current party's remaining amount drops by the settled amount, its member id stays, every other party is unchanged, and the list keeps its length |
| Settlements.Advance | src/lib/calculations.ts:81-82 | the index either stays or moves on by one, and it moves on exactly when the remaining amount is below a cent |
| Settlements.Walk | src/lib/calculations.ts:59-83 | the two-index loop emits exactly the greedy matching of the recursive definition |
| Settlements.WalkStep | src/lib/calculations.ts:62-83 | one turn of the loop is one step of the greedy matching between the remaining lists |
| Settlements.CalculateOptimalSettlements | src/lib/calculations.ts:42-86 | every suggestion is pending, in the group and above a cent; it runs from a debtor to a creditor; no one receives more than their credit or sends more than their debt; there are fewer suggestions than parties; none when one side is empty |
| Settlements.SuggestionsSettleBalances | src/lib/calculations.ts:42-86 | when the balances sum to zero and no balance is exactly one cent either way, each member's suggestions plus the sub-cent steps dropped from the output equal their credit or debt exactly; every suggestion is at least a cent |
| Settlements.StepsSettleInFull | src/lib/calculations.ts:62-83 | with equal credit and debit totals the matching uses up every creditor and debtor |
| Settlements.StepsWithinBalances | src/lib/calculations.ts:62-83 | the matching never gives a member more than their credit or takes more than their debt |
| Settlements.StepsShape | src/lib/calculations.ts:62-83 | steps run from debtors to creditors, with none when a side is empty and fewer steps than parties |
| Settlements.EmitFacts | src/lib/calculations.ts:68-76 | only steps above a cent become pending suggestions, and what is received or sent plus what is dropped is what was matched |
| Settlements.SumsOfParties | src/lib/calculations.ts:49-57 | with no balance of exactly one cent either way, the balances' sum is the creditors' total minus the debtors' total |
| Analytics.GroupTotals | src/lib/calculations.ts:156-160 | one entry per key that occurs, with no key repeated, and each entry holding the total of its key |
| Analytics.AccumulateFacts | src/lib/calculations.ts:157-160 | folding entries into distinct totals adds each key's weight, adds its keys and keeps keys distinct |
| Analytics.ByCategoryFacts | src/lib/calculations.ts:156-160 | the category totals are the categories that occur, each with the sum of its expenses |
| Analytics.ByPayerFacts | src/lib/calculations.ts:188-192 | the payer totals are the payers that occur, each with the amount they paid |
| Analytics.CategoryBreakdown | src/lib/calculations.ts:162-168 | sorted by descending amount, one entry per category that occurs, each with its total and its share of the total in tenths of a percent |
| Analytics.TopSpenders | src/lib/calculations.ts:194-201 | at most five distinct payers in descending order, with name and amount paid; every payer left out paid no more than the fifth |
| Analytics.GenerateAnalytics | src/lib/calculations.ts:141-211 | the empty summary for no expenses; otherwise the count, the total, the average rounded to a cent, the breakdown and the top spenders |
| I18n.RtlIsArabic | src/i18n/config.ts:29-33 | a locale is right to left exactly when it is Arabic |
| I18n.FindCurrency | src/i18n/config.ts:55 | the first table entry listing the locale, and none only when no entry lists it |
| I18n.GetDefaultCurrency | src/i18n/config.ts:54-57 | the code of the first entry listing the locale, and "USD" when none does |
| I18n.LocalesCovered | src/i18n/config.ts:1-49 | every supported locale is listed by some currency |
| I18n.DefaultCurrencyEn | src/i18n/config.ts:37-39 | English gets dollars, not pounds |
| I18n.DefaultCurrencyFr | src/i18n/config.ts:38-45 | French gets euros, not Canadian dollars |
| I18n.DefaultCurrencyAr | src/i18n/config.ts:47-48 | Arabic gets dirhams, not riyals |
| I18n.UnknownLocaleFallsBack | src/i18n/config.ts:54-57 | a locale the table does not know gets "USD" |
| I18n.DetectLocale | src/i18n/config.ts:60-68 | always a supported locale: the default with no browser, the primary subtag when it is supported, and the default otherwise |
| I18n.DetectRegional | src/i18n/config.ts:63-66 | "pt-BR" detects "pt", and a bare supported locale detects itself |
| Text.SplitJoin | src/hooks/useTranslation.ts:31 | splitting the join of separator-free parts gives the parts back |
| Text.Split | src/lib/ocr.ts:133 | at least one part, no part contains the separator, and joining the parts gives the string back |
| Text.Trim | src/lib/ocr.ts:51 | the result is the middle of the string after dropping leading and trailing white space, and neither end of it is white space |
| Text.Lower | src/lib/ocr.ts:144 | each character is lowered in place |
| Translation.GetNestedValue | src/hooks/useTranslation.ts:30-43 | the text at the dotted path when the path leads to a string, and the path itself otherwise |
| Translation.DescendAppend | src/hooks/useTranslation.ts:34-40 | following a path in two legs is following it in one |
| Translation.NestedLookup | src/hooks/useTranslation.ts:30-43 | looking up the dotted form of dot-free keys finds the text stored along them |
| Translation.MissingKeyIsPath | src/hooks/useTranslation.ts:35-39 | a path whose first key is missing comes back unchanged |
| Translation.SubtreeIsPath | src/hooks/useTranslation.ts:42 | a path that ends on an object comes back unchanged |
| Translation.ReplaceAll | src/hooks/useTranslation.ts:55 | text without the pattern is unchanged, and a same-length replacement keeps the length |
| Translation.ReplaceJoin | src/hooks/useTranslation.ts:55 | the global replace turns every occurrence into the replacement: pieces that cannot start the pattern, joined by the pattern, come out joined by the replacement |
| Translation.ReplaceJoinUnique | src/hooks/useTranslation.ts:55 | the same for pieces that merely hold no occurrence, when the pattern's first character does not recur in it, as with a placeholder |
| Translation.ReplaceBySelf | src/hooks/useTranslation.ts:55 | replacing a placeholder by itself changes nothing |
| Translation.ReplacePlaceholder | src/hooks/useTranslation.ts:55 | a placeholder after plain text is replaced and the scan resumes after it |
| Translation.Substitute | src/hooks/useTranslation.ts:53-57 | no parameters, or none whose placeholder occurs, leave the text unchanged |
| Translation.SubstituteAppend | src/hooks/useTranslation.ts:53-57 | parameters are applied in entry order: the last one's placeholders are replaced in the text the earlier ones produced |
| Translation.SubstituteOne | src/hooks/useTranslation.ts:53-57 | one parameter replaces every occurrence of its placeholder, and the text between them is kept, other placeholders included |
| Translation.SubstituteTwo | src/hooks/useTranslation.ts:53-57 | two parameters with different keys fill a message holding one placeholder of each; the first leaves the second's placeholder for it |
| Translation.SubstituteSelf | src/hooks/useTranslation.ts:53-57 | parameters whose values are their own placeholders leave the text unchanged |
| Translation.Lookup | src/hooks/useTranslation.ts:49-50 | the locale's message set when present, else English, else the key itself |
| Translation.Translate | src/hooks/useTranslation.ts:48-60 | the looked-up text, unchanged when there are no parameters or none of their placeholders occurs |
| Translation.TranslateInOrder | src/hooks/useTranslation.ts:52-57 | `t` applies its parameters in entry order: the last is replaced in the translation with the earlier ones |
| Translation.TranslateFillsEvery | src/hooks/useTranslation.ts:48-60 | `t` with one parameter replaces every `{key}` of the looked-up text by the value and keeps the rest, other placeholders included |
| Translation.TranslateFillsTwo | src/hooks/useTranslation.ts:48-60 | `t` with two parameters fills a looked-up text holding one placeholder of each, such as "{name} paid {amount}" |
| Translation.FallbackLookup | src/hooks/useTranslation.ts:49-50 | a locale without messages reads the English text |
| Translation.TranslateFillsPlaceholder | src/hooks/useTranslation.ts:48-60 | "Paid by {name}" with name "Ana" reads "Paid by Ana" through the English fallback |
| Store.SetLocale | src/store/index.ts:57-59 | sets the locale and its default currency and nothing else |
| Store.FrenchSelectsEuro | src/store/index.ts:57-59 | choosing French switches the currency to euros |
| Store.SetCurrency | src/store/index.ts:60 | sets the currency and nothing else |
| Store.SetUser | src/store/index.ts:64 | sets the user and nothing else |
| Store.UpgradeToPremium | src/store/index.ts:65-67 | flags a signed-in user as premium, leaves no user as none, and changes nothing else |
| Store.FreezeAccount | src/store/index.ts:68-70 | marks a signed-in user frozen and changes nothing else |
| Store.UnfreezeAccount | src/store/index.ts:71-73 | marks a signed-in user active and changes nothing else |
| Store.FreezeRoundTrip | src/store/index.ts:68-73 | freezing is idempotent, and unfreezing after a freeze restores an active account |
| Store.DeleteAccount | src/store/index.ts:74-80 | clears the user, groups, expenses, settlements and active group, and keeps locale and currency |
| Store.DeletedAccountIsEmpty | src/store/index.ts:74-80 | after deleting the account no group has expenses or settlements |
| Store.SetActiveGroup | src/store/index.ts:173 | sets the active group and nothing else |
| Store.AddGroup | src/store/index.ts:84-95 | appends the drafted group with the given id and both timestamps set to now, returns the id, and changes nothing else |
| Store.PatchGroup | src/store/index.ts:98 | each field is the update's when given and the group's otherwise, and the update time is now |
| Store.UpdateGroup | src/store/index.ts:96-100 | patches exactly the groups with the id, in place, and changes nothing else |
| Store.DeleteGroup | src/store/index.ts:101-106 | removes the group with its expenses and settlements, clears the active group when it was the one deleted, and keeps user, locale and currency |
| Store.DeleteGroupCascades | src/store/index.ts:101-106 | the deleted group has no expenses or settlements left, and every other group keeps its own |
| Store.AddThenDeleteGroup | src/store/index.ts:84-106 | deleting a freshly added group restores the state |
| Store.AddMemberToGroup | src/store/index.ts:107-116 | appends the member to exactly the matching group and updates its time, leaving the rest unchanged |
| Store.RemoveMemberFromGroup | src/store/index.ts:117-123 | drops the member from exactly the matching group and updates its time, leaving expenses and settlements untouched |
| Store.AddThenRemoveMember | src/store/index.ts:107-123 | removing a freshly added member restores the member list |
| Store.AddExpense | src/store/index.ts:127-136 | appends the drafted expense with the given id and time, returns the id, and changes nothing else |
| Store.AddExpenseToGroup | src/store/index.ts:127-145 | a new expense shows up at the end of its own group's expenses only |
| Store.AddExpenseMovesBalances | src/store/index.ts:127-145 | adding an expense moves each member's group balance by the amount they paid minus their unpaid share |
| Store.PatchExpense | src/store/index.ts:139 | each field is the update's when given and the expense's otherwise |
| Store.UpdateExpense | src/store/index.ts:137-141 | patches exactly the expenses with the id, in place, and changes nothing else |
| Store.UpdateExpenseLaws | src/store/index.ts:137-141 | an empty update and an unknown id change nothing, and repeating an update that keeps the id is idempotent |
| Store.DeleteExpense | src/store/index.ts:142-144 | removes exactly the expenses with the id and changes nothing else |
| Store.AddThenDeleteExpense | src/store/index.ts:127-144 | deleting a freshly added expense restores the state |
| Store.GetGroupExpenses | src/store/index.ts:145 | exactly the expenses of the group |
| Store.AddSettlement | src/store/index.ts:149-158 | appends the drafted settlement with the given id and time, returns the id, and changes nothing else |
| Store.CompleteSettlement | src/store/index.ts:159-163 | marks exactly the settlements with the id completed now, and changes nothing else |
| Store.CancelSettlement | src/store/index.ts:164-168 | marks exactly the settlements with the id cancelled, and changes nothing else |
| Store.SettlementStatusLaws | src/store/index.ts:159-168 | cancelling is idempotent, the last status written wins, and cancelling keeps the completion time |
| Store.GetGroupSettlements | src/store/index.ts:169 | exactly the settlements of the group |
| Store.OnlyWithout | src/store/index.ts:101-106 | filtering out one group does not change the entries of another |
| Ocr.NumberAt | src/lib/ocr.ts:69-73 | `\d+[.,]\d{2}` at the start of a string: present exactly when the shape is there, with its whole part, separator and two fraction digits |
| Ocr.NumberOfFormat | src/lib/ocr.ts:69-73 | a printed amount reads back as its whole units and cents |
| Ocr.FirstMatch | src/lib/ocr.ts:77 | the match at the leftmost index where the pattern matches, and none when it matches nowhere |
| Ocr.LazyNumber | src/lib/ocr.ts:73 | `.*?` before the amount: the amount at the least index on the line where one starts, and none when no index up to the line's end starts one |
| Ocr.KeywordTotal | src/lib/ocr.ts:76-84 | the first pattern, in order, whose first match is a positive amount |
| Ocr.LargestPositive | src/lib/ocr.ts:88-94 | the largest of the amounts when one is positive, and none otherwise |
| Ocr.ExtractTotal | src/lib/ocr.ts:66-97 | a keyword total wins; otherwise the largest positive money amount; otherwise none; the result is always positive |
| Ocr.LabelledTotal | src/lib/ocr.ts:69 | "Total: $12.34" followed by anything reads 12.34 |
| Ocr.SubtotalReadAsTotal | src/lib/ocr.ts:69 | "Subtotal 5.00" on a line before "Total 9.00" reads 5.00: the first pattern has no word boundary, so it matches inside "Subtotal" |
| Ocr.LargestAmountWithoutKeyword | src/lib/ocr.ts:86-94 | with no keyword, two printed amounts give the larger |
| Ocr.NoKeywordWithoutLetters | src/lib/ocr.ts:68-84 | no keyword pattern matches a text without letters |
| Ocr.FallbackOfFormat | src/lib/ocr.ts:87-90 | the fallback scan reads a printed amount and resumes right after it |
| Ocr.NonBlank | src/lib/ocr.ts:47 | keeps exactly the lines that are not blank after trimming, in order |
| Ocr.FirstMerchant | src/lib/ocr.ts:50-58 | the trimmed first line longer than three characters that is neither a phone number nor a street address, and none when no line qualifies |
| Ocr.Candidates | src/lib/ocr.ts:47-50 | the first three non-blank lines, or all of them when there are fewer |
| Ocr.ExtractMerchant | src/lib/ocr.ts:46-61 | the first acceptable line among the first three non-blank lines, trimmed; it is longer than three characters and neither a phone number nor an address |
| Ocr.PhoneLineSkipped | src/lib/ocr.ts:54 | a phone-number line is passed over for the name after it |
| Ocr.FourthLineIgnored | src/lib/ocr.ts:50 | only three non-blank lines are examined: a qualifying fourth line is never chosen |
| Ocr.MatchLine | src/lib/ocr.ts:137 | the lazy description is the shortest non-empty prefix without a line break after which a price runs to the end of the line, and none when no prefix admits one |
| Ocr.LineItem | src/lib/ocr.ts:137-148 | a line matching the item pattern yields an item exactly when its trimmed description is longer than one character and free of skip words and its price is strictly between 0 and 1000; the item holds that description and price |
| Ocr.ExtractLineItems | src/lib/ocr.ts:131-153 | every item comes from one line of the text and passes the filters, and every line that yields an item contributes it |
| Ocr.LineItemsInOrder | src/lib/ocr.ts:135-150 | items keep the order of their lines |
| Ocr.ItemRoundTrip | src/lib/ocr.ts:131-153 | an item printed as "description $price" reads back as that item when its description has no white space |

## Left out

- Floating point. Amounts are exact cents, so `parseFloat` precision and the rounding noise of `Math.round(x * 100) / 100` on fractional values are not modelled.
- The monthly trend of the analytics summary. It depends on the current date and on date-fns month arithmetic; the summary has no trend field.
- `formatCurrency`: it depends on `Intl.NumberFormat`.
- `getCategoryEmoji`, and the locale name and flag tables: they are display-only constants.
- The date parser, the receipt-image upload and `extractReceiptData`, which calls an OCR service.
- `loadDemoData`: it is a fixed fixture.
- Persistence, `uuidv4` and `new Date()`. Ids and times are parameters of the reducers.
- String lengths count Dafny characters, not UTF-16 code units.
- Translation.TranslateFillsTwo: filling is proved for one parameter with any number of its placeholders and for two parameters with one placeholder each. Longer parameter lists follow `Translation.SubstituteAppend` one step at a time, but no single lemma states them; a value that itself holds a later parameter's placeholder is modelled (it gets replaced, as in the source) but not stated.
- Translation.Translate: parameter names are restricted to plain identifiers. A name with regular-expression metacharacters, a replacement value holding `$` patterns and the key order of a non-identifier object are not modelled.
- Translation.GetNestedValue: JSON arrays, numbers, booleans and null are all one opaque value. Inherited prototype keys, which the source's `in` test would accept, behave as missing keys.
- Text.Lower: only ASCII letters are lowered.
- Store.UpdateGroup and Store.UpdateExpense: an update field given explicitly as `undefined` is treated as absent. The spread would copy `undefined` in.
- Types.Expense does not carry the optional receipt, notes and recurrence fields; no operation of the core reads them.
- Analytics.CategoryBreakdown: a zero total spent gives a share of 0. The source divides by zero and gets `NaN` when the category's own amount is 0, and `Infinity` or `-Infinity` otherwise.
- Calculations.SplitEqually: the contract states the sum of the parts only for a non-empty list. With no member ids the source returns an empty list rather than failing, and so does the model.
- Calculations.SplitByPercentage: it does not promise that the parts add up to the amount, because the source does not guarantee it (see PercentagePartsCanExceedAmount).
- Calculations.BalancesSumToZero: the zero sum is proved under the hypothesis that no share is marked paid. A paid share is excluded from the debits while the payer keeps the full credit.
- Sorting.SortDesc: stability is built into the definition (ties keep input order) but is not stated as a separate property.
