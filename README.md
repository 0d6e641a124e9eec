# Record-mutation rules of the BotinBlack RP economy

This project models the core of the economy behind a Discord role-play bot and its web dashboard. The core covers:

- the rules by which slash commands, button handlers and services change a user's record;
- the shared property list, which ties a property row to the user who owns it.

A user row holds:

- the balances Cash, Bank, Stash, Fines and Coupons;
- a Warrant flag;
- comma-separated inventory columns, such as Food, Treasure, Properties and the weapon columns;
- one ownership flag per property type.

A property row records its owner twice: in its own `UserID`/`Owner` fields, and as a name in the owner's Properties column.

The datastore is a value: a map from user id to user (`Records.Store`) and a sequence of properties. Each handler is a function or method from a store to a `Reply`, which holds the new store and an outcome. A refused handler leaves the store as it was. The Discord interaction layer is reduced to its parameters:

- who clicked;
- whether the caller holds the admin role;
- which button was pressed;
- what the form said.

The modules:

| module | file | models |
|---|---|---|
| `Records` | records.dfy | user and property rows, refusals, the `Number(v) \|\| 0` reading |
| `Text` | text.dfy | JavaScript `split`/`join`/`trim`/case mapping on ASCII |
| `Funds` | funds.dfy | spend-cash-first, one-entry-at-a-time browsing |
| `Balances` | balance.dfy | `services/balanceService.js` |
| `AdminBalance` | admin_balance.dfy | the six admin cash/bank/stash commands |
| `Fines` | fines.dfy | fines, warrants and pardons |
| `InventoryMutation` | inventory_mutation.dfy | `services/inventoryMutationService.js` |
| `Counts` | counts.dfy | the count dictionaries of the inventory views |
| `InventoryService` | inventory_service.dfy | `services/inventoryService.js` |
| `InventoryCommand` | inventory_command.dfy | `/inventory` and `/admin-inventory-search` |
| `ItemStore` | item_store.dfy | the general store (`/item-search`) |
| `Nazar` | nazar.dfy | Madam Nazar's store |
| `Ownership` | ownership.dfy | the property/user consistency invariant and the Properties-column edits |
| `PropertyStore` | property_store.dfy | `/property-store` |
| `PropertySearch` | property_search.dfy | `/property-search` |
| `PropertyAdmin` | property_admin.dfy | admin create/give/take property |
| `PropertyService` | property_service.dfy | `services/propertyService.js` |

The central invariant is `Ownership.Consistent`. It holds when every user's Properties column lists a property's name exactly when that property's `UserID` is the user. The model proves that invariant:

- preserved by every transition that checks ownership;
- preserved by the confirmations under the condition their buttons enforce;
- broken by the two admin commands that skip the check, each shown with a lemma.

Where the description of the system and the code disagree, the model follows the code:

- A warrant is issued whenever fines reach 100 or more, including again when it is already set.
- The general store removes sold copies from the end of the list, not the front.
- The web inventory view merges consumable counts by object spread, so the last column wins. The bot commands add the counts up.
- `/admin-inventory-search` shows the single Guns column instead of the six weapon columns.
- `/property-search`'s confirmations do not touch the type flags and do not recheck ownership.
- `/admin-create-property` stores the type lower-cased, so a created property never matches the capitalised type columns of the store.

## Model

| member | source | states |
|---|---|---|
| Text.NatToStringValue | services/inventoryService.js:24 | the digits written for a count denote exactly that count, with no leading zero |
| Text.ContainsOccurs | functions/property-search.js:58-59 | `includes` holds exactly when the text occurs at some position |
| Funds.SpendCashFirst | functions/property-store.js:195-204 | the purchase takes exactly the price out of cash and bank together. Cash is charged alone when it covers the price, otherwise it is emptied. Neither balance goes negative when the funds cover the price |
| Funds.SpendCashFirstFormula | functions/Nazar.js:199-214 | the same spend without a branch: cash loses max(0, cash - price), bank loses max(0, price - cash) |
| Funds.SpendTwice | functions/item-search.js:160-167 | spending a and then b ends where one spend of a + b does |
| Funds.Navigate | functions/property-store.js:137-138 | a back press moves the index down by one, a next press up by one |
| Funds.NavigateInRange | functions/property-search.js:93-99 | with back disabled on the first entry and next on the last, any enabled press keeps the index on an entry of the list |
| Balances.ParseField | services/balanceService.js:5 | a field is accepted exactly when it is Cash, Bank or Stash |
| Balances.WithBalance | services/balanceService.js:36-40 | writing one balance sets that balance and leaves the other balances and every other column as they were |
| Balances.UpdateBalance | services/balanceService.js:14-58 | an unknown field is refused before the user is read, and an unknown user is refused. The change succeeds exactly when the result is non-negative. It reports before/after with after = before + amount and writes only that field of that user |
| Balances.UpdateBalanceUndo | services/balanceService.js:29-40 | undoing an accepted change with the opposite amount succeeds, reports the swapped pair, and restores the row (a null balance comes back as 0) |
| AdminBalance.Give | functions/Admin-Give-Cash.js:24-49 | a non-admin is refused and an unknown target is refused. Otherwise the amount is added, with no sign check, to the one balance, and only that balance is written |
| AdminBalance.Take | functions/Admin-Take-Cash.js:24-57 | refused exactly when the caller is not an admin, the target is unknown, or the balance is below the amount. Otherwise the amount is subtracted from that one balance, which stays non-negative for a non-negative amount |
| AdminBalance.TakeStash | functions/Admin-Take-Stash.js:34-75 | a non-positive amount is refused before the user is read. An accepted take lowers the stash by exactly the amount and keeps it non-negative |
| AdminBalance.NegativeTakeAdds | functions/Admin-Take-Bank.js:44-55 | a negative amount passes the take check and raises the balance |
| AdminBalance.NegativeGiveGoesBelowZero | functions/Admin-Give-Bank.js:44-49 | a negative give takes a zero balance below zero |
| AdminBalance.GiveThenTake | functions/Admin-Give-Stash.js:44-49 | giving and then taking the same non-negative amount restores the balance |
| AdminBalance.GiveAgreesWithUpdateBalance | services/balanceService.js:30-34 | where the dashboard accepts a change, the admin give writes the same row. The dashboard refuses exactly the gives that end below zero |
| Fines.Fined | functions/Admin-Give-Fines.js:48-53 | fines rise by the amount. The warrant is set iff it was already set or the new fines reach 100. Nothing else changes |
| Fines.GiveFines | functions/Admin-Give-Fines.js:25-57 | refusals for a non-admin and an unknown target. The receipt's warrant flag is set iff the new fines reach 100, and then the stored warrant is on |
| Fines.FineKeepsWarrant | functions/Admin-Give-Fines.js:52-53 | a fine never clears a warrant |
| Fines.FineReissues | functions/Admin-Give-Fines.js:52-57 | fining a user already at 100 or more re-issues the warrant, even for 0 |
| Fines.TakeFine | functions/Admin-Take-Fine.js:24-64 | refused exactly when the caller is not an admin, the target is unknown, or the fines are below the amount. Otherwise fines drop by the amount, floored at 0. The warrant is cleared iff the fines reach 0. Only Fines and Warrant change |
| Fines.WarrantOutlivesFines | functions/Admin-Take-Fine.js:53-63 | after a fine of 100 and a partial take of 50, the fines are below the threshold but the warrant stays |
| Fines.TakeThenFine | functions/Admin-Take-Fine.js:44-63 | taking part of the fines and fining it back restores the fines and keeps a warrant that was set |
| Fines.Pardoned | functions/Admin-Remove-Warrant.js:53-55 | the pardoned record has no warrant, rate 0, the tax date stamped, and the same fines |
| Fines.RemoveWarrant | functions/Admin-Remove-Warrant.js:21-57 | refusals for a non-admin, an unknown target and a user without a warrant. Succeeds exactly when the user has a warrant, and then writes the pardoned record |
| Fines.PardonThenFine | functions/Admin-Remove-Warrant.js:53-57 | a pardon leaves the fines owed, so while they are at 100 the next fine re-issues the warrant |
| InventoryMutation.DropEmptyFacts | services/inventoryMutationService.js:14-17 | `filter(Boolean)` keeps only non-empty entries of the input, and keeps an all-non-empty list whole |
| InventoryMutation.ParseItemsShape | services/inventoryMutationService.js:14-17 | every parsed entry is non-empty and trimmed |
| InventoryMutation.ParseList | services/inventoryMutationService.js:14-17 | an empty column parses to []. Every entry is non-empty, has no comma and no surrounding space |
| InventoryMutation.CommaItemsWellFormed | services/inventoryMutationService.js:14-17 | entries split on ',' and trimmed hold no comma, so the non-empty ones are well formed |
| InventoryMutation.SerializeList | services/inventoryMutationService.js:19-21 | an empty list is written as the empty string, a single entry as itself, and a list starting with a non-empty entry never as the empty string. Its inverse on well-formed entries is `parseList` (ParseSerialize) |
| InventoryMutation.ParseSerialize | services/inventoryMutationService.js:19-21 | `parseList(serializeList(xs)) == xs` for well-formed entries |
| InventoryMutation.SerializeParseIdempotent | services/inventoryMutationService.js:14-21 | reading a column, writing it back and reading again gives the same list, and the second write equals the first |
| InventoryMutation.OccAppend | services/inventoryMutationService.js:40-41 | match counts and the non-matching entries distribute over concatenation |
| InventoryMutation.OccRepeat | services/inventoryMutationService.js:40-41 | n pushed copies all match the item |
| InventoryMutation.RemoveFirstCounts | services/inventoryMutationService.js:42-47 | removing q copies deletes exactly min(q, matches) entries, all of them matches, and keeps every other entry in order |
| InventoryMutation.RemoveFirstStopsEarly | services/inventoryMutationService.js:42-47 | nothing after the q-th match is touched |
| InventoryMutation.RemoveFirstAll | services/inventoryMutationService.js:42-47 | asking for more copies than exist removes every match |
| InventoryMutation.RemoveFirstNone | services/inventoryMutationService.js:44-45 | without a match nothing is removed (the `break` on index -1) |
| InventoryMutation.RemoveFirstCompose | services/inventoryMutationService.js:42-47 | removing a copies and then b copies is removing a + b copies |
| InventoryMutation.FirstMatch | services/inventoryMutationService.js:43-45 | `findIndex` returns -1 iff nothing matches, otherwise the first match. Splicing it out is a one-copy removal |
| InventoryMutation.AddCopies | services/inventoryMutationService.js:40-41 | the push loop appends exactly `quantity` copies |
| InventoryMutation.RemoveCopies | services/inventoryMutationService.js:42-47 | the splice loop removes the first `quantity` matches, or all of them if there are fewer |
| InventoryMutation.UpdateInventoryItem | services/inventoryMutationService.js:24-57 | missing arguments, a column outside the allowed list, a quantity below 1, an unknown user and an unknown action are refused without change. Otherwise the column's list is updated and written back, and nothing else changes |
| InventoryMutation.UpdatedReadsBack | services/inventoryMutationService.js:38-57 | for any item on a remove and a well-formed item on an add, read back, an add gives the old list plus exactly `quantity` copies. A remove lowers the match count by min(quantity, matches) and keeps every other entry |
| InventoryMutation.RemoveFirstKeepsWellFormed | services/inventoryMutationService.js:42-47 | removal keeps every remaining entry well formed |
| InventoryMutation.RemovesEarliest | services/inventoryMutationService.js:43-45 | the service removes the earliest copy: from Apple, Bread, apple it drops "Apple" |
| Counts.GetAbsent | services/inventoryService.js:8-17 | a key never set reads as 0 (`counts[k] \|\| 0`) |
| Counts.AssignGetHas | services/inventoryService.js:8-17 | assigning a key changes only that key's count and adds only that key |
| Counts.AssignDistinct | services/inventoryService.js:8-17 | assignment keeps keys distinct and moves the total by the change of that one count |
| Counts.AssignNew | services/inventoryService.js:8-17 | a new key is appended at the end, as object key order has it |
| Counts.SnocFacts | services/inventoryService.js:8-17 | an appended entry extends key membership, lookup and distinctness as expected |
| Counts.OccSnoc | services/inventoryService.js:8-17 | the match count of a list is that of its prefix plus the last entry |
| Counts.TallyFromFacts | services/inventoryService.js:8-17 | each lower-case key's count grows by the number of items matching it ignoring case. Keys stay distinct, only lower-case keys of present items are added, and the total grows by the number of items |
| Counts.TallyFromAppend | services/inventoryService.js:8-17 | counting a then b equals counting a + b |
| Counts.Tally | services/inventoryService.js:8-17 | an empty column gives {}. Every key counts exactly its case-insensitive matches. Every key is lower-case and present, and the counts sum to the list length |
| Counts.CountInto | functions/inventory.js:30-39 | the `forEach` loop builds exactly the tally of the items |
| Counts.CountDuplicates | services/inventoryService.js:8-17 | an empty column gives {}, otherwise the tally of the parsed list |
| Counts.SpreadFacts | services/inventoryService.js:32-37 | in `{...a, ...b}` every key of b takes b's count, the others keep a's. Keys stay distinct |
| Counts.AddAllFacts | functions/inventory.js:55-65 | adding tables key by key sums the two counts of every key |
| Counts.MergeAdd | functions/inventory.js:55-65 | the merge loop computes exactly that key-by-key sum |
| InventoryService.CapitalizeWordKeepsPunctuation | services/inventoryService.js:1-6 | capitalising never creates or removes a comma or a space |
| InventoryService.CapitalizeWordNoMatch | services/inventoryService.js:1-6 | a segment without ", " still has none after capitalising |
| InventoryService.CapitalizeWords | services/inventoryService.js:1-6 | `capitalizeWords` keeps the ", "-segments: splitting the result on ", " gives the input's segments, each capitalised, in order and as many |
| InventoryService.CapitalizedSegments | services/inventoryService.js:1-6 | capitalised segments joined with ", " split back into themselves |
| InventoryService.FormatCounts | services/inventoryService.js:19-26 | an empty table gives the empty message. Otherwise one line per entry in order, each the capitalised key followed by " (Nx)" exactly when the count N is above one, N written in decimal (Text.NatToStringValue) |
| InventoryService.ConsumablesLastWins | services/inventoryService.js:32-37 | a consumable key takes the count of the last of Food, Potion, Hunting, Consumable that has it, not the sum |
| InventoryService.GunCounts | services/inventoryService.js:39-47 | the weapon loop tallies every ','-segment of the six weapon columns, empty segments included |
| InventoryService.GunItemsOcc | services/inventoryService.js:39-47 | the matches in the combined weapon segments are the per-column matches added up |
| InventoryService.GunCountsSum | services/inventoryService.js:39-47 | every weapon key counts its matches summed over the six columns. The counts add up to the number of segments, empty ones included |
| InventoryService.BuildInventoryView | services/inventoryService.js:49-67 | the view shows the three balances and their total, coupons, the horse, treasure, consumable and weapon tables, and the capitalised Properties/License/Other columns, each as defined from the row |
| InventoryCommand.FormatCountsText | functions/inventory.js:41-48 | an empty table gives the empty message. Otherwise the text starts with a space and ends with a full stop |
| InventoryCommand.JoinStartsWithLabel | functions/inventory.js:41-48 | the joined text starts with the first label |
| InventoryCommand.TextLabelCommaFree | functions/inventory.js:41-48 | a label has no comma, starts with the capitalised key, and carries the "**Nx**" suffix exactly when the count is above one |
| InventoryCommand.FormatCountsTextEntries | functions/inventory.js:41-48 | without commas in keys, the text splits back on ", " into one label per entry, each " Name" followed by " **Nx**" exactly when the count N is above one, N written in decimal (Text.NatToStringValue) |
| InventoryCommand.ColumnDisplaySegments | functions/inventory.js:83-85 | a non-empty column is shown as its capitalised ", "-segments followed by a full stop |
| InventoryCommand.ConsumablesSummed | functions/inventory.js:55-65 | each consumable key counts its matches in all four columns added together |
| InventoryCommand.WeaponCounts | functions/inventory.js:67-80 | the weapon loop tallies the parsed entries of the six weapon columns |
| InventoryCommand.WeaponItemsWellFormed | functions/inventory.js:67-80 | every weapon entry counted is non-empty, trimmed and comma-free |
| InventoryCommand.WeaponCountsNoEmptyKey | functions/inventory.js:67-80 | unlike the web view, no weapon is counted under the empty key. The counts sum to the number of entries |
| InventoryCommand.OccNone | functions/inventory.js:67-80 | a list with no match has count 0 |
| InventoryCommand.BuildOverview | functions/inventory.js:51-92 | the shared embed fields are the defined overview of the row, and the grand total is cash + bank + stash (coupons left out) |
| InventoryCommand.Inventory | functions/inventory.js:13-20 | an unknown caller is refused. Otherwise the caller's overview, with weapons counted from the six columns |
| InventoryCommand.AdminInventorySearch | functions/Admin-Inventory-Search.js:21-39 | the admin role is checked before the user lookup. The overview shows the single Guns column as weapons |
| ItemStore.CategoryField | functions/item-search.js:29 | the column name is the type with its first letter upper-cased and the rest lower-cased, equal to the type ignoring case |
| ItemStore.LimitOf | functions/item-search.js:16-26 | a category is capped exactly when its lower-case name is in the limit table, and then by the table's value (at least 1) |
| ItemStore.LimitTable | functions/item-search.js:98 | only revolvers are capped at two, and any other capped type at one |
| ItemStore.MaxQty | functions/item-search.js:148 | a sale allows the owned count. A buy allows no more than the room under the cap, and no more than the funds pay for. It is either the cap's room or the exact number of copies the funds cover |
| ItemStore.DivBounds | functions/item-search.js:148 | `Math.floor(funds / price)` is the largest count the funds pay for |
| ItemStore.OfferedIffMaxQty | functions/item-search.js:99-112 | the Buy and Sell buttons are shown exactly when `maxQty` is at least 1 |
| ItemStore.RemoveLastCounts | functions/item-search.js:170-173 | removing from the end deletes min(q, matches) matches and keeps every other entry in order |
| ItemStore.RemovesLatest | functions/item-search.js:171-172 | from Apple, Bread, apple the store drops the last "apple", where the inventory service drops the first |
| ItemStore.RemoveFromEnd | functions/item-search.js:170-173 | the backward splice loop removes exactly the last q matches |
| ItemStore.StoreTrade | functions/item-search.js:135-177 | an unknown user and a non-positive `maxQty` are refused. The trade succeeds exactly for an integer quantity in 1..maxQty, and then writes the traded row |
| ItemStore.BuySpendsExactly | functions/item-search.js:160-167 | a buy spends exactly price × qty from cash and bank together, and both stay non-negative |
| ItemStore.ListOfWellFormed | functions/item-search.js:162 | a joined list of well-formed entries reads back as itself |
| ItemStore.BuyRespectsLimit | functions/item-search.js:168 | a buy appends qty copies, raises the owned count by qty, and never exceeds the category's cap |
| ItemStore.SellFromEnd | functions/item-search.js:170-177 | a sale removes the last qty copies, lowers the count by qty, credits price × qty to cash, and leaves the bank |
| ItemStore.MatchingItems | functions/item-search.js:63 | the results are exactly the catalog items whose lower-cased name contains the query, and never more than the catalog |
| ItemStore.MatchingItemsCount | functions/item-search.js:63 | a matching item appears as many times as in the catalog, any other not at all |
| ItemStore.MatchingItemsAppend | functions/item-search.js:63 | filtering distributes over concatenation, so the matches keep catalog order |
| ItemStore.ItemSearch | functions/item-search.js:57-64 | an unknown caller is refused. A result is non-empty and is the matching items. A registered caller is refused only when nothing matches |
| Nazar.PageCount | functions/Nazar.js:75 | the page count is the least number of 4-item pages holding every item |
| Nazar.PageItems | functions/Nazar.js:66-68 | a page holds at most 4 items, at least one for an existing page, each being the item at page × 4 + k |
| Nazar.PagesPrefix | functions/Nazar.js:66-68 | the first k pages laid end to end are the first 4k items |
| Nazar.PagesCoverItems | functions/Nazar.js:66-75 | paging through every page shows every item once, in order |
| Nazar.PagesStayInRange | functions/Nazar.js:134-180 | prev and next keep the page among the existing pages. Next stays put exactly on the last page, where its button is disabled |
| Nazar.SkipSpaces | functions/Nazar.js:108 | the result does not start with whitespace |
| Nazar.Spaced | functions/Nazar.js:185 | every `_` becomes a space and nothing else changes |
| Nazar.Underscored | functions/Nazar.js:107 | the key has no whitespace, is never longer than the name, and is empty only for an empty name |
| Nazar.ButtonId | functions/Nazar.js:107-120 | the id starts with the action. When the action has no `_`, the id's first `_` comes right after it, where the corrected decoding cuts (DecodeRoundTrip). An id built from a whitespace-free action holds no whitespace |
| Nazar.DecodeAsWritten | functions/Nazar.js:184-185 | the decoded name never contains `_` |
| Nazar.DecodeButton | functions/Nazar.js:184-185 | corrected: None exactly when the id has no `_`. Otherwise the action is the id up to its first `_`, and the name, which has no `_`, is the rest |
| Nazar.FirstUnderscore | functions/Nazar.js:115-120 | after an action without `_`, the first `_` of an id is the separator |
| Nazar.IndexOfChar | functions/Nazar.js:184 | -1 iff the character is absent, otherwise its first position |
| Nazar.SpacedUnderscored | functions/Nazar.js:108-185 | for a name without `_` and only single spaces, replacing the spaces and back gives the name |
| Nazar.DecodeRoundTrip | functions/Nazar.js:106-186 | the corrected decoding recovers the action and the name from any button id built from them |
| Nazar.UnderscoredWord | functions/Nazar.js:108 | a word followed by whitespace becomes the word, one `_`, and the rest |
| Nazar.NoCharNoMatch | functions/Nazar.js:184 | a string without the separator has no occurrence of it |
| Nazar.DecodeAsWrittenDropsWords | functions/Nazar.js:184-185 | as written, a name with a space decodes to its first word only |
| Nazar.UnderscoredRing | functions/Nazar.js:108 | "Ring" has no whitespace to replace |
| Nazar.GoldRingId | functions/Nazar.js:107-108 | the button id of "Gold Ring" is "buy_Gold_Ring" |
| Nazar.GoldRingDecodesToGold | functions/Nazar.js:184-186 | as written, the Buy button of "Gold Ring" decodes to "Gold" |
| Nazar.GoldRingDecodesCorrected | functions/Nazar.js:184-186 | corrected, the same button decodes to "Gold Ring" |
| Nazar.FindCurio | functions/Nazar.js:186 | a found item is in the list and matches ignoring case. None means no item matches |
| Nazar.ClickFindsItem | functions/Nazar.js:106-190 | with the corrected decoding, a click finds the item whose button it was |
| Nazar.FindFirst | functions/Nazar.js:186 | `find` returns the first matching item |
| Nazar.BuyCurio | functions/Nazar.js:199-223 | an unknown user is refused. The buy succeeds exactly when cash + bank cover the price, and then writes the bought row |
| Nazar.BoughtFacts | functions/Nazar.js:199-217 | the buy spends the price cash first, keeps the bank's stored value when cash covers the price, keeps balances non-negative, and appends the name to Treasure |
| Nazar.IndexOf | functions/Nazar.js:236 | `indexOf` is -1 iff the exact name is absent, otherwise its first position |
| Nazar.SellCurio | functions/Nazar.js:235-248 | refused exactly when the exact name is not in Treasure. Otherwise writes the sold row |
| Nazar.SoldFacts | functions/Nazar.js:235-243 | a sale splices out one copy (the first exact one), keeps the rest in order, credits the price to cash, and leaves the bank |
| Nazar.BuyThenSell | functions/Nazar.js:199-248 | buying a new well-formed name and selling it restores Treasure and the funds in total |
| Nazar.Stocked | functions/Nazar.js:41 | the shown items are exactly the named ones |
| Nazar.Click | functions/Nazar.js:186-248 | an undecodable id and a missing item are refused without change, and so is any other action. The click succeeds exactly when the item is found and the user can pay for a buy or owns the exact name for a sell; then it is that buy or sale |
| Nazar.Collect | functions/Nazar.js:184-248 | the click as written, decoding with `split('_')`: succeeds exactly when the decoded name finds an item the user can buy or sell, and then buys or sells that item |
| Nazar.CollectCorrected | functions/Nazar.js:184-248 | the same click with the corrected decoding, under the same contract |
| Nazar.GoldRingIdDecodes | functions/Nazar.js:184-185 | "buy_Gold_Ring" decodes to "Gold" as written and to "Gold Ring" corrected |
| Nazar.GoldRingClickVanishes | functions/Nazar.js:184-190 | as written, the Buy click on "Gold Ring" in a store of that one item is refused as vanished, changing nothing, whatever the user's funds |
| Nazar.GoldRingClickBuys | functions/Nazar.js:184-223 | corrected, the same click buys the ring for a user who can pay |
| Ownership.Claimed | services/propertyService.js:42-43 | the claimed row records the user and owner, and nothing else changes |
| Ownership.Released | services/propertyService.js:79 | the released row records no owner, and nothing else changes |
| Ownership.AppendNameSplits | services/propertyService.js:38-39 | appending a name adds exactly that segment to the ", "-list |
| Ownership.AppendNameListed | functions/property-store.js:206-208 | after the append, the user lists exactly the old names plus the new one |
| Ownership.Without | services/propertyService.js:75-76 | the filtered list holds exactly the other entries |
| Ownership.WithoutAbsent | services/propertyService.js:75-76 | filtering an absent name changes nothing |
| Ownership.WithoutAppend | services/propertyService.js:75-76 | the filter distributes over concatenation |
| Ownership.SplitOfJoinedSegments | services/propertyService.js:75-76 | joining segments and splitting again gives the segments back |
| Ownership.UnlistedListed | services/propertyService.js:75-76 | dropping a name unlists exactly that name |
| Ownership.AppendThenUnlist | services/propertyService.js:38-76 | appending an unlisted name and dropping it restores the column |
| Ownership.SerializedIsTidy | functions/property-search.js:245-262 | a column written as a ", "-join of well-formed names reads the same on "," with trimming and on ", " |
| Ownership.GivenList | functions/Admin-Give-Property.js:68-76 | the given list contains the name |
| Ownership.DropEmptyKeeps | functions/Admin-Give-Property.js:68-72 | `filter(Boolean)` keeps every non-empty entry |
| Ownership.DropEmptyAt | functions/Admin-Give-Property.js:68-72 | a non-empty entry at any position survives the filter |
| Ownership.GivenListListed | functions/Admin-Give-Property.js:68-76 | after a give, the user lists exactly the old names plus the given one |
| Ownership.GiveIdempotent | functions/Admin-Give-Property.js:68-76 | giving the same property twice leaves the list as giving it once |
| Ownership.ClaimKeepsConsistent | services/propertyService.js:27-43 | claiming a property that is unowned, or already the user's, for a user who gains exactly its name keeps the store consistent |
| Ownership.ReleaseKeepsConsistent | services/propertyService.js:64-79 | releasing a property its owner drops keeps the store consistent |
| PropertyStore.StoreBuy | functions/property-store.js:147-227 | refusals in the source's order: unknown user, already owned, type already owned, funds short. A success writes the bought user and claims the row |
| PropertyStore.StoreSell | functions/property-store.js:261-313 | refused unless the caller is the recorded owner. A success writes the sold user and releases the row |
| PropertyStore.BoughtSpends | functions/property-store.js:195-204 | the buyer pays exactly the price, cash first, and neither balance goes negative |
| PropertyStore.BoughtLists | functions/property-store.js:206-208 | a purchase appends the name to the Properties column |
| PropertyStore.TypeFlagRoundTrip | functions/property-store.js:210-221 | a purchase of a mapped type blocks a second one of that type. A sale lifts the block |
| PropertyStore.HomesteadCounts | functions/property-store.js:294-313 | homesteads are counted up on a purchase and down on a sale, never below 0. The flag says whether any remain |
| PropertyStore.BuyThenSell | functions/property-store.js:195-313 | buying and selling a property restores the Properties column, the funds in total, and the homestead count |
| PropertyStore.StoreBuyKeepsConsistent | functions/property-store.js:206-227 | a purchase keeps every user's list in step with the property list |
| PropertyStore.StoreSellKeepsConsistent | functions/property-store.js:294-313 | a sale keeps every user's list in step with the property list |
| PropertyStore.SnapshotBought | functions/property-store.js:195-222 | confirm_buy as written writes cash, bank, Properties and the type flag computed from the session's snapshot over the stored row. With an up-to-date snapshot it is exactly the corrected BoughtUser |
| PropertyStore.SnapshotSold | functions/property-store.js:294-309 | confirm_sell as written writes cash, Properties and the type flag from the snapshot and leaves the stored bank. With an up-to-date snapshot it is exactly the corrected SoldUser |
| PropertyStore.SessionBuy | functions/property-store.js:33-227 | inside a session the buy is accepted exactly when the row is unowned, the snapshot holds no flag of its type, and the snapshot's cash + bank cover the price. It then writes SnapshotBought and claims the row, and agrees with StoreBuy when the snapshot is current |
| PropertyStore.SessionSell | functions/property-store.js:33-313 | inside a session the sale is accepted exactly when the session's row records the user. It then writes SnapshotSold and releases the row, and agrees with StoreSell when the snapshot is current |
| PropertyStore.SnapshotResale | functions/property-store.js:33-313 | as written, buying a property with cash and selling it back in one session accepts both and leaves cash + bank higher by the price |
| PropertyStore.RanchResaleExample | functions/property-store.js:33-313 | Cash 1000, Bank 0 and a Ranch at 500: a session's buy and sell leave Cash 1500, where the corrected buy and sell give back 1000 in total |
| PropertyStore.SnapshotSecondRanch | functions/property-store.js:33-227 | as written, a second Ranch in the same session passes the type check although the stored row is blocked, and its confirmation drops the first name from Properties, breaking consistency |
| PropertySearch.HitsFrom | functions/property-search.js:57-60 | the hits are in range, in list order, and are exactly the properties whose name or type contains the keyword |
| PropertySearch.Search | functions/property-search.js:39-67 | an empty keyword and an unknown user are refused. The result is refused as empty exactly when nothing matches, and otherwise lists every hit in order |
| PropertySearch.ConfirmBuy | functions/property-search.js:186-228 | succeeds for any known user with the funds, with no ownership recheck. The logged balance before is cash + bank and drops by exactly the price |
| PropertySearch.ConfirmSell | functions/property-search.js:245-262 | succeeds for any known user, with no owner check. Writes the seller's list without the name and releases the row |
| PropertySearch.SellerAfterFacts | functions/property-search.js:245-262 | the sale credits the price to cash, leaves the bank, and keeps every other listed name in order |
| PropertySearch.Keyword | functions/property-search.js:46 | the keyword is trimmed and already lower-case |
| PropertySearch.Hit | functions/property-search.js:57-60 | a property is hit exactly when the keyword occurs in its lower-cased name or type. The empty keyword hits everything |
| PropertySearch.BuyerAfterSpends | functions/property-search.js:186-228 | the balance before a purchase is the balance after plus the price |
| PropertySearch.ConfirmBuyKeepsConsistent | functions/property-search.js:105 | with Buy enabled only on unowned properties, a confirmation keeps the store consistent |
| PropertySearch.ConfirmSellKeepsConsistent | functions/property-search.js:111 | with Sell enabled only for the owner, a confirmation keeps the store consistent |
| PropertyAdmin.NewProperty | functions/Admin-Create-Property.js:74-83 | a new row is unowned, with trimmed text and a lower-cased type |
| PropertyAdmin.CreateProperty | functions/Admin-Create-Property.js:41-85 | a non-admin is refused. It succeeds exactly when no named property has the trimmed name ignoring case, and then appends the new row |
| PropertyAdmin.CreateKeepsUnique | functions/Admin-Create-Property.js:60-69 | an accepted creation keeps names unique ignoring case |
| PropertyAdmin.CreateKeepsConsistent | functions/Admin-Create-Property.js:74-85 | appending the unowned row keeps the store consistent when no user already lists its name |
| PropertyAdmin.UniqueIgnoringCaseIsUnique | functions/Admin-Create-Property.js:60-69 | names unique ignoring case are unique exactly |
| PropertyAdmin.CreatedKindIsUnmapped | functions/Admin-Create-Property.js:52 | a created property's type is never one of the store's type columns |
| PropertyAdmin.FindByLowerName | functions/Admin-Give-Property.js:54-63 | the first named property whose lower-cased name is the input, or -1 when none is |
| PropertyAdmin.AdminGiveProperty | functions/Admin-Give-Property.js:26-79 | refusals for a non-admin, an unknown target and an unknown property. A success lists the name for the target and claims the row, with no unowned check |
| PropertyAdmin.GiveKeepsConsistent | functions/Admin-Give-Property.js:68-79 | giving an unowned property, or one the target owns, keeps the store consistent |
| PropertyAdmin.GiveOwnedBreaksConsistent | functions/Admin-Give-Property.js:78-79 | giving a property another user owns breaks consistency: that user still lists it |
| PropertyAdmin.FindLower | functions/Admin-Take-Property.js:68-77 | the first entry whose lower-cased form is the name, or -1 when none is |
| PropertyAdmin.FindRow | functions/Admin-Take-Property.js:82-91 | the first row whose lower-cased name is the name, or -1 when none is |
| PropertyAdmin.AdminTakeProperty | functions/Admin-Take-Property.js:40-102 | refusals for a non-admin, an unknown target, a name not in their list, and a name without a row. A success splices the entry out and releases the row, whoever owned it |
| PropertyAdmin.TakenUserFacts | functions/Admin-Take-Property.js:94-98 | exactly the one entry leaves the list, and the rest keep their order |
| PropertyAdmin.TakeKeepsConsistent | functions/Admin-Take-Property.js:94-102 | taking a property from its recorded owner keeps the store consistent |
| PropertyAdmin.TakeOthersBreaksConsistent | functions/Admin-Take-Property.js:101-102 | taking a property another user owns breaks consistency: that user still lists it |
| PropertyService.FindRow | services/propertyService.js:27-33 | the first row with the exact name and recorded owner, and -1 iff there is none |
| PropertyService.GiveProperty | services/propertyService.js:15-45 | missing arguments and an unknown user are refused. It succeeds exactly when an unowned row has the name, and then lists it and claims the row |
| PropertyService.RemoveProperty | services/propertyService.js:52-82 | succeeds exactly when the user owns a row with the name, and then drops it from the list and releases the row |
| PropertyService.WithoutRows | services/propertyService.js:100 | the remaining rows are exactly those with another name |
| PropertyService.DeleteProperty | services/propertyService.js:88-102 | refused unless an unowned row has the name. Then every row with the name is deleted |
| PropertyService.RemovedListed | services/propertyService.js:75-76 | after a removal, the user lists the old names except the one removed |
| PropertyService.GiveKeepsConsistent | services/propertyService.js:27-43 | a successful give keeps the store consistent |
| PropertyService.RemoveKeepsConsistent | services/propertyService.js:64-79 | a successful remove keeps the store consistent |
| PropertyService.GiveThenRemove | services/propertyService.js:38-76 | giving a property and removing it leaves the same names listed |
| PropertyService.DeleteKeepsConsistent | services/propertyService.js:89-100 | a delete keeps the store consistent. In a consistent store no user lists the name, so no one's property is deleted |

## Left out

- Discord interaction plumbing: embeds, buttons, modals, collectors, timeouts and replies. Only the decisions they feed are modelled: the admin role, the clicked id, and the form's number.
- Transaction logging, the warrant broadcast and every other message: these are I/O with no effect on the records.
- Concurrency between different commands and users. The confirm flows of the property store and search are merged with the click that opens them. Apart from the property store's own session (see Findings), handlers act on the current store.
- The clock and `randomUUID()` are parameters (`now`, `key`).
- Supabase query order is taken to be list order.
- Numbers are unbounded integers. NaN, Infinity and fractional amounts are left out. A value that is missing or not a number reads as 0, which covers `safeNumber` and `Number(v) || 0`.
- AdminBalance.TakeStash: reads the stash as `Amount`. The source's `Number(user.Stash ?? 0)` gives NaN for a non-numeric stash.
- PropertyStore.StoreSell: a non-numeric HomesteadCount (NaN in the source) is not modelled.
- Case mapping and `\s` cover ASCII only. `String(null) == "null"` and the precision of `Number(userId)` are not modelled.
- Object key order is modelled as insertion-order tables (`Counts.Table`). Integer-like keys, which JavaScript orders first, are not distinguished.
- InventoryMutation.UpdateInventoryItem: the default quantity of 1 is supplied by the caller.
- ItemStore.StoreTrade: requires a positive price for a buy, because the source divides by the price.
- ItemStore.ItemSearch: `Name` missing on a catalog row (the `?.` chain) is not modelled; every item has a name.
- PropertyStore.StoreBuy, PropertyStore.StoreSell: read the user row current at each confirm, which is the corrected behaviour. The source reads it once per session (functions/property-store.js:33). That as-written session is SessionBuy and SessionSell, listed under Findings. PropertyStore.TypeFlagRoundTrip, PropertyStore.BuyThenSell and PropertyStore.StoreBuyKeepsConsistent therefore hold for one trade per command, or for the corrected handlers. They do not hold for several trades in one session as written.
- PropertyStore.StoreBuy, PropertyStore.StoreSell, PropertySearch.ConfirmBuy and PropertySearch.ConfirmSell: require the index to be on the list, since the browser only shows existing entries.
- The `adminTag = 'Admin'` default of `giveProperty` (services/propertyService.js:15) is supplied by the caller.
- Count tables treat every key alike. In JavaScript a key such as "constructor" starts from an inherited value in `counts[key] || 0`, and "__proto__" is not stored as a key; neither quirk is modelled.
- functions/Admin-Delete-Property.js and functions/Admin-Property-Key.js are not part of this model. The delete there removes a row without checking its owner.
- services/nazarService.js, server.js and the public routes are not part of this model.

## Findings

| source | as written | input that shows it | evidently intended | confidence | as-written member | corrected member |
|---|---|---|---|---|---|---|
| functions/Nazar.js:184-186 | the button id is split on every `_` and only the second segment is kept, so a name with a space loses every word after the first | the Buy button of an item named "Gold Ring" has id "buy_Gold_Ring" and decodes to "Gold", so the click finds no item or the wrong one | the name is everything after the first `_`, so every button finds its own item | not executed | Nazar.GoldRingClickVanishes | Nazar.CollectCorrected |
| functions/property-store.js:33 | the user row is read once when the command starts, and every later buy or sell in the 5-minute session checks and computes from that snapshot | Cash 1000, Bank 0, one unowned Ranch at 500: buy and confirm, then sell and confirm, leaves Cash 1500. A second Ranch would also pass the type check, and its purchase would drop the first name from Properties | each confirm reads the current row, so buying and selling back restores the funds and a second property of a type is refused | not executed | PropertyStore.SnapshotResale | PropertyStore.BuyThenSell |
