# Mobile transaction list and budget-month menu, in Dafny

This project models two pieces of the personal-finance client's mobile screens.

The first is the **transaction list** (`TransactionList.jsx`):

- the pass that groups the date-ordered transactions into date sections and flags the last transaction of a section with `isLast`;
- the rule that decides whether a row press toggles the selection or opens the transaction;
- the floating action bar shown while transactions are selected: its clear button, its "n transaction(s) selected" label, the "all selected transactions are linked" test, the choice between "Link schedule" and "Unlink schedule", and the two menus that call the batch callbacks.

The second is the **budget-month menu modal** (`RolloverBudgetMonthMenuModal.tsx`):

- the `showMore` toggle that switches between the notes pane and the action menu;
- the "No notes" fallback;
- the table that maps each menu entry to the keyword sent to `onBudgetAction(month, keyword)`, followed by closing the modal and, for all but "check templates", one undo notification whose message starts with the formatted month.

Files:

- `wrappers.dfy`: `Option`, for JavaScript's `undefined`/`null`.
- `decimal.dfy`: how a template literal renders a non-negative integer below 10^21 (`${n}`). It is proved to read back to `n`, so it is injective.
- `transaction_list.dfy`: module `TransactionList`. `Transaction` is a class whose only mutable field is `isLast`. `BuildSections` is the grouping loop over an `array<Transaction>`. It is proved against the function `Group`, which folds the same step over the sequence. The selection rules are pure functions that return the effects a handler performs.
- `rollover_budget_month_menu_modal.dfy`: module `RolloverBudgetMonthMenuModal`. The pure keyword, message, notes and view functions come first. The class `MonthMenuModal` follows: it holds `showMore` and a log of effects, and its handlers append to that log.

The grouping pass is modelled as the code behaves, not as its comment describes it:

- A section's `isLast` flag is set only when the next section is opened. The last transaction of the final section is never flagged, and no flag is ever cleared (`FlaggedAtDateChanges`, `FinalTransactionNotFlagged`, `TwoDaysExample`).
- The pass does not sort. Unsorted input gives several non-adjacent sections with the same date. The uniqueness lemma `DateGroupingIsGroup` only requires neighbouring sections to differ.

## Model

| member | source | states |
|---|---|---|
| `TransactionList.BuildSections` | packages/desktop-client/src/components/mobile/transactions/TransactionList.jsx:40-66 | The sections returned are exactly `Group` of the input array. Afterwards, a transaction's `isLast` is true iff it was true before or the transaction ends a section other than the final one. Only the listed transactions may change. |
| `TransactionList.Group` | packages/desktop-client/src/components/mobile/transactions/TransactionList.jsx:40-66 | The specification of the pass: `AddTransaction` folded over the input from the left. It never has more sections than transactions. `GroupIsDateGrouping` and `DateGroupingIsGroup` characterise it independently. |
| `TransactionList.AddTransaction` | packages/desktop-client/src/components/mobile/transactions/TransactionList.jsx:44-63 | One step: a new section is opened iff there is none or the date differs from the last section's (line 46). Either way the transaction ends the last section, which has its date, and every section before the new last one is unchanged, including the old last section when a new one opens. |
| `TransactionList.SectionId` | packages/desktop-client/src/components/mobile/transactions/TransactionList.jsx:57 | The key of a section opened by a transaction: `preview/` plus the date for a preview, otherwise the date. `SectionIdNamesDate` states its properties. |
| `TransactionList.SectionIdNamesDate` | packages/desktop-client/src/components/mobile/transactions/TransactionList.jsx:57 | Every section key ends with the date. It equals the bare date exactly when the transaction is not a preview. |
| `TransactionList.VisitTransaction` | packages/desktop-client/src/components/mobile/transactions/TransactionList.jsx:43-64 | One visit of the loop body yields `AddTransaction` of the sections so far. When the date differs from the last section's, the last transaction of that section has `isLast` set. Nothing else is written. |
| `TransactionList.TwoDaysExample` | packages/desktop-client/src/components/mobile/transactions/TransactionList.jsx:40-66 | Three distinct transactions, where only the third has a different date, give two sections, `[t1, t2]` and `[t3]`. Only `t2` is flagged. |
| `TransactionList.GroupIsDateGrouping` | packages/desktop-client/src/components/mobile/transactions/TransactionList.jsx:43-63 | The sections, concatenated in order, are the input: nothing is lost, duplicated or reordered. Every section is non-empty and all of its transactions share its date. Neighbouring sections have different dates. A section's id is `preview/` + date when its first transaction is a preview, otherwise the date. |
| `TransactionList.DateGroupingIsGroup` | packages/desktop-client/src/components/mobile/transactions/TransactionList.jsx:44-60 | Any sectioning with those properties is the one the pass builds. So a new section starts exactly where the date changes between neighbours. |
| `TransactionList.SectionCount` | packages/desktop-client/src/components/mobile/transactions/TransactionList.jsx:44-60 | Empty input gives zero sections. Otherwise there is one section more than there are date changes between neighbours. |
| `TransactionList.ShowsPlaceholder` | packages/desktop-client/src/components/mobile/transactions/TransactionList.jsx:105 | The placeholder test `sections.length === 0`. `PlaceholderIffNoTransactions` shows it holds iff the input is empty. |
| `TransactionList.PlaceholderIffNoTransactions` | packages/desktop-client/src/components/mobile/transactions/TransactionList.jsx:105-120 | Line 105's condition `sections.length === 0`, which selects the "No transactions" placeholder once loading is over, holds iff the input list is empty. |
| `TransactionList.FlaggedAtDateChanges` | packages/desktop-client/src/components/mobile/transactions/TransactionList.jsx:48-54 | The pass flags exactly the transactions whose successor has a different date. |
| `TransactionList.FinalTransactionNotFlagged` | packages/desktop-client/src/components/mobile/transactions/TransactionList.jsx:48-54 | When no transaction object occurs twice, the last transaction is never flagged, so it keeps its old `isLast`. |
| `TransactionList.OnTransactionPress` | packages/desktop-client/src/components/mobile/transactions/TransactionList.jsx:71-79 | Each press has exactly one effect. It dispatches `select` with the transaction's id iff the transaction is not a preview and the press is long or the selection is non-empty. Otherwise it opens that transaction. |
| `TransactionList.PressesNeverSelectPreviews` | packages/desktop-client/src/components/mobile/transactions/TransactionList.jsx:71-79 | Start from a selection with no preview ids and apply any series of presses through a toggling store: the selection still holds no preview id. |
| `TransactionList.ShortPressesKeepBrowsing` | packages/desktop-client/src/components/mobile/transactions/TransactionList.jsx:71-79 | From an empty selection, short presses never select anything: they only open transactions. |
| `TransactionList.OnClearPress` | packages/desktop-client/src/components/mobile/transactions/TransactionList.jsx:240-244 | The clear button dispatches `select-none`, once, and only when the selection is non-empty. This is exactly when line 153's condition for the action bar holds. |
| `TransactionList.ClearHidesActionBar` | packages/desktop-client/src/components/mobile/transactions/TransactionList.jsx:153 | After the clear button, the action bar's visibility condition is false. |
| `TransactionList.ActionBarVisible` | packages/desktop-client/src/components/mobile/transactions/TransactionList.jsx:153 | Line 153's condition `selectedTransactions.size > 0`: the selection is non-empty. `OnClearPress` and `ClearHidesActionBar` state how the clear button relates to it. |
| `TransactionList.CountLabelShowsSize` | packages/desktop-client/src/components/mobile/transactions/TransactionList.jsx:249-250 | The label's leading digits read back as the selection's size. The rest is " transactions selected" iff the size is above one, else " transaction selected". |
| `TransactionList.CountLabel` | packages/desktop-client/src/components/mobile/transactions/TransactionList.jsx:249-250 | The label is the selection's size in decimal followed by the noun, and it starts with a digit. `CountLabelShowsSize` shows the number reads back as the size. |
| `TransactionList.AllLinkedIff` | packages/desktop-client/src/components/mobile/transactions/TransactionList.jsx:210-214 | The filter/every test holds iff every listed transaction whose id is selected has a truthy `schedule`. It holds vacuously when none is selected. |
| `TransactionList.AllTransactionsAreLinked` | packages/desktop-client/src/components/mobile/transactions/TransactionList.jsx:210-214 | `filter` by selected id, then `every` with a truthy `schedule`. `AllLinkedIff` restates it as a property of the listed transactions. |
| `TransactionList.MoreOptionsItems` | packages/desktop-client/src/components/mobile/transactions/TransactionList.jsx:359-381 | There are three items. `duplicate` and `delete` are always offered. `unlink-schedule` is offered iff all selected are linked, and `link-schedule` iff not. |
| `TransactionList.LinkChoice` | packages/desktop-client/src/components/mobile/transactions/TransactionList.jsx:359-381 | Unlinking is offered iff every selected listed transaction has a schedule. Linking is offered iff some selected listed transaction lacks one. |
| `TransactionList.MoreOptionsCallback` | packages/desktop-client/src/components/mobile/transactions/TransactionList.jsx:347-357 | A chosen name selects the callback whose item name it is. The four names of the handler's branches are the only ones that select anything. |
| `TransactionList.EveryOfferedItemHandled` | packages/desktop-client/src/components/mobile/transactions/TransactionList.jsx:348-381 | Every item the more-options menu offers has a matching branch in its `onMenuSelect`. |
| `TransactionList.OnMoreOptionsSelect` | packages/desktop-client/src/components/mobile/transactions/TransactionList.jsx:347-358 | The menu closes in every case, as the last effect. Before that, exactly the matching callback is called, with the selected ids, iff the name matches a branch and that callback was given. Otherwise nothing is called. |
| `TransactionList.EditMenuItems` | packages/desktop-client/src/components/mobile/transactions/TransactionList.jsx:286-318 | The edit menu has six items and no `date` entry. Every item names one of account, payee, notes, category, amount and cleared, and each of those six is offered. |
| `TransactionList.OnEditSelect` | packages/desktop-client/src/components/mobile/transactions/TransactionList.jsx:282-285 | `onEdit(field, ids)` is called iff it was given, and then the edit menu closes. |
| `TransactionList.EditMenuPassesField` | packages/desktop-client/src/components/mobile/transactions/TransactionList.jsx:282-318 | Each offered field reaches `onEdit` with that field name and the selected ids, and is never `date`. |
| `Decimal.NatToString` | packages/desktop-client/src/components/modals/RolloverBudgetMonthMenuModal.tsx:172 | `${n}` for a whole number below 10^21 is a non-empty string of digits with no leading zero. |
| `Decimal.ValueOfNatToString` | packages/desktop-client/src/components/modals/RolloverBudgetMonthMenuModal.tsx:172 | Reading the rendered digits back gives the number. |
| `Decimal.NatToStringInjective` | packages/desktop-client/src/components/modals/RolloverBudgetMonthMenuModal.tsx:172 | Different numbers of months render differently. |
| `RolloverBudgetMonthMenuModal.ActionKeyword` | packages/desktop-client/src/components/modals/RolloverBudgetMonthMenuModal.tsx:158-197 | The keyword each entry sends. A keyword ends in `-avg` iff the entry is the average, and then it is `set-` followed by the month count in decimal. `ActionKeywordInjective` shows no two entries share a keyword. |
| `RolloverBudgetMonthMenuModal.ActionKeywordInjective` | packages/desktop-client/src/components/modals/RolloverBudgetMonthMenuModal.tsx:157-202 | No two menu entries send the same keyword, including `set-${n}-avg` for different `n`. The keyword determines the entry. |
| `RolloverBudgetMonthMenuModal.UndoMessage` | packages/desktop-client/src/components/modals/RolloverBudgetMonthMenuModal.tsx:157-202 | Every entry except "check templates" has a notification message, and "check templates" has none. Every message begins with the display month. |
| `RolloverBudgetMonthMenuModal.AverageName` | packages/desktop-client/src/components/modals/RolloverBudgetMonthMenuModal.tsx:175 | The name of the average: "yearly" for 12 months, otherwise the count in decimal followed by " month". `AverageMessageSaysYearly` states both cases for the message that uses it. |
| `RolloverBudgetMonthMenuModal.AverageMessageSaysYearly` | packages/desktop-client/src/components/modals/RolloverBudgetMonthMenuModal.tsx:171-176 | The average message is the "yearly average" text iff `numberOfMonths` is 12. For any other count it is the text with that count in decimal followed by " month average.". |
| `RolloverBudgetMonthMenuModal.ActionEffects` | packages/desktop-client/src/components/modals/RolloverBudgetMonthMenuModal.tsx:157-202 | The first effect is `onBudgetAction(month, keyword)` and the second is `onClose()`. Then there is exactly one undo notification, or none for "check templates". Its message is `UndoMessage` of the entry, which starts with the display month. |
| `RolloverBudgetMonthMenuModal.NotesPlaceholderAgreesWithStyle` | packages/desktop-client/src/components/modals/RolloverBudgetMonthMenuModal.tsx:89-100 | Notes that are undefined or empty show "No notes", in the subdued style. Other notes are shown unchanged and not subdued. |
| `RolloverBudgetMonthMenuModal.NotesShown` | packages/desktop-client/src/components/modals/RolloverBudgetMonthMenuModal.tsx:90 | The text passed to the notes pane: the stored notes, or "No notes". It is never empty. |
| `RolloverBudgetMonthMenuModal.NotesSubdued` | packages/desktop-client/src/components/modals/RolloverBudgetMonthMenuModal.tsx:95 | The placeholder style applies iff the notes are undefined or empty. `NotesPlaceholderAgreesWithStyle` ties it to `NotesShown`. |
| `RolloverBudgetMonthMenuModal.ViewFor` | packages/desktop-client/src/components/modals/RolloverBudgetMonthMenuModal.tsx:82-153 | The action menu is rendered iff `showMore`. The notes pane and the "Edit notes" row are hidden iff `showMore`. Exactly one of the notes pane and the menu is shown. |
| `RolloverBudgetMonthMenuModal.MonthMenuModal.constructor` | packages/desktop-client/src/components/modals/RolloverBudgetMonthMenuModal.tsx:57 | The modal opens with `showMore` false and no effects. |
| `RolloverBudgetMonthMenuModal.MonthMenuModal.OnShowMore` | packages/desktop-client/src/components/modals/RolloverBudgetMonthMenuModal.tsx:57-61 | `showMore` flips and nothing else changes. Two presses restore it. The action menu's visibility flips with it. |
| `RolloverBudgetMonthMenuModal.MonthMenuModal.OnEditNotes` | packages/desktop-client/src/components/modals/RolloverBudgetMonthMenuModal.tsx:38-40 | "Edit notes" logs `onEditNotes(month)` when the callback was given, and nothing otherwise. |
| `RolloverBudgetMonthMenuModal.MonthMenuModal.OnMenuAction` | packages/desktop-client/src/components/modals/RolloverBudgetMonthMenuModal.tsx:157-202 | A menu callback appends exactly `ActionEffects(month, displayMonth, entry)` to the log, and nothing else changes. |

## Left out

- `TransactionList.ShowsPlaceholder` and `TransactionList.ActionBarVisible` describe the list after it has loaded. While `isLoading` is true (lines 81-93), only the spinner is rendered, whatever the sections or the selection.
- Rendering and styling are not modelled. This covers `ListBox`, `Section`/`Item`, `Popover`, `Menu`, `FloatingActionBar`, `Notes`, button styles, the loading spinner (`TransactionList.jsx:81-93`) and the `fontSize` marker on each section's last row (lines 133-136).
- `isPreviewId` is not part of this model. Every member that needs it takes it as a parameter of type `string -> bool`.
- `monthUtils.format` is not part of this model, neither for the section titles nor for the modal's display month. The display month is an opaque string.
- `useNotes` is not part of this model. The stored notes are an `Option<string>` input.
- `useSelected` (the selection store) is not part of this model. The list reads the selection as a `set<string>` of ids. `Array.from(selectedTransactions)` is the `selectedIds` sequence parameter, passed through unchanged, because the Set's iteration order is the store's. `ApplySelectAction` is the store behaviour the two press lemmas assume: `select` toggles one id and `select-none` clears all.
- `useUndo.ts` is not part of this model. An undo notification is a logged event carrying its message; the record it builds, the Undo button and the async dispatch are left out.
- `BudgetMonthMenu` is not part of this model. Its callbacks are the `MonthAction` entries.
- `Decimal.NatToString` gives plain digits for every natural number. JavaScript writes integers from 10^21 up in exponent form (`1e+21`), which is not modelled. No caller reaches that range: the values are a selection's size and a menu's month count.
- `TransactionList.Transaction`'s `isLast` is a `bool`. An input object that has no `isLast` (`undefined`) is modelled as `false`. The pass only ever sets the flag to true, so this changes nothing it does.
- `RolloverBudgetMonthMenuModal.ActionKeyword` takes `numberOfMonths` as a natural number. It does not model a fractional or negative JavaScript number, which the menu does not pass.
- The `useMemo` caching is not modelled; `BuildSections` is one run of the memo's body. Because the flags are written on the shared transaction objects, a later run starts from the flags an earlier run set.
- The open/closed state of the two popovers is not modelled, except for the "menu closes" effect after a selection.
- `onLoadMore`, `scrollProps`, `isNewTransaction` and `onSetTransfer` are not modelled. `onSetTransfer` is passed to the action bar but never called.
- `RolloverBudgetMonthMenuModal.MonthMenuModal.OnMenuAction` does not require `showMore`. The menu's callbacks are reachable only while it is rendered, but the handlers themselves do not check the flag.
