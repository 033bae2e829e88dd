# EOS wallet bot: callback handlers, modelled in Dafny

This project models the callback-query handlers of a Telegram bot that
holds EOS wallets for its users. The handlers live in
`src/handlers/callbackQueryHandler.ts`. The model covers:

- **Three database tables.** `users` holds the wallet columns of each user:
  account name, public key, encrypted private key, permission and session
  expiry. `account_orders` holds account-creation orders. `ram_orders`
  holds limit orders for RAM.
- **The shared wallet menu.** `WALLET_MENU_WITH_ACCOUNT` is one array that
  every user's wallet screen uses. The handlers mutate it in place.
- **The colon-delimited callback tokens** the bot puts on its buttons:
  `select_account:<name>:<permission>`, `authorize:<hours>:<password>` and
  `view_ram_orders[:<page>]`.
- **The parsing of the free-text replies** for a transfer
  (`<receiver>,<amount>[,<memo>]`) and for buying RAM
  (`<receiver>,<amount>`).
- **The fault reporting.** A rejected chain call whose message mentions cpu
  or net is reported with a hint appended.

The model is organised in these files:

| File | What it holds |
|---|---|
| `wrappers.dfy` | `Option`. |
| `strings.dfy` | The JavaScript string operations the handlers use, on `seq<char>`: `split`, `join`, `replace(/x/g, y)`, `toLowerCase`, `includes`, `${n}`, `parseInt` and `length` in UTF-16 code units. |
| `callbacks.dfy` | Building and splitting the callback tokens. |
| `inputs.dfy` | Transfer and buy-RAM reply parsing, amount classification, fault enrichment, and the two flows as functions of their inputs. |
| `menus.dfy` | Buttons and keyboards, the pager keyboard, and the "RAM Orders" insertion. |
| `ramorders.dfy` | The `ram_orders` queries: per-user rows, the pending count, the delete, `ORDER BY order_date DESC`, `LIMIT/OFFSET` paging and the listing lines. |
| `accounts.dfy` | The `users` row updates (import, select, activate, delete) and the `account_orders` queries and updates. |
| `bot.dfy` | Class `WalletBot`. |

The class `WalletBot` holds the three tables and the shared menu as fields.
Each handler that writes to them is a method with a `modifies` clause. Its
`Valid()` invariant states that account-order ids are distinct and below
the next id. Every method that writes a table keeps it.

The five-pending-order limit is the predicate `WithinLimit` on the RAM
order table. It is kept separate from `Valid()`, because the code as written
does not keep it (see Findings). The corrected `PlaceRamOrder` requires and
keeps it, and `ClearRamOrders` keeps it. Every other method leaves the RAM
order table alone. `PlaceRamOrderAsWritten` can break it, and any handler
can still run after it.

### How outside calls enter the model

Whatever a handler learns from outside enters as a parameter. That covers:

- the session check (`isUnlock`, `sessionLive`);
- an on-chain lookup (`onChain`, `nameTaken`);
- the key-import library (`ImportResult`);
- decryption (`decrypts`);
- the chain call (`RpcResult`);
- the clock (`now`);
- the user's next chat message (`text`, `keyText`, `password`).

### Database semantics assumed

- `runQuery` resolves to the array of result rows, and `getQuery` to the
  first matching row in table order, or undefined. The order listing reads
  `ramOrdersList.length` (lines 88-94) and handleWallets tests
  `Array.isArray(ramOrders)` (line 190), so both read `runQuery` this way.
  Under this reading the pending-count check at lines 1049-1054 never
  fires (see Findings).
- The account-order INSERT at lines 405-408 leaves `activated` at its
  default 0. The activation query (line 471) and the Delete Order query
  (line 606) rely on this.
- An `UPDATE ... WHERE user_id = ?` with no matching row changes nothing.
- A parameter that is `undefined` binds as NULL, and `col = NULL` matches no row.
- A negative `OFFSET` counts as zero, as in SQLite.

### Behaviour of the code worth knowing

- **Pending account orders.** handleCreateAccountContract inserts a new
  order without checking for a pending one, so `CreateAccountOrder` does too.
  The pending-order screens read a single row with `getQuery` (lines 620-623
  and 757-760). A second pending order is therefore never shown; only the
  first one is.
- **Activation.** The update meant to flag the order matches no row (see
  Findings).

## Model

All source paths are in `src/handlers/callbackQueryHandler.ts`.

| member | source | states |
|---|---|---|
| Strings.Split | src/handlers/callbackQueryHandler.ts:35 | `split` with one separator gives at least one piece, and no piece contains the separator. |
| Strings.Field | src/handlers/callbackQueryHandler.ts:35 | Destructuring a split result gives the piece when it exists and undefined past the end. |
| Strings.SplitWithoutSeparator | src/handlers/callbackQueryHandler.ts:35 | Text without the separator splits into itself alone. |
| Strings.SplitAtSeparator | src/handlers/callbackQueryHandler.ts:35 | The text before the first separator is the first piece, and the rest is split on. |
| Strings.JoinSplit | src/handlers/callbackQueryHandler.ts:824 | Joining the pieces of a split with the same separator gives back the original text. |
| Strings.SplitJoin | src/handlers/callbackQueryHandler.ts:824 | Splitting a join of separator-free pieces gives back the pieces. |
| Strings.ReplaceAll | src/handlers/callbackQueryHandler.ts:824 | `replace(/_/g, " ")` maps each character on its own, keeps the length, and leaves no `_` behind. |
| Strings.Lower | src/handlers/callbackQueryHandler.ts:848 | `toLowerCase` keeps the length and lower-cases each character on its own. |
| Strings.ContainsChars | src/handlers/callbackQueryHandler.ts:848 | Every character of an included string occurs in the string that includes it. |
| Strings.ContainsSuffix | src/handlers/callbackQueryHandler.ts:848 | A string includes its own suffix. |
| Strings.ContainsExtend | src/handlers/callbackQueryHandler.ts:848 | Appending text keeps every inclusion. |
| Strings.NatToString | src/handlers/callbackQueryHandler.ts:116 | `${n}` for a natural number is a non-empty string of digits. |
| Strings.DigitsValueOfNatToString | src/handlers/callbackQueryHandler.ts:116 | Reading the digits of `${n}` gives back n. |
| Strings.Join | src/handlers/callbackQueryHandler.ts:824 | `join` starts with the first piece, follows it with the separator when there is a second piece, and joins an empty list to "". |
| Strings.Contains | src/handlers/callbackQueryHandler.ts:848 | `includes` finds only strings no longer than the text, and always finds the empty string. |
| Strings.ContainsPrepend | src/handlers/callbackQueryHandler.ts:855 | Putting text in front keeps every inclusion. |
| Strings.IntToString | src/handlers/callbackQueryHandler.ts:116 | `${n}` is non-empty, starts with `-` exactly for a negative n, and is otherwise all digits. |
| Strings.ParseInt | src/handlers/callbackQueryHandler.ts:73 | `parseInt` is NaN for "" and for text that starts with neither a digit nor a sign. Text that starts with a digit gives a non-negative number, and only a leading `-` gives a negative one. |
| Strings.DigitPrefix | src/handlers/callbackQueryHandler.ts:73 | `parseInt` reads the longest run of leading digits. |
| Strings.ParseIntOfIntToString | src/handlers/callbackQueryHandler.ts:73 | `parseInt` reads back every integer written as `${n}`, negative ones included. |
| Strings.Utf16Length | src/handlers/callbackQueryHandler.ts:308 | `length` counts UTF-16 code units: between one and two per character, and one each when there is no astral character. |
| Callbacks.SelectAccountData | src/handlers/callbackQueryHandler.ts:351 | The token starts with `select_account:`. |
| Callbacks.ParseSelectAccount | src/handlers/callbackQueryHandler.ts:35 | The pieces bound contain no colon. A permission is bound only together with an account. Data without a colon binds neither. |
| Callbacks.SelectAccountRoundTrip | src/handlers/callbackQueryHandler.ts:351 | Splitting a select token (built at 351, split at 35) gives back the account and permission it was built from, when neither has a colon. |
| Callbacks.AuthorizeData | src/handlers/callbackQueryHandler.ts:552-559 | Every duration token starts with `authorize:`. |
| Callbacks.ParseAuthorizeAsWritten | src/handlers/callbackQueryHandler.ts:577 | As written, the password bound never contains a colon, and it is bound only together with a duration. |
| Callbacks.ParseAuthorize | src/handlers/callbackQueryHandler.ts:577 | The corrected parse binds a password only together with a duration. The duration has no colon. Data without a colon binds neither. |
| Callbacks.AuthorizeAsWrittenRoundTrip | src/handlers/callbackQueryHandler.ts:577 | The three-piece split of an authorize token gives back the hours and a password that has no colon. |
| Callbacks.AuthorizeAsWrittenTruncates | src/handlers/callbackQueryHandler.ts:552-559 | A password with a colon comes back cut at the colon, so it differs from the password that was checked. |
| Callbacks.AuthorizeRoundTrip | src/handlers/callbackQueryHandler.ts:577 | Taking everything after the second colon gives back the hours and the exact password, for every password. |
| Callbacks.ParseAuthorizeAgrees | src/handlers/callbackQueryHandler.ts:577 | For a password without a colon, the corrected parse and the parse as written agree. |
| Callbacks.PageData | src/handlers/callbackQueryHandler.ts:112-127 | The Previous and Next tokens start with `view_ram_orders:`. |
| Callbacks.ParsePage | src/handlers/callbackQueryHandler.ts:73 | `parseInt(piece) \|\| 1` never yields page 0: a missing piece, a piece that does not parse (NaN) and a zero piece each give page 1. Any other parsed number is the page. |
| Callbacks.ParsePageData | src/handlers/callbackQueryHandler.ts:112-127 | A Previous or Next token opens the page it names; the only exception is page 0, which opens page 1. |
| Callbacks.ParsePageBareTag | src/handlers/callbackQueryHandler.ts:196 | The bare `view_ram_orders` button opens page 1. |
| Inputs.ParseTransfer | src/handlers/callbackQueryHandler.ts:823-824 | The recipient and amount have no comma. The memo has no `_`. The memo is "" when there are at most two pieces. |
| Inputs.TransferWithMemo | src/handlers/callbackQueryHandler.ts:823-824 | `r,a,m` gives recipient r, amount a, and memo m with every `_` turned into a space; commas inside the memo survive. |
| Inputs.TransferWithoutMemo | src/handlers/callbackQueryHandler.ts:823-824 | `r,a` gives an empty memo. |
| Inputs.TransferWithoutAmount | src/handlers/callbackQueryHandler.ts:823 | A reply without a comma has an undefined amount. |
| Inputs.ResourceHint | src/handlers/callbackQueryHandler.ts:855 | The appended hint includes the account name. |
| Inputs.ErrorMessage | src/handlers/callbackQueryHandler.ts:845-858 | A thrown non-Error is reported as "Unknown error". An Error's message is kept as a prefix. It changes exactly for a resource fault, and then names the account. |
| Inputs.EnrichFault | src/handlers/callbackQueryHandler.ts:847-857 | The message changes if and only if its lower-cased form includes cpu or net, and then it includes the account name. The original message stays a prefix. |
| Inputs.ResourceFaultIgnoresCase | src/handlers/callbackQueryHandler.ts:847-850 | Messages containing CPU in upper case, or net, count as resource faults. |
| Inputs.TransferFlow | src/handlers/callbackQueryHandler.ts:787-865 | A locked session stops before the prompt, and a missing or empty reply stops there. Otherwise the split reply is transferred exactly when the chain call is confirmed, with the call's transaction id. A failure reports the catch block's error message for that call. |
| Inputs.ClassifyAmount | src/handlers/callbackQueryHandler.ts:905-943 | The bytes path is taken if and only if the lower-cased amount includes bytes, kb, mb or gb. The EOS path is taken if and only if none of those is present and eos is. |
| Inputs.ByteUnitsClassified | src/handlers/callbackQueryHandler.ts:905-910 | Any amount ending in bytes, kb, mb or gb, in any case, takes the bytes path. |
| Inputs.HasByteUnit | src/handlers/callbackQueryHandler.ts:905-910 | Every byte unit contains a `b`, so text without one has none. |
| Inputs.EosAmountClassified | src/handlers/callbackQueryHandler.ts:924 | A numeral followed by eos, in any case, takes the EOS path. |
| Inputs.BareNumeralInvalid | src/handlers/callbackQueryHandler.ts:938-943 | A numeral without a unit is an invalid format. |
| Inputs.BuyRamReply | src/handlers/callbackQueryHandler.ts:901-943 | A reply without an amount fails with the catch block's report of the TypeError from `undefined.toLowerCase()`. An unclassified amount is refused without a chain call. A bought outcome carries the recipient, the amount, its class and the call's transaction id. A failed call reports the catch block's error message. |
| Inputs.BuyRamFlow | src/handlers/callbackQueryHandler.ts:873-899 | A locked session stops before the prompt, and a missing or empty reply stops there. Otherwise the reply is split on commas and handled as BuyRamReply states. |
| Menus.PagerKeyboard | src/handlers/callbackQueryHandler.ts:108-132 | Clear Orders is first and Wallet last. Previous is present if and only if page > 1. Next is present if and only if page < the total number of pages. |
| Menus.CountDataPositive | src/handlers/callbackQueryHandler.ts:191-193 | The nested `some` finds a button if and only if at least one button carries the data. |
| Menus.WithRamOrdersButton | src/handlers/callbackQueryHandler.ts:189-199 | Afterwards the menu opens the orders. A menu that already has such a button is returned unchanged. It is only extended at the front, by at most one row. A menu with no such button gets exactly one. |
| Menus.RamOrdersInsertionIdempotent | src/handlers/callbackQueryHandler.ts:189-199 | Inserting twice is the same as inserting once. |
| RamOrders.UserOrders | src/handlers/callbackQueryHandler.ts:185-188 | `WHERE user_id = u` keeps every row of the user and no other row. |
| RamOrders.PendingCount | src/handlers/callbackQueryHandler.ts:1049-1052 | The pending count is zero exactly when the user has no pending row. |
| RamOrders.PendingCountBound | src/handlers/callbackQueryHandler.ts:1049-1052 | The pending count is at most the number of the user's orders. |
| RamOrders.AppendOrder | src/handlers/callbackQueryHandler.ts:1062-1065 | An insert changes only its own user's rows and pending count, by exactly that row. |
| RamOrders.SixthPendingOrder | src/handlers/callbackQueryHandler.ts:1049-1065 | An insert that skips the limit check takes a user with five pending orders to six. |
| RamOrders.WithoutUser | src/handlers/callbackQueryHandler.ts:1148 | After the delete, no row of the user is left. |
| RamOrders.WithoutUserQueries | src/handlers/callbackQueryHandler.ts:1148 | After the delete the user has no orders and no pending ones. Every other user keeps exactly their rows and their pending count. |
| RamOrders.InsertByDate | src/handlers/callbackQueryHandler.ts:77 | Inserting into a newest-first list keeps it newest first and adds exactly that row, as a multiset. |
| RamOrders.NewestFirstOrder | src/handlers/callbackQueryHandler.ts:77 | `ORDER BY order_date DESC` gives a newest-first permutation of the rows. |
| RamOrders.Offset | src/handlers/callbackQueryHandler.ts:74 | `(page - 1) * 5` is a multiple of 5, and negative exactly before page 1. |
| RamOrders.TotalPages | src/handlers/callbackQueryHandler.ts:86 | There are never more pages than orders, and at least one when there is an order. |
| RamOrders.TotalPagesIsCeiling | src/handlers/callbackQueryHandler.ts:86 | `Math.ceil(count / 5)` is the least number of five-row pages that hold every order, and it is zero exactly when there are none. |
| RamOrders.PageOf | src/handlers/callbackQueryHandler.ts:74-79 | From page 1 on, `LIMIT 5 OFFSET (page-1)*5` is the run of at most five rows starting at the offset. |
| RamOrders.OrderOnItsPage | src/handlers/callbackQueryHandler.ts:74-79 | Order k (counting from 0, newest first) is entry k % 5 of page k / 5 + 1, and that page exists. |
| RamOrders.ShownBelowTotal | src/handlers/callbackQueryHandler.ts:88-90 | From page 1 on, the header's `offset + length` is below the total exactly when a Next page exists. Up to the last page it equals min(page*5, total). |
| RamOrders.OrderBlock | src/handlers/callbackQueryHandler.ts:96-102 | An order's block is its order line, then a transaction or failure line unless it is pending, then a blank line. No other line of the block names an order. |
| RamOrders.ListedOrdersOfBlock | src/handlers/callbackQueryHandler.ts:96-102 | The block for one order names that order alone, whatever its status. |
| RamOrders.ListedOrdersOfBlocks | src/handlers/callbackQueryHandler.ts:95-103 | The listing names exactly the page's orders, in page order. |
| Accounts.ImportedRow | src/handlers/callbackQueryHandler.ts:320-347 | The key pair is always written. With exactly one account, that account's name and permission are written; with any other number, the placeholder is written in both columns. The session column is kept. A placeholder row counts as a wallet. |
| Accounts.SelectedRow | src/handlers/callbackQueryHandler.ts:45-48 | The account and permission columns take the token's pieces, NULL where a piece is missing. The keys and the session stay, and the row is a wallet exactly when the token named an account. |
| Accounts.SelectButtons | src/handlers/callbackQueryHandler.ts:348-353 | One single-button row per account, in order, each carrying that account's select token. |
| Accounts.ImportThenSelect | src/handlers/callbackQueryHandler.ts:343-353 | A multi-account import followed by pressing button i leaves the row exactly as a single-account import of account i would. |
| Accounts.BareSelectTokenDropsWallet | src/handlers/callbackQueryHandler.ts:35-48 | A token without pieces NULLs the account, so the user no longer has a wallet. |
| Accounts.ActivatedRow | src/handlers/callbackQueryHandler.ts:478-481 | The row takes the order's name, public key and encrypted key, with permission `active`. The session column is kept. |
| Accounts.ClearedRow | src/handlers/callbackQueryHandler.ts:988-991 | All four wallet columns become NULL, so the row is not a wallet. The session column is kept. |
| Accounts.ClearedRowForgetsWallet | src/handlers/callbackQueryHandler.ts:985-991 | Deleting the account after an import, a selection or an activation leaves the row as deleting it straight away would. |
| Accounts.FirstMatch | src/handlers/callbackQueryHandler.ts:470-473 | `getQuery` returns the first matching row: it matches, no earlier row matches, and None only when no row matches. |
| Accounts.PendingOrders | src/handlers/callbackQueryHandler.ts:470-474 | The user's pending-order count is zero exactly when none of their orders is unactivated. |
| Accounts.PendingOrdersPositive | src/handlers/callbackQueryHandler.ts:470-474 | The user has an unactivated order exactly when the activation query finds one. |
| Accounts.PendingOrdersAppend | src/handlers/callbackQueryHandler.ts:405-408 | An insert adds one pending order for its own user and none for anybody else. |
| Accounts.WithoutPending | src/handlers/callbackQueryHandler.ts:605-608 | After the delete, no unactivated order of the user is left, and every row left was there before. |
| Accounts.WithoutPendingKeeps | src/handlers/callbackQueryHandler.ts:606 | The delete keeps every activated order and every other user's order. |
| Accounts.WithoutPendingDistinct | src/handlers/callbackQueryHandler.ts:606 | The delete keeps order ids distinct. |
| Accounts.MarkActivated | src/handlers/callbackQueryHandler.ts:482-485 | The update keeps the number of rows, their ids and their users. |
| Accounts.MarkActivatedAbsent | src/handlers/callbackQueryHandler.ts:482-485 | An update keyed by an id no row has changes nothing. |
| Accounts.ActivationByNullKeepsOrderPending | src/handlers/callbackQueryHandler.ts:482-485 | As written, the update is keyed by an undefined id. The order table is unchanged and the same order stays the user's pending one. |
| Accounts.MarkActivatedConsumes | src/handlers/callbackQueryHandler.ts:482-485 | Keyed by the order's own id, the update flags that order only, and the user has exactly one fewer pending order. |
| Bot.OrderLines | src/handlers/callbackQueryHandler.ts:95-103 | The `forEach` loop builds one block per order, and the lines name exactly the page's orders. |
| Bot.PagerRows | src/handlers/callbackQueryHandler.ts:108-132 | The `unshift` sequence builds exactly the pager keyboard. |
| Bot.WalletBot.PlaceRamOrder | src/handlers/callbackQueryHandler.ts:1019-1065 | Corrected limit check. Locked sessions, missing text and five pending orders each write nothing. Otherwise one pending order for the user is appended, dated now, with the receiver before the first comma. The pending count rises by exactly 1, other users are untouched, and the five-order limit (`WithinLimit`) is kept. |
| Bot.WalletBot.PlaceRamOrderAsWritten | src/handlers/callbackQueryHandler.ts:1019-1065 | As written, the limit is never reached. Every unlocked reply with text appends one pending order for the user, and their pending count rises by 1. |
| Bot.WalletBot.ClearRamOrders | src/handlers/callbackQueryHandler.ts:1145-1148 | Every order of the user goes, whatever its status, and a later listing totals 0. Every other user keeps their orders and pending count, so the five-order limit is kept. |
| Bot.WalletBot.ListRamOrders | src/handlers/callbackQueryHandler.ts:72-132 | The page is the `(page-1)*5` slice of the user's newest-first orders. The header shows offset + page length of the user's total. The lines name exactly the page's orders, or "No RAM orders found." The keyboard is the pager keyboard. |
| Bot.WalletBot.RamOrderPage | src/handlers/callbackQueryHandler.ts:69-74 | The page comes from the token and is never 0. The listing is the blocks of exactly that page of the user's newest-first orders, or says there are none. The keyboard is the pager for that page. |
| Bot.WalletBot.ViewRamOrders | src/handlers/callbackQueryHandler.ts:1074-1137 | Page 1 is the blocks of the user's five newest orders, or of all of them when there are fewer. The keyboard is the pager for page 1: Clear first and Wallet last, no Previous button, and a Next button exactly when there are more than five orders. |
| Bot.WalletBot.CreateAccountOrder | src/handlers/callbackQueryHandler.ts:393-408 | A taken name writes nothing. Otherwise one unactivated order with the key pair is appended, even if another is pending: that user's pending count rises by 1 and other users are unchanged. |
| Bot.WalletBot.FindActivation | src/handlers/callbackQueryHandler.ts:470-477 | Finds the first unactivated order. It is activated exactly when that order's account is on chain. |
| Bot.WalletBot.ActivateAccountAsWritten | src/handlers/callbackQueryHandler.ts:470-517 | Activation happens exactly when the user's first unactivated order has its account on chain. The user row then takes the order's name, keys and `active`, but the order table and the pending order stay as they were. An order off chain is reported by its name. Otherwise nothing changes. |
| Bot.WalletBot.ActivateAccount | src/handlers/callbackQueryHandler.ts:470-517 | Activation happens exactly when the user's first unactivated order has its account on chain. The user row is written as above, and the order is flagged: every other row stays, and the user has exactly one fewer pending order. Otherwise neither table changes. |
| Bot.WalletBot.PendingAccountOrder | src/handlers/callbackQueryHandler.ts:616-645 | The pending-order screen shows the user's first unactivated order. It shows nothing exactly when the user has no unactivated order. |
| Bot.WalletBot.DeleteAccountOrders | src/handlers/callbackQueryHandler.ts:602-608 | The user's unactivated orders go, and activated orders and other users' orders stay. |
| Bot.WalletBot.ConfirmDeleteAccount | src/handlers/callbackQueryHandler.ts:985-991 | The four wallet columns become NULL, so the user no longer has a wallet. A user without a row is left alone. |
| Bot.WalletBot.ImportAccount | src/handlers/callbackQueryHandler.ts:288-372 | No key text means nothing happens. A short or missing password is warned about, but the import goes on. A rejected key writes nothing. An accepted key writes the imported row (the one account's name and permission, or the placeholder) and replies with the one account or with one select button per account. |
| Bot.WalletBot.SelectAccount | src/handlers/callbackQueryHandler.ts:32-66 | Without a row it fails and writes nothing. Otherwise the row takes the split token's account and permission, NULL where a piece is missing, and keeps its keys. |
| Bot.WalletBot.OfferRamOrders | src/handlers/callbackQueryHandler.ts:185-199 | A user with RAM orders gets the RAM Orders row put in front of the shared menu, unless one is already there. |
| Bot.WalletBot.Wallets | src/handlers/callbackQueryHandler.ts:141-283 | The screen shown depends on whether the user has a wallet, a live session and orders, and on their first account order. The shared menu is changed for every user. Once any user has been shown RAM Orders, it stays for everyone. |
| Bot.WalletBot.UnlockWallet | src/handlers/callbackQueryHandler.ts:217-257 | A wrong password gives the start menu. A right one gives the shared menu, with the same RAM Orders insertion. |

## Left out

- **Telegram transport.** Sending, editing and deleting messages, and the HTML and Markdown text of every message, are input/output the model does not need.
- **`bot.once` prompt chaining.** Each prompt's reply is a parameter of the operation that handles it. Which listener receives a message is library behaviour that is not shown here.
- **Chain and crypto helpers as parameters.** `importEosAccount`, `checkEosAccountExists`, `generateEosAccountName`, `generateEosKeyPair`, `encrypt`, `decrypt`, `isSessionActive`, `getSessionExpirationTime`, `getSessionPrivateKey`, `transferEos`, `buyRam` and `buyRamBytes` are code the model cannot see. Their results are parameters.
- **Display only.** `getEosRamPrice`, `getEosBalance` and the expiry text are display only.
- **`authorizeUser`.** The session it creates is not modelled, so neither is `Number(duration)` in handleConfirmAuthorization. The token split is modelled in `Callbacks`.
- **`convertToBytes` and `parseFloat`.** These are floating point and code not shown, so the byte count and price of a RAM order are parameters. A reply without a comma passes undefined to `convertToBytes`; what that helper then does is not part of this model.
- **`src/db.ts`.** It is not part of this model. How `runQuery` and `getQuery` resolve is the reading stated under "Database semantics assumed".
- **The single-row fallback.** Under that reading, `Array.isArray(ramOrdersList) ? ... : [ramOrdersList]` always takes the array branch, so the other branch is not modelled.
- RamOrders.NewestFirstOrder: rows with equal `order_date` keep table order. SQL leaves their order open, so the model fixes one of the allowed answers.
- Strings.Lower: only ASCII letters and the Kelvin sign are lower-cased. Those are the only characters whose lower case is an ASCII letter and that keep the length. The markers searched for are ASCII, but characters whose lower case is longer are not modelled.
- Strings.ParseInt: leading white space and `0x` prefixes are not modelled. Page tokens come from the bot's own buttons.
- Inputs.EnrichFault: the account name is taken as the string the catch block reads. A missing users row in the catch block would throw a second error, and that is not modelled.
- Bot.WalletBot.CreateAccountOrder: errors thrown by the name generator or by `encrypt` are not modelled. Such errors write nothing and only change the reply.
- Bot.WalletBot.Wallets: whether the session is live (`timestamp > now` and a session key exists) is the parameter `sessionLive`. The unlock screen's `authorizeUser` call is not modelled.
- **Handlers that only send messages, and handleProfile.** handleProfile (floating point unit formatting) is left out. handleAccountOrders is left out because it reads an `orders` table that is not in the schema. handleViewAccountOrders and handleAccountOrderStatus run the same query, so `PendingAccountOrder` covers both; their message texts are not modelled. handleAuthorizeUser's prompt, handleDeleteAccount's confirmation prompt and handleClose only send messages. The six `authorize` tokens are covered by `Callbacks.AuthorizeData`.
- **`src/types.ts`.** It has only types and a list of constants, with no behaviour.
- **The pending limit under other writers.** The `WithinLimit` limit assumes no other writer changes order statuses or inserts orders. The order executor is not part of this model.

## Findings

| source | as written | input that shows it | evidently intended | confidence | as-written member | corrected member |
|---|---|---|---|---|---|---|
| src/handlers/callbackQueryHandler.ts:470-485 | The activation query selects only the name and keys. The flag update is then bound to `order.order_id`, which is undefined, so it runs `WHERE order_id = NULL` and matches no row. | A user with one unactivated order whose account exists on chain presses Activate. The users row is updated, but the order stays `activated = 0`. It is still found by the next activation, listed as pending and removed by Delete Order. | The order just promoted is flagged activated, so the user has one pending order fewer. | not executed; relies on an undefined parameter binding as NULL (`src/db.ts` is not part of this model) | Accounts.ActivationByNullKeepsOrderPending | Accounts.MarkActivatedConsumes |
| src/handlers/callbackQueryHandler.ts:1049-1054 | The pending count is read from `runQuery`, which resolves to an array of rows. `existingOrders.order_count` is then undefined, and `undefined >= 5` is false. | A user with five pending orders sends a sixth order. It is inserted, and the user has six pending orders. | At most five pending orders per user. | not executed; relies on `runQuery` resolving to an array, as lines 88-94 and 190 read it (`src/db.ts` is not part of this model) | RamOrders.SixthPendingOrder | Bot.WalletBot.PlaceRamOrder |
| src/handlers/callbackQueryHandler.ts:552-559 | The duration buttons carry `authorize:<hours>:<password>`. handleConfirmAuthorization keeps only the third `:` piece as the password (line 577). | The password `secret:12` was accepted by the decrypt check, but the authorization is requested with `secret`. | The password that was checked is the one used to authorize. | not executed | Callbacks.AuthorizeAsWrittenTruncates | Callbacks.AuthorizeRoundTrip |

The as-written RAM order method is `Bot.WalletBot.PlaceRamOrderAsWritten`.
The corrected `Bot.WalletBot.PlaceRamOrder` reads the count from the row the
query returns, and keeps the five-order limit `WithinLimit`.

The as-written activation is `Bot.WalletBot.ActivateAccountAsWritten`. The
corrected one, `Bot.WalletBot.ActivateAccount`, is the one the rest of the
model relies on for its pending-order count. The corrected token split is
`Callbacks.ParseAuthorize`.
