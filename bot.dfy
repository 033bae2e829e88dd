/**
 * The wallet bot's callback handlers as operations on its three tables
 * (`users`, `account_orders`, `ram_orders`) and on the wallet menu that all
 * users share. What the handlers learn from the chain, from the clock or
 * from the user's next message arrives as a parameter.
 */
module Bot {
  import opened Wrappers
  import opened Strings
  import opened Callbacks
  import opened Menus
  import opened Inputs
  import opened RamOrders
  import opened Accounts

  /** What the RAM order prompt ends in. */
  datatype RamOrderOutcome =
    | OrderLocked                 // "Unlock Wallet then buy RAM."
    | OrderNoText                 // "Please provide the RAM order details."
    | LimitReached                // "You have reached the maximum limit of 5 pending RAM orders."
    | OrderPlaced(order: RamOrder)

  /** One page of the order listing: the header figures, the lines and the keyboard. */
  datatype Listing = Listing(shown: int, total: nat, lines: seq<Line>, keyboard: Keyboard)

  /** What the account-creation prompt ends in. */
  datatype CreateOutcome = NameTaken | OrderCreated(order: AccountOrder)

  /** What the activate button ends in. */
  datatype ActivationOutcome =
    | NoPendingOrder                 // "No pending orders found."
    | NotOnChain(accountName: string)  // "Account activation failed. ..."
    | Activated(order: AccountOrder)

  /** What the key import library reports: the key's public half, the encrypted key and its accounts, or its error. */
  datatype ImportResult =
    | KeyImported(publicKey: string, encryptedKey: string, accounts: seq<ChainPermission>)
    | ImportRejected(message: string)

  /** What the import conversation ends in; `passwordWarned` is the "Invalid password" message sent on the way. */
  datatype ImportOutcome =
    | NoKeyGiven
    | ImportFailed(passwordWarned: bool, message: string)
    | ImportedAccount(passwordWarned: bool, account: ChainPermission)
    | ChooseAccount(passwordWarned: bool, keyboard: Keyboard)

  /** What a select button ends in. */
  datatype SelectOutcome = SelectFailed | AccountSelected(selection: Selection)

  /** The screen the Wallet button opens. */
  datatype WalletView =
    | AccountMenu(keyboard: Keyboard)
    | AskUnlockPassword
    | OngoingOrder(accountName: string)
    | NoAccountMenu

  /** The screen after the unlock password. */
  datatype UnlockView = IncorrectPassword | UnlockedMenu(keyboard: Keyboard)

  /** The shortest encryption password the import prompt asks for. */
  const MinPasswordLength := 8

  /** `session_expiration` read in a JavaScript condition: NULL and 0 are falsy. */
  predicate SessionSet(row: UserRow)
  {
    row.sessionExpiration.Some? && row.sessionExpiration.value != 0
  }

  /**
   * The listing text of some orders, built block by block in order: each
   * order's line, its transaction id or failure reason, and a blank line.
   * The lines name exactly those orders.
   */
  method OrderLines(os: seq<RamOrder>) returns (lines: seq<Line>)
    ensures lines == Blocks(os)
    ensures ListedOrders(lines) == os
  {
    lines := [];
    var i := 0;
    while i < |os|
      invariant 0 <= i <= |os|
      invariant lines == Blocks(os[..i])
    {
      var o := os[i];
      var before := lines;
      lines := lines + [OrderLine(o)];
      var extra: seq<Line> := [];
      match o.status {
        case Success(id) =>
          lines := lines + [TransactionLine(id)];
          extra := [TransactionLine(id)];
        case Failed(reason) =>
          lines := lines + [FailureLine(reason)];
          extra := [FailureLine(reason)];
        case Pending =>
      }
      lines := lines + [BlankLine];
      assert lines == before + ([OrderLine(o)] + extra + [BlankLine]);
      assert os[..i + 1][..i] == os[..i];
      i := i + 1;
    }
    assert os[..|os|] == os;
    ListedOrdersOfBlocks(os);
  }

  /**
   * The pager keyboard as the listing builds it: the Wallet row, then
   * Previous, Next and Clear Orders each put in front when they apply.
   */
  method PagerRows(page: int, totalPages: int) returns (keyboard: Keyboard)
    ensures keyboard == PagerKeyboard(page, totalPages)
  {
    keyboard := [[WalletButton]];
    if page > 1 {
      keyboard := [[PreviousButton(page)]] + keyboard;
    }
    if page < totalPages {
      keyboard := [[NextButton(page)]] + keyboard;
    }
    keyboard := [[ClearOrdersButton]] + keyboard;
  }

  class WalletBot {
    /** `users`, by `user_id`. */
    var users: map<UserId, UserRow>
    /** `account_orders` in table order. */
    var accountOrders: seq<AccountOrder>
    /** `ram_orders` in table order. */
    var ramOrders: seq<RamOrder>
    /** The one `WALLET_MENU_WITH_ACCOUNT` array every user's wallet screen shows. */
    var walletMenu: Keyboard
    /** The next `order_id` of each order table. */
    var nextAccountOrderId: nat
    var nextRamOrderId: nat

    /** Account order ids are distinct and below the next one. */
    ghost predicate Valid()
      reads this
    {
      IdsBelow(accountOrders, nextAccountOrderId) && DistinctIds(accountOrders)
    }

    /** The bot with the given users, empty order tables and the given wallet menu. */
    constructor(initialUsers: map<UserId, UserRow>, menu: Keyboard)
      ensures Valid()
      ensures users == initialUsers && accountOrders == [] && ramOrders == [] && walletMenu == menu
    {
      users := initialUsers;
      accountOrders := [];
      ramOrders := [];
      walletMenu := menu;
      nextAccountOrderId := 0;
      nextRamOrderId := 0;
    }

    // -------------------------------------------------------------------------
    // RAM orders

    /**
     * The RAM order prompt: nothing without a live session or without text;
     * the receiver is the text before the first comma. A user with the
     * maximum of pending orders gets no new one; otherwise exactly one pending
     * order of that user is inserted, dated `now`, and no other user's orders
     * change.
     */
    method PlaceRamOrder(u: UserId, isUnlock: bool, text: Option<string>, ramBytes: int, pricePerKb: real, now: nat)
      returns (outcome: RamOrderOutcome)
      requires Valid() && WithinLimit(ramOrders)
      modifies this
      ensures Valid() && WithinLimit(ramOrders)
      ensures outcome.OrderLocked? <==> !isUnlock
      ensures outcome.OrderNoText? <==> isUnlock && !HasText(text)
      ensures outcome.LimitReached? <==> isUnlock && HasText(text) && old(PendingCount(ramOrders, u)) >= MaxPending
      ensures !outcome.OrderPlaced? ==> ramOrders == old(ramOrders)
      ensures outcome.OrderPlaced? ==>
                text.Some? && ramOrders == old(ramOrders) + [outcome.order]
                && outcome.order == RamOrder(old(nextRamOrderId), u, Split(text.value, ',')[0], ramBytes, pricePerKb, Pending, now)
      ensures outcome.OrderPlaced? ==>
                PendingCount(ramOrders, u) == old(PendingCount(ramOrders, u)) + 1
                && UserOrders(ramOrders, u) == old(UserOrders(ramOrders, u)) + [outcome.order]
      ensures forall v :: v != u ==>
                UserOrders(ramOrders, v) == old(UserOrders(ramOrders, v))
                && PendingCount(ramOrders, v) == old(PendingCount(ramOrders, v))
      ensures users == old(users) && accountOrders == old(accountOrders) && walletMenu == old(walletMenu)
      ensures nextAccountOrderId == old(nextAccountOrderId)
    {
      if !isUnlock {
        return OrderLocked;
      }
      if !HasText(text) {
        return OrderNoText;
      }
      var receiver := Split(text.value, ',')[0];
      var existingOrders := PendingCount(ramOrders, u);
      if existingOrders >= MaxPending {
        return LimitReached;
      }
      var o := RamOrder(nextRamOrderId, u, receiver, ramBytes, pricePerKb, Pending, now);
      AppendOrderEveryUser(ramOrders, o);
      AppendKeepsLimit(ramOrders, o);
      ramOrders := ramOrders + [o];
      nextRamOrderId := nextRamOrderId + 1;
      outcome := OrderPlaced(o);
    }

    /**
     * The RAM order prompt as the handler writes it. The pending count comes
     * from `runQuery`, which resolves to an array of rows, so
     * `existingOrders.order_count` is undefined and `undefined >= 5` is
     * false: the limit never applies, and every unlocked reply with text
     * inserts one more pending order.
     */
    method PlaceRamOrderAsWritten(u: UserId, isUnlock: bool, text: Option<string>, ramBytes: int, pricePerKb: real, now: nat)
      returns (outcome: RamOrderOutcome)
      requires Valid()
      modifies this
      ensures Valid()
      ensures !outcome.LimitReached?
      ensures outcome.OrderLocked? <==> !isUnlock
      ensures outcome.OrderPlaced? <==> isUnlock && HasText(text)
      ensures !outcome.OrderPlaced? ==> ramOrders == old(ramOrders)
      ensures outcome.OrderPlaced? ==>
                text.Some? && ramOrders == old(ramOrders) + [outcome.order]
                && outcome.order == RamOrder(old(nextRamOrderId), u, Split(text.value, ',')[0], ramBytes, pricePerKb, Pending, now)
                && PendingCount(ramOrders, u) == old(PendingCount(ramOrders, u)) + 1
      ensures users == old(users) && accountOrders == old(accountOrders) && walletMenu == old(walletMenu)
      ensures nextAccountOrderId == old(nextAccountOrderId)
    {
      if !isUnlock {
        return OrderLocked;
      }
      if !HasText(text) {
        return OrderNoText;
      }
      var receiver := Split(text.value, ',')[0];
      var o := RamOrder(nextRamOrderId, u, receiver, ramBytes, pricePerKb, Pending, now);
      AppendOrder(ramOrders, o, u);
      ramOrders := ramOrders + [o];
      nextRamOrderId := nextRamOrderId + 1;
      outcome := OrderPlaced(o);
    }

    /** Clear Orders: every order of the user goes, whatever its status; every other user keeps theirs. */
    method ClearRamOrders(u: UserId)
      requires Valid()
      modifies this
      ensures Valid()
      ensures old(WithinLimit(ramOrders)) ==> WithinLimit(ramOrders)
      ensures ramOrders == WithoutUser(old(ramOrders), u)
      ensures UserOrders(ramOrders, u) == [] && PendingCount(ramOrders, u) == 0
      ensures forall v :: v != u ==>
                UserOrders(ramOrders, v) == old(UserOrders(ramOrders, v))
                && PendingCount(ramOrders, v) == old(PendingCount(ramOrders, v))
      ensures users == old(users) && accountOrders == old(accountOrders) && walletMenu == old(walletMenu)
      ensures nextAccountOrderId == old(nextAccountOrderId) && nextRamOrderId == old(nextRamOrderId)
    {
      WithoutUserEveryUser(ramOrders, u);
      ramOrders := WithoutUser(ramOrders, u);
    }

    /**
     * One page of the user's orders, newest first: the header's figures
     * `offset + page length` and the user's total, one block of lines per
     * order (or the "no orders" line), and the pager keyboard built by
     * putting rows in front of the Wallet row.
     */
    method ListRamOrders(u: UserId, page: int) returns (listing: Listing)
      ensures listing.total == |UserOrders(ramOrders, u)|
      ensures listing.shown == Offset(page) + |PageOf(NewestFirstOrder(UserOrders(ramOrders, u)), page)|
      ensures var shownOrders := PageOf(NewestFirstOrder(UserOrders(ramOrders, u)), page);
                if |shownOrders| == 0 then listing.lines == [NoOrdersLine]
                else listing.lines == Blocks(shownOrders) && ListedOrders(listing.lines) == shownOrders
      ensures listing.keyboard == PagerKeyboard(page, TotalPages(listing.total))
    {
      var mine := UserOrders(ramOrders, u);
      var shownOrders := PageOf(NewestFirstOrder(mine), page);
      var total := |mine|;
      var lines: seq<Line>;
      if |shownOrders| > 0 {
        lines := OrderLines(shownOrders);
      } else {
        lines := [NoOrdersLine];
      }
      var keyboard := PagerRows(page, TotalPages(total));
      listing := Listing(Offset(page) + |shownOrders|, total, lines, keyboard);
    }

    /** A Previous / Next press: the page after the colon, 1 when it is missing, not a number or 0. */
    method RamOrderPage(u: UserId, data: string) returns (page: int, listing: Listing)
      ensures page == ParsePage(data) && page != 0
      ensures listing.total == |UserOrders(ramOrders, u)|
      ensures listing.shown == Offset(page) + |PageOf(NewestFirstOrder(UserOrders(ramOrders, u)), page)|
      ensures var shownOrders := PageOf(NewestFirstOrder(UserOrders(ramOrders, u)), page);
                if |shownOrders| == 0 then listing.lines == [NoOrdersLine]
                else listing.lines == Blocks(shownOrders) && ListedOrders(listing.lines) == shownOrders
      ensures listing.keyboard == PagerKeyboard(page, TotalPages(listing.total))
    {
      page := ParsePage(data);
      listing := ListRamOrders(u, page);
    }

    /**
     * The RAM Orders button: always page 1, so the user's five newest orders
     * (or all of them), no Previous button, and Next exactly when there are
     * more.
     */
    method ViewRamOrders(u: UserId) returns (listing: Listing)
      ensures listing.total == |UserOrders(ramOrders, u)|
      ensures listing.shown == Min(PageSize, listing.total)
      ensures var newest := NewestFirstOrder(UserOrders(ramOrders, u));
                if listing.total == 0 then listing.lines == [NoOrdersLine]
                else listing.lines == Blocks(newest[..Min(PageSize, listing.total)])
                     && ListedOrders(listing.lines) == newest[..Min(PageSize, listing.total)]
      ensures listing.keyboard == PagerKeyboard(1, TotalPages(listing.total))
      ensures [PreviousButton(1)] !in listing.keyboard
      ensures [NextButton(1)] in listing.keyboard <==> listing.total > PageSize
    {
      listing := ListRamOrders(u, 1);
      ShownBelowTotal(NewestFirstOrder(UserOrders(ramOrders, u)), 1);
      TotalPagesIsCeiling(listing.total);
    }

    // -------------------------------------------------------------------------
    // account orders

    /**
     * The account-creation prompt: a generated name already taken on chain
     * writes nothing; otherwise one unactivated order with the new key pair
     * is inserted. Nothing stops a second order while one is pending.
     */
    method CreateAccountOrder(u: UserId, accountName: string, nameTaken: bool, publicKey: string, encryptedKey: string)
      returns (outcome: CreateOutcome)
      requires Valid()
      modifies this
      ensures Valid()
      ensures outcome.NameTaken? <==> nameTaken
      ensures outcome.NameTaken? ==> accountOrders == old(accountOrders)
      ensures outcome.OrderCreated? ==>
                accountOrders == old(accountOrders) + [outcome.order]
                && outcome.order == AccountOrder(old(nextAccountOrderId), u, accountName, publicKey, encryptedKey, false)
                && PendingOrders(accountOrders, u) == old(PendingOrders(accountOrders, u)) + 1
      ensures forall v :: v != u ==> PendingOrders(accountOrders, v) == old(PendingOrders(accountOrders, v))
      ensures users == old(users) && ramOrders == old(ramOrders) && walletMenu == old(walletMenu)
      ensures nextRamOrderId == old(nextRamOrderId)
    {
      if nameTaken {
        return NameTaken;
      }
      var o := AccountOrder(nextAccountOrderId, u, accountName, publicKey, encryptedKey, false);
      AppendFresh(accountOrders, o, nextAccountOrderId);
      accountOrders := accountOrders + [o];
      nextAccountOrderId := nextAccountOrderId + 1;
      outcome := OrderCreated(o);
    }

    /** The first unactivated order of the user and whether its account exists on chain. */
    method FindActivation(u: UserId, onChain: set<string>) returns (outcome: ActivationOutcome, index: nat)
      ensures outcome.NoPendingOrder? <==> FirstMatch(accountOrders, u, true).None?
      ensures outcome.Activated? <==>
                FirstMatch(accountOrders, u, true).Some?
                && accountOrders[FirstMatch(accountOrders, u, true).value].accountName in onChain
      ensures !outcome.NoPendingOrder? ==> FirstMatch(accountOrders, u, true) == Some(index)
      ensures outcome.NotOnChain? ==> outcome.accountName == accountOrders[index].accountName && outcome.accountName !in onChain
      ensures outcome.Activated? ==> outcome.order == accountOrders[index] && outcome.order.accountName in onChain
    {
      var found := FirstMatch(accountOrders, u, true);
      index := 0;
      if found.None? {
        return NoPendingOrder, 0;
      }
      index := found.value;
      var o := accountOrders[index];
      if o.accountName !in onChain {
        return NotOnChain(o.accountName), index;
      }
      outcome := Activated(o);
    }

    /**
     * Activation as the handler writes it: the user's row takes the order's
     * name, keys and the `active` permission, but the order's flag is set
     * by an id the query never read, so the order table does not change and
     * the order stays pending.
     */
    method ActivateAccountAsWritten(u: UserId, onChain: set<string>) returns (outcome: ActivationOutcome)
      requires Valid()
      modifies this
      ensures Valid()
      ensures outcome.NoPendingOrder? <==> old(FirstMatch(accountOrders, u, true)).None?
      ensures outcome.Activated? <==>
                old(FirstMatch(accountOrders, u, true)).Some?
                && old(accountOrders[FirstMatch(accountOrders, u, true).value]).accountName in onChain
      ensures outcome.NotOnChain? ==>
                old(FirstMatch(accountOrders, u, true)).Some?
                && outcome.accountName == old(accountOrders[FirstMatch(accountOrders, u, true).value]).accountName
      ensures outcome.Activated? ==>
                var i := old(FirstMatch(accountOrders, u, true)).value;
                outcome.order == old(accountOrders[i])
                && outcome.order.accountName in onChain
                && users == (if u in old(users) then old(users)[u := ActivatedRow(old(users)[u], outcome.order)] else old(users))
      ensures !outcome.Activated? ==> users == old(users)
      ensures accountOrders == old(accountOrders)
      ensures FirstMatch(accountOrders, u, true) == old(FirstMatch(accountOrders, u, true))
      ensures ramOrders == old(ramOrders) && walletMenu == old(walletMenu)
      ensures nextAccountOrderId == old(nextAccountOrderId) && nextRamOrderId == old(nextRamOrderId)
    {
      var index;
      outcome, index := FindActivation(u, onChain);
      if outcome.Activated? {
        if u in users {
          users := users[u := ActivatedRow(users[u], outcome.order)];
        }
        ActivationByNullKeepsOrderPending(accountOrders, u);
        accountOrders := MarkActivated(accountOrders, None);
      }
    }

    /**
     * Activation keyed by the order's own id: as above, and the order is
     * flagged, so the user has exactly one pending order fewer and no other
     * order changes.
     */
    method ActivateAccount(u: UserId, onChain: set<string>) returns (outcome: ActivationOutcome)
      requires Valid()
      modifies this
      ensures Valid()
      ensures outcome.NoPendingOrder? <==> old(FirstMatch(accountOrders, u, true)).None?
      ensures outcome.Activated? <==>
                old(FirstMatch(accountOrders, u, true)).Some?
                && old(accountOrders[FirstMatch(accountOrders, u, true).value]).accountName in onChain
      ensures outcome.NotOnChain? ==>
                old(FirstMatch(accountOrders, u, true)).Some?
                && outcome.accountName == old(accountOrders[FirstMatch(accountOrders, u, true).value]).accountName
      ensures outcome.Activated? ==>
                var i := old(FirstMatch(accountOrders, u, true)).value;
                outcome.order == old(accountOrders[i])
                && outcome.order.accountName in onChain
                && users == (if u in old(users) then old(users)[u := ActivatedRow(old(users)[u], outcome.order)] else old(users))
                && |accountOrders| == |old(accountOrders)|
                && accountOrders[i] == outcome.order.(activated := true)
                && (forall k :: 0 <= k < |accountOrders| && k != i ==> accountOrders[k] == old(accountOrders[k]))
                && PendingOrders(accountOrders, u) == old(PendingOrders(accountOrders, u)) - 1
      ensures !outcome.Activated? ==> users == old(users) && accountOrders == old(accountOrders)
      ensures ramOrders == old(ramOrders) && walletMenu == old(walletMenu)
      ensures nextAccountOrderId == old(nextAccountOrderId) && nextRamOrderId == old(nextRamOrderId)
    {
      var index;
      outcome, index := FindActivation(u, onChain);
      if outcome.Activated? {
        if u in users {
          users := users[u := ActivatedRow(users[u], outcome.order)];
        }
        FlagOrder(index, u);
      }
    }

    /** Sets the activated flag of the order at `i`, found pending for `u`. */
    method FlagOrder(i: nat, u: UserId)
      requires Valid() && i < |accountOrders| && Matches(accountOrders[i], u, true)
      modifies this
      ensures Valid()
      ensures |accountOrders| == |old(accountOrders)|
      ensures accountOrders[i] == old(accountOrders[i]).(activated := true)
      ensures forall k :: 0 <= k < |accountOrders| && k != i ==> accountOrders[k] == old(accountOrders[k])
      ensures PendingOrders(accountOrders, u) == old(PendingOrders(accountOrders, u)) - 1
      ensures users == old(users) && ramOrders == old(ramOrders) && walletMenu == old(walletMenu)
      ensures nextAccountOrderId == old(nextAccountOrderId) && nextRamOrderId == old(nextRamOrderId)
    {
      MarkActivatedConsumes(accountOrders, i, u);
      MarkActivatedDistinct(accountOrders, Some(accountOrders[i].orderId), nextAccountOrderId);
      accountOrders := MarkActivated(accountOrders, Some(accountOrders[i].orderId));
    }

    /**
     * The pending-order screens of handleViewAccountOrders and
     * handleAccountOrderStatus: the user's first unactivated order, or
     * nothing when none is left.
     */
    method PendingAccountOrder(u: UserId) returns (shown: Option<AccountOrder>)
      ensures shown.None? <==> PendingOrders(accountOrders, u) == 0
      ensures shown.Some? ==>
                exists i :: 0 <= i < |accountOrders| && accountOrders[i] == shown.value && Matches(shown.value, u, true)
                            && forall j :: 0 <= j < i ==> !Matches(accountOrders[j], u, true)
    {
      PendingOrdersPositive(accountOrders, u);
      var found := FirstMatch(accountOrders, u, true);
      if found.None? {
        return None;
      }
      shown := Some(accountOrders[found.value]);
    }

    /** Delete Order: the user's unactivated orders go; activated ones and everybody else's stay. */
    method DeleteAccountOrders(u: UserId)
      requires Valid()
      modifies this
      ensures Valid()
      ensures accountOrders == WithoutPending(old(accountOrders), u)
      ensures PendingOrders(accountOrders, u) == 0
      ensures forall k :: 0 <= k < |old(accountOrders)| && !Matches(old(accountOrders)[k], u, true) ==>
                old(accountOrders)[k] in accountOrders
      ensures users == old(users) && ramOrders == old(ramOrders) && walletMenu == old(walletMenu)
      ensures nextAccountOrderId == old(nextAccountOrderId) && nextRamOrderId == old(nextRamOrderId)
    {
      WithoutPendingKeepsAll(accountOrders, u, nextAccountOrderId);
      accountOrders := WithoutPending(accountOrders, u);
    }

    // -------------------------------------------------------------------------
    // users

    /** Confirm delete: the user's four wallet columns become NULL; a user without a row is left alone. */
    method ConfirmDeleteAccount(u: UserId)
      requires Valid()
      modifies this
      ensures Valid()
      ensures users == (if u in old(users) then old(users)[u := ClearedRow(old(users)[u])] else old(users))
      ensures u in users ==> !HasWallet(users[u])
      ensures accountOrders == old(accountOrders) && ramOrders == old(ramOrders) && walletMenu == old(walletMenu)
      ensures nextAccountOrderId == old(nextAccountOrderId) && nextRamOrderId == old(nextRamOrderId)
    {
      if u in users {
        users := users[u := ClearedRow(users[u])];
      }
    }

    /**
     * The import conversation. No key text: nothing happens. A short or
     * missing password draws the warning, but the import goes on. A key the
     * library accepts is written with its one account, or with placeholders
     * and a keyboard of one select button per account.
     */
    method ImportAccount(u: UserId, keyText: Option<string>, password: Option<string>, imported: ImportResult)
      returns (outcome: ImportOutcome)
      requires Valid()
      modifies this
      ensures Valid()
      ensures outcome.NoKeyGiven? <==> !HasText(keyText)
      ensures !outcome.NoKeyGiven? ==>
                outcome.passwordWarned == (!HasText(password) || Utf16Length(password.value) < MinPasswordLength)
      ensures outcome.ImportFailed? <==> HasText(keyText) && imported.ImportRejected?
      ensures outcome.ImportFailed? ==> outcome.message == imported.message
      ensures outcome.ImportedAccount? <==> HasText(keyText) && imported.KeyImported? && |imported.accounts| == 1
      ensures outcome.ImportedAccount? ==> outcome.account == imported.accounts[0]
      ensures outcome.ChooseAccount? ==> imported.KeyImported? && outcome.keyboard == SelectButtons(imported.accounts)
      ensures HasText(keyText) && imported.KeyImported? ==>
                users == (if u in old(users)
                          then old(users)[u := ImportedRow(old(users)[u], imported.publicKey, imported.encryptedKey, imported.accounts)]
                          else old(users))
      ensures !(HasText(keyText) && imported.KeyImported?) ==> users == old(users)
      ensures accountOrders == old(accountOrders) && ramOrders == old(ramOrders) && walletMenu == old(walletMenu)
      ensures nextAccountOrderId == old(nextAccountOrderId) && nextRamOrderId == old(nextRamOrderId)
    {
      if !HasText(keyText) {
        return NoKeyGiven;
      }
      var warned := !HasText(password) || Utf16Length(password.value) < MinPasswordLength;
      match imported {
        case ImportRejected(message) =>
          outcome := ImportFailed(warned, message);
        case KeyImported(publicKey, encryptedKey, accounts) =>
          if u in users {
            users := users[u := ImportedRow(users[u], publicKey, encryptedKey, accounts)];
          }
          if |accounts| == 1 {
            outcome := ImportedAccount(warned, accounts[0]);
          } else {
            outcome := ChooseAccount(warned, SelectButtons(accounts));
          }
      }
    }

    /**
     * A select button: the token's account and permission are written to
     * the user's row. Without a row the handler fails before writing.
     */
    method SelectAccount(u: UserId, data: string) returns (outcome: SelectOutcome)
      requires Valid()
      modifies this
      ensures Valid()
      ensures outcome.SelectFailed? <==> u !in old(users)
      ensures outcome.AccountSelected? ==>
                outcome.selection == ParseSelectAccount(data)
                && users == old(users)[u := SelectedRow(old(users)[u], outcome.selection)]
      ensures outcome.SelectFailed? ==> users == old(users)
      ensures accountOrders == old(accountOrders) && ramOrders == old(ramOrders) && walletMenu == old(walletMenu)
      ensures nextAccountOrderId == old(nextAccountOrderId) && nextRamOrderId == old(nextRamOrderId)
    {
      if u !in users {
        return SelectFailed;
      }
      var selection := ParseSelectAccount(data);
      users := users[u := SelectedRow(users[u], selection)];
      outcome := AccountSelected(selection);
    }

    // -------------------------------------------------------------------------
    // the wallet screen

    /**
     * When the user has RAM orders, put the RAM Orders row in front of the
     * shared menu unless some button already opens the orders.
     */
    method OfferRamOrders(u: UserId)
      modifies this
      ensures walletMenu == (if |UserOrders(ramOrders, u)| > 0 then WithRamOrdersButton(old(walletMenu)) else old(walletMenu))
      ensures users == old(users) && accountOrders == old(accountOrders) && ramOrders == old(ramOrders)
      ensures nextAccountOrderId == old(nextAccountOrderId) && nextRamOrderId == old(nextRamOrderId)
    {
      if |UserOrders(ramOrders, u)| > 0 {
        var hasViewRamOrders := HasData(walletMenu, ViewRamOrdersTag);
        if !hasViewRamOrders {
          walletMenu := [[RamOrdersButton]] + walletMenu;
        }
      }
    }

    /**
     * The Wallet button. A user whose row has a wallet and a live session
     * sees the shared menu, extended with RAM Orders when the user has
     * orders; with a wallet but no live session the bot asks for the unlock
     * password; otherwise an account order of the user (activated or not)
     * is reported, or the no-account menu shown. Once any user has been
     * shown RAM Orders, every later user sees it too.
     */
    method Wallets(u: UserId, sessionLive: bool) returns (view: WalletView)
      requires Valid()
      modifies this
      ensures Valid()
      ensures view.AccountMenu? <==> u in users && HasWallet(users[u]) && SessionSet(users[u]) && sessionLive
      ensures view.AskUnlockPassword? <==> u in users && HasWallet(users[u]) && !(SessionSet(users[u]) && sessionLive)
      ensures view.OngoingOrder? <==> !(u in users && HasWallet(users[u])) && FirstMatch(accountOrders, u, false).Some?
      ensures view.OngoingOrder? ==> view.accountName == accountOrders[FirstMatch(accountOrders, u, false).value].accountName
      ensures view.AccountMenu? ==> view.keyboard == walletMenu
      ensures view.AccountMenu? && |UserOrders(ramOrders, u)| > 0 ==> HasData(walletMenu, ViewRamOrdersTag)
      ensures walletMenu == (if view.AccountMenu? && |UserOrders(ramOrders, u)| > 0
                             then WithRamOrdersButton(old(walletMenu)) else old(walletMenu))
      ensures HasData(old(walletMenu), ViewRamOrdersTag) ==> HasData(walletMenu, ViewRamOrdersTag)
      ensures users == old(users) && accountOrders == old(accountOrders) && ramOrders == old(ramOrders)
      ensures nextAccountOrderId == old(nextAccountOrderId) && nextRamOrderId == old(nextRamOrderId)
    {
      if u in users && HasWallet(users[u]) {
        if SessionSet(users[u]) && sessionLive {
          OfferRamOrders(u);
          view := AccountMenu(walletMenu);
        } else {
          view := AskUnlockPassword;
        }
      } else {
        var found := FirstMatch(accountOrders, u, false);
        if found.Some? {
          view := OngoingOrder(accountOrders[found.value].accountName);
        } else {
          view := NoAccountMenu;
        }
      }
    }

    /**
     * The unlock password, given whether it decrypts the stored key: a wrong
     * one gets the start menu back, a right one the shared menu with the same
     * RAM Orders treatment as the Wallet button.
     */
    method UnlockWallet(u: UserId, decrypts: bool) returns (view: UnlockView)
      requires Valid()
      modifies this
      ensures Valid()
      ensures view.IncorrectPassword? <==> !decrypts
      ensures view.UnlockedMenu? ==> view.keyboard == walletMenu
      ensures walletMenu == (if decrypts && |UserOrders(ramOrders, u)| > 0
                             then WithRamOrdersButton(old(walletMenu)) else old(walletMenu))
      ensures users == old(users) && accountOrders == old(accountOrders) && ramOrders == old(ramOrders)
      ensures nextAccountOrderId == old(nextAccountOrderId) && nextRamOrderId == old(nextRamOrderId)
    {
      if !decrypts {
        return IncorrectPassword;
      }
      OfferRamOrders(u);
      view := UnlockedMenu(walletMenu);
    }
  }
}
