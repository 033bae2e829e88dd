/**
 * The `users` row that holds a user's wallet credentials and the
 * `account_orders` table of account-creation orders, with the row updates
 * and queries the account handlers run against them.
 */
module Accounts {
  import opened Wrappers
  import opened Strings
  import opened Callbacks
  import opened Menus
  import opened RamOrders

  /**
   * The wallet columns of one `users` row; NULL is None. `eos_private_key`
   * holds the private key encrypted under the user's password.
   */
  datatype UserRow = UserRow(
    accountName: Option<string>,
    publicKey: Option<string>,
    encryptedKey: Option<string>,
    permission: Option<string>,
    sessionExpiration: Option<int>)

  /** A text column read in a JavaScript condition: NULL and "" are falsy. */
  predicate Truthy(v: Option<string>)
  {
    v.Some? && v.value != ""
  }

  /** The test the wallet screen makes before it shows an account. */
  predicate HasWallet(row: UserRow)
  {
    Truthy(row.accountName) && Truthy(row.publicKey) && Truthy(row.encryptedKey)
  }

  /** One account/permission pair that a private key controls on chain. */
  datatype ChainPermission = ChainPermission(accountName: string, permissionName: string)

  /** What the multi-account import writes until an account is chosen. */
  const Placeholder := "-"

  // ---------------------------------------------------------------------------
  // users row updates

  /**
   * The row after an import: the key pair always; the account and
   * permission when the key controls exactly one account, otherwise the
   * placeholder. The session column is not touched. A placeholder row counts
   * as a wallet.
   */
  function ImportedRow(row: UserRow, publicKey: string, encryptedKey: string, accounts: seq<ChainPermission>): (r: UserRow)
    ensures r.publicKey == Some(publicKey) && r.encryptedKey == Some(encryptedKey)
    ensures r.sessionExpiration == row.sessionExpiration
    ensures |accounts| != 1 ==> r.accountName == Some(Placeholder) && r.permission == Some(Placeholder)
    ensures |accounts| == 1 ==>
              r.accountName == Some(accounts[0].accountName) && r.permission == Some(accounts[0].permissionName)
    ensures publicKey != "" && encryptedKey != "" ==>
              (HasWallet(r) <==> |accounts| != 1 || accounts[0].accountName != "")
  {
    if |accounts| == 1 then
      row.(accountName := Some(accounts[0].accountName), publicKey := Some(publicKey),
           encryptedKey := Some(encryptedKey), permission := Some(accounts[0].permissionName))
    else
      row.(accountName := Some(Placeholder), publicKey := Some(publicKey),
           encryptedKey := Some(encryptedKey), permission := Some(Placeholder))
  }

  /**
   * The row after a select button: account and permission come from the
   * split token, NULL where the token has no such piece; the key columns
   * stay.
   */
  function SelectedRow(row: UserRow, s: Selection): (r: UserRow)
    ensures r.publicKey == row.publicKey && r.encryptedKey == row.encryptedKey
    ensures r.sessionExpiration == row.sessionExpiration
    ensures r.accountName == s.accountName && r.permission == s.permission
    ensures HasWallet(r) <==> Truthy(s.accountName) && Truthy(row.publicKey) && Truthy(row.encryptedKey)
  {
    row.(accountName := s.accountName, permission := s.permission)
  }

  /** `inline_keyboard` label of a select button: `name (permission)`. */
  function SelectLabel(a: ChainPermission): string
  {
    a.accountName + " (" + a.permissionName + ")"
  }

  /** One select button per account, each on its own row, in the order given. */
  function SelectButtons(accounts: seq<ChainPermission>): (kb: Keyboard)
    ensures |kb| == |accounts|
    ensures forall i :: 0 <= i < |kb| ==>
              kb[i] == [Button(SelectLabel(accounts[i]), SelectAccountData(accounts[i].accountName, accounts[i].permissionName))]
  {
    if |accounts| == 0 then []
    else
      [[Button(SelectLabel(accounts[0]), SelectAccountData(accounts[0].accountName, accounts[0].permissionName))]]
      + SelectButtons(accounts[1..])
  }

  /**
   * Importing a key that controls several accounts and then pressing the
   * button of account i leaves the row exactly as importing a key that
   * controls account i alone would. On-chain account and permission names
   * have no colon.
   */
  lemma ImportThenSelect(row: UserRow, publicKey: string, encryptedKey: string, accounts: seq<ChainPermission>, i: nat)
    requires i < |accounts|
    requires ':' !in accounts[i].accountName && ':' !in accounts[i].permissionName
    ensures SelectedRow(ImportedRow(row, publicKey, encryptedKey, accounts),
                        ParseSelectAccount(SelectButtons(accounts)[i][0].data))
         == ImportedRow(row, publicKey, encryptedKey, [accounts[i]])
  {
    SelectAccountRoundTrip(accounts[i].accountName, accounts[i].permissionName);
  }

  /** A select token without its pieces clears the account: the wallet is gone. */
  lemma BareSelectTokenDropsWallet(row: UserRow)
    ensures !HasWallet(SelectedRow(row, ParseSelectAccount(SelectAccountTag)))
  {
    SplitWithoutSeparator(SelectAccountTag, ':');
  }

  /** Activation's permission name. */
  const ActivePermission := "active"

  /**
   * The row after an activation: name and keys of the order, permission
   * `active`, session column untouched.
   */
  function ActivatedRow(row: UserRow, o: AccountOrder): (r: UserRow)
    ensures r.accountName == Some(o.accountName) && r.publicKey == Some(o.publicKey)
    ensures r.encryptedKey == Some(o.encryptedKey)
    ensures r.permission == Some(ActivePermission) && r.sessionExpiration == row.sessionExpiration
    ensures HasWallet(r) <==> o.accountName != "" && o.publicKey != "" && o.encryptedKey != ""
  {
    row.(accountName := Some(o.accountName), publicKey := Some(o.publicKey),
         encryptedKey := Some(o.encryptedKey), permission := Some(ActivePermission))
  }

  /** The row after the account is deleted: the four wallet columns NULL, the session kept. */
  function ClearedRow(row: UserRow): (r: UserRow)
    ensures r.accountName.None? && r.publicKey.None? && r.encryptedKey.None? && r.permission.None?
    ensures !HasWallet(r)
    ensures r.sessionExpiration == row.sessionExpiration
  {
    row.(accountName := None, publicKey := None, encryptedKey := None, permission := None)
  }

  /**
   * Deleting the account forgets whatever import, selection or activation
   * wrote before it: the row is as if the wallet had been deleted straight
   * away.
   */
  lemma ClearedRowForgetsWallet(row: UserRow, publicKey: string, encryptedKey: string,
                                accounts: seq<ChainPermission>, s: Selection, o: AccountOrder)
    ensures ClearedRow(ImportedRow(row, publicKey, encryptedKey, accounts)) == ClearedRow(row)
    ensures ClearedRow(SelectedRow(row, s)) == ClearedRow(row)
    ensures ClearedRow(ActivatedRow(row, o)) == ClearedRow(row)
  {
  }

  // ---------------------------------------------------------------------------
  // account_orders

  /** One `account_orders` row: the generated name and key pair, and the flag set once the account is live. */
  datatype AccountOrder = AccountOrder(
    orderId: nat,
    userId: UserId,
    accountName: string,
    publicKey: string,
    encryptedKey: string,
    activated: bool)

  /** `WHERE user_id = u`, and with `pendingOnly` also `AND activated = 0`. */
  predicate Matches(o: AccountOrder, u: UserId, pendingOnly: bool)
  {
    o.userId == u && (!pendingOnly || !o.activated)
  }

  /** The row a `getQuery` with that condition returns: the first in table order. */
  function FirstMatch(orders: seq<AccountOrder>, u: UserId, pendingOnly: bool): (r: Option<nat>)
    ensures r.Some? ==> r.value < |orders| && Matches(orders[r.value], u, pendingOnly)
    ensures r.Some? ==> forall j :: 0 <= j < r.value ==> !Matches(orders[j], u, pendingOnly)
    ensures r.None? ==> forall j :: 0 <= j < |orders| ==> !Matches(orders[j], u, pendingOnly)
  {
    if |orders| == 0 then None
    else if Matches(orders[0], u, pendingOnly) then Some(0)
    else match FirstMatch(orders[1..], u, pendingOnly)
      case None => None
      case Some(k) => Some(k + 1)
  }

  /** How many orders of `u` are not yet activated: zero exactly when none is. */
  function PendingOrders(orders: seq<AccountOrder>, u: UserId): (n: nat)
    ensures n <= |orders|
    ensures n == 0 <==> forall k :: 0 <= k < |orders| ==> !Matches(orders[k], u, true)
  {
    assert forall k :: 0 < k < |orders| ==> orders[1..][k - 1] == orders[k];
    if |orders| == 0 then 0
    else (if Matches(orders[0], u, true) then 1 else 0) + PendingOrders(orders[1..], u)
  }

  lemma {:induction false} PendingOrdersPositive(orders: seq<AccountOrder>, u: UserId)
    ensures PendingOrders(orders, u) > 0 <==> FirstMatch(orders, u, true).Some?
  {
    if |orders| > 0 {
      PendingOrdersPositive(orders[1..], u);
    }
  }

  /** An insert adds one pending order for its own user and none for anybody else. */
  lemma {:induction false} PendingOrdersAppend(orders: seq<AccountOrder>, o: AccountOrder, u: UserId)
    ensures PendingOrders(orders + [o], u) == PendingOrders(orders, u) + (if Matches(o, u, true) then 1 else 0)
  {
    if |orders| == 0 {
      assert [o][1..] == [];
    } else {
      assert (orders + [o])[1..] == orders[1..] + [o];
      PendingOrdersAppend(orders[1..], o, u);
    }
  }

  /** No two rows share an `order_id` (it is the table's key). */
  predicate DistinctIds(orders: seq<AccountOrder>)
  {
    forall i, j :: 0 <= i < j < |orders| ==> orders[i].orderId != orders[j].orderId
  }

  /** Every `order_id` is below `bound`, the id the next insert gets. */
  predicate IdsBelow(orders: seq<AccountOrder>, bound: nat)
  {
    forall k :: 0 <= k < |orders| ==> orders[k].orderId < bound
  }

  /**
   * Inserting a row keyed by the next id keeps the ids distinct and below
   * the advanced counter, and adds one pending order for its own user only.
   */
  lemma AppendFresh(orders: seq<AccountOrder>, o: AccountOrder, bound: nat)
    requires IdsBelow(orders, bound) && DistinctIds(orders) && o.orderId == bound
    ensures IdsBelow(orders + [o], bound + 1) && DistinctIds(orders + [o])
    ensures forall v :: PendingOrders(orders + [o], v) == PendingOrders(orders, v) + (if Matches(o, v, true) then 1 else 0)
  {
    var r := orders + [o];
    assert forall k :: 0 <= k < |orders| ==> r[k] == orders[k];
    forall v {
      PendingOrdersAppend(orders, o, v);
    }
  }

  /** `DELETE FROM account_orders WHERE user_id = u AND activated = 0`. */
  function WithoutPending(orders: seq<AccountOrder>, u: UserId): (r: seq<AccountOrder>)
    ensures forall k :: 0 <= k < |r| ==> r[k] in orders && !Matches(r[k], u, true)
  {
    if |orders| == 0 then []
    else (if Matches(orders[0], u, true) then [] else [orders[0]]) + WithoutPending(orders[1..], u)
  }

  /** The delete keeps every activated order and every other user's order. */
  lemma {:induction false} WithoutPendingKeeps(orders: seq<AccountOrder>, u: UserId, k: nat)
    requires k < |orders| && !Matches(orders[k], u, true)
    ensures orders[k] in WithoutPending(orders, u)
  {
    if k > 0 {
      WithoutPendingKeeps(orders[1..], u, k - 1);
    }
  }

  /**
   * The delete leaves the user no pending order, keeps every row it does
   * not match, and keeps the ids distinct and below the counter.
   */
  lemma WithoutPendingKeepsAll(orders: seq<AccountOrder>, u: UserId, bound: nat)
    requires IdsBelow(orders, bound) && DistinctIds(orders)
    ensures IdsBelow(WithoutPending(orders, u), bound) && DistinctIds(WithoutPending(orders, u))
    ensures PendingOrders(WithoutPending(orders, u), u) == 0
    ensures forall k :: 0 <= k < |orders| && !Matches(orders[k], u, true) ==> orders[k] in WithoutPending(orders, u)
  {
    var r := WithoutPending(orders, u);
    WithoutPendingDistinct(orders, u);
    forall k | 0 <= k < |orders| && !Matches(orders[k], u, true) ensures orders[k] in r {
      WithoutPendingKeeps(orders, u, k);
    }
    forall k | 0 <= k < |r| ensures r[k].orderId < bound {
      var m :| 0 <= m < |orders| && orders[m] == r[k];
    }
  }

  /** The delete keeps the key distinct. */
  lemma {:induction false} WithoutPendingDistinct(orders: seq<AccountOrder>, u: UserId)
    requires DistinctIds(orders)
    ensures DistinctIds(WithoutPending(orders, u))
  {
    if |orders| > 0 {
      var tail := orders[1..];
      assert DistinctIds(tail) by {
        forall i, j | 0 <= i < j < |tail| ensures tail[i].orderId != tail[j].orderId {
          assert tail[i] == orders[i + 1] && tail[j] == orders[j + 1];
        }
      }
      WithoutPendingDistinct(tail, u);
      var rest := WithoutPending(tail, u);
      forall k | 0 <= k < |rest| ensures rest[k].orderId != orders[0].orderId {
        var m :| 0 <= m < |tail| && tail[m] == rest[k];
        assert tail[m] == orders[m + 1];
      }
    }
  }

  /**
   * `UPDATE account_orders SET activated = 1 WHERE order_id = id`. An
   * undefined parameter binds as NULL, and `order_id = NULL` holds for no
   * row.
   */
  function MarkActivated(orders: seq<AccountOrder>, id: Option<nat>): (r: seq<AccountOrder>)
    ensures |r| == |orders|
    ensures forall k :: 0 <= k < |r| ==> r[k].orderId == orders[k].orderId && r[k].userId == orders[k].userId
  {
    if |orders| == 0 then []
    else
      [if id == Some(orders[0].orderId) then orders[0].(activated := true) else orders[0]]
      + MarkActivated(orders[1..], id)
  }

  /** An update keyed by an id no row has changes nothing. */
  lemma {:induction false} MarkActivatedAbsent(orders: seq<AccountOrder>, id: Option<nat>)
    requires forall k :: 0 <= k < |orders| ==> id != Some(orders[k].orderId)
    ensures MarkActivated(orders, id) == orders
  {
    if |orders| > 0 {
      MarkActivatedAbsent(orders[1..], id);
      assert [orders[0]] + orders[1..] == orders;
    }
  }

  /**
   * As the activation handler writes it, the update is keyed by an id the
   * SELECT never read (NULL): the order stays unactivated and stays the one
   * the next activation, listing or delete finds.
   */
  lemma ActivationByNullKeepsOrderPending(orders: seq<AccountOrder>, u: UserId)
    ensures MarkActivated(orders, None) == orders
    ensures FirstMatch(MarkActivated(orders, None), u, true) == FirstMatch(orders, u, true)
    ensures PendingOrders(MarkActivated(orders, None), u) == PendingOrders(orders, u)
  {
    MarkActivatedAbsent(orders, None);
  }

  /** Keyed by the id of row i, with distinct ids, the update flags row i and no other. */
  lemma {:induction false} MarkActivatedRows(orders: seq<AccountOrder>, i: nat)
    requires DistinctIds(orders) && i < |orders|
    ensures var r := MarkActivated(orders, Some(orders[i].orderId));
      r[i] == orders[i].(activated := true) && (forall k :: 0 <= k < |r| && k != i ==> r[k] == orders[k])
  {
    var id := Some(orders[i].orderId);
    var tail := orders[1..];
    assert DistinctIds(tail) by {
      forall a, b | 0 <= a < b < |tail| ensures tail[a].orderId != tail[b].orderId {
        assert tail[a] == orders[a + 1] && tail[b] == orders[b + 1];
      }
    }
    var r := MarkActivated(orders, id);
    if i == 0 {
      assert forall k :: 0 <= k < |tail| ==> id != Some(tail[k].orderId) by {
        forall k | 0 <= k < |tail| ensures id != Some(tail[k].orderId) {
          assert tail[k] == orders[k + 1];
        }
      }
      MarkActivatedAbsent(tail, id);
      assert r[1..] == tail;
      forall k | 0 < k < |r| ensures r[k] == orders[k] {
        assert r[k] == r[1..][k - 1];
      }
    } else {
      MarkActivatedRows(tail, i - 1);
      assert id != Some(orders[0].orderId);
      assert r[1..] == MarkActivated(tail, id);
      forall k | 0 <= k < |r| && k != i ensures r[k] == orders[k] {
        if k > 0 { assert r[k] == MarkActivated(tail, id)[k - 1]; }
      }
    }
  }

  /** Flagging one pending order of the user, and changing no other row, leaves one pending order fewer. */
  lemma {:induction false} PendingOrdersFlagOne(orders: seq<AccountOrder>, r: seq<AccountOrder>, i: nat, u: UserId)
    requires |r| == |orders| && i < |orders| && Matches(orders[i], u, true)
    requires r[i] == orders[i].(activated := true)
    requires forall k :: 0 <= k < |r| && k != i ==> r[k] == orders[k]
    ensures PendingOrders(r, u) == PendingOrders(orders, u) - 1
  {
    if i == 0 {
      assert r[1..] == orders[1..];
    } else {
      assert r[0] == orders[0];
      PendingOrdersFlagOne(orders[1..], r[1..], i - 1, u);
    }
  }

  /**
   * Keyed by the order's own id, the update flags that order and only that
   * one: the user has one pending order fewer and the rest are untouched.
   */
  lemma MarkActivatedConsumes(orders: seq<AccountOrder>, i: nat, u: UserId)
    requires DistinctIds(orders)
    requires i < |orders| && Matches(orders[i], u, true)
    ensures var r := MarkActivated(orders, Some(orders[i].orderId));
      r[i] == orders[i].(activated := true)
      && (forall k :: 0 <= k < |r| && k != i ==> r[k] == orders[k])
      && PendingOrders(r, u) == PendingOrders(orders, u) - 1
  {
    MarkActivatedRows(orders, i);
    PendingOrdersFlagOne(orders, MarkActivated(orders, Some(orders[i].orderId)), i, u);
  }

  /** Flagging keeps the key distinct, and below the counter. */
  lemma MarkActivatedDistinct(orders: seq<AccountOrder>, id: Option<nat>, bound: nat)
    requires DistinctIds(orders) && IdsBelow(orders, bound)
    ensures DistinctIds(MarkActivated(orders, id)) && IdsBelow(MarkActivated(orders, id), bound)
  {
  }
}
