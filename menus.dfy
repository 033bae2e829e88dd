/**
 * Inline keyboards: rows of buttons, each with a label and the callback data
 * the bot receives when it is pressed.
 */
module Menus {
  import opened Callbacks

  datatype Button = Button(text: string, data: string)

  type Row = seq<Button>

  type Keyboard = seq<Row>

  const WalletButton := Button("\U{2194}\U{FE0F} Wallet", "wallets")

  const ClearOrdersButton := Button("Clear Orders", "clear_ram_orders")

  const RamOrdersButton := Button("\U{1F4DC} RAM Orders", ViewRamOrdersTag)

  /** The button to the page before `page`. */
  function PreviousButton(page: int): Button
  {
    Button("\U{2B05}\U{FE0F} Previous", PageData(page - 1))
  }

  /** The button to the page after `page`. */
  function NextButton(page: int): Button
  {
    Button("\U{27A1}\U{FE0F} Next", PageData(page + 1))
  }

  /**
   * The keyboard under the order listing: Clear Orders first, then Next when
   * a later page exists, then Previous after page 1, and Wallet last.
   */
  function PagerKeyboard(page: int, totalPages: int): (kb: Keyboard)
    ensures |kb| == 2 + (if page > 1 then 1 else 0) + (if page < totalPages then 1 else 0)
    ensures kb[0] == [ClearOrdersButton] && kb[|kb| - 1] == [WalletButton]
    ensures [PreviousButton(page)] in kb <==> page > 1
    ensures [NextButton(page)] in kb <==> page < totalPages
  {
    var prev, next := PreviousButton(page), NextButton(page);
    assert prev.text[0] != next.text[0] && prev.text[0] != ClearOrdersButton.text[0] && prev.text[0] != WalletButton.text[0];
    assert next.text[0] != ClearOrdersButton.text[0] && next.text[0] != WalletButton.text[0];
    [[ClearOrdersButton]]
    + (if page < totalPages then [[next]] else [])
    + (if page > 1 then [[prev]] else [])
    + [[WalletButton]]
  }

  /** How many buttons of a row carry `data`. */
  function RowCount(row: Row, data: string): nat
  {
    if |row| == 0 then 0 else (if row[0].data == data then 1 else 0) + RowCount(row[1..], data)
  }

  /** How many buttons of the keyboard carry `data`. */
  function CountData(kb: Keyboard, data: string): nat
  {
    if |kb| == 0 then 0 else RowCount(kb[0], data) + CountData(kb[1..], data)
  }

  /** `kb.some(row => row.some(button => button.callback_data === data))`. */
  predicate HasData(kb: Keyboard, data: string)
  {
    exists i, j :: 0 <= i < |kb| && 0 <= j < |kb[i]| && kb[i][j].data == data
  }

  lemma {:induction false} RowCountPositive(row: Row, data: string)
    ensures RowCount(row, data) > 0 <==> exists j :: 0 <= j < |row| && row[j].data == data
  {
    if |row| > 0 {
      RowCountPositive(row[1..], data);
      if exists j :: 0 <= j < |row| && row[j].data == data {
        var j :| 0 <= j < |row| && row[j].data == data;
        if j > 0 { assert row[1..][j - 1].data == data; }
      }
      if exists j :: 0 <= j < |row[1..]| && row[1..][j].data == data {
        var j :| 0 <= j < |row[1..]| && row[1..][j].data == data;
        assert row[j + 1].data == data;
      }
    }
  }

  /** `some` finds a button exactly when at least one button carries the data. */
  lemma {:induction false} CountDataPositive(kb: Keyboard, data: string)
    ensures CountData(kb, data) > 0 <==> HasData(kb, data)
  {
    if |kb| > 0 {
      CountDataPositive(kb[1..], data);
      RowCountPositive(kb[0], data);
      if HasData(kb, data) {
        var i, j :| 0 <= i < |kb| && 0 <= j < |kb[i]| && kb[i][j].data == data;
        if i > 0 { assert kb[1..][i - 1][j].data == data; }
      }
      if HasData(kb[1..], data) {
        var i, j :| 0 <= i < |kb[1..]| && 0 <= j < |kb[1..][i]| && kb[1..][i][j].data == data;
        assert kb[i + 1][j].data == data;
      }
    }
  }

  /**
   * The wallet menu after the "RAM Orders" insertion: a row holding the
   * RAM Orders button is put first unless some button already opens the
   * orders. The menu is only ever extended at the front, the button is
   * there afterwards, and a menu with at most one such button keeps at most
   * one.
   */
  function WithRamOrdersButton(kb: Keyboard): (r: Keyboard)
    ensures HasData(r, ViewRamOrdersTag)
    ensures HasData(kb, ViewRamOrdersTag) ==> r == kb
    ensures |kb| <= |r| <= |kb| + 1 && r[|r| - |kb|..] == kb
    ensures CountData(r, ViewRamOrdersTag) == (if CountData(kb, ViewRamOrdersTag) == 0 then 1 else CountData(kb, ViewRamOrdersTag))
  {
    CountDataPositive(kb, ViewRamOrdersTag);
    if HasData(kb, ViewRamOrdersTag) then kb
    else
      var r := [[RamOrdersButton]] + kb;
      assert r[1..] == kb;
      assert r[0][0].data == ViewRamOrdersTag;
      assert r[0][1..] == [];
      assert RowCount(r[0], ViewRamOrdersTag) == 1 + RowCount([], ViewRamOrdersTag);
      assert CountData(r, ViewRamOrdersTag) == RowCount(r[0], ViewRamOrdersTag) + CountData(kb, ViewRamOrdersTag);
      r
  }

  /** Inserting twice is inserting once. */
  lemma RamOrdersInsertionIdempotent(kb: Keyboard)
    ensures WithRamOrdersButton(WithRamOrdersButton(kb)) == WithRamOrdersButton(kb)
  {
  }
}
