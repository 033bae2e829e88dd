/**
 * The colon-delimited callback-data tokens that the bot puts on inline
 * buttons and splits again when a button is pressed:
 * `select_account:<name>:<permission>`, `authorize:<hours>:<password>` and
 * `view_ram_orders[:<page>]`.
 */
module Callbacks {
  import opened Wrappers
  import opened Strings

  lemma NumeralHasNoColon(n: int)
    ensures ':' !in IntToString(n)
  {
    var s := NatToString(if n < 0 then -n else n);
    assert forall i :: 0 <= i < |s| ==> s[i] != ':' by {
      forall i | 0 <= i < |s| ensures s[i] != ':' { assert IsDigit(s[i]); }
    }
    if n < 0 {
      assert IntToString(n) == "-" + s;
    }
  }

  // ---------------------------------------------------------------------------
  // select_account:<name>:<permission>

  const SelectAccountTag := "select_account"

  /** The data of the button offered for one account when a key controls several. */
  function SelectAccountData(accountName: string, permission: string): (data: string)
    ensures |SelectAccountTag| < |data| && data[..|SelectAccountTag| + 1] == SelectAccountTag + ":"
  {
    SelectAccountTag + ":" + accountName + ":" + permission
  }

  /** What `const [_, accountName, permissionName] = data.split(":")` binds. */
  datatype Selection = Selection(accountName: Option<string>, permission: Option<string>)

  /**
   * The pieces bound have no colon, a permission is bound only after an
   * account, and data without a colon binds neither.
   */
  function ParseSelectAccount(data: string): (sel: Selection)
    ensures sel.accountName.Some? ==> ':' !in sel.accountName.value
    ensures sel.permission.Some? ==> ':' !in sel.permission.value && sel.accountName.Some?
    ensures ':' !in data ==> sel == Selection(None, None)
  {
    var fields := Split(data, ':');
    assert ':' !in data ==> fields == [data] by {
      if ':' !in data { SplitWithoutSeparator(data, ':'); }
    }
    Selection(Field(fields, 1), Field(fields, 2))
  }

  /** Pressing a select button recovers the account and permission it was built from. */
  lemma SelectAccountRoundTrip(accountName: string, permission: string)
    requires ':' !in accountName && ':' !in permission
    ensures ParseSelectAccount(SelectAccountData(accountName, permission))
         == Selection(Some(accountName), Some(permission))
  {
    var tail := accountName + [':'] + permission;
    assert SelectAccountData(accountName, permission) == SelectAccountTag + [':'] + tail;
    SplitAtSeparator(SelectAccountTag, ':', tail);
    SplitAtSeparator(accountName, ':', permission);
    SplitWithoutSeparator(permission, ':');
  }

  // ---------------------------------------------------------------------------
  // authorize:<hours>:<password>

  const AuthorizeTag := "authorize"

  /** The durations, in hours, offered once the password has been checked. */
  const AuthorizationHours: seq<nat> := [1, 6, 12, 24, 72, 168]

  /** The data of the duration button for `hours`, carrying the password typed. */
  function AuthorizeData(hours: nat, password: string): (data: string)
    ensures |AuthorizeTag| < |data| && data[..|AuthorizeTag| + 1] == AuthorizeTag + ":"
  {
    AuthorizeTag + ":" + NatToString(hours) + ":" + password
  }

  /** What `const [_, duration, password] = data.split(":")` binds. */
  datatype Authorization = Authorization(duration: Option<string>, password: Option<string>)

  /** The token split as the handler writes it: the password is the third piece only. */
  function ParseAuthorizeAsWritten(data: string): (a: Authorization)
    ensures a.password.Some? ==> ':' !in a.password.value && a.duration.Some?
    ensures a.duration.Some? ==> ':' !in a.duration.value
  {
    var fields := Split(data, ':');
    Authorization(Field(fields, 1), Field(fields, 2))
  }

  /** Without a colon in the password, the token as written round-trips. */
  lemma AuthorizeAsWrittenRoundTrip(hours: nat, password: string)
    requires ':' !in password
    ensures ParseAuthorizeAsWritten(AuthorizeData(hours, password))
         == Authorization(Some(NatToString(hours)), Some(password))
  {
    var h := NatToString(hours);
    NumeralHasNoColon(hours);
    var tail := h + [':'] + password;
    assert AuthorizeData(hours, password) == AuthorizeTag + [':'] + tail;
    SplitAtSeparator(AuthorizeTag, ':', tail);
    SplitAtSeparator(h, ':', password);
    SplitWithoutSeparator(password, ':');
  }

  /**
   * A password with a colon in it comes back cut at the colon: the button
   * authorizes with a different password from the one that was checked.
   */
  lemma AuthorizeAsWrittenTruncates(hours: nat, before: string, after: string)
    requires ':' !in before
    ensures ParseAuthorizeAsWritten(AuthorizeData(hours, before + ":" + after)).password == Some(before)
    ensures before != before + ":" + after
  {
    var h := NatToString(hours);
    NumeralHasNoColon(hours);
    var password := before + ":" + after;
    var tail := h + [':'] + password;
    assert AuthorizeData(hours, password) == AuthorizeTag + [':'] + tail;
    SplitAtSeparator(AuthorizeTag, ':', tail);
    SplitAtSeparator(h, ':', password);
    assert password == before + [':'] + after;
    SplitAtSeparator(before, ':', after);
    assert |before + ":" + after| > |before|;
  }

  /** The token split so that the password is everything after the second colon. */
  function ParseAuthorize(data: string): (a: Authorization)
    ensures a.password.Some? ==> a.duration.Some?
    ensures a.duration.Some? ==> ':' !in a.duration.value
    ensures ':' !in data ==> a == Authorization(None, None)
  {
    var fields := Split(data, ':');
    assert ':' !in data ==> fields == [data] by {
      if ':' !in data { SplitWithoutSeparator(data, ':'); }
    }
    Authorization(Field(fields, 1), if |fields| >= 3 then Some(Join(fields[2..], ':')) else None)
  }

  /** Every duration button gives back its duration and the exact password. */
  lemma AuthorizeRoundTrip(hours: nat, password: string)
    ensures ParseAuthorize(AuthorizeData(hours, password))
         == Authorization(Some(NatToString(hours)), Some(password))
  {
    var h := NatToString(hours);
    NumeralHasNoColon(hours);
    var tail := h + [':'] + password;
    assert AuthorizeData(hours, password) == AuthorizeTag + [':'] + tail;
    SplitAtSeparator(AuthorizeTag, ':', tail);
    SplitAtSeparator(h, ':', password);
    var fields := Split(AuthorizeData(hours, password), ':');
    assert fields == [AuthorizeTag, h] + Split(password, ':');
    assert fields[2..] == Split(password, ':');
    JoinSplit(password, ':');
  }

  /** Where both parsers have an answer for a colon-free password they agree. */
  lemma ParseAuthorizeAgrees(hours: nat, password: string)
    requires ':' !in password
    ensures ParseAuthorize(AuthorizeData(hours, password))
         == ParseAuthorizeAsWritten(AuthorizeData(hours, password))
  {
    AuthorizeRoundTrip(hours, password);
    AuthorizeAsWrittenRoundTrip(hours, password);
  }

  // ---------------------------------------------------------------------------
  // view_ram_orders[:<page>]

  const ViewRamOrdersTag := "view_ram_orders"

  /** The data of the Previous / Next buttons: `view_ram_orders:${page}`. */
  function PageData(page: int): (data: string)
    ensures |ViewRamOrdersTag| < |data| && data[..|ViewRamOrdersTag| + 1] == ViewRamOrdersTag + ":"
  {
    ViewRamOrdersTag + ":" + IntToString(page)
  }

  /**
   * `parseInt(data.split(":")[1]) || 1`: the page number after the colon,
   * or 1 when it is missing, not a number, or zero. The result is never 0.
   */
  function ParsePage(data: string): (page: int)
    ensures page != 0
    ensures |Split(data, ':')| < 2 ==> page == 1
    ensures |Split(data, ':')| >= 2 && ParseInt(Split(data, ':')[1]).None? ==> page == 1
    ensures |Split(data, ':')| >= 2 && ParseInt(Split(data, ':')[1]) == Some(0) ==> page == 1
    ensures var fields := Split(data, ':');
      |fields| >= 2 && ParseInt(fields[1]).Some? && ParseInt(fields[1]).value != 0 ==> page == ParseInt(fields[1]).value
  {
    var fields := Split(data, ':');
    if |fields| < 2 then 1
    else match ParseInt(fields[1])
      case None => 1
      case Some(n) => if n == 0 then 1 else n
  }

  /** The page a Previous / Next button names is the page its handler opens. */
  lemma ParsePageData(page: int)
    ensures ParsePage(PageData(page)) == (if page == 0 then 1 else page)
  {
    NumeralHasNoColon(page);
    SplitAtSeparator(ViewRamOrdersTag, ':', IntToString(page));
    SplitWithoutSeparator(IntToString(page), ':');
    ParseIntOfIntToString(page);
  }

  /** The bare `view_ram_orders` button of the wallet menu opens page 1. */
  lemma ParsePageBareTag()
    ensures ParsePage(ViewRamOrdersTag) == 1
  {
    SplitWithoutSeparator(ViewRamOrdersTag, ':');
  }
}
