/**
 * The free-text replies of the transfer and buy-RAM flows: how a reply is
 * split into its parts, how a RAM amount is classified, and how a fault
 * from the chain is reported. Both flows stop before prompting when the
 * wallet session is locked; the session is the boolean `isUnlock`, and the
 * chain call is the given `rpc` outcome.
 */
module Inputs {
  import opened Wrappers
  import opened Strings

  /** JavaScript truthiness of `msg.text`: a missing text and "" both fail `if (!msg.text)`. */
  predicate HasText(text: Option<string>)
  {
    text.Some? && text.value != ""
  }

  // ---------------------------------------------------------------------------
  // transfer: <receiver>,<amount>[,<memo>]

  /** What the transfer reply is split into. */
  datatype TransferInput = TransferInput(recipient: string, amount: Option<string>, memo: string)

  /**
   * `const [recipient, amount, ...memoParts] = text.split(",")` and
   * `memo = memoParts.join(",").replace(/_/g, " ") || ""`.
   */
  function ParseTransfer(text: string): (t: TransferInput)
    ensures '_' !in t.memo
    ensures |Split(text, ',')| <= 2 ==> t.memo == ""
    ensures ',' !in t.recipient
    ensures t.amount.Some? ==> ',' !in t.amount.value
  {
    var fields := Split(text, ',');
    var memoParts := if |fields| > 2 then fields[2..] else [];
    TransferInput(fields[0], Field(fields, 1), ReplaceAll(Join(memoParts, ','), '_', ' '))
  }

  /**
   * A reply `r,a,m` gives the recipient `r`, the amount `a` and the memo `m`
   * with its underscores turned into spaces; commas inside the memo survive.
   */
  lemma TransferWithMemo(recipient: string, amount: string, memo: string)
    requires ',' !in recipient && ',' !in amount
    ensures ParseTransfer(recipient + "," + amount + "," + memo)
         == TransferInput(recipient, Some(amount), ReplaceAll(memo, '_', ' '))
  {
    var text := recipient + "," + amount + "," + memo;
    assert text == recipient + [','] + (amount + [','] + memo);
    SplitAtSeparator(recipient, ',', amount + [','] + memo);
    SplitAtSeparator(amount, ',', memo);
    var fields := Split(text, ',');
    assert fields == [recipient, amount] + Split(memo, ',');
    assert fields[2..] == Split(memo, ',');
    JoinSplit(memo, ',');
  }

  /** A reply `r,a` has an empty memo. */
  lemma TransferWithoutMemo(recipient: string, amount: string)
    requires ',' !in recipient && ',' !in amount
    ensures ParseTransfer(recipient + "," + amount) == TransferInput(recipient, Some(amount), "")
  {
    SplitAtSeparator(recipient, ',', amount);
    SplitWithoutSeparator(amount, ',');
  }

  /** A reply without a comma has no amount (it reaches `Number(undefined)`). */
  lemma TransferWithoutAmount(recipient: string)
    requires ',' !in recipient
    ensures ParseTransfer(recipient) == TransferInput(recipient, None, "")
  {
    SplitWithoutSeparator(recipient, ',');
  }

  // ---------------------------------------------------------------------------
  // faults

  /** The fault the chain call produced: an Error with its message, or a thrown non-Error value. */
  datatype RpcResult = Confirmed(transactionId: string) | Rejected(message: string) | ThrownValue

  /** A fault read as a resource shortage: its lower-cased message mentions cpu or net. */
  predicate IsResourceFault(message: string)
  {
    var lower := Lower(message);
    Contains(lower, "cpu") || Contains(lower, "net")
  }

  const HintHead := "\n\nYour account resources are insufficient. Please visit [this website](https://eospowerup.io/free) and enter your account "
  const HintTail := " to get free resources, or add [this Telegram bot](https://t.me/eospowerupbot) to get assistance."

  /** The remediation text appended to a resource fault: it names the user's account. */
  function ResourceHint(accountName: string): (hint: string)
    ensures Contains(hint, accountName)
    ensures |hint| > |accountName|
  {
    ContainsSuffix(HintHead, accountName);
    ContainsExtend(HintHead + accountName, HintTail, accountName);
    assert |HintHead| > 0;
    HintHead + accountName + HintTail
  }

  /**
   * The message reported for a rejected call: resource faults get the hint
   * appended, and so name the account; every other message is reported
   * unchanged. The original message always stays a prefix.
   */
  function EnrichFault(message: string, accountName: string): (r: string)
    ensures |message| <= |r| && r[..|message|] == message
    ensures r == message <==> !IsResourceFault(message)
    ensures IsResourceFault(message) ==> Contains(r, accountName)
  {
    if IsResourceFault(message) then
      var hint := ResourceHint(accountName);
      ContainsPrepend(message, hint, accountName);
      assert |message + hint| > |message|;
      message + hint
    else message
  }

  /**
   * `errorMessage` in the catch blocks: "Unknown error" unless an Error was
   * thrown; an Error's message is reported, enriched when it is a resource
   * fault.
   */
  function ErrorMessage(rpc: RpcResult, accountName: string): (m: string)
    requires !rpc.Confirmed?
    ensures rpc.ThrownValue? ==> m == "Unknown error"
    ensures rpc.Rejected? ==> |rpc.message| <= |m| && m[..|rpc.message|] == rpc.message
    ensures rpc.Rejected? ==> (m == rpc.message <==> !IsResourceFault(rpc.message))
    ensures rpc.Rejected? && IsResourceFault(rpc.message) ==> Contains(m, accountName)
  {
    match rpc
    case Rejected(m) => EnrichFault(m, accountName)
    case ThrownValue => "Unknown error"
  }

  /** Markers are matched on the lower-cased text, so a shouted CPU counts as well. */
  lemma ResourceFaultIgnoresCase(before: string, after: string)
    ensures IsResourceFault(before + "CPU" + after)
    ensures IsResourceFault(before + "net" + after)
  {
    assert Lower("CPU") == "cpu" by {
      assert LowerChar('C') == 'c' && LowerChar('P') == 'p' && LowerChar('U') == 'u';
    }
    assert Lower("net") == "net" by {
      assert LowerChar('n') == 'n' && LowerChar('e') == 'e' && LowerChar('t') == 't';
    }
    LowerAppend(before, "CPU");
    LowerAppend(before + "CPU", after);
    ContainsSuffix(Lower(before), "cpu");
    ContainsExtend(Lower(before) + "cpu", Lower(after), "cpu");
    LowerAppend(before, "net");
    LowerAppend(before + "net", after);
    ContainsSuffix(Lower(before), "net");
    ContainsExtend(Lower(before) + "net", Lower(after), "net");
  }

  lemma LowerAppend(a: string, b: string)
    ensures Lower(a + b) == Lower(a) + Lower(b)
  {
    forall i | 0 <= i < |a + b|
      ensures Lower(a + b)[i] == (Lower(a) + Lower(b))[i]
    {
      if i < |a| {
        assert (a + b)[i] == a[i];
      } else {
        assert (a + b)[i] == b[i - |a|];
      }
    }
  }

  // ---------------------------------------------------------------------------
  // transfer flow

  datatype TransferOutcome =
    | TransferLocked                    // "Unlock Wallet to Transfer."; no prompt
    | TransferNoText                    // "Please provide the address and amount."
    | Transferred(input: TransferInput, transactionId: string)
    | TransferFailed(input: TransferInput, error: string)

  /**
   * handleTransferEOS with its reply: the gate, the text check, the split,
   * and the report of the transfer call's outcome `rpc`. `accountName` is
   * the user's account as the catch block looks it up.
   */
  function TransferFlow(isUnlock: bool, text: Option<string>, rpc: RpcResult, accountName: string)
    : (o: TransferOutcome)
    ensures !isUnlock <==> o == TransferLocked
    ensures isUnlock && !HasText(text) <==> o == TransferNoText
    ensures (o.Transferred? || o.TransferFailed?) ==> HasText(text) && o.input == ParseTransfer(text.value)
    ensures o.Transferred? <==> isUnlock && HasText(text) && rpc.Confirmed?
    ensures o.Transferred? ==> o.transactionId == rpc.transactionId
    ensures o.TransferFailed? ==> !rpc.Confirmed? && o.error == ErrorMessage(rpc, accountName)
  {
    if !isUnlock then TransferLocked
    else if !HasText(text) then TransferNoText
    else
      var input := ParseTransfer(text.value);
      match rpc
      case Confirmed(id) => Transferred(input, id)
      case _ => TransferFailed(input, ErrorMessage(rpc, accountName))
  }

  // ---------------------------------------------------------------------------
  // buy RAM: <receiver>,<amount>

  datatype AmountKind = ByteAmount | EosAmount | InvalidAmount

  /** The unit markers that send an amount down the bytes path; each has a 'b' in it. */
  predicate HasByteUnit(lower: string)
    ensures HasByteUnit(lower) ==> 'b' in lower
  {
    assert Contains(lower, "bytes") ==> 'b' in lower by {
      if Contains(lower, "bytes") { ContainsChars(lower, "bytes", 0); }
    }
    assert Contains(lower, "kb") || Contains(lower, "mb") || Contains(lower, "gb") ==> 'b' in lower by {
      if Contains(lower, "kb") { ContainsChars(lower, "kb", 1); }
      if Contains(lower, "mb") { ContainsChars(lower, "mb", 1); }
      if Contains(lower, "gb") { ContainsChars(lower, "gb", 1); }
    }
    Contains(lower, "bytes") || Contains(lower, "kb") || Contains(lower, "mb") || Contains(lower, "gb")
  }

  /** The amount's lower-cased text is checked for a byte unit first, then for "eos". */
  function ClassifyAmount(amount: string): (k: AmountKind)
    ensures k == ByteAmount <==> HasByteUnit(Lower(amount))
    ensures k == EosAmount <==> !HasByteUnit(Lower(amount)) && Contains(Lower(amount), "eos")
  {
    var lower := Lower(amount);
    if HasByteUnit(lower) then ByteAmount
    else if Contains(lower, "eos") then EosAmount
    else InvalidAmount
  }

  /** A numeral: digits and decimal points only. */
  predicate IsNumeral(s: string)
  {
    forall i :: 0 <= i < |s| ==> IsDigit(s[i]) || s[i] == '.'
  }

  lemma LowerNumeral(n: string)
    requires IsNumeral(n)
    ensures Lower(n) == n && 'b' !in n && 'e' !in n
  {
  }

  /** The byte units of the prompt's examples (any case) take the bytes path. */
  lemma ByteUnitsClassified(n: string, unit: string)
    requires Lower(unit) in ["bytes", "kb", "mb", "gb"]
    ensures ClassifyAmount(n + unit) == ByteAmount
  {
    LowerAppend(n, unit);
    ContainsSuffix(Lower(n), Lower(unit));
  }

  /** `<numeral>EOS` in any case takes the EOS path. */
  lemma EosAmountClassified(n: string, unit: string)
    requires IsNumeral(n) && Lower(unit) == "eos"
    ensures ClassifyAmount(n + unit) == EosAmount
  {
    LowerAppend(n, unit);
    LowerNumeral(n);
    var lower := n + "eos";
    assert 'b' !in lower;
    ContainsSuffix(n, "eos");
  }

  /** A bare numeral has no unit and is an invalid format. */
  lemma BareNumeralInvalid(n: string)
    requires IsNumeral(n)
    ensures ClassifyAmount(n) == InvalidAmount
  {
    LowerNumeral(n);
    forall marker | marker in ["bytes", "kb", "mb", "gb", "eos"]
      ensures !Contains(n, marker)
    {
      if Contains(n, marker) {
        var k := if marker == "eos" then 0 else |marker| - 1;
        ContainsChars(n, marker, k);
      }
    }
  }

  /** The message of the TypeError `undefined.toLowerCase()` raises when the reply has no comma. */
  const MissingAmountError := "Cannot read properties of undefined (reading 'toLowerCase')"

  datatype BuyRamOutcome =
    | BuyRamLocked                      // "Unlock Wallet then buy RAM."; no prompt
    | BuyRamNoText                      // "Please provide the required information."
    | InvalidFormat                     // "Invalid amount format. ..."
    | BoughtBytes(recipient: string, amount: string, transactionId: string)
    | BoughtEos(recipient: string, amount: string, transactionId: string)
    | BuyRamFailed(error: string)

  /**
   * The buy-RAM reply once it has text, split on commas: a missing amount
   * raises a TypeError, an amount with neither a unit nor "eos" is refused,
   * and otherwise the chain call's outcome `rpc` is reported.
   */
  function BuyRamReply(fields: seq<string>, rpc: RpcResult, accountName: string): (o: BuyRamOutcome)
    requires |fields| >= 1
    ensures o.BoughtBytes? ==> |fields| >= 2 && o.recipient == fields[0] && o.amount == fields[1]
                               && ClassifyAmount(fields[1]) == ByteAmount && rpc.Confirmed?
    ensures o.BoughtEos? ==> |fields| >= 2 && o.recipient == fields[0] && o.amount == fields[1]
                             && ClassifyAmount(fields[1]) == EosAmount && rpc.Confirmed?
    ensures o == InvalidFormat <==> |fields| >= 2 && ClassifyAmount(fields[1]) == InvalidAmount
    ensures o.BuyRamFailed? <==> |fields| < 2 || (ClassifyAmount(fields[1]) != InvalidAmount && !rpc.Confirmed?)
    ensures (o.BoughtBytes? || o.BoughtEos?) ==> o.transactionId == rpc.transactionId
    ensures o.BuyRamFailed? && |fields| < 2 ==> o.error == ErrorMessage(Rejected(MissingAmountError), accountName)
    ensures o.BuyRamFailed? && |fields| >= 2 ==> !rpc.Confirmed? && o.error == ErrorMessage(rpc, accountName)
  {
    if |fields| < 2 then BuyRamFailed(ErrorMessage(Rejected(MissingAmountError), accountName))
    else
      var recipient, amount := fields[0], fields[1];
      match ClassifyAmount(amount)
      case InvalidAmount => InvalidFormat
      case kind =>
        match rpc
        case Confirmed(id) =>
          if kind == ByteAmount then BoughtBytes(recipient, amount, id) else BoughtEos(recipient, amount, id)
        case _ => BuyRamFailed(ErrorMessage(rpc, accountName))
  }

  /** handleBuyRAM with its reply: the gate, the text check, then BuyRamReply. */
  function BuyRamFlow(isUnlock: bool, text: Option<string>, rpc: RpcResult, accountName: string)
    : (o: BuyRamOutcome)
    ensures !isUnlock <==> o == BuyRamLocked
    ensures isUnlock && !HasText(text) <==> o == BuyRamNoText
    ensures isUnlock && HasText(text) ==> o == BuyRamReply(Split(text.value, ','), rpc, accountName)
  {
    if !isUnlock then BuyRamLocked
    else if !HasText(text) then BuyRamNoText
    else BuyRamReply(Split(text.value, ','), rpc, accountName)
  }
}
