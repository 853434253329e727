/** The `Deposit` event listener of the contract statistics panel
    (src/components/ScStats.js). Each call receives one batch of decoded logs
    and raises at most one "Deposited" notification: only when the FIRST log
    carries `args` whose `sender` is exactly the viewing user's address. The
    result `Some(amount)` is that notification (its payload is the deposited
    amount in wei); `None` is "no notification". */
module ScStats {
  import opened Wrappers

  /** Decoded arguments of one `Deposit` log. */
  datatype DepositArgs = DepositArgs(sender: string, amount: nat)

  /** `logs[0]?.args`: absent when the batch is empty or the first log has no
      decoded arguments; this read never fails. */
  function FirstArgs(logs: seq<Option<DepositArgs>>): (r: Option<DepositArgs>)
    ensures |logs| == 0 ==> r.None?
    ensures |logs| > 0 ==> r == logs[0]
  {
    if |logs| == 0 then None else logs[0]
  }

  /** The notification one listener call raises. `viewer` is the `address`
      prop, `None` when no account is connected; an `undefined` viewer never
      equals a decoded sender string. Comparison is exact string equality. */
  function DepositNotification(logs: seq<Option<DepositArgs>>, viewer: Option<string>): (r: Option<nat>)
    ensures r.Some? <==>
      |logs| > 0 && logs[0].Some? && viewer.Some? && logs[0].value.sender == viewer.value
    ensures r.Some? ==> r.value == logs[0].value.amount
  {
    match FirstArgs(logs)
    case None => None
    case Some(args) =>
      match viewer
      case None => None
      case Some(address) => if args.sender == address then Some(args.amount) else None
  }

  /** Only `logs[0]` is examined: whatever follows it in the batch does not
      change the outcome, so a batch of any length raises at most the one
      notification its first log decides. */
  lemma OnlyFirstLogCounts(first: Option<DepositArgs>, rest: seq<Option<DepositArgs>>, viewer: Option<string>)
    ensures DepositNotification([first] + rest, viewer) == DepositNotification([first], viewer)
  {
    assert ([first] + rest)[0] == first;
  }

  /** A deposit by the viewer at any later position of the batch is not
      announced when the first log does not match. */
  lemma LaterMatchIgnored(logs: seq<Option<DepositArgs>>, k: nat, viewer: Option<string>)
    requires 0 < k < |logs|
    requires viewer.Some? && logs[k].Some? && logs[k].value.sender == viewer.value
    requires logs[0].None? || logs[0].value.sender != viewer.value
    ensures DepositNotification(logs, viewer) == None
  {
  }

  /** An empty batch raises nothing. */
  lemma EmptyBatchSilent(viewer: Option<string>)
    ensures DepositNotification([], viewer) == None
  {
  }

  /** Any sender that differs from the viewer's address, in any character
      (letter case included), is not announced. */
  lemma SenderMustMatchExactly(sender: string, address: string, amount: nat)
    requires sender != address
    ensures DepositNotification([Some(DepositArgs(sender, amount))], Some(address)) == None
  {
  }

  /** No case normalisation, shown on one pair: a checksummed sender and the
      same address in lower case do not match; identical strings do. */
  lemma SenderCaseMatters(amount: nat)
    ensures DepositNotification([Some(DepositArgs("0xAbC1", amount))], Some("0xabc1")) == None
    ensures DepositNotification([Some(DepositArgs("0xabc1", amount))], Some("0xabc1")) == Some(amount)
  {
    assert "0xAbC1"[2] != "0xabc1"[2];
  }
}
