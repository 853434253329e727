/** The user panel of the wallet front end (src/components/UserFeatures.js):
    the projection of the `getWithdrawTxes` read into the "Transaction
    Approval List", the gate that decides whether a deposit is prepared, the
    choice of the deposit error line, and the first-log reads of the two
    withdrawal event listeners. */
module UserFeatures {
  import opened Wrappers

  // ---------------------------------------------------------------------
  // Withdrawal records and the ids the panel gives them
  // ---------------------------------------------------------------------

  /** One record of the `getWithdrawTxes` read: recipient, amount in wei,
      number of owner approvals, and whether the transfer was executed. */
  datatype WithdrawTx = WithdrawTx(to: string, amount: nat, approvals: nat, sent: bool)

  /** A record spread into a fresh object with an added `id`. */
  datatype ListedTx = ListedTx(to: string, amount: nat, approvals: nat, sent: bool, id: nat)

  function WithId(t: WithdrawTx, id: nat): (listed: ListedTx) {
    ListedTx(t.to, t.amount, t.approvals, t.sent, id)
  }

  /** The record a listed entry was made from (its fields without the id). */
  function Record(t: ListedTx): (record: WithdrawTx) {
    WithdrawTx(t.to, t.amount, t.approvals, t.sent)
  }

  /** `map((txn, index) => ({...txn, id: index}))` over a suffix whose first
      element sits at position `start` of the whole read. */
  function NumberFrom(txns: seq<WithdrawTx>, start: nat): (r: seq<ListedTx>)
    ensures |r| == |txns|
    ensures forall i :: 0 <= i < |r| ==> r[i] == WithId(txns[i], start + i)
    decreases |txns|
  {
    if txns == [] then [] else [WithId(txns[0], start)] + NumberFrom(txns[1..], start + 1)
  }

  /** Every record gets its position as id and keeps all its other fields. */
  function AssignIds(txns: seq<WithdrawTx>): (r: seq<ListedTx>)
    ensures |r| == |txns|
    ensures forall i :: 0 <= i < |r| ==> r[i].id == i && Record(r[i]) == txns[i]
    ensures forall t :: t in r <==> exists i :: 0 <= i < |txns| && t == WithId(txns[i], i)
  {
    var r := NumberFrom(txns, 0);
    assert forall i :: 0 <= i < |r| ==> r[i] == WithId(txns[i], i);
    r
  }

  /** `txnsWithId`: `[]` while the read is loading; otherwise the read's
      `result` with ids, which is `undefined` (`None`) when the read has no
      result. */
  function TxnsWithId(readIsLoading: bool, result: Option<seq<WithdrawTx>>): (r: Option<seq<ListedTx>>)
    ensures readIsLoading ==> r == Some([])
    ensures !readIsLoading ==> (r.Some? <==> result.Some?)
    ensures !readIsLoading && r.Some? ==>
      |r.value| == |result.value| &&
      forall i :: 0 <= i < |r.value| ==> r.value[i].id == i && Record(r.value[i]) == result.value[i]
  {
    if readIsLoading then Some([])
    else match result
      case None => None
      case Some(txns) => Some(AssignIds(txns))
  }

  /** The fields of a listed sequence with the ids dropped. */
  function StripIds(s: seq<ListedTx>): (records: seq<WithdrawTx>) {
    seq(|s|, i requires 0 <= i < |s| => Record(s[i]))
  }

  /** Id assignment loses nothing: dropping the ids gives back the read. */
  lemma StripIdsAfterAssignIds(txns: seq<WithdrawTx>)
    ensures StripIds(AssignIds(txns)) == txns
  {
  }

  ghost predicate IdsIncreasing(s: seq<ListedTx>) {
    forall i, j :: 0 <= i < j < |s| ==> s[i].id < s[j].id
  }

  /** The ids are exactly 0 .. n-1, hence distinct and ascending. */
  lemma AssignedIdsArePositions(txns: seq<WithdrawTx>)
    ensures seq(|txns|, i requires 0 <= i < |txns| => AssignIds(txns)[i].id) == seq(|txns|, i => i)
    ensures IdsIncreasing(AssignIds(txns))
  {
  }

  // ---------------------------------------------------------------------
  // The quorum filter
  // ---------------------------------------------------------------------

  /** `filter((txn) => parseInt(txn?.approvals?.toString()) < quorem)`. The
      threshold is the component's `quorem` prop and is not validated. */
  function FilterUnapproved(txns: seq<ListedTx>, quorem: int): (r: seq<ListedTx>)
    ensures |r| <= |txns|
    ensures forall t :: t in r <==> t in txns && t.approvals < quorem
    decreases |txns|
  {
    if txns == [] then []
    else (if txns[0].approvals < quorem then [txns[0]] else []) + FilterUnapproved(txns[1..], quorem)
  }

  /** The records the list leaves out: those that reached the threshold. */
  function FilterApproved(txns: seq<ListedTx>, quorem: int): (r: seq<ListedTx>)
    ensures forall t :: t in r <==> t in txns && t.approvals >= quorem
    decreases |txns|
  {
    if txns == [] then []
    else (if txns[0].approvals >= quorem then [txns[0]] else []) + FilterApproved(txns[1..], quorem)
  }

  /** `a` is `b` with some elements removed, order kept. */
  ghost predicate IsSubsequence(a: seq<ListedTx>, b: seq<ListedTx>)
    decreases |b|
  {
    if a == [] then true
    else if b == [] then false
    else if a[0] == b[0] then IsSubsequence(a[1..], b[1..])
    else IsSubsequence(a, b[1..])
  }

  /** The pending list keeps the read's order. */
  lemma {:induction false} FilterIsSubsequence(txns: seq<ListedTx>, quorem: int)
    ensures IsSubsequence(FilterUnapproved(txns, quorem), txns)
    decreases |txns|
  {
    if txns != [] {
      FilterIsSubsequence(txns[1..], quorem);
      var r := FilterUnapproved(txns, quorem);
      if txns[0].approvals < quorem {
        assert r[0] == txns[0] && r[1..] == FilterUnapproved(txns[1..], quorem);
      } else if r != [] {
        assert r == FilterUnapproved(txns[1..], quorem);
        SubsequenceDropFirst(r, txns[1..]);
      }
    }
  }

  /** Removing the first element of a subsequence keeps it a subsequence. */
  lemma {:induction false} SubsequenceDropFirst(a: seq<ListedTx>, b: seq<ListedTx>)
    requires a != [] && IsSubsequence(a, b)
    ensures IsSubsequence(a[1..], b)
    decreases |b|, 0
  {
    assert b == [b[0]] + b[1..];
    if a[0] == b[0] {
      SubsequenceWeaken(a[1..], b[1..], b[0]);
    } else {
      SubsequenceDropFirst(a, b[1..]);
      SubsequenceWeaken(a[1..], b[1..], b[0]);
    }
  }

  /** A subsequence of `b` is a subsequence of `[x] + b`. */
  lemma {:induction false} SubsequenceWeaken(a: seq<ListedTx>, b: seq<ListedTx>, x: ListedTx)
    requires IsSubsequence(a, b)
    ensures IsSubsequence(a, [x] + b)
    decreases |b|, 1
  {
    assert ([x] + b)[1..] == b;
    if a != [] && a[0] == x {
      SubsequenceDropFirst(a, b);
    }
  }

  /** Ascending ids stay strictly ascending after filtering. */
  lemma {:induction false} FilterKeepsIdsIncreasing(txns: seq<ListedTx>, quorem: int)
    requires IdsIncreasing(txns)
    ensures IdsIncreasing(FilterUnapproved(txns, quorem))
    decreases |txns|
  {
    if txns != [] {
      var tail := FilterUnapproved(txns[1..], quorem);
      assert IdsIncreasing(txns[1..]);
      FilterKeepsIdsIncreasing(txns[1..], quorem);
      forall t | t in tail
        ensures txns[0].id < t.id
      {
        assert t in txns[1..];
        var k :| 0 <= k < |txns[1..]| && txns[1..][k] == t;
        assert txns[k + 1] == t;
      }
    }
  }

  /** Every record is either listed or dropped as approved, exactly once. */
  lemma {:induction false} FilterPartitions(txns: seq<ListedTx>, quorem: int)
    ensures multiset(FilterUnapproved(txns, quorem)) + multiset(FilterApproved(txns, quorem)) == multiset(txns)
    ensures |FilterUnapproved(txns, quorem)| + |FilterApproved(txns, quorem)| == |txns|
    decreases |txns|
  {
    if txns != [] {
      FilterPartitions(txns[1..], quorem);
      assert txns == [txns[0]] + txns[1..];
    }
  }

  /** The filter looks at `approvals` only: two reads that agree on every
      record's approvals and id list the same entries at the same places,
      whatever their `sent`, `to` and `amount`. In particular an executed
      record (`sent`) below the threshold is still listed. */
  lemma {:induction false} FilterIgnoresOtherFields(s: seq<ListedTx>, s': seq<ListedTx>, quorem: int)
    requires |s| == |s'|
    requires forall i :: 0 <= i < |s| ==> s[i].approvals == s'[i].approvals && s[i].id == s'[i].id
    ensures |FilterUnapproved(s, quorem)| == |FilterUnapproved(s', quorem)|
    ensures forall k :: 0 <= k < |FilterUnapproved(s, quorem)| ==>
      FilterUnapproved(s, quorem)[k].id == FilterUnapproved(s', quorem)[k].id &&
      FilterUnapproved(s, quorem)[k].approvals == FilterUnapproved(s', quorem)[k].approvals
    decreases |s|
  {
    if s != [] {
      FilterIgnoresOtherFields(s[1..], s'[1..], quorem);
    }
  }

  /** Without validation a threshold at or below zero lists nothing. */
  lemma NonPositiveQuoremListsNothing(txns: seq<ListedTx>, quorem: int)
    requires quorem <= 0
    ensures FilterUnapproved(txns, quorem) == []
  {
  }

  /** `unapprovedTxns`: `txnsWithId?.filter(...)`, `undefined` when
      `txnsWithId` is. */
  function UnapprovedTxns(readIsLoading: bool, result: Option<seq<WithdrawTx>>, quorem: int): (r: Option<seq<ListedTx>>)
    ensures r.Some? <==> TxnsWithId(readIsLoading, result).Some?
  {
    match TxnsWithId(readIsLoading, result)
    case None => None
    case Some(listed) => Some(FilterUnapproved(listed, quorem))
  }

  /** What the approval list shows, stated on the raw read: empty while
      loading; otherwise exactly the records below the threshold, each with
      its position as id, in ascending id order. */
  lemma UnapprovedTxnsSpec(readIsLoading: bool, result: Option<seq<WithdrawTx>>, quorem: int)
    ensures readIsLoading ==> UnapprovedTxns(readIsLoading, result, quorem) == Some([])
    ensures !readIsLoading && result.None? ==> UnapprovedTxns(readIsLoading, result, quorem) == None
    ensures !readIsLoading && result.Some? ==>
      var txns := result.value;
      var r := UnapprovedTxns(readIsLoading, result, quorem);
      r.Some? && IdsIncreasing(r.value) &&
      IsSubsequence(r.value, AssignIds(txns)) &&
      forall t :: t in r.value <==>
        exists i :: 0 <= i < |txns| && t == WithId(txns[i], i) && txns[i].approvals < quorem
  {
    if !readIsLoading && result.Some? {
      var txns := result.value;
      var listed := AssignIds(txns);
      AssignedIdsArePositions(txns);
      FilterKeepsIdsIncreasing(listed, quorem);
      FilterIsSubsequence(listed, quorem);
    }
  }

  /** One withdrawal, one approval short of a quorum of two, is listed with
      id 0; once a later read reports the second approval the list is empty. */
  lemma QuorumReachedScenario()
    ensures UnapprovedTxns(false, Some([WithdrawTx("0xA", 1000000000000000000, 1, false)]), 2)
      == Some([ListedTx("0xA", 1000000000000000000, 1, false, 0)])
    ensures UnapprovedTxns(false, Some([WithdrawTx("0xA", 1000000000000000000, 2, false)]), 2)
      == Some([])
  {
    assert AssignIds([WithdrawTx("0xA", 1000000000000000000, 1, false)])
      == [ListedTx("0xA", 1000000000000000000, 1, false, 0)];
    assert AssignIds([WithdrawTx("0xA", 1000000000000000000, 2, false)])
      == [ListedTx("0xA", 1000000000000000000, 2, false, 0)];
  }

  // ---------------------------------------------------------------------
  // Deposit preparation
  // ---------------------------------------------------------------------

  /** The debounced deposit amount: the number `0` the state starts with, or
      the bigint wei value `parseEther` made of the user's input. A `number`
      input field accepts a minus sign, so the wei value may be negative. */
  datatype DebouncedDeposit = InitialZero | ParsedWei(wei: int)

  /** The amount in wei that the value stands for. */
  function Wei(d: DebouncedDeposit): (wei: int) {
    match d
    case InitialZero => 0
    case ParsedWei(w) => w
  }

  /** `Boolean(debouncedDeposit)`: the number 0 and the bigint 0n are falsy,
      every other bigint is truthy. */
  function PrepareEnabled(d: DebouncedDeposit): (r: bool)
    ensures r <==> Wei(d) != 0
  {
    match d
    case InitialZero => false
    case ParsedWei(w) => w != 0
  }

  /** The deposit call that is prepared, given by its `value`, or `None` when
      preparation is disabled. */
  function PreparedDeposit(d: DebouncedDeposit): (r: Option<int>)
    ensures r.Some? <==> Wei(d) != 0
    ensures r.Some? ==> r.value == Wei(d)
  {
    if PrepareEnabled(d) then Some(Wei(d)) else None
  }

  /** Neither the initial 0 nor an input of zero ether prepares a deposit. */
  lemma ZeroNeverPrepared()
    ensures PreparedDeposit(InitialZero) == None
    ensures PreparedDeposit(ParsedWei(0)) == None
  {
  }

  // ---------------------------------------------------------------------
  // The deposit error line
  // ---------------------------------------------------------------------

  /** An error object of a wagmi hook; only its `message` is shown. */
  datatype HookError = HookError(message: string)

  /** Whether the error line is rendered, and the message it shows
      (`undefined` when neither error object is set). */
  datatype ErrorLine = Hidden | Shown(message: Option<string>)

  /** `(prepareIsError || writeIsError) && (prepareError || writeError)?.message`. */
  function DepositErrorLine(prepareIsError: bool, prepareError: Option<HookError>,
                            writeIsError: bool, writeError: Option<HookError>): (r: ErrorLine)
    ensures r.Shown? <==> prepareIsError || writeIsError
    ensures r.Shown? && prepareError.Some? ==> r.message == Some(prepareError.value.message)
    ensures r.Shown? && prepareError.None? && writeError.Some? ==> r.message == Some(writeError.value.message)
    ensures r.Shown? && prepareError.None? && writeError.None? ==> r.message == None
  {
    if !(prepareIsError || writeIsError) then Hidden
    else
      var chosen := if prepareError.Some? then prepareError else writeError;
      Shown(match chosen case None => None case Some(e) => Some(e.message))
  }

  /** When each flag means "that error is set", a raised flag always shows
      exactly one message, the prepare error's if there is one. */
  lemma ErrorLineShowsOneMessage(prepareError: Option<HookError>, writeError: Option<HookError>)
    requires prepareError.Some? || writeError.Some?
    ensures
      var r := DepositErrorLine(prepareError.Some?, prepareError, writeError.Some?, writeError);
      r.Shown? && r.message.Some? &&
      r.message.value == (if prepareError.Some? then prepareError.value.message else writeError.value.message)
  {
  }

  // ---------------------------------------------------------------------
  // The CreateWithdrawTx and ApproveWithdrawTx listeners
  // ---------------------------------------------------------------------

  /** Why a listener call throws before it shows anything. */
  datatype ListenerFault = EmptyBatch

  /** `logs[0].args`, which both listeners read unguarded: it throws on an
      empty batch; otherwise it is the first log's decoded arguments, if any.
      Each call shows at most the one toast built from this value. */
  function FirstLogArgs<A>(logs: seq<Option<A>>): (r: Result<Option<A>, ListenerFault>)
    ensures r.Failure? <==> |logs| == 0
    ensures r.Success? ==> r.value == logs[0]
  {
    if |logs| == 0 then Failure(EmptyBatch) else Success(logs[0])
  }

  /** Logs after the first one never reach a toast. */
  lemma FirstLogArgsIgnoresRest<A>(first: Option<A>, rest: seq<Option<A>>)
    ensures FirstLogArgs([first] + rest) == FirstLogArgs([first])
  {
    assert ([first] + rest)[0] == first;
  }
}
