/**
 * The `/delete` handler, `delete_messages` (discord_move_bot.py:101-137).
 *
 * It parses the period, computes `cutoff = now - delta`, and deletes every
 * message `history(before = cutoff)` yields, counting them. Nothing catches a
 * failing history fetch or delete, so the first one ends the handler without a reply.
 */
module Purge {
  import opened Results
  import opened Period
  import opened Channel

  /** Where a call to Discord raises: fetching the next message of the history, or deleting it. */
  datatype Stage = HistoryFails | DeleteFails

  /** The transport failure a run meets, if any: step `step` (0-based, a position among
      the messages older than the cutoff) raises at `stage`. A `HistoryFails` at the
      number of those messages is the fetch that would find the end of the history. */
  datatype Fault = Fault(step: nat, stage: Stage)

  /** Why the handler stopped without a reply. */
  datatype Abort = PeriodRejected(why: Uncaught) | CutoffOutOfRange | HistoryFailed(position: nat) | DeleteFailed(step: nat)

  datatype Reply = InvalidPeriod | Deleted(count: nat) | Aborted(cause: Abort)

  /** The step at which the deletions stop, whichever call raises there. */
  function FailingStep(fault: Option<Fault>): Option<nat> {
    if fault.Some? then Some(fault.value.step) else None
  }

  /** How a run over `n` messages ends: the count of all `n`, or the failure that cut it short. */
  function Outcome(n: nat, fault: Option<Fault>): (r: Reply)
    ensures r.Deleted? <==>
      fault.None? || n < fault.value.step || (fault.value.step == n && fault.value.stage == DeleteFails)
    ensures r.Deleted? ==> r.count == n
    ensures r.Aborted? ==> r.cause == (if fault.value.stage == HistoryFails then HistoryFailed(fault.value.step)
                                       else DeleteFailed(fault.value.step))
  {
    if fault.None? then Deleted(n)
    else
      match fault.value.stage
      case HistoryFails => if fault.value.step <= n then Aborted(HistoryFailed(fault.value.step)) else Deleted(n)
      case DeleteFails => if fault.value.step < n then Aborted(DeleteFailed(fault.value.step)) else Deleted(n)
  }

  /** `datetime.now() - delta`, which raises OverflowError outside the datetime range. */
  function Cutoff(now: Instant, delta: int): (c: Option<Instant>)
    ensures c.Some? <==> 0 <= now - delta <= LatestInstant
    ensures c.Some? ==> c.value + delta == now
  {
    if 0 <= now - delta <= LatestInstant then Some(now - delta) else None
  }

  /** `channel.history(before = cutoff)`: the messages created strictly before the cutoff, newest first. */
  function OlderThan(history: seq<Msg>, cutoff: Instant): (older: seq<Msg>)
    ensures forall m :: m in older <==> m in history && m.createdAt < cutoff
  {
    PickMembers(history, Before(cutoff), true);
    Pick(history, Before(cutoff), true)
  }

  /** `delete_messages` (discord_move_bot.py:101-137); `fault` names the call that raises, if any. */
  method DeleteMessages(channel: Channel, period: string, now: Instant, fault: Option<Fault>) returns (r: Reply)
    requires channel.Valid()
    modifies channel`history
    ensures channel.Valid()
    ensures ParseTimePeriod(period) == Err(Malformed) ==>
      r == InvalidPeriod && channel.history == old(channel.history)
    ensures ParseTimePeriod(period).Err? && ParseTimePeriod(period).error.Raised? ==>
      r == Aborted(PeriodRejected(ParseTimePeriod(period).error.cause)) && channel.history == old(channel.history)
    ensures ParseTimePeriod(period).Ok? && Cutoff(now, ParseTimePeriod(period).value).None? ==>
      r == Aborted(CutoffOutOfRange) && channel.history == old(channel.history)
    ensures ParseTimePeriod(period).Ok? && Cutoff(now, ParseTimePeriod(period).value).Some? ==>
      var older := OlderThan(old(channel.history), Cutoff(now, ParseTimePeriod(period).value).value);
      var k := Completed(|older|, FailingStep(fault));
      r == Outcome(|older|, fault) &&
      channel.history == Without(old(channel.history), Ids(older[..k]))
  {
    var delta: int;
    match ParseTimePeriod(period) {
      case Err(Malformed) =>
        return InvalidPeriod;
      case Err(Raised(why)) =>
        return Aborted(PeriodRejected(why));
      case Ok(d) =>
        delta := d;
    }
    var cutoff := Cutoff(now, delta);
    if cutoff.None? {
      return Aborted(CutoffOutOfRange);
    }
    var older := OlderThan(channel.history, cutoff.value);
    var deletedCount := DeleteEach(channel, older, FailingStep(fault));
    WithoutDistinct(old(channel.history), Ids(older[..deletedCount]));
    if fault.Some? && fault.value.stage == HistoryFails && fault.value.step <= |older| {
      return Aborted(HistoryFailed(deletedCount));
    }
    if deletedCount < |older| {
      return Aborted(DeleteFailed(deletedCount));
    }
    return Deleted(deletedCount);
  }

  /** The loop of discord_move_bot.py:131-134: delete each message in turn and count it,
      up to the step `failing` at which fetching or deleting raises. */
  method DeleteEach(channel: Channel, older: seq<Msg>, failing: Option<nat>) returns (deletedCount: nat)
    modifies channel`history
    ensures deletedCount == Completed(|older|, failing)
    ensures channel.history == Without(old(channel.history), Ids(older[..deletedCount]))
  {
    hide Without, Ids;
    WithoutNone(channel.history);
    IdsEmpty(older[..0]);
    deletedCount := 0;
    while deletedCount < |older|
      invariant 0 <= deletedCount <= |older|
      invariant failing.Some? ==> deletedCount <= failing.value
      invariant channel.history == Without(old(channel.history), Ids(older[..deletedCount]))
    {
      if failing == Some(deletedCount) {
        return;
      }
      var message := older[deletedCount];
      DeletePrefixStep(old(channel.history), older, deletedCount);
      channel.Delete(message.id);
      deletedCount := deletedCount + 1;
    }
  }

  // ---------------------------------------------------------------- properties

  /** A completed purge leaves exactly the messages created at or after the
      cutoff, in order: a message exactly at the cutoff stays. */
  lemma PurgeKeepsNewer(history: seq<Msg>, cutoff: Instant)
    requires Distinct(history)
    ensures var rest := Without(history, Ids(OlderThan(history, cutoff)));
      forall m :: m in rest <==> m in history && m.createdAt >= cutoff
  {
    DeletingSelectedLeavesRest(history, Before(cutoff));
    PickMembers(history, Before(cutoff), false);
  }

  /** Every message is either counted as deleted or kept, never both and never twice. */
  lemma {:induction false} PurgeCountsEachOnce(history: seq<Msg>, cutoff: Instant)
    requires Distinct(history)
    ensures |OlderThan(history, cutoff)| + |Without(history, Ids(OlderThan(history, cutoff)))| == |history|
  {
    DeletingSelectedLeavesRest(history, Before(cutoff));
    PickSizes(history, Before(cutoff));
  }
}
