/**
 * The `/move` handler, `move_messages` (discord_move_bot.py:32-93).
 *
 * It validates the action, scans the source history newest first collecting
 * the messages the action selects, then replays the collection in reverse:
 * for each message it fetches the attachments, sends the composed post to the
 * destination and deletes the original. Nothing around send, delete or the
 * attachment fetch catches an exception, and neither does anything around the
 * history fetch, so the first failure ends the handler.
 */
module Move {
  import opened Results
  import opened Period
  import opened Channel

  /** The actions `/move` accepts (discord_move_bot.py:53). */
  datatype Action = All | Last | FromUser

  function ParseAction(s: string): (a: Option<Action>)
    ensures a == Some(All) <==> s == "-all"
    ensures a == Some(Last) <==> s == "-last"
    ensures a == Some(FromUser) <==> s == "-from_user"
  {
    if s == "-all" then Some(All)
    else if s == "-last" then Some(Last)
    else if s == "-from_user" then Some(FromUser)
    else None
  }

  /** Where a call to Discord raises: fetching the history, or, in a replay step,
      fetching an attachment, sending, or deleting. */
  datatype Stage = HistoryFails | AttachmentFails | SendFails | DeleteFails

  /** The transport failure a run meets, if any. With `HistoryFails`, `step` is the
      position in the history whose fetch raises (the history's length: the fetch
      that would find its end); otherwise replay step `step` (0-based) raises at `stage`. */
  datatype Fault = Fault(step: nat, stage: Stage)

  /** Why the handler stopped without a reply. */
  datatype Abort = PeriodRejected(why: Uncaught) | HistoryFailed(position: nat) | TransportFailed(step: nat)

  /** The handler's reply, or the exception that ended it. */
  datatype Reply = InvalidAction | MissingPeriod | InvalidPeriod | Moved(count: nat) | Aborted(cause: Abort)

  /** What the history loop ends with: the collected messages, or a reply that ended the handler. */
  datatype Scan = Batch(selected: seq<Msg>) | Stopped(reply: Reply)

  function UserId(user: Option<User>): Option<Id> {
    if user.Some? then Some(user.value.id) else None
  }

  /** What the `-last` branch makes of the period for each message it scans
      (discord_move_bot.py:64-77): `not time_period` ends the handler with a
      request for a period, a malformed one with "Invalid time period format",
      an unknown unit or an out-of-range duration with an exception. */
  function Window(period: Option<string>): (w: Result<int, Reply>)
    ensures w == Err(MissingPeriod) <==> period.None? || period.value == ""
    ensures w == Err(InvalidPeriod) <==>
      period.Some? && period.value != "" && ParseTimePeriod(period.value) == Err(Malformed)
    ensures w.Ok? <==> period.Some? && period.value != "" && ParseTimePeriod(period.value).Ok?
    ensures w.Ok? ==> w.value == ParseTimePeriod(period.value).value
    ensures forall c :: w == Err(Aborted(PeriodRejected(c))) <==>
      period.Some? && period.value != "" && ParseTimePeriod(period.value) == Err(Raised(c))
  {
    if period.None? || period.value == "" then Err(MissingPeriod)
    else
      match ParseTimePeriod(period.value)
      case Ok(window) => Ok(window)
      case Err(Malformed) => Err(InvalidPeriod)
      case Err(Raised(why)) => Err(Aborted(PeriodRejected(why)))
  }

  /** Whether the loop body of discord_move_bot.py:60-83 collects `m`: every message
      under `-all`, the given user's under `-from_user`, and under `-last` those no
      older than `window` at `now`. */
  predicate Selects(action: Action, user: Option<User>, now: Instant, window: int, m: Msg) {
    match action
    case All => true
    case FromUser => user.Some? && m.author.id == user.value.id
    case Last => now - m.createdAt <= window
  }

  /** The outcome of the history loop (discord_move_bot.py:57-83); `broken` is the
      position whose fetch raises, if any. The period is only looked at once the
      first message has been fetched, so an empty history never reports a missing
      or malformed period. */
  function Scanned(history: seq<Msg>, action: Action, period: Option<string>, user: Option<User>, now: Instant,
                   broken: Option<nat>): (s: Scan)
    ensures s.Stopped? <==>
      (broken.Some? && broken.value <= |history|) || (action == Last && history != [] && Window(period).Err?)
    ensures s.Stopped? && s.reply.Aborted? && s.reply.cause.HistoryFailed? ==> broken == Some(s.reply.cause.position)
    ensures s.Batch? ==> |s.selected| <= |history|
    ensures s.Stopped? ==>
      s.reply == (if action == Last && history != [] && broken != Some(0) && Window(period).Err?
                  then Window(period).error else Aborted(HistoryFailed(broken.value)))
    ensures s.Batch? ==> forall m :: m in s.selected <==>
      m in history && Selects(action, user, now, if Window(period).Ok? then Window(period).value else 0, m)
  {
    if action == Last && history != [] && broken != Some(0) && Window(period).Err? then Stopped(Window(period).error)
    else if broken.Some? && broken.value <= |history| then Stopped(Aborted(HistoryFailed(broken.value)))
    else
      match action
      case All =>
        PickMembers(history, Everything, true);
        Batch(Pick(history, Everything, true))
      case FromUser =>
        PickMembers(history, AuthoredBy(UserId(user)), true);
        Batch(Pick(history, AuthoredBy(UserId(user)), true))
      case Last =>
        if history == [] then Batch([])
        else
          PickMembers(history, Recent(now, Window(period).value), true);
          Batch(Pick(history, Recent(now, Window(period).value), true))
  }

  /** The history loop of discord_move_bot.py:57-83, re-reading the period for every message as the source does. */
  method ScanHistory(history: seq<Msg>, action: Action, period: Option<string>, user: Option<User>, now: Instant,
                     broken: Option<nat>)
    returns (s: Scan)
    ensures s == Scanned(history, action, period, user, now, broken)
  {
    hide Pick, ParseTimePeriod, Split;
    var messages: seq<Msg> := [];
    var i := 0;
    while i < |history|
      invariant 0 <= i <= |history|
      invariant broken.Some? ==> i <= broken.value
      invariant action == All ==> messages == Pick(history[..i], Everything, true)
      invariant action == FromUser ==> messages == Pick(history[..i], AuthoredBy(UserId(user)), true)
      invariant action == Last && i == 0 ==> messages == []
      invariant action == Last && i > 0 ==>
        Window(period).Ok? && messages == Pick(history[..i], Recent(now, Window(period).value), true)
    {
      if broken == Some(i) {
        return Stopped(Aborted(HistoryFailed(i)));
      }
      var message := history[i];
      match action {
        case All =>
          PickStep(history, i, Everything);
          messages := messages + [message];
        case Last =>
          var window := Window(period);
          if window.Err? {
            return Stopped(window.error);
          }
          PickStep(history, i, Recent(now, window.value));
          if now - message.createdAt <= window.value {
            messages := messages + [message];
          }
        case FromUser =>
          PickStep(history, i, AuthoredBy(UserId(user)));
          if user.Some? && message.author.id == user.value.id {
            messages := messages + [message];
          }
      }
      i := i + 1;
    }
    if broken == Some(|history|) {
      return Stopped(Aborted(HistoryFailed(|history|)));
    }
    assert history[..|history|] == history;
    return Batch(messages);
  }

  /** The position whose history fetch raises, if the fault is there. */
  function BrokenHistory(fault: Option<Fault>): Option<nat> {
    if fault.Some? && fault.value.stage == HistoryFails then Some(fault.value.step) else None
  }

  /** The replay step that raises, if the fault is in the replay. */
  function FailingStep(fault: Option<Fault>): Option<nat> {
    if fault.Some? && fault.value.stage != HistoryFails then Some(fault.value.step) else None
  }

  /** How many posts a replay of `n` messages sends: one more than it completes
      when the failure is the delete that follows a send. */
  function SentCount(n: nat, fault: Option<Fault>): (c: nat)
    ensures c <= n
    ensures Completed(n, FailingStep(fault)) <= c <= Completed(n, FailingStep(fault)) + 1
    ensures c == Completed(n, FailingStep(fault)) + 1 <==>
      Completed(n, FailingStep(fault)) < n && fault.value.stage == DeleteFails
  {
    var k := Completed(n, FailingStep(fault));
    if k < n && fault.value.stage == DeleteFails then k + 1 else k
  }

  /** `move_messages` (discord_move_bot.py:32-93). `from` and `to` may be the same channel. */
  method MoveMessages(from: Channel, to: Channel, action: string := "-all", period: Option<string>,
                      user: Option<User>, now: Instant, fault: Option<Fault>)
    returns (r: Reply)
    requires from.Valid()
    modifies from`history, to`posts
    ensures from.Valid()
    ensures ParseAction(action).None? ==>
      r == InvalidAction && from.history == old(from.history) && to.posts == old(to.posts)
    ensures ParseAction(action).Some? ==>
      var s := Scanned(old(from.history), ParseAction(action).value, period, user, now, BrokenHistory(fault));
      (s.Stopped? ==> r == s.reply && from.history == old(from.history) && to.posts == old(to.posts)) &&
      (s.Batch? ==>
        var order := Reverse(s.selected);
        var k := Completed(|order|, FailingStep(fault));
        r == (if k == |order| then Moved(|order|) else Aborted(TransportFailed(k))) &&
        to.posts == old(to.posts) + Posts(order[..SentCount(|order|, fault)]) &&
        from.history == Without(old(from.history), Ids(order[..k])))
    ensures ParseAction(action).Some? && old(from.history) == [] && BrokenHistory(fault).None? ==>
      r == Moved(0) && from.history == [] && to.posts == old(to.posts)
  {
    var parsed := ParseAction(action);
    if parsed.None? {
      return InvalidAction;
    }
    var scan := ScanHistory(from.history, parsed.value, period, user, now, BrokenHistory(fault));
    if scan.Stopped? {
      return scan.reply;
    }
    var order := Reverse(scan.selected);
    r := Replay(from, to, order, fault);
    WithoutDistinct(old(from.history), Ids(order[..Completed(|order|, FailingStep(fault))]));
  }

  /** The replay loop of discord_move_bot.py:86-90: for each message, oldest
      first, fetch its attachments, send the composed post, delete the original. */
  method Replay(from: Channel, to: Channel, order: seq<Msg>, fault: Option<Fault>) returns (r: Reply)
    modifies from`history, to`posts
    ensures var k := Completed(|order|, FailingStep(fault));
      r == (if k == |order| then Moved(|order|) else Aborted(TransportFailed(k))) &&
      to.posts == old(to.posts) + Posts(order[..SentCount(|order|, fault)]) &&
      from.history == Without(old(from.history), Ids(order[..k]))
  {
    hide Without, Ids, Posts, Compose, Carried;
    ghost var k := Completed(|order|, FailingStep(fault));
    ghost var sent := SentCount(|order|, fault);
    ghost var h := from.history;
    ghost var p := to.posts;
    WithoutNone(from.history);
    IdsEmpty(order[..0]);
    var j := 0;
    while j < |order|
      invariant 0 <= j <= k
      invariant to.posts == p + Posts(order[..j])
      invariant from.history == Without(h, Ids(order[..j]))
    {
      var message := order[j];
      PostsStep(order, j);
      DeletePrefixStep(h, order, j);
      var failsHere := FailingStep(fault) == Some(j);
      assert failsHere <==> j == k;
      if failsHere && fault.value.stage != DeleteFails {
        assert sent == j;
        return Aborted(TransportFailed(j));
      }
      to.Send(Compose(message));
      if failsHere {
        assert sent == j + 1;
        return Aborted(TransportFailed(j));
      }
      from.Delete(message.id);
      j := j + 1;
    }
    assert order[..|order|] == order;
    assert k == sent == |order|;
    return Moved(|order|);
  }


  // ---------------------------------------------------------------- properties

  /** With no user given, `-from_user` selects nothing. */
  lemma {:induction false} NoUserSelectsNothing(h: seq<Msg>)
    ensures Pick(h, AuthoredBy(None), true) == []
  {
    if h != [] {
      NoUserSelectsNothing(h[..|h| - 1]);
    }
  }

  /** A completed move leaves the source holding exactly the unselected messages,
      in their order, and sends the selected ones oldest first. */
  lemma FullMove(h: seq<Msg>, r: Rule)
    requires Distinct(h)
    ensures Without(h, Ids(Reverse(Pick(h, r, true)))) == Pick(h, r, false)
    ensures Reverse(Pick(h, r, true)) == Pick(Reverse(h), r, true)
  {
    var sel := Pick(h, r, true);
    assert Ids(Reverse(sel)) == Ids(sel);
    DeletingSelectedLeavesRest(h, r);
    ReverseOfPick(h, r, true);
  }

  /** When replay step `k` fails, the messages replayed before it are gone from
      the source and every later one, the failing one included, is still there. */
  lemma PartialMove(h: seq<Msg>, r: Rule, k: nat)
    requires Distinct(h)
    requires k <= |Reverse(Pick(h, r, true))|
    ensures var order := Reverse(Pick(h, r, true));
      forall j :: 0 <= j < |order| ==> (order[j] in Without(h, Ids(order[..k])) <==> k <= j)
  {
    var order := Reverse(Pick(h, r, true));
    PickDistinct(h, r, true);
    ReverseDistinct(Pick(h, r, true));
    PickMembers(h, r, true);
    WithoutMembers(h, Ids(order[..k]));
    forall j | 0 <= j < |order|
      ensures order[j] in Without(h, Ids(order[..k])) <==> k <= j
    {
      assert order[j] in h;
      if j < k {
        assert order[j] == order[..k][j];
      }
    }
  }

  /** Three messages, oldest `m1`, selected by `-all`; the second send fails:
      `m1` is posted and deleted, `m2` and `m3` stay in the source, nothing else is posted. */
  lemma SecondSendFails(m1: Msg, m2: Msg, m3: Msg)
    requires m1.id != m2.id && m2.id != m3.id && m1.id != m3.id
    ensures var order := Reverse(Pick([m3, m2, m1], Everything, true));
      var k := Completed(|order|, FailingStep(Some(Fault(1, SendFails))));
      order == [m1, m2, m3] && k == 1 && SentCount(|order|, Some(Fault(1, SendFails))) == 1 &&
      Posts(order[..1]) == [Compose(m1)] &&
      Without([m3, m2, m1], Ids(order[..k])) == [m3, m2]
  {
    hide Pick, Reverse, Posts, Compose;
    var h := [m3, m2, m1];
    PickEverything(h);
    var order := Reverse(h);
    ReverseAt(h, 0);
    ReverseAt(h, 1);
    ReverseAt(h, 2);
    assert order == [m1, m2, m3];
    assert order[..1] == [m1];
    PostsStep(order, 0);
    assert order[..0] == [];
    IdsOfLast([m1]);
    assert [m1][..0] == [];
    IdsOfLast([m3, m2]);
    IdsOfLast([m3]);
    assert [m3, m2][..1] == [m3] && [m3][..0] == [];
    IdsEmpty([m3][..0]);
    IdsEmpty([m1][..0]);
    assert Ids(order[..1]) == {m1.id};
    assert m1.id !in Ids([m3, m2]);
    DeleteNewest([m3, m2], m1);
    assert [m3, m2] + [m1] == h;
    assert Posts(order[..1]) == [Compose(m1)];
  }
}
