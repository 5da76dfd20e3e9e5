/**
 The chain stall and reorg monitor. It keeps two variables between events; what it alerts is stated
 here without any state, in terms of the events that came before.
 */
module StallMonitor {
  import opened Wrappers
  import opened BlockTree
  import opened Durations
  import opened Follower

  datatype Config = Config(stallThreshold: Duration, reorgDepthThreshold: nat)

  datatype Event = Blocks(message: BlocksExt) | Timeout

  datatype Alert =
    | ChainStall(lastBlock: HashAndNumber, duration: Duration)
    | ChainRecovery(bestBlock: HashAndNumber, duration: Duration)
    | Reorg(bestBlock: HashAndNumber, commonBlock: HashAndNumber,
            enacted: seq<HashAndNumber>, retracted: seq<HashAndNumber>)

  /** Every message carries at least one block, as the monitor expects. */
  ghost predicate HaveBlocks(events: seq<Event>) {
    forall i | 0 <= i < |events| && events[i].Blocks? :: events[i].message.blocks != []
  }

  function Tip(m: BlocksExt): HashAndNumber
    requires m.blocks != []
  {
    var last := m.blocks[|m.blocks| - 1];
    HashAndNumber(last.hash, last.number)
  }

  /* ---------- Alerts in terms of the history ---------- */

  /** The number of timeouts since the last message. */
  ghost function Streak(events: seq<Event>): nat {
    if events == [] || events[|events| - 1].Blocks? then 0 else Streak(events[..|events| - 1]) + 1
  }

  /** The newest block of the last message. */
  ghost function LastBest(events: seq<Event>): Option<HashAndNumber>
    requires HaveBlocks(events)
  {
    if events == [] then None
    else if events[|events| - 1].Blocks? then Some(Tip(events[|events| - 1].message))
    else LastBest(events[..|events| - 1])
  }

  ghost function RecoveryAlert(config: Config, streak: nat, best: HashAndNumber): seq<Alert> {
    if streak > 0 then [ChainRecovery(best, Repeated(streak, config.stallThreshold))] else []
  }

  function ReorgAlert(config: Config, m: BlocksExt): seq<Alert>
    requires m.blocks != []
  {
    match m.maybeReorgData
    case None => []
    case Some(reorg) =>
      if |reorg.retracted| >= config.reorgDepthThreshold then
        [Reorg(Tip(m), reorg.commonBlock, reorg.enacted, reorg.retracted)]
      else
        []
  }

  ghost predicate HasBlocks(event: Event) {
    event.Blocks? ==> event.message.blocks != []
  }

  /** What an event makes the monitor send, given the timeouts since the last message and its newest block. */
  ghost function AlertsAt(config: Config, streak: nat, lastBest: Option<HashAndNumber>, event: Event): seq<Alert>
    requires HasBlocks(event)
  {
    match event
    case Timeout =>
      if lastBest.Some? then [ChainStall(lastBest.value, Repeated(streak + 1, config.stallThreshold))] else []
    case Blocks(m) =>
      RecoveryAlert(config, streak, Tip(m)) + ReorgAlert(config, m)
  }

  ghost function Alerts(config: Config, events: seq<Event>): seq<Alert>
    requires HaveBlocks(events)
  {
    if events == [] then
      []
    else
      var before := events[..|events| - 1];
      Alerts(config, before) + AlertsAt(config, Streak(before), LastBest(before), events[|events| - 1])
  }

  /** The accumulated duration that stands for a number of timeouts. */
  ghost function Fired(config: Config, streak: nat): Option<Duration> {
    if streak == 0 then None else Some(Repeated(streak, config.stallThreshold))
  }

  /** The monitor's variables and alerts are what the events so far say. */
  ghost predicate Holds(config: Config, events: seq<Event>, alertSink: seq<Alert>, timeoutFired: Option<Duration>,
                        maybeLastBestBlock: Option<HashAndNumber>)
    requires HaveBlocks(events)
  {
    && alertSink == Alerts(config, events)
    && timeoutFired == Fired(config, Streak(events))
    && maybeLastBestBlock == LastBest(events)
  }

  lemma OneMoreEvent(config: Config, events: seq<Event>, i: nat, alertSink: seq<Alert>,
                     timeoutFired: Option<Duration>, maybeLastBestBlock: Option<HashAndNumber>)
    requires HaveBlocks(events) && i < |events|
    requires Holds(config, events[..i], alertSink, timeoutFired, maybeLastBestBlock)
    ensures var event, streak := events[i], Streak(events[..i]);
            Holds(config, events[..i + 1], alertSink + AlertsAt(config, streak, maybeLastBestBlock, event),
                  Fired(config, if event.Blocks? then 0 else streak + 1),
                  if event.Blocks? then Some(Tip(event.message)) else maybeLastBestBlock)
  {
    assert events[..i + 1][..i] == events[..i];
  }

  /** One turn of the loop for a message. */
  method HandleMessage(message: BlocksExt, config: Config, timeoutFired: Option<Duration>,
                       ghost streak: nat, ghost lastBest: Option<HashAndNumber>)
    returns (best: HashAndNumber, sent: seq<Alert>)
    requires message.blocks != [] && timeoutFired == Fired(config, streak)
    ensures best == Tip(message)
    ensures best.hash == message.blocks[|message.blocks| - 1].hash
    ensures best.number == message.blocks[|message.blocks| - 1].number
    ensures sent == AlertsAt(config, streak, lastBest, Blocks(message))
    ensures timeoutFired.Some? ==> sent != [] && sent[0] == ChainRecovery(best, timeoutFired.value)
    ensures timeoutFired.None? ==> forall alert | alert in sent :: alert.Reorg?
  {
    var latestBlock := message.blocks[|message.blocks| - 1];
    best := HashAndNumber(latestBlock.hash, latestBlock.number);
    var recovery := if timeoutFired.Some? then [ChainRecovery(best, timeoutFired.value)] else [];
    var alert := [];
    if message.maybeReorgData.Some? {
      var ReorgData(enacted, retracted, commonBlock) := message.maybeReorgData.value;
      if |retracted| >= config.reorgDepthThreshold {
        alert := [Reorg(best, commonBlock, enacted, retracted)];
      }
    }
    sent := recovery + alert;
  }

  /** One turn of the loop for a timeout. */
  method HandleTimeout(config: Config, timeoutFired: Option<Duration>, lastBest: Option<HashAndNumber>,
                       ghost streak: nat)
    returns (nonImportDuration: Duration, sent: seq<Alert>)
    requires timeoutFired == Fired(config, streak)
    ensures Some(nonImportDuration) == Fired(config, streak + 1)
    ensures sent == AlertsAt(config, streak, lastBest, Timeout)
  {
    RepeatedOnceMore(streak, config.stallThreshold);
    nonImportDuration :=
      if timeoutFired.Some? then SaturatingAdd(timeoutFired.value, config.stallThreshold)
      else config.stallThreshold;
    sent := if lastBest.Some? then [ChainStall(lastBest.value, nonImportDuration)] else [];
  }

  /** The monitor's loop, over the events up to the end of its stream. */
  method WatchChainStallAndReorg(events: seq<Event>, config: Config) returns (alertSink: seq<Alert>)
    requires HaveBlocks(events)
    ensures alertSink == Alerts(config, events)
  {
    alertSink := [];
    var timeoutFired: Option<Duration> := None;
    var maybeLastBestBlock: Option<HashAndNumber> := None;
    for i := 0 to |events|
      invariant Holds(config, events[..i], alertSink, timeoutFired, maybeLastBestBlock)
    {
      ghost var streak := Streak(events[..i]);
      OneMoreEvent(config, events, i, alertSink, timeoutFired, maybeLastBestBlock);
      match events[i]
      case Blocks(message) =>
        var best, sent := HandleMessage(message, config, timeoutFired, streak, maybeLastBestBlock);
        timeoutFired, maybeLastBestBlock, alertSink := None, Some(best), alertSink + sent;
      case Timeout =>
        var stalled, sent := HandleTimeout(config, timeoutFired, maybeLastBestBlock, streak);
        timeoutFired, alertSink := Some(stalled), alertSink + sent;
    }
    assert events[..|events|] == events;
  }

  /* ---------- What one event sends, in terms of the events before it ---------- */

  /** The events from `j` on are timeouts, and right before them, if there is anything, is a message. */
  ghost predicate TimeoutsFrom(events: seq<Event>, j: nat) {
    && j <= |events|
    && (forall i | j <= i < |events| :: events[i].Timeout?)
    && (j > 0 ==> events[j - 1].Blocks?)
  }

  lemma {:induction false} StreakIs(events: seq<Event>, j: nat)
    requires HaveBlocks(events) && TimeoutsFrom(events, j)
    ensures Streak(events) == |events| - j
    ensures LastBest(events) == if j == 0 then None else Some(Tip(events[j - 1].message))
  {
    if j < |events| {
      StreakIs(events[..|events| - 1], j);
    }
  }

  /** `best` is the last block of the message. */
  ghost predicate IsLastBlock(m: BlocksExt, best: HashAndNumber) {
    m.blocks != [] && best.hash == m.blocks[|m.blocks| - 1].hash && best.number == m.blocks[|m.blocks| - 1].number
  }

  /** The reorg that a message reports, if it retracts enough blocks. */
  ghost predicate ReportsReorg(config: Config, m: BlocksExt, sent: seq<Alert>) {
    if m.maybeReorgData.Some? && |m.maybeReorgData.value.retracted| >= config.reorgDepthThreshold then
      && |sent| == 1 && sent[0].Reorg? && IsLastBlock(m, sent[0].bestBlock)
      && sent[0].commonBlock == m.maybeReorgData.value.commonBlock
      && sent[0].enacted == m.maybeReorgData.value.enacted
      && sent[0].retracted == m.maybeReorgData.value.retracted
    else
      sent == []
  }

  lemma SendsAfter(config: Config, events: seq<Event>, n: nat, j: nat) returns (lastBest: Option<HashAndNumber>)
    requires HaveBlocks(events) && |events| == n + 1 && TimeoutsFrom(events[..n], j)
    ensures lastBest == if j == 0 then None else Some(Tip(events[j - 1].message))
    ensures Alerts(config, events) == Alerts(config, events[..n]) + AlertsAt(config, n - j, lastBest, events[n])
  {
    StreakIs(events[..n], j);
    lastBest := LastBest(events[..n]);
  }

  /** A stall for the last block of `m` and so many timeouts. */
  ghost predicate IsStall(config: Config, m: BlocksExt, k: nat, sent: seq<Alert>) {
    && |sent| == 1 && sent[0].ChainStall?
    && IsLastBlock(m, sent[0].lastBlock)
    && sent[0].duration == Times(k, config.stallThreshold)
  }

  /** A recovery for the last block of `m` and so many timeouts. */
  ghost predicate IsRecovery(config: Config, m: BlocksExt, k: nat, sent: seq<Alert>) {
    && |sent| == 1 && sent[0].ChainRecovery?
    && IsLastBlock(m, sent[0].bestBlock)
    && sent[0].duration == Times(k, config.stallThreshold)
  }

  lemma StallIs(config: Config, streak: nat, m: BlocksExt)
    requires m.blocks != []
    ensures IsStall(config, m, streak + 1, AlertsAt(config, streak, Some(Tip(m)), Timeout))
  {
    RepeatedIsMultiple(streak + 1, config.stallThreshold);
  }

  lemma RecoveryIs(config: Config, streak: nat, m: BlocksExt)
    requires m.blocks != []
    ensures if streak == 0 then RecoveryAlert(config, streak, Tip(m)) == []
            else IsRecovery(config, m, streak, RecoveryAlert(config, streak, Tip(m)))
  {
    RepeatedIsMultiple(streak, config.stallThreshold);
  }

  lemma ReorgIs(config: Config, m: BlocksExt)
    requires m.blocks != []
    ensures ReportsReorg(config, m, ReorgAlert(config, m))
  {
  }

  /**
   A timeout sends nothing before the first message. After that it sends one stall, for the last block
   of the last message and for all timeouts since.
   */
  lemma TimeoutSends(config: Config, events: seq<Event>, n: nat, j: nat) returns (sent: seq<Alert>)
    requires HaveBlocks(events) && |events| == n + 1 && events[n].Timeout? && TimeoutsFrom(events[..n], j)
    ensures Alerts(config, events) == Alerts(config, events[..n]) + sent
    ensures if j == 0 then sent == [] else IsStall(config, events[j - 1].message, n - j + 1, sent)
  {
    var lastBest := SendsAfter(config, events, n, j);
    sent := AlertsAt(config, n - j, lastBest, events[n]);
    if j > 0 {
      StallIs(config, n - j, events[j - 1].message);
    }
  }

  /**
   A message sends a recovery exactly when timeouts came right before it: for its own last block and
   for all of these timeouts. After that it reports its reorg if that is deep enough.
   */
  lemma MessageSends(config: Config, events: seq<Event>, n: nat, j: nat)
    returns (recovery: seq<Alert>, reorg: seq<Alert>)
    requires HaveBlocks(events) && |events| == n + 1 && events[n].Blocks? && TimeoutsFrom(events[..n], j)
    ensures Alerts(config, events) == Alerts(config, events[..n]) + (recovery + reorg)
    ensures if j == n then recovery == [] else IsRecovery(config, events[n].message, n - j, recovery)
    ensures ReportsReorg(config, events[n].message, reorg)
  {
    var _ := SendsAfter(config, events, n, j);
    RecoveryIs(config, n - j, events[n].message);
    ReorgIs(config, events[n].message);
    recovery, reorg := RecoveryAlert(config, n - j, Tip(events[n].message)), ReorgAlert(config, events[n].message);
  }

  /* ---------- Stalls and recoveries come in pairs ---------- */

  /** The stall and recovery alerts, in order. */
  ghost function StallsAndRecoveries(alerts: seq<Alert>): seq<Alert> {
    if alerts == [] then []
    else
      var last := alerts[|alerts| - 1];
      StallsAndRecoveries(alerts[..|alerts| - 1]) + if last.Reorg? then [] else [last]
  }

  lemma {:induction false} StallsAndRecoveriesAppend(a: seq<Alert>, b: seq<Alert>)
    ensures StallsAndRecoveries(a + b) == StallsAndRecoveries(a) + StallsAndRecoveries(b)
  {
    if b == [] {
      assert a + b == a;
    } else {
      var front := b[..|b| - 1];
      assert (a + b)[..|a + b| - 1] == a + front;
      StallsAndRecoveriesAppend(a, front);
    }
  }

  lemma OnlyRecoveryIsKept(recovery: seq<Alert>, reorg: seq<Alert>)
    requires recovery == [] || (|recovery| == 1 && recovery[0].ChainRecovery?)
    requires reorg == [] || (|reorg| == 1 && reorg[0].Reorg?)
    ensures StallsAndRecoveries(recovery + reorg) == recovery
  {
    StallsAndRecoveriesAppend(recovery, reorg);
    assert StallsAndRecoveries([]) == [];
  }

  /** The stall or recovery that an event is due to send. */
  ghost function DueAt(config: Config, streak: nat, lastBest: Option<HashAndNumber>, event: Event): seq<Alert>
    requires HasBlocks(event)
  {
    match event
    case Timeout => AlertsAt(config, streak, lastBest, event)
    case Blocks(m) => RecoveryAlert(config, streak, Tip(m))
  }

  lemma SendsWhatIsDue(config: Config, streak: nat, lastBest: Option<HashAndNumber>, event: Event)
    requires HasBlocks(event)
    ensures StallsAndRecoveries(AlertsAt(config, streak, lastBest, event)) == DueAt(config, streak, lastBest, event)
  {
    if event.Blocks? {
      OnlyRecoveryIsKept(RecoveryAlert(config, streak, Tip(event.message)), ReorgAlert(config, event.message));
    }
  }

  /** All stalls and recoveries due over a run. */
  ghost function Due(config: Config, events: seq<Event>): seq<Alert>
    requires HaveBlocks(events)
  {
    if events == [] then
      []
    else
      var before := events[..|events| - 1];
      Due(config, before) + DueAt(config, Streak(before), LastBest(before), events[|events| - 1])
  }

  /** The stalls and recoveries sent are those due, whatever reorgs are reported among them. */
  lemma {:induction false} StallsAndRecoveriesAreDue(config: Config, events: seq<Event>)
    requires HaveBlocks(events)
    ensures StallsAndRecoveries(Alerts(config, events)) == Due(config, events)
  {
    if events != [] {
      var before, event := events[..|events| - 1], events[|events| - 1];
      StallsAndRecoveriesAreDue(config, before);
      StallsAndRecoveriesAppend(Alerts(config, before), AlertsAt(config, Streak(before), LastBest(before), event));
      SendsWhatIsDue(config, Streak(before), LastBest(before), event);
    }
  }

  lemma {:induction false} NothingDueBeforeFirstMessage(config: Config, events: seq<Event>)
    requires HaveBlocks(events) && LastBest(events).None?
    ensures Due(config, events) == []
  {
    if events != [] {
      NothingDueBeforeFirstMessage(config, events[..|events| - 1]);
    }
  }

  /** The latest alert is a stall after the last best block; before the first message there is none. */
  ghost predicate StallIsLast(config: Config, sent: seq<Alert>, lastBest: Option<HashAndNumber>, streak: nat) {
    match lastBest
    case None => sent == []
    case Some(best) =>
      sent != [] && sent[|sent| - 1] == ChainStall(best, Repeated(streak, config.stallThreshold))
  }

  /** While timeouts run after a first message, the latest such alert is the stall they amount to. */
  lemma StallIsLatest(config: Config, events: seq<Event>)
    requires HaveBlocks(events) && Streak(events) > 0
    ensures StallIsLast(config, Due(config, events), LastBest(events), Streak(events))
  {
    if LastBest(events).None? {
      NothingDueBeforeFirstMessage(config, events);
    }
  }

  /**
   The event after `before` sends a recovery exactly when it is a message right after a timeout.
   Unless that is the first message of all, the stall or recovery alert sent just before it is the
   stall of the same duration; before the first message nothing was sent.
   */
  lemma RecoveryFollowsStall(config: Config, before: seq<Event>, event: Event, best: HashAndNumber,
                             duration: Duration)
    requires HaveBlocks(before) && HasBlocks(event)
    ensures ChainRecovery(best, duration) in AlertsAt(config, Streak(before), LastBest(before), event)
       <==> (&& event.Blocks? && Streak(before) > 0 && IsLastBlock(event.message, best)
             && duration == Repeated(Streak(before), config.stallThreshold))
    ensures event.Blocks? && Streak(before) > 0 ==>
              && before[|before| - 1].Timeout?
              && StallIsLast(config, StallsAndRecoveries(Alerts(config, before)), LastBest(before), Streak(before))
  {
    if event.Blocks? && Streak(before) > 0 {
      StallsAndRecoveriesAreDue(config, before);
      StallIsLatest(config, before);
      assert RecoveryAlert(config, Streak(before), Tip(event.message))[0]
          == ChainRecovery(Tip(event.message), Repeated(Streak(before), config.stallThreshold));
    }
  }

  lemma {:induction false} DueArePaired(config: Config, events: seq<Event>, i: nat)
    requires HaveBlocks(events)
    requires 0 < i < |Due(config, events)| && Due(config, events)[i].ChainRecovery?
    ensures var sent := Due(config, events);
            sent[i - 1].ChainStall? && sent[i - 1].duration == sent[i].duration
  {
    var before := events[..|events| - 1];
    if i < |Due(config, before)| {
      DueArePaired(config, before, i);
    } else {
      StallIsLatest(config, before);
    }
  }

  /**
   In every run: a recovery that is not the first stall or recovery alert comes right after a stall
   of the same duration. So there are never two recoveries without a stall in between.
   */
  lemma RecoveriesArePaired(config: Config, events: seq<Event>, i: nat)
    requires HaveBlocks(events)
    requires 0 < i < |StallsAndRecoveries(Alerts(config, events))|
    requires StallsAndRecoveries(Alerts(config, events))[i].ChainRecovery?
    ensures var sent := StallsAndRecoveries(Alerts(config, events));
            sent[i - 1].ChainStall? && sent[i - 1].duration == sent[i].duration
  {
    StallsAndRecoveriesAreDue(config, events);
    DueArePaired(config, events, i);
  }

  /* ---------- Reorg alerts ---------- */

  ghost function Messages(events: seq<Event>): (ms: seq<BlocksExt>) {
    if events == [] then []
    else
      var last := events[|events| - 1];
      Messages(events[..|events| - 1]) + if last.Blocks? then [last.message] else []
  }

  ghost function Reorgs(alerts: seq<Alert>): seq<Alert> {
    if alerts == [] then []
    else
      var last := alerts[|alerts| - 1];
      Reorgs(alerts[..|alerts| - 1]) + if last.Reorg? then [last] else []
  }

  lemma {:induction false} ReorgsAppend(a: seq<Alert>, b: seq<Alert>)
    ensures Reorgs(a + b) == Reorgs(a) + Reorgs(b)
  {
    if b == [] {
      assert a + b == a;
    } else {
      var front := b[..|b| - 1];
      assert (a + b)[..|a + b| - 1] == a + front;
      ReorgsAppend(a, front);
    }
  }

  ghost predicate AllHaveBlocks(messages: seq<BlocksExt>) {
    forall i | 0 <= i < |messages| :: messages[i].blocks != []
  }

  ghost function ReorgAlerts(config: Config, messages: seq<BlocksExt>): seq<Alert>
    requires AllHaveBlocks(messages)
  {
    if messages == [] then []
    else ReorgAlerts(config, messages[..|messages| - 1]) + ReorgAlert(config, messages[|messages| - 1])
  }

  lemma ReorgAlertsOneMore(config: Config, messages: seq<BlocksExt>, m: BlocksExt)
    requires AllHaveBlocks(messages) && m.blocks != []
    ensures AllHaveBlocks(messages + [m])
    ensures ReorgAlerts(config, messages + [m]) == ReorgAlerts(config, messages) + ReorgAlert(config, m)
  {
    assert (messages + [m])[..|messages|] == messages;
  }

  lemma OnlyReorgIsKept(recovery: seq<Alert>, reorg: seq<Alert>)
    requires recovery == [] || (|recovery| == 1 && !recovery[0].Reorg?)
    requires reorg == [] || (|reorg| == 1 && reorg[0].Reorg?)
    ensures Reorgs(recovery + reorg) == reorg
  {
    ReorgsAppend(recovery, reorg);
    assert Reorgs([]) == [];
  }

  lemma ReorgsAt(config: Config, streak: nat, lastBest: Option<HashAndNumber>, event: Event)
    requires HasBlocks(event)
    ensures Reorgs(AlertsAt(config, streak, lastBest, event))
         == if event.Blocks? then ReorgAlert(config, event.message) else []
  {
    match event
    case Timeout =>
      var sent := AlertsAt(config, streak, lastBest, event);
      OnlyReorgIsKept(sent, []);
      assert sent + [] == sent;
    case Blocks(m) =>
      OnlyReorgIsKept(RecoveryAlert(config, streak, Tip(m)), ReorgAlert(config, m));
  }

  /** The reorg alerts depend on the messages alone, not on the timeouts among them. */
  lemma {:induction false} ReorgsIgnoreTimeouts(config: Config, events: seq<Event>)
    requires HaveBlocks(events)
    ensures AllHaveBlocks(Messages(events))
    ensures Reorgs(Alerts(config, events)) == ReorgAlerts(config, Messages(events))
  {
    if events != [] {
      var before, event := events[..|events| - 1], events[|events| - 1];
      ReorgsIgnoreTimeouts(config, before);
      ReorgsAppend(Alerts(config, before), AlertsAt(config, Streak(before), LastBest(before), event));
      ReorgsAt(config, Streak(before), LastBest(before), event);
      if event.Blocks? {
        ReorgAlertsOneMore(config, Messages(before), event.message);
      } else {
        assert Messages(events) == Messages(before);
      }
    }
  }

  lemma {:induction false} MessagesHaveBlocks(events: seq<Event>)
    requires AllHaveBlocks(Messages(events))
    ensures HaveBlocks(events)
  {
    if events != [] {
      var before := events[..|events| - 1];
      assert forall i | 0 <= i < |Messages(before)| :: Messages(events)[i] == Messages(before)[i];
      MessagesHaveBlocks(before);
      if events[|events| - 1].Blocks? {
        assert Messages(events)[|Messages(before)|] == events[|events| - 1].message;
      }
      assert forall i | 0 <= i < |before| :: before[i] == events[i];
    }
  }
}
