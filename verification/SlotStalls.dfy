/**
 The timekeeper's stall and recovery alerts over whole runs of the slot monitor: which recovery
 answers which stall, and which recovery answers none.
 */
module SlotStalls {
  import opened Wrappers
  import opened Durations
  import opened SlotMonitor
  import opened SlotRuns

  /** The timekeeper's stall and recovery alerts, in order. */
  ghost function StallsAndRecoveries(alerts: seq<Alert>): seq<Alert> {
    if alerts == [] then []
    else
      var last := alerts[|alerts| - 1];
      StallsAndRecoveries(alerts[..|alerts| - 1])
      + if last.TimekeeperStall? || last.TimekeeperRecovery? then [last] else []
  }

  lemma {:induction false} StallsAndRecoveriesAppend(a: seq<Alert>, b: seq<Alert>)
    ensures StallsAndRecoveries(a + b) == StallsAndRecoveries(a) + StallsAndRecoveries(b)
  {
    if b == [] {
      assert a + b == a;
    } else {
      var front := b[..|b| - 1];
      assert (a + b)[..|a + b| - 1] == a + front;
      StallsAndRecoveriesAppend(a, front);
    }
  }

  lemma OnlyRecoveryIsKept(recovery: seq<Alert>, slow: seq<Alert>, average: seq<Alert>)
    requires recovery == [] || (|recovery| == 1 && recovery[0].TimekeeperRecovery?)
    requires slow == [] || (|slow| == 1 && slow[0].SlowSlot?)
    requires average == [] || (|average| == 1 && average[0].AvgSlowSlots?)
    ensures StallsAndRecoveries(recovery + slow + average) == recovery
  {
    StallsAndRecoveriesAppend(recovery + slow, average);
    StallsAndRecoveriesAppend(recovery, slow);
    assert StallsAndRecoveries([]) == [];
  }

  /** The stall or recovery that an event is due to send, given the accepted slots and the counted timeouts. */
  ghost function DueAt(accepted: seq<Stamp>, quiet: nat, event: Event): seq<Alert> {
    if event.Timeout? && accepted != [] then
      [TimekeeperStall(accepted[|accepted| - 1].slot, Repeated(quiet + 1, SLOT_TIMEOUT))]
    else if Extends(accepted, event) && quiet > 0 then
      [TimekeeperRecovery(event.slot, Repeated(quiet, SLOT_TIMEOUT))]
    else
      []
  }

  /** An event sends that and, apart from slow-slot alerts, nothing else. */
  lemma SendsWhatIsDue(config: Config, victim: Victim, start: Instant, accepted: seq<Stamp>, quiet: nat, event: Event)
    ensures StallsAndRecoveries(AlertsAt(config, victim, start, accepted, quiet, event)) == DueAt(accepted, quiet, event)
  {
    var sent := AlertsAt(config, victim, start, accepted, quiet, event);
    if Extends(accepted, event) {
      var details := Details(start, NextAccepted(accepted, event));
      var x, w := details[|details| - 1], Window(details, victim);
      var recovery := RecoveryAlert(x.slot, Fired(quiet));
      var slow := SlowAlert(config, accepted[|accepted| - 1].slot, x);
      var average := AvgSlowAlert(config, x.slot, |w|, Average(w));
      assert sent == recovery + slow + average;
      OnlyRecoveryIsKept(recovery, slow, average);
    } else if sent != [] {
      assert sent[..0] == [];
    }
  }

  /** All stalls and recoveries due over a run. */
  ghost function Due(events: seq<Event>): seq<Alert> {
    if events == [] then []
    else
      var before := events[..|events| - 1];
      Due(before) + DueAt(Accepted(before), Quiet(before), events[|events| - 1])
  }

  /** The stalls and recoveries sent are those due, whatever the thresholds and the window. */
  lemma {:induction false} StallsAndRecoveriesAreDue(config: Config, victim: Victim, start: Instant, events: seq<Event>)
    ensures StallsAndRecoveries(Alerts(config, victim, start, events)) == Due(events)
  {
    if events != [] {
      var before, event := events[..|events| - 1], events[|events| - 1];
      StallsAndRecoveriesAreDue(config, victim, start, before);
      StallsAndRecoveriesAppend(Alerts(config, victim, start, before),
                                AlertsAt(config, victim, start, Accepted(before), Quiet(before), event));
      SendsWhatIsDue(config, victim, start, Accepted(before), Quiet(before), event);
    }
  }

  lemma {:induction false} NothingDueBeforeSeed(events: seq<Event>)
    requires Accepted(events) == []
    ensures Due(events) == []
  {
    if events != [] {
      NothingDueBeforeSeed(events[..|events| - 1]);
    }
  }

  /** Timeouts are counted, but none came since the last accepted slot: all of them came before the seed. */
  ghost predicate OnlyBeforeSeed(events: seq<Event>) {
    Quiet(events) > 0 && SinceAccepted(events) == 0
  }

  /** The latest alert is a stall for the last of `accepted`, of as many timeouts as are counted. */
  ghost predicate StallIsLast(sent: seq<Alert>, accepted: seq<Stamp>, quiet: nat)
    requires accepted != []
  {
    && sent != []
    && sent[|sent| - 1] == TimekeeperStall(accepted[|accepted| - 1].slot, Repeated(quiet, SLOT_TIMEOUT))
  }

  /**
   While timeouts are counted, the latest such alert is the stall they amount to. If all of them came
   before the seed, none was sent.
   */
  lemma {:induction false} StallIsLatest(events: seq<Event>)
    requires Accepted(events) != [] && Quiet(events) > 0
    ensures if OnlyBeforeSeed(events) then Due(events) == [] else StallIsLast(Due(events), Accepted(events), Quiet(events))
  {
    var before, event := events[..|events| - 1], events[|events| - 1];
    if Accepted(before) == [] {
      NothingDueBeforeSeed(before);
    } else if event.Slot? {
      StallIsLatest(before);
    }
  }

  /**
   The event after `before` sends a recovery exactly when it extends the chain while timeouts are
   counted, and then for all of them. The stall or recovery alert sent last before it is the stall
   of the same duration, for the slot below. Only if all the timeouts came before the seed was
   nothing sent, and then this is the first extension.
   */
  lemma RecoveryFollowsStall(config: Config, victim: Victim, start: Instant, before: seq<Event>, event: Event,
                             alert: Alert)
    requires alert.TimekeeperRecovery?
    ensures alert in StallsAndRecoveries(AlertsAt(config, victim, start, Accepted(before), Quiet(before), event))
       <==> Recovers(before, event) && alert == TimekeeperRecovery(event.slot, Repeated(Quiet(before), SLOT_TIMEOUT))
    ensures Recovers(before, event) ==>
              var sent := StallsAndRecoveries(Alerts(config, victim, start, before));
              if OnlyBeforeSeed(before) then
                sent == [] && |Accepted(before)| == 1 && BeforeSeed(before) == Quiet(before)
              else
                && sent != []
                && sent[|sent| - 1] == TimekeeperStall(event.slot - 1, Repeated(Quiet(before), SLOT_TIMEOUT))
  {
    SendsWhatIsDue(config, victim, start, Accepted(before), Quiet(before), event);
    StallsAndRecoveriesAreDue(config, victim, start, before);
    if Recovers(before, event) {
      QuietCounts(before);
      StallIsLatest(before);
    }
  }

  /** A recovery comes right after a stall of the same duration, reported for the slot below. */
  ghost predicate Answers(stall: Alert, recovery: Alert) {
    && stall.TimekeeperStall? && recovery.TimekeeperRecovery?
    && stall.stalled == recovery.recovered && stall.lastSlot + 1 == recovery.slot
  }

  lemma {:induction false} DueArePaired(events: seq<Event>, i: nat)
    requires 0 < i < |Due(events)| && Due(events)[i].TimekeeperRecovery?
    ensures Answers(Due(events)[i - 1], Due(events)[i])
  {
    var before := events[..|events| - 1];
    if i < |Due(before)| {
      DueArePaired(before, i);
    } else {
      StallIsLatest(before);
    }
  }

  /**
   In every run: a recovery that is not the first stall or recovery alert comes right after a stall
   of the same duration, reported for the slot below.
   */
  lemma RecoveriesArePaired(config: Config, victim: Victim, start: Instant, events: seq<Event>, i: nat)
    requires 0 < i < |StallsAndRecoveries(Alerts(config, victim, start, events))|
    requires StallsAndRecoveries(Alerts(config, victim, start, events))[i].TimekeeperRecovery?
    ensures var sent := StallsAndRecoveries(Alerts(config, victim, start, events));
            Answers(sent[i - 1], sent[i])
  {
    StallsAndRecoveriesAreDue(config, victim, start, events);
    DueArePaired(events, i);
  }

  /** Event `k` ends a stall that was never reported: all its timeouts came before the seed. */
  ghost predicate Unreported(events: seq<Event>, k: nat) {
    k < |events| && Recovers(events[..k], events[k]) && OnlyBeforeSeed(events[..k])
  }

  lemma UnreportedEarlier(events: seq<Event>)
    requires events != []
    ensures var before := events[..|events| - 1];
            (exists k :: Unreported(events, k)) <==> (exists k :: Unreported(before, k)) || Unreported(events, |before|)
  {
    var before := events[..|events| - 1];
    forall k: nat | k < |before|
      ensures Unreported(events, k) <==> Unreported(before, k)
    {
      assert events[..k] == before[..k];
    }
  }

  ghost predicate RecoveryIsFirst(sent: seq<Alert>) {
    sent != [] && sent[0].TimekeeperRecovery?
  }

  lemma {:induction false} FirstDueIsRecoveryIff(events: seq<Event>)
    ensures RecoveryIsFirst(Due(events)) <==> exists k :: Unreported(events, k)
  {
    if events != [] {
      var before := events[..|events| - 1];
      FirstDueIsRecoveryIff(before);
      UnreportedEarlier(events);
      if Accepted(before) != [] && Quiet(before) > 0 {
        StallIsLatest(before);
      }
    }
  }

  /** The first stall or recovery alert of a run is a recovery exactly when some stall went unreported. */
  lemma FirstIsRecoveryIff(config: Config, victim: Victim, start: Instant, events: seq<Event>)
    ensures RecoveryIsFirst(StallsAndRecoveries(Alerts(config, victim, start, events)))
       <==> exists k :: Unreported(events, k)
  {
    StallsAndRecoveriesAreDue(config, victim, start, events);
    FirstDueIsRecoveryIff(events);
  }
}
