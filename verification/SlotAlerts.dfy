/**
 What the slot monitor accepts, counts and sends, event by event, in terms of the positions of the
 events in the run.
 */
module SlotAlerts {
  import opened Wrappers
  import opened Durations
  import opened SlotMonitor

  /* ---------- What is accepted and counted ---------- */

  /** Accepted slot `i` is the message at `at[i]`, later than the one before and one slot above it. */
  ghost predicate Placed(events: seq<Event>, at: seq<nat>, accepted: seq<Stamp>, i: nat)
    requires i < |at| == |accepted|
  {
    && at[i] < |events| && events[at[i]].Slot?
    && accepted[i].slot == events[at[i]].slot && accepted[i].at == events[at[i]].at
    && (i > 0 ==> at[i - 1] < at[i] && accepted[i].slot == accepted[i - 1].slot + 1)
  }

  /** No message strictly between `a` and `b` is for the slot right above `slot`. */
  ghost predicate NoneBetween(events: seq<Event>, slot: nat, a: nat, b: nat) {
    b <= |events| && forall k | a < k < b && events[k].Slot? :: events[k].slot != slot + 1
  }

  ghost predicate OnlyTimeouts(events: seq<Event>, b: nat) {
    b <= |events| && forall k | 0 <= k < b :: events[k].Timeout?
  }

  /** Where the slot after accepted slot `i` was accepted; the end of the run, if there is none. */
  ghost function NextAt(at: seq<nat>, i: nat, end: nat): nat {
    if i + 1 < |at| then at[i + 1] else end
  }

  /**
   `at` lists the positions of the accepted slots: the first slot message, and from then on each next
   message whose slot is one more than the last accepted one.
   */
  ghost predicate AcceptedAt(events: seq<Event>, at: seq<nat>, accepted: seq<Stamp>) {
    && |at| == |accepted|
    && (forall i | 0 <= i < |at| :: Placed(events, at, accepted, i))
    && OnlyTimeouts(events, if at == [] then |events| else at[0])
    && (forall i | 0 <= i < |at| :: NoneBetween(events, accepted[i].slot, at[i], NextAt(at, i, |events|)))
  }

  /** The number of timeouts from position `a` on. */
  ghost function TimeoutsSince(events: seq<Event>, a: nat): nat
    requires a <= |events|
  {
    multiset(events[a..])[Timeout]
  }

  /** The position after the last extension, or the start. */
  ghost function AfterExtension(at: seq<nat>): nat {
    if |at| <= 1 then 0 else at[|at| - 1] + 1
  }

  lemma StillPlaced(events: seq<Event>, n: nat, at: seq<nat>, accepted: seq<Stamp>, i: nat)
    requires n <= |events| && i < |at| == |accepted| && Placed(events[..n], at, accepted, i)
    ensures Placed(events, at, accepted, i)
  {
  }

  lemma StillNoneBetween(events: seq<Event>, n: nat, slot: nat, a: nat, b: nat)
    requires n <= |events| && NoneBetween(events[..n], slot, a, b)
    ensures NoneBetween(events, slot, a, b)
  {
    forall k | a < k < b && events[k].Slot?
      ensures events[k].slot != slot + 1
    {
      assert events[..n][k] == events[k];
    }
  }

  lemma StillOnlyTimeouts(events: seq<Event>, n: nat, b: nat)
    requires n <= |events| && OnlyTimeouts(events[..n], b)
    ensures OnlyTimeouts(events, b)
  {
    assert forall k | 0 <= k < b :: events[..n][k] == events[k];
  }

  lemma PassedOver(events: seq<Event>, n: nat, at: seq<nat>, accepted: seq<Stamp>)
    requires |events| == n + 1 && AcceptedAt(events[..n], at, accepted) && !Accepts(accepted, events[n])
    ensures AcceptedAt(events, at, accepted)
  {
    forall i: nat | i < |at|
      ensures Placed(events, at, accepted, i)
      ensures NoneBetween(events, accepted[i].slot, at[i], NextAt(at, i, |events|))
    {
      StillPlaced(events, n, at, accepted, i);
      assert NoneBetween(events[..n], accepted[i].slot, at[i], NextAt(at, i, n));
      StillNoneBetween(events, n, accepted[i].slot, at[i], NextAt(at, i, n));
    }
    StillOnlyTimeouts(events, n, if at == [] then n else at[0]);
  }

  lemma NextPlaced(events: seq<Event>, n: nat, at: seq<nat>, accepted: seq<Stamp>, x: Stamp, i: nat)
    requires |events| == n + 1 && AcceptedAt(events[..n], at, accepted) && i < |at|
    ensures Placed(events, at + [n], accepted + [x], i)
  {
    StillPlaced(events, n, at, accepted, i);
  }

  lemma NextNoneBetween(events: seq<Event>, n: nat, at: seq<nat>, accepted: seq<Stamp>, i: nat, end: nat)
    requires |events| == n + 1 && AcceptedAt(events[..n], at, accepted) && i < |at|
    ensures NoneBetween(events, accepted[i].slot, at[i], NextAt(at + [n], i, end))
  {
    assert NoneBetween(events[..n], accepted[i].slot, at[i], NextAt(at, i, n));
    StillNoneBetween(events, n, accepted[i].slot, at[i], NextAt(at, i, n));
  }

  lemma LastPlaced(events: seq<Event>, n: nat, at: seq<nat>, accepted: seq<Stamp>, x: Stamp)
    requires |events| == n + 1 && AcceptedAt(events[..n], at, accepted) && Accepts(accepted, events[n])
    requires x == Stamp(events[n].slot, events[n].at)
    ensures Placed(events, at + [n], accepted + [x], |at|)
  {
    assert at != [] ==> Placed(events[..n], at, accepted, |at| - 1);
  }

  lemma AcceptedNext(events: seq<Event>, n: nat, at: seq<nat>, accepted: seq<Stamp>, x: Stamp)
    requires |events| == n + 1 && AcceptedAt(events[..n], at, accepted) && Accepts(accepted, events[n])
    requires x == Stamp(events[n].slot, events[n].at)
    ensures AcceptedAt(events, at + [n], accepted + [x])
  {
    var at', accepted' := at + [n], accepted + [x];
    forall i: nat | i < |at'|
      ensures Placed(events, at', accepted', i)
      ensures NoneBetween(events, accepted'[i].slot, at'[i], NextAt(at', i, |events|))
    {
      if i < |at| {
        NextPlaced(events, n, at, accepted, x, i);
        NextNoneBetween(events, n, at, accepted, i, |events|);
      } else {
        LastPlaced(events, n, at, accepted, x);
      }
    }
    StillOnlyTimeouts(events, n, if at == [] then n else at[0]);
  }

  lemma TimeoutsOneMore(events: seq<Event>, n: nat, a: nat)
    requires |events| == n + 1 && a <= n
    ensures TimeoutsSince(events, a) == TimeoutsSince(events[..n], a) + if events[n].Timeout? then 1 else 0
  {
    assert events[a..] == events[..n][a..] + [events[n]];
  }

  lemma CountedNext(events: seq<Event>, n: nat, accepted: seq<Stamp>, before: seq<nat>, at: seq<nat>)
    requires |events| == n + 1 && accepted == Accepted(events[..n]) && |before| == |accepted|
    requires at == if Accepts(accepted, events[n]) then before + [n] else before
    requires AfterExtension(before) <= n && Quiet(events[..n]) == TimeoutsSince(events[..n], AfterExtension(before))
    ensures AfterExtension(at) <= |events| && Quiet(events) == TimeoutsSince(events, AfterExtension(at))
  {
    TimeoutsOneMore(events, n, AfterExtension(before));
    assert events[n + 1..] == [];
  }

  /**
   In every run the accepted slots are at such positions, and the timeouts counted are those after the
   last of them or, until the first extension, all of them.
   */
  lemma {:induction false} AcceptedInOrder(events: seq<Event>) returns (at: seq<nat>)
    ensures AcceptedAt(events, at, Accepted(events))
    ensures AfterExtension(at) <= |events| && Quiet(events) == TimeoutsSince(events, AfterExtension(at))
  {
    at := [];
    if events != [] {
      var n := |events| - 1;
      var before := AcceptedInOrder(events[..n]);
      var accepted := Accepted(events[..n]);
      if Accepts(accepted, events[n]) {
        at := before + [n];
        AcceptedNext(events, n, before, accepted, Stamp(events[n].slot, events[n].at));
      } else {
        at := before;
        PassedOver(events, n, before, accepted);
      }
      CountedNext(events, n, accepted, before, at);
    }
  }

  /* ---------- Slot times and the window ---------- */

  /** A slot takes the time since the one accepted before it, the seed since the start; never less than none. */
  lemma {:induction false} SlotTimeIs(start: Instant, accepted: seq<Stamp>, i: nat)
    requires i < |accepted|
    ensures var since := if i == 0 then start else accepted[i - 1].at;
            && Details(start, accepted)[i].slot == accepted[i].slot
            && Details(start, accepted)[i].duration == if since <= accepted[i].at then accepted[i].at - since else 0
  {
    if i < |accepted| - 1 {
      SlotTimeIs(start, accepted[..|accepted| - 1], i);
    }
  }

  /** The window holds every slot while there are at most 600, and then the first `victim` and the newest. */
  lemma WindowIs(pushed: seq<SlotDetails>, victim: Victim, i: nat)
    ensures |Window(pushed, victim)| == if |pushed| <= 600 then |pushed| else 600
    ensures i < |Window(pushed, victim)| ==>
              Window(pushed, victim)[i] == if |pushed| <= 600 || i < victim then pushed[i] else pushed[|pushed| - 600 + i]
  {
  }

  /* ---------- What one event sends ---------- */

  /**
   A timeout sends nothing before the seed. After that it sends one stall, for the last accepted slot
   and thirty seconds for every timeout counted.
   */
  lemma TimeoutSends(config: Config, victim: Victim, start: Instant, events: seq<Event>, n: nat)
    returns (sent: seq<Alert>)
    requires |events| == n + 1 && events[n].Timeout?
    ensures Alerts(config, victim, start, events) == Alerts(config, victim, start, events[..n]) + sent
    ensures var accepted := Accepted(events[..n]);
            if accepted == [] then sent == []
            else
              && |sent| == 1 && sent[0].TimekeeperStall?
              && sent[0].lastSlot == accepted[|accepted| - 1].slot
              && sent[0].stalled == Times(Quiet(events[..n]) + 1, 30_000_000_000)
  {
    var accepted, quiet := Accepted(events[..n]), Quiet(events[..n]);
    sent := AlertsAt(config, victim, start, accepted, quiet, events[n]);
    RepeatedIsMultiple(quiet + 1, SLOT_TIMEOUT);
  }

  /** The next slot after the accepted ones. */
  ghost predicate IsNext(accepted: seq<Stamp>, event: Event) {
    event.Slot? && accepted != [] && event.slot == accepted[|accepted| - 1].slot + 1
  }

  /** A recovery for the slot, with thirty seconds for every timeout counted, if there are any. */
  ghost predicate IsRecovery(quiet: nat, slot: nat, sent: seq<Alert>) {
    if quiet > 0 then
      && |sent| == 1 && sent[0].TimekeeperRecovery?
      && sent[0].slot == slot && sent[0].recovered == Times(quiet, 30_000_000_000)
    else
      sent == []
  }

  /** A slow-slot alert for `slot`, accepted at `at` after `previous`, if it took longer than the threshold. */
  ghost predicate IsSlow(config: Config, previous: Stamp, slot: nat, at: Instant, sent: seq<Alert>) {
    if at > previous.at && at - previous.at > config.perSlotThreshold then
      && |sent| == 1 && sent[0].SlowSlot? && sent[0].slot == slot && sent[0].previousSlot == previous.slot
      && sent[0].slotTime == at - previous.at && sent[0].threshold == config.perSlotThreshold
    else
      sent == []
  }

  /** An average alert for `slot`, if the window is full and the average over it is above the threshold. */
  ghost predicate IsSlowAverage(config: Config, count: nat, total: nat, slot: nat, sent: seq<Alert>) {
    if count >= 600 && total / 600 > config.avgSlotThreshold then
      && |sent| == 1 && sent[0].AvgSlowSlots? && sent[0].slot == slot && sent[0].slotCount == 600
      && sent[0].avgSlotTime == total / 600 && sent[0].threshold == config.avgSlotThreshold
    else
      sent == []
  }

  lemma RecoveryIs(quiet: nat, slot: nat)
    ensures IsRecovery(quiet, slot, RecoveryAlert(slot, Fired(quiet)))
  {
    RepeatedIsMultiple(quiet, SLOT_TIMEOUT);
  }

  lemma SlowIs(config: Config, previous: Stamp, slot: nat, at: Instant)
    ensures IsSlow(config, previous, slot, at,
                   SlowAlert(config, previous.slot, SlotDetails(slot, DurationSince(at, previous.at))))
  {
  }

  lemma SlowAverageIs(config: Config, victim: Victim, slot: nat, details: seq<SlotDetails>)
    requires details != []
    ensures var window := Window(details, victim);
            IsSlowAverage(config, |details|, Sum(window), slot,
                          AvgSlowAlert(config, slot, |window|, Average(window)))
  {
  }

  /** What the next slot sends. */
  ghost predicate IsExtension(config: Config, victim: Victim, start: Instant, accepted: seq<Stamp>, quiet: nat,
                              event: Event, recovery: seq<Alert>, slow: seq<Alert>, average: seq<Alert>)
    requires IsNext(accepted, event)
  {
    var window := Window(Details(start, accepted + [Stamp(event.slot, event.at)]), victim);
    && IsRecovery(quiet, event.slot, recovery)
    && IsSlow(config, accepted[|accepted| - 1], event.slot, event.at, slow)
    && IsSlowAverage(config, |accepted| + 1, Sum(window), event.slot, average)
  }

  lemma ExtensionIs(config: Config, victim: Victim, start: Instant, accepted: seq<Stamp>, quiet: nat, event: Event)
    returns (recovery: seq<Alert>, slow: seq<Alert>, average: seq<Alert>)
    requires IsNext(accepted, event)
    ensures AlertsAt(config, victim, start, accepted, quiet, event) == recovery + slow + average
    ensures IsExtension(config, victim, start, accepted, quiet, event, recovery, slow, average)
  {
    var previous, details := accepted[|accepted| - 1], Details(start, accepted + [Stamp(event.slot, event.at)]);
    var window := Window(details, victim);
    DetailsOneMore(start, accepted, Stamp(event.slot, event.at));
    recovery := RecoveryAlert(event.slot, Fired(quiet));
    slow := SlowAlert(config, previous.slot, SlotDetails(event.slot, DurationSince(event.at, previous.at)));
    average := AvgSlowAlert(config, event.slot, |window|, Average(window));
    RecoveryIs(quiet, event.slot);
    SlowIs(config, previous, event.slot, event.at);
    SlowAverageIs(config, victim, event.slot, details);
  }

  lemma AlertsOneMore(config: Config, victim: Victim, start: Instant, events: seq<Event>, n: nat)
    requires |events| == n + 1
    ensures Alerts(config, victim, start, events)
         == Alerts(config, victim, start, events[..n])
            + AlertsAt(config, victim, start, Accepted(events[..n]), Quiet(events[..n]), events[n])
  {
  }

  /**
   A slot message sends nothing unless its slot is the next one. If it is, it sends a recovery if
   timeouts are counted, a slow-slot alert and an average alert, each exactly when it is due.
   */
  lemma SlotSends(config: Config, victim: Victim, start: Instant, events: seq<Event>, n: nat)
    returns (recovery: seq<Alert>, slow: seq<Alert>, average: seq<Alert>)
    requires |events| == n + 1 && events[n].Slot?
    ensures Alerts(config, victim, start, events)
         == Alerts(config, victim, start, events[..n]) + (recovery + slow + average)
    ensures var accepted := Accepted(events[..n]);
            if IsNext(accepted, events[n])
            then IsExtension(config, victim, start, accepted, Quiet(events[..n]), events[n], recovery, slow, average)
            else recovery == slow == average == []
  {
    AlertsOneMore(config, victim, start, events, n);
    var accepted, quiet := Accepted(events[..n]), Quiet(events[..n]);
    if IsNext(accepted, events[n]) {
      recovery, slow, average := ExtensionIs(config, victim, start, accepted, quiet, events[n]);
    } else {
      recovery, slow, average := [], [], [];
    }
  }

  /** `alert` is the average alert that is due for `event`. */
  ghost predicate AvgDue(config: Config, victim: Victim, start: Instant, accepted: seq<Stamp>, event: Event, alert: Alert) {
    && IsNext(accepted, event) && |accepted| + 1 >= 600
    && var average := Sum(Window(Details(start, accepted + [Stamp(event.slot, event.at)]), victim)) / 600;
       && average > config.avgSlotThreshold
       && alert.AvgSlowSlots? && alert.slot == event.slot && alert.slotCount == 600
       && alert.avgSlotTime == average && alert.threshold == config.avgSlotThreshold
  }

  lemma InExtension(config: Config, victim: Victim, start: Instant, accepted: seq<Stamp>, quiet: nat, event: Event,
                    recovery: seq<Alert>, slow: seq<Alert>, average: seq<Alert>, alert: Alert)
    requires IsNext(accepted, event) && alert.AvgSlowSlots?
    requires IsExtension(config, victim, start, accepted, quiet, event, recovery, slow, average)
    ensures alert in recovery + slow + average <==> AvgDue(config, victim, start, accepted, event, alert)
  {
    assert alert in recovery + slow + average <==> alert in average;
  }

  /**
   An average alert is sent exactly by a next slot with which at least 600 are accepted, if the average
   over the window, rounded down, is above the threshold.
   */
  lemma AvgAlertIff(config: Config, victim: Victim, start: Instant, events: seq<Event>, n: nat, alert: Alert)
    returns (sent: seq<Alert>)
    requires |events| == n + 1 && alert.AvgSlowSlots?
    ensures Alerts(config, victim, start, events) == Alerts(config, victim, start, events[..n]) + sent
    ensures alert in sent <==> AvgDue(config, victim, start, Accepted(events[..n]), events[n], alert)
  {
    var accepted, event := Accepted(events[..n]), events[n];
    if event.Timeout? {
      sent := TimeoutSends(config, victim, start, events, n);
    } else {
      var recovery, slow, average := SlotSends(config, victim, start, events, n);
      sent := recovery + slow + average;
      if IsNext(accepted, event) {
        InExtension(config, victim, start, accepted, Quiet(events[..n]), event, recovery, slow, average, alert);
      }
    }
  }
}
